/**
 * Tolerant field extraction from one CSV row (`safe_get`).  A row maps header
 * names to cells; a cell is `Null` when the reader had no value for it (a
 * short row) and a string otherwise.
 */
module Fields {
  import opened Text

  datatype Cell = Null | Str(s: string)

  type Row = map<string, Cell>

  /**
   * `safe_get(row, key, default)`.  A missing key reads as the default
   * itself, which is then stripped like any present value; `None` and the
   * empty string give the default untouched; any other value is stripped,
   * so a value made only of whitespace becomes "" rather than the default.
   */
  function SafeGet(row: Row, key: string, default: string): (r: string)
    ensures key !in row ==> r == Strip(default)
    ensures key in row && row[key] in {Null, Str("")} ==> r == default
    ensures key in row && row[key].Str? && row[key].s != "" ==>
              r == Strip(row[key].s) && |r| <= |row[key].s|
  {
    var value := if key in row then row[key] else Str(default);
    match value
    case Null => default
    case Str(v) => if v != "" then Strip(v) else default
  }

  /** A default with no surrounding whitespace is what a missing, null or empty cell yields. */
  lemma SafeGetFallsBackToDefault(row: Row, key: string, default: string)
    requires Trimmed(default)
    requires key !in row || row[key] == Null || row[key] == Str("")
    ensures SafeGet(row, key, default) == default
  {
    if key !in row {
      StripUnchanged(default);
    }
  }

  /**
   * A present, non-empty value made only of whitespace yields "", never the
   * default: a status cell of "  " is stored as "" and not as "Unknown".
   */
  lemma SafeGetWhitespaceIsEmpty(row: Row, key: string, default: string)
    requires key in row && row[key].Str? && row[key].s != "" && AllSpace(row[key].s)
    ensures SafeGet(row, key, default) == ""
  {
    StripEmptyIffAllSpace(row[key].s);
  }

  /**
   * With the empty default, the extracted value is empty exactly when the key
   * is missing, the cell is null, or the cell holds only whitespace.  This is
   * what decides whether a loader keeps a row.
   */
  lemma SafeGetEmptyIff(row: Row, key: string)
    ensures SafeGet(row, key, "") == "" <==>
              (key !in row || row[key] == Null || AllSpace(row[key].s))
  {
    if key in row && row[key].Str? {
      StripEmptyIffAllSpace(row[key].s);
    }
  }

  /** When the default has no surrounding whitespace, no result has any. */
  lemma SafeGetTrimmed(row: Row, key: string, default: string)
    requires Trimmed(default)
    ensures Trimmed(SafeGet(row, key, default))
  {
    if key !in row {
      StripUnchanged(default);
    } else if row[key].Str? && row[key].s != "" {
      var r := Strip(row[key].s);
      assert Trimmed(r);
    }
  }

  /** With a default that has no surrounding whitespace, no key yields a result that has any. */
  lemma SafeGetAllTrimmed(row: Row, default: string)
    requires Trimmed(default)
    ensures forall key :: Trimmed(SafeGet(row, key, default))
  {
    forall key ensures Trimmed(SafeGet(row, key, default)) {
      SafeGetTrimmed(row, key, default);
    }
  }
}
