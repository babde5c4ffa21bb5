/**
 * `get_trade_document`: find the document of a trade in the documents
 * directory by trying a fixed list of extensions in order. The file system
 * is abstracted as whether the directory exists and which file names exist
 * in it.
 */
module Documents {
  import opened Wrappers

  datatype DocumentError = DirectoryMissing | NoDocument

  /** The extensions tried, in order. */
  const Extensions: seq<string> := [".pdf", ".doc", ".docx", ".txt", ".xlsx", ".csv"]

  /** The first name `tradeNumber + ext` that exists, trying `exts` in order. */
  function FirstExisting(tradeNumber: string, exts: seq<string>, fileExists: string -> bool): (r: Option<string>)
    ensures r.Some? ==> fileExists(r.value)
  {
    if exts == [] then None
    else if fileExists(tradeNumber + exts[0]) then Some(tradeNumber + exts[0])
    else FirstExisting(tradeNumber, exts[1..], fileExists)
  }

  /** The outcome of a document request. */
  function DocumentFor(tradeNumber: string, dirExists: bool, fileExists: string -> bool): Result<string, DocumentError> {
    if !dirExists then Failure(DirectoryMissing)
    else match FirstExisting(tradeNumber, Extensions, fileExists)
      case None => Failure(NoDocument)
      case Some(name) => Success(name)
  }

  /** The search finds the first extension whose file exists, and nothing only when none exists. */
  lemma {:induction false} FirstExistingCorrect(tradeNumber: string, exts: seq<string>, fileExists: string -> bool)
    ensures FirstExisting(tradeNumber, exts, fileExists).None? <==>
              forall k :: 0 <= k < |exts| ==> !fileExists(tradeNumber + exts[k])
    ensures FirstExisting(tradeNumber, exts, fileExists).Some? ==>
              exists k :: 0 <= k < |exts| && FirstExisting(tradeNumber, exts, fileExists).value == tradeNumber + exts[k]
                          && fileExists(tradeNumber + exts[k])
                          && forall j :: 0 <= j < k ==> !fileExists(tradeNumber + exts[j])
  {
    if exts != [] && !fileExists(tradeNumber + exts[0]) {
      var rest := exts[1..];
      FirstExistingCorrect(tradeNumber, rest, fileExists);
      if FirstExisting(tradeNumber, rest, fileExists).Some? {
        var k :| 0 <= k < |rest| && FirstExisting(tradeNumber, rest, fileExists).value == tradeNumber + rest[k]
                 && fileExists(tradeNumber + rest[k])
                 && forall j :: 0 <= j < k ==> !fileExists(tradeNumber + rest[j]);
        assert exts[k + 1] == rest[k];
      }
    }
  }

  /**
   * A missing directory is reported before any file is tried; otherwise the
   * result is the trade number with the first extension, in the order .pdf,
   * .doc, .docx, .txt, .xlsx, .csv, whose file exists, and "no document"
   * exactly when none of the six exists.
   */
  lemma DocumentForCorrect(tradeNumber: string, dirExists: bool, fileExists: string -> bool)
    ensures var r := DocumentFor(tradeNumber, dirExists, fileExists);
            && (r == Failure(DirectoryMissing) <==> !dirExists)
            && (r == Failure(NoDocument) <==>
                  dirExists && forall k :: 0 <= k < |Extensions| ==> !fileExists(tradeNumber + Extensions[k]))
            && (r.Success? ==>
                  exists k :: 0 <= k < |Extensions| && r.value == tradeNumber + Extensions[k]
                              && fileExists(r.value)
                              && forall j :: 0 <= j < k ==> !fileExists(tradeNumber + Extensions[j]))
  {
    FirstExistingCorrect(tradeNumber, Extensions, fileExists);
  }

  /** The request as a scan over the extensions that stops at the first existing file. */
  method GetTradeDocument(tradeNumber: string, dirExists: bool, fileExists: string -> bool)
    returns (r: Result<string, DocumentError>)
    ensures r == DocumentFor(tradeNumber, dirExists, fileExists)
  {
    if !dirExists {
      return Failure(DirectoryMissing);
    }
    var exts := Extensions;
    var i := 0;
    while i < |exts|
      invariant 0 <= i <= |exts|
      invariant FirstExisting(tradeNumber, exts, fileExists) == FirstExisting(tradeNumber, exts[i..], fileExists)
    {
      assert exts[i..][1..] == exts[i + 1..];
      var name := tradeNumber + exts[i];
      if fileExists(name) {
        return Success(name);
      }
      i := i + 1;
    }
    r := Failure(NoDocument);
  }
}
