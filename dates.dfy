/**
 * `parse_date`: `datetime.strptime(s, '%d/%m/%Y')`, with any failure mapped
 * to `datetime.min`.  The day, month and year fields accept exactly what
 * CPython's strptime patterns accept (`%d` is `3[01]|[12]\d|0[1-9]|[1-9]| [1-9]`,
 * `%m` is `1[0-2]|0[1-9]|[1-9]`, `%Y` is four digits), and the date must then
 * exist on the proleptic Gregorian calendar from year 1.
 */
module Dates {
  import opened Wrappers
  import opened Text

  datatype Date = Date(year: int, month: int, day: int)

  /** `datetime.min`, the key of a date that does not parse. */
  const MinDate := Date(1, 1, 1)

  predicate IsLeapYear(y: int) {
    y % 4 == 0 && (y % 100 != 0 || y % 400 == 0)
  }

  function DaysInMonth(y: int, m: int): int
    requires 1 <= m <= 12
  {
    if m == 2 then (if IsLeapYear(y) then 29 else 28)
    else if m in {4, 6, 9, 11} then 30
    else 31
  }

  /** A date `datetime` can represent. */
  predicate ValidDate(d: Date) {
    1 <= d.year <= 9999 && 1 <= d.month <= 12 && 1 <= d.day <= DaysInMonth(d.year, d.month)
  }

  function TwoDigits(p: string): (n: nat)
    requires |p| == 2 && AllDigits(p)
    ensures n < 100
  {
    10 * DigitValue(p[0]) + DigitValue(p[1])
  }

  function FourDigits(p: string): (n: nat)
    requires |p| == 4 && AllDigits(p)
    ensures n <= 9999
  {
    1000 * DigitValue(p[0]) + 100 * DigitValue(p[1]) + 10 * DigitValue(p[2]) + DigitValue(p[3])
  }

  /** The `%d` field: one digit 1-9, a space and a digit 1-9, or two digits 01-31. */
  function ParseDay(p: string): (r: Option<int>)
    ensures r.Some? ==> 1 <= r.value <= 31
  {
    if |p| == 1 && '1' <= p[0] <= '9' then Some(DigitValue(p[0]))
    else if |p| == 2 && p[0] == ' ' && '1' <= p[1] <= '9' then Some(DigitValue(p[1]))
    else if |p| == 2 && AllDigits(p) && 1 <= TwoDigits(p) <= 31 then Some(TwoDigits(p))
    else None
  }

  /** The `%m` field: one digit 1-9 or two digits 01-12. */
  function ParseMonth(p: string): (r: Option<int>)
    ensures r.Some? ==> 1 <= r.value <= 12
  {
    if |p| == 1 && '1' <= p[0] <= '9' then Some(DigitValue(p[0]))
    else if |p| == 2 && AllDigits(p) && 1 <= TwoDigits(p) <= 12 then Some(TwoDigits(p))
    else None
  }

  /** The `%Y` field: exactly four digits. */
  function ParseYear(p: string): (r: Option<int>)
    ensures r.Some? ==> 0 <= r.value <= 9999
  {
    if |p| == 4 && AllDigits(p) then Some(FourDigits(p)) else None
  }

  /**
   * `strptime(s, '%d/%m/%Y')`: `None` where strptime raises, either because
   * the text does not match or because the date does not exist.
   */
  function ParseDate(s: string): (r: Option<Date>)
    ensures r.Some? ==> ValidDate(r.value)
  {
    var parts := Split(s, '/');
    if |parts| != 3 then None
    else match (ParseDay(parts[0]), ParseMonth(parts[1]), ParseYear(parts[2]))
      case (Some(d), Some(m), Some(y)) =>
        if 1 <= y && d <= DaysInMonth(y, m) then Some(Date(y, m, d)) else None
      case _ => None
  }

  /** A total order on dates as an integer: year, then month, then day. */
  function DayNumber(d: Date): int {
    d.year * 10000 + d.month * 100 + d.day
  }

  /** `parse_date`: the sort key of a trade date; failure maps to `datetime.min`. */
  function DateKey(s: string): int {
    match ParseDate(s)
    case Some(d) => DayNumber(d)
    case None => DayNumber(MinDate)
  }

  /** On dates `datetime` can represent, the integer key orders as `datetime` comparison does. */
  lemma DayNumberOrdersLikeDatetime(a: Date, b: Date)
    requires ValidDate(a) && ValidDate(b)
    ensures DayNumber(a) < DayNumber(b) <==>
              (a.year < b.year
               || (a.year == b.year && a.month < b.month)
               || (a.year == b.year && a.month == b.month && a.day < b.day))
    ensures DayNumber(a) == DayNumber(b) <==> a == b
  {
  }

  /**
   * `parse_date` never fails, and an unparsable date sorts no later than any
   * date: strictly earlier than every parsed date except 01/01/0001, which is
   * `datetime.min` itself.
   */
  lemma UnparsableIsEarliest(bad: string, good: string)
    requires ParseDate(bad).None? && ParseDate(good).Some?
    ensures DateKey(bad) <= DateKey(good)
    ensures DateKey(bad) == DateKey(good) <==> ParseDate(good).value == MinDate
  {
    DayNumberOrdersLikeDatetime(MinDate, ParseDate(good).value);
  }

  /** `n` as two digits with a leading zero. */
  function Pad2(n: nat): (p: string)
    requires n < 100
    ensures |p| == 2 && AllDigits(p) && TwoDigits(p) == n
  {
    [DigitChar(n / 10), DigitChar(n % 10)]
  }

  /** `n` as four digits with leading zeros. */
  function Pad4(n: nat): (p: string)
    requires n <= 9999
    ensures |p| == 4 && AllDigits(p) && FourDigits(p) == n
  {
    var tens := n / 10;
    var hundreds := tens / 10;
    var thousands := hundreds / 10;
    [DigitChar(thousands), DigitChar(hundreds % 10), DigitChar(tens % 10), DigitChar(n % 10)]
  }

  /** `DD/MM/YYYY` with zero padding. */
  function FormatDate(d: Date): (s: string)
    requires ValidDate(d)
  {
    Pad2(d.day) + ['/'] + (Pad2(d.month) + ['/'] + Pad4(d.year))
  }

  /** The three fields of a formatted date are the padded day, month and year. */
  lemma SplitFormattedDate(d: Date)
    requires ValidDate(d)
    ensures Split(FormatDate(d), '/') == [Pad2(d.day), Pad2(d.month), Pad4(d.year)]
  {
    var dd, mm, yyyy := Pad2(d.day), Pad2(d.month), Pad4(d.year);
    assert '/' !in dd && '/' !in mm && '/' !in yyyy;
    SplitJoin(dd, '/', mm + ['/'] + yyyy);
    SplitJoin(mm, '/', yyyy);
    SplitNoSeparator(yyyy, '/');
  }

  /** Every representable date, written `DD/MM/YYYY`, parses back to itself. */
  lemma ParseFormatDate(d: Date)
    requires ValidDate(d)
    ensures ParseDate(FormatDate(d)) == Some(d)
  {
    SplitFormattedDate(d);
    assert ParseDay(Pad2(d.day)) == Some(d.day);
    assert ParseMonth(Pad2(d.month)) == Some(d.month);
  }
}
