/**
 * Normalisation of the StartDate / EndDate arguments of send_flex_request to the
 * compact YYYYMMDD form: the basic format of an ISO 8601 calendar date
 * (section 4.1.2.2 of ISO 8601:2004), obtained either by formatting a date object
 * or by deleting every '-' from a string.
 */
module Dates {
  import opened Wrappers

  /** A calendar date as Python's datetime.date holds it. */
  datatype Date = Date(year: int, month: int, day: int)

  predicate IsLeapYear(y: int) {
    y % 4 == 0 && (y % 100 != 0 || y % 400 == 0)
  }

  function DaysInMonth(y: int, m: int): int
    requires 1 <= m <= 12
  {
    if m == 2 then (if IsLeapYear(y) then 29 else 28)
    else if m == 4 || m == 6 || m == 9 || m == 11 then 30
    else 31
  }

  /** The dates datetime.date can represent: years MINYEAR (1) to MAXYEAR (9999). */
  predicate ValidDate(d: Date) {
    1 <= d.year <= 9999 && 1 <= d.month <= 12 && 1 <= d.day <= DaysInMonth(d.year, d.month)
  }

  type CalendarDate = d: Date | ValidDate(d) witness Date(1970, 1, 1)

  /** A date argument as send_flex_request receives it: a date (or datetime) object, or a str. */
  datatype DateArg = DateValue(date: CalendarDate) | DateText(text: string)

  /** Python truthiness of an optional date argument: None and "" are false, a date object is true. */
  predicate Truthy(arg: Option<DateArg>) {
    match arg
    case None => false
    case Some(DateText(s)) => s != ""
    case Some(DateValue(_)) => true
  }

  // ---------------------------------------------------------------- digits

  predicate IsDigit(c: char) {
    '0' <= c <= '9'
  }

  predicate AllDigits(s: string) {
    forall i :: 0 <= i < |s| ==> IsDigit(s[i])
  }

  function DigitChar(n: nat): (c: char)
    requires n < 10
    ensures IsDigit(c)
  {
    ('0' as int + n) as char
  }

  function DigitValue(c: char): (n: nat)
    requires IsDigit(c)
    ensures n < 10
  {
    c as int - '0' as int
  }

  /** Two decimal digits, zero padded ("%m", "%d"). */
  function Pad2(n: nat): (s: string)
    requires n < 100
    ensures |s| == 2 && AllDigits(s)
  {
    [DigitChar(n / 10), DigitChar(n % 10)]
  }

  /** Four decimal digits, zero padded ("%Y" and the year of date.isoformat()). */
  function Pad4(n: nat): (s: string)
    requires n < 10000
    ensures |s| == 4 && AllDigits(s)
  {
    Pad2(n / 100) + Pad2(n % 100)
  }

  /** The number a string of two digits denotes. */
  function Value2(s: string): nat
    requires |s| == 2 && AllDigits(s)
  {
    10 * DigitValue(s[0]) + DigitValue(s[1])
  }

  /** The number a string of four digits denotes. */
  function Value4(s: string): nat
    requires |s| == 4 && AllDigits(s)
  {
    100 * Value2(s[..2]) + Value2(s[2..])
  }

  lemma Pad2RoundTrip(n: nat)
    requires n < 100
    ensures Value2(Pad2(n)) == n
  {
  }

  lemma Pad4RoundTrip(n: nat)
    requires n < 10000
    ensures Value4(Pad4(n)) == n
  {
  }

  // ---------------------------------------------------------- the two forms

  /**
   * Reads a compact YYYYMMDD string back as (year, month, day); None when it is
   * not eight digits. It imposes no calendar check; it is the inverse of CompactDate.
   */
  function ParseCompact(s: string): Option<Date> {
    if |s| == 8 && AllDigits(s) then
      Some(Date(Value4(s[..4]), Value2(s[4..6]), Value2(s[6..])))
    else
      None
  }

  /** date.strftime("%Y%m%d"). */
  function CompactDate(d: CalendarDate): (r: string)
    ensures |r| == 8 && AllDigits(r)
    ensures ParseCompact(r) == Some(d)
  {
    var r := Pad4(d.year) + Pad2(d.month) + Pad2(d.day);
    assert r[..4] == Pad4(d.year) && r[4..6] == Pad2(d.month) && r[6..] == Pad2(d.day);
    Pad4RoundTrip(d.year);
    Pad2RoundTrip(d.month);
    Pad2RoundTrip(d.day);
    r
  }

  /** date.isoformat(): the extended format YYYY-MM-DD. */
  function IsoFormat(d: CalendarDate): string {
    Pad4(d.year) + "-" + Pad2(d.month) + "-" + Pad2(d.day)
  }

  /** str.replace("-", ""): every '-' deleted, every other character kept in order. */
  function StripDashes(s: string): (r: string)
    ensures '-' !in r
    ensures |r| <= |s|
  {
    if s == [] then []
    else (if s[0] == '-' then [] else [s[0]]) + StripDashes(s[1..])
  }

  /** The value send_flex_request puts under StartDate / EndDate for a truthy argument. */
  function Normalise(arg: DateArg): string {
    match arg
    case DateValue(d) => CompactDate(d)
    case DateText(s) => StripDashes(s)
  }

  // ----------------------------------------------------------- properties

  /** Deleting dashes distributes over concatenation, so the kept characters stay in order. */
  lemma {:induction false} StripDashesAppend(a: string, b: string)
    ensures StripDashes(a + b) == StripDashes(a) + StripDashes(b)
  {
    if a == [] {
      assert a + b == b;
    } else {
      assert (a + b)[0] == a[0];
      assert (a + b)[1..] == a[1..] + b;
      StripDashesAppend(a[1..], b);
    }
  }

  /** A string without '-' passes through unchanged: nothing else is validated or rewritten. */
  lemma {:induction false} StripDashesKeepsDashFree(s: string)
    requires '-' !in s
    ensures StripDashes(s) == s
  {
    if s != [] {
      assert s == [s[0]] + s[1..];
      StripDashesKeepsDashFree(s[1..]);
    }
  }

  /** Normalising a string twice is the same as normalising it once. */
  lemma StripDashesIdempotent(s: string)
    ensures StripDashes(StripDashes(s)) == StripDashes(s)
  {
    StripDashesKeepsDashFree(StripDashes(s));
  }

  /**
   * Every character other than '-' occurs in the result exactly as often as in the
   * input, and the result is shorter by exactly the number of dashes.
   */
  lemma {:induction false} StripDashesCounts(s: string, c: char)
    requires c != '-'
    ensures multiset(StripDashes(s))[c] == multiset(s)[c]
    ensures |StripDashes(s)| == |s| - multiset(s)['-']
  {
    if s != [] {
      assert s == [s[0]] + s[1..];
      StripDashesCounts(s[1..], c);
    }
  }

  lemma AllDigitsDashFree(s: string)
    requires AllDigits(s)
    ensures '-' !in s
  {
  }

  /**
   * The date-object branch and the "YYYY-MM-DD" string branch give the same
   * compact string for every date: deleting the separators of the extended
   * form yields the basic form.
   */
  lemma DateFormsAgree(d: CalendarDate)
    ensures Normalise(DateText(IsoFormat(d))) == Normalise(DateValue(d))
  {
    ExtendedShapeNormalises(Pad4(d.year), Pad2(d.month), Pad2(d.day));
  }

  /** Any string of the shape DDDD-DD-DD normalises to its eight digits in order. */
  lemma ExtendedShapeNormalises(y: string, m: string, d: string)
    requires |y| == 4 && |m| == 2 && |d| == 2
    requires AllDigits(y) && AllDigits(m) && AllDigits(d)
    ensures Normalise(DateText(y + "-" + m + "-" + d)) == y + m + d
  {
    AllDigitsDashFree(y);
    AllDigitsDashFree(m);
    AllDigitsDashFree(d);
    StripDashesKeepsDashFree(y);
    StripDashesKeepsDashFree(m);
    StripDashesKeepsDashFree(d);
    assert StripDashes("-") == [];
    StripDashesAppend(y + "-" + m + "-", d);
    StripDashesAppend(y + "-" + m, "-");
    StripDashesAppend(y + "-", m);
    StripDashesAppend(y, "-");
  }

  /**
   * Nothing is validated: any month and day numbers, calendar dates or not
   * (2024-13-45, say), reach the request unchanged.
   */
  lemma NoCalendarCheck(y: nat, m: nat, d: nat)
    requires y < 10000 && m < 100 && d < 100
    ensures ParseCompact(Normalise(DateText(Pad4(y) + "-" + Pad2(m) + "-" + Pad2(d)))) == Some(Date(y, m, d))
  {
    var r := Pad4(y) + Pad2(m) + Pad2(d);
    ExtendedShapeNormalises(Pad4(y), Pad2(m), Pad2(d));
    assert r[..4] == Pad4(y) && r[4..6] == Pad2(m) && r[6..] == Pad2(d);
    Pad4RoundTrip(y);
    Pad2RoundTrip(m);
    Pad2RoundTrip(d);
  }
}
