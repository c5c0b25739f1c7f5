/** Calendar dates as Go's `time.Parse` reads them with the layout "2006-01-02". */
module Dates {
  import opened Wrappers
  import opened Strings

  datatype Date = Date(year: nat, month: nat, day: nat)

  /** Gregorian leap years, as `time.isLeap`. */
  predicate IsLeap(year: nat)
  {
    year % 4 == 0 && (year % 100 != 0 || year % 400 == 0)
  }

  function DaysIn(month: nat, year: nat): (n: nat)
    requires 1 <= month <= 12
    ensures 28 <= n <= 31
  {
    if month == 2 then (if IsLeap(year) then 29 else 28)
    else if month == 4 || month == 6 || month == 9 || month == 11 then 30
    else 31
  }

  /** A date the layout can express: a four-digit year and an existing month and day. */
  predicate Valid(d: Date)
  {
    d.year <= 9999 && 1 <= d.month <= 12 && 1 <= d.day <= DaysIn(d.month, d.year)
  }

  /** Two decimal digits starting at position `i`. */
  function TwoDigits(s: string, i: nat): nat
    requires i + 2 <= |s| && IsDigit(s[i]) && IsDigit(s[i + 1])
  {
    10 * DigitValue(s[i]) + DigitValue(s[i + 1])
  }

  /** The text has the shape dddd-dd-dd. */
  predicate DateShaped(s: string)
  {
    && |s| == 10
    && IsDigit(s[0]) && IsDigit(s[1]) && IsDigit(s[2]) && IsDigit(s[3])
    && s[4] == '-'
    && IsDigit(s[5]) && IsDigit(s[6])
    && s[7] == '-'
    && IsDigit(s[8]) && IsDigit(s[9])
  }

  /** `time.Parse("2006-01-02", s)`: exactly four year digits, two month digits and two day
      digits separated by hyphens, with nothing after them; the month must lie in 1..12 and the
      day in 1..days of that month. Any other text is rejected. */
  function ParseDate(s: string): (r: Option<Date>)
    ensures r.Some? ==> Valid(r.value) && DateShaped(s)
  {
    if !DateShaped(s) then None
    else
      var year := 100 * TwoDigits(s, 0) + TwoDigits(s, 2);
      var month := TwoDigits(s, 5);
      var day := TwoDigits(s, 8);
      if 1 <= month <= 12 && 1 <= day <= DaysIn(month, year) then Some(Date(year, month, day))
      else None
  }

  function Pad2(n: nat): (s: string)
    requires n < 100
    ensures |s| == 2 && IsDigit(s[0]) && IsDigit(s[1]) && TwoDigits(s, 0) == n
  {
    [DigitChar(n / 10), DigitChar(n % 10)]
  }

  /** The date written in the layout "2006-01-02". */
  function FormatDate(d: Date): (s: string)
    requires Valid(d)
    ensures DateShaped(s)
  {
    Pad2(d.year / 100) + Pad2(d.year % 100) + "-" + Pad2(d.month) + "-" + Pad2(d.day)
  }

  /** Every valid date survives formatting and parsing. */
  lemma ParseFormat(d: Date)
    requires Valid(d)
    ensures ParseDate(FormatDate(d)) == Some(d)
  {
    var s := FormatDate(d);
    assert s[0..2] == Pad2(d.year / 100);
    assert s[2..4] == Pad2(d.year % 100);
    assert s[5..7] == Pad2(d.month);
    assert s[8..10] == Pad2(d.day);
    assert TwoDigits(s, 0) == TwoDigits(s[0..2], 0);
    assert TwoDigits(s, 2) == TwoDigits(s[2..4], 0);
    assert TwoDigits(s, 5) == TwoDigits(s[5..7], 0);
    assert TwoDigits(s, 8) == TwoDigits(s[8..10], 0);
  }

  lemma Pad2TwoDigits(s: string, i: nat)
    requires i + 2 <= |s| && IsDigit(s[i]) && IsDigit(s[i + 1])
    ensures Pad2(TwoDigits(s, i)) == s[i..i + 2]
  {
  }

  /** Every accepted text is the canonical rendering of the date it denotes. */
  lemma FormatParse(s: string)
    requires ParseDate(s).Some?
    ensures FormatDate(ParseDate(s).value) == s
  {
    var d := ParseDate(s).value;
    var hi, lo := TwoDigits(s, 0), TwoDigits(s, 2);
    assert d.year / 100 == hi && d.year % 100 == lo;
    Pad2TwoDigits(s, 0);
    Pad2TwoDigits(s, 2);
    Pad2TwoDigits(s, 5);
    Pad2TwoDigits(s, 8);
    assert s == s[0..2] + s[2..4] + "-" + s[5..7] + "-" + s[8..10];
  }
}
