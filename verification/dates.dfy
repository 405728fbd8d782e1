/**
 * Calendar dates and their ISO 8601 text form `YYYY-MM-DD`, which is what a
 * Python `datetime.date` turns into inside an f-string. The journal uses that
 * text twice: as the heading of an entry and as the stem of its file name.
 * The parser is the partner of the formatter: together they show that the
 * text names the date exactly, so distinct days never share an entry file.
 */
module Dates {
  import opened Wrappers

  datatype Date = Date(year: int, month: int, day: int)

  predicate IsLeapYear(y: int) {
    y % 4 == 0 && (y % 100 != 0 || y % 400 == 0)
  }

  function DaysInMonth(y: int, m: int): (n: int)
    requires 1 <= m <= 12
    ensures 28 <= n <= 31
  {
    if m == 2 then (if IsLeapYear(y) then 29 else 28)
    else if m == 4 || m == 6 || m == 9 || m == 11 then 30
    else 31
  }

  /** The dates a `datetime.date` can hold: years 1 to 9999, real days of the month. */
  predicate IsCalendarDate(d: Date) {
    1 <= d.year <= 9999 && 1 <= d.month <= 12 && 1 <= d.day <= DaysInMonth(d.year, d.month)
  }

  type CalendarDate = d: Date | IsCalendarDate(d) witness Date(1970, 1, 1)

  // ---------------------------------------------------------------------------
  // Fixed-width decimal digits
  // ---------------------------------------------------------------------------

  function Pow10(n: nat): (p: nat)
    ensures p >= 1
  {
    if n == 0 then 1 else 10 * Pow10(n - 1)
  }

  predicate IsDigit(c: char) {
    '0' <= c <= '9'
  }

  predicate AllDigits(s: string) {
    forall i :: 0 <= i < |s| ==> IsDigit(s[i])
  }

  function DigitChar(n: nat): (c: char)
    requires n < 10
    ensures IsDigit(c)
  {
    ('0' as int + n) as char
  }

  function DigitValue(c: char): (n: nat)
    requires IsDigit(c)
    ensures n < 10 && DigitChar(n) == c
  {
    c as int - '0' as int
  }

  /** `n` written with exactly `width` decimal digits, zero-padded on the left (`%0*d`). */
  function ZeroPadded(n: nat, width: nat): (s: string)
    requires n < Pow10(width)
    ensures |s| == width && AllDigits(s)
  {
    if width == 0 then ""
    else
      assert n / 10 < Pow10(width - 1);
      ZeroPadded(n / 10, width - 1) + [DigitChar(n % 10)]
  }

  /** The number a string of decimal digits denotes. */
  function DecimalValue(s: string): nat
    requires AllDigits(s)
  {
    if s == [] then 0 else DecimalValue(s[..|s| - 1]) * 10 + DigitValue(s[|s| - 1])
  }

  lemma {:induction false} DecimalValueOfZeroPadded(n: nat, width: nat)
    requires n < Pow10(width)
    ensures DecimalValue(ZeroPadded(n, width)) == n
  {
    if width > 0 {
      var s := ZeroPadded(n, width);
      assert n / 10 < Pow10(width - 1);
      assert s[..|s| - 1] == ZeroPadded(n / 10, width - 1);
      DecimalValueOfZeroPadded(n / 10, width - 1);
    }
  }

  lemma {:induction false} ZeroPaddedOfDecimalValue(s: string)
    requires AllDigits(s)
    ensures DecimalValue(s) < Pow10(|s|)
    ensures ZeroPadded(DecimalValue(s), |s|) == s
  {
    if s != [] {
      var init := s[..|s| - 1];
      ZeroPaddedOfDecimalValue(init);
      var v := DecimalValue(s);
      assert v / 10 == DecimalValue(init) && v % 10 == DigitValue(s[|s| - 1]);
      assert s == init + [s[|s| - 1]];
    }
  }

  // ---------------------------------------------------------------------------
  // ISO 8601 calendar-date text
  // ---------------------------------------------------------------------------

  /** Text of the shape `DDDD-DD-DD`. */
  predicate IsIsoShaped(s: string) {
    |s| == 10 && s[4] == '-' && s[7] == '-'
    && AllDigits(s[..4]) && AllDigits(s[5..7]) && AllDigits(s[8..])
  }

  /** `str(date)` in Python: `%04d-%02d-%02d`. */
  function IsoFormat(d: CalendarDate): (s: string)
    ensures IsIsoShaped(s)
    ensures '/' !in s
  {
    var s := ZeroPadded(d.year, 4) + "-" + ZeroPadded(d.month, 2) + "-" + ZeroPadded(d.day, 2);
    assert s[..4] == ZeroPadded(d.year, 4);
    assert s[5..7] == ZeroPadded(d.month, 2);
    assert s[8..] == ZeroPadded(d.day, 2);
    assert forall i :: 0 <= i < |s| ==> s[i] == '-' || IsDigit(s[i]) by {
      forall i | 0 <= i < |s| ensures s[i] == '-' || IsDigit(s[i]) {
        if i < 4 { assert s[i] == s[..4][i]; }
        else if 5 <= i < 7 { assert s[i] == s[5..7][i - 5]; }
        else if 8 <= i { assert s[i] == s[8..][i - 8]; }
      }
    }
    s
  }

  /** Reads `YYYY-MM-DD` back; anything else, or a day the calendar does not have, is None. */
  function ParseIso(s: string): Option<CalendarDate> {
    if !IsIsoShaped(s) then None
    else
      var d := Date(DecimalValue(s[..4]), DecimalValue(s[5..7]), DecimalValue(s[8..]));
      if IsCalendarDate(d) then Some(d) else None
  }

  /** Formatting then parsing gives the date back. */
  lemma ParseOfIsoFormat(d: CalendarDate)
    ensures ParseIso(IsoFormat(d)) == Some(d)
  {
    var s := IsoFormat(d);
    assert s[..4] == ZeroPadded(d.year, 4);
    assert s[5..7] == ZeroPadded(d.month, 2);
    assert s[8..] == ZeroPadded(d.day, 2);
    DecimalValueOfZeroPadded(d.year, 4);
    DecimalValueOfZeroPadded(d.month, 2);
    DecimalValueOfZeroPadded(d.day, 2);
  }

  /** Parsing then formatting gives the text back: the parser accepts only what the formatter writes. */
  lemma IsoFormatOfParse(s: string)
    requires ParseIso(s).Some?
    ensures IsoFormat(ParseIso(s).value) == s
  {
    ZeroPaddedOfDecimalValue(s[..4]);
    ZeroPaddedOfDecimalValue(s[5..7]);
    ZeroPaddedOfDecimalValue(s[8..]);
    assert s == s[..4] + "-" + s[5..7] + "-" + s[8..];
  }

  /** Different days have different ISO texts. */
  lemma IsoFormatInjective(d1: CalendarDate, d2: CalendarDate)
    requires IsoFormat(d1) == IsoFormat(d2)
    ensures d1 == d2
  {
    ParseOfIsoFormat(d1);
    ParseOfIsoFormat(d2);
  }
}
