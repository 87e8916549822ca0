/** Calendar dates and their ISO 8601 calendar-date text in the extended
    format `YYYY-MM-DD` (section 5.2.1.1 of ISO 8601), as Python's
    `date.isoformat()` writes it and `datetime.fromisoformat()` reads it. */
module IsoDate {
  import opened Wrappers

  /** A (year, month, day) triple, not necessarily a real day. */
  datatype CalendarDay = CalendarDay(year: int, month: int, day: int)

  /** Gregorian leap years: divisible by 4, except centuries not divisible by 400. */
  predicate IsLeapYear(y: int)
  {
    y % 4 == 0 && (y % 100 != 0 || y % 400 == 0)
  }

  function DaysInMonth(y: int, m: int): (n: int)
    requires 1 <= m <= 12
    ensures 28 <= n <= 31
    ensures m == 2 ==> (n == 29 <==> IsLeapYear(y))
  {
    if m == 2 then (if IsLeapYear(y) then 29 else 28)
    else if m == 4 || m == 6 || m == 9 || m == 11 then 30
    else 31
  }

  /** The days Python's `date` can represent: years `MINYEAR` = 1 to `MAXYEAR` = 9999. */
  predicate IsValid(d: CalendarDay)
  {
    && 1 <= d.year <= 9999
    && 1 <= d.month <= 12
    && 1 <= d.day <= DaysInMonth(d.year, d.month)
  }

  /** A `datetime.date` value. */
  type Date = d: CalendarDay | IsValid(d) witness CalendarDay(1970, 1, 1)

  // ---------------------------------------------------------------------
  // Fixed-width decimal digits

  predicate IsDigit(c: char)
  {
    '0' <= c <= '9'
  }

  predicate AllDigits(s: string)
  {
    forall i :: 0 <= i < |s| ==> IsDigit(s[i])
  }

  function DigitValue(c: char): (v: int)
    requires IsDigit(c)
    ensures 0 <= v <= 9
  {
    c as int - '0' as int
  }

  function DigitChar(v: int): (c: char)
    requires 0 <= v <= 9
    ensures IsDigit(c) && DigitValue(c) == v
  {
    (v + '0' as int) as char
  }

  function Pow10(n: nat): (p: nat)
    ensures p >= 1
  {
    if n == 0 then 1 else 10 * Pow10(n - 1)
  }

  /** The value of a string of decimal digits, most significant first. */
  function DecimalValue(s: string): (v: nat)
    requires AllDigits(s)
    ensures v < Pow10(|s|)
  {
    if s == [] then 0
    else
      var p := DecimalValue(s[..|s| - 1]);
      var d := DigitValue(s[|s| - 1]);
      assert p * 10 + d <= (Pow10(|s| - 1) - 1) * 10 + 9;
      p * 10 + d
  }

  /** The last `width` decimal digits of `n`, zero-padded on the left (`%0<width>d`). */
  function Padded(n: nat, width: nat): (s: string)
    ensures |s| == width
    ensures AllDigits(s)
  {
    if width == 0 then ""
    else Padded(n / 10, width - 1) + [DigitChar(n % 10)]
  }

  /** A number that fits in `width` digits is read back from its padded digits. */
  lemma {:induction false} PaddedValue(n: nat, width: nat)
    requires n < Pow10(width)
    ensures DecimalValue(Padded(n, width)) == n
  {
    if width > 0 {
      var s := Padded(n, width);
      assert n / 10 < Pow10(width - 1);
      PaddedValue(n / 10, width - 1);
      assert s[..width - 1] == Padded(n / 10, width - 1);
      assert DigitValue(s[width - 1]) == n % 10;
    }
  }

  /** Any digit string is the padded form of its own value. */
  lemma {:induction false} ValuePadded(s: string)
    requires AllDigits(s)
    ensures Padded(DecimalValue(s), |s|) == s
  {
    if s != [] {
      var w := |s|;
      var prefix := s[..w - 1];
      var p := DecimalValue(prefix);
      var d := DigitValue(s[w - 1]);
      assert DecimalValue(s) == p * 10 + d;
      assert (p * 10 + d) / 10 == p && (p * 10 + d) % 10 == d;
      ValuePadded(prefix);
      assert DigitChar(d) == s[w - 1];
      assert prefix + [s[w - 1]] == s;
    }
  }

  // ---------------------------------------------------------------------
  // The ISO text form

  /** The shape `DDDD-DD-DD`, before any range check. */
  predicate IsIsoShape(s: string)
  {
    && |s| == 10
    && s[4] == '-'
    && s[7] == '-'
    && AllDigits(s[..4])
    && AllDigits(s[5..7])
    && AllDigits(s[8..])
  }

  /** `date.isoformat()`: four-digit year, two-digit month and day, joined by `-`. */
  function Format(d: Date): (s: string)
    ensures IsIsoShape(s)
  {
    Padded(d.year, 4) + "-" + Padded(d.month, 2) + "-" + Padded(d.day, 2)
  }

  /** The three numeric fields of a string of ISO shape. */
  function Fields(s: string): (c: CalendarDay)
    requires IsIsoShape(s)
    ensures 0 <= c.year <= 9999 && 0 <= c.month <= 99 && 0 <= c.day <= 99
  {
    CalendarDay(DecimalValue(s[..4]), DecimalValue(s[5..7]), DecimalValue(s[8..]))
  }

  /** `datetime.fromisoformat(s).date()` restricted to date-only text:
      `None` where Python raises `ValueError` (wrong shape or a day that
      does not exist). */
  function Parse(s: string): (r: Option<Date>)
    ensures r.Some? ==> IsIsoShape(s)
    ensures r.None? && IsIsoShape(s) ==> !IsValid(Fields(s))
  {
    if IsIsoShape(s) && IsValid(Fields(s)) then Some(Fields(s)) else None
  }

  /** Every date is read back from the text `Format` writes for it. */
  lemma ParseFormat(d: Date)
    ensures Parse(Format(d)) == Some(d)
  {
    var s := Format(d);
    assert s[..4] == Padded(d.year, 4);
    assert s[5..7] == Padded(d.month, 2);
    assert s[8..] == Padded(d.day, 2);
    PaddedValue(d.year, 4);
    PaddedValue(d.month, 2);
    PaddedValue(d.day, 2);
  }

  /** The parser accepts only canonical text: whatever it reads, `Format` writes back verbatim. */
  lemma FormatParse(s: string)
    requires Parse(s).Some?
    ensures Format(Parse(s).value) == s
  {
    ValuePadded(s[..4]);
    ValuePadded(s[5..7]);
    ValuePadded(s[8..]);
    assert s == s[..4] + "-" + s[5..7] + "-" + s[8..];
  }

  /** A string is accepted by the parser exactly when it is the text of some date. */
  lemma ParseAcceptsExactlyFormatted(s: string)
    ensures Parse(s).Some? <==> exists d: Date :: Format(d) == s
  {
    if Parse(s).Some? {
      FormatParse(s);
    }
    if exists d: Date :: Format(d) == s {
      var d: Date :| Format(d) == s;
      ParseFormat(d);
    }
  }

  // ---------------------------------------------------------------------
  // Worked examples

  lemma Padded2024()
    ensures Padded(2024, 4) == "2024"
  {
    assert Padded(2, 1) == "2";
    assert Padded(20, 2) == "20";
    assert Padded(202, 3) == "202";
  }

  lemma Padded01()
    ensures Padded(1, 2) == "01"
  {
    assert Padded(0, 1) == "0";
  }

  lemma FormatNewYear2024()
    ensures Format(CalendarDay(2024, 1, 1)) == "2024-01-01"
  {
    Padded2024();
    Padded01();
  }
}
