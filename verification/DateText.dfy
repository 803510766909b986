/** `time.Parse` and `Format` for the layout "2006-01-02": the full-date form of section
    5.6 of RFC 3339. */
module DateText {
  import opened Machine
  import opened Calendar

  const ZERO: int := 48
  const HYPHEN: int := 45

  predicate IsDigit(b: byte) {
    ZERO <= b <= ZERO + 9
  }

  /** Four, two and two digits with hyphens between. */
  predicate HasShape(text: Bytes) {
    |text| == 10 && text[4] == HYPHEN && text[7] == HYPHEN
    && IsDigit(text[0]) && IsDigit(text[1]) && IsDigit(text[2]) && IsDigit(text[3])
    && IsDigit(text[5]) && IsDigit(text[6]) && IsDigit(text[8]) && IsDigit(text[9])
  }

  function Value2(a: byte, b: byte): int {
    10 * (a - ZERO) + (b - ZERO)
  }

  /** `time.Parse("2006-01-02", text)`: the shape, and a date that exists. */
  function ParseDate(text: Bytes): (r: Option<Date>)
    ensures r.Some? ==> r.value.Valid() && 0 <= r.value.year <= 9999
  {
    if HasShape(text) then
      var year := 100 * Value2(text[0], text[1]) + Value2(text[2], text[3]);
      var d := Date(year, Value2(text[5], text[6]), Value2(text[8], text[9]));
      if d.Valid() then Some(d) else None
    else None
  }

  function Digits2(n: int): Bytes
    requires 0 <= n <= 99
  {
    [ZERO + n / 10, ZERO + n % 10]
  }

  function Decimal(n: nat): Bytes {
    if n < 10 then [ZERO + n] else Decimal(n / 10) + [ZERO + n % 10]
  }

  /** The decimal digits of `n`, padded with zeros to four. */
  function Digits4(n: nat): Bytes {
    if n <= 9999 then Digits2(n / 100) + Digits2(n % 100) else Decimal(n)
  }

  /** `t.Format("2006-01-02")`: the year has a sign when negative. */
  function FormatDate(d: Date): Bytes
    requires d.Valid()
  {
    (if d.year < 0 then [HYPHEN] + Digits4(-d.year) else Digits4(d.year))
    + [HYPHEN] + Digits2(d.month) + [HYPHEN] + Digits2(d.day)
  }

  lemma LongYear(n: nat)
    requires n > 9999
    ensures |Decimal(n)| >= 5
  {
    assert |Decimal(n / 1000)| >= 2;
    assert |Decimal(n / 100)| == |Decimal(n / 100 / 10)| + 1;
    assert |Decimal(n / 10)| == |Decimal(n / 10 / 10)| + 1;
    assert n / 10 / 10 == n / 100 && n / 100 / 10 == n / 1000;
  }

  /** Parsing undoes formatting, and a formatted date parses exactly when its year has
      four digits: outside years 0 to 9999 the target date of a mint is rejected. */
  lemma ParseUndoesFormat(d: Date)
    requires d.Valid()
    ensures ParseDate(FormatDate(d)) == if 0 <= d.year <= 9999 then Some(d) else None
  {
    var text := FormatDate(d);
    if d.year < 0 {
      assert text[0] == HYPHEN;
    } else if d.year > 9999 {
      LongYear(d.year);
    } else {
      assert text[..4] == Digits2(d.year / 100) + Digits2(d.year % 100);
    }
  }

  /** Formatting undoes parsing: each accepted text is the canonical one of its date. */
  lemma FormatUndoesParse(text: Bytes)
    requires ParseDate(text).Some?
    ensures FormatDate(ParseDate(text).value) == text
  {
    hide DaysIn, IsDigit;
    var d := ParseDate(text).value;
    DigitsOfValue(text[0], text[1]);
    DigitsOfValue(text[2], text[3]);
    DigitsOfValue(text[5], text[6]);
    DigitsOfValue(text[8], text[9]);
    hide Digits2, Value2;
    assert d.year / 100 == Value2(text[0], text[1]) && d.year % 100 == Value2(text[2], text[3]);
    assert text == [text[0], text[1]] + [text[2], text[3]] + [HYPHEN] + [text[5], text[6]]
          + [HYPHEN] + [text[8], text[9]];
  }

  lemma DigitsOfValue(a: byte, b: byte)
    requires IsDigit(a) && IsDigit(b)
    ensures 0 <= Value2(a, b) <= 99 && Digits2(Value2(a, b)) == [a, b]
  {
  }

  /** A text of the layout parses to the date its digits write, exactly when that date
      exists. */
  lemma LayoutParses(a: int, b: int, c: int, d: int, e: int, f: int, g: int, h: int)
    requires 0 <= a <= 9 && 0 <= b <= 9 && 0 <= c <= 9 && 0 <= d <= 9
    requires 0 <= e <= 9 && 0 <= f <= 9 && 0 <= g <= 9 && 0 <= h <= 9
    ensures var text := [48 + a, 48 + b, 48 + c, 48 + d, 45, 48 + e, 48 + f, 45, 48 + g, 48 + h];
            var date := Date(1000 * a + 100 * b + 10 * c + d, 10 * e + f, 10 * g + h);
            ParseDate(text) == if date.Valid() then Some(date) else None
  {
  }

  /** And no other text parses. */
  lemma OnlyLayoutParses(text: Bytes)
    requires ParseDate(text).Some?
    ensures |text| == 10 && text[4] == 45 && text[7] == 45
    ensures forall i :: 0 <= i < 10 && i != 4 && i != 7 ==> 48 <= text[i] <= 57
  {
  }
}
