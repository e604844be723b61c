/**
 * LocalDate.parse(key, DateTimeFormatter.ofPattern("yyyy-MM-dd")) and its
 * inverse, LocalDate formatted with the same pattern. The pattern reads a
 * four-digit year of era (so at least 1), a two-digit month and a two-digit
 * day of month; the default SMART resolver then clamps a day of 29 to 31 to
 * the last day of its month.
 */
module DateParsing {
  import opened Results
  import opened Calendar

  predicate IsDigit(c: char) {
    '0' <= c <= '9'
  }

  predicate AllDigits(s: string) {
    forall i :: 0 <= i < |s| ==> IsDigit(s[i])
  }

  function Pow10(w: nat): (p: nat)
    ensures p >= 1
  {
    if w == 0 then 1 else 10 * Pow10(w - 1)
  }

  /** The value of a string of decimal digits, most significant first. */
  function DigitsValue(s: string): (n: nat)
    requires AllDigits(s)
    ensures n < Pow10(|s|)
  {
    if |s| == 0 then 0
    else DigitsValue(s[..|s| - 1]) * 10 + (s[|s| - 1] as int - '0' as int)
  }

  function DigitChar(n: nat): (c: char)
    requires n < 10
    ensures IsDigit(c)
  {
    ('0' as int + n) as char
  }

  /** The w low-order decimal digits of n, zero-padded on the left. */
  function Pad(n: nat, w: nat): (s: string)
    ensures |s| == w && AllDigits(s)
  {
    if w == 0 then [] else Pad(n / 10, w - 1) + [DigitChar(n % 10)]
  }

  lemma {:induction false} DigitsValuePad(n: nat, w: nat)
    requires n < Pow10(w)
    ensures DigitsValue(Pad(n, w)) == n
  {
    if w > 0 {
      var s := Pad(n, w);
      assert s[..w - 1] == Pad(n / 10, w - 1);
      DigitsValuePad(n / 10, w - 1);
    }
  }

  lemma {:induction false} PadDigitsValue(s: string)
    requires AllDigits(s)
    ensures Pad(DigitsValue(s), |s|) == s
  {
    if |s| > 0 {
      var init := s[..|s| - 1];
      PadDigitsValue(init);
      var n := DigitsValue(s);
      assert n / 10 == DigitsValue(init) && n % 10 == s[|s| - 1] as int - '0' as int;
    }
  }

  /** The shape "dddd-dd-dd". */
  predicate HasDateShape(s: string) {
    |s| == 10 && s[4] == '-' && s[7] == '-'
    && AllDigits(s[..4]) && AllDigits(s[5..7]) && AllDigits(s[8..])
  }

  /**
   * The parse of a map key. It fails (DateTimeParseException in the source)
   * unless the key has the shape dddd-dd-dd, a year of at least 1, a month
   * from 1 to 12 and a day from 1 to 31.
   */
  function ParseDate(s: string): (r: Option<Date>)
    ensures r.Some? <==> HasDateShape(s)
                         && DigitsValue(s[..4]) >= 1
                         && 1 <= DigitsValue(s[5..7]) <= 12
                         && 1 <= DigitsValue(s[8..]) <= 31
    ensures r.Some? ==> ValidDate(r.value) && 1 <= r.value.year <= 9999
                        && r.value.year == DigitsValue(s[..4])
                        && r.value.month == DigitsValue(s[5..7])
                        && r.value.day == Min(DigitsValue(s[8..]), DaysInMonth(r.value.year, r.value.month))
  {
    if !HasDateShape(s) then None
    else
      var y, m, d := DigitsValue(s[..4]), DigitsValue(s[5..7]), DigitsValue(s[8..]);
      if y < 1 || m < 1 || 12 < m || d < 1 || 31 < d then None
      else Some(Date(y, m, Min(d, DaysInMonth(y, m))))
  }

  /** LocalDate formatted with "yyyy-MM-dd", for years the pattern prints in four digits. */
  function FormatDate(d: Date): (s: string)
    requires ValidDate(d) && 1 <= d.year <= 9999
    ensures HasDateShape(s)
  {
    Pad(d.year, 4) + "-" + Pad(d.month, 2) + "-" + Pad(d.day, 2)
  }

  /** Every date the pattern prints parses back to itself. */
  lemma ParseFormatDate(d: Date)
    requires ValidDate(d) && 1 <= d.year <= 9999
    ensures ParseDate(FormatDate(d)) == Some(d)
  {
    var s := FormatDate(d);
    assert s[..4] == Pad(d.year, 4);
    assert s[5..7] == Pad(d.month, 2);
    assert s[8..] == Pad(d.day, 2);
    DigitsValuePad(d.year, 4);
    DigitsValuePad(d.month, 2);
    DigitsValuePad(d.day, 2);
  }

  /** The full-date production of section 5.6 of RFC 3339, with its day-of-month limits. */
  predicate IsFullDate(s: string) {
    HasDateShape(s)
    && 1 <= DigitsValue(s[5..7]) <= 12
    && 1 <= DigitsValue(s[8..]) <= DaysInMonth(DigitsValue(s[..4]), DigitsValue(s[5..7]))
  }

  /**
   * Every RFC 3339 full-date with a year other than 0000 parses, without
   * clamping, to a date that prints as the same text.
   */
  lemma FormatParseDate(s: string)
    requires IsFullDate(s) && DigitsValue(s[..4]) != 0
    ensures ParseDate(s).Some? && FormatDate(ParseDate(s).value) == s
  {
    var d := ParseDate(s).value;
    assert d == Date(DigitsValue(s[..4]), DigitsValue(s[5..7]), DigitsValue(s[8..]));
    PadDigitsValue(s[..4]);
    PadDigitsValue(s[5..7]);
    PadDigitsValue(s[8..]);
    calc {
      FormatDate(d);
      Pad(d.year, 4) + "-" + Pad(d.month, 2) + "-" + Pad(d.day, 2);
      s[..4] + "-" + s[5..7] + "-" + s[8..];
      { assert |s| == 10; }
      s;
    }
  }

  function Digit(c: char): int {
    c as int - '0' as int
  }

  lemma DigitsValue2(s: string)
    requires |s| == 2 && AllDigits(s)
    ensures DigitsValue(s) == 10 * Digit(s[0]) + Digit(s[1])
  {
    assert s[..1][..0] == [];
  }

  lemma DigitsValue4(s: string)
    requires |s| == 4 && AllDigits(s)
    ensures DigitsValue(s) == 1000 * Digit(s[0]) + 100 * Digit(s[1]) + 10 * Digit(s[2]) + Digit(s[3])
  {
    DigitsValue2(s[..2]);
    assert s[..3][..2] == s[..2];
  }

  /** The three fields of a key of the right shape, as numbers. */
  lemma DateFields(s: string)
    requires HasDateShape(s)
    ensures DigitsValue(s[..4]) == 1000 * Digit(s[0]) + 100 * Digit(s[1]) + 10 * Digit(s[2]) + Digit(s[3])
    ensures DigitsValue(s[5..7]) == 10 * Digit(s[5]) + Digit(s[6])
    ensures DigitsValue(s[8..]) == 10 * Digit(s[8]) + Digit(s[9])
  {
    DigitsValue4(s[..4]);
    DigitsValue2(s[5..7]);
    DigitsValue2(s[8..]);
  }

  /** A key of the right shape whose digits spell y, m and d in range parses to that day, clamped to the month. */
  lemma ParseFields(s: string, y: int, m: int, d: int)
    requires HasDateShape(s)
    requires y == 1000 * Digit(s[0]) + 100 * Digit(s[1]) + 10 * Digit(s[2]) + Digit(s[3])
    requires m == 10 * Digit(s[5]) + Digit(s[6]) && d == 10 * Digit(s[8]) + Digit(s[9])
    requires 1 <= y && 1 <= m <= 12 && 1 <= d <= 31
    ensures ParseDate(s) == Some(Date(y, m, Min(d, DaysInMonth(y, m))))
  {
    DateFields(s);
  }

  /** Year 0000 is a full-date in RFC 3339 but not a year of era, so the parse fails. */
  lemma YearZeroRejected()
    ensures IsFullDate("0000-01-01") && ParseDate("0000-01-01") == None
  {
    DateFields("0000-01-01");
  }

  /** The SMART resolver turns 30 February into the last day of February. */
  lemma SmartResolverClamps()
    ensures !IsFullDate("2023-02-30") && ParseDate("2023-02-30") == Some(Date(2023, 2, 28))
    ensures ParseDate("2024-02-30") == Some(Date(2024, 2, 29))
  {
    ParseFields("2023-02-30", 2023, 2, 30);
    ParseFields("2024-02-30", 2024, 2, 30);
    DateFields("2023-02-30");
  }
}
