/**
 * The two library parses the importer relies on, written out as validators:
 * `datetime.strptime(s, '%Y-%m-%d').date()` and `float(s)` restricted to plain
 * decimal notation. A failed parse is None where Python raises ValueError.
 */
module Parsing {
  import opened Wrappers
  import opened Transactions

  predicate IsDigit(c: char) {
    '0' <= c <= '9'
  }

  predicate AllDigits(s: string) {
    forall i | 0 <= i < |s| :: IsDigit(s[i])
  }

  function DigitValue(c: char): (n: nat)
    requires IsDigit(c)
    ensures n < 10
  {
    c as int - '0' as int
  }

  /** The value of a string of decimal digits, most significant first. */
  function NumberValue(s: string): nat
    requires AllDigits(s)
  {
    if s == [] then 0 else 10 * NumberValue(s[..|s| - 1]) + DigitValue(s[|s| - 1])
  }

  // ---------------------------------------------------------------------------
  // strptime with '%Y-%m-%d'
  // ---------------------------------------------------------------------------

  /** What the `%m` directive accepts: `1[0-2]`, `0[1-9]` or `[1-9]`. */
  predicate IsMonthText(s: string) {
    || (|s| == 2 && s[0] == '1' && '0' <= s[1] <= '2')
    || (|s| == 2 && s[0] == '0' && '1' <= s[1] <= '9')
    || (|s| == 1 && '1' <= s[0] <= '9')
  }

  /** What the `%d` directive accepts: `3[01]`, `[12][0-9]`, `0[1-9]`, `[1-9]` or a space then `[1-9]`. */
  predicate IsDayText(s: string) {
    || (|s| == 2 && s[0] == '3' && (s[1] == '0' || s[1] == '1'))
    || (|s| == 2 && (s[0] == '1' || s[0] == '2') && IsDigit(s[1]))
    || (|s| == 2 && (s[0] == '0' || s[0] == ' ') && '1' <= s[1] <= '9')
    || (|s| == 1 && '1' <= s[0] <= '9')
  }

  /** The number a month or day field denotes (a leading space counts as nothing). */
  function FieldValue(s: string): nat {
    if |s| == 2 && s[0] == ' ' && IsDigit(s[1]) then DigitValue(s[1])
    else if AllDigits(s) then NumberValue(s)
    else 0
  }

  /**
   * `datetime.strptime(s, '%Y-%m-%d').date()`: four digits, '-', a month field, '-',
   * a day field and nothing after it; then the date must exist (year at least 1,
   * the day within its month). None where Python raises ValueError.
   */
  function ParseDate(s: string): (r: Option<Date>)
    ensures r.Some? ==> ValidDate(r.value)
  {
    if |s| < 8 || !AllDigits(s[..4]) || s[4] != '-' then None
    else
      var rest := s[5..];
      // The month field is one or two characters long and ends at the second '-'.
      var cut := if rest[1] == '-' then 1 else 2;
      if cut == 2 && rest[2] != '-' then None
      else
        var monthText, dayText := rest[..cut], rest[cut + 1..];
        if !IsMonthText(monthText) || !IsDayText(dayText) then None
        else
          var d := Date(NumberValue(s[..4]), FieldValue(monthText), FieldValue(dayText));
          if ValidDate(d) then Some(d) else None
  }

  // ---------------------------------------------------------------------------
  // float() on decimal notation
  // ---------------------------------------------------------------------------

  function Pow10(n: nat): (p: nat)
    ensures p >= 1
  {
    if n == 0 then 1 else 10 * Pow10(n - 1)
  }

  /** The position of the first '.', or the length when there is none. */
  function DotIndex(s: string): (k: nat)
    ensures k <= |s|
    ensures k < |s| ==> s[k] == '.'
    ensures forall i | 0 <= i < k :: s[i] != '.'
  {
    if s == [] then 0
    else if s[0] == '.' then 0
    else 1 + DotIndex(s[1..])
  }

  /**
   * Unsigned decimal notation: digits and an optional '.' followed by digits, with
   * at least one digit in all; the value is the exact decimal.
   */
  function ParseDecimal(body: string): (r: Option<real>)
    ensures r.Some? ==> r.value >= 0.0
  {
    var k := DotIndex(body);
    var whole := body[..k];
    var fraction := if k < |body| then body[k + 1..] else [];
    if !AllDigits(whole) || !AllDigits(fraction) || |whole| + |fraction| == 0 then None
    else
      Some(NumberValue(whole) as real + NumberValue(fraction) as real / Pow10(|fraction|) as real)
  }

  /**
   * `float(s)` for an optional sign followed by unsigned decimal notation.
   * None where Python raises ValueError.
   */
  function ParseAmount(s: string): (r: Option<real>)
    ensures r.Some? && |s| > 0 && s[0] == '-' ==> r.value <= 0.0
    ensures r.Some? && (|s| == 0 || s[0] != '-') ==> r.value >= 0.0
    ensures |s| > 0 && (s[0] == '-' || s[0] == '+') ==> (r.Some? <==> ParseDecimal(s[1..]).Some?)
  {
    if |s| > 0 && (s[0] == '-' || s[0] == '+') then
      match ParseDecimal(s[1..])
      case None => None
      case Some(v) => Some(if s[0] == '-' then -v else v)
    else
      ParseDecimal(s)
  }

  // ---------------------------------------------------------------------------
  // Round trips: the texts the program itself writes parse back to their values
  // ---------------------------------------------------------------------------

  function DigitChar(d: nat): (c: char)
    requires d < 10
    ensures IsDigit(c) && DigitValue(c) == d
  {
    ('0' as int + d) as char
  }

  /** The shortest decimal rendering of `n`, as `str(n)` writes it. */
  function Digits(n: nat): (s: string)
    ensures |s| >= 1 && AllDigits(s)
  {
    if n < 10 then [DigitChar(n)] else Digits(n / 10) + [DigitChar(n % 10)]
  }

  lemma {:induction false} DigitsValue(n: nat)
    ensures NumberValue(Digits(n)) == n
  {
    if n >= 10 {
      var s := Digits(n);
      assert s[..|s| - 1] == Digits(n / 10);
      DigitsValue(n / 10);
    }
  }

  /** `n` zero-padded to two digits, as `%02d` writes it. */
  function Two(n: nat): (s: string)
    requires n < 100
    ensures |s| == 2 && AllDigits(s)
  {
    [DigitChar(n / 10), DigitChar(n % 10)]
  }

  lemma TwoValue(n: nat)
    requires n < 100
    ensures NumberValue(Two(n)) == n
  {
    var s := Two(n);
    assert s[..1][..0] == [];
    assert NumberValue(s[..1]) == n / 10;
    assert NumberValue(s) == 10 * (n / 10) + n % 10;
  }

  /** `n` zero-padded to four digits, as `%04d` writes it. */
  function Four(n: nat): (s: string)
    requires n < 10000
    ensures |s| == 4 && AllDigits(s)
  {
    [DigitChar(n / 1000), DigitChar(n / 100 % 10), DigitChar(n / 10 % 10), DigitChar(n % 10)]
  }

  lemma FourValue(n: nat)
    requires n < 10000
    ensures NumberValue(Four(n)) == n
  {
    var s := Four(n);
    var hundreds, tens := n / 100, n / 10;
    assert hundreds == 10 * (n / 1000) + hundreds % 10;
    assert tens == 10 * hundreds + tens % 10;
    assert n == 10 * tens + n % 10;
    assert s[..3][..2][..1][..0] == [];
    assert s[..3][..2] == s[..2] && s[..2][..1] == s[..1];
    assert NumberValue(s[..1]) == n / 1000;
    assert NumberValue(s[..2]) == hundreds;
    assert NumberValue(s[..3]) == tens;
  }


  /** `date.isoformat()`: `YYYY-MM-DD`, zero-padded. */
  function IsoText(d: Date): (s: string)
    requires ValidDate(d)
    ensures |s| == 10
  {
    Four(d.year) + "-" + Two(d.month) + "-" + Two(d.day)
  }

  /** Every date the calendar has reads back from its ISO text unchanged. */
  lemma ParseIsoText(d: Date)
    requires ValidDate(d)
    ensures ParseDate(IsoText(d)) == Some(d)
  {
    var s := IsoText(d);
    assert s[..4] == Four(d.year);
    assert s[5..][..2] == Two(d.month);
    assert s[5..][3..] == Two(d.day);
    FourValue(d.year);
    TwoValue(d.month);
    TwoValue(d.day);
  }

  /** A non-negative amount in cents written with two decimals, e.g. `12.50`. */
  function UnsignedCentsText(m: nat): (s: string)
    ensures |s| >= 4 && IsDigit(s[0])
  {
    Digits(m / 100) + "." + Two(m % 100)
  }

  /** An amount in cents written with two decimals and a '-' when negative, e.g. `-12.50`. */
  function CentsText(cents: int): string {
    if cents < 0 then "-" + UnsignedCentsText(-cents) else UnsignedCentsText(cents)
  }

  /** Unsigned decimal text `q.rr` reads back as `q + rr / 100`. */
  lemma ParseUnsignedText(q: nat, r: nat)
    requires r < 100
    ensures ParseDecimal(Digits(q) + "." + Two(r)) == Some(q as real + r as real / 100.0)
  {
    var whole := Digits(q);
    var body := whole + "." + Two(r);
    assert body[..|whole|] == whole;
    assert body[|whole| + 1..] == Two(r);
    assert DotIndex(body) == |whole| by {
      assert body[|whole|] == '.';
      assert forall i | 0 <= i < |whole| :: body[i] == whole[i] && body[i] != '.';
    }
    DigitsValue(q);
    TwoValue(r);
  }

  lemma CentsSplit(m: nat)
    ensures (m / 100) as real + (m % 100) as real / 100.0 == m as real / 100.0
  {
    var q, r := m / 100, m % 100;
    assert m == 100 * q + r;
    assert m as real == 100.0 * q as real + r as real;
  }

  lemma ParseMagnitudeText(m: nat)
    ensures ParseDecimal(UnsignedCentsText(m)) == Some(m as real / 100.0)
  {
    var q, r := m / 100, m % 100;
    assert UnsignedCentsText(m) == Digits(q) + "." + Two(r);
    ParseUnsignedText(q, r);
    CentsSplit(m);
  }

  /** A text that starts with a digit reads as its unsigned decimal value; after a '-' it reads as the negation. */
  lemma ParseSignedDecimal(u: string)
    requires |u| > 0 && IsDigit(u[0])
    ensures ParseAmount(u) == ParseDecimal(u)
    ensures ParseAmount("-" + u) == if ParseDecimal(u).Some? then Some(-ParseDecimal(u).value) else None
  {
    assert ("-" + u)[1..] == u;
  }

  /** The written amount reads back as exactly `cents / 100`. */
  lemma ParseCentsText(cents: int)
    ensures ParseAmount(CentsText(cents)) == Some(cents as real / 100.0)
  {
    var m := if cents < 0 then -cents else cents;
    var u := UnsignedCentsText(m);
    ParseMagnitudeText(m);
    ParseSignedDecimal(u);
    assert CentsText(cents) == if cents < 0 then "-" + u else u;
  }
}
