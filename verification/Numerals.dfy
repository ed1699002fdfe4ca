/** Decimal and fixed-width hexadecimal numerals, as Python's `str(n)`, `int(text)` and `f"{v:064x}"` write and
    read them for natural numbers. */
module Numerals {

  datatype Option<+T> = None | Some(value: T)

  const DIGITS: string := "0123456789abcdef"

  function Pow2(bits: nat): (r: nat)
    ensures r > 0
  {
    if bits == 0 then 1 else 2 * Pow2(bits - 1)
  }

  predicate IsDigit(c: char) {
    '0' <= c <= '9'
  }

  predicate AllDigits(s: string) {
    forall i | 0 <= i < |s| :: IsDigit(s[i])
  }

  function DigitValue(c: char): (d: nat)
    requires IsDigit(c)
    ensures d < 10
  {
    c as int - '0' as int
  }

  /** The decimal numeral of `n`: never empty, digits only. */
  function Decimal(n: nat): (s: string)
    ensures |s| > 0 && AllDigits(s)
  {
    if n < 10 then [DIGITS[n]] else Decimal(n / 10) + [DIGITS[n % 10]]
  }

  /** Reads a decimal numeral; anything but a non-empty run of digits is refused. */
  function ParseDecimal(s: string): (r: Option<nat>)
    ensures r.Some? <==> |s| > 0 && AllDigits(s)
  {
    if |s| == 0 || !IsDigit(s[|s| - 1]) then None
    else if |s| == 1 then Some(DigitValue(s[0]))
    else match ParseDecimal(s[..|s| - 1])
      case None => None
      case Some(high) => Some(10 * high + DigitValue(s[|s| - 1]))
  }

  lemma DigitReadsBack(d: nat)
    requires d < 10
    ensures IsDigit(DIGITS[d]) && DigitValue(DIGITS[d]) == d
  {
  }

  lemma {:induction false} DecimalRoundTrip(n: nat)
    ensures ParseDecimal(Decimal(n)) == Some(n)
  {
    DigitReadsBack(n % 10);
    if n >= 10 {
      DecimalRoundTrip(n / 10);
      assert Decimal(n)[..|Decimal(n)| - 1] == Decimal(n / 10);
    }
  }

  /** `width` hexadecimal digits of `v`, most significant first. */
  function FixedHex(v: nat, width: nat): (s: string)
    ensures |s| == width
  {
    if width == 0 then "" else FixedHex(v / 16, width - 1) + [DIGITS[v % 16]]
  }

  lemma HexDigitsDiffer(a: nat, b: nat)
    requires a < 16 && b < 16 && DIGITS[a] == DIGITS[b]
    ensures a == b
  {
  }

  lemma {:induction false} FixedHexInjective(a: nat, b: nat, width: nat)
    requires a < Pow2(4 * width) && b < Pow2(4 * width)
    requires FixedHex(a, width) == FixedHex(b, width)
    ensures a == b
  {
    if width > 0 {
      var ha, hb := FixedHex(a / 16, width - 1), FixedHex(b / 16, width - 1);
      assert FixedHex(a, width)[..width - 1] == ha && FixedHex(b, width)[..width - 1] == hb;
      assert FixedHex(a, width)[width - 1] == DIGITS[a % 16] && FixedHex(b, width)[width - 1] == DIGITS[b % 16];
      HexDigitsDiffer(a % 16, b % 16);
      var k := 4 * (width - 1);
      assert 4 * width == k + 4;
      assert Pow2(k + 4) == 2 * Pow2(k + 3) && Pow2(k + 3) == 2 * Pow2(k + 2)
          && Pow2(k + 2) == 2 * Pow2(k + 1) && Pow2(k + 1) == 2 * Pow2(k);
      FixedHexInjective(a / 16, b / 16, width - 1);
    }
  }

  // ---- Quotients ----

  lemma FloorReaches(a: int, b: int, threshold: int)
    requires a >= 0 && b > 0
    ensures a / b >= threshold <==> a >= threshold * b
  {
    var q := a / b;
    assert q * b <= a < (q + 1) * b;
    if q >= threshold {
      assert q * b >= threshold * b;
    } else {
      assert threshold * b >= (q + 1) * b;
    }
  }
}
