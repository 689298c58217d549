/** Fixed-width integers and decimal digit strings, shared by the scanners and the channel. */
module Numeric {
  const TWO32: int := 0x1_0000_0000
  const MAX32: int := 0x7fff_ffff

  /** The two's-complement 32-bit value congruent to x. */
  function I32(x: int): (r: int)
    ensures -MAX32 - 1 <= r <= MAX32
    ensures (r - x) % TWO32 == 0
    ensures -MAX32 - 1 <= x <= MAX32 ==> r == x
  {
    (x + MAX32 + 1) % TWO32 - MAX32 - 1
  }

  /** Adding a multiple of 2^32 does not change the wrapped value. */
  lemma I32Shift(x: int, k: int)
    ensures I32(x + k * TWO32) == I32(x)
  {
    var y := x + MAX32 + 1;
    assert (y + k * TWO32) % TWO32 == y % TWO32;
  }

  predicate IsDigit(c: char) { '0' <= c <= '9' }

  function DigitValue(c: char): (d: nat)
    requires IsDigit(c)
    ensures d <= 9
  {
    c as int - '0' as int
  }

  const DIGITS := "0123456789"

  /** The ten digits, and what each stands for. */
  lemma DigitTable(c: char)
    ensures IsDigit(c) <==> c in DIGITS
    ensures IsDigit(c) ==> DIGITS[DigitValue(c)] == c
  {
    if IsDigit(c) { DigitAt(c as int - '0' as int); }
  }

  lemma DigitAt(d: nat)
    requires d <= 9
    ensures DIGITS[d] == '0' + d as char
  {
  }

  predicate AllDigits(s: string) { forall k :: 0 <= k < |s| ==> IsDigit(s[k]) }

  /** The natural number a digit string denotes. */
  function Decimal(s: string): nat
    requires AllDigits(s)
  {
    if s == "" then 0 else Decimal(s[..|s| - 1]) * 10 + DigitValue(s[|s| - 1])
  }

  /** The decimal numeral of a number. */
  function Shown(n: nat): string {
    if n < 10 then [DIGITS[n]] else Shown(n / 10) + [DIGITS[n % 10]]
  }

  /** A numeral denotes the number it shows. */
  lemma {:induction false} DecimalOfShown(n: nat)
    ensures AllDigits(Shown(n)) && Decimal(Shown(n)) == n
  {
    DigitAt(n % 10);
    if n < 10 {
      assert Shown(n)[..0] == "";
    } else {
      DecimalOfShown(n / 10);
      assert Shown(n)[..|Shown(n)| - 1] == Shown(n / 10);
    }
  }

  /** The i32 accumulator of the digit loops: every step wraps. */
  function Accumulate(s: string): int
    requires AllDigits(s)
  {
    if s == "" then 0 else I32(Accumulate(s[..|s| - 1]) * 10 + DigitValue(s[|s| - 1]))
  }

  /** Wrapping at every step is wrapping once at the end, so a value that fits is exact. */
  lemma {:induction false} AccumulateIsDecimal(s: string)
    requires AllDigits(s)
    ensures Accumulate(s) == I32(Decimal(s))
    ensures Accumulate(s) == Decimal(s) <==> Decimal(s) <= MAX32
  {
    if s != "" {
      var init, d := s[..|s| - 1], DigitValue(s[|s| - 1]);
      AccumulateIsDecimal(init);
      var k := (Accumulate(init) - Decimal(init)) / TWO32;
      assert Accumulate(init) == Decimal(init) + k * TWO32;
      assert Accumulate(init) * 10 + d == Decimal(init) * 10 + d + (10 * k) * TWO32;
      I32Shift(Decimal(init) * 10 + d, 10 * k);
    }
  }

  /** Digits scanned one at a time extend the accumulator by one step. */
  lemma AccumulateSnoc(src: string, i: nat, j: nat)
    requires i <= j < |src| && AllDigits(src[i..j + 1])
    ensures AllDigits(src[i..j])
    ensures Accumulate(src[i..j + 1]) == I32(Accumulate(src[i..j]) * 10 + DigitValue(src[j]))
  {
    var s := src[i..j + 1];
    assert s[..|s| - 1] == src[i..j];
    assert forall k :: 0 <= k < j - i ==> src[i..j][k] == s[k];
  }
}
