/**
 * JavaScript numbers as they are stored: `readDoubleLE` and `writeDoubleLE` on 64-bit patterns (IEEE 754, binary64).
 */
module Doubles {
  import Decimal

  const TWO52 := 0x10_0000_0000_0000
  const TWO63 := 0x8000_0000_0000_0000
  const TWO64 := 0x1_0000_0000_0000_0000

  /** The pattern a NaN is written with. */
  const NAN_BITS := 0x7ff8_0000_0000_0000

  /**
   * A number: a safe integer, negative zero, NaN, or any other double by its pattern (fractions, infinities, and
   * integers past 2^53 - 1).
   */
  datatype JsNumber = Int(n: int) | NegativeZero | NotANumber | Float(bits: int)

  function Pow2(k: nat): (p: nat)
    ensures 0 < p
  {
    if k == 0 then 1 else 2 * Pow2(k - 1)
  }

  /** The number a pattern stands for: sign, 11 bits of exponent, 52 bits of fraction. */
  function NumberOf(bits: int): JsNumber
    requires 0 <= bits < TWO64
  {
    var exponent, fraction := bits / TWO52 % 2048, bits % TWO52;
    var sign := if bits < TWO63 then 1 else -1;
    if exponent == 2047 && fraction != 0 then NotANumber
    else if exponent == 0 && fraction == 0 then (if sign > 0 then Int(0) else NegativeZero)
    else if 1023 <= exponent <= 1075 && (TWO52 + fraction) % Pow2(1075 - exponent) == 0 then
      Int(sign * ((TWO52 + fraction) / Pow2(1075 - exponent)))
    else Float(bits)
  }

  /** A number in its one representation. */
  predicate IsNumber(x: JsNumber) {
    match x
    case Int(n) => Decimal.IsSafe(n)
    case Float(bits) => 0 <= bits < TWO64 && NumberOf(bits) == x
    case _ => true
  }

  /** The exponent of the largest power of two that is at most `n`. */
  function Log2(n: nat): (k: nat)
    requires 0 < n
    ensures Pow2(k) <= n < 2 * Pow2(k)
  {
    if n == 1 then 0 else 1 + Log2(n / 2)
  }

  lemma {:induction false} Pow2Add(a: nat, b: nat)
    ensures Pow2(a + b) == Pow2(a) * Pow2(b)
  {
    if a > 0 {
      Pow2Add(a - 1, b);
      assert Pow2(a + b) == 2 * Pow2(a - 1 + b) && Pow2(a) == 2 * Pow2(a - 1);
      Doubled(Pow2(a - 1), Pow2(b));
    }
  }

  lemma {:induction false} Doubled(x: nat, y: nat)
    ensures (2 * x) * y == 2 * (x * y)
  {
  }

  lemma {:induction false} Pow2Monotone(a: nat, b: nat)
    requires a < b
    ensures 2 * Pow2(a) <= Pow2(b)
  {
    if a + 1 < b {
      Pow2Monotone(a, b - 1);
    }
  }

  lemma {:induction false} Pow2Of53()
    ensures Pow2(53) == Decimal.TWO53 && Pow2(52) == TWO52
  {
    assert Pow2(4) == 16 && Pow2(1) == 2;
    hide Pow2;
    Pow2Add(4, 4);
    Pow2Add(8, 8);
    Pow2Add(16, 16);
    Pow2Add(32, 16);
    Pow2Add(48, 4);
    Pow2Add(52, 1);
  }

  /**
   * A safe integer as a 53-bit significand and the power of two it is short of: `m * Pow2(52 - k)` for its highest bit
   * `k`.
   */
  function Significand(m: nat): (s: nat)
    requires 0 < m <= Decimal.MAX_SAFE
    ensures Log2(m) <= 52 && s == m * Pow2(52 - Log2(m)) && TWO52 <= s < 2 * TWO52
  {
    var k := Log2(m);
    Pow2Of53();
    assert k <= 52 by {
      if k > 52 {
        Pow2Monotone(52, k);
      }
    }
    Pow2Add(k, 52 - k);
    Scaled(Pow2(k), m, Pow2(52 - k));
    m * Pow2(52 - k)
  }

  lemma {:induction false} Scaled(a: nat, m: nat, u: nat)
    requires a <= m < 2 * a && 0 < u
    ensures a * u <= m * u < 2 * (a * u)
  {
  }

  function BitsOf(x: JsNumber): (bits: int)
    requires IsNumber(x)
    ensures 0 <= bits < TWO64
  {
    match x
    case Int(n) =>
      if n == 0 then 0
      else
        var m := if n < 0 then -n else n;
        (if n < 0 then TWO63 else 0) + (1023 + Log2(m)) * TWO52 + (Significand(m) - TWO52)
    case NegativeZero => TWO63
    case NotANumber => NAN_BITS
    case Float(bits) => bits
  }

  /** Writing a number and reading its pattern gives the number back. */
  lemma {:induction false} NumberOfBits(x: JsNumber)
    requires IsNumber(x)
    ensures NumberOf(BitsOf(x)) == x
  {
    hide Pow2, Log2, Significand;
    if x.Int? && x.n != 0 {
      var m := if x.n < 0 then -x.n else x.n;
      var s, k := Significand(m), Log2(m);
      var bits := BitsOf(x);
      Fields(if x.n < 0 then 1 else 0, 1023 + k, s - TWO52, bits);
      Divides(m, Pow2(52 - k));
    }
  }

  lemma {:induction false} Fields(sign: int, exponent: int, fraction: int, bits: int)
    requires 0 <= sign <= 1 && 0 <= exponent < 2048 && 0 <= fraction < TWO52
    requires bits == sign * TWO63 + exponent * TWO52 + fraction
    ensures bits / TWO52 % 2048 == exponent && bits % TWO52 == fraction && (bits < TWO63 <==> sign == 0)
  {
  }

  lemma {:induction false} Divides(m: nat, u: nat)
    requires 0 < u
    ensures (m * u) % u == 0 && (m * u) / u == m
  {
    var q := (m * u) / u;
    assert q * u <= m * u < (q + 1) * u;
    if q < m {
      Decimal.Monotone(q + 1, m, u);
    } else if m < q {
      Decimal.Monotone(m + 1, q, u);
    }
  }

  /** Reading any pattern gives a number in its one representation. */
  lemma {:induction false} NumberOfIsNumber(bits: int)
    requires 0 <= bits < TWO64
    ensures IsNumber(NumberOf(bits))
  {
  }
}
