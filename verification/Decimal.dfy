/**
 * Integers as JavaScript reads and prints them: `Number(text)` of a decimal literal, and `${number}`.
 *
 * A JavaScript number is a double, so a literal past 2^53 is rounded to 53 significant bits when it is read, and
 * printed with the fewest digits that read back as the same double. Up to 2^53 both are exact.
 */
module Decimal {
  import opened Wire

  const MINUS: byte := 45
  const PLUS: byte := 43
  const ZERO: byte := 48

  const TWO53 := 9007199254740992

  /** Number.MAX_SAFE_INTEGER. */
  const MAX_SAFE := TWO53 - 1

  /** From here on `${number}` switches to exponent notation; no Redis integer gets there. */
  const EXPONENT := 1_000_000_000_000_000_000_000

  predicate IsSafe(n: int) {
    -MAX_SAFE <= n <= MAX_SAFE
  }

  // ----- doubles -----

  /** The multiple of `unit` nearest to `m`; a tie goes to the even multiple. */
  function Nearest(m: nat, unit: nat): nat
    requires 0 < unit
  {
    var q, r := m / unit, m % unit;
    if 2 * r < unit || (2 * r == unit && q % 2 == 0) then q * unit else (q + 1) * unit
  }

  /** The gap between neighbouring doubles around `m`, where it is at least one. */
  function Gap(m: nat): (u: nat)
    ensures 0 < u && (u == 1 <==> m < TWO53) && (1 < u ==> u % 2 == 0)
    ensures TWO53 <= m ==> TWO53 / 2 * u <= m
  {
    if m < TWO53 then 1 else 2 * Gap(m / 2)
  }

  /** One, two, four, and so on. */
  predicate IsPower2(u: nat) {
    u == 1 || (0 < u && u % 2 == 0 && IsPower2(u / 2))
  }

  lemma {:induction false} GapDoubles(m: nat)
    requires TWO53 <= m
    ensures Gap(m) == 2 * Gap(m / 2)
  {
  }

  lemma {:induction false} PowerHalves(u: nat)
    requires IsPower2(u) && 1 < u
    ensures u == 2 * (u / 2) && IsPower2(u / 2)
  {
  }

  /** The gap is the power of two with 2^52 to 2^53 gaps up to `m`. */
  lemma {:induction false} GapIs(m: nat, u: nat)
    requires IsPower2(u) && m < TWO53 * u && (1 < u ==> TWO53 / 2 * u <= m)
    ensures Gap(m) == u
    decreases m
  {
    if 1 < u {
      hide Gap, IsPower2;
      PowerHalves(u);
      GapDoubles(m);
      GapIs(m / 2, u / 2);
    }
  }

  lemma {:induction false} GapIsPower2(m: nat)
    ensures IsPower2(Gap(m)) && m < TWO53 * Gap(m)
    decreases m
  {
    if TWO53 <= m {
      GapIsPower2(m / 2);
    }
  }

  /** The double nearest to the integer `n`. */
  function Double(n: int): int {
    if n < 0 then 0 - Nearest(-n, Gap(-n)) else Nearest(n, Gap(n))
  }

  /** The integers that are doubles and print in plain decimal notation. */
  predicate IsDouble(n: int) {
    -EXPONENT < n < EXPONENT && Double(n) == n
  }

  /** An integer a JavaScript number can hold. */
  type JsInteger = n: int | IsDouble(n) witness 0

  lemma {:induction false} SafeIsDouble(n: int)
    requires IsSafe(n)
    ensures IsDouble(n)
  {
  }

  function Abs(n: int): nat {
    if n < 0 then -n else n
  }

  lemma {:induction false} NearestIsItself(m: nat, unit: nat)
    requires 0 < unit
    ensures Nearest(m, unit) == m <==> m % unit == 0
  {
    assert (m / unit + 1) * unit == m / unit * unit + unit;
  }

  /** An integer is a double exactly when it is a multiple of the gap around it. */
  lemma {:induction false} ExactlyDouble(n: int)
    ensures Double(n) == n <==> Abs(n) % Gap(Abs(n)) == 0
  {
    hide Nearest, Gap;
    NearestIsItself(Abs(n), Gap(Abs(n)));
  }

  lemma {:induction false} Multiple(q: nat, u: nat)
    requires 0 < u
    ensures (q * u) % u == 0
  {
    var r := q * u;
    assert r / u * u <= r < (r / u + 1) * u;
    if r / u < q {
      Monotone(r / u + 1, q, u);
    } else if q < r / u {
      Monotone(q + 1, r / u, u);
    }
  }

  /** Rounding gives a whole number of gaps, in the range where the gap is right or just past it. */
  lemma {:induction false} RoundedTo(m: nat) returns (t: nat)
    ensures Nearest(m, Gap(m)) == t * Gap(m) && t <= TWO53 && (1 < Gap(m) ==> TWO53 / 2 <= t)
  {
    hide Gap;
    var u := Gap(m);
    var q := m / u;
    GapIsPower2(m);
    assert q < TWO53;
    if TWO53 <= m {
      QuotientAtLeast(TWO53 / 2, m, u);
    }
    t := if Nearest(m, u) == q * u then q else q + 1;
  }

  lemma {:induction false} Between(lo: nat, t: nat, hi: nat, u: nat)
    requires lo <= t < hi && 0 < u
    ensures lo * u <= t * u < hi * u
  {
    Monotone(lo, t, u);
    Monotone(t + 1, hi, u);
    assert (t + 1) * u == t * u + u;
  }

  lemma {:induction false} InsideIsExact(p: nat, u: nat)
    requires IsPower2(u) && p < TWO53 * u && (1 < u ==> TWO53 / 2 * u <= p) && p % u == 0
    ensures p % Gap(p) == 0
  {
    hide Gap;
    GapIs(p, u);
  }

  lemma {:induction false} PowerDoubles(u: nat)
    requires IsPower2(u)
    ensures 0 < u && IsPower2(2 * u)
  {
  }

  lemma {:induction false} EdgeIsExact(u: nat)
    requires IsPower2(u)
    ensures (TWO53 * u) % Gap(TWO53 * u) == 0
  {
    hide Gap;
    PowerDoubles(u);
    hide IsPower2;
    Multiple(TWO53 / 2, 2 * u);
    GapIs(TWO53 * u, 2 * u);
  }

  lemma {:induction false} MultipleIsExact(t: nat, u: nat)
    requires IsPower2(u) && t <= TWO53 && (1 < u ==> TWO53 / 2 <= t)
    ensures (t * u) % Gap(t * u) == 0
  {
    hide Gap, IsPower2;
    PowerDoubles(u);
    if t < TWO53 {
      Between(if 1 < u then TWO53 / 2 else 0, t, TWO53, u);
      Multiple(t, u);
      InsideIsExact(t * u, u);
    } else {
      EdgeIsExact(u);
    }
  }

  /** What rounding gives is a multiple of its own gap, even where it rounds up to the next power of two. */
  lemma {:induction false} RoundedIsExact(m: nat)
    ensures var r := Nearest(m, Gap(m)); r % Gap(r) == 0
  {
    hide Nearest, Gap, IsPower2;
    var t := RoundedTo(m);
    GapIsPower2(m);
    MultipleIsExact(t, Gap(m));
  }

  lemma {:induction false} RoundedAtMost(m: nat)
    ensures Nearest(m, Gap(m)) <= TWO53 + 2 * m
  {
    hide Gap, Nearest;
    var t := RoundedTo(m);
    Monotone(t, TWO53, Gap(m));
    assert TWO53 <= m ==> TWO53 / 2 * Gap(m) <= m;
  }

  /** Every 64-bit integer stays in plain decimal notation. */
  lemma {:induction false} Int64InRange(n: int)
    requires FitsInt64(n)
    ensures -EXPONENT < Double(n) < EXPONENT
  {
    hide Gap, Nearest;
    RoundedAtMost(Abs(n));
  }

  /** Rounding is final. */
  lemma {:induction false} DoubleTwice(n: int)
    ensures Double(Double(n)) == Double(n)
  {
    hide Nearest, Gap;
    RoundedIsExact(Abs(n));
    ExactlyDouble(Double(n));
  }

  // ----- digits -----

  predicate IsDigit(b: byte) {
    ZERO <= b <= ZERO + 9
  }

  predicate IsDigits(t: Text) {
    forall i | 0 <= i < |t| :: IsDigit(t[i])
  }

  function Digits(n: nat): (t: Text)
    ensures t != [] && IsDigits(t)
  {
    if n < 10 then [ZERO + n] else Digits(n / 10) + [ZERO + n % 10]
  }

  function Magnitude(t: Text): nat
    requires IsDigits(t)
  {
    if t == [] then 0 else Magnitude(t[..|t| - 1]) * 10 + (t[|t| - 1] - ZERO)
  }

  lemma {:induction false} MagnitudeOfDigits(n: nat)
    ensures Magnitude(Digits(n)) == n
  {
    if n >= 10 {
      MagnitudeOfDigits(n / 10);
      assert Digits(n)[..|Digits(n)| - 1] == Digits(n / 10);
    }
  }

  /** The canonical literal of an integer: what a Redis server writes for it. */
  function Literal(n: int): (t: Text)
    ensures t != [] && (IsDigits(t) || (t[0] == MINUS && IsDigits(t[1..])))
  {
    if n < 0 then [MINUS] + Digits(-n) else Digits(n)
  }

  // ----- reading -----

  /** The integer a literal denotes: an optional sign and digits, or the empty text, which is 0. */
  function Denoted(t: Text): Option<int> {
    var signed := t != [] && (t[0] == MINUS || t[0] == PLUS);
    var digits := if signed then t[1..] else t;
    if !IsDigits(digits) || (signed && digits == []) then None
    else
      var n: int := Magnitude(digits);
      Some(if signed && t[0] == MINUS then -n else n)
  }

  /** `Number(t)` of an integer literal. None stands for every other text: NaN, fractions, exponents. */
  function Number(t: Text): Option<JsInteger> {
    match Denoted(t)
    case None => None
    case Some(n) => if IsDouble(Double(n)) then Some(Double(n)) else None
  }

  lemma {:induction false} DenotedLiteral(n: int)
    ensures Denoted(Literal(n)) == Some(n)
  {
    if n < 0 {
      MagnitudeOfDigits(-n);
      assert Literal(n)[1..] == Digits(-n);
    } else {
      MagnitudeOfDigits(n);
      assert IsDigit(Digits(n)[0]);
    }
  }

  // ----- printing -----

  function Pow10(k: nat): (p: nat)
    ensures 0 < p && (0 < k ==> p % 2 == 0)
  {
    if k == 0 then 1 else 10 * Pow10(k - 1)
  }

  /**
   * The integer printed for the double `d`: the multiple of the largest power of ten, from the `k`th down, that
   * reads back as `d`.
   */
  function Shortest(d: nat, k: nat): (c: nat)
    requires IsDouble(d)
    ensures Double(c) == d && c < EXPONENT
  {
    if k == 0 then d
    else
      var c := Nearest(d, Pow10(k));
      if 0 < c < EXPONENT && Double(c) == d then c else Shortest(d, k - 1)
  }

  function Shown(d: int): (c: int)
    requires IsDouble(d)
    ensures Double(c) == d && -EXPONENT < c < EXPONENT
  {
    if d < 0 then 0 - Shortest(0 - d, 20) else Shortest(d, 20)
  }

  /** `${d}` of an integer-valued double. */
  function Print(d: JsInteger): (t: Text)
    ensures t != [] && (IsDigits(t) || (t[0] == MINUS && IsDigits(t[1..])))
  {
    Literal(Shown(d))
  }

  /** Every double survives printing and reading. */
  lemma {:induction false} NumberOfPrint(d: JsInteger)
    ensures Number(Print(d)) == Some(d)
  {
    DenotedLiteral(Shown(d));
  }

  // ----- where reading and printing is exact -----

  lemma {:induction false} Monotone(a: nat, b: nat, u: nat)
    requires a <= b
    ensures a * u <= b * u
  {
  }

  lemma {:induction false} QuotientAtLeast(k: nat, m: nat, u: nat)
    requires 0 < u && k * u <= m
    ensures k <= m / u
  {
    var q := m / u;
    assert m < (q + 1) * u;
    if q + 1 <= k {
      Monotone(q + 1, k, u);
    }
  }

  lemma {:induction false} NearestIsLarge(m: nat)
    requires TWO53 <= m
    ensures TWO53 <= Nearest(m, Gap(m))
  {
    var u := Gap(m);
    QuotientAtLeast(TWO53 / 2, m, u);
    Monotone(TWO53 / 2, m / u, u);
    Monotone(TWO53 / 2, m / u + 1, u);
  }

  lemma {:induction false} ShortestOfSafe(d: nat, k: nat)
    requires d <= MAX_SAFE
    ensures IsDouble(d) && Shortest(d, k) == d
  {
    SafeIsDouble(d);
    if k > 0 {
      var c := Nearest(d, Pow10(k));
      if TWO53 <= c {
        NearestIsLarge(c);
      }
      ShortestOfSafe(d, k - 1);
    }
  }

  lemma {:induction false} NearestIsEven(m: nat, unit: nat)
    requires 0 < unit && unit % 2 == 0
    ensures Nearest(m, unit) % 2 == 0
  {
    var q, half := m / unit, unit / 2;
    assert q * unit == 2 * (q * half) && (q + 1) * unit == 2 * ((q + 1) * half);
  }

  lemma {:induction false} ShortestIsEven(d: nat, k: nat)
    requires IsDouble(d) && d % 2 == 0
    ensures Shortest(d, k) % 2 == 0
  {
    hide Nearest, Pow10, Double;
    if k > 0 {
      NearestIsEven(d, Pow10(k));
      ShortestIsEven(d, k - 1);
    }
  }

  lemma {:induction false} DoubleIsEven(n: int)
    requires !IsSafe(n)
    ensures Double(n) % 2 == 0
  {
    hide Nearest, Gap;
    var m := if n < 0 then -n else n;
    assert Gap(m) % 2 == 0;
    NearestIsEven(m, Gap(m));
  }

  lemma {:induction false} ShownIsEven(d: int)
    requires IsDouble(d) && d % 2 == 0
    ensures Shown(d) % 2 == 0
  {
    hide Shortest, Nearest, Gap;
    ShortestIsEven(if d < 0 then 0 - d else d, 20);
  }

  // ----- exactly which literals survive -----

  /** Rounding `d` to `k` zeros gives a text that reads as `d` again. */
  predicate ReadsBack(d: nat, k: nat) {
    var c := Nearest(d, Pow10(k));
    0 < c < EXPONENT && Double(c) == d
  }

  /** The zeros a decimal ends in. */
  function Zeros(m: nat): nat {
    if m == 0 || m % 10 != 0 then 0 else 1 + Zeros(m / 10)
  }

  /**
   * `n` is the multiple of its own power of ten that is nearest to the double it reads as, and rounding that double to
   * more zeros gives a text that reads as another double.
   */
  predicate IsShortest(n: int) {
    var d, m := Abs(Double(n)), Abs(n);
    && m < EXPONENT && Nearest(d, Pow10(Zeros(m))) == m
    && forall i | Zeros(m) < i <= 20 :: !ReadsBack(d, i)
  }

  lemma {:induction false} TenTimes(a: nat, u: nat)
    requires 0 < u
    ensures (10 * a) % (10 * u) == 0 <==> a % u == 0
  {
    if a % u == 0 {
      var q := a / u;
      assert 10 * a == 10 * (q * u) == q * (10 * u);
      Multiple(q, 10 * u);
    }
    if (10 * a) % (10 * u) == 0 {
      var q := (10 * a) / (10 * u);
      assert 10 * a == q * (10 * u) == 10 * (q * u);
      Multiple(q, u);
    }
  }

  lemma {:induction false} TenDivides(m: nat, u: nat)
    requires 0 < u && m % (10 * u) == 0
    ensures m % 10 == 0
  {
    var q := m / (10 * u);
    assert m == q * (10 * u) == 10 * (q * u);
  }

  lemma {:induction false} ZerosDivide(m: nat, k: nat)
    requires 0 < m
    ensures m % Pow10(k) == 0 <==> k <= Zeros(m)
    decreases k
  {
    if k > 0 {
      var unit := Pow10(k - 1);
      assert Pow10(k) == 10 * unit;
      if m % 10 == 0 {
        hide Pow10;
        ZerosDivide(m / 10, k - 1);
        TenTimes(m / 10, unit);
      } else if m % Pow10(k) == 0 {
        hide Pow10;
        TenDivides(m, unit);
      }
    }
  }

  lemma {:induction false} PowersDivide(k: nat, z: nat)
    requires k < z
    ensures 2 * Pow10(k) <= Pow10(z)
    decreases z
  {
    if k < z - 1 {
      PowersDivide(k, z - 1);
    }
  }

  lemma {:induction false} FewZeros(m: nat)
    requires m < EXPONENT
    ensures Zeros(m) <= 20
  {
    hide Pow10;
    if 0 < m && 21 <= Zeros(m) {
      ZerosDivide(m, 21);
      Pow21();
    }
  }

  lemma {:induction false} Pow21()
    ensures Pow10(21) == EXPONENT
  {
    assert Pow10(7) == 10_000_000;
    assert Pow10(14) == 100_000_000_000_000;
  }

  lemma {:induction false} NearestWithin(d: nat, u: nat)
    requires 0 < u
    ensures var c := Nearest(d, u); c % u == 0 && 2 * (c - d) <= u && 2 * (d - c) <= u
  {
    Multiple(d / u, u);
    Multiple(d / u + 1, u);
    NearestClose(d, d / u, d % u, u);
  }

  lemma {:induction false} NearestClose(d: nat, q: nat, r: nat, u: nat)
    requires r < u && d == q * u + r
    ensures (q + 1) * u == q * u + u && 2 * (d - q * u) == 2 * r && 2 * ((q + 1) * u - d) == 2 * u - 2 * r
  {
  }

  lemma {:induction false} NoneOrOne(k: int, v: nat, r: nat)
    requires 0 < v && r < v && 2 * (k * v - r) < v && 2 * (r - k * v) < v
    ensures k == 0 || k == 1
  {
    if 1 < k {
      Monotone(2, k, v);
    }
  }

  lemma {:induction false} OnlyNearest(d: nat, v: nat, m: nat)
    requires 0 < v && m % v == 0 && 2 * (m - d) < v && 2 * (d - m) < v
    ensures Nearest(d, v) == m
  {
    hide Nearest;
    var q, t := d / v, m / v;
    var k := t - q;
    assert d == q * v + d % v && m == t * v;
    assert k * v == t * v - q * v;
    NoneOrOne(k, v, d % v);
    NearestOfTwo(d, v, m);
  }

  lemma {:induction false} NearestOfTwo(d: nat, v: nat, m: nat)
    requires 0 < v && 2 * (m - d) < v && 2 * (d - m) < v && (m == d / v * v || m == (d / v + 1) * v)
    ensures Nearest(d, v) == m
  {
    assert (d / v + 1) * v == d / v * v + v;
  }

  /** A decimal nearest among those with `k` zeros is nearest among those with as many zeros as it has. */
  lemma {:induction false} NearestWithZeros(d: nat, k: nat)
    requires 0 < Nearest(d, Pow10(k))
    ensures var m := Nearest(d, Pow10(k)); k <= Zeros(m) && Nearest(d, Pow10(Zeros(m))) == m
  {
    hide Nearest, Pow10, Zeros;
    var m := Nearest(d, Pow10(k));
    NearestWithin(d, Pow10(k));
    ZerosDivide(m, k);
    ZerosDivide(m, Zeros(m));
    if k < Zeros(m) {
      PowersDivide(k, Zeros(m));
      OnlyNearest(d, Pow10(Zeros(m)), m);
    }
  }

  lemma {:induction false} ShortestStep(d: nat, k: nat)
    requires IsDouble(d)
    ensures Shortest(d, k) == if k == 0 then d
                              else if ReadsBack(d, k) then Nearest(d, Pow10(k))
                              else Shortest(d, k - 1)
  {
    hide Nearest, Pow10, Double;
  }

  lemma {:induction false} NoZeros(d: nat)
    ensures Nearest(d, Pow10(0)) == d
  {
  }

  /** What is shown is the rounding to the most zeros that read back. */
  lemma {:induction false} MostZeros(d: nat, k: nat) returns (z: nat)
    requires IsDouble(d)
    ensures z <= k && (z == 0 || ReadsBack(d, z)) && forall i | z < i <= k :: !ReadsBack(d, i)
    ensures Shortest(d, k) == Nearest(d, Pow10(z))
  {
    hide Nearest, Pow10, Double, Shortest, ReadsBack;
    ShortestStep(d, k);
    NoZeros(d);
    if k == 0 || ReadsBack(d, k) {
      z := k;
    } else {
      z := MostZeros(d, k - 1);
    }
  }

  lemma {:induction false} DoubleOfAbs(n: int)
    ensures Double(Abs(n)) == Abs(Double(n)) && (n < 0 ==> Double(n) < 0) && (0 <= n ==> 0 <= Double(n))
  {
    if TWO53 <= Abs(n) {
      hide Nearest, Gap;
      NearestIsLarge(Abs(n));
    }
  }

  lemma {:induction false} NearestToZero(u: nat)
    requires 0 < u
    ensures Nearest(0, u) == 0
  {
  }

  lemma {:induction false} ZeroIsShown()
    ensures IsDouble(0) && Shortest(0, 20) == 0 && IsShortest(0)
  {
    hide Nearest, Pow10, Gap, Shortest;
    SafeIsDouble(0);
    ShortestOfSafe(0, 20);
    forall i ensures Nearest(0, Pow10(i)) == 0 {
      NearestToZero(Pow10(i));
    }
  }

  /** A positive decimal is the one shown for its double exactly when it is shortest. */
  lemma {:induction false} ShownIsShortest(m: nat)
    requires 0 < m && IsDouble(Double(m)) && 0 <= Double(m)
    ensures Shortest(Double(m), 20) == m <==> IsShortest(m)
  {
    hide Nearest, Pow10, Double, Shortest, Zeros;
    var d := Double(m);
    var z := MostZeros(d, 20);
    if Shortest(d, 20) == m {
      NearestWithZeros(d, z);
    }
    if IsShortest(m) {
      FewZeros(m);
      assert Zeros(m) > 0 ==> ReadsBack(d, Zeros(m));
      assert z == Zeros(m);
    }
  }

  lemma {:induction false} LiteralIsInjective(a: int, b: int)
    ensures Literal(a) == Literal(b) <==> a == b
  {
    DenotedLiteral(a);
    DenotedLiteral(b);
  }

  /** The literal of an integer is read exactly if and only if the integer is a multiple of the gap around it. */
  lemma {:induction false} ReadExactly(n: int)
    requires -EXPONENT < Double(n) < EXPONENT
    ensures Number(Literal(n)) == Some(Double(n))
    ensures Double(n) == n <==> Abs(n) % Gap(Abs(n)) == 0
  {
    hide Gap, Double, Literal;
    DoubleTwice(n);
    DenotedLiteral(n);
    ExactlyDouble(n);
  }

  /**
   * A literal is printed back unchanged if and only if it is the multiple of its own power of ten nearest to its
   * double, and no rounding of the double to more zeros reads back.
   */
  lemma {:induction false} PrintedBack(n: int)
    requires IsDouble(Double(n))
    ensures Print(Double(n)) == Literal(n) <==> IsShortest(n)
    ensures Shown(Double(n)) == n <==> IsShortest(n)
  {
    hide Double, Shortest, Literal, IsShortest, IsDouble;
    LiteralIsInjective(Shown(Double(n)), n);
    DoubleOfAbs(n);
    AbsIsDouble(n);
    if n == 0 {
      ZeroIsShown();
      ZeroIsZero();
    } else {
      ShownIsShortest(Abs(n));
    }
  }

  lemma {:induction false} ZeroIsZero()
    ensures Double(0) == 0
  {
  }

  lemma {:induction false} AbsIsDouble(n: int)
    requires IsDouble(Double(n))
    ensures IsDouble(Double(Abs(n))) && (IsShortest(n) <==> IsShortest(Abs(n)))
    ensures Shown(Double(n)) == n <==> Shortest(Abs(Double(n)), 20) == Abs(n)
  {
    hide Nearest, Gap, Shortest, IsShortest, Double;
    DoubleOfAbs(n);
    DoubleOfAbs(Double(n));
    AbsIsShortest(n);
  }

  lemma {:induction false} AbsIsShortest(n: int)
    ensures IsShortest(n) <==> IsShortest(Abs(n))
  {
    hide Nearest, Pow10, Double, Zeros, ReadsBack;
    DoubleOfAbs(n);
  }

  /** The literal of a safe integer is read exactly and printed back unchanged. */
  lemma {:induction false} SafeIsExact(n: int)
    requires IsSafe(n)
    ensures IsDouble(n) && Number(Literal(n)) == Some(n) && Print(n) == Literal(n)
  {
    hide Shortest, Literal;
    SafeIsDouble(n);
    ReadExactly(n);
    PrintedBack(n);
    ShortestOfSafe(Abs(n), 20);
  }

  lemma {:induction false} OddIsNoMultiple(m: nat, u: nat)
    requires m % 2 == 1 && 0 < u && u % 2 == 0
    ensures m % u != 0
  {
    var q, half := m / u, u / 2;
    assert q * (2 * half) == 2 * (q * half);
    assert m == q * u + m % u;
  }

  /** No odd integer past 2^53 survives: it is read as an even neighbour, which prints as another literal. */
  lemma {:induction false} OddIsLost(n: int)
    requires n % 2 == 1 && !IsSafe(n) && -EXPONENT < Double(n) < EXPONENT
    ensures Number(Literal(n)) == Some(Double(n)) && Double(n) != n && Print(Double(n)) != Literal(n)
  {
    hide Gap, Literal, Shown, Double;
    ReadExactly(n);
    assert Gap(Abs(n)) % 2 == 0;
    OddIsNoMultiple(Abs(n), Gap(Abs(n)));
    DoubleTwice(n);
    PrintedBack(n);
    DoubleIsEven(n);
    ShownIsEven(Double(n));
  }

  // ----- three literals past 2^53 -----

  lemma {:induction false} FirstUnsafe()
    ensures !IsSafe(TWO53 + 1)
  {
  }

  /** 2^53 + 1 is read as 2^53. */
  lemma {:induction false} OddWitness()
    ensures Double(TWO53 + 1) == TWO53
  {
    GapIs(TWO53 + 1, 2);
  }

  lemma {:induction false} Gap1024(m: nat)
    requires TWO53 / 2 * 1024 <= m < TWO53 * 1024
    ensures Gap(m) == 1024
  {
    assert IsPower2(32) && IsPower2(1024);
    hide IsPower2;
    GapIs(m, 1024);
  }

  const TWO62 := 0x4000_0000_0000_0000

  /** 2^62 with three zeros at its end. */
  const SHORT62 := 4611686018427388000

  lemma {:induction false} ReadAs62()
    ensures Double(TWO62) == TWO62 && Double(SHORT62) == TWO62
  {
    Gap1024(TWO62);
    Gap1024(SHORT62);
    hide Gap;
  }

  lemma {:induction false} Shortened62()
    ensures Nearest(TWO62, Pow10(3)) == SHORT62
  {
    assert Pow10(3) == 1000;
    hide Pow10;
  }

  /** 2^62 is read exactly, but a shorter decimal reads as the same double, so 2^62 is not printed back. */
  lemma {:induction false} EvenWitness()
    ensures Double(TWO62) == TWO62 && Shown(TWO62) != TWO62 && !IsShortest(TWO62)
  {
    hide Double, Shown, Pow10, Nearest;
    ReadAs62();
    Shortened62();
    assert ReadsBack(TWO62, 3);
    hide ReadsBack;
    assert Zeros(TWO62) == 0;
    PrintedBack(TWO62);
  }
}
