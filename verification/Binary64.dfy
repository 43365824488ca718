/**
 IEEE 754 binary64 as a subset of the reals.

 The optimizer computes every constant through Rust's `f64`. Here a finite double is a
 real that rounds to itself, and `Round` is round-to-nearest-even onto 53 significant
 bits with gradual underflow (sections 3.4 and 4.3.1 of IEEE 754-2019). Numbers are
 counted in units of 2^-1074, the smallest subnormal, so that rounding works on the bits
 of an integer. Overflow to infinity is `None`; NaN cannot arise from finite operands
 with a nonzero divisor, and the sign of zero is not kept.
 */
module Binary64 {
  import opened Prelude

  // 2^53: every integer up to this magnitude has at most 53 significant bits.
  const LIMIT: nat := 0x20_0000_0000_0000
  const UNIT_EXPONENT: nat := 1074
  // 1024 + 1074: the first power of two that overflows, counted in units.
  const OVERFLOW_EXPONENT: nat := 2098

  /** `a` times 2^t. */
  function Shl(a: nat, t: nat): nat {
    if t == 0 then a else 2 * Shl(a, t - 1)
  }

  function Pow2(t: nat): nat {
    Shl(1, t)
  }

  /** `x` times 2^t. */
  function ScaleUp(x: real, t: nat): (y: real)
    ensures x >= 0.0 ==> y >= 0.0
  {
    if t == 0 then x else 2.0 * ScaleUp(x, t - 1)
  }

  /** `x` times 2^-t. */
  function ScaleDown(x: real, t: nat): (y: real)
    ensures x >= 0.0 ==> y >= 0.0
    ensures x > 0.0 ==> y > 0.0
    decreases t
  {
    if t == 0 then x else ScaleDown(x / 2.0, t - 1)
  }

  function Abs(x: real): (a: real)
    ensures a >= 0.0 && (a == x || a == -x)
  {
    if x < 0.0 then -x else x
  }

  function Magnitude(n: int): nat {
    if n < 0 then -n else n
  }

  /**
   Shifts `m` right until it fits in 53 bits, remembering the last bit that fell off
   (`half`) and whether any bit before it was set (`sticky`), and rounds to even.
   */
  function RoundBits(m: nat, half: bool, sticky: bool): nat {
    if m < LIMIT then
      if half && (sticky || m % 2 == 1) then m + 1 else m
    else
      2 * RoundBits(m / 2, m % 2 == 1, half || sticky)
  }

  function RoundUnits(y: real): nat
    requires y >= 0.0
  {
    var rest := y - y.Floor as real;
    RoundBits(y.Floor, rest >= 0.5, rest != 0.0 && rest != 0.5)
  }

  /** The double nearest to `x`, or `None` when it overflows to an infinity. */
  function Round(x: real): Option<real> {
    var k := RoundUnits(ScaleUp(Abs(x), UNIT_EXPONENT));
    var magnitude := ScaleDown(k as real, UNIT_EXPONENT);
    if k >= Pow2(OVERFLOW_EXPONENT) then None
    else Some(if x < 0.0 then -magnitude else magnitude)
  }

  predicate IsDouble(x: real) {
    Round(x) == Some(x)
  }

  type F64 = x: real | IsDouble(x) witness (SmallIntegerIsDouble(0); 0.0)

  const ZERO: F64 := (SmallIntegerIsDouble(0); 0.0)
  const ONE: F64 := (SmallIntegerIsDouble(1); 1.0)

  // ---- scaling ------------------------------------------------------------

  lemma {:induction false} UpUndoesDown(x: real, t: nat)
    ensures ScaleUp(ScaleDown(x, t), t) == x
    decreases t
  {
    if t > 0 {
      UpUndoesDown(x / 2.0, t - 1);
    }
  }

  lemma {:induction false} ScaleOfInteger(a: nat, t: nat)
    ensures ScaleUp(a as real, t) == Shl(a, t) as real
    ensures ScaleDown(Shl(a, t) as real, t) == a as real
  {
    if t > 0 {
      ScaleOfInteger(a, t - 1);
      assert Shl(a, t) as real / 2.0 == Shl(a, t - 1) as real;
    }
  }

  lemma {:induction false} ShlMonotone(a: nat, b: nat, t: nat)
    requires a <= b
    ensures a <= Shl(a, t) <= Shl(b, t)
  {
    if t > 0 {
      ShlMonotone(a, b, t - 1);
    }
  }

  lemma {:induction false} ShlAdd(a: nat, s: nat, t: nat)
    ensures Shl(Shl(a, s), t) == Shl(a, s + t)
  {
    if t > 0 {
      ShlAdd(a, s, t - 1);
    }
  }

  lemma {:induction false} Pow2Monotone(a: nat, b: nat)
    requires a <= b
    ensures 0 < Pow2(a) <= Pow2(b)
    ensures a < b ==> Pow2(a) < Pow2(b)
  {
    ShlMonotone(1, 1, a);
    if a < b {
      Pow2Monotone(a, b - 1);
    }
  }

  // ---- rounding bits ------------------------------------------------------

  /** At most 53 significant bits. */
  predicate Short(k: nat) {
    k <= LIMIT || (k % 2 == 0 && Short(k / 2))
  }

  lemma {:induction false} RoundedIsShort(m: nat, half: bool, sticky: bool)
    ensures Short(RoundBits(m, half, sticky))
  {
    if m >= LIMIT {
      RoundedIsShort(m / 2, m % 2 == 1, half || sticky);
    }
  }

  lemma {:induction false} ShortIsKept(k: nat)
    requires Short(k)
    ensures RoundBits(k, false, false) == k
  {
    if k > LIMIT {
      ShortIsKept(k / 2);
    }
  }

  lemma {:induction false} ShortScales(k: nat, t: nat)
    requires Short(k)
    ensures Short(Shl(k, t))
  {
    if t > 0 {
      ShortScales(k, t - 1);
    }
  }

  lemma {:induction false} RoundedIsBounded(m: nat, half: bool, sticky: bool, j: nat)
    requires m < Shl(LIMIT, j)
    ensures RoundBits(m, half, sticky) <= Shl(LIMIT, j)
  {
    ShlMonotone(LIMIT, LIMIT, j);
    if m >= LIMIT {
      RoundedIsBounded(m / 2, m % 2 == 1, half || sticky, j - 1);
    }
  }

  lemma {:induction false} BitsScale(k: nat, t: nat)
    requires k >= LIMIT
    ensures RoundBits(Shl(k, t), false, false) == Shl(RoundBits(k, false, false), t)
  {
    if t > 0 {
      BitsScale(k, t - 1);
      ShlMonotone(k, k, t);
    }
  }

  lemma {:induction false} AllOnesRoundsUp(j: nat, half: bool, sticky: bool)
    requires j > 0 || half
    ensures Shl(LIMIT, j) >= LIMIT
    ensures RoundBits(Shl(LIMIT, j) - 1, half, sticky) == Shl(LIMIT, j)
  {
    ShlMonotone(LIMIT, LIMIT, j);
    if j > 0 {
      AllOnesRoundsUp(j - 1, true, half || sticky);
    }
  }

  // ---- rounding reals -----------------------------------------------------

  lemma WholeUnits(k: nat)
    ensures RoundUnits(k as real) == RoundBits(k, false, false)
  {
    assert (k as real).Floor == k;
  }

  /** Rounding twice is rounding once, so every result of `Round` is a double. */
  lemma RoundIsDouble(x: real)
    requires Round(x).Some?
    ensures IsDouble(Round(x).value)
  {
    var y := ScaleUp(Abs(x), UNIT_EXPONENT);
    var rest := y - y.Floor as real;
    var k := RoundUnits(y);
    RoundedIsShort(y.Floor, rest >= 0.5, rest != 0.0 && rest != 0.5);
    ShortIsKept(k);
    WholeUnits(k);
    UpUndoesDown(k as real, UNIT_EXPONENT);
    if k == 0 {
      ScaleOfInteger(0, UNIT_EXPONENT);
      ShlOfZero(UNIT_EXPONENT);
    }
  }

  lemma {:induction false} ShlOfZero(t: nat)
    ensures Shl(0, t) == 0
  {
    if t > 0 {
      ShlOfZero(t - 1);
    }
  }

  /** On integers, rounding is rounding of the shifted bits. */
  lemma UnitsOfInteger(n: int)
    ensures RoundUnits(ScaleUp(Abs(n as real), UNIT_EXPONENT))
         == RoundBits(Shl(Magnitude(n), UNIT_EXPONENT), false, false)
  {
    assert Abs(n as real) == Magnitude(n) as real;
    ScaleOfInteger(Magnitude(n), UNIT_EXPONENT);
    WholeUnits(Shl(Magnitude(n), UNIT_EXPONENT));
  }

  predicate IsWord(n: int) {
    Magnitude(n) <= Pow2(64)
  }

  /** 64-bit integers are far below the overflow threshold. */
  lemma WordUnitsAreBounded(n: int, bits: nat)
    requires IsWord(n)
    requires bits == RoundBits(Shl(Magnitude(n), UNIT_EXPONENT), false, false)
    ensures bits < Pow2(OVERFLOW_EXPONENT)
  {
    var a := Magnitude(n);
    ShlMonotone(a, Pow2(64), UNIT_EXPONENT);
    ShlAdd(1, 64, UNIT_EXPONENT);
    Pow2Monotone(64 + UNIT_EXPONENT, 53 + (12 + UNIT_EXPONENT));
    ShlAdd(1, 53, 12 + UNIT_EXPONENT);
    LimitIsPow2();
    RoundedIsBounded(Shl(a, UNIT_EXPONENT), false, false, 12 + UNIT_EXPONENT);
    Pow2Monotone(53 + (12 + UNIT_EXPONENT), OVERFLOW_EXPONENT);
  }

  lemma LimitIsPow2()
    ensures LIMIT == Pow2(53)
  {
    ShlBySixteen(1);
    ShlAdd(1, 16, 16);
    ShlBySixteen(Pow2(16));
    ShlAdd(1, 32, 16);
    ShlBySixteen(Pow2(32));
    ShlAdd(1, 48, 4);
    ShlByFour(Pow2(48));
  }

  lemma ShlByFour(a: nat)
    ensures Shl(a, 4) == 0x10 * a
  {
    assert Shl(a, 1) == 2 * a;
    assert Shl(a, 2) == 4 * a;
    assert Shl(a, 3) == 8 * a;
  }

  lemma ShlBySixteen(a: nat)
    ensures Shl(a, 16) == 0x1_0000 * a
  {
    ShlByFour(a);
    ShlAdd(a, 4, 4);
    ShlByFour(Shl(a, 4));
    ShlAdd(a, 8, 4);
    ShlByFour(Shl(a, 8));
    ShlAdd(a, 12, 4);
    ShlByFour(Shl(a, 12));
  }

  /** No 64-bit integer overflows. */
  lemma WordDoesNotOverflow(n: int)
    requires IsWord(n)
    ensures Round(n as real).Some?
  {
    UnitsOfInteger(n);
    WordUnitsAreBounded(n, RoundBits(Shl(Magnitude(n), UNIT_EXPONENT), false, false));
  }

  /** Every 64-bit integer of at most 53 significant bits is a double. */
  lemma ShortWordIsDouble(n: int)
    requires IsWord(n) && Short(Magnitude(n))
    ensures IsDouble(n as real)
  {
    var a := Magnitude(n);
    WordDoesNotOverflow(n);
    UnitsOfInteger(n);
    ShortScales(a, UNIT_EXPONENT);
    ShortIsKept(Shl(a, UNIT_EXPONENT));
    ScaleOfInteger(a, UNIT_EXPONENT);
  }

  /** The integers up to 2^53 in magnitude are doubles. */
  lemma SmallIntegerIsDouble(n: int)
    requires -(LIMIT as int) <= n <= LIMIT
    ensures IsDouble(n as real)
  {
    LimitIsPow2();
    Pow2Monotone(53, 64);
    ShortWordIsDouble(n);
  }

  // ---- integers that are doubles ------------------------------------------

  lemma {:induction false} ShortUnscales(k: nat, t: nat)
    requires Short(Shl(k, t))
    ensures Short(k)
  {
    if t > 0 {
      ShortUnscales(k, t - 1);
    }
  }

  function Signed(negative: bool, magnitude: nat): int {
    if negative then -(magnitude as int) else magnitude
  }

  /** An integer rounds to an integer. */
  lemma RoundOfInteger(n: int)
    requires Round(n as real).Some?
    ensures Magnitude(n) > LIMIT ==>
      Round(n as real) == Some(Signed(n < 0, RoundBits(Magnitude(n), false, false)) as real)
    ensures Magnitude(n) <= LIMIT ==> IsDouble(n as real)
  {
    var a := Magnitude(n);
    if a <= LIMIT {
      SmallIntegerIsDouble(n);
    } else {
      UnitsOfInteger(n);
      BitsScale(a, UNIT_EXPONENT);
      ScaleOfInteger(RoundBits(a, false, false), UNIT_EXPONENT);
      hide Shl, ScaleDown, ScaleUp, RoundBits;
    }
  }

  /** The integers among the doubles are those of at most 53 significant bits. */
  lemma DoubleIntegerIsShort(n: int)
    requires IsDouble(n as real)
    ensures Short(Magnitude(n))
  {
    RoundOfInteger(n);
    if Magnitude(n) > LIMIT {
      RoundedIsShort(Magnitude(n), false, false);
      hide Round, Short;
      assert Signed(n < 0, RoundBits(Magnitude(n), false, false)) == n;
    }
  }

  // ---- rounding keeps order -----------------------------------------------

  lemma {:induction false} LargeStaysLarge(m: nat, half: bool, sticky: bool)
    requires m >= LIMIT
    ensures RoundBits(m, half, sticky) >= LIMIT
  {
    if m / 2 >= LIMIT {
      LargeStaysLarge(m / 2, m % 2 == 1, half || sticky);
    }
  }

  /** The lost bits of the first are at most those of the second. */
  predicate FlagsOrdered(half: bool, sticky: bool, half': bool, sticky': bool) {
    (!half && half') || (half == half' && (sticky ==> sticky'))
  }

  lemma {:induction false} BitsAreMonotone(m: nat, half: bool, sticky: bool, m': nat, half': bool, sticky': bool)
    requires m < m' || (m == m' && FlagsOrdered(half, sticky, half', sticky'))
    ensures RoundBits(m, half, sticky) <= RoundBits(m', half', sticky')
    decreases m'
  {
    if m >= LIMIT {
      BitsAreMonotone(m / 2, m % 2 == 1, half || sticky, m' / 2, m' % 2 == 1, half' || sticky');
    } else if m' >= LIMIT {
      LargeStaysLarge(m', half', sticky');
    }
  }

  lemma UnitsAreMonotone(x: real, y: real)
    requires 0.0 <= x <= y
    ensures RoundUnits(x) <= RoundUnits(y)
  {
    var p, q := x - x.Floor as real, y - y.Floor as real;
    BitsAreMonotone(x.Floor, p >= 0.5, p != 0.0 && p != 0.5, y.Floor, q >= 0.5, q != 0.0 && q != 0.5);
  }

  lemma {:induction false} ScalingIsMonotone(x: real, y: real, t: nat)
    requires x <= y
    ensures ScaleUp(x, t) <= ScaleUp(y, t)
    ensures ScaleDown(x, t) <= ScaleDown(y, t)
    decreases t
  {
    if t > 0 {
      ScalingIsMonotone(x, y, t - 1);
      ScalingIsMonotone(x / 2.0, y / 2.0, t - 1);
    }
  }

  lemma MagnitudesKeepOrder(x: real, y: real)
    requires Abs(x) <= Abs(y)
    ensures RoundUnits(ScaleUp(Abs(x), UNIT_EXPONENT)) <= RoundUnits(ScaleUp(Abs(y), UNIT_EXPONENT))
    ensures ScaleDown(RoundUnits(ScaleUp(Abs(x), UNIT_EXPONENT)) as real, UNIT_EXPONENT)
         <= ScaleDown(RoundUnits(ScaleUp(Abs(y), UNIT_EXPONENT)) as real, UNIT_EXPONENT)
  {
    hide RoundUnits, ScaleUp, ScaleDown;
    ScalingIsMonotone(Abs(x), Abs(y), UNIT_EXPONENT);
    var k, l := RoundUnits(ScaleUp(Abs(x), UNIT_EXPONENT)), RoundUnits(ScaleUp(Abs(y), UNIT_EXPONENT));
    UnitsAreMonotone(ScaleUp(Abs(x), UNIT_EXPONENT), ScaleUp(Abs(y), UNIT_EXPONENT));
    ScalingIsMonotone(k as real, l as real, UNIT_EXPONENT);
  }

  lemma RoundIsMonotone(x: real, y: real)
    requires x <= y && Round(x).Some? && Round(y).Some?
    ensures Round(x).value <= Round(y).value
  {
    hide RoundUnits, ScaleUp, ScaleDown, Pow2;
    if x >= 0.0 {
      MagnitudesKeepOrder(x, y);
    } else if y < 0.0 {
      MagnitudesKeepOrder(y, x);
    }
  }

  // ---- small powers of two ------------------------------------------------

  /** Rounding treats both signs alike. */
  lemma RoundIsOdd(x: real)
    ensures Round(x).Some? <==> Round(-x).Some?
    ensures Round(x).Some? ==> Round(-x).value == -Round(x).value
  {
    hide RoundUnits, ScaleUp, Pow2;
    assert Abs(-x) == Abs(x);
    if x == 0.0 { ScaleOfZero(UNIT_EXPONENT); }
  }

  lemma {:induction false} ScaleOfZero(t: nat)
    ensures ScaleUp(0.0, t) == 0.0
    ensures RoundUnits(0.0) == 0 && ScaleDown(0.0, t) == 0.0
    decreases t
  {
    if t > 0 { ScaleOfZero(t - 1); }
  }

  lemma {:induction false} ScalesAdd(x: real, s: nat, t: nat)
    ensures ScaleUp(ScaleUp(x, s), t) == ScaleUp(x, s + t)
    ensures ScaleDown(ScaleDown(x, s), t) == ScaleDown(x, s + t)
    decreases s, t
  {
    if t > 0 { ScalesAdd(x, s, t - 1); }
    if s > 0 { ScalesAdd(x / 2.0, s - 1, t); }
  }

  /** The powers of two down to the smallest subnormal are doubles. */
  lemma PowerIsDouble(t: nat)
    requires t <= UNIT_EXPONENT
    ensures IsDouble(ScaleDown(1.0, t))
  {
    hide Shl, ScaleUp, ScaleDown, RoundBits;
    var x := ScaleDown(1.0, t);
    var k := Pow2(UNIT_EXPONENT - t);
    UpUndoesDown(1.0, t);
    ScalesAdd(x, t, UNIT_EXPONENT - t);
    ScaleOfInteger(1, UNIT_EXPONENT - t);
    assert ScaleUp(Abs(x), UNIT_EXPONENT) == k as real;
    ShortScales(1, UNIT_EXPONENT - t);
    ShortIsKept(k);
    WholeUnits(k);
    ScalesAdd(k as real, UNIT_EXPONENT - t, t);
    Pow2Monotone(UNIT_EXPONENT - t, OVERFLOW_EXPONENT);
  }

  // ---- the ends of the i64 range ------------------------------------------

  /** The largest i64 is not a double: it rounds up to 2^63. */
  lemma MaxWordRoundsUp()
    ensures Round((Pow2(63) - 1) as real) == Some(Pow2(63) as real)
  {
    var n := Pow2(63) - 1;
    Pow2Monotone(63, 64);
    LimitIsPow2();
    ShlAdd(1, 53, 10);
    Pow2Monotone(54, 63);
    WordDoesNotOverflow(n);
    UnitsOfInteger(n);
    BitsScale(n, UNIT_EXPONENT);
    AllOnesRoundsUp(10, false, false);
    ScaleOfInteger(Pow2(63), UNIT_EXPONENT);
  }

  lemma MinWordIsDouble()
    ensures IsDouble(-(Pow2(63) as real)) && IsDouble(Pow2(63) as real)
  {
    Pow2Monotone(63, 64);
    ShortScales(1, 63);
    var n: int := 0 - Pow2(63);
    ShortWordIsDouble(n);
    ShortWordIsDouble(Pow2(63));
    assert n as real == -(Pow2(63) as real);
  }

  // ---- nearest, ties to even ----------------------------------------------

  /** `x` lies within one of `m`, on the side and off the marks that the flags tell. */
  predicate Represents(m: nat, half: bool, sticky: bool, x: real) {
    && m as real <= x < (m + 1) as real
    && (half <==> x - m as real >= 0.5)
    && (sticky <==> x != m as real && x - m as real != 0.5)
  }

  /** The last of the 53 significant bits is zero. */
  predicate EvenLast(k: nat) {
    if k < LIMIT then k % 2 == 0 else EvenLast(k / 2)
  }

  lemma HalfRepresents(m: nat, half: bool, sticky: bool, x: real)
    requires Represents(m, half, sticky, x)
    ensures Represents(m / 2, m % 2 == 1, half || sticky, x / 2.0)
  {
    assert m == 2 * (m / 2) + m % 2;
    assert m as real == 2.0 * (m / 2) as real + (m % 2) as real;
  }

  lemma AboveFloor(m: nat, half: bool, sticky: bool, x: real)
    requires Represents(m, half, sticky, x)
    ensures m as real <= x
  {
  }

  /** No number of 53 bits is nearer, and of two equally near ones the even one is taken. */
  lemma {:induction false} BitsAreNearest(m: nat, half: bool, sticky: bool, x: real, k: nat)
    requires Represents(m, half, sticky, x) && Short(k)
    ensures
      var r := RoundBits(m, half, sticky);
      && Abs(r as real - x) <= Abs(k as real - x)
      && (Abs(r as real - x) == Abs(k as real - x) && k != r ==> EvenLast(r))
  {
    hide Represents, EvenLast, Abs;
    if m >= LIMIT {
      HalfRepresents(m, half, sticky, x);
      AboveFloor(m, half, sticky, x);
      LargeStaysLarge(m, half, sticky);
      var near := NearestShort(k);
      var q := RoundBits(m / 2, m % 2 == 1, half || sticky);
      assert RoundBits(m, half, sticky) == 2 * q;
      BitsAreNearest(m / 2, m % 2 == 1, half || sticky, x / 2.0, near / 2);
      LargeStep(m, x, q, near, k);
    } else {
      SmallStep(m, half, sticky, x, k);
    }
  }

  /** The even number of 53 bits to compare with instead of a small one. */
  function NearestShort(k: nat): (near: nat)
    requires Short(k)
    ensures near >= LIMIT && near % 2 == 0 && Short(near / 2) && (near != k ==> k < LIMIT == near)
  {
    if k <= LIMIT then LIMIT else k
  }

  lemma LargeStep(m: nat, x: real, q: nat, near: nat, k: nat)
    requires LIMIT <= m && m as real <= x && 2 * q >= LIMIT
    requires near >= LIMIT && near % 2 == 0 && (near != k ==> k < LIMIT == near)
    requires Abs(q as real - x / 2.0) <= Abs((near / 2) as real - x / 2.0)
    requires Abs(q as real - x / 2.0) == Abs((near / 2) as real - x / 2.0) && near / 2 != q ==> EvenLast(q)
    ensures Abs((2 * q) as real - x) <= Abs(k as real - x)
    ensures Abs((2 * q) as real - x) == Abs(k as real - x) && k != 2 * q ==> EvenLast(2 * q)
  {
    hide EvenLast;
    EvenLastDoubles(q);
    Doubled(q, near / 2, x);
    assert 2 * (near / 2) == near;
    OrderAsReals(LIMIT, m);
    if near != k {
      OrderAsReals(k + 1, LIMIT);
      assert Abs(LIMIT as real - x) < Abs(k as real - x);
    }
  }

  lemma EvenLastDoubles(q: nat)
    requires 2 * q >= LIMIT
    ensures EvenLast(2 * q) == EvenLast(q)
  {
  }

  lemma SmallStep(m: nat, half: bool, sticky: bool, x: real, k: nat)
    requires m < LIMIT && Represents(m, half, sticky, x)
    ensures
      var r := RoundBits(m, half, sticky);
      && Abs(r as real - x) <= Abs(k as real - x)
      && (Abs(r as real - x) == Abs(k as real - x) && k != r ==> EvenLast(r))
  {
    var r := RoundBits(m, half, sticky);
    assert r == if half && (sticky || m % 2 == 1) then m + 1 else m;
    hide RoundBits, EvenLast;
    EvenIsEvenLast(r);
    IntegersApart(m, k);
    if k <= m { OrderAsReals(k, m); }
    if k < m { OrderAsReals(k + 1, m); }
    if k > m + 1 { OrderAsReals(m + 2, k); }
  }

  lemma EvenIsEvenLast(r: nat)
    requires r <= LIMIT
    ensures r % 2 == 0 ==> EvenLast(r)
  {
    if r == LIMIT { assert EvenLast(LIMIT / 2); }
  }

  lemma Doubled(r: nat, k: nat, x: real)
    ensures Abs((2 * r) as real - x) == 2.0 * Abs(r as real - x / 2.0)
    ensures Abs((2 * k) as real - x) == 2.0 * Abs(k as real - x / 2.0)
  {
  }

  lemma IntegersApart(m: nat, k: nat)
    ensures k as real <= m as real || k as real >= (m + 1) as real
  {
    if k > m { OrderAsReals(m + 1, k); } else { OrderAsReals(k, m); }
  }

  lemma OrderAsReals(a: int, b: int)
    requires a <= b
    ensures a as real <= b as real
  {
  }

  lemma UnitsAreNearest(y: real, k: nat)
    requires y >= 0.0 && Short(k)
    ensures
      var r := RoundUnits(y);
      && Abs(r as real - y) <= Abs(k as real - y)
      && (Abs(r as real - y) == Abs(k as real - y) && k != r ==> EvenLast(r))
  {
    var rest := y - y.Floor as real;
    BitsAreNearest(y.Floor, rest >= 0.5, rest != 0.0 && rest != 0.5, y, k);
  }

  lemma {:induction false} ScalingIsLinear(x: real, y: real, t: nat)
    ensures ScaleDown(x - y, t) == ScaleDown(x, t) - ScaleDown(y, t)
    ensures ScaleUp(ScaleDown(x, t), t) == x && ScaleDown(ScaleUp(x, t), t) == x
    decreases t
  {
    if t > 0 {
      ScalingIsLinear(x / 2.0, y / 2.0, t - 1);
      ScalingIsLinear(x, y, t - 1);
      ScaleDownHalves(ScaleUp(x, t - 1), t - 1);
    }
  }

  lemma {:induction false} ScaleDownHalves(x: real, t: nat)
    ensures ScaleDown(2.0 * x / 2.0, t) == ScaleDown(x, t)
  {
    assert 2.0 * x / 2.0 == x;
  }

  /** What a double is worth in units. */
  function UnitsOf(d: real): nat {
    RoundUnits(ScaleUp(Abs(d), UNIT_EXPONENT))
  }

  lemma DoubleIsUnits(d: real)
    requires IsDouble(d)
    ensures Short(UnitsOf(d)) && ScaleUp(Abs(d), UNIT_EXPONENT) == UnitsOf(d) as real
    ensures Abs(d) == ScaleDown(UnitsOf(d) as real, UNIT_EXPONENT)
  {
    var y := ScaleUp(Abs(d), UNIT_EXPONENT);
    var rest := y - y.Floor as real;
    RoundedIsShort(y.Floor, rest >= 0.5, rest != 0.0 && rest != 0.5);
    hide ScaleUp, ScaleDown, RoundBits, RoundUnits, Pow2;
    UpUndoesDown(UnitsOf(d) as real, UNIT_EXPONENT);
  }

  /** Distances to `x` and in units are proportional. */
  lemma DistanceInUnits(x: real, k: nat, l: nat)
    requires x >= 0.0
    ensures
      var y := ScaleUp(x, UNIT_EXPONENT);
      var a, b := ScaleDown(k as real, UNIT_EXPONENT), ScaleDown(l as real, UNIT_EXPONENT);
      && (Abs(k as real - y) <= Abs(l as real - y) ==> Abs(a - x) <= Abs(b - x))
      && (Abs(a - x) == Abs(b - x) ==> Abs(k as real - y) == Abs(l as real - y))
  {
    hide ScaleUp, ScaleDown;
    var y := ScaleUp(x, UNIT_EXPONENT);
    AbsScales(k as real, y, UNIT_EXPONENT);
    AbsScales(l as real, y, UNIT_EXPONENT);
    ScalingIsLinear(x, 0.0, UNIT_EXPONENT);
    ScalingOrders(Abs(k as real - y), Abs(l as real - y), UNIT_EXPONENT);
  }

  lemma ScalingOrders(a: real, b: real, t: nat)
    ensures a <= b <==> ScaleDown(a, t) <= ScaleDown(b, t)
    ensures a == b <==> ScaleDown(a, t) == ScaleDown(b, t)
  {
    ScalingIsLinear(a, b, t);
    ScalingIsLinear(b, a, t);
    hide ScaleDown;
    assert a - b > 0.0 ==> ScaleDown(a - b, t) > 0.0;
    assert b - a > 0.0 ==> ScaleDown(b - a, t) > 0.0;
  }

  lemma AbsScales(a: real, b: real, t: nat)
    ensures Abs(ScaleDown(a, t) - ScaleDown(b, t)) == ScaleDown(Abs(a - b), t)
  {
    hide ScaleDown;
    ScalingIsLinear(a, b, t);
    ScalingIsLinear(b, a, t);
    if a == b { ScaleOfZero(t); }
  }

  /** No double is nearer to `x` than the one it rounds to; of two equally near ones that is the even one. */
  lemma RoundIsNearest(x: real, d: real)
    requires Round(x).Some? && IsDouble(d)
    ensures Abs(Round(x).value - x) <= Abs(d - x)
    ensures Abs(Round(x).value - x) == Abs(d - x) && d != Round(x).value ==> EvenLast(UnitsOf(Round(x).value))
  {
    hide Round, UnitsOf, EvenLast;
    if x < 0.0 {
      RoundIsOdd(x);
      RoundIsOdd(d);
      NearestToPositive(-x, -d);
    } else {
      NearestToPositive(x, d);
    }
    UnitsOfNegated(Round(x).value);
  }

  lemma UnitsOfNegated(d: real)
    ensures UnitsOf(-d) == UnitsOf(d)
  {
    hide RoundUnits, ScaleUp;
    assert Abs(-d) == Abs(d);
  }

  lemma NearestToPositive(x: real, d: real)
    requires x >= 0.0 && Round(x).Some? && IsDouble(d)
    ensures Abs(Round(x).value - x) <= Abs(d - x)
    ensures Abs(Round(x).value - x) == Abs(d - x) && d != Round(x).value ==> EvenLast(UnitsOf(Round(x).value))
  {
    hide Round, ScaleUp, ScaleDown, RoundUnits, UnitsOf, EvenLast, IsDouble, Short;
    var y := ScaleUp(x, UNIT_EXPONENT);
    var r := RoundUnits(y);
    var k := if d < 0.0 then 0 else UnitsOf(d);
    DoubleIsUnits(d);
    RoundedUnits(x);
    ZeroIsShort();
    ScaleOfZero(UNIT_EXPONENT);
    UnitsAreNearest(y, k);
    DistanceInUnits(x, r, k);
    NearestByCases(x, d, Round(x).value, ScaleDown(k as real, UNIT_EXPONENT));
  }

  lemma ZeroIsShort()
    ensures Short(0)
  {
  }

  /** A negative number is further from `x` than zero is. */
  lemma NearestByCases(x: real, d: real, v: real, e: real)
    requires x >= 0.0 && (if d < 0.0 then e == 0.0 else e == d) && Abs(v - x) <= Abs(e - x)
    ensures Abs(v - x) <= Abs(d - x)
    ensures Abs(v - x) == Abs(d - x) ==> e == d
  {
  }

  lemma RoundedUnits(x: real)
    requires x >= 0.0 && Round(x).Some?
    ensures UnitsOf(Round(x).value) == RoundUnits(ScaleUp(x, UNIT_EXPONENT))
    ensures Round(x).value == ScaleDown(RoundUnits(ScaleUp(x, UNIT_EXPONENT)) as real, UNIT_EXPONENT)
  {
    RoundIsDouble(x);
    DoubleIsUnits(Round(x).value);
    hide ScaleUp, ScaleDown, RoundUnits, Pow2;
    var k := RoundUnits(ScaleUp(x, UNIT_EXPONENT));
    assert Abs(x) == x;
    UpUndoesDown(k as real, UNIT_EXPONENT);
    SameReal(k, UnitsOf(Round(x).value), Round(x).value);
  }

  lemma SameReal(k: nat, l: nat, v: real)
    requires v == ScaleDown(k as real, UNIT_EXPONENT) && Abs(v) == ScaleDown(l as real, UNIT_EXPONENT)
    ensures k == l
  {
    hide ScaleDown;
    ScalingOrders(k as real, l as real, UNIT_EXPONENT);
  }

  // ---- the range ----------------------------------------------------------

  /** 2^-1074 is a double, and half of it rounds to zero; 2^1023 is one, and 2^1024 overflows. */
  lemma Extremes()
    ensures IsDouble(ScaleDown(1.0, 1074)) && Round(ScaleDown(1.0, 1075)) == Some(0.0)
    ensures IsDouble(ScaleUp(1.0, 1023)) && Round(ScaleUp(1.0, 1024)).None?
  {
    PowerIsDouble(1074);
    HalfUnitVanishes();
    LargePower(1023);
    LargePower(1024);
  }

  lemma HalfUnitVanishes()
    ensures Round(ScaleDown(1.0, 1075)) == Some(0.0)
  {
    var x := ScaleDown(1.0, 1075);
    ScalesAdd(1.0, 1, 1074);
    hide ScaleUp, ScaleDown, RoundUnits, Pow2;
    assert ScaleDown(1.0, 1) == 0.5 by { OneHalving(1.0); }
    UpUndoesDown(0.5, 1074);
    HalfRoundsToZero();
    ScaleOfZero(1074);
    Pow2Monotone(0, OVERFLOW_EXPONENT);
  }

  lemma OneHalving(x: real)
    ensures ScaleDown(x, 1) == x / 2.0
  {
  }

  lemma HalfRoundsToZero()
    ensures RoundUnits(0.5) == 0
  {
    assert (0.5 as real).Floor == 0;
  }

  lemma LargePower(t: nat)
    requires t <= 1024
    ensures if t == 1024 then Round(ScaleUp(1.0, t)).None? else IsDouble(ScaleUp(1.0, t))
  {
    hide Shl, ScaleUp, ScaleDown, RoundBits;
    var x := ScaleUp(1.0, t);
    var k := Pow2(t + UNIT_EXPONENT);
    ScaleOfInteger(1, t);
    ScaleOfInteger(1, t + UNIT_EXPONENT);
    ScalesAdd(1.0, t, UNIT_EXPONENT);
    assert ScaleUp(Abs(x), UNIT_EXPONENT) == k as real;
    ShortScales(1, t + UNIT_EXPONENT);
    ShortIsKept(k);
    WholeUnits(k);
    Pow2Monotone(t + UNIT_EXPONENT, OVERFLOW_EXPONENT);
    ScalingIsLinear(x, 0.0, UNIT_EXPONENT);
  }
}
