/**
 Scalar operations that the folder and the reference evaluator have in common: binary64
 arithmetic and the total orders on numbers, strings and booleans.
 */
module Values {
  import opened Prelude
  import opened Binary64
  import opened Ast

  datatype Ordering = Less | Equal | Greater

  function OrderReals(l: real, r: real): Ordering {
    if l < r then Less else if l == r then Equal else Greater
  }

  function OrderBools(l: bool, r: bool): Ordering {
    if l == r then Equal else if r then Less else Greater
  }

  /** Lexicographic by code point, which is also the order of the UTF-8 bytes. */
  function OrderStrings(l: string, r: string): Ordering {
    if l == [] && r == [] then Equal
    else if l == [] then Less
    else if r == [] then Greater
    else if l[0] == r[0] then OrderStrings(l[1..], r[1..])
    else if l[0] < r[0] then Less
    else Greater
  }

  predicate Holds(rel: Relation, o: Ordering) {
    match rel
    case Eq => o.Equal?
    case Neq => !o.Equal?
    case Gt => o.Greater?
    case Lt => o.Less?
    case Gte => !o.Less?
    case Lte => !o.Greater?
  }

  predicate IsIntegral(x: real) {
    x == x.Floor as real
  }

  function ToF64(x: real): Option<F64> {
    match Round(x)
    case None => None
    case Some(v) => RoundIsDouble(x); Some(v)
  }

  /** The quotient's integer part, toward zero. */
  function Truncate(x: real): int {
    if x < 0.0 then -((-x).Floor) else x.Floor
  }

  predicate IsArithmetic(op: BinaryOperator) {
    op.Add? || op.Sub? || op.Mul? || op.Div? || op.Mod?
  }

  /** The result in the reals; `None` for a zero divisor or a non-arithmetic operator. */
  function Unrounded(l: real, op: BinaryOperator, r: real): Option<real> {
    match op
    case Add => Some(l + r)
    case Sub => Some(l - r)
    case Mul => Some(l * r)
    case Div => if r != 0.0 then Some(l / r) else None
    case Mod => if r != 0.0 then Some(l - r * Truncate(l / r) as real) else None
    case _ => None
  }

  /**
   `f64` arithmetic; `None` also for an infinite result. The remainder of two doubles is
   itself a double, so rounding it is harmless.
   */
  function Arithmetic(l: F64, op: BinaryOperator, r: F64): Option<F64> {
    match Unrounded(l, op, r)
    case None => None
    case Some(x) => ToF64(x)
  }

  /** The result in the integers, where there is one: a quotient only if it leaves no rest. */
  function IntegerResult(i: int, op: BinaryOperator, j: int): Option<int> {
    match op
    case Add => Some(i + j)
    case Sub => Some(i - j)
    case Mul => Some(i * j)
    case Div => if j != 0 && i % j == 0 then Some(i / j) else None
    case Mod => if j != 0 then Some(i - j * Truncate(i as real / j as real)) else None
    case _ => None
  }

  lemma {:induction false} RealOfProduct(a: int, b: int)
    ensures (a * b) as real == a as real * b as real
    decreases if b < 0 then 1 - b else b
  {
    if b < 0 {
      RealOfProduct(a, -b);
      assert a * b == -(a * -b);
      assert a as real * b as real == -(a as real * (-b) as real);
    } else if b > 0 {
      RealOfProduct(a, b - 1);
      assert a * b == a * (b - 1) + a;
      assert a as real * b as real == a as real * (b - 1) as real + a as real;
    }
  }

  lemma RealOfQuotient(a: int, b: int)
    requires b != 0 && a % b == 0
    ensures a as real / b as real == (a / b) as real
  {
    assert a == (a / b) * b;
    RealOfProduct(a / b, b);
    var q: real := (a / b) as real;
    assert q * b as real == a as real;
    assert q * b as real / b as real == q;
  }

  lemma RealOfRemainder(i: int, j: int, q: int)
    ensures (i - j * q) as real == i as real - j as real * q as real
  {
    RealOfProduct(j, q);
    RealOfDifference(i, j * q);
  }

  lemma RealOfDifference(i: int, p: int)
    ensures (i - p) as real == i as real - p as real
  {
  }

  lemma ProductIs(x: real, y: real, i: int, j: int)
    ensures Unrounded(x, Mul, y) == Some(x * y)
    ensures IntegerResult(i, Mul, j) == Some(i * j)
  {
  }

  lemma ProductIsReal(i: int, j: int)
    ensures IntegerResult(i, Mul, j).Some?
    ensures Unrounded(i as real, Mul, j as real) == Some(IntegerResult(i, Mul, j).value as real)
  {
    hide Unrounded, IntegerResult;
    ProductIs(i as real, j as real, i, j);
    RealOfProduct(i, j);
  }

  /** Computing with integers is computing with the reals they are. */
  lemma IntegersAreReals(i: int, op: BinaryOperator, j: int)
    requires IntegerResult(i, op, j).Some?
    ensures Unrounded(i as real, op, j as real) == Some(IntegerResult(i, op, j).value as real)
  {
    hide Truncate;
    if op.Mul? {
      hide Unrounded, IntegerResult;
      ProductIsReal(i, j);
    } else if op.Div? {
      RealOfQuotient(i, j);
    } else if op.Mod? {
      RealOfRemainder(i, j, Truncate(i as real / j as real));
    } else {
      RealOfDifference(i, j);
    }
  }

  lemma DoubleIsKept(x: F64)
    ensures ToF64(x) == Some(x)
  {
    hide Round;
    assert IsDouble(x);
  }

  // ---- what the orders and operations are ---------------------------------

  /** The strings first differ at `k`, where `l` has the smaller character. */
  predicate IsSmallerAt(l: string, r: string, k: nat) {
    k < |l| && k < |r| && l[..k] == r[..k] && l[k] < r[k]
  }

  /** `l` is a proper beginning of `r`, or has the smaller character where the two first differ. */
  ghost predicate Precedes(l: string, r: string) {
    l < r || exists k: nat :: IsSmallerAt(l, r, k)
  }

  lemma SmallerLater(l: string, r: string, k: nat)
    requires l != [] && r != [] && l[0] == r[0]
    ensures IsSmallerAt(l, r, k + 1) <==> IsSmallerAt(l[1..], r[1..], k)
    ensures l < r <==> l[1..] < r[1..]
    ensures !IsSmallerAt(l, r, 0)
  {
    assert l == [l[0]] + l[1..] && r == [r[0]] + r[1..];
    if k < |l[1..]| && k < |r[1..]| {
      assert l[..k + 1] == [l[0]] + l[1..][..k] && r[..k + 1] == [r[0]] + r[1..][..k];
      assert l[..k + 1][1..] == l[1..][..k] && r[..k + 1][1..] == r[1..][..k];
    }
  }

  lemma SmallerFirst(l: string, r: string)
    requires l != [] && r != [] && l[0] != r[0]
    ensures !(l < r) && forall k: nat :: IsSmallerAt(l, r, k) <==> k == 0 && l[0] < r[0]
  {
    assert l[..0] == r[..0];
    forall k: nat | k > 0 ensures !IsSmallerAt(l, r, k) {
      if k < |l| && k < |r| { assert l[..k][0] == l[0] && r[..k][0] == r[0]; }
    }
  }

  lemma PrecedesUnfolds(l: string, r: string)
    requires l != [] && r != []
    ensures Precedes(l, r) <==> l[0] < r[0] || (l[0] == r[0] && Precedes(l[1..], r[1..]))
  {
    hide IsSmallerAt;
    if l[0] != r[0] {
      SmallerFirst(l, r);
      assert l[0] < r[0] ==> IsSmallerAt(l, r, 0);
    } else {
      SmallerLater(l, r, 0);
      if k: nat :| IsSmallerAt(l, r, k) { SmallerLater(l, r, k - 1); }
      if k: nat :| IsSmallerAt(l[1..], r[1..], k) { SmallerLater(l, r, k); }
    }
  }

  /** Strings are ordered by prefix and first difference. */
  lemma {:induction false} StringsAreOrderedIff(l: string, r: string)
    ensures OrderStrings(l, r) == Less <==> Precedes(l, r)
    ensures OrderStrings(l, r) == Equal <==> l == r
    ensures OrderStrings(l, r) == Greater <==> Precedes(r, l)
  {
    if l != [] && r != [] {
      PrecedesUnfolds(l, r);
      PrecedesUnfolds(r, l);
      assert l == [l[0]] + l[1..] && r == [r[0]] + r[1..];
      if l[0] == r[0] { StringsAreOrderedIff(l[1..], r[1..]); }
    }
  }

  /** The integer part is the one toward zero. */
  lemma TruncatesTowardZero(x: real, n: int)
    ensures Truncate(x) == n <==>
      && Abs(n as real) <= Abs(x) < Abs(n as real) + 1.0
      && (n > 0 ==> x > 0.0) && (n < 0 ==> x < 0.0)
  {
  }

  /** The remainder is what a multiple of the divisor leaves, smaller than that and signed as the dividend. */
  lemma RemainderIs(l: real, r: real) returns (q: int, m: real)
    requires r != 0.0
    ensures Unrounded(l, Mod, r) == Some(m)
    ensures m == l - r * q as real && Abs(m) < Abs(r)
    ensures (m > 0.0 ==> l > 0.0) && (m < 0.0 ==> l < 0.0)
  {
    q := Truncate(l / r);
    m := Unrounded(l, Mod, r).value;
    TruncatesTowardZero(l / r, q);
    var t := l / r;
    var f := t - q as real;
    RemainderIsFraction(l, r, t, q as real, f);
    hide Truncate, Unrounded;
    ScaledFraction(r, f, t, m, l);
  }

  lemma RemainderIsFraction(l: real, r: real, t: real, q: real, f: real)
    requires r != 0.0 && t == l / r && f == t - q
    ensures l == r * t && l - r * q == r * f
  {
    assert l == r * t;
    assert r * f == r * (t - q) == r * t - r * q;
  }

  lemma ScaledFraction(r: real, f: real, t: real, m: real, l: real)
    requires r != 0.0 && m == r * f && l == r * t
    requires -1.0 < f < 1.0 && (f > 0.0 ==> t > 0.0) && (f < 0.0 ==> t < 0.0)
    ensures Abs(m) < Abs(r)
    ensures (m > 0.0 ==> l > 0.0) && (m < 0.0 ==> l < 0.0)
  {
    var s := Abs(r);
    var x, y := if r > 0.0 then m else -m, if r > 0.0 then l else -l;
    assert x == s * f && y == s * t by { Negated(r, f); Negated(r, t); }
    Scaled(s, f, 1.0);
    Scaled(s, -1.0, f);
    Scaled(s, 0.0, f);
    Scaled(s, f, 0.0);
    Scaled(s, 0.0, t);
    Scaled(s, t, 0.0);
    assert -s < x < s;
  }

  lemma Negated(r: real, x: real)
    ensures -r * x == -(r * x)
  {
  }

  lemma Scaled(r: real, x: real, y: real)
    requires r > 0.0
    ensures x < y ==> r * x < r * y
    ensures r * 1.0 == r && r * -1.0 == -r && r * 0.0 == 0.0
  {
  }
}
