/**
 When folding one binary node keeps its value. The folder reads the JSON value of a literal,
 computes through binary64 and casts integral results to i64; a database goes by the declared
 type and computes with exact integers. The guards below are on the operands' values in a row.
 */
module FoldExpressionMeaning {
  import opened Prelude
  import opened Binary64
  import opened Json
  import opened Ast
  import opened Values
  import opened Fold
  import opened Semantics

  // ---- reading literals ---------------------------------------------------

  /** `a` is a number that converts to the double `x`. */
  predicate Converts(a: Value, x: F64) {
    IsNumber(a) && ToF64(Quantity(a)) == Some(x)
  }

  /** The database takes the literal for what the folder reads in its JSON value. */
  predicate Reads(eng: Engine, v: Json, t: DataType) {
    var o := LiteralOutcome(eng, v, t);
    match v
    case Bool(b) => o == Ok(VBool(b))
    case Str(s) => o == Ok(VStr(s))
    case Num(n) => o.Ok? && Converts(o.value, NumberToF64(n))
    case _ => true
  }

  /** The declared type is the one the folder takes the JSON value to have. */
  predicate IsPlain(v: Json, t: DataType) {
    match v
    case Bool(_) => t.Boolean?
    case Str(_) => t.String?
    case Num(n) => t.Float? || (t.Int? && n.IntNumber?)
    case _ => true
  }

  lemma PlainIsRead(eng: Engine, v: Json, t: DataType)
    requires IsPlain(v, t)
    ensures Reads(eng, v, t)
  {
    if v.Num? {
      NumberRounds(v.n);
      DoubleIsKept(NumberToF64(v.n));
    }
    hide Round, NumberToF64;
  }

  /** Of other literals only the engine can tell. */
  lemma OtherIsLeftToEngine(eng: Engine, v: Json, t: DataType)
    requires !IsPlain(v, t)
    ensures LiteralOutcome(eng, v, t) == eng.literal(v, t)
    ensures eng.literal(v, t).Err? ==> !Reads(eng, v, t)
  {
    hide Round;
  }

  /** `as_f64` of a JSON number. */
  lemma NumberRounds(m: Number)
    ensures m.IntNumber? ==> ToF64(m.i as real) == Some(NumberToF64(m))
  {
    if m.IntNumber? {
      WordIsBounded(m.i);
      WordDoesNotOverflow(m.i);
      RoundIsDouble(m.i as real);
    }
    hide Round;
  }

  lemma FolderLiterals(eng: Engine, i: Word, f: F64, b: bool)
    ensures LiteralOutcome(eng, IntLiteral(i).value, Int) == Ok(VInt(i))
    ensures LiteralOutcome(eng, FloatLiteral(f).value, Float) == Ok(VFloat(f))
    ensures LiteralOutcome(eng, BoolLiteral(b).value, Boolean) == Ok(VBool(b))
  {
    hide Round;
  }

  // ---- integers -----------------------------------------------------------

  lemma TwoTo63()
    ensures Pow2(63) == TWO_63
  {
    LimitIsPow2();
    ShlAdd(1, 53, 4);
    ShlByFour(LIMIT);
    ShlAdd(1, 57, 4);
    ShlByFour(Pow2(57));
    assert Pow2(62) == 2 * Pow2(61);
    assert Pow2(63) == 2 * Pow2(62);
  }

  predicate InI64(x: real) {
    -(TWO_63 as real) <= x < TWO_63 as real
  }

  /** The i64 of at most 53 significant bits: those that are doubles. */
  predicate Fits(n: int) {
    Short(Magnitude(n)) && -TWO_63 <= n < TWO_63
  }

  /** An integral double survives the cast to i64 exactly within its range. */
  lemma CastKeepsIff(v: F64)
    requires IsIntegral(v)
    ensures CastI64(v) as real == v <==> InI64(v)
  {
    hide Round;
  }

  /** The cast gives the i64 nearest to the double. */
  lemma CastIsNearest(v: F64, w: int)
    requires IsIntegral(v) && -0x8000_0000_0000_0000 <= w < 0x8000_0000_0000_0000
    ensures -0x8000_0000_0000_0000 <= CastI64(v) < 0x8000_0000_0000_0000
    ensures Abs(CastI64(v) as real - v) <= Abs(w as real - v)
  {
    hide Round;
  }

  /** `as_f64` of an integer: the integer itself exactly when it has at most 53 significant bits. */
  lemma WordAsDouble(i: Word)
    ensures ToF64(i as real) == Some(NumberToF64(IntNumber(i)))
    ensures IsIntegral(NumberToF64(IntNumber(i)))
    ensures NumberToF64(IntNumber(i)) == i as real <==> Short(Magnitude(i))
  {
    WordIsBounded(i);
    WordDoesNotOverflow(i);
    RoundOfInteger(i);
    if Short(Magnitude(i)) { ShortWordIsDouble(i); }
    hide Round, Short, RoundBits;
    if NumberToF64(IntNumber(i)) == i as real { DoubleIntegerIsShort(i); }
  }

  lemma FittingIsDouble(n: int)
    requires Fits(n)
    ensures IsDouble(n as real)
  {
    hide Short;
    WordIsBounded(n);
    ShortWordIsDouble(n);
  }

  /** Rounding and casting an integer gives it back only in two ways. */
  lemma RoundedCastIff(n: int, v: F64)
    requires ToF64(n as real) == Some(v)
    ensures IsIntegral(v)
    ensures CastI64(v) == n <==> Fits(n) || n == TWO_63 - 1
  {
    hide Short, RoundBits, Round, Pow2, Fits;
    RoundsTo(n, v);
    RoundOfInteger(n);
    TwoTo63();
    MaxWordRoundsUp();
    MinWordIsDouble();
    if Fits(n) {
      FittingIsDouble(n);
      CastInRange(n, v);
    }
    if CastI64(v) == n && n != TWO_63 - 1 {
      assert v == n as real;
      DoubleIntegerIsShort(n);
      CastInRange(n, v);
    }
  }

  lemma RoundsTo(n: int, v: F64)
    requires ToF64(n as real) == Some(v)
    ensures Round(n as real) == Some(v)
  {
    hide Round;
  }

  lemma CastInRange(n: int, v: F64)
    requires v == n as real
    ensures Fits(n) ==> CastI64(v) == n
    ensures CastI64(v) == n && Short(Magnitude(n)) ==> Fits(n)
  {
    hide Round, Short;
  }

  // ---- arithmetic on literals ---------------------------------------------

  predicate AllIntegral(l: F64, r: F64, v: F64) {
    IsIntegral(l) && IsIntegral(r) && IsIntegral(v)
  }

  /** What folding two number literals computes, and how it writes the result. */
  lemma FoldedNumbers(m: Number, op: BinaryOperator, n: Number)
    ensures
      var l, r := NumberToF64(m), NumberToF64(n);
      FoldArithmetic(Num(m), op, Num(n)) ==
        match Arithmetic(l, op, r)
        case None => None
        case Some(v) => Some(if AllIntegral(l, r, v) then IntLiteral(CastI64(v)) else FloatLiteral(v))
  {
    hide Round, Arithmetic, NumberToF64;
  }

  /** The value of a result the folder writes as an Int or as a Float literal. */
  function Written(v: F64, asInteger: bool): Value {
    if asInteger then VInt(CastI64(v)) else VFloat(v)
  }

  lemma FoldedValue(eng: Engine, m: Number, op: BinaryOperator, n: Number)
    requires FoldArithmetic(Num(m), op, Num(n)).Some?
    ensures
      var l, r := NumberToF64(m), NumberToF64(n);
      var e := FoldArithmetic(Num(m), op, Num(n)).value;
      && Arithmetic(l, op, r).Some? && e.Literal?
      && LiteralOutcome(eng, e.value, e.dataType)
           == Ok(Written(Arithmetic(l, op, r).value, AllIntegral(l, r, Arithmetic(l, op, r).value)))
  {
    hide FoldArithmetic, Arithmetic, NumberToF64, Round, IsIntegral, CastI64, LiteralOutcome;
    FoldedNumbers(m, op, n);
    var v := Arithmetic(NumberToF64(m), op, NumberToF64(n)).value;
    FolderLiterals(eng, CastI64(v), v, true);
  }

  /**
   Folding two integers gives the exact integer result if and only if rounding the operands,
   the operation and the cast together do. With operands of at most 53 significant bits that is
   so exactly when the result fits too, or is the largest i64, which saturation restores.
   */
  lemma IntegersFoldExactlyIff(i: Word, op: BinaryOperator, j: Word, n: int)
    requires IntegerResult(i, op, j) == Some(n)
    requires FoldArithmetic(Num(IntNumber(i)), op, Num(IntNumber(j))).Some?
    ensures
      var folded := FoldArithmetic(Num(IntNumber(i)), op, Num(IntNumber(j))).value;
      var v := Arithmetic(NumberToF64(IntNumber(i)), op, NumberToF64(IntNumber(j)));
      var exactly := folded.Literal? && folded.value.Num? && folded.value.n.IntNumber? && folded.value.n.i == n;
      && v.Some?
      && (exactly <==> IsIntegral(v.value) && CastI64(v.value) == n)
      && (Short(Magnitude(i)) && Short(Magnitude(j)) ==> (exactly <==> Fits(n) || n == TWO_63 - 1))
  {
    hide Round, Short, NumberToF64, CastI64, Unrounded, IntegerResult, Fits;
    FoldedNumbers(IntNumber(i), op, IntNumber(j));
    WordAsDouble(i);
    WordAsDouble(j);
    if Short(Magnitude(i)) && Short(Magnitude(j)) {
      IntegersAreReals(i, op, j);
      RoundedCastIff(n, Arithmetic(NumberToF64(IntNumber(i)), op, NumberToF64(IntNumber(j))).value);
    }
  }

  /** A double written as a literal, an Int one if `asInteger`, still stands for it. */
  predicate FloatKeeps(k: Fidelity, v: F64, asInteger: bool) {
    asInteger ==> k.Numeric? && InI64(v)
  }

  /**
   Folding the operation keeps the value it has on `a` and `b`: on integers these and the result
   must be doubles, an uneven quotient must be what the database makes of it, and otherwise the
   operation is one on doubles and only the Int tag and the cast can spoil it.
   */
  predicate NumbersKeep(
    eng: Engine, k: Fidelity, a: Value, m: Number, op: BinaryOperator, b: Value, n: Number)
  {
    var l, r := NumberToF64(m), NumberToF64(n);
    match Arithmetic(l, op, r)
    case None => true
    case Some(v) =>
      if a.VInt? && b.VInt? then
        && IsDouble(a.i as real) && IsDouble(b.i as real)
        && (match IntegerResult(a.i, op, b.i)
            case Some(x) => Fits(x)
            case None => QuotientKeeps(eng, k, a.i, b.i, Written(v, IsIntegral(v))))
      else FloatKeeps(k, v, AllIntegral(l, r, v))
  }

  /** The database's quotient is the one the folder wrote. */
  predicate QuotientKeeps(eng: Engine, k: Fidelity, i: int, j: int, written: Value) {
    var q := eng.calculate(Div, VInt(i), VInt(j));
    q.Ok? ==> StandsFor(k, q.value, written)
  }

  /** Where a double takes part, the evaluator computes what the folder does. */
  lemma FloatsCalculate(eng: Engine, op: BinaryOperator, a: Value, x: F64, b: Value, y: F64)
    requires Converts(a, x) && Converts(b, y) && (a.VFloat? || b.VFloat?)
    ensures Calculate(eng, op, Ok(a), Ok(b)) == FloatOutcome(Arithmetic(x, op, y))
  {
    hide ToF64, Arithmetic, CalculateIntegers;
  }

  lemma FloatStands(k: Fidelity, v: F64, asInteger: bool)
    requires asInteger ==> IsIntegral(v)
    ensures StandsFor(k, VFloat(v), Written(v, asInteger)) <==> FloatKeeps(k, v, asInteger)
  {
    if asInteger { CastKeepsIff(v); }
    hide Round, CastI64;
  }

  lemma DoubleConverts(i: int, x: F64)
    requires IsDouble(i as real) && Converts(VInt(i), x)
    ensures x == i as real && IsIntegral(x)
  {
    DoubleIsKept(i as real);
    hide Round, ToF64;
  }

  /** Two integers with an integer result: the folder computes the rounded one. */
  lemma ExactIntegersFoldIff(eng: Engine, k: Fidelity, i: int, op: BinaryOperator, j: int, x: F64, y: F64)
    requires IsDouble(i as real) && IsDouble(j as real) && x == i as real && y == j as real
    requires IntegerResult(i, op, j).Some? && Arithmetic(x, op, y).Some?
    ensures
      var n, v := IntegerResult(i, op, j).value, Arithmetic(x, op, y).value;
      && IsIntegral(v)
      && Calculate(eng, op, Ok(VInt(i)), Ok(VInt(j))) == Ok(VInt(n))
      && (StandsFor(k, VInt(n), Written(v, true)) <==> Fits(n) || n == TWO_63 - 1)
  {
    hide Round, IntegerResult, Unrounded, CastI64, Fits;
    IntegersAreReals(i, op, j);
    RoundedCastIff(IntegerResult(i, op, j).value, Arithmetic(x, op, y).value);
  }

  lemma UnevenQuotient(eng: Engine, op: BinaryOperator, i: int, j: int, x: F64, y: F64)
    requires x == i as real && y == j as real
    requires IntegerResult(i, op, j).None? && Arithmetic(x, op, y).Some?
    ensures Calculate(eng, op, Ok(VInt(i)), Ok(VInt(j))) == eng.calculate(Div, VInt(i), VInt(j))
  {
    hide ToF64;
  }

  /**
   Two literals that convert to the folder's numbers fold to the value of their operation if and
   only if `NumbersKeep` says so, save for the largest i64; of integers beyond 53 bits
   `IntegersFoldExactlyIff` tells.
   */
  lemma NumbersFoldIff(
    eng: Engine, k: Fidelity, a: Value, m: Number, op: BinaryOperator, b: Value, n: Number)
    requires Converts(a, NumberToF64(m)) && Converts(b, NumberToF64(n))
    requires FoldArithmetic(Num(m), op, Num(n)).Some?
    requires a.VInt? && b.VInt? ==> IsDouble(a.i as real) && IsDouble(b.i as real)
    ensures FoldArithmetic(Num(m), op, Num(n)).value.Literal?
    ensures
      var e := FoldArithmetic(Num(m), op, Num(n)).value;
      Refines(k, Calculate(eng, op, Ok(a), Ok(b)), LiteralOutcome(eng, e.value, e.dataType))
      <==> NumbersKeep(eng, k, a, m, op, b, n)
           || (a.VInt? && b.VInt? && IntegerResult(a.i, op, b.i) == Some(TWO_63 - 1))
  {
    hide Round, NumberToF64, Arithmetic, CastI64, Fits, FoldArithmetic, FloatKeeps, IntegerResult, Calculate, ToF64,
      IsDouble, IsIntegral, Written, LiteralOutcome, StandsFor;
    FoldedValue(eng, m, op, n);
    var l, r := NumberToF64(m), NumberToF64(n);
    var v := Arithmetic(l, op, r).value;
    if a.VInt? && b.VInt? {
      DoubleConverts(a.i, l);
      DoubleConverts(b.i, r);
      if IntegerResult(a.i, op, b.i).Some? {
        ExactIntegersFoldIff(eng, k, a.i, op, b.i, l, r);
      } else {
        UnevenQuotient(eng, op, a.i, b.i, l, r);
      }
    } else {
      FloatsCalculate(eng, op, a, l, b, r);
      FloatStands(k, v, AllIntegral(l, r, v));
    }
  }

  // ---- comparisons of literals --------------------------------------------

  /** Distinct numbers that round alike compare as the folder, which takes them for equal, says. */
  predicate OrdersKeep(a: Value, rel: Relation, b: Value)
    requires IsNumber(a) && IsNumber(b)
  {
    var x, y := Quantity(a), Quantity(b);
    x != y && ToF64(x) == ToF64(y) ==> Holds(rel, Equal) == Holds(rel, OrderReals(x, y))
  }

  /** Converting to binary64 can make distinct numbers equal, but cannot swap them. */
  lemma ConversionKeepsOrder(x: real, y: real, l: F64, r: F64)
    requires ToF64(x) == Some(l) && ToF64(y) == Some(r)
    ensures OrderReals(l, r) == if l == r then Equal else OrderReals(x, y)
  {
    assert Round(x) == Some(l) && Round(y) == Some(r);
    hide Round, ToF64;
    if x <= y { RoundIsMonotone(x, y); } else { RoundIsMonotone(y, x); }
  }

  lemma NumbersOrderIff(a: Value, l: F64, rel: Relation, b: Value, r: F64)
    requires Converts(a, l) && Converts(b, r)
    ensures Holds(rel, OrderReals(l, r)) == Holds(rel, OrderReals(Quantity(a), Quantity(b))) <==> OrdersKeep(a, rel, b)
  {
    ConversionKeepsOrder(Quantity(a), Quantity(b), l, r);
    hide Round, ToF64;
  }

  /** The database orders the two literals, which it reads as the folder does, as the folder orders them. */
  predicate DecidesAlike(eng: Engine, l: Expression, rel: Relation, r: Expression)
    requires l.Literal? && r.Literal?
  {
    && Reads(eng, l.value, l.dataType) && Reads(eng, r.value, r.dataType)
    && (l.value.Num? && r.value.Num? ==>
          OrdersKeep(LiteralOutcome(eng, l.value, l.dataType).value, rel, LiteralOutcome(eng, r.value, r.dataType).value))
    && (l.value.Str? && r.value.Str? ==>
          Holds(rel, eng.collate(l.value.s, r.value.s)) == Holds(rel, OrderStrings(l.value.s, r.value.s)))
  }

  /** Of literals that the database reads as the folder does, it decides alike exactly then. */
  lemma LiteralsOrderIff(eng: Engine, l: Expression, rel: Relation, r: Expression)
    requires l.Literal? && r.Literal? && CompareValues(l.value, r.value).Some?
    requires Reads(eng, l.value, l.dataType) && Reads(eng, r.value, r.dataType)
    ensures
      var database := Compare3(eng, rel, LiteralOutcome(eng, l.value, l.dataType), LiteralOutcome(eng, r.value, r.dataType));
      database == Ok(VBool(Holds(rel, CompareValues(l.value, r.value).value))) <==> DecidesAlike(eng, l, rel, r)
  {
    hide Round, NumberToF64, OrderStrings, OrdersKeep, LiteralOutcome, ToF64, OrderReals, Holds;
    if l.value.Num? && r.value.Num? {
      NumbersOrderIff(LiteralOutcome(eng, l.value, l.dataType).value, NumberToF64(l.value.n), rel,
                      LiteralOutcome(eng, r.value, r.dataType).value, NumberToF64(r.value.n));
    }
  }

  // ---- identities ---------------------------------------------------------

  /** `o` may be the outcome of `e`. */
  predicate Denotes(eng: Engine, e: Expression, o: Outcome<Value>) {
    e.Literal? ==> o == LiteralOutcome(eng, e.value, e.dataType)
  }

  /** The right operand is the one an algebraic identity drops. */
  predicate DropsRight(op: BinaryOperator, right: Expression) {
    ((op.Add? || op.Sub?) && IsNumberLiteral(right, ZERO)) || ((op.Mul? || op.Div?) && IsNumberLiteral(right, ONE))
  }

  predicate DropsLeft(left: Expression, op: BinaryOperator) {
    (op.Add? && IsNumberLiteral(left, ZERO)) || (op.Mul? && IsNumberLiteral(left, ONE))
  }

  lemma IdentityByCases(left: Expression, op: BinaryOperator, right: Expression)
    ensures FoldAlgebraicIdentity(left, op, right) ==
      if DropsRight(op, right) then Some(left) else if DropsLeft(left, op) then Some(right) else None
  {
    hide Round, IsNumberLiteral;
  }

  function Unit(op: BinaryOperator): int {
    if op.Add? || op.Sub? then 0 else 1
  }

  /** An integer that converts to 0 or 1 is 0 or 1. */
  lemma UnitIsExact(i: int, unit: int)
    requires 0 <= unit <= 1 && Round(i as real) == Some(unit as real)
    ensures i == unit
  {
    RoundOfInteger(i);
    if Magnitude(i) > LIMIT { LargeStaysLarge(Magnitude(i), false, false); }
    hide Round, RoundBits;
  }

  /** The unit in the place where it is dropped. */
  function WithUnit(eng: Engine, op: BinaryOperator, onRight: bool, u: Value, z: Value): Outcome<Value> {
    if onRight then Calculate(eng, op, Ok(u), Ok(z)) else Calculate(eng, op, Ok(z), Ok(u))
  }

  predicate HasUnit(op: BinaryOperator, onRight: bool) {
    op.Add? || op.Mul? || (onRight && (op.Sub? || op.Div?))
  }

  /** `z` is the number that is the unit. */
  predicate IsUnit(op: BinaryOperator, onRight: bool, z: Value) {
    HasUnit(op, onRight) && IsNumber(z) && Quantity(z) == Unit(op) as real
  }

  /** What converts to the unit is the unit. */
  lemma ConvertedUnit(op: BinaryOperator, onRight: bool, z: Value, x: F64)
    requires HasUnit(op, onRight) && Converts(z, x) && x == Unit(op) as real
    ensures IsUnit(op, onRight, z)
  {
    assert Round(Quantity(z)) == Some(x);
    if z.VInt? {
      UnitIsExact(z.i, Unit(op));
    } else {
      DoubleIsKept(z.f);
    }
    hide Round;
  }

  lemma UnitUnrounded(op: BinaryOperator, onRight: bool, x: real)
    requires HasUnit(op, onRight)
    ensures Unrounded(if onRight then x else Unit(op) as real, op, if onRight then Unit(op) as real else x) == Some(x)
  {
    assert x * 1.0 == x == 1.0 * x && x / 1.0 == x;
  }

  lemma UnitOfReals(op: BinaryOperator, onRight: bool, x: F64)
    requires HasUnit(op, onRight)
    ensures IsDouble(Unit(op) as real)
    ensures Arithmetic(if onRight then x else Unit(op) as real, op, if onRight then Unit(op) as real else x) == Some(x)
  {
    hide Round, ToF64, Unrounded;
    SmallIntegerIsDouble(0);
    SmallIntegerIsDouble(1);
    DoubleIsKept(x);
    UnitUnrounded(op, onRight, x);
  }

  lemma UnitOfIntegers(eng: Engine, op: BinaryOperator, onRight: bool, i: int)
    requires HasUnit(op, onRight)
    ensures WithUnit(eng, op, onRight, VInt(i), VInt(Unit(op))) == Ok(VInt(i))
  {
    hide Round, Truncate;
    assert i * 1 == i == 1 * i && i % 1 == 0 && i / 1 == i;
  }

  lemma UnitOfDoubles(op: BinaryOperator, onRight: bool, x: real)
    requires HasUnit(op, onRight)
    ensures CalculateFloats(op, if onRight then x else Unit(op) as real, if onRight then Unit(op) as real else x)
         == FloatOutcome(ToF64(x))
  {
    hide ToF64, Arithmetic, Round;
    SmallIntegerIsDouble(Unit(op));
    DoubleIsKept(Unit(op) as real);
    if ToF64(x).Some? { UnitOfReals(op, onRight, ToF64(x).value); }
  }

  lemma WithFloat(eng: Engine, op: BinaryOperator, a: Value, b: Value)
    requires IsNumber(a) && IsNumber(b) && (a.VFloat? || b.VFloat?)
    ensures Calculate(eng, op, Ok(a), Ok(b)) == CalculateFloats(op, Quantity(a), Quantity(b))
  {
    hide CalculateFloats, CalculateIntegers;
  }

  lemma UnitOfFloats(eng: Engine, op: BinaryOperator, onRight: bool, u: Value, z: Value)
    requires IsUnit(op, onRight, z) && IsNumber(u) && (u.VFloat? || z.VFloat?)
    ensures WithUnit(eng, op, onRight, u, z) == FloatOutcome(ToF64(Quantity(u)))
  {
    hide Calculate, CalculateFloats, ToF64, Round;
    UnitOfDoubles(op, onRight, Quantity(u));
    WithFloat(eng, op, u, z);
    WithFloat(eng, op, z, u);
  }

  /**
   `l`, which is `a` or the integer that the double `a` is, may stand for `a` with the unit `z`.
   A double unit rounds an integer, and of values that are no numbers only the engine can tell.
   */
  predicate UnitKeeps(eng: Engine, k: Fidelity, op: BinaryOperator, onRight: bool, a: Value, z: Value, l: Value) {
    match a
    case VNull => true
    case VInt(i) => z.VFloat? ==> k.Numeric? && IsDouble(i as real)
    case VFloat(_) => k.Numeric? || l == a
    case _ => var o := WithUnit(eng, op, onRight, a, z); o.Ok? ==> o.value == l
  }

  /** Dropping the unit keeps the value exactly then, or where `a` is too large to convert. */
  lemma UnitIsDroppedIff(
    eng: Engine, k: Fidelity, op: BinaryOperator, onRight: bool, a: Value, z: Value, l: Value)
    requires IsUnit(op, onRight, z) && StandsFor(Numeric, a, l)
    ensures Refines(k, WithUnit(eng, op, onRight, a, z), Ok(l)) <==>
      UnitKeeps(eng, k, op, onRight, a, z, l) || (a.VInt? && z.VFloat? && ToF64(a.i as real).None?)
  {
    hide ToF64, WithUnit, Round, IsDouble;
    if a.VInt? && z.VInt? {
      UnitOfIntegers(eng, op, onRight, a.i);
    } else if IsNumber(a) {
      UnitOfFloats(eng, op, onRight, a, z);
      if a.VFloat? { DoubleIsKept(a.f); } else { DoubleIff(a.i); }
    } else if a.VNull? {
      UnitOfNull(eng, op, onRight, z);
    }
  }

  lemma UnitOfNull(eng: Engine, op: BinaryOperator, onRight: bool, z: Value)
    requires IsNumber(z)
    ensures WithUnit(eng, op, onRight, VNull, z) == Ok(VNull)
  {
    hide CalculateFloats, CalculateIntegers;
  }

  lemma DoubleIff(i: int)
    ensures IsDouble(i as real) <==> ToF64(i as real) == Some(i as real)
  {
    if IsDouble(i as real) { DoubleIsKept(i as real); }
    hide Round;
  }

  // ---- a whole node -------------------------------------------------------

  /** One operand of a node: its outcome, its folded form, and the outcome of that. */
  datatype Side = Side(before: Outcome<Value>, folded: Expression, after: Outcome<Value>)
  {
    ghost predicate Sound(eng: Engine) {
      Denotes(eng, folded, after) && Refines(Numeric, before, after)
    }

    predicate IsRead(eng: Engine)
      requires folded.Literal?
    {
      Reads(eng, folded.value, folded.dataType)
    }
  }

  /** Comparisons of these tell numbers apart by what they are only. */
  predicate Comparable(a: Value, b: Value) {
    a.VNull? || b.VNull? || (IsNumber(a) && IsNumber(b))
  }

  /**
   An operation on integers one of which was a double before: it was one on doubles then, and
   must have been exact. Beside anything but a number or NULL only the engine could tell.
   */
  predicate RetaggedKeeps(k: Fidelity, op: BinaryOperator, l: Value, r: Value) {
    if l.VInt? && r.VInt? then
      && k.Numeric? && IsDouble(l.i as real) && IsDouble(r.i as real)
      && (match IntegerResult(l.i, op, r.i)
          case Some(n) => IsDouble(n as real)
          case None => !(op.Div? && r.i != 0))
    else Comparable(l, r)
  }

  /** A node that stays, over operands worth `l` and `r` that were worth `a` and `b`. */
  predicate KeptKeeps(k: Fidelity, a: Value, l: Value, op: BinaryOperator, b: Value, r: Value) {
    || (l == a && r == b)
    || op.AndOp? || op.OrOp?
    || (op.Order? && Comparable(l, r))
    || (IsArithmetic(op) && RetaggedKeeps(k, op, l, r))
  }

  /** What a node must satisfy to keep its value when it is folded. */
  predicate NodeKeeps(eng: Engine, k: Fidelity, x: Side, op: BinaryOperator, y: Side) {
    x.before.Ok? && x.after.Ok? && y.before.Ok? && y.after.Ok? ==>
      var a, b := x.before.value, y.before.value;
      if SimplifyBinary(x.folded, op, y.folded).None? then KeptKeeps(k, a, x.after.value, op, b, y.after.value)
      else if IsArithmetic(op) then
        if DropsRight(op, y.folded) then y.IsRead(eng) && UnitKeeps(eng, k, op, true, a, b, x.after.value)
        else if DropsLeft(x.folded, op) then x.IsRead(eng) && UnitKeeps(eng, k, op, false, b, a, y.after.value)
        else BothNumbers(x.folded, y.folded) ==>
          x.IsRead(eng) && y.IsRead(eng) && NumbersKeep(eng, k, a, x.folded.value.n, op, b, y.folded.value.n)
      else BothLiterals(x.folded, y.folded) && FoldBooleanIdentity(x.folded, op, y.folded).None? ==>
        if op.Order? then DecidesAlike(eng, x.folded, op.rel, y.folded) else x.IsRead(eng) && y.IsRead(eng)
  }

  predicate BothLiterals(left: Expression, right: Expression) {
    left.Literal? && right.Literal?
  }

  predicate BothNumbers(left: Expression, right: Expression) {
    left.Literal? && right.Literal? && left.value.Num? && right.value.Num?
  }

  /** `o` is the outcome of the node over the folded operands. */
  predicate NodeDenotes(eng: Engine, x: Side, op: BinaryOperator, y: Side, o: Outcome<Value>) {
    match SimplifyBinary(x.folded, op, y.folded)
    case None => o == Binary(eng, op, x.after, y.after)
    case Some(s) => Denotes(eng, s, o) && (s == x.folded ==> o == x.after) && (s == y.folded ==> o == y.after)
  }

  lemma CalculateIsStrict(eng: Engine, op: BinaryOperator, a: Outcome<Value>, b: Outcome<Value>)
    ensures a.Err? || b.Err? ==> Calculate(eng, op, a, b).Err?
  {
  }

  /** A number that stands for another converts alike. */
  lemma StandsConverts(a: Value, l: Value, x: F64)
    requires StandsFor(Numeric, a, l) && Converts(l, x)
    ensures Converts(a, x)
  {
    hide ToF64;
  }

  lemma ReadNumber(eng: Engine, x: Side)
    requires x.Sound(eng) && x.folded.Literal? && x.folded.value.Num? && x.IsRead(eng) && x.before.Ok?
    ensures x.after.Ok? && Converts(x.after.value, NumberToF64(x.folded.value.n))
    ensures Converts(x.before.value, NumberToF64(x.folded.value.n))
  {
    hide NumberToF64, LiteralOutcome, ToF64, StandsFor, Converts;
    StandsConverts(x.before.value, x.after.value, NumberToF64(x.folded.value.n));
  }

  /** The operand `z` is dropped, and `x` is what stays. */
  lemma IdentityRefines(eng: Engine, k: Fidelity, op: BinaryOperator, onRight: bool, x: Side, z: Side)
    requires x.Sound(eng) && z.Sound(eng) && HasUnit(op, onRight)
    requires z.folded.Literal? && z.folded.value.Num? && NumberToF64(z.folded.value.n) == Unit(op) as real
    requires z.IsRead(eng)
    requires x.before.Ok? && z.before.Ok? ==>
      UnitKeeps(eng, k, op, onRight, x.before.value, z.before.value, x.after.value)
    ensures Refines(k, if onRight then Calculate(eng, op, x.before, z.before) else Calculate(eng, op, z.before, x.before),
                    x.after)
  {
    hide NumberToF64, LiteralOutcome, UnitKeeps, Calculate, StandsFor, Converts, IsUnit;
    CalculateIsStrict(eng, op, x.before, z.before);
    CalculateIsStrict(eng, op, z.before, x.before);
    if x.before.Ok? && z.before.Ok? {
      ReadNumber(eng, z);
      ConvertedUnit(op, onRight, z.before.value, Unit(op) as real);
      UnitIsDroppedIff(eng, k, op, onRight, x.before.value, z.before.value, x.after.value);
    }
  }

  lemma DroppedIsUnit(left: Expression, op: BinaryOperator, right: Expression)
    ensures DropsRight(op, right) ==> HasUnit(op, true) && right.Literal? && right.value.Num?
                                      && NumberToF64(right.value.n) == Unit(op) as real
    ensures DropsLeft(left, op) ==> HasUnit(op, false) && left.Literal? && left.value.Num?
                                    && NumberToF64(left.value.n) == Unit(op) as real
  {
    hide NumberToF64, Round;
  }

  lemma BooleanIdentityByOperator(left: Expression, op: BinaryOperator, right: Expression)
    ensures FoldBooleanIdentity(left, op, right).Some? ==> op.AndOp? || op.OrOp?
  {
  }

  lemma LiteralsRefine(eng: Engine, k: Fidelity, x: Side, op: BinaryOperator, y: Side)
    requires x.Sound(eng) && y.Sound(eng) && BothNumbers(x.folded, y.folded)
    requires FoldArithmetic(x.folded.value, op, y.folded.value).Some?
    requires x.before.Ok? && y.before.Ok? ==>
      && x.IsRead(eng) && y.IsRead(eng)
      && NumbersKeep(eng, k, x.before.value, x.folded.value.n, op, y.before.value, y.folded.value.n)
    ensures
      var e := FoldArithmetic(x.folded.value, op, y.folded.value).value;
      e.Literal? && Refines(k, Calculate(eng, op, x.before, y.before), LiteralOutcome(eng, e.value, e.dataType))
  {
    hide NumberToF64, Calculate, NumbersKeep, FoldArithmetic, StandsFor, LiteralOutcome, Converts, Reads;
    FoldedValue(eng, x.folded.value.n, op, y.folded.value.n);
    CalculateIsStrict(eng, op, x.before, y.before);
    if x.before.Ok? && y.before.Ok? {
      ReadNumber(eng, x);
      ReadNumber(eng, y);
      KeepsDoubles(eng, k, x.before.value, x.folded.value.n, op, y.before.value, y.folded.value.n);
      NumbersFoldIff(eng, k, x.before.value, x.folded.value.n, op, y.before.value, y.folded.value.n);
    }
  }

  lemma KeepsDoubles(eng: Engine, k: Fidelity, a: Value, m: Number, op: BinaryOperator, b: Value, n: Number)
    requires NumbersKeep(eng, k, a, m, op, b, n) && FoldArithmetic(Num(m), op, Num(n)).Some?
    ensures a.VInt? && b.VInt? ==> IsDouble(a.i as real) && IsDouble(b.i as real)
  {
    hide NumberToF64, Arithmetic, IsDouble, IntegerResult, Fits, FloatKeeps, Round;
    FoldedNumbers(m, op, n);
  }

  lemma ArithmeticByCases(left: Expression, op: BinaryOperator, right: Expression)
    requires IsArithmetic(op)
    ensures SimplifyBinary(left, op, right) ==
      if DropsRight(op, right) then Some(left) else if DropsLeft(left, op) then Some(right)
      else if BothNumbers(left, right) then FoldArithmetic(left.value, op, right.value) else None
  {
    hide DropsRight, DropsLeft, FoldAlgebraicIdentity, FoldBooleanIdentity, FoldArithmetic, FoldBinary;
    IdentityByCases(left, op, right);
    BooleanIdentityByOperator(left, op, right);
    if BothLiterals(left, right) { ArithmeticOfLiterals(left, op, right); }
  }

  lemma ArithmeticOfLiterals(left: Expression, op: BinaryOperator, right: Expression)
    requires IsArithmetic(op) && left.Literal? && right.Literal?
    ensures FoldBinary(left.value, op, right.value) ==
      if BothNumbers(left, right) then FoldArithmetic(left.value, op, right.value) else None
  {
    hide Round, Arithmetic, NumberToF64;
  }

  /** An arithmetic node that folds. */
  lemma ArithmeticNodeRefines(
    eng: Engine, k: Fidelity, x: Side, op: BinaryOperator, y: Side, o: Outcome<Value>)
    requires IsArithmetic(op) && SimplifyBinary(x.folded, op, y.folded).Some?
    requires x.Sound(eng) && y.Sound(eng) && NodeKeeps(eng, k, x, op, y) && NodeDenotes(eng, x, op, y, o)
    ensures Refines(k, Calculate(eng, op, x.before, y.before), o)
  {
    hide NumberToF64, Calculate, NumbersKeep, FoldArithmetic, StandsFor, UnitKeeps, SimplifyBinary, DropsRight,
      DropsLeft, LiteralOutcome, Reads, HasUnit, Unit, Round;
    CalculateIsStrict(eng, op, x.before, y.before);
    ArithmeticByCases(x.folded, op, y.folded);
    DroppedIsUnit(x.folded, op, y.folded);
    if x.before.Ok? && y.before.Ok? {
      if DropsRight(op, y.folded) {
        IdentityRefines(eng, k, op, true, x, y);
      } else if DropsLeft(x.folded, op) {
        IdentityRefines(eng, k, op, false, y, x);
      } else {
        LiteralsRefine(eng, k, x, op, y);
      }
    }
  }

  // ---- connectives and comparisons ----------------------------------------

  /** `s` is one of the operands, and that operand's outcome refines `whole`. */
  ghost predicate KeepsOperand(
    s: Expression, left: Expression, a: Outcome<Value>, right: Expression, b: Outcome<Value>, whole: Outcome<Value>)
  {
    (s == left && Refines(Exact, whole, a)) || (s == right && Refines(Exact, whole, b))
  }

  lemma BooleanIdentityIsFaithful(
    eng: Engine, left: Expression, a: Outcome<Value>, op: BinaryOperator, right: Expression, b: Outcome<Value>)
    requires Denotes(eng, left, a) && Denotes(eng, right, b)
    requires FoldBooleanIdentity(left, op, right).Some?
    ensures op.AndOp? || op.OrOp?
    ensures KeepsOperand(FoldBooleanIdentity(left, op, right).value, left, a, right, b,
                         if op.AndOp? then And3(a, b) else Or3(a, b))
  {
    hide Round, NumberToF64;
  }

  /** Truth values leave no room between numerically and exactly. */
  lemma ConnectiveRefines(a: Outcome<Value>, l: Outcome<Value>, b: Outcome<Value>, r: Outcome<Value>)
    requires Refines(Numeric, a, l) && Refines(Numeric, b, r)
    ensures And3(a, b).Ok? ==> a == l && b == r
    ensures Or3(a, b).Ok? ==> a == l && b == r
  {
  }

  lemma ConnectiveByCases(left: Expression, op: BinaryOperator, right: Expression)
    requires op.AndOp? || op.OrOp?
    ensures SimplifyBinary(left, op, right) ==
      if FoldBooleanIdentity(left, op, right).Some? then FoldBooleanIdentity(left, op, right)
      else if BothLiterals(left, right) then FoldBoolean(left.value, op, right.value) else None
  {
    hide FoldBooleanIdentity, IsNumberLiteral, FoldBoolean;
  }

  lemma BooleanNodeRefines(eng: Engine, x: Side, op: BinaryOperator, y: Side, o: Outcome<Value>)
    requires (op.AndOp? || op.OrOp?) && SimplifyBinary(x.folded, op, y.folded).Some?
    requires x.Sound(eng) && y.Sound(eng) && NodeKeeps(eng, Exact, x, op, y) && NodeDenotes(eng, x, op, y, o)
    ensures Refines(Exact, if op.AndOp? then And3(x.before, y.before) else Or3(x.before, y.before), o)
  {
    hide NumberToF64, FoldBooleanIdentity, SimplifyBinary, LiteralOutcome, NumbersKeep, UnitKeeps, DecidesAlike, DropsRight,
      DropsLeft;
    ConnectiveRefines(x.before, x.after, y.before, y.after);
    ConnectiveByCases(x.folded, op, y.folded);
    if FoldBooleanIdentity(x.folded, op, y.folded).Some? {
      BooleanIdentityIsFaithful(eng, x.folded, x.after, op, y.folded, y.after);
    } else {
      FolderLiterals(eng, 0, ZERO, true);
      FolderLiterals(eng, 0, ZERO, false);
    }
  }

  /** The pair of operands is compared the same before and after. */
  predicate PairKeeps(a: Outcome<Value>, l: Outcome<Value>, b: Outcome<Value>, r: Outcome<Value>) {
    a.Ok? && b.Ok? && l.Ok? && r.Ok? ==> (l == a && r == b) || Comparable(l.value, r.value)
  }

  lemma CompareStands(
    eng: Engine, rel: Relation, a: Outcome<Value>, l: Outcome<Value>, b: Outcome<Value>, r: Outcome<Value>)
    requires Refines(Numeric, a, l) && Refines(Numeric, b, r) && PairKeeps(a, l, b, r)
    ensures Refines(Exact, Compare3(eng, rel, a, b), Compare3(eng, rel, l, r))
  {
    hide Holds;
  }

  lemma OrderNodeRefines(eng: Engine, x: Side, op: BinaryOperator, y: Side, o: Outcome<Value>)
    requires op.Order? && SimplifyBinary(x.folded, op, y.folded).Some?
    requires x.Sound(eng) && y.Sound(eng) && NodeKeeps(eng, Exact, x, op, y) && NodeDenotes(eng, x, op, y, o)
    ensures Refines(Exact, Compare3(eng, op.rel, x.before, y.before), o)
  {
    hide Round, NumberToF64, OrdersKeep, Holds, IsNumberLiteral, ToF64, LiteralOutcome, DecidesAlike;
    FolderLiterals(eng, 0, ZERO, Holds(op.rel, CompareValues(x.folded.value, y.folded.value).value));
    if x.before.Ok? && y.before.Ok? {
      ReadPairKeeps(eng, x, y, op.rel);
      CompareStands(eng, op.rel, x.before, x.after, y.before, y.after);
      LiteralsOrderIff(eng, x.folded, op.rel, y.folded);
    }
  }

  /** What the folder can compare, and the database reads, is the same before and after. */
  lemma ReadPairKeeps(eng: Engine, x: Side, y: Side, rel: Relation)
    requires x.Sound(eng) && y.Sound(eng) && BothLiterals(x.folded, y.folded)
    requires CompareValues(x.folded.value, y.folded.value).Some?
    requires DecidesAlike(eng, x.folded, rel, y.folded)
    ensures PairKeeps(x.before, x.after, y.before, y.after)
    ensures x.IsRead(eng) && y.IsRead(eng)
  {
    hide NumberToF64, ToF64, LiteralOutcome, OrdersKeep, OrderStrings, Holds, Round;
  }

  lemma LikeDoesNotFold(left: Expression, op: BinaryOperator, right: Expression)
    ensures op.LikeOp? || op.ILikeOp? ==> SimplifyBinary(left, op, right).None?
  {
    hide IsNumberLiteral;
  }

  lemma BinaryByCases(eng: Engine, op: BinaryOperator, a: Outcome<Value>, b: Outcome<Value>)
    ensures IsArithmetic(op) ==> Binary(eng, op, a, b) == Calculate(eng, op, a, b)
    ensures op.AndOp? ==> Binary(eng, op, a, b) == And3(a, b)
    ensures op.OrOp? ==> Binary(eng, op, a, b) == Or3(a, b)
    ensures op.Order? ==> Binary(eng, op, a, b) == Compare3(eng, op.rel, a, b)
    ensures op.LikeOp? ==> Binary(eng, op, a, b) == Match3(eng, ByLike, a, b)
    ensures op.ILikeOp? ==> Binary(eng, op, a, b) == Match3(eng, ByILike, a, b)
  {
    hide Calculate, And3, Or3, Compare3, Match3;
  }

  /** A node that folds, over operands that stand for the original ones, keeps its value. */
  lemma SimplifiedBinaryRefines(
    eng: Engine, k: Fidelity, x: Side, op: BinaryOperator, y: Side, o: Outcome<Value>)
    requires SimplifyBinary(x.folded, op, y.folded).Some?
    requires x.Sound(eng) && y.Sound(eng) && NodeKeeps(eng, k, x, op, y) && NodeDenotes(eng, x, op, y, o)
    ensures Refines(k, Binary(eng, op, x.before, y.before), o)
  {
    hide NumberToF64, Calculate, NumbersKeep, UnitKeeps, SimplifyBinary, LiteralOutcome, Binary, And3, Or3, Compare3,
      Match3, Side.Sound, NodeDenotes, KeptKeeps, DecidesAlike, DropsRight, DropsLeft, Reads, FoldBooleanIdentity, StandsFor;
    BinaryByCases(eng, op, x.before, y.before);
    LikeDoesNotFold(x.folded, op, y.folded);
    if IsArithmetic(op) {
      ArithmeticNodeRefines(eng, k, x, op, y, o);
    } else if op.Order? {
      OrderNodeRefines(eng, x, op, y, o);
      ExactIsEnough(k, Compare3(eng, op.rel, x.before, y.before), o);
    } else {
      BooleanNodeRefines(eng, x, op, y, o);
      ExactIsEnough(k, Binary(eng, op, x.before, y.before), o);
    }
  }

  lemma ExactIsEnough(k: Fidelity, a: Outcome<Value>, b: Outcome<Value>)
    ensures Refines(Exact, a, b) ==> Refines(k, a, b)
    ensures a == b ==> Refines(k, a, b)
  {
  }

  /** Arithmetic on integers that were doubles before. */
  lemma RetaggedRefines(eng: Engine, k: Fidelity, op: BinaryOperator, a: Value, l: Value, b: Value, r: Value)
    requires IsArithmetic(op) && StandsFor(Numeric, a, l) && StandsFor(Numeric, b, r)
    requires (l != a || r != b) && RetaggedKeeps(k, op, l, r)
    ensures Refines(k, Calculate(eng, op, Ok(a), Ok(b)), Calculate(eng, op, Ok(l), Ok(r)))
  {
    if l.VInt? && r.VInt? {
      IntegersWereDoubles(eng, k, op, a, l.i, b, r.i);
    } else if IsNumber(l) && IsNumber(r) {
      WithFloat(eng, op, a, b);
      WithFloat(eng, op, l, r);
      hide Calculate, CalculateFloats;
    } else {
      hide CalculateFloats, CalculateIntegers;
    }
  }

  lemma IntegersWereDoubles(eng: Engine, k: Fidelity, op: BinaryOperator, a: Value, i: int, b: Value, j: int)
    requires IsArithmetic(op) && IsNumber(a) && IsNumber(b) && (a.VFloat? || b.VFloat?)
    requires Quantity(a) == i as real && Quantity(b) == j as real && RetaggedKeeps(k, op, VInt(i), VInt(j))
    ensures Refines(k, Calculate(eng, op, Ok(a), Ok(b)), Calculate(eng, op, Ok(VInt(i)), Ok(VInt(j))))
  {
    hide Round, ToF64, Unrounded, IntegerResult;
    DoubleIsKept(i as real);
    DoubleIsKept(j as real);
    FloatsCalculate(eng, op, a, i as real, b, j as real);
    if IntegerResult(i, op, j).Some? {
      IntegersAreReals(i, op, j);
      DoubleIsKept(IntegerResult(i, op, j).value as real);
    } else {
      NoQuotient(i, op, j);
    }
  }

  lemma NoQuotient(i: int, op: BinaryOperator, j: int)
    requires IsArithmetic(op) && IntegerResult(i, op, j).None? && !(op.Div? && j != 0)
    ensures Unrounded(i as real, op, j as real).None?
  {
  }

  lemma MatchIsStrict(eng: Engine, a: Outcome<Value>, b: Outcome<Value>)
    ensures a.Err? || b.Err? ==> forall how :: Match3(eng, how, a, b).Err?
  {
  }

  /** A node that stays keeps its value too. */
  lemma KeptBinaryRefines(eng: Engine, k: Fidelity, x: Side, op: BinaryOperator, y: Side)
    requires SimplifyBinary(x.folded, op, y.folded).None?
    requires x.Sound(eng) && y.Sound(eng) && NodeKeeps(eng, k, x, op, y)
    ensures Refines(k, Binary(eng, op, x.before, y.before), Binary(eng, op, x.after, y.after))
  {
    hide NumberToF64, Calculate, SimplifyBinary, LiteralOutcome, Binary, And3, Or3, Compare3, Match3, RetaggedKeeps,
      DecidesAlike, DropsRight, DropsLeft, NumbersKeep, UnitKeeps, Denotes;
    BinaryByCases(eng, op, x.before, y.before);
    BinaryByCases(eng, op, x.after, y.after);
    CalculateIsStrict(eng, op, x.before, y.before);
    MatchIsStrict(eng, x.before, y.before);
    if op.AndOp? || op.OrOp? {
      ConnectiveRefines(x.before, x.after, y.before, y.after);
    } else if op.Order? {
      CompareStands(eng, op.rel, x.before, x.after, y.before, y.after);
    } else if x.before.Ok? && y.before.Ok? && !(x.after == x.before && y.after == y.before) {
      RetaggedRefines(eng, k, op, x.before.value, x.after.value, y.before.value, y.after.value);
    }
  }
}
