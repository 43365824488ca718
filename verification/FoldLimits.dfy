/**
 Where folding constants is exact, and inputs on which it is not. Predicates are in
 `FoldEncoding`.
 */
module FoldLimits {
  import opened Prelude
  import opened Binary64
  import opened Json
  import opened Ast
  import opened Values
  import opened Fold
  import opened Semantics
  import opened FoldExpressionMeaning
  import opened FoldPredicateMeaning
  import opened FoldMeaning

  // ---- integer constants --------------------------------------------------

  /** A tree of +, - and * over Int literals. */
  predicate ClosedIntegers(e: Expression) {
    match e
    case Literal(Num(IntNumber(_)), Int) => true
    case BinaryOp(l, op, r) => (op.Add? || op.Sub? || op.Mul?) && ClosedIntegers(l) && ClosedIntegers(r)
    case _ => false
  }

  /** Its value in the integers. */
  function ExactValue(e: Expression): int
    requires ClosedIntegers(e)
  {
    match e
    case Literal(v, _) => v.n.i
    case BinaryOp(l, op, r) =>
      if op.Add? then ExactValue(l) + ExactValue(r)
      else if op.Sub? then ExactValue(l) - ExactValue(r)
      else ExactValue(l) * ExactValue(r)
  }

  /** At most 2^53 in magnitude. */
  predicate InRange(i: int) {
    -(LIMIT as int) <= i <= LIMIT
  }

  /** No literal and no intermediate result exceeds 2^53 in magnitude. */
  predicate Within53Bits(e: Expression)
    requires ClosedIntegers(e)
  {
    InRange(ExactValue(e)) && (e.BinaryOp? ==> Within53Bits(e.left) && Within53Bits(e.right))
  }

  lemma IntLiteralIsExact(i: int)
    requires InRange(i)
    ensures NumberToF64(IntNumber(i)) == i as real
  {
    SmallIntegerIsDouble(i);
  }

  lemma ExactArithmetic(a: int, op: BinaryOperator, b: int, c: int, x: F64, y: F64)
    requires InRange(c) && x == a as real && y == b as real
    requires IntegerResult(a, op, b) == Some(c)
    ensures IsDouble(c as real) && Arithmetic(x, op, y) == Some(c as real)
  {
    hide Round, ToF64, Unrounded, IntegerResult;
    SmallIntegerIsDouble(c);
    IntegersAreReals(a, op, b);
    DoubleIsKept(c as real);
  }

  lemma IdentityIsExact(a: int, op: BinaryOperator, b: int, c: int)
    requires InRange(a) && InRange(b) && InRange(c) && (op.Add? || op.Sub? || op.Mul?)
    requires IntegerResult(a, op, b) == Some(c)
    ensures var s := FoldAlgebraicIdentity(IntLiteral(a), op, IntLiteral(b));
            s.Some? ==> s.value == IntLiteral(c)
  {
    hide Round, NumberToF64, FoldAlgebraicIdentity;
    IntLiteralIsExact(a);
    IntLiteralIsExact(b);
    IdentityByCases(IntLiteral(a), op, IntLiteral(b));
    if DropsRight(op, IntLiteral(b)) {
      UnitIsExact(b, Unit(op));
    } else if DropsLeft(IntLiteral(a), op) {
      UnitIsExact(a, Unit(op));
    }
  }

  lemma CastOfInteger(c: int, v: F64)
    requires InRange(c) && v == c as real
    ensures IsIntegral(v) && CastI64(v) == c
  {
    hide Round;
  }

  lemma LiteralsFoldExactly(a: int, op: BinaryOperator, b: int, c: int)
    requires InRange(a) && InRange(b) && InRange(c) && (op.Add? || op.Sub? || op.Mul?)
    requires IntegerResult(a, op, b) == Some(c)
    ensures FoldBinary(IntLiteral(a).value, op, IntLiteral(b).value) == Some(IntLiteral(c))
  {
    hide Round, NumberToF64, Arithmetic, IsIntegral, CastI64, IntegerResult;
    IntLiteralIsExact(a);
    IntLiteralIsExact(b);
    var x, y := NumberToF64(IntNumber(a)), NumberToF64(IntNumber(b));
    ExactArithmetic(a, op, b, c, x, y);
    CastOfInteger(a, x);
    CastOfInteger(b, y);
    CastOfInteger(c, Arithmetic(x, op, y).value);
  }

  lemma ExactResultFolds(a: int, op: BinaryOperator, b: int, c: int)
    requires InRange(a) && InRange(b) && InRange(c) && (op.Add? || op.Sub? || op.Mul?)
    requires IntegerResult(a, op, b) == Some(c)
    ensures BinaryNode(IntLiteral(a), op, IntLiteral(b)) == IntLiteral(c)
  {
    hide Round, FoldAlgebraicIdentity, FoldBinary, IntegerResult;
    IdentityIsExact(a, op, b, c);
    LiteralsFoldExactly(a, op, b, c);
  }

  /**
   Integer constants fold to the exact integer, although the folder computes in binary64
   and casts back to i64.
   */
  lemma {:induction false} IntegerTreesFoldExactly(e: Expression, form: FalseForm)
    requires ClosedIntegers(e) && Within53Bits(e)
    ensures FoldExpression(e, form) == IntLiteral(ExactValue(e))
  {
    hide Round, BinaryNode, NumberToF64, FoldPlan;
    if e.BinaryOp? {
      IntegerTreesFoldExactly(e.left, form);
      IntegerTreesFoldExactly(e.right, form);
      ExactResultFolds(ExactValue(e.left), e.op, ExactValue(e.right), ExactValue(e));
    }
  }

  lemma {:induction false} IntegerTreesEvaluate(eng: Engine, e: Expression, rows: set<Row>, row: Row)
    requires ClosedIntegers(e)
    ensures Eval(eng, e, rows, row) == Ok(VInt(ExactValue(e)))
    decreases e
  {
    hide Round;
    if e.BinaryOp? {
      IntegerTreesEvaluate(eng, e.left, rows, row);
      IntegerTreesEvaluate(eng, e.right, rows, row);
    }
  }

  /** An Int literal that stands for itself. */
  function IntSide(i: Word): Side {
    Side(Ok(VInt(i)), IntLiteral(i), Ok(VInt(i)))
  }

  lemma SmallIntegersKeep(eng: Engine, k: Fidelity, a: int, op: BinaryOperator, b: int, c: int)
    requires InRange(a) && InRange(b) && InRange(c) && (op.Add? || op.Sub? || op.Mul?)
    requires IntegerResult(a, op, b) == Some(c)
    ensures NodeKeeps(eng, k, IntSide(a), op, IntSide(b))
  {
    hide Round, NumberToF64, Arithmetic, IntegerResult, DropsRight, DropsLeft, LiteralOutcome, Reads, IsDouble, BinaryNode,
      SimplifyBinary, Short;
    SmallIntegerIsDouble(a);
    SmallIntegerIsDouble(b);
    PlainIsRead(eng, IntLiteral(a).value, Int);
    PlainIsRead(eng, IntLiteral(b).value, Int);
    SmallFits(c);
    NodeFolds(a, op, b, c);
  }

  lemma SmallFits(c: int)
    requires InRange(c)
    ensures Fits(c)
  {
  }

  lemma NodeFolds(a: int, op: BinaryOperator, b: int, c: int)
    requires InRange(a) && InRange(b) && InRange(c) && (op.Add? || op.Sub? || op.Mul?)
    requires IntegerResult(a, op, b) == Some(c)
    ensures SimplifyBinary(IntLiteral(a), op, IntLiteral(b)).Some?
  {
    hide Round, SimplifyBinary, IntegerResult;
    ExactResultFolds(a, op, b, c);
  }

  /** Such trees meet the condition for folding to be faithful, to either fidelity, in every row. */
  lemma {:induction false} IntegerTreesAreSound(
    eng: Engine, e: Expression, form: FalseForm, k: Fidelity, rows: set<Row>, row: Row)
    requires ClosedIntegers(e) && Within53Bits(e)
    ensures SoundExpression(eng, e, form, k, rows, row)
    decreases e
  {
    hide Round, NumberToF64, NodeKeeps, LiteralOutcome, FoldPlan, Binary, BinaryNode;
    if e.BinaryOp? {
      IntegerSide(eng, e.left, form, rows, row);
      IntegerSide(eng, e.right, form, rows, row);
      IntegerTreesAreSound(eng, e.left, form, Numeric, rows, row);
      IntegerTreesAreSound(eng, e.right, form, Numeric, rows, row);
      SmallIntegersKeep(eng, k, ExactValue(e.left), e.op, ExactValue(e.right), ExactValue(e));
    }
  }

  lemma IntegerSide(eng: Engine, e: Expression, form: FalseForm, rows: set<Row>, row: Row)
    requires ClosedIntegers(e) && Within53Bits(e)
    ensures SideOf(eng, e, form, rows, row) == IntSide(ExactValue(e))
  {
    hide FoldExpression, Round, ClosedIntegers, Within53Bits, Binary;
    IntegerTreesFoldExactly(e, form);
    IntegerTreesEvaluate(eng, e, rows, row);
  }

  // ---- integers beyond 53 bits --------------------------------------------

  // 2^53 + 1, the first integer that is no double.
  const BEYOND: int := 0x20_0000_0000_0001

  lemma BeyondRoundsDown()
    ensures NumberToF64(IntNumber(BEYOND)) == LIMIT as real
    ensures !Short(Magnitude(BEYOND)) && !IsDouble(BEYOND as real)
    ensures IsDouble(LIMIT as real)
  {
    assert RoundBits(BEYOND, false, false) == 2 * RoundBits(LIMIT / 2, true, false);
    assert RoundBits(LIMIT / 2, true, false) == LIMIT / 2;
    WordAsDouble(BEYOND);
    RoundOfInteger(BEYOND);
    SmallIntegerIsDouble(LIMIT);
  }

  /** Folding two literals of these integers and looking at the result. */
  lemma FoldsTo(a: Word, op: BinaryOperator, b: Word, x: F64, y: F64, v: F64, form: FalseForm)
    requires op.Add? || op.Sub? || op.Mul?
    requires NumberToF64(IntNumber(a)) == x && NumberToF64(IntNumber(b)) == y && Arithmetic(x, op, y) == Some(v)
    requires IsIntegral(x) && IsIntegral(y) && IsIntegral(v)
    requires (op.Mul? ==> x != 1.0 && y != 1.0) && (!op.Mul? ==> x != 0.0 && y != 0.0)
    ensures FoldExpression(BinaryOp(IntLiteral(a), op, IntLiteral(b)), form) == IntLiteral(CastI64(v))
  {
    hide Round, NumberToF64, Arithmetic, IsIntegral, CastI64;
    var l, r := IntLiteral(a), IntLiteral(b);
    assert FoldExpression(l, form) == l && FoldExpression(r, form) == r;
    assert FoldAlgebraicIdentity(l, op, r).None?;
    assert FoldBinary(l.value, op, r.value) == Some(IntLiteral(CastI64(v)));
    hide FoldAlgebraicIdentity, FoldBinary, FoldBooleanIdentity;
    BooleanIdentityByOperator(l, op, r);
  }

  lemma IntegersEvaluate(eng: Engine, a: Word, op: BinaryOperator, b: Word, n: int, rows: set<Row>, row: Row)
    requires (op.Add? || op.Sub? || op.Mul?) && IntegerResult(a, op, b) == Some(n)
    ensures Eval(eng, BinaryOp(IntLiteral(a), op, IntLiteral(b)), rows, row) == Ok(VInt(n))
  {
    hide IntegerResult, Round;
  }

  /** (2^53 + 1) + 1 is 2^53 + 2, but folds to 2^53. */
  lemma SumIsLost(eng: Engine, form: FalseForm, rows: set<Row>, row: Row)
    ensures var e := BinaryOp(IntLiteral(BEYOND), Add, IntLiteral(1));
            && Eval(eng, e, rows, row) == Ok(VInt(BEYOND + 1))
            && FoldExpression(e, form) == IntLiteral(LIMIT)
            && !SoundExpression(eng, e, form, Numeric, rows, row)
  {
    hide Round, NumberToF64, Short, RoundBits;
    BeyondRoundsDown();
    IntLiteralIsExact(1);
    SumRoundsDown();
    CastOfInteger(LIMIT, LIMIT as real);
    FoldsTo(BEYOND, Add, 1, LIMIT as real, 1.0, LIMIT as real, form);
    IntegersEvaluate(eng, BEYOND, Add, 1, BEYOND + 1, rows, row);
    NotSound(eng, BEYOND, Add, 1, form, rows, row);
  }

  lemma SumRoundsDown()
    ensures IsDouble(1.0) && IsDouble(LIMIT as real)
    ensures Arithmetic(LIMIT as real, Add, 1.0) == Some(LIMIT as real)
  {
    hide Round;
    SmallIntegerIsDouble(1);
    BeyondRoundsDown();
    WordAsDouble(BEYOND);
    assert LIMIT as real + 1.0 == BEYOND as real;
  }

  lemma NotSound(eng: Engine, a: Word, op: BinaryOperator, b: Word, form: FalseForm, rows: set<Row>, row: Row)
    requires op.Add? && !IsDouble(a as real)
    requires NumberToF64(IntNumber(a)) != 0.0 && NumberToF64(IntNumber(b)) != 0.0
    requires Arithmetic(NumberToF64(IntNumber(a)), op, NumberToF64(IntNumber(b))).Some?
    ensures !SoundExpression(eng, BinaryOp(IntLiteral(a), op, IntLiteral(b)), form, Numeric, rows, row)
  {
    hide Round, NumberToF64, Arithmetic, IsDouble, Reads, IsIntegral;
    assert SideOf(eng, IntLiteral(a), form, rows, row) == IntSide(a);
    assert SideOf(eng, IntLiteral(b), form, rows, row) == IntSide(b);
    assert !NodeKeeps(eng, Numeric, IntSide(a), op, IntSide(b));
  }

  /** The rounding of two operands may cancel: (2^53 + 1) - (2^53 + 1) folds to 0 after all. */
  lemma RoundingMayCancel(form: FalseForm)
    ensures FoldExpression(BinaryOp(IntLiteral(BEYOND), Sub, IntLiteral(BEYOND)), form) == IntLiteral(0)
  {
    hide Round, NumberToF64, Short, RoundBits;
    BeyondRoundsDown();
    SmallIntegerIsDouble(0);
    DoubleIsKept(ZERO);
    assert Arithmetic(LIMIT as real, Sub, LIMIT as real) == ToF64(0.0);
    FoldsTo(BEYOND, Sub, BEYOND, LIMIT as real, LIMIT as real, ZERO, form);
  }

  /** 2^62 * 4 is 2^64, but folds to 2^63 - 1. */
  lemma LargeProductSaturates(eng: Engine, form: FalseForm, rows: set<Row>, row: Row)
    ensures var e := BinaryOp(IntLiteral(0x4000_0000_0000_0000), Mul, IntLiteral(4));
            && Eval(eng, e, rows, row) == Ok(VInt(0x1_0000_0000_0000_0000))
            && FoldExpression(e, form) == IntLiteral(TWO_63 - 1)
  {
    LargeProduct();
    hide Round, NumberToF64, Arithmetic;
    FoldsTo(0x4000_0000_0000_0000, Mul, 4, 0x4000_0000_0000_0000 as real, 4.0, 0x1_0000_0000_0000_0000 as real, form);
    IntegersEvaluate(eng, 0x4000_0000_0000_0000, Mul, 4, 0x1_0000_0000_0000_0000, rows, row);
  }

  lemma LargeProduct()
    ensures IsDouble(0x4000_0000_0000_0000 as real) && IsDouble(4.0) && IsDouble(0x1_0000_0000_0000_0000 as real)
    ensures NumberToF64(IntNumber(0x4000_0000_0000_0000)) == 0x4000_0000_0000_0000 as real
    ensures NumberToF64(IntNumber(4)) == 4.0
    ensures Arithmetic(0x4000_0000_0000_0000 as real, Mul, 4.0) == Some(0x1_0000_0000_0000_0000 as real)
  {
    TwoTo63();
    assert Pow2(63) == 2 * Pow2(62);
    assert Pow2(64) == 2 * Pow2(63);
    ShortScales(1, 62);
    ShortScales(1, 64);
    ShortWordIsDouble(Pow2(62));
    ShortWordIsDouble(Pow2(64));
    IntLiteralIsExact(4);
    hide Round;
  }

  // ---- equalities read as constants ---------------------------------------

  /**
   The folder's reading of an equality of two number literals is right exactly when the numbers
   that the database takes them for are equal or too far apart to be taken for equal.
   */
  lemma NumbersAreReadExactlyIff(
    eng: Engine, l: Expression, r: Expression, form: FalseForm, rows: set<Row>, row: Row)
    requires BothNumbers(l, r) && l.value != r.value
    requires Reads(eng, l.value, l.dataType) && Reads(eng, r.value, r.dataType)
    ensures var f := Comparison(l, Compare(Eq), r);
            && AsBoolConstant(f, form).Some?
            && (EvalPredicate(eng, f, rows, row) == Ok(VBool(AsBoolConstant(f, form).value)) <==> ReadsExactly(eng, f))
  {
    hide Round, WithinEpsilon, NumberToF64, LiteralOutcome, ToF64, EqualityKeeps;
    var f := Comparison(l, Compare(Eq), r);
    ConstantsAreSpelled(eng, f, rows, row);
    EqualNumbersAreReadIff(eng, l, r);
  }

  /** An equality of an Int literal and another number. */
  function EqualityOf(i: Word, r: Number): Predicate {
    Comparison(IntLiteral(i), Compare(Eq), Literal(Num(r), if r.IntNumber? then Int else Float))
  }

  /** 2^-60, well within epsilon of 0. */
  function Tiny(): F64 {
    PowerIsDouble(60);
    ScaleDown(1.0, 60)
  }

  lemma {:induction false} PowersFall(t: nat)
    ensures 0.0 < ScaleDown(1.0, t + 1) < ScaleDown(1.0, t)
  {
    ScalesAdd(1.0, t, 1);
    hide ScaleDown;
    assert ScaleDown(ScaleDown(1.0, t), 1) == ScaleDown(1.0, t) / 2.0 by { OneHalving(ScaleDown(1.0, t)); }
  }

  lemma TinyIsWithinEpsilon()
    ensures WithinEpsilon(ZERO, Tiny()) && Tiny() != 0.0
  {
    hide ScaleDown, Round;
    for t := 52 to 60
      invariant t > 52 ==> 0.0 < ScaleDown(1.0, t) < ScaleDown(1.0, 52)
    {
      PowersFall(t);
    }
    assert IsDouble(Tiny());
    RoundIsOdd(Tiny());
    assert ZERO - Tiny() == -Tiny();
  }

  /** `0 = 2^-60` and `2^53 + 1 = 2^53` are false, but read as true. */
  lemma EqualitiesMisread(eng: Engine, form: FalseForm, rows: set<Row>, row: Row)
    ensures var f := EqualityOf(0, FloatNumber(Tiny()));
            EvalPredicate(eng, f, rows, row) == Ok(VBool(false)) && AsBoolConstant(f, form) == Some(true)
    ensures var f := EqualityOf(BEYOND, IntNumber(LIMIT));
            EvalPredicate(eng, f, rows, row) == Ok(VBool(false)) && AsBoolConstant(f, form) == Some(true)
  {
    hide Round, WithinEpsilon, NumberToF64, Tiny;
    TinyIsWithinEpsilon();
    IntLiteralIsExact(0);
    IntLiteralIsExact(LIMIT);
    BeyondRoundsDown();
    EqualIsWithinEpsilon(LIMIT as real);
    FloatIsItself(Tiny());
    ConstantsAreSpelled(eng, EqualityOf(0, FloatNumber(Tiny())), rows, row);
    ConstantsAreSpelled(eng, EqualityOf(BEYOND, IntNumber(LIMIT)), rows, row);
  }

  lemma FloatIsItself(f: F64)
    ensures NumberToF64(FloatNumber(f)) == f
  {
  }
}
