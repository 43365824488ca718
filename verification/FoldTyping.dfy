/**
 Where a database parts from the folder's reading of literals: declared types other than the
 JSON value's own, collations, integer division, and double units over integer columns.
 */
module FoldTyping {
  import opened Prelude
  import opened Binary64
  import opened Json
  import opened Ast
  import opened Values
  import opened Fold
  import opened Semantics
  import opened FoldExpressionMeaning
  import opened FoldPredicateMeaning
  import opened FoldMeaning
  import opened FoldLimits

  // ---- one node over leaves -----------------------------------------------

  lemma SoundBinary(
    eng: Engine, left: Expression, op: BinaryOperator, right: Expression, form: FalseForm, k: Fidelity,
    rows: set<Row>, row: Row)
    ensures SoundExpression(eng, BinaryOp(left, op, right), form, k, rows, row) <==>
      && SoundExpression(eng, left, form, Numeric, rows, row)
      && SoundExpression(eng, right, form, Numeric, rows, row)
      && NodeKeeps(eng, k, SideOf(eng, left, form, rows, row), op, SideOf(eng, right, form, rows, row))
  {
    hide NodeKeeps, SideOf, Round;
  }

  lemma LiteralSide(eng: Engine, v: Json, t: DataType, form: FalseForm, rows: set<Row>, row: Row)
    ensures var o := LiteralOutcome(eng, v, t);
            SideOf(eng, Literal(v, t), form, rows, row) == Side(o, Literal(v, t), o)
    ensures SoundExpression(eng, Literal(v, t), form, Numeric, rows, row)
  {
    hide LiteralOutcome, Round;
  }

  lemma ColumnSide(eng: Engine, table: Option<string>, column: string, form: FalseForm, rows: set<Row>, row: Row)
    requires (table, column) in row
    ensures var x, o := ColumnRef(table, column), Ok(row[(table, column)]);
            SideOf(eng, x, form, rows, row) == Side(o, x, o)
    ensures SoundExpression(eng, ColumnRef(table, column), form, Numeric, rows, row)
  {
    hide Round;
  }

  /** One unfolding of the evaluator and the folder. */
  lemma BinaryUnfolds(
    eng: Engine, left: Expression, op: BinaryOperator, right: Expression, form: FalseForm, rows: set<Row>, row: Row)
    ensures Eval(eng, BinaryOp(left, op, right), rows, row)
         == Binary(eng, op, Eval(eng, left, rows, row), Eval(eng, right, rows, row))
    ensures FoldExpression(BinaryOp(left, op, right), form)
         == BinaryNode(FoldExpression(left, form), op, FoldExpression(right, form))
  {
    hide Binary, BinaryNode, Round;
  }

  // ---- declared types -----------------------------------------------------

  /** A literal is read alike by every engine if and only if its declared type is the JSON value's own. */
  lemma PlainIffReadEverywhere(some: Engine, v: Json, t: DataType)
    ensures IsPlain(v, t) <==> forall eng :: Reads(eng, v, t)
  {
    hide Reads, IsPlain;
    if IsPlain(v, t) {
      forall eng ensures Reads(eng, v, t) { PlainIsRead(eng, v, t); }
    } else {
      var eng := some.(literal := (j, d) => Err);
      OtherIsLeftToEngine(eng, v, t);
      assert !Reads(eng, v, t);
    }
  }

  /** A comparison of two literals that is true in the database, but false to the folder. */
  ghost predicate DecidedApart(eng: Engine, l: Expression, rel: Relation, r: Expression) {
    && BothLiterals(l, r) && CompareValues(l.value, r.value).Some?
    && !Holds(rel, CompareValues(l.value, r.value).value)
    && Compare3(eng, rel, LiteralOutcome(eng, l.value, l.dataType), LiteralOutcome(eng, r.value, r.dataType))
         == Ok(VBool(true))
  }

  /** Its negation is false, but folds to true; the mode tells. */
  lemma NegationIsLost(
    eng: Engine, l: Expression, rel: Relation, r: Expression, form: FalseForm, rows: set<Row>, row: Row)
    requires DecidedApart(eng, l, rel, r)
    ensures var p := Not(Comparison(l, Compare(rel), r));
            && EvalPredicate(eng, p, rows, row) == Ok(VBool(false))
            && FoldPredicate(p, form) == BoolPredicate(true, form)
            && EvalPredicate(eng, FoldPredicate(p, form), rows, row) == Ok(VBool(true))
            && (l.value != r.value ==> ModeOf(eng, p, form).Misread?)
  {
    hide Round, BoolPredicate, CompareValues, LiteralOutcome, Compare3, Holds, Reads, OrdersKeep, DecidesAlike;
    ConstantsAreSpelled(eng, BoolPredicate(true, form), rows, row);
    BoolPredicateIsConstant(eng, true, form, EvalPredicate(eng, BoolPredicate(true, form), rows, row));
    var c := Comparison(l, Compare(rel), r);
    ConstantsAreSpelled(eng, c, rows, row);
    LiteralsStayCompared(l, rel, r, form);
    if DecidesAlike(eng, l, rel, r) {
      DecidedReads(eng, l, rel, r);
      LiteralsOrderIff(eng, l, rel, r);
    }
  }

  lemma LiteralsStayCompared(l: Expression, rel: Relation, r: Expression, form: FalseForm)
    requires BothLiterals(l, r)
    ensures FoldPredicate(Comparison(l, Compare(rel), r), form) == Comparison(l, Compare(rel), r)
  {
  }

  lemma DecidedReads(eng: Engine, l: Expression, rel: Relation, r: Expression)
    requires BothLiterals(l, r) && DecidesAlike(eng, l, rel, r)
    ensures Reads(eng, l.value, l.dataType) && Reads(eng, r.value, r.dataType)
  {
    hide Reads, OrdersKeep, Round;
  }

  lemma LexicalOrder()
    ensures OrderStrings("10", "9") == Less
    ensures OrderStrings("a", "A") == Greater
  {
  }

  /** `'10' > '9'` between decimals is true, but the folder compares the characters. */
  lemma DecimalsAreDecidedApart(eng: Engine, x: Json, y: Json)
    requires eng.literal(Str("10"), Decimal) == Ok(VOther(Decimal, x))
    requires eng.literal(Str("9"), Decimal) == Ok(VOther(Decimal, y))
    requires eng.compare(Gt, VOther(Decimal, x), VOther(Decimal, y)) == Ok(VBool(true))
    ensures DecidedApart(eng, Literal(Str("10"), Decimal), Gt, Literal(Str("9"), Decimal))
  {
    hide Round, OrderStrings;
    LexicalOrder();
  }

  /** `'a' = 'A'` is true where case is ignored, but the folder compares the characters. */
  lemma CasesAreDecidedApart(eng: Engine)
    requires eng.collate("a", "A") == Equal
    ensures DecidedApart(eng, Literal(Str("a"), String), Eq, Literal(Str("A"), String))
  {
    hide Round, OrderStrings;
    LexicalOrder();
  }

  /** Two literals declared Decimal under an operation that folds. */
  function Decimals(m: Number, op: BinaryOperator, n: Number): Expression {
    BinaryOp(Literal(Num(m), Decimal), op, Literal(Num(n), Decimal))
  }

  /** Decimals such as `0.1 + 0.2` are computed in binary64: the result is no decimal any more. */
  lemma DecimalSumIsLost(
    eng: Engine, x: Value, m: Number, op: BinaryOperator, y: Value, n: Number, w: Value,
    form: FalseForm, rows: set<Row>, row: Row)
    requires eng.literal(Num(m), Decimal) == Ok(x) && eng.literal(Num(n), Decimal) == Ok(y)
    requires x.VOther? && y.VOther? && w.VOther? && eng.calculate(op, x, y) == Ok(w)
    requires IsArithmetic(op) && FoldArithmetic(Num(m), op, Num(n)).Some?
    requires !DropsRight(op, Literal(Num(n), Decimal)) && !DropsLeft(Literal(Num(m), Decimal), op)
    ensures var e := Decimals(m, op, n);
            && Eval(eng, e, rows, row) == Ok(w)
            && FoldExpression(e, form) == FoldArithmetic(Num(m), op, Num(n)).value
            && !Refines(Numeric, Ok(w), Eval(eng, FoldExpression(e, form), rows, row))
            && !SoundExpression(eng, e, form, Numeric, rows, row)
  {
    hide Round, NumberToF64, Arithmetic, FoldArithmetic, DropsRight, DropsLeft, SimplifyBinary, NumbersKeep, Eval,
      FoldExpression, SoundExpression, SideOf, Written;
    var l, r := Literal(Num(m), Decimal), Literal(Num(n), Decimal);
    SoundBinary(eng, l, op, r, form, Numeric, rows, row);
    BinaryUnfolds(eng, l, op, r, form, rows, row);
    SidesAre(eng, l, form, rows, row);
    SidesAre(eng, r, form, rows, row);
    LiteralSide(eng, Num(m), Decimal, form, rows, row);
    LiteralSide(eng, Num(n), Decimal, form, rows, row);
    ArithmeticByCases(l, op, r);
    FoldedValue(eng, m, op, n);
    WrittenIsNumber();
    var e := FoldArithmetic(Num(m), op, Num(n)).value;
    LiteralSide(eng, e.value, e.dataType, form, rows, row);
    SidesAre(eng, e, form, rows, row);
  }

  lemma SidesAre(eng: Engine, e: Expression, form: FalseForm, rows: set<Row>, row: Row)
    ensures SideOf(eng, e, form, rows, row)
         == Side(Eval(eng, e, rows, row), FoldExpression(e, form), Eval(eng, FoldExpression(e, form), rows, row))
  {
    hide Eval, FoldExpression;
  }

  lemma WrittenIsNumber()
    ensures forall v, asInteger :: IsNumber(Written(v, asInteger))
  {
    hide CastI64;
  }

  // ---- division -----------------------------------------------------------

  /** 1 / 2 is 0 to a database that divides integers, but folds to 0.5. */
  lemma QuotientIsLost(eng: Engine, form: FalseForm, rows: set<Row>, row: Row)
    requires eng.calculate(Div, VInt(1), VInt(2)) == Ok(VInt(0))
    ensures IsDouble(0.5)
    ensures var e := BinaryOp(IntLiteral(1), Div, IntLiteral(2));
            && Eval(eng, e, rows, row) == Ok(VInt(0))
            && FoldExpression(e, form) == FloatLiteral(0.5)
            && Eval(eng, FoldExpression(e, form), rows, row) == Ok(VFloat(0.5))
  {
    Halves();
    hide Round, NumberToF64, Arithmetic, SimplifyBinary, FoldArithmetic, LiteralOutcome;
    var l, r := IntLiteral(1), IntLiteral(2);
    ArithmeticByCases(l, Div, r);
    FoldedNumbers(IntNumber(1), Div, IntNumber(2));
    assert FoldExpression(l, form) == l && FoldExpression(r, form) == r;
    FolderLiterals(eng, 1, 0.5, true);
    FolderLiterals(eng, 2, 0.5, true);
  }

  lemma Halves()
    ensures IsDouble(0.5) && IsDouble(1.0) && IsDouble(2.0)
    ensures NumberToF64(IntNumber(1)) == 1.0 && NumberToF64(IntNumber(2)) == 2.0
    ensures Arithmetic(1.0, Div, 2.0) == Some(0.5)
  {
    IntLiteralIsExact(1);
    IntLiteralIsExact(2);
    PowerIsDouble(1);
    OneHalving(1.0);
    assert ScaleDown(1.0, 1) == 0.5;
    DoubleIsKept(0.5);
    hide Round;
  }

  // ---- units --------------------------------------------------------------

  /** A column times a literal that the folder reads as 1. */
  function TimesOne(table: Option<string>, column: string, one: Number, t: DataType): Expression {
    BinaryOp(ColumnRef(table, column), Mul, Literal(Num(one), t))
  }

  /**
   With a one that is declared Float, over a number in the column, dropping it is sound, and right,
   exactly if that is no integer or, numerically, an integer that is a double.
   */
  lemma FloatUnitIsSoundIff(
    eng: Engine, table: Option<string>, column: string, one: Number, form: FalseForm, k: Fidelity,
    rows: set<Row>, row: Row)
    requires NumberToF64(one) == 1.0
    requires (table, column) in row && IsNumber(row[(table, column)])
    ensures
      var e, u := TimesOne(table, column, one, Float), row[(table, column)];
      && FoldExpression(e, form) == ColumnRef(table, column)
      && (SoundExpression(eng, e, form, k, rows, row) <==> (u.VInt? ==> k.Numeric? && IsDouble(u.i as real)))
      && (ToF64(Quantity(u)).Some? ==>
            (Refines(k, Eval(eng, e, rows, row), Eval(eng, FoldExpression(e, form), rows, row))
             <==> SoundExpression(eng, e, form, k, rows, row)))
  {
    hide Round, NumberToF64, SimplifyBinary, Reads, IsDouble, ToF64, Calculate, Eval, FoldExpression, SoundExpression,
      SideOf;
    var x, z := ColumnRef(table, column), Literal(Num(one), Float);
    var u := row[(table, column)];
    SoundBinary(eng, x, Mul, z, form, k, rows, row);
    BinaryUnfolds(eng, x, Mul, z, form, rows, row);
    SidesAre(eng, x, form, rows, row);
    SidesAre(eng, z, form, rows, row);
    ColumnSide(eng, table, column, form, rows, row);
    LiteralSide(eng, Num(one), Float, form, rows, row);
    assert DropsRight(Mul, z);
    ArithmeticByCases(x, Mul, z);
    PlainIsRead(eng, Num(one), Float);
    UnitIsDroppedIff(eng, k, Mul, true, u, VFloat(ONE), u);
  }

  /** On 2^53 + 1 in the column, times one is 2^53, and folds to the column itself. */
  lemma FloatUnitRounds(
    eng: Engine, table: Option<string>, column: string, one: Number, form: FalseForm, rows: set<Row>, row: Row)
    requires NumberToF64(one) == 1.0
    requires (table, column) in row && row[(table, column)] == VInt(BEYOND)
    ensures
      var e := TimesOne(table, column, one, Float);
      && IsDouble(LIMIT as real)
      && Eval(eng, e, rows, row) == Ok(VFloat(LIMIT as real))
      && Eval(eng, FoldExpression(e, form), rows, row) == Ok(VInt(BEYOND))
      && !SoundExpression(eng, e, form, Numeric, rows, row)
  {
    hide Round, NumberToF64, Calculate, IsDouble, ToF64, SoundExpression;
    BeyondRoundsDown();
    NumberRounds(IntNumber(BEYOND));
    FloatUnitIsSoundIff(eng, table, column, one, form, Numeric, rows, row);
    UnitOfFloats(eng, Mul, true, VInt(BEYOND), VFloat(ONE));
  }

  // ---- doubles written as integers ----------------------------------------

  lemma SmallDoubles()
    ensures IsDouble(2.0) && IsDouble(3.0) && IsDouble(5.0)
    ensures Arithmetic(2.0, Add, 3.0) == Some(5.0)
  {
    SmallIntegerIsDouble(2);
    SmallIntegerIsDouble(3);
    SmallIntegerIsDouble(5);
    DoubleIsKept(5.0);
    hide Round;
  }

  /** `2.0 + 3.0`, which folds to the Int literal 5. */
  function FiveInDoubles(): Expression {
    SmallDoubles();
    BinaryOp(FloatLiteral(2.0), Add, FloatLiteral(3.0))
  }

  lemma FiveFolds(eng: Engine, form: FalseForm, rows: set<Row>, row: Row)
    ensures IsDouble(5.0)
    ensures SideOf(eng, FiveInDoubles(), form, rows, row) == Side(Ok(VFloat(5.0)), IntLiteral(5), Ok(VInt(5)))
    ensures SoundExpression(eng, FiveInDoubles(), form, Numeric, rows, row)
  {
    SmallDoubles();
    hide Round, NumberToF64, Arithmetic, SimplifyBinary, FoldArithmetic, LiteralOutcome, Reads, ToF64, Eval, FoldExpression,
      SoundExpression, SideOf;
    var l, r := FloatLiteral(2.0), FloatLiteral(3.0);
    SoundBinary(eng, l, Add, r, form, Numeric, rows, row);
    BinaryUnfolds(eng, l, Add, r, form, rows, row);
    SidesAre(eng, l, form, rows, row);
    SidesAre(eng, r, form, rows, row);
    SidesAre(eng, FiveInDoubles(), form, rows, row);
    LiteralSide(eng, l.value, Float, form, rows, row);
    LiteralSide(eng, r.value, Float, form, rows, row);
    LiteralSide(eng, IntLiteral(5).value, Int, form, rows, row);
    SidesAre(eng, IntLiteral(5), form, rows, row);
    FloatIsItself(2.0);
    FloatIsItself(3.0);
    ArithmeticByCases(l, Add, r);
    FoldedNumbers(FloatNumber(2.0), Add, FloatNumber(3.0));
    FolderLiterals(eng, 5, 2.0, true);
    FolderLiterals(eng, 5, 3.0, true);
    PlainIsRead(eng, l.value, Float);
    PlainIsRead(eng, r.value, Float);
    DoubleIsKept(2.0);
    DoubleIsKept(3.0);
    FloatsCalculate(eng, Add, VFloat(2.0), 2.0, VFloat(3.0), 3.0);
  }

  /** Added to a number in a column it is sound exactly if an integer there, and the sum, are doubles. */
  lemma RetaggedSumIsSoundIff(
    eng: Engine, table: Option<string>, column: string, form: FalseForm, k: Fidelity, rows: set<Row>, row: Row)
    requires (table, column) in row && IsNumber(row[(table, column)])
    ensures
      var u := row[(table, column)];
      SoundExpression(eng, BinaryOp(ColumnRef(table, column), Add, FiveInDoubles()), form, k, rows, row)
      <==> (u.VInt? ==> k.Numeric? && IsDouble(u.i as real) && IsDouble((u.i + 5) as real))
  {
    hide Round, NumberToF64, SimplifyBinary, IsDouble, LiteralOutcome, FiveInDoubles, Eval, FoldExpression,
      SoundExpression, SideOf;
    SoundBinary(eng, ColumnRef(table, column), Add, FiveInDoubles(), form, k, rows, row);
    ColumnSide(eng, table, column, form, rows, row);
    FiveFolds(eng, form, rows, row);
    SmallIntegerIsDouble(5);
    IntLiteralIsExact(5);
    ArithmeticByCases(ColumnRef(table, column), Add, IntLiteral(5));
  }
}
