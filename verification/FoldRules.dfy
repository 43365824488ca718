/**
 What the folder rewrites, rule by rule: which nodes, and to what. The orders and readings are
 written out, so that a rule that does not fire, or gives another operand, shows here.
 */
module FoldRules {
  import opened Prelude
  import opened Binary64
  import opened Json
  import opened Ast
  import opened Values
  import opened Fold
  import opened FoldNormalForm

  // ---- binary nodes -------------------------------------------------------

  predicate IsBool(e: Expression, b: bool) {
    e == Literal(Bool(b), Boolean)
  }

  /** A number literal worth 0 or 1, declared whatever it may be. */
  predicate IsNumber(e: Expression, n: int) {
    e.Literal? && e.value.Num? && NumberToF64(e.value.n) == n as real
  }

  predicate BothNumeric(left: Expression, right: Expression) {
    left.Literal? && right.Literal? && left.value.Num? && right.value.Num?
  }

  predicate BothStrings(left: Expression, right: Expression) {
    left.Literal? && right.Literal? && left.value.Str? && right.value.Str?
  }

  predicate BothBools(left: Expression, right: Expression) {
    left.Literal? && right.Literal? && left.value.Bool? && right.value.Bool?
  }

  /** The result of an operation on doubles is finite; a zero divisor has none. */
  predicate IsFinite(l: F64, op: BinaryOperator, r: F64) {
    match op
    case Add => Round(l + r).Some?
    case Sub => Round(l - r).Some?
    case Mul => Round(l * r).Some?
    case Div => r != 0.0 && Round(l / r).Some?
    case Mod => r != 0.0 && Round(l - r * Truncate(l / r) as real).Some?
    case _ => false
  }

  /** A rule fires at a binary node over these operands. */
  predicate Fires(left: Expression, op: BinaryOperator, right: Expression) {
    match op
    case AndOp | OrOp =>
      || (exists b :: IsBool(left, b)) || (exists b :: IsBool(right, b)) || BothBools(left, right)
    case Add => IsNumber(left, 0) || IsNumber(right, 0) || Computes(left, op, right)
    case Sub => IsNumber(right, 0) || Computes(left, op, right)
    case Mul => IsNumber(left, 1) || IsNumber(right, 1) || Computes(left, op, right)
    case Div => IsNumber(right, 1) || Computes(left, op, right)
    case Mod => Computes(left, op, right)
    case Order(_) => BothNumeric(left, right) || BothStrings(left, right) || BothBools(left, right)
    case LikeOp | ILikeOp => false
  }

  predicate Computes(left: Expression, op: BinaryOperator, right: Expression) {
    BothNumeric(left, right) && IsFinite(NumberToF64(left.value.n), op, NumberToF64(right.value.n))
  }

  lemma ZeroAndOne(e: Expression)
    ensures IsNumberLiteral(e, ZERO) <==> IsNumber(e, 0)
    ensures IsNumberLiteral(e, ONE) <==> IsNumber(e, 1)
  {
    hide Round, NumberToF64;
  }

  lemma ArithmeticFires(left: Json, op: BinaryOperator, right: Json)
    ensures FoldArithmetic(left, op, right).Some? <==>
      left.Num? && right.Num? && IsFinite(NumberToF64(left.n), op, NumberToF64(right.n))
  {
    hide Round, NumberToF64, Arithmetic, IsFinite, Truncate;
    if left.Num? && right.Num? { FiniteIff(NumberToF64(left.n), op, NumberToF64(right.n)); }
  }

  lemma FiniteIff(l: F64, op: BinaryOperator, r: F64)
    ensures Arithmetic(l, op, r).Some? <==> IsFinite(l, op, r)
  {
    hide Round, Truncate;
  }

  lemma BooleanFires(left: Expression, op: BinaryOperator, right: Expression)
    ensures FoldBooleanIdentity(left, op, right).Some? <==>
      (op.AndOp? || op.OrOp?) && ((exists b :: IsBool(left, b)) || (exists b :: IsBool(right, b)))
  {
    LiteralBool(left);
    LiteralBool(right);
  }

  lemma LiteralBool(e: Expression)
    ensures LiteralAsBool(e).Some? <==> exists b :: IsBool(e, b)
    ensures LiteralAsBool(e).Some? ==> IsBool(e, LiteralAsBool(e).value)
  {
    if LiteralAsBool(e).Some? { assert IsBool(e, LiteralAsBool(e).value); }
  }

  /** A binary node is rewritten if and only if a rule fires there. */
  lemma NodeIsRewrittenIff(left: Expression, op: BinaryOperator, right: Expression)
    ensures SimplifyBinary(left, op, right).Some? <==> Fires(left, op, right)
  {
    hide FoldBooleanIdentity, FoldArithmetic, IsNumberLiteral, IsNumber, IsFinite, NumberToF64, IsBool;
    BooleanFires(left, op, right);
    ZeroAndOne(left);
    ZeroAndOne(right);
    if left.Literal? && right.Literal? { ArithmeticFires(left.value, op, right.value); }
  }

  /** So the folder's output is free of exactly these nodes. */
  lemma NormalNodeIff(left: Expression, op: BinaryOperator, right: Expression, form: FalseForm)
    ensures NormalExpression(BinaryOp(left, op, right), form) <==>
      NormalExpression(left, form) && NormalExpression(right, form) && !Fires(left, op, right)
  {
    hide Fires, SimplifyBinary;
    NodeIsRewrittenIff(left, op, right);
  }

  // ---- identities ---------------------------------------------------------

  /** `true AND x` is `x`, `false AND x` is false, `true OR x` is true, `false OR x` is `x`, and the same mirrored. */
  lemma BooleanIdentities(b: bool, x: Expression, form: FalseForm)
    ensures
      var c, folded := Literal(Bool(b), Boolean), FoldExpression(x, form);
      && FoldExpression(BinaryOp(c, AndOp, x), form) == FoldExpression(BinaryOp(x, AndOp, c), form)
           == (if b then folded else c)
      && FoldExpression(BinaryOp(c, OrOp, x), form) == FoldExpression(BinaryOp(x, OrOp, c), form)
           == (if b then c else folded)
  {
    hide FoldExpression, BinaryNode;
    var c := Literal(Bool(b), Boolean);
    LiteralStays(Bool(b), Boolean, form);
    NodeUnfolds(c, AndOp, x, form);
    NodeUnfolds(x, AndOp, c, form);
    NodeUnfolds(c, OrOp, x, form);
    NodeUnfolds(x, OrOp, c, form);
    BooleanNodes(b, FoldExpression(x, form));
  }

  lemma LiteralStays(v: Json, t: DataType, form: FalseForm)
    ensures FoldExpression(Literal(v, t), form) == Literal(v, t)
  {
  }

  lemma NodeUnfolds(left: Expression, op: BinaryOperator, right: Expression, form: FalseForm)
    ensures FoldExpression(BinaryOp(left, op, right), form)
         == BinaryNode(FoldExpression(left, form), op, FoldExpression(right, form))
  {
    hide BinaryNode;
  }

  lemma BooleanNodes(b: bool, x: Expression)
    ensures
      var c := Literal(Bool(b), Boolean);
      && BinaryNode(c, AndOp, x) == BinaryNode(x, AndOp, c) == (if b then x else c)
      && BinaryNode(c, OrOp, x) == BinaryNode(x, OrOp, c) == (if b then c else x)
  {
    hide BinaryNode;
    AndNodes(b, x);
    OrNodes(b, x);
  }

  lemma AndNodes(b: bool, x: Expression)
    ensures
      var c := Literal(Bool(b), Boolean);
      BinaryNode(c, AndOp, x) == BinaryNode(x, AndOp, c) == (if b then x else c)
  {
    hide LiteralAsBool, FoldAlgebraicIdentity, FoldBinary;
    BoolIs(b, x);
  }

  lemma OrNodes(b: bool, x: Expression)
    ensures
      var c := Literal(Bool(b), Boolean);
      BinaryNode(c, OrOp, x) == BinaryNode(x, OrOp, c) == (if b then c else x)
  {
    hide LiteralAsBool, FoldAlgebraicIdentity, FoldBinary;
    BoolIs(b, x);
  }

  lemma BoolIs(b: bool, x: Expression)
    ensures LiteralAsBool(Literal(Bool(b), Boolean)) == Some(b)
    ensures LiteralAsBool(x).Some? ==> x == Literal(Bool(LiteralAsBool(x).value), Boolean)
  {
  }

  /** `x + 0`, `x - 0`, `x * 1` and `x / 1` are `x`; so are `0 + x` and `1 * x`, unless x is such a literal itself. */
  lemma AlgebraicIdentities(x: Expression, z: Expression, form: FalseForm)
    ensures
      var folded := FoldExpression(x, form);
      && (IsNumber(z, 0) ==>
            && FoldExpression(BinaryOp(x, Add, z), form) == FoldExpression(BinaryOp(x, Sub, z), form) == folded
            && (!IsNumber(folded, 0) ==> FoldExpression(BinaryOp(z, Add, x), form) == folded))
      && (IsNumber(z, 1) ==>
            && FoldExpression(BinaryOp(x, Mul, z), form) == FoldExpression(BinaryOp(x, Div, z), form) == folded
            && (!IsNumber(folded, 1) ==> FoldExpression(BinaryOp(z, Mul, x), form) == folded))
  {
    hide FoldExpression, BinaryNode, IsNumber;
    if IsNumber(z, 0) || IsNumber(z, 1) {
      UnitIsLiteral(z);
      LiteralStays(z.value, z.dataType, form);
      NodeUnfolds(x, Add, z, form);
      NodeUnfolds(z, Add, x, form);
      NodeUnfolds(x, Sub, z, form);
      NodeUnfolds(x, Mul, z, form);
      NodeUnfolds(z, Mul, x, form);
      NodeUnfolds(x, Div, z, form);
      AlgebraicNodes(FoldExpression(x, form), z);
    }
  }

  lemma UnitIsLiteral(z: Expression)
    requires IsNumber(z, 0) || IsNumber(z, 1)
    ensures z.Literal?
  {
    hide NumberToF64;
  }

  lemma AlgebraicNodes(x: Expression, z: Expression)
    ensures IsNumber(z, 0) ==> BinaryNode(x, Add, z) == BinaryNode(x, Sub, z) == x
    ensures IsNumber(z, 0) && !IsNumber(x, 0) ==> BinaryNode(z, Add, x) == x
    ensures IsNumber(z, 1) ==> BinaryNode(x, Mul, z) == BinaryNode(x, Div, z) == x
    ensures IsNumber(z, 1) && !IsNumber(x, 1) ==> BinaryNode(z, Mul, x) == x
  {
    hide IsNumberLiteral, IsNumber, FoldBinary;
    ZeroAndOne(z);
    ZeroAndOne(x);
  }

  // ---- comparisons of literals --------------------------------------------

  /** What a relation says of a pair of which the first is less, or equal, or neither. */
  function Says(rel: Relation, less: bool, equal: bool): bool {
    match rel
    case Eq => equal
    case Neq => !equal
    case Lt => less
    case Gte => !less
    case Lte => less || equal
    case Gt => !less && !equal
  }

  /** The folder's own verdict on two literals. */
  ghost predicate Verdict(left: Json, rel: Relation, right: Json, b: bool) {
    || (left.Num? && right.Num?
        && b == Says(rel, NumberToF64(left.n) < NumberToF64(right.n), NumberToF64(left.n) == NumberToF64(right.n)))
    || (left.Str? && right.Str? && b == Says(rel, Precedes(left.s, right.s), left.s == right.s))
    || (left.Bool? && right.Bool? && b == Says(rel, !left.b && right.b, left.b == right.b))
  }

  lemma ComparedIff(left: Json, rel: Relation, right: Json, b: bool)
    ensures CompareValues(left, right).Some? && Holds(rel, CompareValues(left, right).value) == b <==>
      Verdict(left, rel, right, b)
  {
    hide NumberToF64, OrderStrings, Precedes;
    if left.Str? && right.Str? { StringsAreOrderedIff(left.s, right.s); }
  }

  /** A comparison of two literals folds to that verdict, and its negation to the opposite. */
  lemma LiteralsCompareIff(left: Expression, rel: Relation, right: Expression, form: FalseForm, b: bool)
    requires left.Literal? && right.Literal?
    ensures FoldExpression(BinaryOp(left, Order(rel), right), form) == Literal(Bool(b), Boolean) <==>
      Verdict(left.value, rel, right.value, b)
    ensures Verdict(left.value, rel, right.value, b) ==>
      FoldPredicate(Not(Comparison(left, Compare(rel), right)), form) == BoolPredicate(!b, form)
  {
    hide Verdict, CompareValues, Holds, FoldExpression, FoldPredicate, BinaryNode, NotNode;
    LiteralStays(left.value, left.dataType, form);
    LiteralStays(right.value, right.dataType, form);
    ComparedIff(left.value, rel, right.value, b);
    NodeUnfolds(left, Order(rel), right, form);
    OrderNode(left, rel, right);
    NegationUnfolds(left, rel, right, form);
  }

  lemma OrderNode(left: Expression, rel: Relation, right: Expression)
    requires left.Literal? && right.Literal?
    ensures BinaryNode(left, Order(rel), right) ==
      match CompareValues(left.value, right.value)
      case None => BinaryOp(left, Order(rel), right)
      case Some(o) => Literal(Bool(Holds(rel, o)), Boolean)
  {
    hide CompareValues, Holds, IsNumberLiteral;
  }

  lemma NegationUnfolds(left: Expression, rel: Relation, right: Expression, form: FalseForm)
    requires left.Literal? && right.Literal?
    ensures CompareValues(left.value, right.value).Some? ==>
      FoldPredicate(Not(Comparison(left, Compare(rel), right)), form)
      == BoolPredicate(!Holds(rel, CompareValues(left.value, right.value).value), form)
  {
    hide CompareValues, Holds, BoolPredicate, FoldExpression, NotNode;
    LiteralStays(left.value, left.dataType, form);
    LiteralStays(right.value, right.dataType, form);
    NegatedNode(left, rel, right, form);
  }

  lemma NegatedNode(left: Expression, rel: Relation, right: Expression, form: FalseForm)
    requires left.Literal? && right.Literal?
    ensures CompareValues(left.value, right.value).Some? ==>
      NotNode(Comparison(left, Compare(rel), right), form)
      == BoolPredicate(!Holds(rel, CompareValues(left.value, right.value).value), form)
  {
    hide CompareValues, Holds, BoolPredicate;
  }

  /** Two numbers under an operation with a finite result fold to it, an Int literal if all three are integral. */
  lemma NumbersCompute(left: Expression, op: BinaryOperator, right: Expression, form: FalseForm)
    requires Computes(left, op, right)
    requires (op.Add? ==> !IsNumber(left, 0)) && (op.Add? || op.Sub? ==> !IsNumber(right, 0))
    requires (op.Mul? ==> !IsNumber(left, 1)) && (op.Mul? || op.Div? ==> !IsNumber(right, 1))
    ensures
      var l, r := NumberToF64(left.value.n), NumberToF64(right.value.n);
      var v := Arithmetic(l, op, r);
      var folded := FoldExpression(BinaryOp(left, op, right), form);
      && v.Some?
      && folded ==
           if l.Floor as real == l && r.Floor as real == r && v.value.Floor as real == v.value then
             Literal(Num(IntNumber(CastI64(v.value))), Int)
           else Literal(Num(FloatNumber(v.value)), Float)
  {
    hide Round, NumberToF64, IsNumberLiteral, CastI64;
    assert FoldExpression(left, form) == left && FoldExpression(right, form) == right;
    ZeroAndOne(left);
    ZeroAndOne(right);
    ArithmeticFires(left.value, op, right.value);
  }

  // ---- predicates ---------------------------------------------------------

  /** 2^-52. */
  lemma EpsilonIs()
    ensures Epsilon() * 0x10_0000_0000_0000 as real == 1.0
  {
    hide ScaleDown;
    SixteenthPower(1);
    SixteenthPower(2);
    SixteenthPower(3);
    ScalesAdd(1.0, 48, 4);
    ScaledByFour(ScaleDown(1.0, 48));
    assert ScaleDown(1.0, 48) * 0x1_0000_0000_0000 as real == 1.0;
  }

  lemma {:induction false} SixteenthPower(n: nat)
    requires 1 <= n <= 3
    ensures ScaleDown(1.0, 16 * n) == 1.0 / (if n == 1 then 65536.0 else if n == 2 then 4294967296.0 else 281474976710656.0)
  {
    hide ScaleDown;
    if n == 1 {
      ScaledBySixteen(1.0);
    } else {
      SixteenthPower(n - 1);
      ScalesAdd(1.0, 16 * (n - 1), 16);
      ScaledBySixteen(ScaleDown(1.0, 16 * (n - 1)));
    }
  }

  lemma ScaledByFour(x: real)
    ensures ScaleDown(x, 4) == x / 16.0
  {
    assert ScaleDown(x / 2.0, 3) == ScaleDown(x / 2.0 / 2.0, 2);
    assert ScaleDown(x / 2.0 / 2.0, 2) == ScaleDown(x / 2.0 / 2.0 / 2.0, 1);
  }

  lemma ScaledBySixteen(x: real)
    ensures ScaleDown(x, 16) == x / 65536.0
  {
    hide ScaleDown;
    ScalesAdd(x, 4, 4);
    ScalesAdd(x, 8, 4);
    ScalesAdd(x, 12, 4);
    ScaledByFour(x);
    ScaledByFour(ScaleDown(x, 4));
    ScaledByFour(ScaleDown(x, 8));
    ScaledByFour(ScaleDown(x, 12));
  }

  /** The rounded difference of two doubles is less than 2^-52 in magnitude. */
  predicate AreClose(l: F64, r: F64) {
    Round(l - r).Some? && Abs(Round(l - r).value) * 0x10_0000_0000_0000 as real < 1.0
  }

  lemma CloseIff(l: F64, r: F64)
    ensures WithinEpsilon(l, r) <==> AreClose(l, r)
  {
    EpsilonIs();
    hide Round, Epsilon;
  }

  /**
   The folder takes the predicate for the constant `b`: it equates equal booleans, of which it
   reads only the value, or different number literals, which are equal if they are close; two
   equal number literals it does not take for anything.
   */
  predicate TakenFor(p: Predicate, b: bool, form: FalseForm) {
    || (p.Comparison? && p.op == Compare(Eq) && p.left.Literal? && p.right.Literal?
        && (|| (p.left.value == p.right.value && p.left.value.Bool?
                && b == (form.Constant? || p.left.value.b))
            || (p.left.value != p.right.value && p.left.value.Num? && p.right.value.Num?
                && b == AreClose(NumberToF64(p.left.value.n), NumberToF64(p.right.value.n)))))
    || (form.Constant? && p == False && !b)
  }

  lemma ConstantIff(p: Predicate, b: bool, form: FalseForm)
    ensures AsBoolConstant(p, form) == Some(b) <==> TakenFor(p, b, form)
  {
    hide NumberToF64, WithinEpsilon, AreClose;
    if p.Comparison? && p.left.Literal? && p.right.Literal? && p.left.value.Num? && p.right.value.Num? {
      CloseIff(NumberToF64(p.left.value.n), NumberToF64(p.right.value.n));
    }
  }

  /** How constants are written: as the comparison of the value with itself. */
  lemma ConstantsAreWritten()
    ensures
      var t, f := Literal(Bool(true), Boolean), Literal(Bool(false), Boolean);
      && (forall form :: BoolPredicate(true, form) == Comparison(t, Compare(Eq), t))
      && BoolPredicate(false, SelfComparison) == Comparison(f, Compare(Eq), f)
      && BoolPredicate(false, Constant) == False
  {
  }

  /** A conjunction with false is false, and one with true is its other operand; others stay. */
  lemma ConjunctionRules(l: Predicate, r: Predicate, form: FalseForm)
    ensures
      var p, q := FoldPredicate(l, form), FoldPredicate(r, form);
      var folded := FoldPredicate(And(l, r), form);
      && (TakenFor(p, false, form) || TakenFor(q, false, form) ==> folded == BoolPredicate(false, form))
      && (TakenFor(p, true, form) && !TakenFor(q, false, form) ==> folded == q)
      && (TakenFor(q, true, form) && !(exists b :: TakenFor(p, b, form)) ==> folded == p)
      && (!(exists b :: TakenFor(p, b, form)) && !(exists b :: TakenFor(q, b, form)) ==> folded == And(p, q))
  {
    hide TakenFor, FoldPredicate, AndNode, OrNode, BoolPredicate;
    ConnectivesUnfold(l, r, form);
    ConjunctionNodes(FoldPredicate(l, form), FoldPredicate(r, form), form);
  }

  lemma ConnectivesUnfold(l: Predicate, r: Predicate, form: FalseForm)
    ensures FoldPredicate(And(l, r), form) == AndNode(FoldPredicate(l, form), FoldPredicate(r, form), form)
    ensures FoldPredicate(Or(l, r), form) == OrNode(FoldPredicate(l, form), FoldPredicate(r, form), form)
    ensures FoldPredicate(Not(l), form) == NotNode(FoldPredicate(l, form), form)
  {
    hide AndNode, OrNode, NotNode;
  }

  lemma ConjunctionNodes(p: Predicate, q: Predicate, form: FalseForm)
    ensures TakenFor(p, false, form) || TakenFor(q, false, form) ==> AndNode(p, q, form) == BoolPredicate(false, form)
    ensures TakenFor(p, true, form) && !TakenFor(q, false, form) ==> AndNode(p, q, form) == q
    ensures !(exists b :: TakenFor(p, b, form)) ==>
      && (TakenFor(q, true, form) ==> AndNode(p, q, form) == p)
      && (!(exists b :: TakenFor(q, b, form)) ==> AndNode(p, q, form) == And(p, q))
  {
    hide TakenFor, AsBoolConstant, BoolPredicate;
    ReadingOf(p, form);
    ReadingOf(q, form);
  }

  lemma DisjunctionNodes(p: Predicate, q: Predicate, form: FalseForm)
    ensures TakenFor(p, true, form) || TakenFor(q, true, form) ==> OrNode(p, q, form) == BoolPredicate(true, form)
    ensures TakenFor(p, false, form) && !TakenFor(q, true, form) ==> OrNode(p, q, form) == q
    ensures !(exists b :: TakenFor(p, b, form)) ==>
      && (TakenFor(q, false, form) ==> OrNode(p, q, form) == p)
      && (!(exists b :: TakenFor(q, b, form)) ==> OrNode(p, q, form) == Or(p, q))
  {
    hide TakenFor, AsBoolConstant, BoolPredicate;
    ReadingOf(p, form);
    ReadingOf(q, form);
  }

  lemma ReadingOf(p: Predicate, form: FalseForm)
    ensures forall b :: AsBoolConstant(p, form) == Some(b) <==> TakenFor(p, b, form)
    ensures AsBoolConstant(p, form).Some? <==> exists b :: TakenFor(p, b, form)
  {
    hide TakenFor, AsBoolConstant;
    ConstantIff(p, true, form);
    ConstantIff(p, false, form);
    if AsBoolConstant(p, form).Some? { assert TakenFor(p, AsBoolConstant(p, form).value, form); }
  }

  /** The same of a disjunction. */
  lemma DisjunctionRules(l: Predicate, r: Predicate, form: FalseForm)
    ensures
      var p, q := FoldPredicate(l, form), FoldPredicate(r, form);
      var folded := FoldPredicate(Or(l, r), form);
      && (TakenFor(p, true, form) || TakenFor(q, true, form) ==> folded == BoolPredicate(true, form))
      && (TakenFor(p, false, form) && !TakenFor(q, true, form) ==> folded == q)
      && (TakenFor(q, false, form) && !(exists b :: TakenFor(p, b, form)) ==> folded == p)
      && (!(exists b :: TakenFor(p, b, form)) && !(exists b :: TakenFor(q, b, form)) ==> folded == Or(p, q))
  {
    hide TakenFor, FoldPredicate, AndNode, OrNode, BoolPredicate;
    ConnectivesUnfold(l, r, form);
    DisjunctionNodes(FoldPredicate(l, form), FoldPredicate(r, form), form);
  }

  /** A comparison of two literals on which the folder has a verdict. */
  ghost predicate IsDecided(p: Predicate) {
    && p.Comparison? && p.op.Compare? && p.left.Literal? && p.right.Literal?
    && exists b :: Verdict(p.left.value, p.op.rel, p.right.value, b)
  }

  /** A double negation goes, a decided comparison is decided, and a null test of a literal too; others stay. */
  lemma NegationRules(c: Predicate, e: Expression, form: FalseForm)
    ensures
      var p, folded := FoldPredicate(c, form), FoldPredicate(Not(c), form);
      && (p.Not? ==> folded == p.child)
      && (!p.Not? && !IsDecided(p) ==> folded == Not(p))
    ensures
      var f, folded := FoldExpression(e, form), FoldPredicate(IsNull(e), form);
      folded == if f.Literal? then BoolPredicate(f.value == Null, form) else IsNull(f)
  {
    hide FoldPredicate, NotNode, BoolPredicate, IsDecided;
    ConnectivesUnfold(c, c, form);
    NegatedNodes(FoldPredicate(c, form), form);
    NullTestUnfolds(e, form);
  }

  lemma NullTestUnfolds(e: Expression, form: FalseForm)
    ensures FoldPredicate(IsNull(e), form) ==
      var f := FoldExpression(e, form);
      if f.Literal? then BoolPredicate(f.value == Null, form) else IsNull(f)
  {
    hide FoldExpression, BoolPredicate;
  }

  lemma NegatedNodes(p: Predicate, form: FalseForm)
    ensures p.Not? ==> NotNode(p, form) == p.child
    ensures !p.Not? && !IsDecided(p) ==> NotNode(p, form) == Not(p)
  {
    hide CompareValues, Holds, BoolPredicate, Verdict;
    if p.Comparison? && p.op.Compare? && p.left.Literal? && p.right.Literal? {
      ComparedIff(p.left.value, p.op.rel, p.right.value, true);
      ComparedIff(p.left.value, p.op.rel, p.right.value, false);
    }
  }
}
