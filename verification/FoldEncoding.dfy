/**
 What a folded predicate says, and exactly when that is what the original says.

 The source writes constant false as `false = false`, reads it back as false, and hands it
 to a database that takes it for true. `TakenAs` follows the readings through a predicate
 without looking at the folded one's value, and holds also where the folder misreads numbers.
 */
module FoldEncoding {
  import opened Prelude
  import opened Binary64
  import opened Json
  import opened Ast
  import opened Values
  import opened Fold
  import opened Semantics
  import opened FoldExpressionMeaning
  import opened FoldPredicateMeaning
  import opened FoldMeaning
  import opened FoldLimits

  // ---- what a database makes of a folded predicate ------------------------

  /** A database takes the encoded false for true. */
  function ConstantTakenAs(b: bool, form: FalseForm): Outcome<Value> {
    Ok(VBool(b || form.SelfComparison?))
  }

  /** A conjunction whose operands are taken as `a` and `b` and read as `l` and `r`. */
  function AndTakenAs(
    l: Option<bool>, a: Outcome<Value>, r: Option<bool>, b: Outcome<Value>, form: FalseForm): Outcome<Value>
  {
    if l == Some(false) || r == Some(false) then ConstantTakenAs(false, form)
    else if l == Some(true) then b
    else if r == Some(true) then a
    else And3(a, b)
  }

  function OrTakenAs(l: Option<bool>, a: Outcome<Value>, r: Option<bool>, b: Outcome<Value>): Outcome<Value> {
    if l == Some(true) || r == Some(true) then Ok(VBool(true))
    else if l == Some(false) then b
    else if r == Some(false) then a
    else Or3(a, b)
  }

  /** What NOT makes of a comparison of two literals that the folder can decide. */
  function DecidedNegation(f: Predicate): Option<bool> {
    if f.Comparison? && f.left.Literal? && f.right.Literal? && f.op.Compare? then
      match CompareValues(f.left.value, f.right.value)
      case None => None
      case Some(o) => Some(!Holds(f.op.rel, o))
    else None
  }

  ghost function TakenAs(eng: Engine, p: Predicate, form: FalseForm, rows: set<Row>, row: Row): Outcome<Value> {
    match p
    case And(l, r) =>
      AndTakenAs(AsBoolConstant(FoldPredicate(l, form), form), TakenAs(eng, l, form, rows, row),
                 AsBoolConstant(FoldPredicate(r, form), form), TakenAs(eng, r, form, rows, row), form)
    case Or(l, r) =>
      OrTakenAs(AsBoolConstant(FoldPredicate(l, form), form), TakenAs(eng, l, form, rows, row),
                AsBoolConstant(FoldPredicate(r, form), form), TakenAs(eng, r, form, rows, row))
    case Not(c) =>
      (match DecidedNegation(FoldPredicate(c, form))
       case Some(b) => ConstantTakenAs(b, form)
       case None => Not3(TakenAs(eng, c, form, rows, row)))
    case IsNull(e) =>
      var f := FoldExpression(e, form);
      if f.Literal? then ConstantTakenAs(f.value.Null?, form) else EvalPredicate(eng, p, rows, row)
    case _ => EvalPredicate(eng, p, rows, row)
  }

  ghost predicate IsTruthOutcome(a: Outcome<Value>) {
    a.Ok? && IsTruth(a.value)
  }

  lemma ConstantIsTakenAs(eng: Engine, b: bool, form: FalseForm, rows: set<Row>, row: Row)
    ensures EvalPredicate(eng, BoolPredicate(b, form), rows, row) == ConstantTakenAs(b, form)
  {
    hide Round;
    ConstantsAreSpelled(eng, BoolPredicate(b, form), rows, row);
    BoolPredicateIsConstant(eng, b, form, EvalPredicate(eng, BoolPredicate(b, form), rows, row));
    if !b && form.SelfComparison? {
      SelfFalseIsTrue(eng, BoolPredicate(b, form), EvalPredicate(eng, BoolPredicate(b, form), rows, row));
    }
  }

  lemma AndNodeIsTakenAs(eng: Engine, l: Predicate, r: Predicate, form: FalseForm, rows: set<Row>, row: Row)
    ensures EvalPredicate(eng, AndNode(l, r, form), rows, row)
         == AndTakenAs(AsBoolConstant(l, form), EvalPredicate(eng, l, rows, row),
                       AsBoolConstant(r, form), EvalPredicate(eng, r, rows, row), form)
  {
    hide AsBoolConstant, BoolPredicate, And3, ConstantTakenAs;
    ConstantIsTakenAs(eng, false, form, rows, row);
    AndOutcome(eng, l, r, form, rows, row);
  }

  lemma OrNodeIsTakenAs(eng: Engine, l: Predicate, r: Predicate, form: FalseForm, rows: set<Row>, row: Row)
    ensures EvalPredicate(eng, OrNode(l, r, form), rows, row)
         == OrTakenAs(AsBoolConstant(l, form), EvalPredicate(eng, l, rows, row),
                      AsBoolConstant(r, form), EvalPredicate(eng, r, rows, row))
  {
    hide AsBoolConstant, BoolPredicate, Or3;
    ConstantIsTakenAs(eng, true, form, rows, row);
    OrOutcome(eng, l, r, form, rows, row);
  }

  lemma NegationByCases(f: Predicate, form: FalseForm)
    ensures SimplifyNot(f, form) ==
      if f.Not? then Some(f.child)
      else match DecidedNegation(f)
        case Some(b) => Some(BoolPredicate(b, form))
        case None => None
    ensures f.Not? ==> DecidedNegation(f).None?
  {
    hide Round, CompareValues, BoolPredicate, Holds;
  }

  lemma DoubleNegation(a: Outcome<Value>)
    requires IsTruthOutcome(Not3(a))
    ensures Not3(Not3(a)) == a && IsTruthOutcome(a)
  {
  }

  lemma NotNodeIsTakenAs(eng: Engine, f: Predicate, form: FalseForm, rows: set<Row>, row: Row)
    requires IsTruthOutcome(EvalPredicate(eng, f, rows, row))
    ensures EvalPredicate(eng, NotNode(f, form), rows, row) ==
      match DecidedNegation(f)
      case Some(b) => ConstantTakenAs(b, form)
      case None => Not3(EvalPredicate(eng, f, rows, row))
  {
    hide BoolPredicate, DecidedNegation, SimplifyNot, ConstantTakenAs, Not3, EvalPredicate, IsTruthOutcome;
    NegationByCases(f, form);
    NotOutcome(eng, f, form, rows, row);
    if f.Not? {
      DoubleNegation(EvalPredicate(eng, NotNode(f, form), rows, row));
    } else if DecidedNegation(f).Some? {
      ConstantIsTakenAs(eng, DecidedNegation(f).value, form, rows, row);
    }
  }

  lemma OperandsAreTruths(a: Outcome<Value>, b: Outcome<Value>)
    ensures And3(a, b).Ok? ==> IsTruthOutcome(a) && IsTruthOutcome(b)
    ensures Or3(a, b).Ok? ==> IsTruthOutcome(a) && IsTruthOutcome(b)
    ensures Not3(a).Ok? ==> IsTruthOutcome(a)
    ensures IsTruthOutcome(a) && IsTruthOutcome(b) ==> IsTruthOutcome(And3(a, b)) && IsTruthOutcome(Or3(a, b))
    ensures IsTruthOutcome(a) ==> IsTruthOutcome(Not3(a))
  {
  }

  lemma ConstantIsTruth(b: bool, form: FalseForm)
    ensures IsTruthOutcome(ConstantTakenAs(b, form)) && IsTruthOutcome(Ok(VBool(b)))
  {
  }

  lemma IsNullIsTakenAs(eng: Engine, e: Expression, form: FalseForm, rows: set<Row>, row: Row)
    requires Eval(eng, e, rows, row).Ok?
    requires Refines(Numeric, Eval(eng, e, rows, row), Eval(eng, FoldExpression(e, form), rows, row))
    requires NullTestKeeps(eng, FoldExpression(e, form))
    ensures EvalPredicate(eng, IsNullNode(FoldExpression(e, form), form), rows, row)
         == TakenAs(eng, IsNull(e), form, rows, row)
    ensures IsTruthOutcome(TakenAs(eng, IsNull(e), form, rows, row))
  {
    hide Round, NumberToF64, BoolPredicate, ConstantTakenAs;
    var f := FoldExpression(e, form);
    ConstantIsTruth(true, form);
    ConstantIsTruth(false, form);
    if f.Literal? { ConstantIsTakenAs(eng, f.value.Null?, form, rows, row); }
  }

  /** Folding makes a predicate say what it is taken as, misreadings included. */
  lemma {:induction false} FoldedIsTakenAs(eng: Engine, p: Predicate, form: FalseForm, rows: set<Row>, row: Row)
    requires Monotone(eng) && SoundWithin(eng, p, form, rows, row) && EvalPredicate(eng, p, rows, row).Ok?
    ensures EvalPredicate(eng, FoldPredicate(p, form), rows, row) == TakenAs(eng, p, form, rows, row)
    ensures IsTruthOutcome(EvalPredicate(eng, p, rows, row)) ==> IsTruthOutcome(TakenAs(eng, p, form, rows, row))
  {
    hide Round, Monotone, AndNode, OrNode, NotNode, AsBoolConstant, DecidedNegation, ConstantTakenAs, And3, Or3, Not3,
      Eval, FoldExpression, SoundExpression, IsTruthOutcome, Refines;
    match p
    case And(l, r) =>
      OperandsAreTruths(EvalPredicate(eng, l, rows, row), EvalPredicate(eng, r, rows, row));
      FoldedIsTakenAs(eng, l, form, rows, row);
      FoldedIsTakenAs(eng, r, form, rows, row);
      OperandsAreTruths(TakenAs(eng, l, form, rows, row), TakenAs(eng, r, form, rows, row));
      ConstantIsTruth(false, form);
      AndNodeIsTakenAs(eng, FoldPredicate(l, form), FoldPredicate(r, form), form, rows, row);
    case Or(l, r) =>
      OperandsAreTruths(EvalPredicate(eng, l, rows, row), EvalPredicate(eng, r, rows, row));
      FoldedIsTakenAs(eng, l, form, rows, row);
      FoldedIsTakenAs(eng, r, form, rows, row);
      OperandsAreTruths(TakenAs(eng, l, form, rows, row), TakenAs(eng, r, form, rows, row));
      ConstantIsTruth(true, form);
      OrNodeIsTakenAs(eng, FoldPredicate(l, form), FoldPredicate(r, form), form, rows, row);
    case Not(c) =>
      OperandsAreTruths(EvalPredicate(eng, c, rows, row), EvalPredicate(eng, c, rows, row));
      FoldedIsTakenAs(eng, c, form, rows, row);
      OperandsAreTruths(TakenAs(eng, c, form, rows, row), TakenAs(eng, c, form, rows, row));
      var f := FoldPredicate(c, form);
      if DecidedNegation(f).Some? { ConstantIsTruth(DecidedNegation(f).value, form); }
      NotNodeIsTakenAs(eng, f, form, rows, row);
    case IsNull(e) =>
      ValueIsOk(eng, e, rows, row);
      FoldedExpressionRefines(eng, e, form, Numeric, rows, row);
      IsNullIsTakenAs(eng, e, form, rows, row);
    case _ =>
      FoldedAtomRefines(eng, p, form, rows, row);
      ExactlyEqual(EvalPredicate(eng, p, rows, row), EvalPredicate(eng, FoldPredicate(p, form), rows, row));
  }

  lemma ValueIsOk(eng: Engine, e: Expression, rows: set<Row>, row: Row)
    requires EvalPredicate(eng, IsNull(e), rows, row).Ok?
    ensures Eval(eng, e, rows, row).Ok?
  {
  }

  lemma ExactlyEqual(a: Outcome<Value>, b: Outcome<Value>)
    requires a.Ok? && Refines(Exact, a, b)
    ensures b == a
  {
  }

  // ---- when that is what the original says --------------------------------

  /** So folding keeps a truth value if and only if the original is what it is taken as. */
  lemma PredicateIsPreservedIff(eng: Engine, p: Predicate, form: FalseForm, rows: set<Row>, row: Row)
    requires Monotone(eng) && SoundWithin(eng, p, form, rows, row) && EvalPredicate(eng, p, rows, row).Ok?
    ensures EvalPredicate(eng, FoldPredicate(p, form), rows, row) == EvalPredicate(eng, p, rows, row)
            <==> TakenAs(eng, p, form, rows, row) == EvalPredicate(eng, p, rows, row)
  {
    hide *;
    FoldedIsTakenAs(eng, p, form, rows, row);
  }

  /** Where the mode gives a promise, it alone decides. */
  lemma SoundIsPreservedIff(eng: Engine, p: Predicate, form: FalseForm, rows: set<Row>, row: Row)
    requires Monotone(eng) && SoundPredicate(eng, p, form, rows, row) && EvalPredicate(eng, p, rows, row).Ok?
    ensures EvalPredicate(eng, FoldPredicate(p, form), rows, row) == EvalPredicate(eng, p, rows, row)
            <==> ModeOf(eng, p, form) != EncodedFalse
  {
    hide Round, Monotone, ModeOf, Spells, IsSelfFalse;
    FoldedPredicateAgrees(eng, p, form, rows, row);
    var x := OperandOf(eng, p, form, rows, row);
    if !x.mode.Faithful? { SelfFalseIsTrue(eng, x.folded, x.after); }
  }

  /** The folded operand is read as false: the encoded false, or an equality of unequal numbers. */
  predicate ReadFalse(p: Predicate, form: FalseForm) {
    AsBoolConstant(FoldPredicate(p, form), form) == Some(false)
  }

  predicate ReadTrue(p: Predicate, form: FalseForm) {
    AsBoolConstant(FoldPredicate(p, form), form) == Some(true)
  }

  /**
   A conjunction with an operand read as false swallows the other one: the result is taken as
   true, so it is right exactly on the rows where both operands are true.
   */
  lemma SwallowingAndIff(eng: Engine, l: Predicate, r: Predicate, rows: set<Row>, row: Row)
    requires EvalPredicate(eng, And(l, r), rows, row).Ok?
    requires ReadFalse(l, SelfComparison) || ReadFalse(r, SelfComparison)
    ensures FoldPredicate(And(l, r), SelfComparison) == BoolPredicate(false, SelfComparison)
    ensures EvalPredicate(eng, FoldPredicate(And(l, r), SelfComparison), rows, row)
            == EvalPredicate(eng, And(l, r), rows, row) <==>
      && EvalPredicate(eng, l, rows, row) == Ok(VBool(true))
      && EvalPredicate(eng, r, rows, row) == Ok(VBool(true))
  {
    hide Round, AsBoolConstant, BoolPredicate, TakenAs, FoldPredicate, EvalPredicate;
    ConnectiveUnfolds(eng, l, r, SelfComparison, rows, row);
    SwallowedNode(FoldPredicate(l, SelfComparison), FoldPredicate(r, SelfComparison));
    ConstantIsTakenAs(eng, false, SelfComparison, rows, row);
  }

  lemma SwallowedNode(l: Predicate, r: Predicate)
    requires AsBoolConstant(l, SelfComparison) == Some(false) || AsBoolConstant(r, SelfComparison) == Some(false)
    ensures AndNode(l, r, SelfComparison) == BoolPredicate(false, SelfComparison)
  {
    hide AsBoolConstant, BoolPredicate;
  }

  /** `a OR b` is `b`: an `a` that is not false must be made up for by `b`. */
  predicate Absorbs(a: Outcome<Value>, b: Outcome<Value>) {
    a == Ok(VBool(false)) || b == Ok(VBool(true)) || a == b
  }

  lemma AbsorbedIff(a: Outcome<Value>, b: Outcome<Value>)
    requires Or3(a, b).Ok?
    ensures Or3(a, b) == b <==> Absorbs(a, b)
    ensures Or3(a, b) == a <==> Absorbs(b, a)
  {
  }

  /** Folding keeps the predicate in the row, or turns false into what is taken as true. */
  ghost predicate KeepsOrEncodes(eng: Engine, p: Predicate, form: FalseForm, rows: set<Row>, row: Row) {
    var v, w := EvalPredicate(eng, p, rows, row), EvalPredicate(eng, FoldPredicate(p, form), rows, row);
    w == v || (v == Ok(VBool(false)) && w == Ok(VBool(true)))
  }

  /** So it does wherever the mode makes a promise. */
  lemma SoundKeepsOrEncodes(eng: Engine, p: Predicate, form: FalseForm, rows: set<Row>, row: Row)
    requires Monotone(eng) && SoundPredicate(eng, p, form, rows, row) && EvalPredicate(eng, p, rows, row).Ok?
    ensures KeepsOrEncodes(eng, p, form, rows, row)
  {
    hide Round, Monotone, ModeOf, Spells, IsSelfFalse, SoundWithin;
    FoldedPredicateAgrees(eng, p, form, rows, row);
    var x := OperandOf(eng, p, form, rows, row);
    if !x.mode.Faithful? { SelfFalseIsTrue(eng, x.folded, x.after); }
  }

  /** `p` is what is left of the disjunction of `dropped` and `p`. */
  ghost predicate MayDrop(
    eng: Engine, dropped: Predicate, p: Predicate, form: FalseForm, rows: set<Row>, row: Row)
  {
    if EvalPredicate(eng, FoldPredicate(p, form), rows, row) == EvalPredicate(eng, p, rows, row) then
      Absorbs(EvalPredicate(eng, dropped, rows, row), EvalPredicate(eng, p, rows, row))
    else EvalPredicate(eng, dropped, rows, row) == Ok(VBool(true))
  }

  /**
   A disjunction drops an operand read as false. If the other one keeps its own value, the result
   is right exactly on the rows where the dropped operand is false or makes no difference; if the
   other one is an encoded false, exactly on those where the dropped operand is true.
   */
  lemma DroppingOrIff(eng: Engine, l: Predicate, r: Predicate, form: FalseForm, rows: set<Row>, row: Row)
    requires EvalPredicate(eng, Or(l, r), rows, row).Ok?
    requires ReadFalse(l, form) && !ReadTrue(r, form) && KeepsOrEncodes(eng, r, form, rows, row)
    ensures FoldPredicate(Or(l, r), form) == FoldPredicate(r, form)
    ensures EvalPredicate(eng, FoldPredicate(Or(l, r), form), rows, row) == EvalPredicate(eng, Or(l, r), rows, row)
            <==> MayDrop(eng, l, r, form, rows, row)
  {
    hide Round, AsBoolConstant, BoolPredicate, TakenAs, FoldPredicate, EvalPredicate, Or3, Absorbs;
    ConnectiveUnfolds(eng, l, r, form, rows, row);
    AbsorbedIff(EvalPredicate(eng, l, rows, row), EvalPredicate(eng, r, rows, row));
    OrFalse(EvalPredicate(eng, l, rows, row), EvalPredicate(eng, r, rows, row));
  }

  /** The same of the right operand. */
  lemma DroppingOrRightIff(eng: Engine, l: Predicate, r: Predicate, form: FalseForm, rows: set<Row>, row: Row)
    requires EvalPredicate(eng, Or(l, r), rows, row).Ok?
    requires ReadFalse(r, form) && !ReadTrue(l, form) && !ReadFalse(l, form) && KeepsOrEncodes(eng, l, form, rows, row)
    ensures FoldPredicate(Or(l, r), form) == FoldPredicate(l, form)
    ensures EvalPredicate(eng, FoldPredicate(Or(l, r), form), rows, row) == EvalPredicate(eng, Or(l, r), rows, row)
            <==> MayDrop(eng, r, l, form, rows, row)
  {
    hide Round, AsBoolConstant, BoolPredicate, TakenAs, FoldPredicate, EvalPredicate, Or3, Absorbs;
    ConnectiveUnfolds(eng, l, r, form, rows, row);
    AbsorbedIff(EvalPredicate(eng, l, rows, row), EvalPredicate(eng, r, rows, row));
    OrFalse(EvalPredicate(eng, l, rows, row), EvalPredicate(eng, r, rows, row));
  }

  lemma OrFalse(a: Outcome<Value>, b: Outcome<Value>)
    requires Or3(a, b).Ok?
    ensures b == Ok(VBool(false)) ==> Or3(a, b) == a
    ensures a == Ok(VBool(false)) ==> Or3(a, b) == b
  {
  }

  // ---- inputs -------------------------------------------------------------

  /** The database takes the literal for a value. */
  predicate HasValue(eng: Engine, v: Json, t: DataType) {
    !v.Null? && LiteralOutcome(eng, v, t).Ok? && LiteralOutcome(eng, v, t) != Ok(VNull)
  }

  lemma NullTestFoldsToFalse(eng: Engine, v: Json, t: DataType, rows: set<Row>, row: Row)
    requires HasValue(eng, v, t)
    ensures EvalPredicate(eng, IsNull(Literal(v, t)), rows, row) == Ok(VBool(false))
    ensures FoldPredicate(IsNull(Literal(v, t)), SelfComparison) == BoolPredicate(false, SelfComparison)
    ensures ModeOf(eng, IsNull(Literal(v, t)), SelfComparison) == EncodedFalse
    ensures FoldPredicate(Not(IsNull(Literal(v, t))), SelfComparison) == BoolPredicate(false, SelfComparison)
    ensures AsBoolConstant(BoolPredicate(false, SelfComparison), SelfComparison) == Some(false)
  {
    hide Round, NumberToF64;
    assert FoldExpression(Literal(v, t), SelfComparison) == Literal(v, t);
    NegatedSelfFalse(eng, BoolPredicate(false, SelfComparison), SelfComparison);
  }

  /** `literal IS NULL`, false for every literal but null, becomes a predicate SQL takes as true. */
  lemma NonNullLiteralBecomesTrue(eng: Engine, v: Json, t: DataType, rows: set<Row>, row: Row)
    requires HasValue(eng, v, t)
    ensures EvalPredicate(eng, IsNull(Literal(v, t)), rows, row) == Ok(VBool(false))
    ensures EvalPredicate(eng, FoldPredicate(IsNull(Literal(v, t)), SelfComparison), rows, row) == Ok(VBool(true))
    ensures ModeOf(eng, IsNull(Literal(v, t)), SelfComparison) == EncodedFalse
  {
    hide Round, NumberToF64, EvalPredicate;
    NullTestFoldsToFalse(eng, v, t, rows, row);
    ConstantIsTakenAs(eng, false, SelfComparison, rows, row);
  }

  /** `NOT (literal IS NULL)`, which is true. */
  function TrueNullTest(v: Json, t: DataType): Predicate {
    Not(IsNull(Literal(v, t)))
  }

  /** `NOT (literal IS NULL) OR p` is true wherever p is defined, but folds to p alone. */
  lemma TrueDisjunctIsLost(eng: Engine, v: Json, t: DataType, p: Predicate, rows: set<Row>, row: Row)
    requires HasValue(eng, v, t) && IsTruthOutcome(EvalPredicate(eng, p, rows, row))
    requires AsBoolConstant(FoldPredicate(p, SelfComparison), SelfComparison).None?
    ensures var q := Or(TrueNullTest(v, t), p);
            && EvalPredicate(eng, q, rows, row) == Ok(VBool(true))
            && FoldPredicate(q, SelfComparison) == FoldPredicate(p, SelfComparison)
  {
    hide Round, AsBoolConstant, BoolPredicate, FoldPredicate, EvalPredicate, ModeOf;
    NullTestFoldsToFalse(eng, v, t, rows, row);
    ConnectiveUnfolds(eng, IsNull(Literal(v, t)), p, SelfComparison, rows, row);
    ConnectiveUnfolds(eng, TrueNullTest(v, t), p, SelfComparison, rows, row);
  }

  /** `NOT (literal IS NULL) AND p` is p, but folds to a predicate SQL takes as true: the filter is gone. */
  lemma FilterIsSwallowed(eng: Engine, v: Json, t: DataType, p: Predicate, rows: set<Row>, row: Row)
    requires HasValue(eng, v, t) && IsTruthOutcome(EvalPredicate(eng, p, rows, row))
    ensures var q := And(TrueNullTest(v, t), p);
            && EvalPredicate(eng, q, rows, row) == EvalPredicate(eng, p, rows, row)
            && EvalPredicate(eng, FoldPredicate(q, SelfComparison), rows, row) == Ok(VBool(true))
  {
    hide Round, AsBoolConstant, BoolPredicate, FoldPredicate, EvalPredicate, ModeOf;
    NullTestFoldsToFalse(eng, v, t, rows, row);
    ConnectiveUnfolds(eng, IsNull(Literal(v, t)), p, SelfComparison, rows, row);
    ConnectiveUnfolds(eng, TrueNullTest(v, t), p, SelfComparison, rows, row);
    SwallowedNode(BoolPredicate(false, SelfComparison), FoldPredicate(p, SelfComparison));
    ConstantIsTakenAs(eng, false, SelfComparison, rows, row);
  }

  /** `0 = 2^-60 AND p` is false wherever p is defined, but folds to p. */
  lemma FalseConjunctIsLost(eng: Engine, p: Predicate, form: FalseForm, rows: set<Row>, row: Row)
    requires IsTruthOutcome(EvalPredicate(eng, p, rows, row))
    requires AsBoolConstant(FoldPredicate(p, form), form).None?
    ensures var q := And(EqualityOf(0, FloatNumber(Tiny())), p);
            && EvalPredicate(eng, q, rows, row) == Ok(VBool(false))
            && FoldPredicate(q, form) == FoldPredicate(p, form)
  {
    hide Round, AsBoolConstant, BoolPredicate, FoldPredicate, EvalPredicate, ModeOf, Tiny;
    var c := EqualityOf(0, FloatNumber(Tiny()));
    EqualitiesMisread(eng, form, rows, row);
    ConnectiveUnfolds(eng, c, p, form, rows, row);
    LiteralsStay(0, FloatNumber(Tiny()), form);
  }

  lemma LiteralsStay(l: Word, r: Number, form: FalseForm)
    ensures FoldPredicate(EqualityOf(l, r), form) == EqualityOf(l, r)
  {
  }

  // ---- a real constant false ----------------------------------------------

  /** No distinct numbers are taken for equal while folding. */
  predicate ReadsExactlyThroughout(eng: Engine, p: Predicate, form: FalseForm) {
    match p
    case And(l, r) =>
      && ReadsExactlyThroughout(eng, l, form) && ReadsExactlyThroughout(eng, r, form)
      && ReadsExactly(eng, FoldPredicate(l, form)) && ReadsExactly(eng, FoldPredicate(r, form))
    case Or(l, r) =>
      && ReadsExactlyThroughout(eng, l, form) && ReadsExactlyThroughout(eng, r, form)
      && ReadsExactly(eng, FoldPredicate(l, form)) && ReadsExactly(eng, FoldPredicate(r, form))
    case Not(c) => ReadsExactlyThroughout(eng, c, form) && NegatesExactly(eng, FoldPredicate(c, form))
    case _ => true
  }

  /** With a real constant false, nothing is encoded and only a misreading can do harm. */
  lemma {:induction false} ConstantFormModes(eng: Engine, p: Predicate)
    ensures ModeOf(eng, p, Constant) == if ReadsExactlyThroughout(eng, p, Constant) then Faithful else Misread
  {
    hide Round, ReadsExactly, NegatesExactly, AsBoolConstant, FoldPredicate, FoldExpression, SimplifyNot;
    match p
    case And(l, r) => ConstantFormModes(eng, l); ConstantFormModes(eng, r);
    case Or(l, r) => ConstantFormModes(eng, l); ConstantFormModes(eng, r);
    case Not(c) =>
      ConstantFormModes(eng, c);
      NotOfNot(eng, FoldPredicate(c, Constant));
    case _ =>
  }

  lemma NotOfNot(eng: Engine, f: Predicate)
    ensures f.Not? ==> NegatesExactly(eng, f)
  {
  }

  /** So `Predicate::False` in place of the self-comparison repairs the folder. */
  lemma ConstantFormIsPreserved(eng: Engine, p: Predicate, rows: set<Row>, row: Row)
    requires Monotone(eng) && SoundWithin(eng, p, Constant, rows, row) && ReadsExactlyThroughout(eng, p, Constant)
    ensures Refines(Exact, EvalPredicate(eng, p, rows, row), EvalPredicate(eng, FoldPredicate(p, Constant), rows, row))
  {
    hide Round, Monotone;
    ConstantFormModes(eng, p);
    if EvalPredicate(eng, p, rows, row).Ok? { SoundIsPreservedIff(eng, p, Constant, rows, row); }
  }
}
