/**
 When folding one predicate node keeps its truth value.

 The source writes constant false as the comparison `false = false`, which SQL evaluates
 to true. `ModeOf` follows what becomes of that through a predicate; everything else the
 rules do is faithful, apart from reading nearly equal numbers as equal.
 */
module FoldPredicateMeaning {
  import opened Prelude
  import opened Binary64
  import opened Json
  import opened Ast
  import opened Values
  import opened Fold
  import opened Semantics
  import opened FoldExpressionMeaning

  datatype Mode =
    | Faithful      // the folded predicate has the original's value, and is not `false = false`
    | EncodedFalse  // the original is false; the folded predicate is `false = false`
    | EncodedTrue   // the original is true; the folded predicate is `false = false`
    | Entangled     // an encoded constant met another predicate; `FoldEncoding` says what is left
    | Misread       // the folder took distinct numbers for equal

  /** The comparison of false with itself, to the folder and to the database. */
  predicate IsSelfFalse(eng: Engine, f: Predicate) {
    && f.Comparison? && f.op == Compare(Eq) && f.left.Literal? && f.right.Literal?
    && f.left.value == Bool(false) && f.right.value == Bool(false)
    && Reads(eng, f.left.value, f.left.dataType) && Reads(eng, f.right.value, f.right.dataType)
  }

  /** The numbers that the database takes two literals for are equal, if the folder takes them for equal. */
  predicate EqualityKeeps(eng: Engine, l: Expression, r: Expression)
    requires l.Literal? && r.Literal? && l.value.Num? && r.value.Num?
    requires Reads(eng, l.value, l.dataType) && Reads(eng, r.value, r.dataType)
  {
    WithinEpsilon(NumberToF64(l.value.n), NumberToF64(r.value.n)) ==>
      Quantity(LiteralOutcome(eng, l.value, l.dataType).value) == Quantity(LiteralOutcome(eng, r.value, r.dataType).value)
  }

  /**
   If `f` can be read as a constant, the database reads its literals alike, and they are not
   distinct numbers that the folder takes to be within epsilon.
   */
  predicate ReadsExactly(eng: Engine, f: Predicate) {
    AsBoolConstant(f, Constant).Some? && !f.False? ==>
      && Reads(eng, f.left.value, f.left.dataType) && Reads(eng, f.right.value, f.right.dataType)
      && (f.left.value.Num? && f.right.value.Num? ==> EqualityKeeps(eng, f.left, f.right))
  }

  /** If `f` compares two literals, the database decides as the folder does. */
  predicate NegatesExactly(eng: Engine, f: Predicate) {
    f.Comparison? && f.op.Compare? && BothLiterals(f.left, f.right) && CompareValues(f.left.value, f.right.value).Some? ==>
      DecidesAlike(eng, f.left, f.op.rel, f.right)
  }

  function FalseMode(form: FalseForm): Mode {
    if form.SelfComparison? then EncodedFalse else Faithful
  }

  /** The mode of a result known to have the original's value. */
  function KeptMode(eng: Engine, f: Predicate, form: FalseForm): Mode {
    if form.SelfComparison? && IsSelfFalse(eng, f) then EncodedTrue else Faithful
  }

  /** The original's truth value, where it is known. */
  function Known(m: Mode, f: Predicate, form: FalseForm): Option<bool> {
    match m
    case EncodedFalse => Some(false)
    case EncodedTrue => Some(true)
    case _ => AsBoolConstant(f, form)
  }

  predicate Usable(eng: Engine, m: Mode, f: Predicate) {
    !m.Entangled? && !m.Misread? && ReadsExactly(eng, f)
  }

  /** The mode of a connective one of whose operands is not usable. */
  function Spoilt(eng: Engine, ml: Mode, fl: Predicate, mr: Mode, fr: Predicate): Mode {
    if ml.Misread? || mr.Misread? || !ReadsExactly(eng, fl) || !ReadsExactly(eng, fr) then Misread else Entangled
  }

  function ModeOfAnd(eng: Engine, ml: Mode, fl: Predicate, mr: Mode, fr: Predicate, form: FalseForm): Mode {
    var kl, kr := Known(ml, fl, form), Known(mr, fr, form);
    if !Usable(eng, ml, fl) || !Usable(eng, mr, fr) then Spoilt(eng, ml, fl, mr, fr)
    else if AsBoolConstant(fl, form) != Some(false) && AsBoolConstant(fr, form) != Some(false) then Faithful
    else if kl == Some(false) || kr == Some(false) then FalseMode(form)
    else if kl == Some(true) && kr == Some(true) then EncodedTrue
    else Entangled
  }

  function ModeOfOr(eng: Engine, ml: Mode, fl: Predicate, mr: Mode, fr: Predicate, form: FalseForm): Mode {
    var kl, kr := Known(ml, fl, form), Known(mr, fr, form);
    var rl, rr := AsBoolConstant(fl, form), AsBoolConstant(fr, form);
    if !Usable(eng, ml, fl) || !Usable(eng, mr, fr) then Spoilt(eng, ml, fl, mr, fr)
    else if rl == Some(true) || rr == Some(true) then Faithful
    else if rl == Some(false) then (if kl == Some(false) || kr == Some(true) then mr else Entangled)
    else if rr == Some(false) then (if kr == Some(false) then ml else Entangled)
    else Faithful
  }

  function ModeOfNot(eng: Engine, m: Mode, f: Predicate, form: FalseForm): Mode {
    match m
    case Entangled => Entangled
    case Misread => Misread
    case EncodedFalse => EncodedTrue
    case EncodedTrue => EncodedFalse
    case Faithful =>
      if f.Not? then KeptMode(eng, f.child, form)
      else if !NegatesExactly(eng, f) then Misread
      else if SimplifyNot(f, form) == Some(BoolPredicate(false, form)) then FalseMode(form)
      else Faithful
  }

  function ModeOfIsNull(e: Expression, form: FalseForm): Mode {
    if e.Literal? && !e.value.Null? then FalseMode(form) else Faithful
  }

  /** Computed alongside folding, from the predicate alone. */
  function ModeOf(eng: Engine, p: Predicate, form: FalseForm): Mode {
    match p
    case And(l, r) =>
      ModeOfAnd(eng, ModeOf(eng, l, form), FoldPredicate(l, form), ModeOf(eng, r, form), FoldPredicate(r, form), form)
    case Or(l, r) =>
      ModeOfOr(eng, ModeOf(eng, l, form), FoldPredicate(l, form), ModeOf(eng, r, form), FoldPredicate(r, form), form)
    case Not(child) => ModeOfNot(eng, ModeOf(eng, child, form), FoldPredicate(child, form), form)
    case IsNull(expr) => ModeOfIsNull(FoldExpression(expr, form), form)
    case _ => KeptMode(eng, FoldPredicate(p, form), form)
  }

  /** What a mode promises about the original outcome `v` and the folded predicate's outcome `w`. */
  ghost predicate Agrees(eng: Engine, m: Mode, form: FalseForm, f: Predicate, v: Outcome<Value>, w: Outcome<Value>) {
    match m
    case Faithful => w == v && !(form.SelfComparison? && IsSelfFalse(eng, f))
    case EncodedFalse => v == Ok(VBool(false)) && form.SelfComparison? && IsSelfFalse(eng, f)
    case EncodedTrue => v == Ok(VBool(true)) && form.SelfComparison? && IsSelfFalse(eng, f)
    case Entangled | Misread => true
  }

  /** `w` is the outcome of `f`, where `f` is a constant. */
  ghost predicate Spells(eng: Engine, f: Predicate, w: Outcome<Value>) {
    && (f.Comparison? && f.op.Compare? && f.left.Literal? && f.right.Literal? ==>
          w == Compare3(eng, f.op.rel, LiteralOutcome(eng, f.left.value, f.left.dataType),
                        LiteralOutcome(eng, f.right.value, f.right.dataType)))
    && (f.False? ==> w == Ok(VBool(false)))
  }

  lemma ConstantsAreSpelled(eng: Engine, f: Predicate, rows: set<Row>, row: Row)
    ensures Spells(eng, f, EvalPredicate(eng, f, rows, row))
  {
    hide Round, Compare3;
  }

  lemma SelfFalseIsTrue(eng: Engine, f: Predicate, w: Outcome<Value>)
    requires IsSelfFalse(eng, f) && Spells(eng, f, w)
    ensures w == Ok(VBool(true))
  {
    hide Round;
  }

  /** A constant is read as its value, up to the encoding and to epsilon. */
  lemma ConstantIsRead(eng: Engine, f: Predicate, form: FalseForm, w: Outcome<Value>)
    requires Spells(eng, f, w) && ReadsExactly(eng, f) && AsBoolConstant(f, form).Some?
    requires !(form.SelfComparison? && IsSelfFalse(eng, f))
    ensures w == Ok(VBool(AsBoolConstant(f, form).value))
  {
    hide Round, NumberToF64, WithinEpsilon, LiteralOutcome, ToF64, EqualityKeeps;
    if f.Comparison? && f.left.value.Num? && f.right.value.Num? {
      EqualNumbersAreReadIff(eng, f.left, f.right);
    }
  }

  /** The folder's reading of the equality of two numbers is right exactly if `EqualityKeeps`. */
  lemma EqualNumbersAreReadIff(eng: Engine, l: Expression, r: Expression)
    requires l.Literal? && r.Literal? && l.value.Num? && r.value.Num?
    requires Reads(eng, l.value, l.dataType) && Reads(eng, r.value, r.dataType)
    ensures
      var a, b := LiteralOutcome(eng, l.value, l.dataType).value, LiteralOutcome(eng, r.value, r.dataType).value;
      WithinEpsilon(NumberToF64(l.value.n), NumberToF64(r.value.n)) == (Quantity(a) == Quantity(b))
      <==> EqualityKeeps(eng, l, r)
  {
    hide Round, NumberToF64, WithinEpsilon, LiteralOutcome, ToF64;
    EqualIsWithinEpsilon(NumberToF64(l.value.n));
  }

  lemma EqualIsWithinEpsilon(x: F64)
    ensures WithinEpsilon(x, x)
  {
    SmallIntegerIsDouble(0);
    assert Round(x - x) == Some(0.0);
    assert Epsilon() > 0.0;
  }

  /** One operand of a node: its mode, its folded form, and the outcomes before and after. */
  datatype Operand = Operand(mode: Mode, folded: Predicate, before: Outcome<Value>, after: Outcome<Value>)
  {
    ghost predicate Sound(eng: Engine, form: FalseForm) {
      Agrees(eng, mode, form, folded, before, after) && Spells(eng, folded, after)
    }

    function Read(form: FalseForm): Option<bool> {
      AsBoolConstant(folded, form)
    }
  }

  /** Reading a constant is right, except that an encoded one is always read as false. */
  lemma ReadingIsRight(eng: Engine, x: Operand, form: FalseForm)
    requires x.Sound(eng, form) && Usable(eng, x.mode, x.folded)
    ensures Known(x.mode, x.folded, form).Some? ==> x.before == Ok(VBool(Known(x.mode, x.folded, form).value))
    ensures !x.mode.Faithful? ==> x.Read(form) == Some(false)
  {
    hide Round, ReadsExactly, WithinEpsilon;
    if x.mode.Faithful? && x.Read(form).Some? { ConstantIsRead(eng, x.folded, form, x.after); }
  }

  lemma BoolPredicateIsConstant(eng: Engine, b: bool, form: FalseForm, o: Outcome<Value>)
    requires Spells(eng, BoolPredicate(b, form), o)
    ensures b ==> o == Ok(VBool(true)) && !IsSelfFalse(eng, BoolPredicate(b, form))
    ensures !b && form.SelfComparison? ==> IsSelfFalse(eng, BoolPredicate(b, form))
    ensures !b && form.Constant? ==> o == Ok(VBool(false))
    ensures BoolPredicate(true, form) != BoolPredicate(false, form)
  {
    hide Round;
  }

  /** `o` is the outcome of `node`, which is `s` if there is one. */
  ghost predicate NodeOutcome(eng: Engine, 
    node: Predicate, s: Option<Predicate>, l: Operand, r: Operand, whole: Outcome<Value>, o: Outcome<Value>)
  {
    && Spells(eng, node, o)
    && (s.None? ==> o == whole)
    && (s == Some(l.folded) ==> o == l.after)
    && (s == Some(r.folded) ==> o == r.after)
  }

  lemma AndAgrees(eng: Engine, l: Operand, r: Operand, form: FalseForm, o: Outcome<Value>)
    requires And3(l.before, r.before).Ok? && l.Sound(eng, form) && r.Sound(eng, form)
    requires NodeOutcome(eng, AndNode(l.folded, r.folded, form), FoldAnd(l.folded, r.folded, form),
                         l, r, And3(l.after, r.after), o)
    ensures Agrees(eng, ModeOfAnd(eng, l.mode, l.folded, r.mode, r.folded, form), form,
                   AndNode(l.folded, r.folded, form), And3(l.before, r.before), o)
  {
    hide Round, Spells, ReadsExactly, AsBoolConstant, BoolPredicate;
    if Usable(eng, l.mode, l.folded) && Usable(eng, r.mode, r.folded) {
      ReadingIsRight(eng, l, form);
      ReadingIsRight(eng, r, form);
      if l.Read(form) == Some(false) || r.Read(form) == Some(false) { BoolPredicateIsConstant(eng, false, form, o); }
    }
  }

  lemma Or3Units(a: Outcome<Value>, b: Outcome<Value>)
    requires Or3(a, b).Ok?
    ensures a == Ok(VBool(false)) ==> Or3(a, b) == b
    ensures b == Ok(VBool(false)) ==> Or3(a, b) == a
    ensures a == Ok(VBool(true)) || b == Ok(VBool(true)) ==> Or3(a, b) == Ok(VBool(true))
  {
  }

  lemma OrWithConstantAgrees(eng: Engine, l: Operand, r: Operand, form: FalseForm, o: Outcome<Value>)
    requires Or3(l.before, r.before).Ok? && l.Sound(eng, form) && r.Sound(eng, form)
    requires Usable(eng, l.mode, l.folded) && Usable(eng, r.mode, r.folded)
    requires l.Read(form).Some? || r.Read(form).Some?
    requires NodeOutcome(eng, OrNode(l.folded, r.folded, form), FoldOr(l.folded, r.folded, form),
                         l, r, Or3(l.after, r.after), o)
    ensures Agrees(eng, ModeOfOr(eng, l.mode, l.folded, r.mode, r.folded, form), form,
                   OrNode(l.folded, r.folded, form), Or3(l.before, r.before), o)
  {
    hide Round, Spells, ReadsExactly, AsBoolConstant, BoolPredicate, Or3;
    ReadingIsRight(eng, l, form);
    ReadingIsRight(eng, r, form);
    Or3Units(l.before, r.before);
    if l.Read(form) == Some(true) || r.Read(form) == Some(true) { BoolPredicateIsConstant(eng, true, form, o); }
  }

  lemma OrAgrees(eng: Engine, l: Operand, r: Operand, form: FalseForm, o: Outcome<Value>)
    requires Or3(l.before, r.before).Ok? && l.Sound(eng, form) && r.Sound(eng, form)
    requires NodeOutcome(eng, OrNode(l.folded, r.folded, form), FoldOr(l.folded, r.folded, form),
                         l, r, Or3(l.after, r.after), o)
    ensures Agrees(eng, ModeOfOr(eng, l.mode, l.folded, r.mode, r.folded, form), form,
                   OrNode(l.folded, r.folded, form), Or3(l.before, r.before), o)
  {
    hide Round, Spells, ReadsExactly, AsBoolConstant, BoolPredicate, Or3;
    if Usable(eng, l.mode, l.folded) && Usable(eng, r.mode, r.folded) {
      if l.Read(form).Some? || r.Read(form).Some? {
        OrWithConstantAgrees(eng, l, r, form, o);
      } else {
        ReadingIsRight(eng, l, form);
        ReadingIsRight(eng, r, form);
      }
    }
  }

  lemma NegatedSelfFalse(eng: Engine, f: Predicate, form: FalseForm)
    requires IsSelfFalse(eng, f)
    ensures SimplifyNot(f, form) == Some(BoolPredicate(false, form))
  {
    hide Round;
  }

  lemma NotAgrees(eng: Engine, x: Operand, form: FalseForm, o: Outcome<Value>)
    requires Not3(x.before).Ok? && x.Sound(eng, form) && Spells(eng, NotNode(x.folded, form), o)
    requires SimplifyNot(x.folded, form).None? ==> o == Not3(x.after)
    requires x.folded.Not? ==> x.after == Not3(o)
    ensures Agrees(eng, ModeOfNot(eng, x.mode, x.folded, form), form, NotNode(x.folded, form), Not3(x.before), o)
  {
    hide Round, NumberToF64, CompareValues, BoolPredicate;
    var f := x.folded;
    if x.mode.Entangled? || x.mode.Misread? {
    } else if f.Not? {
      if IsSelfFalse(eng, f.child) { SelfFalseIsTrue(eng, f.child, o); }
    } else if IsSelfFalse(eng, f) {
      NegatedSelfFalse(eng, f, form);
      BoolPredicateIsConstant(eng, false, form, o);
      SelfFalseIsTrue(eng, f, x.after);
    } else if f.Comparison? && SimplifyNot(f, form).Some? && NegatesExactly(eng, f) {
      hide Compare3;
      LiteralsOrderIff(eng, f.left, f.op.rel, f.right);
      BoolPredicateIsConstant(eng, !Holds(f.op.rel, CompareValues(f.left.value, f.right.value).value), form, o);
    }
  }
}
