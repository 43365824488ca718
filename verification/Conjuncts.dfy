/** Splitting and recombining WHERE trees (crates/vlorql-core/src/optimizer/analyze.rs). */
module Conjuncts {
  import opened Prelude
  import opened Ast
  import opened Semantics

  /** The top-level AND conjuncts, left to right. */
  function ConjunctsOf(p: Predicate): (cs: seq<Predicate>)
    ensures cs != []
    ensures forall i :: 0 <= i < |cs| ==> !cs[i].And?
  {
    if p.And? then ConjunctsOf(p.l) + ConjunctsOf(p.r) else [p]
  }

  /** The output vector being filled. */
  class Sink {
    var items: seq<Predicate>

    constructor ()
      ensures items == []
    {
      items := [];
    }
  }

  method CollectConjuncts(p: Predicate, out: Sink)
    modifies out
    ensures out.items == old(out.items) + ConjunctsOf(p)
  {
    if p.And? {
      CollectConjuncts(p.l, out);
      CollectConjuncts(p.r, out);
    } else {
      out.items := out.items + [p];
    }
  }

  method SplitConjuncts(p: Predicate) returns (cs: seq<Predicate>)
    ensures cs == ConjunctsOf(p)
  {
    var out := new Sink();
    CollectConjuncts(p, out);
    cs := out.items;
  }

  function ConjoinAll(acc: Predicate, rest: seq<Predicate>): Predicate
    decreases |rest|
  {
    if rest == [] then acc else ConjoinAll(And(acc, rest[0]), rest[1..])
  }

  function CombineConjuncts(cs: seq<Predicate>): Option<Predicate> {
    if cs == [] then None else Some(ConjoinAll(cs[0], cs[1..]))
  }

  lemma {:induction false} ConjoinedConjuncts(acc: Predicate, rest: seq<Predicate>)
    requires forall i :: 0 <= i < |rest| ==> !rest[i].And?
    ensures ConjunctsOf(ConjoinAll(acc, rest)) == ConjunctsOf(acc) + rest
    decreases |rest|
  {
    if rest != [] {
      ConjoinedConjuncts(And(acc, rest[0]), rest[1..]);
      assert rest == [rest[0]] + rest[1..];
    }
  }

  /** Splitting undoes combining, on lists without a top-level AND. */
  lemma SplitUndoesCombine(cs: seq<Predicate>)
    requires cs != [] && forall i :: 0 <= i < |cs| ==> !cs[i].And?
    ensures ConjunctsOf(CombineConjuncts(cs).value) == cs
  {
    ConjoinedConjuncts(cs[0], cs[1..]);
  }

  /** Splitting what was recombined gives the same conjuncts. */
  lemma SplitIsStable(p: Predicate)
    ensures CombineConjuncts(ConjunctsOf(p)).Some?
    ensures ConjunctsOf(CombineConjuncts(ConjunctsOf(p)).value) == ConjunctsOf(p)
  {
    SplitUndoesCombine(ConjunctsOf(p));
  }

  /** Nothing combines to nothing, one predicate to itself, and one more goes to the right of the rest. */
  lemma {:induction false} CombinedFromTheLeft(cs: seq<Predicate>, c: Predicate)
    ensures CombineConjuncts([]) == None && CombineConjuncts([c]) == Some(c)
    ensures cs != [] ==> CombineConjuncts(cs + [c]) == Some(And(CombineConjuncts(cs).value, c))
  {
    if cs != [] {
      ConjoinedLast(cs[0], cs[1..], c);
      assert (cs + [c])[1..] == cs[1..] + [c];
    }
  }

  lemma {:induction false} ConjoinedLast(acc: Predicate, rest: seq<Predicate>, c: Predicate)
    ensures ConjoinAll(acc, rest + [c]) == And(ConjoinAll(acc, rest), c)
    decreases |rest|
  {
    if rest == [] {
      assert rest + [c] == [c];
    } else {
      ConjoinedLast(And(acc, rest[0]), rest[1..], c);
      assert (rest + [c])[1..] == rest[1..] + [c];
    }
  }

  /** The conjunction of outcomes, from the left. */
  function AndAll(acc: Outcome<Value>, rest: seq<Outcome<Value>>): Outcome<Value>
    decreases |rest|
  {
    if rest == [] then acc else AndAll(And3(acc, rest[0]), rest[1..])
  }

  ghost function Outcomes(eng: Engine, ps: seq<Predicate>, rows: set<Row>, row: Row): seq<Outcome<Value>> {
    seq(|ps|, i requires 0 <= i < |ps| => EvalPredicate(eng, ps[i], rows, row))
  }

  lemma And3IsAssociative(a: Outcome<Value>, b: Outcome<Value>, c: Outcome<Value>)
    ensures And3(And3(a, b), c) == And3(a, And3(b, c))
  {
  }

  lemma {:induction false} AndAllSplits(acc: Outcome<Value>, first: Outcome<Value>, rest: seq<Outcome<Value>>)
    ensures AndAll(And3(acc, first), rest) == And3(acc, AndAll(first, rest))
    decreases |rest|
  {
    hide And3;
    if rest != [] {
      And3IsAssociative(acc, first, rest[0]);
      AndAllSplits(acc, And3(first, rest[0]), rest[1..]);
    }
  }

  lemma {:induction false} AndAllAppends(acc: Outcome<Value>, xs: seq<Outcome<Value>>, ys: seq<Outcome<Value>>)
    ensures AndAll(acc, xs + ys) == AndAll(AndAll(acc, xs), ys)
    decreases |xs|
  {
    hide And3;
    if xs == [] {
      assert xs + ys == ys;
    } else {
      AndAllAppends(And3(acc, xs[0]), xs[1..], ys);
      assert (xs + ys)[1..] == xs[1..] + ys;
    }
  }

  lemma AndAllOfOne(a: Outcome<Value>)
    ensures AndAll(a, []) == a
  {
  }

  lemma AndAllConcatenates(xs: seq<Outcome<Value>>, ys: seq<Outcome<Value>>)
    requires xs != [] && ys != []
    ensures AndAll((xs + ys)[0], (xs + ys)[1..]) == And3(AndAll(xs[0], xs[1..]), AndAll(ys[0], ys[1..]))
  {
    hide And3;
    assert (xs + ys)[1..] == xs[1..] + ys;
    AndAllAppends(xs[0], xs[1..], ys);
    AndAllSplits(AndAll(xs[0], xs[1..]), ys[0], ys[1..]);
  }

  /** A predicate has the value of the conjunction of its conjuncts. */
  lemma {:induction false} ValueOfConjuncts(eng: Engine, p: Predicate, rows: set<Row>, row: Row)
    ensures var vs := Outcomes(eng, ConjunctsOf(p), rows, row);
            EvalPredicate(eng, p, rows, row) == AndAll(vs[0], vs[1..])
  {
    hide And3, AndAll, Eval;
    if !p.And? {
      AndAllOfOne(EvalPredicate(eng, p, rows, row));
      assert Outcomes(eng, ConjunctsOf(p), rows, row)[1..] == [];
    } else {
      ValueOfConjuncts(eng, p.l, rows, row);
      ValueOfConjuncts(eng, p.r, rows, row);
      var xs, ys := Outcomes(eng, ConjunctsOf(p.l), rows, row), Outcomes(eng, ConjunctsOf(p.r), rows, row);
      assert Outcomes(eng, ConjunctsOf(p), rows, row) == xs + ys;
      AndAllConcatenates(xs, ys);
    }
  }

  /** Splitting and recombining keeps the truth value, in every engine and row, errors included. */
  lemma RecombinedHasSameValue(eng: Engine, p: Predicate, rows: set<Row>, row: Row)
    ensures CombineConjuncts(ConjunctsOf(p)).Some?
    ensures EvalPredicate(eng, CombineConjuncts(ConjunctsOf(p)).value, rows, row) == EvalPredicate(eng, p, rows, row)
  {
    hide EvalPredicate;
    SplitIsStable(p);
    ValueOfConjuncts(eng, p, rows, row);
    ValueOfConjuncts(eng, CombineConjuncts(ConjunctsOf(p)).value, rows, row);
  }
}
