/**
 An engine of the kind that the preservation theorems quantify over: it filters the rows of one
 table by WHERE, projects SELECT, and appends the right operand of a set operation.
 */
module SampleEngine {
  import opened Prelude
  import opened Json
  import opened Ast
  import opened Values
  import opened Semantics

  /** The rows in some order. */
  ghost function Ordered(rows: set<Row>): seq<Row> {
    if rows == {} then []
    else
      var row :| row in rows;
      [row] + Ordered(rows - {row})
  }

  ghost function Entry(t: Table, row: Row): Outcome<Value> {
    if row in t then t[row] else Err
  }

  ghost function Condition(where_: seq<Table>, row: Row): Outcome<Value> {
    if where_ == [] then Ok(VBool(true)) else Entry(where_[0], row)
  }

  /** A projected column comes from the row itself. */
  ghost function Cell(p: Projection, t: Table, row: Row): Outcome<Value> {
    match p
    case Expr(_, _) => Entry(t, row)
    case Column(table, column, _) => if (table, column) in row then Ok(row[(table, column)]) else Err
    case AllColumns(_) => Err
  }

  ghost function Tuple(ps: seq<Projection>, select: seq<Table>, row: Row): Outcome<seq<Value>>
    requires |ps| == |select|
  {
    if ps == [] then Ok([])
    else
      match (Cell(ps[0], select[0], row), Tuple(ps[1..], select[1..], row))
      case (Ok(v), Ok(rest)) => Ok([v] + rest)
      case _ => Err
  }

  /** SELECT is looked at only for the rows that pass WHERE. */
  ghost function Filtered(ps: seq<Projection>, select: seq<Table>, where_: seq<Table>, rows: seq<Row>)
    : Outcome<Relation_>
    requires |ps| == |select|
  {
    if rows == [] then Ok([])
    else
      match (Condition(where_, rows[0]), Filtered(ps, select, where_, rows[1..]))
      case (Ok(v), Ok(rest)) =>
        if v != VBool(true) then Ok(rest)
        else
          (match Tuple(ps, select, rows[0])
           case Ok(t) => Ok([t] + rest)
           case Err => Err)
      case _ => Err
  }

  ghost function Combined(data: set<Row>, shape: QueryPlan, m: Meaning, operand: Option<Relation_>)
    : Outcome<Relation_>
  {
    if |shape.select| != |m.select| then Err
    else
      match Filtered(shape.select, m.select, m.where_, Ordered(data))
      case Err => Err
      case Ok(r) => Ok(if operand.Some? then r + operand.value else r)
  }

  ghost function FilteringEngine(data: set<Row>): Engine {
    Engine(
      (v, t) => Ok(VOther(t, v)),
      OrderStrings,
      (rel, a, b) => Err,
      (op, a, b) => Err,
      (from, sources, bindings, outer) => data,
      (name, distinct, args, row) => if args == [] then Err else Entry(args[0], row),
      (r: Relation_) => if |r| == 1 && |r[0]| == 1 then Ok(r[0][0]) else Err,
      (how, a, b) => Ok(VBool(a == b)),
      (e, rows, row) => Err,
      (query, row) => Err,
      (v, query, row) => Err,
      (shape, m, bindings, operand, outer) => Combined(data, shape, m, operand))
  }

  // ---- it is monotone -----------------------------------------------------

  lemma EntryRefines(k: Fidelity, a: Table, b: Table, row: Row)
    requires TableRefines(k, a, b)
    ensures Refines(k, Entry(a, row), Entry(b, row))
  {
  }

  lemma CellRefines(k: Fidelity, p: Projection, a: Table, b: Table, row: Row)
    requires TableRefines(k, a, b)
    ensures Refines(k, Cell(p, a, row), Cell(p, b, row))
  {
    hide Entry, TableRefines;
    EntryRefines(k, a, b, row);
  }

  lemma {:induction false} TupleRefines(k: Fidelity, ps: seq<Projection>, a: seq<Table>, b: seq<Table>, row: Row)
    requires |ps| == |a| && TablesRefine(k, a, b) && Tuple(ps, a, row).Ok?
    ensures Tuple(ps, b, row).Ok? && SameTuple(k, Tuple(ps, a, row).value, Tuple(ps, b, row).value)
  {
    hide TableRefines, Cell;
    if ps != [] {
      CellRefines(k, ps[0], a[0], b[0], row);
      TupleRefines(k, ps[1..], a[1..], b[1..], row);
    }
  }

  lemma ConditionRefines(a: seq<Table>, b: seq<Table>, row: Row)
    requires TablesRefine(Exact, a, b)
    ensures Refines(Exact, Condition(a, row), Condition(b, row))
  {
    hide TableRefines, Entry;
    if a != [] { EntryRefines(Exact, a[0], b[0], row); }
  }

  lemma {:induction false} FilteredRefines(
    k: Fidelity, ps: seq<Projection>, a: seq<Table>, b: seq<Table>, p: seq<Table>, q: seq<Table>, rows: seq<Row>)
    requires |ps| == |a| && TablesRefine(k, a, b) && TablesRefine(Exact, p, q)
    ensures RelationRefines(k, Filtered(ps, a, p, rows), Filtered(ps, b, q, rows))
  {
    hide TablesRefine, Condition, Tuple, SameTuple;
    assert |a| == |b| by { assert TablesRefine(k, a, b); LengthsAgree(k, a, b); }
    if rows != [] {
      FilteredRefines(k, ps, a, b, p, q, rows[1..]);
      ConditionRefines(p, q, rows[0]);
      if Tuple(ps, a, rows[0]).Ok? { TupleRefines(k, ps, a, b, rows[0]); }
    }
  }

  lemma LengthsAgree(k: Fidelity, a: seq<Table>, b: seq<Table>)
    requires TablesRefine(k, a, b)
    ensures |a| == |b|
  {
    hide TableRefines;
  }

  lemma CombinedRefines(
    data: set<Row>, k: Fidelity, shape: QueryPlan, a: Meaning, b: Meaning, x: Option<Relation_>, y: Option<Relation_>)
    requires MeaningRefines(k, a, b) && SameOperand(k, x, y)
    ensures RelationRefines(k, Combined(data, shape, a, x), Combined(data, shape, b, y))
  {
    hide TablesRefine, Filtered, Ordered, SameTuple;
    LengthsAgree(k, a.select, b.select);
    if |shape.select| == |a.select| {
      FilteredRefines(k, shape.select, a.select, b.select, a.where_, b.where_, Ordered(data));
    }
  }

  lemma CalledRefines(a: seq<Table>, b: seq<Table>, row: Row)
    requires TablesRefine(Exact, a, b)
    ensures Refines(Exact, if a == [] then Err else Entry(a[0], row), if b == [] then Err else Entry(b[0], row))
  {
    hide TableRefines, Entry;
    if a != [] { EntryRefines(Exact, a[0], b[0], row); }
  }

  lemma FilteringIsMonotone(data: set<Row>)
    ensures Monotone(FilteringEngine(data))
  {
    hide TablesRefine, MeaningRefines, SameOperand, RelationRefines, Combined, Entry, Refines, SameRelation;
    var eng := FilteringEngine(data);
    forall name, distinct, a, b, row | TablesRefine(Exact, a, b)
      ensures Refines(Exact, eng.call(name, distinct, a, row), eng.call(name, distinct, b, row))
    {
      CalledRefines(a, b, row);
    }
    forall k, shape, a, b, bindings, x, y, outer | MeaningRefines(k, a, b) && SameOperand(k, x, y)
      ensures RelationRefines(k, eng.combine(shape, a, bindings, x, outer), eng.combine(shape, b, bindings, y, outer))
    {
      CombinedRefines(data, k, shape, a, b, x, y);
    }
    forall k, a, b | SameRelation(k, a, b)
      ensures Refines(k, eng.scalar(a), eng.scalar(b))
    {
      ScalarsRefine(k, a, b);
    }
  }

  lemma ScalarsRefine(k: Fidelity, a: Relation_, b: Relation_)
    requires SameRelation(k, a, b)
    ensures Refines(k, if |a| == 1 && |a[0]| == 1 then Ok(a[0][0]) else Err,
                    if |b| == 1 && |b[0]| == 1 then Ok(b[0][0]) else Err)
  {
    if |a| == 1 { assert SameTuple(k, a[0], b[0]); }
  }

  /** What it returns: the tuples of exactly the rows on which WHERE is true. */
  lemma {:induction false} FilteredIff(
    ps: seq<Projection>, select: seq<Table>, where_: seq<Table>, rows: seq<Row>, t: seq<Value>)
    requires |ps| == |select| && Filtered(ps, select, where_, rows).Ok?
    ensures t in Filtered(ps, select, where_, rows).value <==>
      exists row :: row in rows && Condition(where_, row) == Ok(VBool(true)) && Tuple(ps, select, row) == Ok(t)
  {
    hide Condition, Tuple;
    if rows != [] {
      FilteredIff(ps, select, where_, rows[1..], t);
      assert rows == [rows[0]] + rows[1..];
    }
  }

  /** Every row is considered. */
  lemma {:induction false} OrderedIff(rows: set<Row>)
    ensures forall row :: row in Ordered(rows) <==> row in rows
  {
    if rows != {} {
      var row := Ordered(rows)[0];
      OrderedIff(rows - {row});
    }
  }
}
