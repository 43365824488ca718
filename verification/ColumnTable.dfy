/** Wrong-table column references (crates/vlorql-core/src/fix/column_table.rs). */
module ColumnTable {
  import opened Prelude
  import opened Ast
  import opened Schema
  import Joins

  // ---- resolving one reference --------------------------------------------

  /** The table found under this name has the column. */
  predicate Resolves(schema: Snapshot, table: string, column: string) {
    GetTable(schema, table).Some? && HasColumn(GetTable(schema, table).value, column)
  }

  /** That is the last table of the name, and one of its columns is called so. */
  lemma ResolvesIff(schema: Snapshot, table: string, column: string)
    ensures Resolves(schema, table, column) <==>
      exists i: nat :: IsLastNamed(schema, table, i) && exists c :: c in schema[i].columns && c.name == column
  {
    if Resolves(schema, table, column) {
      var t := GetTable(schema, table).value;
      var i: nat :| i < |schema| && schema[i] == t && IsLastNamed(schema, table, i);
      var j :| 0 <= j < |t.columns| && t.columns[j].name == column;
      assert t.columns[j] in schema[i].columns;
    }
    if i: nat :| IsLastNamed(schema, table, i) && exists c :: c in schema[i].columns && c.name == column {
      var t := GetTable(schema, table);
      assert t.Some?;
      var k :| 0 <= k < |schema| && schema[k] == t.value && IsLastNamed(schema, table, k);
      assert k == i;
      var c :| c in schema[i].columns && c.name == column;
      var j :| 0 <= j < |schema[i].columns| && schema[i].columns[j] == c;
      assert HasColumn(schema[i], column);
    }
  }

  /** The first foreign key whose target has the column. */
  function FirstTarget(keys: seq<ColumnSchema>, column: string, schema: Snapshot): Option<string> {
    if keys == [] then None
    else if keys[0].foreignKey.Some? && Resolves(schema, keys[0].foreignKey.value.foreignTable, column)
    then Some(keys[0].foreignKey.value.foreignTable)
    else FirstTarget(keys[1..], column, schema)
  }

  /** The first table that has the column and a foreign key to `table`. */
  function FirstReferrer(tables: Snapshot, table: string, column: string): Option<string> {
    if tables == [] then None
    else if PointsTo(tables[0].columns, table) && HasColumn(tables[0], column) then Some(tables[0].name)
    else FirstReferrer(tables[1..], table, column)
  }

  function ViaForeignKeys(table: string, column: string, schema: Snapshot): Option<string> {
    match GetTable(schema, table)
    case None => None
    case Some(t) =>
      match FirstTarget(t.columns, column, schema)
      case Some(target) => Some(target)
      case None => FirstReferrer(schema, table, column)
  }

  // ---- which table that is ------------------------------------------------

  predicate ResolvesTarget(c: ColumnSchema, column: string, schema: Snapshot) {
    c.foreignKey.Some? && Resolves(schema, c.foreignKey.value.foreignTable, column)
  }

  /** Key `j` is the first whose target has the column. */
  predicate IsFirstTarget(keys: seq<ColumnSchema>, column: string, schema: Snapshot, j: nat) {
    && j < |keys| && ResolvesTarget(keys[j], column, schema)
    && forall k :: 0 <= k < j ==> !ResolvesTarget(keys[k], column, schema)
  }

  predicate RefersWith(t: TableSchema, table: string, column: string) {
    PointsTo(t.columns, table) && HasColumn(t, column)
  }

  /** Table `i` is the first that has the column and a foreign key to `table`. */
  predicate IsFirstReferrer(tables: Snapshot, table: string, column: string, i: nat) {
    && i < |tables| && RefersWith(tables[i], table, column)
    && forall k :: 0 <= k < i ==> !RefersWith(tables[k], table, column)
  }

  predicate SomeTarget(schema: Snapshot, table: string, column: string) {
    && GetTable(schema, table).Some?
    && exists j :: 0 <= j < |GetTable(schema, table).value.columns|
                   && ResolvesTarget(GetTable(schema, table).value.columns[j], column, schema)
  }

  predicate SomeReferrer(schema: Snapshot, table: string, column: string) {
    exists i :: 0 <= i < |schema| && RefersWith(schema[i], table, column)
  }

  /**
   A table for the column of a known table: the target of its first own foreign key that has the
   column, and only if there is none the first table that has the column and refers to it.
   */
  ghost predicate LeadsTo(schema: Snapshot, table: string, column: string, to: string) {
    && GetTable(schema, table).Some?
    && if SomeTarget(schema, table, column) then
         var keys := GetTable(schema, table).value.columns;
         exists j: nat :: IsFirstTarget(keys, column, schema, j) && keys[j].foreignKey.value.foreignTable == to
       else exists i: nat :: IsFirstReferrer(schema, table, column, i) && schema[i].name == to
  }

  lemma {:induction false} FirstTargetIff(keys: seq<ColumnSchema>, column: string, schema: Snapshot, to: string)
    ensures FirstTarget(keys, column, schema) == Some(to) <==>
      exists j: nat :: IsFirstTarget(keys, column, schema, j) && keys[j].foreignKey.value.foreignTable == to
    ensures FirstTarget(keys, column, schema).Some? <==>
      exists j :: 0 <= j < |keys| && ResolvesTarget(keys[j], column, schema)
  {
    hide Resolves;
    if keys != [] {
      var rest := keys[1..];
      FirstTargetIff(rest, column, schema, to);
      if ResolvesTarget(keys[0], column, schema) {
        assert IsFirstTarget(keys, column, schema, 0);
      } else {
        forall j: nat ensures IsFirstTarget(keys, column, schema, j + 1) <==> IsFirstTarget(rest, column, schema, j) {
          assert forall k :: 0 <= k < |rest| ==> rest[k] == keys[k + 1];
          if IsFirstTarget(rest, column, schema, j) {
            assert forall k :: 0 < k < j + 1 ==> keys[k] == rest[k - 1];
          }
        }
        if j: nat :| IsFirstTarget(keys, column, schema, j) && keys[j].foreignKey.value.foreignTable == to {
          assert j > 0 && IsFirstTarget(rest, column, schema, j - 1) && rest[j - 1] == keys[j];
        }
        if j: nat :| IsFirstTarget(rest, column, schema, j) && rest[j].foreignKey.value.foreignTable == to {
          assert IsFirstTarget(keys, column, schema, j + 1) && keys[j + 1] == rest[j];
        }
        if j :| 0 <= j < |keys| && ResolvesTarget(keys[j], column, schema) { assert rest[j - 1] == keys[j]; }
        if j :| 0 <= j < |rest| && ResolvesTarget(rest[j], column, schema) { assert keys[j + 1] == rest[j]; }
      }
    }
  }

  lemma {:induction false} FirstReferrerIff(tables: Snapshot, table: string, column: string, to: string)
    ensures FirstReferrer(tables, table, column) == Some(to) <==>
      exists i: nat :: IsFirstReferrer(tables, table, column, i) && tables[i].name == to
    ensures FirstReferrer(tables, table, column).Some? <==>
      exists i :: 0 <= i < |tables| && RefersWith(tables[i], table, column)
  {
    hide PointsTo, HasColumn;
    if tables != [] {
      var rest := tables[1..];
      FirstReferrerIff(rest, table, column, to);
      if RefersWith(tables[0], table, column) {
        assert IsFirstReferrer(tables, table, column, 0);
      } else {
        forall i: nat ensures IsFirstReferrer(tables, table, column, i + 1) <==> IsFirstReferrer(rest, table, column, i) {
          assert forall k :: 0 <= k < |rest| ==> rest[k] == tables[k + 1];
          if IsFirstReferrer(rest, table, column, i) {
            assert forall k :: 0 < k < i + 1 ==> tables[k] == rest[k - 1];
          }
        }
        if i: nat :| IsFirstReferrer(tables, table, column, i) && tables[i].name == to {
          assert i > 0 && IsFirstReferrer(rest, table, column, i - 1) && rest[i - 1] == tables[i];
        }
        if i: nat :| IsFirstReferrer(rest, table, column, i) && rest[i].name == to {
          assert IsFirstReferrer(tables, table, column, i + 1) && tables[i + 1] == rest[i];
        }
        if i :| 0 <= i < |tables| && RefersWith(tables[i], table, column) { assert rest[i - 1] == tables[i]; }
        if i :| 0 <= i < |rest| && RefersWith(rest[i], table, column) { assert tables[i + 1] == rest[i]; }
      }
    }
  }

  /** The search finds exactly that table. */
  lemma ViaForeignKeysIff(table: string, column: string, schema: Snapshot, to: string)
    ensures ViaForeignKeys(table, column, schema) == Some(to) <==> LeadsTo(schema, table, column, to)
    ensures ViaForeignKeys(table, column, schema).Some? <==>
      GetTable(schema, table).Some? && (SomeTarget(schema, table, column) || SomeReferrer(schema, table, column))
  {
    hide FirstTarget, FirstReferrer, IsFirstTarget, IsFirstReferrer, ResolvesTarget, RefersWith;
    if GetTable(schema, table).Some? {
      var keys := GetTable(schema, table).value.columns;
      FirstTargetIff(keys, column, schema, to);
      FirstReferrerIff(schema, table, column, to);
    }
  }

  method FindColumnViaFk(table: string, column: string, schema: Snapshot) returns (found: Option<string>)
    ensures found == ViaForeignKeys(table, column, schema)
    ensures forall to :: found == Some(to) <==> LeadsTo(schema, table, column, to)
  {
    hide LeadsTo;
    forall to ensures ViaForeignKeys(table, column, schema) == Some(to) <==> LeadsTo(schema, table, column, to) {
      ViaForeignKeysIff(table, column, schema, to);
    }
    var t := GetTable(schema, table);
    if t.None? { return None; }
    var columns := t.value.columns;
    for i := 0 to |columns|
      invariant FirstTarget(columns[i..], column, schema) == FirstTarget(columns, column, schema)
    {
      assert columns[i..][1..] == columns[i + 1..];
      var fk := columns[i].foreignKey;
      if fk.Some? && Resolves(schema, fk.value.foreignTable, column) { return Some(fk.value.foreignTable); }
    }
    for i := 0 to |schema|
      invariant FirstReferrer(schema[i..], table, column) == FirstReferrer(schema, table, column)
    {
      assert schema[i..][1..] == schema[i + 1..];
      if PointsTo(schema[i].columns, table) && HasColumn(schema[i], column) { return Some(schema[i].name); }
    }
    return None;
  }

  /** The qualifier a reference ends up with. */
  function Requalified(table: string, column: string, schema: Snapshot): string {
    if Resolves(schema, table, column) then table
    else
      match ViaForeignKeys(table, column, schema)
      case Some(t) => t
      case None => table
  }

  /** A reference the repair leaves alone: it resolves, or no foreign key helps. */
  predicate Settled(schema: Snapshot, table: string, column: string) {
    Resolves(schema, table, column) || ViaForeignKeys(table, column, schema).None?
  }

  /**
   A reference is requalified if and only if it does not resolve, its table is known, and some
   foreign-key target has the column or some table has it and a foreign key to that table.
   */
  lemma RequalifiedIff(schema: Snapshot, table: string, column: string, to: string)
    ensures !Settled(schema, table, column) <==>
      && !Resolves(schema, table, column) && GetTable(schema, table).Some?
      && (SomeTarget(schema, table, column) || SomeReferrer(schema, table, column))
    ensures Requalified(table, column, schema) == to <==>
      if Settled(schema, table, column) then to == table else LeadsTo(schema, table, column, to)
  {
    hide Resolves, SomeTarget, SomeReferrer, ViaForeignKeys;
    ViaForeignKeysIff(table, column, schema, to);
    if ViaForeignKeys(table, column, schema).Some? {
      ViaForeignKeysIff(table, column, schema, ViaForeignKeys(table, column, schema).value);
    }
  }

  predicate HasForeignKey(t: TableSchema) {
    exists k :: 0 <= k < |t.columns| && t.columns[k].foreignKey.Some?
  }

  /**
   Lookup by name finds every column of a table that has foreign keys: no later table of the
   same name hides one.
   */
  predicate Unshadowed(schema: Snapshot) {
    forall i, j :: 0 <= i < |schema| && 0 <= j < |schema[i].columns| && HasForeignKey(schema[i]) ==>
      Resolves(schema, schema[i].name, schema[i].columns[j].name)
  }

  predicate UniqueNames(schema: Snapshot) {
    forall i, j :: 0 <= i < j < |schema| ==> schema[i].name != schema[j].name
  }

  lemma UniqueNamesAreUnshadowed(schema: Snapshot)
    requires UniqueNames(schema)
    ensures Unshadowed(schema)
  {
    forall i, k | 0 <= i < |schema| && 0 <= k < |schema[i].columns|
      ensures Resolves(schema, schema[i].name, schema[i].columns[k].name)
    {
      UniqueLookup(schema, schema[i]);
    }
  }

  lemma UniqueLookup(schema: Snapshot, t: TableSchema)
    requires UniqueNames(schema) && t in schema
    ensures GetTable(schema, t.name) == Some(t)
  {
    var found := GetTable(schema, t.name);
    var i :| 0 <= i < |schema| && schema[i] == t;
    var j :| 0 <= j < |schema| && schema[j] == found.value;
  }

  lemma ReferrerResolves(schema: Snapshot, t: TableSchema, target: string, column: string)
    requires Unshadowed(schema) && t in schema && PointsTo(t.columns, target) && HasColumn(t, column)
    ensures Resolves(schema, t.name, column)
  {
    var i :| 0 <= i < |schema| && schema[i] == t;
    var k :| 0 <= k < |t.columns| && Refers(t.columns[k], target);
    var j :| 0 <= j < |t.columns| && t.columns[j].name == column;
    assert HasForeignKey(schema[i]) by { assert schema[i].columns[k].foreignKey.Some?; }
    assert Resolves(schema, schema[i].name, schema[i].columns[j].name);
  }

  lemma {:induction false} TargetHasColumn(keys: seq<ColumnSchema>, column: string, schema: Snapshot)
    ensures var r := FirstTarget(keys, column, schema);
            r.Some? ==> Resolves(schema, r.value, column) && PointsTo(keys, r.value)
  {
    if keys != [] && FirstTarget(keys, column, schema).Some? {
      var r := FirstTarget(keys, column, schema).value;
      TargetHasColumn(keys[1..], column, schema);
      if !Refers(keys[0], r) {
        var j :| 0 <= j < |keys[1..]| && Refers(keys[1..][j], r);
        assert Refers(keys[j + 1], r);
      }
    }
  }

  lemma {:induction false} ReferrerHasColumn(tables: Snapshot, table: string, column: string)
    ensures var r := FirstReferrer(tables, table, column);
            r.Some? ==> exists t :: t in tables && t.name == r.value && HasColumn(t, column) && PointsTo(t.columns, table)
  {
    if tables != [] {
      ReferrerHasColumn(tables[1..], table, column);
    }
  }

  /**
   A reference is only moved when it does not resolve, and then to a table, linked by a
   foreign key, that has the column.
   */
  lemma RequalifiedResolves(schema: Snapshot, table: string, column: string)
    requires Unshadowed(schema)
    ensures Resolves(schema, table, column) ==> Requalified(table, column, schema) == table
    ensures var moved := Requalified(table, column, schema);
            moved != table ==>
              && Resolves(schema, moved, column)
              && (Joins.Linked(schema, table, moved) || Joins.Linked(schema, moved, table))
    ensures Settled(schema, Requalified(table, column, schema), column)
    ensures Requalified(table, column, schema) == table <==> Settled(schema, table, column)
  {
    hide HasColumn, PointsTo;
    if !Resolves(schema, table, column) && ViaForeignKeys(table, column, schema).Some? {
      var t := GetTable(schema, table).value;
      TargetHasColumn(t.columns, column, schema);
      if FirstTarget(t.columns, column, schema).None? {
        ReferrerHasColumn(schema, table, column);
        var moved := FirstReferrer(schema, table, column).value;
        var u :| u in schema && u.name == moved && HasColumn(u, column) && PointsTo(u.columns, table);
        ReferrerResolves(schema, u, table, column);
      }
    }
  }

  /** Wherever a reference is moved it stays. */
  ghost predicate MovesSettle(schema: Snapshot) {
    forall table, column :: Settled(schema, Requalified(table, column, schema), column)
  }

  lemma UnshadowedMovesSettle(schema: Snapshot)
    requires Unshadowed(schema)
    ensures MovesSettle(schema)
  {
    hide Unshadowed, Settled, Requalified;
    forall table, column
      ensures Settled(schema, Requalified(table, column, schema), column)
    {
      RequalifiedResolves(schema, table, column);
    }
  }

  lemma MovedSettles(schema: Snapshot, table: string, column: string)
    requires MovesSettle(schema)
    ensures Settled(schema, Requalified(table, column, schema), column)
    ensures Requalified(table, column, schema) == table <==> Settled(schema, table, column)
  {
    hide Resolves, ViaForeignKeys;
  }

  /** Where a later table of the same name hides the column, a reference moves to no avail. */
  lemma ShadowedTableMisleads()
    ensures
      var referrer := TableSchema("a", [ColumnSchema("x", Some(ForeignKey("b", "id"))), ColumnSchema("y", None)]);
      var schema := [referrer, TableSchema("b", []), TableSchema("a", [])];
      && !Unshadowed(schema)
      && Requalified("b", "y", schema) == "a" && !Resolves(schema, "a", "y")
  {
    var referrer := TableSchema("a", [ColumnSchema("x", Some(ForeignKey("b", "id"))), ColumnSchema("y", None)]);
    var schema := [referrer, TableSchema("b", []), TableSchema("a", [])];
    assert GetTable(schema, "a") == Some(TableSchema("a", []));
    assert schema[..2] == [referrer, TableSchema("b", [])];
    assert GetTable(schema, "b") == Some(TableSchema("b", []));
    assert Refers(referrer.columns[0], "b");
    assert referrer.columns[1].name == "y" && schema[0] == referrer;
    assert HasColumn(schema[0], "y");
    assert HasForeignKey(schema[0]);
    assert !Resolves(schema, schema[0].name, schema[0].columns[1].name);
  }

  /** It may even move back and forth: here `a.y` becomes `b.y`, and when repaired again `a.y`. */
  lemma ShadowedTablesSwap()
    ensures
      var a := TableSchema("a", [ColumnSchema("x", Some(ForeignKey("b", "id"))), ColumnSchema("y", None)]);
      var b := TableSchema("b", [ColumnSchema("x", Some(ForeignKey("a", "id"))), ColumnSchema("y", None)]);
      var schema := [a, b, TableSchema("a", []), TableSchema("b", [])];
      && FixedExpr(ColumnRef(Some("a"), "y"), schema) == ColumnRef(Some("b"), "y")
      && FixedExpr(ColumnRef(Some("b"), "y"), schema) == ColumnRef(Some("a"), "y")
  {
    var a := TableSchema("a", [ColumnSchema("x", Some(ForeignKey("b", "id"))), ColumnSchema("y", None)]);
    var b := TableSchema("b", [ColumnSchema("x", Some(ForeignKey("a", "id"))), ColumnSchema("y", None)]);
    var schema := [a, b, TableSchema("a", []), TableSchema("b", [])];
    assert schema[..3] == [a, b, TableSchema("a", [])];
    assert GetTable(schema, "a") == Some(TableSchema("a", []));
    assert GetTable(schema, "b") == Some(TableSchema("b", []));
    assert Refers(a.columns[0], "b") && Refers(b.columns[0], "a");
    assert a.columns[1].name == "y" && b.columns[1].name == "y";
    assert HasColumn(a, "y") && HasColumn(b, "y");
    assert !PointsTo(a.columns, "a");
    assert schema[1..][0] == b;
    assert FirstReferrer(schema, "a", "y") == Some("b");
    assert FirstReferrer(schema, "b", "y") == Some("a");
  }

  // ---- expressions, predicates and plans ----------------------------------

  function FixedExpr(e: Expression, schema: Snapshot): Expression
    decreases e, 0
  {
    match e
    case ColumnRef(Some(table), column) => ColumnRef(Some(Requalified(table, column, schema)), column)
    case FunctionCall(name, args, distinct) => FunctionCall(name, FixedExprs(args, schema), distinct)
    case BinaryOp(left, op, right) => BinaryOp(FixedExpr(left, schema), op, FixedExpr(right, schema))
    case Case(operand, whenThens, elseResult) =>
      Case(FixedOptional(operand, schema), FixedBranches(whenThens, schema), FixedOptional(elseResult, schema))
    case SubQuery(query) => SubQuery(FixedPlan(query, schema))
    case WindowFunction(name, args, distinct, over) =>
      WindowFunction(name, FixedExprs(args, schema), distinct, over)
    case ColumnRef(None, _) | Literal(_, _) | Star => e
  }

  function FixedOptional(e: Option<Expression>, schema: Snapshot): Option<Expression>
    decreases e, 1
  {
    if e.Some? then Some(FixedExpr(e.value, schema)) else None
  }

  function FixedExprs(es: seq<Expression>, schema: Snapshot): (fixed: seq<Expression>)
    ensures |fixed| == |es|
    decreases es, 1
  {
    seq(|es|, i requires 0 <= i < |es| => FixedExpr(es[i], schema))
  }

  function FixedBranch(w: WhenThen, schema: Snapshot): WhenThen
    decreases w, 1
  {
    WhenThen(FixedExpr(w.when, schema), FixedExpr(w.then_, schema))
  }

  function FixedBranches(ws: seq<WhenThen>, schema: Snapshot): seq<WhenThen>
    decreases ws, 2
  {
    seq(|ws|, i requires 0 <= i < |ws| => FixedBranch(ws[i], schema))
  }

  function FixedPred(p: Predicate, schema: Snapshot): Predicate
    decreases p, 0
  {
    match p
    case Comparison(left, op, right) => Comparison(FixedExpr(left, schema), op, FixedExpr(right, schema))
    case And(l, r) => And(FixedPred(l, schema), FixedPred(r, schema))
    case Or(l, r) => Or(FixedPred(l, schema), FixedPred(r, schema))
    case Not(child) => Not(FixedPred(child, schema))
    case Between(expr, low, high) =>
      Between(FixedExpr(expr, schema), FixedExpr(low, schema), FixedExpr(high, schema))
    case In(expr, Query(query)) => In(FixedExpr(expr, schema), Query(FixedPlan(query, schema)))
    case In(expr, Values(values)) => In(FixedExpr(expr, schema), Values(values))
    case Like(expr, pattern) => Like(FixedExpr(expr, schema), pattern)
    case IsNull(expr) => IsNull(FixedExpr(expr, schema))
    case Exists(query) => Exists(FixedPlan(query, schema))
    case True | False => p
  }

  function FixedOptionalPred(p: Option<Predicate>, schema: Snapshot): Option<Predicate>
    decreases p, 1
  {
    if p.Some? then Some(FixedPred(p.value, schema)) else None
  }

  function FixedProjection(p: Projection, schema: Snapshot): Projection
    decreases p, 1
  {
    match p
    case Expr(e, alias) => Expr(FixedExpr(e, schema), alias)
    case Column(Some(table), column, alias) => Column(Some(Requalified(table, column, schema)), column, alias)
    case _ => p
  }

  function FixedSelect(ps: seq<Projection>, schema: Snapshot): seq<Projection>
    decreases ps, 2
  {
    seq(|ps|, i requires 0 <= i < |ps| => FixedProjection(ps[i], schema))
  }

  /** The `retain` test of GROUP BY: a qualified column must resolve, or at least be reachable. */
  predicate Retained(e: Expression, schema: Snapshot) {
    e.ColumnRef? && e.table.Some? ==>
      Resolves(schema, e.table.value, e.column) || ViaForeignKeys(e.table.value, e.column, schema).Some?
  }

  function KeepRetained(es: seq<Expression>, schema: Snapshot): seq<Expression> {
    if es == [] then []
    else
      KeepRetained(es[..|es| - 1], schema) + (if Retained(es[|es| - 1], schema) then [es[|es| - 1]] else [])
  }

  function FixedGroup(c: Clause<Expression>, schema: Snapshot): Clause<Expression>
    decreases c, 2
  {
    if c.Given? then Given(KeepRetained(FixedExprs(c.items, schema), schema)) else Absent
  }

  function FixedTerm(t: OrderByTerm, schema: Snapshot): OrderByTerm
    decreases t, 1
  {
    t.(expr := FixedExpr(t.expr, schema))
  }

  function FixedOrderBy(c: Clause<OrderByTerm>, schema: Snapshot): Clause<OrderByTerm>
    decreases c, 2
  {
    if c.Given? then Given(seq(|c.items|, i requires 0 <= i < |c.items| => FixedTerm(c.items[i], schema))) else Absent
  }

  function FixedJoin(j: JoinClause, schema: Snapshot): JoinClause
    decreases j, 1
  {
    j.(on := FixedPred(j.on, schema))
  }

  function FixedJoins(c: Clause<JoinClause>, schema: Snapshot): Clause<JoinClause>
    decreases c, 2
  {
    if c.Given? then Given(seq(|c.items|, i requires 0 <= i < |c.items| => FixedJoin(c.items[i], schema))) else Absent
  }

  function FixedCte(c: CommonTableExpression, schema: Snapshot): CommonTableExpression
    decreases c, 1
  {
    c.(query := FixedPlan(c.query, schema))
  }

  function FixedCtes(c: Clause<CommonTableExpression>, schema: Snapshot): Clause<CommonTableExpression>
    decreases c, 2
  {
    if c.Given? then Given(seq(|c.items|, i requires 0 <= i < |c.items| => FixedCte(c.items[i], schema))) else Absent
  }

  function FixedOperand(s: Option<SetOperationClause>, schema: Snapshot): Option<SetOperationClause>
    decreases s, 1
  {
    if s.Some? then Some(s.value.(right := FixedPlan(s.value.right, schema))) else None
  }

  function FixedPlan(plan: QueryPlan, schema: Snapshot): QueryPlan
    decreases plan, 0
  {
    plan.(
      select := FixedSelect(plan.select, schema),
      where_ := FixedOptionalPred(plan.where_, schema),
      having := FixedOptionalPred(plan.having, schema),
      groupBy := FixedGroup(plan.groupBy, schema),
      orderBy := FixedOrderBy(plan.orderBy, schema),
      joins := FixedJoins(plan.joins, schema),
      ctes := FixedCtes(plan.ctes, schema),
      setOperation := FixedOperand(plan.setOperation, schema))
  }

  // ---- settled plans ------------------------------------------------------

  /** Every qualified reference the repair visits is settled. */
  predicate SettledExpr(e: Expression, schema: Snapshot)
    decreases e, 0
  {
    match e
    case ColumnRef(Some(table), column) => Settled(schema, table, column)
    case FunctionCall(_, args, _) => SettledExprs(args, schema)
    case BinaryOp(left, _, right) => SettledExpr(left, schema) && SettledExpr(right, schema)
    case Case(operand, whenThens, elseResult) =>
      SettledOptional(operand, schema) && SettledBranches(whenThens, schema) && SettledOptional(elseResult, schema)
    case SubQuery(query) => SettledPlan(query, schema)
    case WindowFunction(_, args, _, _) => SettledExprs(args, schema)
    case ColumnRef(None, _) | Literal(_, _) | Star => true
  }

  predicate SettledOptional(e: Option<Expression>, schema: Snapshot)
    decreases e, 1
  {
    e.Some? ==> SettledExpr(e.value, schema)
  }

  predicate SettledExprs(es: seq<Expression>, schema: Snapshot)
    decreases es, 1
  {
    forall i :: 0 <= i < |es| ==> SettledExpr(es[i], schema)
  }

  predicate SettledBranch(w: WhenThen, schema: Snapshot)
    decreases w, 1
  {
    SettledExpr(w.when, schema) && SettledExpr(w.then_, schema)
  }

  predicate SettledBranches(ws: seq<WhenThen>, schema: Snapshot)
    decreases ws, 2
  {
    forall i :: 0 <= i < |ws| ==> SettledBranch(ws[i], schema)
  }

  predicate SettledPred(p: Predicate, schema: Snapshot)
    decreases p, 0
  {
    match p
    case Comparison(left, _, right) => SettledExpr(left, schema) && SettledExpr(right, schema)
    case And(l, r) => SettledPred(l, schema) && SettledPred(r, schema)
    case Or(l, r) => SettledPred(l, schema) && SettledPred(r, schema)
    case Not(child) => SettledPred(child, schema)
    case Between(expr, low, high) =>
      SettledExpr(expr, schema) && SettledExpr(low, schema) && SettledExpr(high, schema)
    case In(expr, Query(query)) => SettledExpr(expr, schema) && SettledPlan(query, schema)
    case In(expr, Values(_)) => SettledExpr(expr, schema)
    case Like(expr, _) => SettledExpr(expr, schema)
    case IsNull(expr) => SettledExpr(expr, schema)
    case Exists(query) => SettledPlan(query, schema)
    case True | False => true
  }

  predicate SettledOptionalPred(p: Option<Predicate>, schema: Snapshot)
    decreases p, 1
  {
    p.Some? ==> SettledPred(p.value, schema)
  }

  predicate SettledProjection(p: Projection, schema: Snapshot)
    decreases p, 1
  {
    match p
    case Expr(e, _) => SettledExpr(e, schema)
    case Column(Some(table), column, _) => Settled(schema, table, column)
    case _ => true
  }

  predicate SettledSelect(ps: seq<Projection>, schema: Snapshot)
    decreases ps, 2
  {
    forall i :: 0 <= i < |ps| ==> SettledProjection(ps[i], schema)
  }

  /** A qualified column standing alone in GROUP BY resolves. */
  predicate GroupResolves(e: Expression, schema: Snapshot) {
    e.ColumnRef? && e.table.Some? ==> Resolves(schema, e.table.value, e.column)
  }

  predicate SettledGroup(c: Clause<Expression>, schema: Snapshot)
    decreases c, 2
  {
    c.Given? ==>
      SettledExprs(c.items, schema) && forall i :: 0 <= i < |c.items| ==> GroupResolves(c.items[i], schema)
  }

  predicate SettledTerm(t: OrderByTerm, schema: Snapshot)
    decreases t, 1
  {
    SettledExpr(t.expr, schema)
  }

  predicate SettledOrderBy(c: Clause<OrderByTerm>, schema: Snapshot)
    decreases c, 2
  {
    c.Given? ==> forall i :: 0 <= i < |c.items| ==> SettledTerm(c.items[i], schema)
  }

  predicate SettledJoin(j: JoinClause, schema: Snapshot)
    decreases j, 1
  {
    SettledPred(j.on, schema)
  }

  predicate SettledJoins(c: Clause<JoinClause>, schema: Snapshot)
    decreases c, 2
  {
    c.Given? ==> forall i :: 0 <= i < |c.items| ==> SettledJoin(c.items[i], schema)
  }

  predicate SettledCte(c: CommonTableExpression, schema: Snapshot)
    decreases c, 1
  {
    SettledPlan(c.query, schema)
  }

  predicate SettledCtes(c: Clause<CommonTableExpression>, schema: Snapshot)
    decreases c, 2
  {
    c.Given? ==> forall i :: 0 <= i < |c.items| ==> SettledCte(c.items[i], schema)
  }

  predicate SettledOperand(s: Option<SetOperationClause>, schema: Snapshot)
    decreases s, 1
  {
    s.Some? ==> SettledPlan(s.value.right, schema)
  }

  predicate SettledPlan(plan: QueryPlan, schema: Snapshot)
    decreases plan, 0
  {
    && SettledSelect(plan.select, schema)
    && SettledOptionalPred(plan.where_, schema)
    && SettledOptionalPred(plan.having, schema)
    && SettledGroup(plan.groupBy, schema)
    && SettledOrderBy(plan.orderBy, schema)
    && SettledJoins(plan.joins, schema)
    && SettledCtes(plan.ctes, schema)
    && SettledOperand(plan.setOperation, schema)
  }
}
