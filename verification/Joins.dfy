/**
 Missing-join repair (crates/vlorql-core/src/fix/joins.rs).

 Hash sets are iterated in an order nobody promises; here every such choice is made
 nondeterministically, so the contracts hold for all orders.
 */
module Joins {
  import opened Prelude
  import opened Ast
  import opened Place
  import opened Schema
  import opened TableRefs

  // ---- the foreign-key graph ----------------------------------------------

  /** A foreign key in either direction lets `missing` be joined to `source`. */
  predicate Linked(schema: Snapshot, source: string, missing: string) {
    || (exists t :: t in schema && t.name == source && PointsTo(t.columns, missing))
    || (GetTable(schema, missing).Some? && PointsTo(GetTable(schema, missing).value.columns, source))
  }

  /** Nothing referenced can be joined to `scope` any more. */
  ghost predicate Closed(schema: Snapshot, referenced: set<string>, scope: set<string>) {
    forall s, t :: s in scope && t in referenced && Linked(schema, s, t) ==> t in scope
  }

  /** The least closed set of tables around `start`. */
  ghost predicate IsClosure(schema: Snapshot, referenced: set<string>, start: set<string>, scope: set<string>) {
    && start <= scope
    && Closed(schema, referenced, scope)
    && forall other :: start <= other && Closed(schema, referenced, other) ==> scope <= other
  }

  // ---- scope and joins ----------------------------------------------------

  /** Every FROM and JOIN source is a named table, in the plan and in its CTEs; others panic. */
  predicate NamedSources(plan: QueryPlan) {
    && plan.from.Table?
    && (plan.joins.Given? ==> forall i :: 0 <= i < |plan.joins.items| ==> plan.joins.items[i].rightTable.Table?)
    && (plan.ctes.Given? ==> forall i :: 0 <= i < |plan.ctes.items| ==> NamedSources(plan.ctes.items[i].query))
  }

  function JoinedTables(js: seq<JoinClause>): set<string>
    requires forall i :: 0 <= i < |js| ==> js[i].rightTable.Table?
  {
    set i | 0 <= i < |js| :: js[i].rightTable.table
  }

  function ScopeOf(from: FromClause, js: seq<JoinClause>): set<string>
    requires from.Table? && forall i :: 0 <= i < |js| ==> js[i].rightTable.Table?
  {
    {from.table} + JoinedTables(js)
  }

  method ScopeTables(plan: QueryPlan) returns (tables: set<string>)
    requires NamedSources(plan)
    ensures tables == ScopeOf(plan.from, plan.joins.Items())
    ensures forall t :: t in tables <==>
      || plan.from.table == t
      || exists i :: 0 <= i < |plan.joins.Items()| && plan.joins.Items()[i].rightTable.table == t
  {
    tables := {plan.from.table};
    var js := plan.joins.Items();
    for i := 0 to |js|
      invariant tables == ScopeOf(plan.from, js[..i])
    {
      tables := tables + {js[i].rightTable.table};
      assert js[..i + 1] == js[..i] + [js[i]];
    }
    assert js[..|js|] == js;
  }

  /** An inner join of `missing` whose ON equates a declared foreign key with its target. */
  ghost predicate JoinsVia(schema: Snapshot, scope: set<string>, missing: string, join: JoinClause) {
    && join.joinType.Inner? && join.rightTable == FromClause.Table(missing, None)
    && join.on.Comparison? && join.on.op == Compare(Eq)
    && join.on.left.ColumnRef? && join.on.right.ColumnRef?
    && join.on.left.table.Some? && join.on.left.table.value in scope && join.on.right.table == Some(missing)
    && (|| Declares(schema, join.on.left.table.value, join.on.left.column, missing, join.on.right.column)
        || Keeps(schema, missing, join.on.right.column, join.on.left.table.value, join.on.left.column))
  }

  function InnerJoin(source: string, sourceColumn: string, missing: string, missingColumn: string): JoinClause {
    JoinClause(Inner, FromClause.Table(missing, None),
               Comparison(ColumnRef(Some(source), sourceColumn), Compare(Eq), ColumnRef(Some(missing), missingColumn)))
  }

  // ---- which of several foreign keys a join follows -------------------------

  /** An inner join of `missing`, ON `source.sourceColumn = missing.missingColumn`. */
  predicate Equates(join: JoinClause, source: string, sourceColumn: string, missing: string, missingColumn: string) {
    join == JoinClause(
      Inner, FromClause.Table(missing, None),
      Comparison(ColumnRef(Some(source), sourceColumn), Compare(Eq), ColumnRef(Some(missing), missingColumn)))
  }

  /** Column `j` is the first that refers to `target`. */
  predicate IsFirstReferring(columns: seq<ColumnSchema>, target: string, j: nat) {
    j < |columns| && Refers(columns[j], target) && forall k :: 0 <= k < j ==> !Refers(columns[k], target)
  }

  predicate RefersInto(column: ColumnSchema, scope: set<string>) {
    column.foreignKey.Some? && column.foreignKey.value.foreignTable in scope
  }

  /** Column `j` is the first that refers to a table in scope. */
  predicate IsFirstInto(columns: seq<ColumnSchema>, scope: set<string>, j: nat) {
    j < |columns| && RefersInto(columns[j], scope) && forall k :: 0 <= k < j ==> !RefersInto(columns[k], scope)
  }

  /** Table `i` is the first in the schema that is in scope by name and refers to `target`, by column `j` first. */
  predicate IsFirstReference(schema: Snapshot, scope: set<string>, target: string, i: nat, j: nat) {
    && i < |schema| && schema[i].name in scope && IsFirstReferring(schema[i].columns, target, j)
    && forall k :: 0 <= k < i ==> schema[k].name !in scope || !PointsTo(schema[k].columns, target)
  }

  /** Some table in scope has a key to `missing`. */
  predicate ScopePoints(schema: Snapshot, scope: set<string>, missing: string) {
    exists s :: s in scope && GetTable(schema, s).Some? && PointsTo(GetTable(schema, s).value.columns, missing)
  }

  /** `missing` has a key to some table in scope. */
  predicate MissingPoints(schema: Snapshot, scope: set<string>, missing: string) {
    && GetTable(schema, missing).Some?
    && exists j :: 0 <= j < |GetTable(schema, missing).value.columns|
                   && RefersInto(GetTable(schema, missing).value.columns[j], scope)
  }

  ghost predicate FollowsScopeKey(
    schema: Snapshot, scope: set<string>, missing: string, join: JoinClause, s: string, j: nat)
  {
    && s in scope && GetTable(schema, s).Some?
    && var columns := GetTable(schema, s).value.columns;
       IsFirstReferring(columns, missing, j)
       && Equates(join, s, columns[j].name, missing, columns[j].foreignKey.value.foreignColumn)
  }

  ghost predicate FollowsOwnKey(schema: Snapshot, scope: set<string>, missing: string, join: JoinClause, j: nat) {
    && GetTable(schema, missing).Some?
    && var columns := GetTable(schema, missing).value.columns;
       IsFirstInto(columns, scope, j)
       && Equates(join, columns[j].foreignKey.value.foreignTable, columns[j].foreignKey.value.foreignColumn,
                  missing, columns[j].name)
  }

  ghost predicate FollowsReference(
    schema: Snapshot, scope: set<string>, missing: string, join: JoinClause, i: nat, j: nat)
  {
    && IsFirstReference(schema, scope, missing, i, j)
    && var column := schema[i].columns[j];
       Equates(join, schema[i].name, column.name, missing, column.foreignKey.value.foreignColumn)
  }

  /**
   The join follows the first key that a table in scope has to `missing`; failing that the first
   key of `missing` into the scope; failing that the first reference in schema order.
   */
  ghost predicate Preferred(schema: Snapshot, scope: set<string>, missing: string, join: JoinClause) {
    if ScopePoints(schema, scope, missing) then
      exists s: string, j: nat :: FollowsScopeKey(schema, scope, missing, join, s, j)
    else if MissingPoints(schema, scope, missing) then
      exists j: nat :: FollowsOwnKey(schema, scope, missing, join, j)
    else
      exists i: nat, j: nat :: FollowsReference(schema, scope, missing, join, i, j)
  }

  // ---- the reverse index --------------------------------------------------

  datatype Reference = Reference(table: string, column: string, targetColumn: string)

  type Index = map<string, seq<Reference>>

  function Lookup(index: Index, target: string): seq<Reference> {
    if target in index then index[target] else []
  }

  function RefsOfColumns(table: string, columns: seq<ColumnSchema>, target: string): seq<Reference> {
    if columns == [] then []
    else RefsOfColumns(table, columns[..|columns| - 1], target) + RefOfColumn(table, columns[|columns| - 1], target)
  }

  function RefOfColumn(table: string, c: ColumnSchema, target: string): seq<Reference> {
    if Refers(c, target) then [Reference(table, c.name, c.foreignKey.value.foreignColumn)] else []
  }

  /** Every declared foreign key to `target`, in schema order. */
  function RefsTo(schema: Snapshot, target: string): seq<Reference> {
    if schema == [] then []
    else
      var t := schema[|schema| - 1];
      RefsTo(schema[..|schema| - 1], target) + RefsOfColumns(t.name, t.columns, target)
  }

  method BuildReverseFkIndex(schema: Snapshot) returns (index: Index)
    ensures forall target :: Lookup(index, target) == RefsTo(schema, target)
  {
    index := map[];
    for i := 0 to |schema|
      invariant forall target :: Lookup(index, target) == RefsTo(schema[..i], target)
    {
      index := AddReferences(index, schema[i]);
      assert schema[..i + 1][..i] == schema[..i];
    }
    assert schema[..|schema|] == schema;
  }

  method AddReferences(start: Index, t: TableSchema) returns (index: Index)
    ensures forall target :: Lookup(index, target) == Lookup(start, target) + RefsOfColumns(t.name, t.columns, target)
  {
    index := start;
    for j := 0 to |t.columns|
      invariant forall target ::
        Lookup(index, target) == Lookup(start, target) + RefsOfColumns(t.name, t.columns[..j], target)
    {
      hide Lookup, RefOfColumn, RefsOfColumns;
      index := AddReference(index, t.name, t.columns[j]);
      forall target {
        OneMoreColumn(t.name, t.columns, j, target);
      }
    }
    assert t.columns[..|t.columns|] == t.columns;
  }

  lemma OneMoreColumn(table: string, columns: seq<ColumnSchema>, j: nat, target: string)
    requires j < |columns|
    ensures RefsOfColumns(table, columns[..j + 1], target)
         == RefsOfColumns(table, columns[..j], target) + RefOfColumn(table, columns[j], target)
  {
    assert columns[..j + 1][..j] == columns[..j];
  }

  function AddReference(index: Index, table: string, c: ColumnSchema): (added: Index)
    ensures forall target :: Lookup(added, target) == Lookup(index, target) + RefOfColumn(table, c, target)
  {
    match c.foreignKey
    case None => index
    case Some(fk) =>
      index[fk.foreignTable := Lookup(index, fk.foreignTable) + [Reference(table, c.name, fk.foreignColumn)]]
  }

  lemma {:induction false} RefsOfColumnsAreDeclared(table: string, columns: seq<ColumnSchema>, target: string)
    ensures forall r :: r in RefsOfColumns(table, columns, target) ==>
              r.table == table && ColumnSchema(r.column, Some(ForeignKey(target, r.targetColumn))) in columns
    ensures PointsTo(columns, target) ==> RefsOfColumns(table, columns, target) != []
  {
    if columns != [] {
      var last := |columns| - 1;
      RefsOfColumnsAreDeclared(table, columns[..last], target);
      if PointsTo(columns, target) && !Refers(columns[last], target) {
        var j :| 0 <= j < |columns| && Refers(columns[j], target);
        assert Refers(columns[..last][j], target);
      }
    }
  }

  /** The index holds exactly the declared foreign keys. */
  lemma {:induction false} RefsAreDeclarations(schema: Snapshot, target: string)
    ensures forall r :: r in RefsTo(schema, target) ==> Declares(schema, r.table, r.column, target, r.targetColumn)
    ensures forall t :: t in schema && PointsTo(t.columns, target) ==>
              exists r :: r in RefsTo(schema, target) && r.table == t.name
  {
    if schema != [] {
      var last := |schema| - 1;
      var t := schema[last];
      RefsAreDeclarations(schema[..last], target);
      RefsOfColumnsAreDeclared(t.name, t.columns, target);
      forall u | u in schema && PointsTo(u.columns, target)
        ensures exists r :: r in RefsTo(schema, target) && r.table == u.name
      {
        if u == t {
          assert RefsOfColumns(t.name, t.columns, target)[0] in RefsTo(schema, target);
        } else {
          assert u in schema[..last];
        }
      }
    }
  }

  // ---- finding one join ---------------------------------------------------

  /** The first column of `columns` that refers to `target`, if any. */
  method FirstReferring(columns: seq<ColumnSchema>, target: string) returns (found: Option<nat>)
    ensures found.None? <==> !PointsTo(columns, target)
    ensures found.Some? ==> IsFirstReferring(columns, target, found.value)
  {
    for j := 0 to |columns|
      invariant forall k :: 0 <= k < j ==> !Refers(columns[k], target)
    {
      if Refers(columns[j], target) { return Some(j); }
    }
    return None;
  }

  /** A foreign key of some table in scope, tried in an arbitrary order. */
  method JoinFromScope(missing: string, scope: set<string>, schema: Snapshot) returns (join: Option<JoinClause>)
    ensures join.Some? ==> JoinsVia(schema, scope, missing, join.value)
    ensures join.Some? ==> exists s: string, j: nat :: FollowsScopeKey(schema, scope, missing, join.value, s, j)
    ensures join.Some? <==> ScopePoints(schema, scope, missing)
  {
    var todo := scope;
    while todo != {}
      invariant todo <= scope
      invariant forall s :: s in scope - todo && GetTable(schema, s).Some? ==>
                  !PointsTo(GetTable(schema, s).value.columns, missing)
      decreases |todo|
    {
      var s :| s in todo;
      todo := todo - {s};
      var table := GetTable(schema, s);
      if table.Some? {
        var j := FirstReferring(table.value.columns, missing);
        if j.Some? {
          var c := table.value.columns[j.value];
          assert Declares(schema, s, c.name, missing, c.foreignKey.value.foreignColumn) by {
            assert c == ColumnSchema(c.name, Some(ForeignKey(missing, c.foreignKey.value.foreignColumn)));
          }
          var found := InnerJoin(s, c.name, missing, c.foreignKey.value.foreignColumn);
          assert FollowsScopeKey(schema, scope, missing, found, s, j.value);
          return Some(found);
        }
      }
    }
    return None;
  }

  /** The first foreign key of the missing table itself into the scope. */
  method JoinFromMissing(missing: string, scope: set<string>, schema: Snapshot) returns (join: Option<JoinClause>)
    ensures join.Some? ==> JoinsVia(schema, scope, missing, join.value)
    ensures join.Some? ==> exists j: nat :: FollowsOwnKey(schema, scope, missing, join.value, j)
    ensures join.Some? <==> MissingPoints(schema, scope, missing)
  {
    var table := GetTable(schema, missing);
    if table.None? { return None; }
    var columns := table.value.columns;
    for j := 0 to |columns|
      invariant forall k :: 0 <= k < j ==> !RefersInto(columns[k], scope)
    {
      var c := columns[j];
      if c.foreignKey.Some? && c.foreignKey.value.foreignTable in scope {
        var fk := c.foreignKey.value;
        assert c == ColumnSchema(c.name, Some(ForeignKey(fk.foreignTable, fk.foreignColumn)));
        var found := InnerJoin(fk.foreignTable, fk.foreignColumn, missing, c.name);
        assert FollowsOwnKey(schema, scope, missing, found, j);
        return Some(found);
      }
    }
    return None;
  }

  lemma JoinedIsLinked(schema: Snapshot, scope: set<string>, missing: string, join: JoinClause)
    requires JoinsVia(schema, scope, missing, join)
    ensures exists s :: s in scope && Linked(schema, s, missing)
  {
    var s := join.on.left.table.value;
    if Declares(schema, s, join.on.left.column, missing, join.on.right.column) {
      var key := ColumnSchema(join.on.left.column, Some(ForeignKey(missing, join.on.right.column)));
      var t :| t in schema && t.name == s && key in t.columns;
      KeyPoints(t.columns, key, missing);
    } else {
      KeyPoints(GetTable(schema, missing).value.columns,
                ColumnSchema(join.on.right.column, Some(ForeignKey(s, join.on.left.column))), s);
    }
    assert Linked(schema, s, missing);
  }

  lemma KeyPoints(columns: seq<ColumnSchema>, key: ColumnSchema, target: string)
    requires key in columns && Refers(key, target)
    ensures PointsTo(columns, target)
  {
    var j :| 0 <= j < |columns| && columns[j] == key;
    assert Refers(columns[j], target);
  }

  lemma ReferenceJoins(schema: Snapshot, scope: set<string>, missing: string, r: Reference)
    requires r.table in scope && Declares(schema, r.table, r.column, missing, r.targetColumn)
    ensures JoinsVia(schema, scope, missing, InnerJoin(r.table, r.column, missing, r.targetColumn))
  {
    hide Declares;
  }

  /** The references to a table from one other begin with its first referring column. */
  lemma {:induction false} FirstOfColumns(table: string, columns: seq<ColumnSchema>, target: string) returns (j: nat)
    requires RefsOfColumns(table, columns, target) != []
    ensures IsFirstReferring(columns, target, j)
    ensures RefsOfColumns(table, columns, target)[0]
         == Reference(table, columns[j].name, columns[j].foreignKey.value.foreignColumn)
  {
    var last := |columns| - 1;
    var front := columns[..last];
    if RefsOfColumns(table, front, target) != [] {
      j := FirstOfColumns(table, front, target);
      assert forall k :: 0 <= k <= j ==> front[k] == columns[k];
    } else {
      j := last;
      RefsOfColumnsAreDeclared(table, front, target);
      forall k | 0 <= k < last ensures !Refers(columns[k], target) {
        assert front[k] == columns[k];
      }
    }
  }

  /** The first reference from a table in scope is the first in schema order. */
  lemma {:induction false} FirstInOrder(schema: Snapshot, scope: set<string>, target: string, k: nat)
    returns (i: nat, j: nat)
    requires k < |RefsTo(schema, target)| && RefsTo(schema, target)[k].table in scope
    requires forall m :: 0 <= m < k ==> RefsTo(schema, target)[m].table !in scope
    ensures IsFirstReference(schema, scope, target, i, j)
    ensures RefsTo(schema, target)[k]
         == Reference(schema[i].name, schema[i].columns[j].name, schema[i].columns[j].foreignKey.value.foreignColumn)
  {
    hide PointsTo, RefsOfColumns;
    var last := |schema| - 1;
    var front, t := schema[..last], schema[last];
    var before, own := RefsTo(front, target), RefsOfColumns(t.name, t.columns, target);
    assert RefsTo(schema, target) == before + own;
    hide RefsTo;
    assert forall m :: 0 <= m < |before| ==> RefsTo(schema, target)[m] == before[m];
    if k < |before| {
      i, j := FirstInOrder(front, scope, target, k);
      assert forall m :: 0 <= m <= i ==> front[m] == schema[m];
    } else {
      RefsOfColumnsAreDeclared(t.name, t.columns, target);
      assert own[k - |before|] in own;
      assert own[0] in own && RefsTo(schema, target)[|before|] == own[0];
      assert k == |before|;
      i := last;
      j := FirstOfColumns(t.name, t.columns, target);
      NoneInScope(front, scope, target);
      forall m | 0 <= m < last ensures schema[m].name !in scope || !PointsTo(schema[m].columns, target) {
        assert schema[m] in front;
      }
    }
  }

  lemma NoneInScope(schema: Snapshot, scope: set<string>, target: string)
    requires forall m :: 0 <= m < |RefsTo(schema, target)| ==> RefsTo(schema, target)[m].table !in scope
    ensures forall t :: t in schema && t.name in scope ==> !PointsTo(t.columns, target)
  {
    hide PointsTo, RefsTo;
    RefsAreDeclarations(schema, target);
  }

  /** Any declared foreign key to the missing table from a table in scope. */
  method JoinFromReferences(missing: string, scope: set<string>, schema: Snapshot) returns (join: Option<JoinClause>)
    ensures join.Some? ==> JoinsVia(schema, scope, missing, join.value)
    ensures join.Some? ==> exists i: nat, j: nat :: FollowsReference(schema, scope, missing, join.value, i, j)
    ensures join.None? ==> forall t :: t in schema && t.name in scope ==> !PointsTo(t.columns, missing)
  {
    hide JoinsVia, Declares, PointsTo, IsFirstReference, RefsTo;
    var reverse := BuildReverseFkIndex(schema);
    var refs := Lookup(reverse, missing);
    RefsAreDeclarations(schema, missing);
    for n := 0 to |refs|
      invariant forall k :: 0 <= k < n ==> refs[k].table !in scope
    {
      if refs[n].table in scope {
        assert refs[n] in RefsTo(schema, missing);
        ReferenceJoins(schema, scope, missing, refs[n]);
        ghost var i, j := FirstInOrder(schema, scope, missing, n);
        join := Some(InnerJoin(refs[n].table, refs[n].column, missing, refs[n].targetColumn));
        assert FollowsReference(schema, scope, missing, join.value, i, j);
        return;
      }
    }
    return None;
  }

  lemma OwnKeysPoint(schema: Snapshot, scope: set<string>, missing: string)
    ensures MissingPoints(schema, scope, missing) <==>
      GetTable(schema, missing).Some? && exists s :: s in scope && PointsTo(GetTable(schema, missing).value.columns, s)
  {
    if GetTable(schema, missing).Some? {
      var columns := GetTable(schema, missing).value.columns;
      if j :| 0 <= j < |columns| && RefersInto(columns[j], scope) {
        assert Refers(columns[j], columns[j].foreignKey.value.foreignTable);
        assert PointsTo(columns, columns[j].foreignKey.value.foreignTable);
      }
      if s :| s in scope && PointsTo(columns, s) {
        var j :| 0 <= j < |columns| && Refers(columns[j], s);
        assert RefersInto(columns[j], scope);
      }
    }
  }

  method FindJoinFor(missing: string, scope: set<string>, schema: Snapshot) returns (join: Option<JoinClause>)
    ensures join.Some? ==> JoinsVia(schema, scope, missing, join.value)
    ensures join.Some? ==> Preferred(schema, scope, missing, join.value)
    ensures join.None? <==> forall s :: s in scope ==> !Linked(schema, s, missing)
  {
    hide JoinsVia, FollowsScopeKey, FollowsOwnKey, FollowsReference, ScopePoints, MissingPoints;
    join := JoinFromScope(missing, scope, schema);
    if join.None? { join := JoinFromMissing(missing, scope, schema); }
    if join.None? { join := JoinFromReferences(missing, scope, schema); }
    OwnKeysPoint(schema, scope, missing);
    if join.Some? { JoinedIsLinked(schema, scope, missing, join.value); }
  }

  // ---- adding joins -------------------------------------------------------

  predicate AllNamed(js: seq<JoinClause>) {
    forall i :: 0 <= i < |js| ==> js[i].rightTable.Table?
  }

  /** Join `k` brings in a referenced table that no earlier source provides, along the preferred foreign key. */
  ghost predicate WellAdded(schema: Snapshot, plan: QueryPlan, js: seq<JoinClause>, k: nat)
    requires plan.from.Table? && k < |js| && AllNamed(js)
  {
    && js[k].rightTable.table in Referenced(plan)
    && js[k].rightTable.table !in ScopeOf(plan.from, js[..k])
    && JoinsVia(schema, ScopeOf(plan.from, js[..k]), js[k].rightTable.table, js[k])
    && Preferred(schema, ScopeOf(plan.from, js[..k]), js[k].rightTable.table, js[k])
  }

  /** `joins` keeps the plan's joins as a prefix and adds only what every closure must contain. */
  ghost predicate Extends(schema: Snapshot, plan: QueryPlan, joins: Clause<JoinClause>)
    requires plan.from.Table? && AllNamed(plan.joins.Items())
  {
    var before, after := plan.joins.Items(), joins.Items();
    && before <= after && AllNamed(after)
    && (after == before ==> joins == plan.joins)
    && (forall k :: |before| <= k < |after| ==> WellAdded(schema, plan, after, k))
    && |ScopeOf(plan.from, after)| - |ScopeOf(plan.from, before)| == |after| - |before|
    && forall other :: ScopeOf(plan.from, before) <= other && Closed(schema, Referenced(plan), other) ==>
         ScopeOf(plan.from, after) <= other
  }

  lemma ScopeGrows(from: FromClause, js: seq<JoinClause>, join: JoinClause)
    requires from.Table? && AllNamed(js) && join.rightTable.Table?
    ensures AllNamed(js + [join]) && ScopeOf(from, js + [join]) == ScopeOf(from, js) + {join.rightTable.table}
  {
    var more := js + [join];
    assert more[|js|] == join;
    assert forall i :: 0 <= i < |js| ==> more[i] == js[i];
    forall t | t in ScopeOf(from, js) + {join.rightTable.table} ensures t in ScopeOf(from, more) {
      if t == join.rightTable.table {
        assert more[|js|].rightTable.table in JoinedTables(more);
      } else if t != from.table {
        var i :| 0 <= i < |js| && js[i].rightTable.table == t;
        assert more[i].rightTable.table in JoinedTables(more);
      }
    }
  }

  lemma PushExtends(schema: Snapshot, plan: QueryPlan, joins: Clause<JoinClause>, missing: string, join: JoinClause)
    requires plan.from.Table? && AllNamed(plan.joins.Items()) && Extends(schema, plan, joins)
    requires missing in Referenced(plan) && missing !in ScopeOf(plan.from, joins.Items())
    requires JoinsVia(schema, ScopeOf(plan.from, joins.Items()), missing, join)
    requires Preferred(schema, ScopeOf(plan.from, joins.Items()), missing, join)
    ensures Extends(schema, plan, Given(joins.Items() + [join]))
    ensures ScopeOf(plan.from, joins.Items() + [join]) == ScopeOf(plan.from, joins.Items()) + {missing}
  {
    hide Referenced, JoinsVia, Preferred, Linked, Closed, ScopeOf;
    var js := joins.Items();
    var more := js + [join];
    assert join.rightTable == FromClause.Table(missing, None) by { JoinedTable(schema, ScopeOf(plan.from, js), missing, join); }
    ScopeGrows(plan.from, js, join);
    JoinedIsLinked(schema, ScopeOf(plan.from, js), missing, join);
    forall k | |plan.joins.Items()| <= k < |more| ensures WellAdded(schema, plan, more, k) {
      assert more[..k] == js[..k];
      if k < |js| { assert WellAdded(schema, plan, js, k) && more[k] == js[k]; } else { assert more[..k] == js; }
    }
    forall other | ScopeOf(plan.from, plan.joins.Items()) <= other && Closed(schema, Referenced(plan), other)
      ensures ScopeOf(plan.from, more) <= other
    {
      LinkedIsInside(schema, Referenced(plan), ScopeOf(plan.from, js), other, missing);
    }
  }

  lemma JoinedTable(schema: Snapshot, scope: set<string>, missing: string, join: JoinClause)
    requires JoinsVia(schema, scope, missing, join)
    ensures join.rightTable == FromClause.Table(missing, None)
  {
  }

  lemma LinkedIsInside(schema: Snapshot, referenced: set<string>, scope: set<string>, other: set<string>, missing: string)
    requires scope <= other && Closed(schema, referenced, other) && missing in referenced
    requires exists s :: s in scope && Linked(schema, s, missing)
    ensures missing in other
  {
  }

  /** The elements of a hash set in whatever order it yields them. */
  method InSomeOrder(names: set<string>) returns (order: seq<string>)
    ensures forall t :: t in order <==> t in names
    ensures forall i, j :: 0 <= i < j < |order| ==> order[i] != order[j]
  {
    order := [];
    var todo := names;
    while todo != {}
      invariant todo <= names
      invariant forall t :: t in order <==> t in names - todo
      invariant forall i, j :: 0 <= i < j < |order| ==> order[i] != order[j]
      decreases |todo|
    {
      var t :| t in todo;
      assert t !in order;
      todo := todo - {t};
      order := order + [t];
    }
  }

  /** Tries every missing table once. */
  method JoinPass(cell: PlanCell, missing: seq<string>, scope: set<string>, schema: Snapshot, ghost plan: QueryPlan)
    returns (foundAny: bool)
    requires plan.from.Table? && AllNamed(plan.joins.Items())
    requires cell.plan == plan.(joins := cell.plan.joins) && Extends(schema, plan, cell.plan.joins)
    requires scope == ScopeOf(plan.from, cell.plan.joins.Items())
    requires forall i :: 0 <= i < |missing| ==> missing[i] in Referenced(plan) && missing[i] !in scope
    requires forall i, j :: 0 <= i < j < |missing| ==> missing[i] != missing[j]
    modifies cell
    ensures cell.plan == plan.(joins := cell.plan.joins) && Extends(schema, plan, cell.plan.joins)
    ensures foundAny ==> scope < ScopeOf(plan.from, cell.plan.joins.Items())
    ensures !foundAny ==> cell.plan == old(cell.plan)
    ensures !foundAny ==> forall t, s :: t in missing && s in scope ==> !Linked(schema, s, t)
  {
    foundAny := false;
    var reached := scope;
    for i := 0 to |missing|
      invariant cell.plan == plan.(joins := cell.plan.joins) && Extends(schema, plan, cell.plan.joins)
      invariant reached == ScopeOf(plan.from, cell.plan.joins.Items())
      invariant if foundAny then scope < reached else reached == scope && cell.plan == old(cell.plan)
      invariant forall k :: i <= k < |missing| ==> missing[k] !in reached
      invariant !foundAny ==> forall k, s :: 0 <= k < i && s in scope ==> !Linked(schema, s, missing[k])
    {
      hide Extends, ScopeOf, Referenced, JoinsVia, Preferred, Linked;
      var join := FindJoinFor(missing[i], reached, schema);
      if join.Some? {
        PushExtends(schema, plan, cell.plan.joins, missing[i], join.value);
        cell.plan := cell.plan.(joins := Given(cell.plan.joins.Items() + [join.value]));
        reached := reached + {missing[i]};
        foundAny := true;
      }
    }
  }

  lemma ScopeIsMentioned(schema: Snapshot, plan: QueryPlan, joins: Clause<JoinClause>)
    requires plan.from.Table? && AllNamed(plan.joins.Items()) && Extends(schema, plan, joins)
    ensures ScopeOf(plan.from, joins.Items()) <= ScopeOf(plan.from, plan.joins.Items()) + Referenced(plan)
  {
    hide ScopeOf, Linked, Referenced;
    var all := ScopeOf(plan.from, plan.joins.Items()) + Referenced(plan);
    assert Closed(schema, Referenced(plan), all);
  }

  lemma LessIsLeft(all: set<string>, a: set<string>, b: set<string>)
    requires a < b <= all
    ensures |all - b| < |all - a|
  {
    assert exists t :: t in b && t !in a;
    var t :| t in b && t !in a;
    assert all - a == (all - a - {t}) + {t};
    assert all - b <= all - a - {t};
    SubsetIsNoLarger(all - b, all - a - {t});
  }

  lemma {:induction false} SubsetIsNoLarger(a: set<string>, b: set<string>)
    requires a <= b
    ensures |a| <= |b|
  {
    if a != {} {
      var t :| t in a;
      SubsetIsNoLarger(a - {t}, b - {t});
    }
  }

  /** Joins that extend the plan and leave no missing table linked reach the closure. */
  lemma NothingLinkedIsDone(
    schema: Snapshot, plan: QueryPlan, joins: Clause<JoinClause>, scope: set<string>, missing: seq<string>)
    requires plan.from.Table? && AllNamed(plan.joins.Items()) && Extends(schema, plan, joins)
    requires scope == ScopeOf(plan.from, joins.Items())
    requires forall t :: t in Referenced(plan) ==> t in scope || t in missing
    requires forall t, s :: t in missing && s in scope ==> !Linked(schema, s, t)
    ensures AddsJoins(schema, plan, joins)
  {
    hide Linked, Referenced;
    assert ScopeOf(plan.from, plan.joins.Items()) <= scope by {
      assert forall i :: 0 <= i < |plan.joins.Items()| ==> plan.joins.Items()[i] == joins.Items()[i];
      hide Extends;
    }
  }

  /** Passes over the missing tables until one adds nothing. */
  method AddMissingJoins(cell: PlanCell, schema: Snapshot) returns (changed: bool)
    requires NamedSources(cell.plan)
    modifies cell
    ensures cell.plan == old(cell.plan).(joins := cell.plan.joins)
    ensures AddsJoins(schema, old(cell.plan), cell.plan.joins)
    ensures changed <==> cell.plan != old(cell.plan)
  {
    hide Extends, ScopeOf, Referenced, Linked, JoinsVia, WellAdded;
    ghost var plan := cell.plan;
    ghost var all := ScopeOf(plan.from, plan.joins.Items()) + Referenced(plan);
    var referenced := CollectReferenced(cell.plan);
    changed := false;
    NoJoinsExtend(schema, plan);
    while true
      invariant cell.plan == plan.(joins := cell.plan.joins) && Extends(schema, plan, cell.plan.joins)
      invariant NamedSources(cell.plan)
      invariant changed <==> cell.plan != plan
      invariant ScopeOf(plan.from, cell.plan.joins.Items()) <= all
      invariant changed ==> ScopeOf(plan.from, plan.joins.Items()) < ScopeOf(plan.from, cell.plan.joins.Items())
      decreases |all - ScopeOf(plan.from, cell.plan.joins.Items())|
    {
      var scope := ScopeTables(cell.plan);
      var missing := InSomeOrder(referenced - scope);
      assert forall t :: t in referenced ==> t in scope || t in missing;
      if missing == [] {
        NothingLinkedIsDone(schema, plan, cell.plan.joins, scope, missing);
        break;
      }
      assert forall i :: 0 <= i < |missing| ==> missing[i] in referenced - scope;
      var foundAny := JoinPass(cell, missing, scope, schema, plan);
      if !foundAny {
        NothingLinkedIsDone(schema, plan, cell.plan.joins, scope, missing);
        break;
      }
      changed := true;
      ExtendedIsNamed(schema, plan, cell.plan);
      ScopeIsMentioned(schema, plan, cell.plan.joins);
      LessIsLeft(all, scope, ScopeOf(plan.from, cell.plan.joins.Items()));
    }
  }

  lemma NoJoinsExtend(schema: Snapshot, plan: QueryPlan)
    requires NamedSources(plan)
    ensures Extends(schema, plan, plan.joins)
  {
  }

  lemma ExtendedIsNamed(schema: Snapshot, plan: QueryPlan, after: QueryPlan)
    requires NamedSources(plan) && after == plan.(joins := after.joins) && Extends(schema, plan, after.joins)
    ensures NamedSources(after)
  {
  }

  // ---- whole plans --------------------------------------------------------

  /** The joins reach exactly the closure, and no further. */
  ghost predicate AddsJoins(schema: Snapshot, plan: QueryPlan, joins: Clause<JoinClause>)
    requires plan.from.Table? && AllNamed(plan.joins.Items())
  {
    && Extends(schema, plan, joins)
    && IsClosure(schema, Referenced(plan), ScopeOf(plan.from, plan.joins.Items()), ScopeOf(plan.from, joins.Items()))
  }

  /** `after` is `before` with the missing joins added, there and in every CTE, and nothing else changed. */
  ghost predicate Repaired(schema: Snapshot, before: QueryPlan, after: QueryPlan)
    decreases before, 0
  {
    && NamedSources(before)
    && after == before.(joins := after.joins, ctes := after.ctes)
    && AddsJoins(schema, before, after.joins)
    && RepairedCtes(schema, before.ctes, after.ctes)
  }

  ghost predicate RepairedCtes(
    schema: Snapshot, before: Clause<CommonTableExpression>, after: Clause<CommonTableExpression>)
    decreases before, 1
  {
    match before
    case Absent => after == Absent
    case Given(cs) =>
      && after.Given? && |after.items| == |cs|
      && forall i :: 0 <= i < |cs| ==>
           && after.items[i] == cs[i].(query := after.items[i].query)
           && Repaired(schema, cs[i].query, after.items[i].query)
  }

  method FixMissingJoins(cell: PlanCell, schema: Snapshot) returns (changed: bool)
    requires NamedSources(cell.plan)
    modifies cell
    ensures Repaired(schema, old(cell.plan), cell.plan)
    ensures changed <==> cell.plan != old(cell.plan)
    decreases cell.plan, 0
  {
    ghost var before := cell.plan;
    changed := AddMissingJoins(cell, schema);
    if cell.plan.ctes.Given? {
      var cs := cell.plan.ctes.items;
      var fixed, changedCtes := FixCtes(cs, schema);
      cell.plan := cell.plan.(ctes := Given(fixed));
      changed := changed || changedCtes;
    }
  }

  method FixCtes(cs: seq<CommonTableExpression>, schema: Snapshot)
    returns (fixed: seq<CommonTableExpression>, changed: bool)
    requires forall i :: 0 <= i < |cs| ==> NamedSources(cs[i].query)
    ensures RepairedCtes(schema, Given(cs), Given(fixed))
    ensures changed <==> fixed != cs
    decreases cs, 1
  {
    hide Repaired, RepairedCtes, RepairedCte, NamedSources;
    fixed, changed := [], false;
    for i := 0 to |cs|
      invariant |fixed| == i
      invariant forall k :: 0 <= k < i ==> RepairedCte(schema, cs[k], fixed[k])
      invariant changed <==> fixed != cs[..i]
    {
      assert cs decreases to cs[i];
      var cell := new PlanCell(cs[i].query);
      var c := FixMissingJoins(cell, schema);
      QueryReplaced(schema, cs[i], cell.plan);
      var cte := cs[i].(query := cell.plan);
      AppendedDiffers(fixed, cte, cs, i);
      changed := changed || c;
      fixed := fixed + [cte];
    }
    assert cs[..|cs|] == cs;
    AllRepaired(schema, cs, fixed);
  }

  ghost predicate RepairedCte(schema: Snapshot, before: CommonTableExpression, after: CommonTableExpression) {
    after == before.(query := after.query) && Repaired(schema, before.query, after.query)
  }

  lemma QueryReplaced(schema: Snapshot, cte: CommonTableExpression, query: QueryPlan)
    requires Repaired(schema, cte.query, query)
    ensures RepairedCte(schema, cte, cte.(query := query))
    ensures cte.(query := query) == cte <==> query == cte.query
  {
    hide Repaired;
  }

  lemma AppendedDiffers<T>(fixed: seq<T>, next: T, all: seq<T>, i: nat)
    requires i == |fixed| < |all|
    ensures fixed + [next] == all[..i + 1] <==> fixed == all[..i] && next == all[i]
  {
    assert all[..i + 1] == all[..i] + [all[i]];
    if fixed + [next] == all[..i + 1] {
      assert fixed == (fixed + [next])[..i] == all[..i];
      assert next == (fixed + [next])[i];
    }
  }

  lemma AllRepaired(schema: Snapshot, cs: seq<CommonTableExpression>, fixed: seq<CommonTableExpression>)
    requires |fixed| == |cs| && forall k :: 0 <= k < |cs| ==> RepairedCte(schema, cs[k], fixed[k])
    ensures RepairedCtes(schema, Given(cs), Given(fixed))
  {
    hide Repaired;
  }

  // ---- main results -------------------------------------------------------

  /** There is only one closure, so the tables joined do not depend on any iteration order. */
  lemma ClosureIsUnique(schema: Snapshot, referenced: set<string>, start: set<string>, a: set<string>, b: set<string>)
    requires IsClosure(schema, referenced, start, a) && IsClosure(schema, referenced, start, b)
    ensures a == b
  {
  }

  /** Two repairs of one plan join the same tables, by equally many joins. */
  lemma RepairsAgree(schema: Snapshot, plan: QueryPlan, a: QueryPlan, b: QueryPlan)
    requires Repaired(schema, plan, a) && Repaired(schema, plan, b)
    ensures ScopeOf(plan.from, a.joins.Items()) == ScopeOf(plan.from, b.joins.Items())
    ensures |a.joins.Items()| == |b.joins.Items()|
  {
    hide ScopeOf, Referenced, IsClosure;
    ClosureIsUnique(schema, Referenced(plan), ScopeOf(plan.from, plan.joins.Items()),
                    ScopeOf(plan.from, a.joins.Items()), ScopeOf(plan.from, b.joins.Items()));
  }

  /** A plan gets at most one join per referenced table that was out of scope. */
  lemma AddedJoinsAreBounded(schema: Snapshot, before: QueryPlan, after: QueryPlan)
    requires Repaired(schema, before, after)
    ensures |after.joins.Items()| - |before.joins.Items()|
         <= |Referenced(before) - ScopeOf(before.from, before.joins.Items())|
  {
    hide ScopeOf, Referenced, Linked, WellAdded;
    var small, large := ScopeOf(before.from, before.joins.Items()), ScopeOf(before.from, after.joins.Items());
    ScopeIsMentioned(schema, before, after.joins);
    assert large == small + (large - small);
    SubsetIsNoLarger(large - small, Referenced(before) - small);
  }

  /** A second repair changes nothing, whatever orders the two runs used. */
  lemma {:induction false} RepairIsIdempotent(schema: Snapshot, plan: QueryPlan, once: QueryPlan, twice: QueryPlan)
    requires Repaired(schema, plan, once) && Repaired(schema, once, twice)
    ensures twice == once
    decreases plan, 0
  {
    NothingLeftToJoin(schema, plan, once, twice.joins);
    CtesAreIdempotent(schema, plan.ctes, once.ctes, twice.ctes);
  }

  lemma NothingLeftToJoin(schema: Snapshot, plan: QueryPlan, once: QueryPlan, joins: Clause<JoinClause>)
    requires NamedSources(plan) && AddsJoins(schema, plan, once.joins)
    requires once == plan.(joins := once.joins, ctes := once.ctes)
    requires AddsJoins(schema, once, joins)
    ensures joins == once.joins
  {
    hide JoinsVia, Preferred, Linked;
    var before, after := once.joins.Items(), joins.Items();
    assert Referenced(once) == Referenced(plan);
    assert ScopeOf(once.from, after) == ScopeOf(once.from, before);
    assert after == before;
  }

  lemma {:induction false} CtesAreIdempotent(
    schema: Snapshot, before: Clause<CommonTableExpression>, once: Clause<CommonTableExpression>,
    twice: Clause<CommonTableExpression>)
    requires RepairedCtes(schema, before, once) && RepairedCtes(schema, once, twice)
    ensures twice == once
    decreases before, 1
  {
    if before.Given? {
      forall i | 0 <= i < |before.items| ensures twice.items[i] == once.items[i] {
        assert before decreases to before.items[i];
        RepairIsIdempotent(schema, before.items[i].query, once.items[i].query, twice.items[i].query);
      }
    }
  }

  /** A chain of tables from the starting scope, each referenced and linked to the one before. */
  ghost predicate Chain(schema: Snapshot, referenced: set<string>, start: set<string>, path: seq<string>) {
    && path != [] && path[0] in start
    && forall i :: 0 < i < |path| ==> path[i] in referenced && Linked(schema, path[i - 1], path[i])
  }

  ghost predicate Reaches(schema: Snapshot, referenced: set<string>, start: set<string>, t: string) {
    exists path :: Chain(schema, referenced, start, path) && path[|path| - 1] == t
  }

  lemma ReachExtends(schema: Snapshot, referenced: set<string>, start: set<string>, s: string, t: string)
    requires t in referenced && Linked(schema, s, t) && Reaches(schema, referenced, start, s)
    ensures Reaches(schema, referenced, start, t)
  {
    var path :| Chain(schema, referenced, start, path) && path[|path| - 1] == s;
    var longer := path + [t];
    hide Linked;
    assert Chain(schema, referenced, start, longer);
    assert longer[|longer| - 1] == t;
  }

  /** The closure is what chains of foreign keys through referenced tables can reach. */
  lemma ClosureIsReachability(schema: Snapshot, referenced: set<string>, start: set<string>, scope: set<string>)
    requires IsClosure(schema, referenced, start, scope)
    ensures forall t :: t in scope <==> Reaches(schema, referenced, start, t)
  {
    hide Linked;
    var reached := set t | t in start + referenced && Reaches(schema, referenced, start, t);
    forall t | t in start ensures t in reached {
      assert Chain(schema, referenced, start, [t]);
    }
    hide Reaches;
    forall s, t | s in reached && t in referenced && Linked(schema, s, t) ensures t in reached {
      ReachExtends(schema, referenced, start, s, t);
    }
    assert scope <= reached;
    forall t | Reaches(schema, referenced, start, t) ensures t in scope {
      ReachedIsInside(schema, referenced, start, scope, t);
    }
  }

  lemma ReachedIsInside(
    schema: Snapshot, referenced: set<string>, start: set<string>, scope: set<string>, t: string)
    requires start <= scope && Closed(schema, referenced, scope) && Reaches(schema, referenced, start, t)
    ensures t in scope
  {
    var path :| Chain(schema, referenced, start, path) && path[|path| - 1] == t;
    ChainStaysInside(schema, referenced, start, scope, path);
  }

  lemma {:induction false} ChainStaysInside(
    schema: Snapshot, referenced: set<string>, start: set<string>, scope: set<string>, path: seq<string>)
    requires start <= scope && Closed(schema, referenced, scope) && Chain(schema, referenced, start, path)
    ensures path[|path| - 1] in scope
    decreases |path|
  {
    if |path| > 1 {
      var shorter := path[..|path| - 1];
      assert Chain(schema, referenced, start, shorter);
      ChainStaysInside(schema, referenced, start, scope, shorter);
    }
  }
}
