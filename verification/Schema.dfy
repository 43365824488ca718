/** The part of a schema snapshot the plan repairs read (schema/snapshot.rs). */
module Schema {
  import opened Prelude

  datatype ForeignKey = ForeignKey(foreignTable: string, foreignColumn: string)

  datatype ColumnSchema = ColumnSchema(name: string, foreignKey: Option<ForeignKey>)

  datatype TableSchema = TableSchema(name: string, columns: seq<ColumnSchema>)

  type Snapshot = seq<TableSchema>

  /** Table `i` has the name, and no later one does. */
  predicate IsLastNamed(schema: Snapshot, name: string, i: nat) {
    i < |schema| && schema[i].name == name && forall j :: i < j < |schema| ==> schema[j].name != name
  }

  /** Lookup by exact name; of several tables with one name, the index keeps the last. */
  function GetTable(schema: Snapshot, name: string): (t: Option<TableSchema>)
    ensures t.Some? ==> exists i :: 0 <= i < |schema| && schema[i] == t.value && IsLastNamed(schema, name, i)
    ensures t.Some? ==> t.value in schema && t.value.name == name
    ensures t.None? ==> forall i :: 0 <= i < |schema| ==> schema[i].name != name
  {
    if schema == [] then None
    else
      var last := |schema| - 1;
      if schema[last].name == name then
        assert IsLastNamed(schema, name, last);
        Some(schema[last])
      else
        var found := GetTable(schema[..last], name);
        StillLastNamed(schema, name);
        found
  }

  lemma StillLastNamed(schema: Snapshot, name: string)
    requires schema != [] && schema[|schema| - 1].name != name
    ensures forall i: nat :: IsLastNamed(schema[..|schema| - 1], name, i) ==> IsLastNamed(schema, name, i)
  {
    var front := schema[..|schema| - 1];
    forall i: nat | IsLastNamed(front, name, i)
      ensures IsLastNamed(schema, name, i)
    {
      forall j | i < j < |schema| ensures schema[j].name != name {
        if j < |front| { assert front[j] == schema[j]; }
      }
    }
  }

  /** One of the columns refers to `target`. */
  predicate PointsTo(columns: seq<ColumnSchema>, target: string) {
    exists j :: 0 <= j < |columns| && Refers(columns[j], target)
  }

  predicate Refers(column: ColumnSchema, target: string) {
    column.foreignKey.Some? && column.foreignKey.value.foreignTable == target
  }

  /** `owner.column` is declared a foreign key to `target.targetColumn`. */
  predicate Declares(schema: Snapshot, owner: string, column: string, target: string, targetColumn: string) {
    exists t :: t in schema && t.name == owner
      && ColumnSchema(column, Some(ForeignKey(target, targetColumn))) in t.columns
  }

  /** The same for the table that lookup by name finds. */
  predicate Keeps(schema: Snapshot, owner: string, column: string, target: string, targetColumn: string) {
    GetTable(schema, owner).Some?
    && ColumnSchema(column, Some(ForeignKey(target, targetColumn))) in GetTable(schema, owner).value.columns
  }

  predicate HasColumn(t: TableSchema, column: string) {
    exists j :: 0 <= j < |t.columns| && t.columns[j].name == column
  }
}
