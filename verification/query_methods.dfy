/** The patched `QueryMethods#build_select`: a query without explicit selects
    projects `*` of the relation's own table, which after `from_partition` is
    the aliased child table, instead of the model's parent table. */
module QueryMethods {
  import opened Ruby
  import opened Naming
  import opened ModelSchema

  /** `build_select(arel, selects)`: the projections appended to the select
      manager, and the relation's `@implicit_readonly` afterwards. */
  function BuildSelect(rel: Relation, projections: seq<Projection>, selects: seq<string>): (r: (seq<Projection>, Relation))
    ensures 0 < |selects| ==> |r.0| == |projections| + |selects|
    ensures 0 < |selects| ==> forall i | 0 <= i < |selects| :: r.0[|projections| + i] == Select(selects[i])
    ensures |selects| == 0 ==> r.0 == projections + [Star(rel.table)]
    ensures r.0[..|projections|] == projections
    ensures 0 < |selects| ==> r.1 == rel.(implicitReadonly := Some(false))
    ensures |selects| == 0 ==> r.1 == rel
  {
    if 0 < |selects| then
      (projections + SelectsOf(selects), rel.(implicitReadonly := Some(false)))
    else
      (projections + [Star(rel.table)], rel)
  }

  /** The select strings as projections, in order. */
  function SelectsOf(selects: seq<string>): (r: seq<Projection>)
    ensures |r| == |selects|
    ensures forall i | 0 <= i < |selects| :: r[i] == Select(selects[i])
  {
    if |selects| == 0 then [] else [Select(selects[0])] + SelectsOf(selects[1..])
  }

  /** On a `from_partition` relation of a partitioned model, a query without
      selects projects `*` of a table aliased exactly as the FROM clause names
      the child table, so the projection refers to the table being read. */
  lemma StarFollowsPartitionAlias(cls: ModelClass, base: Relation, keys: seq<Value>, projections: seq<Projection>)
    requires cls.kind.Partitioned?
    requires FromPartition(cls, base, keys).Ok?
    ensures var rel := FromPartition(cls, base, keys).value;
      var star := BuildSelect(rel, projections, []).0[|projections|];
      && star.Star?
      && star.of.tableAlias == Some(PartitionAliasName(cls.tableName))
      && rel.source == Some(AliasedSource(TableName(cls, keys).value, star.of.tableAlias.value))
  {
  }
}
