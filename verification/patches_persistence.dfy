/** The `Persistence` patches of `patches/active_record/persistence.rb`: when
    the model defines `dynamic_arel_table`, `destroy` builds its relation on
    that table and `update` filters on its primary-key column; `create`
    prefetches the primary key when the model answers
    `prefetch_primary_key?` with true, and adopts the inserted id only for a
    model with a primary key. */
module PatchesPersistence {
  import opened Ruby
  import opened ModelSchema
  import opened Records
  import opened RelationInsert
  import opened Creation

  /** `destroy`: on a partition-aware model, a DELETE from a relation on the
      record's own table; otherwise on the model table. Only a persisted
      record is deleted; the record always ends destroyed and frozen. */
  function Destroy(m: Model, rec: Record): (r: (Record, Option<Statement>))
    ensures r.0 == rec.(destroyed := true, frozen := true)
    ensures r.1.Some? <==> Persisted(rec)
    ensures r.1.Some? && m.instanceDynamicArelTable.Some? ==>
      var t := m.instanceDynamicArelTable.value(rec.attributes);
      r.1.value == DeleteById(Unscoped(t), t, m.primaryKey, Id(m, rec))
    ensures r.1.Some? && m.instanceDynamicArelTable.None? ==>
      r.1.value == DeleteById(Unscoped(m.classTable), m.classTable, m.primaryKey, Id(m, rec))
  {
    if !Persisted(rec) then (rec.(destroyed := true, frozen := true), None)
    else
      var t := match m.instanceDynamicArelTable
        case Some(f) => f(rec.attributes)
        case None => m.classTable;
      (rec.(destroyed := true, frozen := true), Some(DeleteById(Unscoped(t), t, m.primaryKey, Id(m, rec))))
  }

  /** The statement a persisted record's `destroy` issues reads from and
      filters on one and the same table. */
  lemma DestroyTargetsOneTable(m: Model, rec: Record)
    requires Persisted(rec)
    ensures var s := Destroy(m, rec).1.value;
      s.from.table == s.whereTable
  {
  }

  /** `update(attribute_names)`: nothing to write gives 0 and no statement;
      otherwise an UPDATE by id filtered on the primary-key column of the
      record's `dynamic_arel_table` when the model has one, of the model
      table otherwise. */
  function Update(m: Model, rec: Record, names: seq<string>, rowCount: Statement -> int): (r: (int, Option<Statement>))
    ensures |AttributesValues(m, rec, false, names)| == 0 <==> r.1.None?
    ensures r.1.None? ==> r.0 == 0
    ensures r.1.Some? ==> r.0 == rowCount(r.1.value)
    ensures r.1.Some? ==> r.1.value.UpdateById? && r.1.value.from == Unscoped(m.classTable)
    ensures r.1.Some? ==>
      r.1.value.whereTable == (if m.instanceDynamicArelTable.Some? then m.instanceDynamicArelTable.value(rec.attributes) else m.classTable)
    ensures r.1.Some? ==> r.1.value.assignments == OnTable(m.classTable, AttributesValues(m, rec, false, names))
  {
    var values := AttributesValues(m, rec, false, names);
    if |values| == 0 then (0, None)
    else
      var t := match m.instanceDynamicArelTable
        case Some(f) => f(rec.attributes)
        case None => m.classTable;
      var stmt := UpdateById(Unscoped(m.classTable), t, m.primaryKey, Id(m, rec), OnTable(m.classTable, values));
      (rowCount(stmt), Some(stmt))
  }

  /** `create`: prefetch only when the id is `nil` and the model answers
      `prefetch_primary_key?` with true, its own answer or the default that
      asks the connection; otherwise the insert draws a missing id when the
      connection asks for one. */
  function CreateRecord(m: Model, rec: Record, counter: int, reportedId: InsertCall -> Value): (r: Created)
    ensures r == Create(m, rec, m.respondsToPrefetch && ModelPrefetch(m), counter, reportedId)
    ensures !r.rec.newRecord && r.id == Id(m, r.rec)
    ensures m.primaryKey.None? ==> r.id == Nil
    ensures Id(m, rec) != Nil ==> r.id == Id(m, rec)
    ensures counter <= r.counter <= counter + 1
    ensures m.primaryKey.Some? && Id(m, rec) == Nil && m.respondsToPrefetch && m.classPrefetch == Some(true) ==>
      r.id == Int(counter) && r.counter == counter + 1
    ensures m.primaryKey.Some? && Id(m, rec) == Nil ==>
      (r.counter == counter + 1 <==>
         (m.respondsToPrefetch && ModelPrefetch(m)) || m.connectionPrefetch(m.cls.tableName))
  {
    var p := m.respondsToPrefetch && ModelPrefetch(m);
    CreateDrawsAtMostOnce(m, rec, p, counter, reportedId);
    if m.primaryKey.Some? then
      CreateDraws(m, rec, p, counter, reportedId);
      Create(m, rec, p, counter, reportedId)
    else
      Create(m, rec, p, counter, reportedId)
  }
}
