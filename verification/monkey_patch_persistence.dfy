/** The `Persistence` patches of `monkey_patch_activerecord.rb`: `destroy`
    and `update` address the primary-key column of the record's
    `dynamic_arel_table` when the record has one, and `create` prefetches the
    primary key when the model answers `prefetch_primary_key?` with true. */
module MonkeyPatchPersistence {
  import opened Ruby
  import opened ModelSchema
  import opened Records
  import opened RelationInsert
  import opened Creation
  import PatchesPersistence

  /** The table whose primary-key column the WHERE clause names. */
  function UsingTable(m: Model, rec: Record): ArelTable
  {
    match m.instanceDynamicArelTable
    case None => m.classTable
    case Some(f) => f(rec.attributes)
  }

  /** `destroy`: a DELETE by id on the model's unscoped relation, only when
      the record is persisted; the record always ends destroyed and frozen. */
  function Destroy(m: Model, rec: Record): (r: (Record, Option<Statement>))
    ensures r.0 == rec.(destroyed := true, frozen := true)
    ensures r.1.Some? <==> Persisted(rec)
    ensures r.1.Some? ==> r.1.value == DeleteById(Unscoped(m.classTable), UsingTable(m, rec), m.primaryKey, Id(m, rec))
  {
    var stmt := if Persisted(rec) then Some(DeleteById(Unscoped(m.classTable), UsingTable(m, rec), m.primaryKey, Id(m, rec))) else None;
    (rec.(destroyed := true, frozen := true), stmt)
  }

  /** A persisted record's `destroy` reads from the model table and filters on
      the primary-key column of the record's `dynamic_arel_table` when it has
      one, so the statement names one table exactly when that table is the
      model table. */
  lemma DestroyReadsModelTable(m: Model, rec: Record)
    requires Persisted(rec)
    ensures var s := Destroy(m, rec).1.value;
      && s.DeleteById? && s.from.table == m.classTable && s.id == Id(m, rec)
      && (m.instanceDynamicArelTable.None? ==> s.whereTable == m.classTable)
      && (m.instanceDynamicArelTable.Some? ==> s.whereTable == m.instanceDynamicArelTable.value(rec.attributes))
      && (s.from.table == s.whereTable <==> UsingTable(m, rec) == m.classTable)
  {
  }

  /** Against the patches of `patches/active_record/persistence.rb`: both end
      with the same record and filter on the same table; without a dynamic
      table they issue the very same statement, with one this patch still
      reads from the model table while the other reads from the dynamic one. */
  lemma DestroyAgainstPatches(m: Model, rec: Record)
    ensures Destroy(m, rec).0 == PatchesPersistence.Destroy(m, rec).0
    ensures Destroy(m, rec).1.Some? <==> PatchesPersistence.Destroy(m, rec).1.Some?
    ensures Persisted(rec) ==>
      Destroy(m, rec).1.value.whereTable == PatchesPersistence.Destroy(m, rec).1.value.whereTable
    ensures m.instanceDynamicArelTable.None? ==> Destroy(m, rec) == PatchesPersistence.Destroy(m, rec)
    ensures Persisted(rec) && m.instanceDynamicArelTable.Some? ==>
      PatchesPersistence.Destroy(m, rec).1.value.from.table == m.instanceDynamicArelTable.value(rec.attributes)
  {
  }

  /** `update(attribute_names)`: nothing to write gives 0 and no statement;
      otherwise an UPDATE of the named non-key attributes by id, answered
      with the connection's row count. */
  function Update(m: Model, rec: Record, names: seq<string>, rowCount: Statement -> int): (r: (int, Option<Statement>))
    ensures |AttributesValues(m, rec, false, names)| == 0 <==> r.1.None?
    ensures r.1.None? ==> r.0 == 0
    ensures r.1.Some? ==> r.0 == rowCount(r.1.value)
    ensures r.1.Some? ==> r.1.value == UpdateById(Unscoped(m.classTable), UsingTable(m, rec), m.primaryKey, Id(m, rec),
      OnTable(m.classTable, AttributesValues(m, rec, false, names)))
  {
    var values := AttributesValues(m, rec, false, names);
    if |values| == 0 then (0, None)
    else
      var stmt := UpdateById(Unscoped(m.classTable), UsingTable(m, rec), m.primaryKey, Id(m, rec), OnTable(m.classTable, values));
      (rowCount(stmt), Some(stmt))
  }

  /** The UPDATE writes exactly the named non-key attributes the record
      holds, each with its current value on a column of the model table, and
      filters on the primary key of the record's dynamic table when it has one. */
  lemma UpdateWritesNamedAttributes(m: Model, rec: Record, names: seq<string>, rowCount: Statement -> int)
    requires Update(m, rec, names, rowCount).1.Some?
    ensures var s := Update(m, rec, names, rowCount).1.value;
      && s.UpdateById? && s.from.table == m.classTable && s.whereTable == UsingTable(m, rec)
      && (forall i | 0 <= i < |s.assignments| ::
            s.assignments[i].0.table == m.classTable
            && s.assignments[i].1 == HashGet(rec.attributes, s.assignments[i].0.name))
      && (forall k :: (exists i | 0 <= i < |s.assignments| :: s.assignments[i].0.name == k)
            <==> HasKey(rec.attributes, k) && k in names && m.primaryKey != Some(k))
  {
    var values := AttributesValues(m, rec, false, names);
    var s := Update(m, rec, names, rowCount).1.value;
    forall i | 0 <= i < |s.assignments|
      ensures s.assignments[i].1 == HashGet(rec.attributes, s.assignments[i].0.name)
    {
      assert HasKey(values, values[i].0);
    }
    forall k ensures (exists i | 0 <= i < |s.assignments| :: s.assignments[i].0.name == k) <==> HasKey(values, k)
    {
      if HasKey(values, k) {
        var i :| 0 <= i < |values| && values[i].0 == k;
        assert s.assignments[i].0.name == k;
      }
    }
  }

  /** Both patch sets compile the very same UPDATE. */
  lemma UpdateAgreesWithPatches(m: Model, rec: Record, names: seq<string>, rowCount: Statement -> int)
    ensures Update(m, rec, names, rowCount) == PatchesPersistence.Update(m, rec, names, rowCount)
  {
  }

  /** `create`: prefetch only when the id is `nil` and the model answers
      `prefetch_primary_key?` with true, its own answer or the default that
      asks the connection; otherwise the insert draws a missing id when the
      connection asks for one. */
  function CreateRecord(m: Model, rec: Record, counter: int, reportedId: InsertCall -> Value): (r: Created)
    ensures r == Create(m, rec, m.respondsToPrefetch && ModelPrefetch(m), counter, reportedId)
    ensures !r.rec.newRecord && r.id == Id(m, r.rec)
    ensures Id(m, rec) != Nil ==> r.id == Id(m, rec)
    ensures counter <= r.counter <= counter + 1
    ensures m.primaryKey.Some? && Id(m, rec) == Nil && m.respondsToPrefetch && m.classPrefetch == Some(true) ==>
      r.id == Int(counter) && r.counter == counter + 1
    ensures m.primaryKey.Some? && Id(m, rec) == Nil ==>
      (r.counter == counter + 1 <==>
         (m.respondsToPrefetch && ModelPrefetch(m)) || m.connectionPrefetch(m.cls.tableName))
  {
    var p := m.respondsToPrefetch && ModelPrefetch(m);
    CreateDrawsAtMostOnce(m, rec, p, counter, reportedId);
    if m.primaryKey.Some? then
      CreateDraws(m, rec, p, counter, reportedId);
      Create(m, rec, p, counter, reportedId)
    else
      Create(m, rec, p, counter, reportedId)
  }

  /** A model that does not answer `prefetch_primary_key?` still gets a
      missing key prefetched, once, by the patched insert. */
  lemma InsertPrefetchesForSilentModel(m: Model, rec: Record, counter: int, reportedId: InsertCall -> Value)
    requires !m.respondsToPrefetch && m.primaryKey.Some?
    requires Id(m, rec) == Nil && m.connectionPrefetch(m.cls.tableName)
    ensures CreateRecord(m, rec, counter, reportedId).counter == counter + 1
    ensures CreateRecord(m, rec, counter, reportedId).call.primaryKeyValue == Int(counter)
  {
    var pk := m.primaryKey.value;
    var values := CreateValues(m, rec);
    assert !HasKey(values, pk);
    assert HashGet(values, pk) == Nil;
  }
}
