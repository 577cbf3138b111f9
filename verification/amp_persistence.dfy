/** The `Persistence` patches of `activerecord_monkey_patches/persistence.rb`:
    `delete` goes through `from_partition` of the record's key values,
    `destroy` and `update` address the record's instance `arel_table` (its
    child table, through the class cache), `update` rebinds every assignment
    to that table, and `create` asks `prefetch_primary_key?` directly. */
module AmpPersistence {
  import opened Ruby
  import opened Naming
  import opened ModelSchema
  import opened ArelCache
  import opened Records
  import opened RelationInsert
  import opened Creation

  /** `delete`: for a persisted record, delete by id through `from_partition`
      of its partition-key values; the record always ends destroyed and
      frozen. Naming the child table can raise, and then nothing changes. */
  function Delete(m: Model, rec: Record): (r: Result<(Record, Option<Statement>)>)
    ensures !Persisted(rec) ==> r == Ok((rec.(destroyed := true, frozen := true), None))
    ensures Persisted(rec) ==>
      var from := FromPartition(m.cls, Unscoped(m.classTable), TablePartitionKeyValues(m.cls, rec.attributes));
      && (r.Ok? <==> from.Ok?)
      && (r.Ok? ==> r.value == (rec.(destroyed := true, frozen := true), Some(DeleteThroughRelation(from.value, Id(m, rec)))))
  {
    if !Persisted(rec) then Ok((rec.(destroyed := true, frozen := true), None))
    else
      var from :- FromPartition(m.cls, Unscoped(m.classTable), TablePartitionKeyValues(m.cls, rec.attributes));
      Ok((rec.(destroyed := true, frozen := true), Some(DeleteThroughRelation(from, Id(m, rec)))))
  }

  /** A persisted record of a partitioned model is deleted from the child
      table its key attributes name, read under the parent's alias; with keys
      configured as Symbols that is the table the instance `table_name` names. */
  lemma DeleteReadsFromOwnPartition(m: Model, rec: Record)
    requires Persisted(rec) && m.cls.kind.Partitioned?
    requires Delete(m, rec).Ok?
    ensures var s := Delete(m, rec).value.1.value;
      && s.from.source == Some(AliasedSource(TableName(m.cls, TablePartitionKeyValues(m.cls, rec.attributes)).value,
                                             PartitionAliasName(m.cls.tableName)))
      && s.from.table.tableAlias == Some(PartitionAliasName(m.cls.tableName))
    ensures AllSymbols(TablePartitionKeys(m.cls)) ==>
      Delete(m, rec).value.1.value.from.source
        == Some(AliasedSource(InstanceTableName(m.cls, rec.attributes).value, PartitionAliasName(m.cls.tableName)))
  {
    InstanceKeyValuesAgreeIffSymbols(TablePartitionKeys(m.cls), rec.attributes);
  }

  /** The record's class cache belongs to the record's class, and
      `self.class.unscoped` reads the parent table that cache holds under
      `nil` (or builds under the model's own name). */
  ghost predicate OwnCache(m: Model, cache: ClassState) {
    && cache.cls == m.cls
    && m.classTable == ArelTable(m.cls.tableName, None)
    && (Cached(cache, None) ==> cache.arelTables[None].value == m.classTable)
  }

  /** `destroy`: for a persisted record, a DELETE by id filtered on the
      primary-key column of the record's instance `arel_table`; the record
      always ends destroyed and frozen. */
  function Destroy(m: Model, cache: ClassState, rec: Record): (r: Result<(Record, Option<Statement>, ClassState)>)
    requires cache.cls == m.cls
    ensures !Persisted(rec) ==> r == Ok((rec.(destroyed := true, frozen := true), None, cache))
    ensures Persisted(rec) ==>
      var lookup := InstanceArelTable(cache, rec.attributes);
      && (r.Ok? <==> lookup.Ok?)
      && (r.Ok? ==> r.value == (rec.(destroyed := true, frozen := true),
                                Some(DeleteById(Unscoped(m.classTable), lookup.value.0, m.primaryKey, Id(m, rec))),
                                lookup.value.1))
  {
    if !Persisted(rec) then Ok((rec.(destroyed := true, frozen := true), None, cache))
    else
      var (t, cache1) :- InstanceArelTable(cache, rec.attributes);
      Ok((rec.(destroyed := true, frozen := true), Some(DeleteById(Unscoped(m.classTable), t, m.primaryKey, Id(m, rec))), cache1))
  }

  /** A persisted record's `destroy` reads from the parent table and filters
      on the primary-key column of the record's own child table, the one the
      instance `table_name` names; the lookup keeps the cache consistent. */
  lemma DestroyFiltersOnOwnPartition(m: Model, cache: ClassState, rec: Record)
    requires OwnCache(m, cache) && Consistent(cache) && NamesAgree(TablePartitionKeys(m.cls))
    requires Persisted(rec) && Destroy(m, cache, rec).Ok?
    ensures var (_, stmt, cache1) := Destroy(m, cache, rec).value;
      && stmt.Some? && stmt.value.DeleteById? && stmt.value.id == Id(m, rec)
      && stmt.value.from.table.name == m.cls.tableName
      && stmt.value.whereTable.name == InstanceTableName(m.cls, rec.attributes).value
      && Consistent(cache1) && OwnCache(m, cache1)
  {
    ClassArelTablePreservesConsistency(cache, KeyHash(TablePartitionKeys(cache.cls), rec.attributes));
  }

  /** `update(attribute_names)`: nothing to write gives 0, no statement and
      no lookup; otherwise every assignment is rebound to the same-named
      column of the record's instance `arel_table`, which the WHERE clause
      filters on too. */
  function Update(m: Model, cache: ClassState, rec: Record, names: seq<string>, rowCount: Statement -> int)
    : (r: Result<(int, Option<Statement>, ClassState)>)
    requires cache.cls == m.cls
    ensures |AttributesValues(m, rec, false, names)| == 0 ==> r == Ok((0, None, cache))
    ensures 0 < |AttributesValues(m, rec, false, names)| ==>
      var lookup := InstanceArelTable(cache, rec.attributes);
      && (r.Ok? <==> lookup.Ok?)
      && (r.Ok? ==>
            var t := lookup.value.0;
            var stmt := UpdateById(Unscoped(m.classTable), t, m.primaryKey, Id(m, rec),
                                   OnTable(t, AttributesValues(m, rec, false, names)));
            r.value == (rowCount(stmt), Some(stmt), lookup.value.1))
  {
    var values := AttributesValues(m, rec, false, names);
    if |values| == 0 then Ok((0, None, cache))
    else
      var (t, cache1) :- InstanceArelTable(cache, rec.attributes);
      var stmt := UpdateById(Unscoped(m.classTable), t, m.primaryKey, Id(m, rec), OnTable(t, values));
      Ok((rowCount(stmt), Some(stmt), cache1))
  }

  /** The rebinding keeps every attribute name and value, in order, and puts
      each on the record's own child table (named by the instance
      `table_name` when the cache is consistent). */
  lemma UpdateRebindsToOwnTable(m: Model, cache: ClassState, rec: Record, names: seq<string>, rowCount: Statement -> int)
    requires OwnCache(m, cache) && Consistent(cache) && NamesAgree(TablePartitionKeys(m.cls))
    requires 0 < |AttributesValues(m, rec, false, names)|
    requires Update(m, cache, rec, names, rowCount).Ok?
    ensures var stmt := Update(m, cache, rec, names, rowCount).value.1.value;
      var values := AttributesValues(m, rec, false, names);
      && stmt.UpdateById?
      && stmt.from.table.name == m.cls.tableName
      && |stmt.assignments| == |values|
      && (forall i | 0 <= i < |values| ::
            stmt.assignments[i].0.name == values[i].0 && stmt.assignments[i].1 == values[i].1
            && stmt.assignments[i].0.table == stmt.whereTable)
      && stmt.whereTable.name == InstanceTableName(m.cls, rec.attributes).value
    ensures Consistent(Update(m, cache, rec, names, rowCount).value.2)
  {
    ClassArelTablePreservesConsistency(cache, KeyHash(TablePartitionKeys(cache.cls), rec.attributes));
  }

  /** `create`: prefetch only when the id is `nil` and the model's
      `prefetch_primary_key?` holds, whether the model overrides it or keeps
      the default that asks the connection. Otherwise the insert draws a
      missing id when the connection asks for one, and never draws twice. */
  function CreateRecord(m: Model, rec: Record, counter: int, reportedId: InsertCall -> Value): (r: Created)
    ensures r == Create(m, rec, ModelPrefetch(m), counter, reportedId)
    ensures !r.rec.newRecord && r.id == Id(m, r.rec)
    ensures Id(m, rec) != Nil ==> r.id == Id(m, rec) && r.counter == counter
    ensures m.primaryKey.Some? && Id(m, rec) == Nil && m.classPrefetch == Some(true) ==>
      r.id == Int(counter) && r.counter == counter + 1
    ensures m.primaryKey.Some? && Id(m, rec) == Nil && m.classPrefetch == Some(false) ==>
      (r.counter == counter + 1 <==> m.connectionPrefetch(m.cls.tableName))
    ensures m.primaryKey.Some? && Id(m, rec) == Nil && m.classPrefetch.None? && m.connectionPrefetch(m.cls.tableName) ==>
      r.id == Int(counter) && r.counter == counter + 1
    ensures m.primaryKey.Some? && Id(m, rec) == Nil && m.classPrefetch.None? && !m.connectionPrefetch(m.cls.tableName) ==>
      r.counter == counter
  {
    if m.primaryKey.Some? then
      CreateDraws(m, rec, ModelPrefetch(m), counter, reportedId);
      Create(m, rec, ModelPrefetch(m), counter, reportedId)
    else
      Create(m, rec, ModelPrefetch(m), counter, reportedId)
  }
}
