/** The per-class cache of `Arel::Table` objects the partitioning patches put
    in `ActiveRecord::Base`: one table per partition-key tuple, built lazily
    under the name `table_name(*key_values)`, with `nil` standing for the
    parent table; and `table_name=`, which renames the model and resets the
    cache. */
module ArelCache {
  import opened Strings
  import opened Ruby
  import opened KeyStrategy
  import opened Naming
  import opened ModelSchema

  /** A cache key: `nil` for blank attribute values, the key-value tuple otherwise. */
  type CacheKey = Option<seq<Value>>

  /** The class-level state the patches read and write: the model (whose
      `tableName` is what `table_name` returns), whether `@table_name` is
      set, `@original_table_name`, `@quoted_table_name`, `@arel_tables` (a
      reset entry holds `nil`) and the table of the default `@relation`. */
  datatype ClassState = ClassState(
    cls: ModelClass,
    tableNameDefined: bool,
    originalTableName: Option<string>,
    quotedTableName: Option<string>,
    arelTables: map<CacheKey, Option<ArelTable>>,
    relationTable: Option<ArelTable>)

  /** The cache key for a hash of attribute values: `nil` when the hash is
      empty (`blank?`), the partition-key values otherwise. */
  function KeyFor(cls: ModelClass, values: Pairs): (k: CacheKey)
    ensures |values| == 0 <==> k.None?
    ensures k.Some? ==> k.value == TablePartitionKeyValues(cls, values)
  {
    if |values| == 0 then None else Some(TablePartitionKeyValues(cls, values))
  }

  /** `table_name(*key_values)`; splatting `nil` passes no arguments. */
  function NameFor(cls: ModelClass, key: CacheKey): (r: Result<string>)
    ensures key.None? ==> r == Ok(cls.tableName)
    ensures key.Some? ==> r == TableName(cls, key.value)
  {
    TableName(cls, if key.None? then [] else key.value)
  }

  /** The cache invariant: every table the cache holds is named after its key. */
  predicate Consistent(s: ClassState) {
    forall k | k in s.arelTables && s.arelTables[k].Some? ::
      NameFor(s.cls, k).Ok? && s.arelTables[k].value.name == NameFor(s.cls, k).value
  }

  /** Whether the cache holds a table (and not `nil`) under `k`. */
  predicate Cached(s: ClassState, k: CacheKey) {
    k in s.arelTables && s.arelTables[k].Some?
  }

  /** The class-level `arel_table(values)`: the cached table for the key of
      `values`, or on a miss a new table named `table_name(*key)` stored under
      that key. Naming the table can raise, and then nothing is stored. */
  function ClassArelTable(s: ClassState, values: Pairs): (r: Result<(ArelTable, ClassState)>)
    ensures var k := KeyFor(s.cls, values);
      && (Cached(s, k) ==> r == Ok((s.arelTables[k].value, s)))
      && (!Cached(s, k) ==> (r.Ok? <==> NameFor(s.cls, k).Ok?))
      && (!Cached(s, k) && r.Ok? ==>
            r.value.0 == ArelTable(NameFor(s.cls, k).value, None)
            && r.value.1 == s.(arelTables := s.arelTables[k := Some(r.value.0)]))
    ensures |values| == 0 ==> r.Ok?
  {
    var k := KeyFor(s.cls, values);
    if Cached(s, k) then Ok((s.arelTables[k].value, s))
    else
      var name :- NameFor(s.cls, k);
      var t := ArelTable(name, None);
      Ok((t, s.(arelTables := s.arelTables[k := Some(t)])))
  }

  /** A lookup keeps the cache consistent, and then the table it returns is
      named after the key of the values asked for. */
  lemma ClassArelTablePreservesConsistency(s: ClassState, values: Pairs)
    requires Consistent(s)
    requires ClassArelTable(s, values).Ok?
    ensures Consistent(ClassArelTable(s, values).value.1)
    ensures ClassArelTable(s, values).value.0.name == NameFor(s.cls, KeyFor(s.cls, values)).value
  {
  }

  /** Asking twice gives the same table, and the second lookup changes nothing. */
  lemma RepeatedLookupIsStable(s: ClassState, values: Pairs)
    requires ClassArelTable(s, values).Ok?
    ensures var (t, s1) := ClassArelTable(s, values).value;
      ClassArelTable(s1, values) == Ok((t, s1))
  {
  }

  /** `reset_arel_table(values)`: forget the table under the key of `values`. */
  function ResetArelTable(s: ClassState, values: Pairs): (r: ClassState)
    ensures r.cls == s.cls && r.relationTable == s.relationTable
    ensures r.tableNameDefined == s.tableNameDefined && r.originalTableName == s.originalTableName
    ensures r.quotedTableName == s.quotedTableName
    ensures KeyFor(s.cls, values) in r.arelTables && r.arelTables[KeyFor(s.cls, values)].None?
    ensures r.arelTables.Keys == s.arelTables.Keys + {KeyFor(s.cls, values)}
    ensures forall k | k in s.arelTables && k != KeyFor(s.cls, values) :: r.arelTables[k] == s.arelTables[k]
  {
    s.(arelTables := s.arelTables[KeyFor(s.cls, values) := None])
  }

  /** Resetting one entry keeps the cache consistent, and the next lookup of
      that key builds a table under the current name. */
  lemma ResetThenLookupRebuilds(s: ClassState, values: Pairs)
    requires Consistent(s)
    ensures Consistent(ResetArelTable(s, values))
    ensures var r := ClassArelTable(ResetArelTable(s, values), values);
      r.Ok? <==> NameFor(s.cls, KeyFor(s.cls, values)).Ok?
    ensures var r := ClassArelTable(ResetArelTable(s, values), values);
      r.Ok? ==> r.value.0 == ArelTable(NameFor(s.cls, KeyFor(s.cls, values)).value, None)
  {
  }

  /** The instance-level `arel_table`: look up the class cache with the
      record's partition-key attributes (name and current value). */
  function InstanceArelTable(s: ClassState, attributes: Pairs): (r: Result<(ArelTable, ClassState)>)
    ensures r == ClassArelTable(s, KeyHash(TablePartitionKeys(s.cls), attributes))
    ensures Consistent(s) && NamesAgree(TablePartitionKeys(s.cls)) && r.Ok? ==>
      r.value.0.name == InstanceTableName(s.cls, attributes).value
  {
    var keys := TablePartitionKeys(s.cls);
    var r := ClassArelTable(s, KeyHash(keys, attributes));
    if Consistent(s) && NamesAgree(keys) && r.Ok? then
      InstanceArelTableName(s, attributes);
      r
    else r
  }

  /** The table the instance gets is named by the instance `table_name`: the
      parent table for a model without partition keys, the child table of the
      record's key attributes otherwise. */
  lemma InstanceArelTableName(s: ClassState, attributes: Pairs)
    requires Consistent(s) && NamesAgree(TablePartitionKeys(s.cls))
    requires ClassArelTable(s, KeyHash(TablePartitionKeys(s.cls), attributes)).Ok?
    ensures ClassArelTable(s, KeyHash(TablePartitionKeys(s.cls), attributes)).value.0.name
      == InstanceTableName(s.cls, attributes).value
  {
    var keys := TablePartitionKeys(s.cls);
    var h := KeyHash(keys, attributes);
    ClassArelTablePreservesConsistency(s, h);
    if 0 < |keys| {
      KeyValuesOfKeyHash(keys, attributes);
      assert KeyFor(s.cls, h) == Some(InstanceKeyValues(keys, attributes));
    }
  }

  /** The state `table_name = value` leaves before it rebuilds the default
      relation: the previous name remembered when one was set, the new name
      stored, the quoted name cleared. */
  function Renamed(s: ClassState, value: string): (r: ClassState)
    ensures r.cls == s.cls.(tableName := value) && r.tableNameDefined
    ensures r.originalTableName == if s.tableNameDefined then Some(s.cls.tableName) else s.originalTableName
    ensures r.quotedTableName.None?
    ensures r.arelTables == s.arelTables && r.relationTable == s.relationTable
  {
    s.(cls := s.cls.(tableName := value),
       tableNameDefined := true,
       originalTableName := if s.tableNameDefined then Some(s.cls.tableName) else s.originalTableName,
       quotedTableName := None)
  }

  /** `table_name = value` as the patch writes it: `reset_arel_table` with no
      arguments forgets only the parent entry, then `Relation.new(self,
      arel_table)` rebuilds that entry under the new name. */
  function SetTableName(s: ClassState, value: string): (r: ClassState)
    ensures r.cls == s.cls.(tableName := value) && r.tableNameDefined && r.quotedTableName.None?
    ensures r.originalTableName == if s.tableNameDefined then Some(s.cls.tableName) else s.originalTableName
    ensures r.relationTable == Some(ArelTable(value, None))
    ensures None in r.arelTables && r.arelTables[None] == Some(ArelTable(value, None))
    ensures r.arelTables.Keys == s.arelTables.Keys + {None}
    ensures forall k | k in s.arelTables && k != None :: k in r.arelTables && r.arelTables[k] == s.arelTables[k]
  {
    var reset := ResetArelTable(Renamed(s, value), []);
    var (t, s1) := ClassArelTable(reset, []).value;
    s1.(relationTable := Some(t))
  }

  /** A two-way modulo model on `foos` keyed by `id`. */
  function ExampleModel(): (cls: ModelClass)
    ensures cls.kind == Partitioned([SymbolName("id")], Modulo(2, Some("id")))
  {
    ModelClass("Foo", "foos", Partitioned([SymbolName("id")], Modulo(2, Some("id"))))
  }

  /** A cache that has built the child table for key 1. */
  function ExampleState(): (s: ClassState)
    ensures s.cls == ExampleModel()
    ensures s.arelTables == map[Some([Int(1)]) := Some(ArelTable("foos" + "_partitions.p" + "1", None))]
  {
    ClassState(ExampleModel(), true, None, None,
      map[Some([Int(1)]) := Some(ArelTable("foos" + "_partitions.p" + "1", None))], None)
  }

  /** The rename leaves the child tables cached under the old name: on a
      consistent cache holding `foos_partitions.p1`, renaming the model to
      `bars` makes the next lookup for key 1 answer with the old child table
      while `table_name(1)` is now `bars_partitions.p1`. */
  lemma SetTableNameLeavesStaleChildTables()
    ensures Consistent(ExampleState())
    ensures !Consistent(SetTableName(ExampleState(), "bars"))
    ensures ClassArelTable(SetTableName(ExampleState(), "bars"), [("id", Int(1))])
      == Ok((ArelTable("foos" + "_partitions.p" + "1", None), SetTableName(ExampleState(), "bars")))
    ensures TableName(SetTableName(ExampleState(), "bars").cls, [Int(1)]) == Ok("bars" + "_partitions.p" + "1")
  {
    var s := ExampleState();
    assert s.cls.tableName == "foos";
    ExampleChildName(s.cls);
    assert Consistent(s);
    var s1 := SetTableName(s, "bars");
    assert s1.cls.tableName == "bars";
    ExampleChildName(s1.cls);
    ExampleKey(s1.cls);
    var k := Some([Int(1)]);
    assert s1.arelTables[k] == Some(ArelTable("foos" + "_partitions.p" + "1", None));
    assert ("foos" + "_partitions.p" + "1")[0] != ("bars" + "_partitions.p" + "1")[0];
    assert k in s1.arelTables && s1.arelTables[k].Some? && s1.arelTables[k].value.name != NameFor(s1.cls, k).value;
  }

  /** Key 1 of the example model names `foos_partitions.p1` under the table
      `foos` and `bars_partitions.p1` under `bars`. */
  lemma ExampleChildName(cls: ModelClass)
    requires cls.kind == Partitioned([SymbolName("id")], Modulo(2, Some("id")))
    requires cls.tableName == "foos" || cls.tableName == "bars"
    ensures NameFor(cls, Some([Int(1)]))
      == Ok(cls.tableName + "_partitions.p" + "1")
  {
    RangeValueNormalizesToItself(cls.kind.strategy, 1);
    ChildTableNameOfUnqualified(cls, Int(1));
    assert ToS(Int(1)) == "1";
  }

  /** The attributes `{id: 1}` of the example model give the cache key `[1]`. */
  lemma ExampleKey(cls: ModelClass)
    requires cls.kind == Partitioned([SymbolName("id")], Modulo(2, Some("id")))
    ensures KeyFor(cls, [("id", Int(1))]) == Some([Int(1)])
  {
    var vals := [("id", Int(1))];
    assert HashGet(vals, "id") == Int(1);
    var kv := TablePartitionKeyValues(cls, vals);
    assert |kv| == 1 && kv[0] == Int(1);
    assert kv == [Int(1)];
  }

  /** `table_name = value` resetting the whole cache, as the unpatched
      `ActiveRecord` does by dropping its single `@arel_table`. */
  function SetTableNameResettingAll(s: ClassState, value: string): (r: ClassState)
    ensures r.cls == s.cls.(tableName := value) && r.tableNameDefined && r.quotedTableName.None?
    ensures r.originalTableName == if s.tableNameDefined then Some(s.cls.tableName) else s.originalTableName
    ensures r.relationTable == Some(ArelTable(value, None))
    ensures r.arelTables == map[None := Some(ArelTable(value, None))]
  {
    var cleared := Renamed(s, value).(arelTables := map[]);
    var (t, s1) := ClassArelTable(cleared, []).value;
    s1.(relationTable := Some(t))
  }

  /** Renaming with the whole cache reset leaves a consistent cache from any
      state, so every later lookup answers with a table named under the new
      name. */
  lemma SetTableNameResettingAllIsConsistent(s: ClassState, value: string)
    ensures Consistent(SetTableNameResettingAll(s, value))
    ensures forall values: Pairs | ClassArelTable(SetTableNameResettingAll(s, value), values).Ok? ::
      ClassArelTable(SetTableNameResettingAll(s, value), values).value.0.name
        == NameFor(SetTableNameResettingAll(s, value).cls, KeyFor(SetTableNameResettingAll(s, value).cls, values)).value
  {
    var r := SetTableNameResettingAll(s, value);
    forall values: Pairs | ClassArelTable(r, values).Ok?
      ensures ClassArelTable(r, values).value.0.name == NameFor(r.cls, KeyFor(r.cls, values)).value
    {
      ClassArelTablePreservesConsistency(r, values);
    }
  }

  /** Both renames agree on everything but the cached child tables. */
  lemma SetTableNameVariantsAgreeOnParent(s: ClassState, value: string)
    ensures var a, b := SetTableName(s, value), SetTableNameResettingAll(s, value);
      && a.cls == b.cls && a.tableNameDefined == b.tableNameDefined
      && a.originalTableName == b.originalTableName && a.quotedTableName == b.quotedTableName
      && a.relationTable == b.relationTable
      && a.arelTables[None] == b.arelTables[None]
  {
  }
}
