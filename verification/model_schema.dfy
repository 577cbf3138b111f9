/** The per-model schema hooks the partitioning patches add to
    `ActiveRecord::ModelSchema`: which attributes are partition keys, how
    their values are read out of an attribute hash, the instance-level
    `table_name`, and the two scopes that point a query at one child table. */
module ModelSchema {
  import opened Strings
  import opened Ruby
  import opened KeyStrategy
  import opened Naming

  /** An `Arel::Table`: the table it names and the alias queries refer to it by. */
  datatype ArelTable = ArelTable(name: string, tableAlias: Option<string>)

  /** An entry of a SELECT list: a literal select or `table.*`. */
  datatype Projection = Select(sql: string) | Star(of: ArelTable)

  /** The parts of an `ActiveRecord::Relation` the patches read or write: its
      table, an explicit FROM clause, its projections and `@implicit_readonly`. */
  datatype Relation = Relation(
    table: ArelTable,
    source: Option<string>,
    projections: seq<Projection>,
    implicitReadonly: Option<bool>)

  /** The relation a class starts its queries from: its own table, no FROM
      clause, nothing projected. */
  function Unscoped(table: ArelTable): (r: Relation)
    ensures r.table == table && r.source.None? && r.projections == [] && r.implicitReadonly.None?
  {
    Relation(table, None, [], None)
  }

  /** `table_partition_keys`: none for a plain model (the `ModelSchema`
      default), the configured `on_fields` for a partitioned one. */
  function TablePartitionKeys(cls: ModelClass): (r: seq<KeyName>)
    ensures cls.kind.Plain? ==> r == []
    ensures cls.kind.Partitioned? ==> r == cls.kind.onFields
  {
    match cls.kind
    case Plain => []
    case Partitioned(fields, _) => fields
  }

  /** The value of each key of `keys` in `values`, in key order, `nil` for a
      key the hash does not hold. The lookup symbolizes both the hash and the
      key, so a key configured as a String finds its value as well as a
      Symbol does. */
  function KeyValues(keys: seq<KeyName>, values: Pairs): (r: seq<Value>)
    ensures |r| == |keys|
    ensures forall i | 0 <= i < |keys| :: r[i] == HashGet(values, keys[i].name)
    ensures forall i | 0 <= i < |keys| && !HasKey(values, keys[i].name) :: r[i] == Nil
  {
    if |keys| == 0 then [] else [HashGet(values, keys[0].name)] + KeyValues(keys[1..], values)
  }

  /** `table_partition_key_values(values)`. */
  function TablePartitionKeyValues(cls: ModelClass, values: Pairs): (r: seq<Value>)
    ensures |r| == |TablePartitionKeys(cls)|
    ensures forall i | 0 <= i < |r| :: r[i] == HashGet(values, TablePartitionKeys(cls)[i].name)
  {
    KeyValues(TablePartitionKeys(cls), values)
  }

  /** `attributes.symbolize_keys[k]` with the key as configured: the
      symbolized hash holds only Symbol keys, so a String key reads `nil`. */
  function SymbolizedGet(attributes: Pairs, k: KeyName): (v: Value)
    ensures k.StringName? ==> v == Nil
    ensures k.SymbolName? ==> v == HashGet(attributes, k.name)
  {
    match k
    case SymbolName(n) => HashGet(attributes, n)
    case StringName(_) => Nil
  }

  /** The partition-key values the instance-level `table_name` reads out of
      the record's attributes, in key order. */
  function InstanceKeyValues(keys: seq<KeyName>, attributes: Pairs): (r: seq<Value>)
    ensures |r| == |keys|
    ensures forall i | 0 <= i < |keys| :: r[i] == SymbolizedGet(attributes, keys[i])
  {
    if |keys| == 0 then [] else [SymbolizedGet(attributes, keys[0])] + InstanceKeyValues(keys[1..], attributes)
  }

  /** Every key is configured as a Symbol. */
  predicate AllSymbols(keys: seq<KeyName>) {
    forall i | 0 <= i < |keys| :: keys[i].SymbolName?
  }

  /** No field name is configured once as a Symbol and once as a String. */
  predicate NamesAgree(keys: seq<KeyName>) {
    forall i, j | 0 <= i < |keys| && 0 <= j < |keys| && keys[i].name == keys[j].name :: keys[i] == keys[j]
  }

  /** With Symbol keys the instance-level and the class-level lookups agree;
      with a String key they part: the class finds the attribute, the
      instance reads `nil`. */
  lemma InstanceKeyValuesAgreeIffSymbols(keys: seq<KeyName>, attributes: Pairs)
    ensures AllSymbols(keys) ==> InstanceKeyValues(keys, attributes) == KeyValues(keys, attributes)
    ensures forall i | 0 <= i < |keys| && keys[i].StringName? && HashGet(attributes, keys[i].name) != Nil ::
      InstanceKeyValues(keys, attributes)[i] != KeyValues(keys, attributes)[i]
  {
  }

  /** The hash of partition-key attributes the instance `arel_table` hands to
      the class: each key's name paired with what the symbolized attributes
      hold under it. */
  function KeyHash(keys: seq<KeyName>, attributes: Pairs): (r: Pairs)
    ensures |r| == |keys|
    ensures forall i | 0 <= i < |keys| :: r[i] == (keys[i].name, SymbolizedGet(attributes, keys[i]))
  {
    if |keys| == 0 then [] else [(keys[0].name, SymbolizedGet(attributes, keys[0]))] + KeyHash(keys[1..], attributes)
  }

  /** Reading the keys back out of the key hash gives what the instance-level
      lookup gives: nothing is lost or reordered on the way. */
  lemma KeyValuesOfKeyHash(keys: seq<KeyName>, attributes: Pairs)
    requires NamesAgree(keys)
    ensures KeyValues(keys, KeyHash(keys, attributes)) == InstanceKeyValues(keys, attributes)
  {
    var h := KeyHash(keys, attributes);
    forall i | 0 <= i < |keys|
      ensures HashGet(h, keys[i].name) == SymbolizedGet(attributes, keys[i])
    {
      HashGetFirst(h, keys[i].name, i);
    }
  }

  /** Every entry of the key hash carries the attribute value of its key, so
      the first entry under a key, which `HashGet` finds, has that value. */
  lemma {:induction false} HashGetFirst(h: Pairs, k: string, i: nat)
    requires i < |h| && h[i].0 == k
    requires forall j | 0 <= j < |h| && h[j].0 == k :: h[j].1 == h[i].1
    ensures HashGet(h, k) == h[i].1
    decreases |h|
  {
    if h[0].0 != k {
      HashGetFirst(h[1..], k, i - 1);
    }
  }

  /** The instance-level `table_name`: the class `table_name` applied to the
      partition-key values of the record's current attributes. */
  function InstanceTableName(cls: ModelClass, attributes: Pairs): (r: Result<string>)
    ensures cls.kind.Plain? ==> r == Ok(cls.tableName)
    ensures cls.kind.Partitioned? && |cls.kind.onFields| == 0 ==> r == Ok(cls.tableName)
    ensures cls.kind.Partitioned? && 0 < |cls.kind.onFields| ==>
      r == PartitionTableName(cls.tableName, cls.kind.strategy, InstanceKeyValues(cls.kind.onFields, attributes))
  {
    TableName(cls, InstanceKeyValues(TablePartitionKeys(cls), attributes))
  }

  /** Two records of a model partitioned by modulo on one Symbol key share a
      table exactly when their key attributes are congruent modulo the
      modulus. */
  lemma InstanceTableNameRoutesByKey(cls: ModelClass, a: Pairs, b: Pairs)
    requires cls.kind.Partitioned? && |cls.kind.onFields| == 1 && cls.kind.onFields[0].SymbolName?
    requires cls.kind.strategy.Modulo? && cls.kind.strategy.modulus != 0
    ensures InstanceTableName(cls, a).Ok? && InstanceTableName(cls, b).Ok?
    ensures InstanceTableName(cls, a) == InstanceTableName(cls, b)
      <==> (ToI(HashGet(a, cls.kind.onFields[0].name)) - ToI(HashGet(b, cls.kind.onFields[0].name))) % cls.kind.strategy.modulus == 0
  {
    InstanceTableNameOfOneKey(cls, a);
    InstanceTableNameOfOneKey(cls, b);
    ModuloRoutesCongruentKeysTogether(cls, HashGet(a, cls.kind.onFields[0].name), HashGet(b, cls.kind.onFields[0].name));
  }

  lemma InstanceTableNameOfOneKey(cls: ModelClass, a: Pairs)
    requires cls.kind.Partitioned? && |cls.kind.onFields| == 1 && cls.kind.onFields[0].SymbolName?
    ensures InstanceTableName(cls, a) == TableName(cls, [HashGet(a, cls.kind.onFields[0].name)])
  {
    assert InstanceKeyValues(cls.kind.onFields, a) == [HashGet(a, cls.kind.onFields[0].name)];
  }

  /** A model whose keys are all configured as Strings gets `nil` for every
      key at instance level, so every record names the same table, whatever
      its attributes. */
  lemma InstanceTableNameIgnoresStringKeys(cls: ModelClass, a: Pairs, b: Pairs)
    requires cls.kind.Partitioned?
    requires forall i | 0 <= i < |cls.kind.onFields| :: cls.kind.onFields[i].StringName?
    ensures InstanceTableName(cls, a) == InstanceTableName(cls, b)
  {
    assert InstanceKeyValues(cls.kind.onFields, a) == InstanceKeyValues(cls.kind.onFields, b);
  }

  /** The FROM clause `from_partition` builds: `<table> AS <alias>`. */
  function AliasedSource(table: string, alias: string): string
  {
    table + " AS " + alias
  }

  /** `from_partition(*keys)`: read from the child table under the alias the
      model's queries use, and give the relation's table that alias. */
  function FromPartition(cls: ModelClass, base: Relation, keys: seq<Value>): (r: Result<Relation>)
    ensures r.Ok? <==> TableName(cls, keys).Ok?
    ensures r.Ok? ==> r.value.source == Some(AliasedSource(TableName(cls, keys).value, TableAliasName(cls, keys).value))
    ensures r.Ok? ==> r.value.table == base.table.(tableAlias := Some(TableAliasName(cls, keys).value))
    ensures r.Ok? ==> r.value.projections == base.projections && r.value.implicitReadonly == base.implicitReadonly
    ensures r.Err? ==> r.error == TableName(cls, keys).error
  {
    var alias := TableAliasName(cls, keys).value;
    var table :- TableName(cls, keys);
    Ok(base.(source := Some(AliasedSource(table, alias)), table := base.table.(tableAlias := Some(alias))))
  }

  /** For a partitioned model, the FROM clause of `from_partition` tells the
      child tables apart: two key tuples give the same clause exactly when
      they name the same child table. */
  lemma FromPartitionIdentifiesPartition(cls: ModelClass, base: Relation, k1: seq<Value>, k2: seq<Value>)
    requires cls.kind.Partitioned?
    requires FromPartition(cls, base, k1).Ok? && FromPartition(cls, base, k2).Ok?
    ensures FromPartition(cls, base, k1).value.source == FromPartition(cls, base, k2).value.source
      <==> TableName(cls, k1) == TableName(cls, k2)
  {
    var alias := PartitionAliasName(cls.tableName);
    var t1, t2 := TableName(cls, k1).value, TableName(cls, k2).value;
    CancelAffixes("", t1, t2, " AS " + alias);
    assert AliasedSource(t1, alias) == "" + t1 + (" AS " + alias);
    assert AliasedSource(t2, alias) == "" + t2 + (" AS " + alias);
  }

  /** `from_partitioned_without_alias(*keys)`: read from the child table and
      use its full name as the alias. */
  function FromPartitionedWithoutAlias(cls: ModelClass, base: Relation, keys: seq<Value>): (r: Result<Relation>)
    ensures r.Ok? <==> TableName(cls, keys).Ok?
    ensures r.Ok? ==> r.value.source == Some(TableName(cls, keys).value)
    ensures r.Ok? ==> r.value.table == base.table.(tableAlias := Some(TableName(cls, keys).value))
    ensures r.Ok? ==> r.value.projections == base.projections && r.value.implicitReadonly == base.implicitReadonly
  {
    var table :- TableName(cls, keys);
    Ok(base.(source := Some(table), table := base.table.(tableAlias := Some(table))))
  }

  /** A plain model aliases a table by its name, so `from_partition` on it reads
      the model's own table under its own name, whatever the key values. */
  lemma FromPartitionOfPlainModel(cls: ModelClass, base: Relation, keys: seq<Value>)
    requires cls.kind.Plain?
    ensures FromPartition(cls, base, keys)
      == Ok(base.(source := Some(AliasedSource(cls.tableName, cls.tableName)),
                  table := base.table.(tableAlias := Some(cls.tableName))))
    ensures FromPartitionedWithoutAlias(cls, base, keys)
      == Ok(base.(source := Some(cls.tableName), table := base.table.(tableAlias := Some(cls.tableName))))
  {
  }

  /** `prefetch_primary_key?` asks the connection about the model's own
      (parent) table, the one `table_name` names without key values, never a
      child table. */
  function PrefetchPrimaryKey(cls: ModelClass, connectionPrefetch: string -> bool): (r: bool)
    ensures TableName(cls, []).Ok? && r == connectionPrefetch(TableName(cls, []).value)
  {
    connectionPrefetch(cls.tableName)
  }
}
