/** The parts of an `ActiveRecord` model and record the persistence patches
    read and write, the statements they hand to the database, and the
    collaborators they consult (the connection's sequence and prefetch
    policy, and a model's `dynamic_arel_table`), all as plain values. */
module Records {
  import opened Ruby
  import opened Naming
  import opened ModelSchema

  /** An attribute hash: a Ruby `Hash`, so every name occurs once. */
  type Attributes = h: Pairs | UniqueKeys(h) witness []

  /** A record: its attributes and its lifecycle flags. */
  datatype Record = Record(attributes: Attributes, newRecord: bool, destroyed: bool, frozen: bool)

  /** `persisted?`: saved and not destroyed. */
  predicate Persisted(rec: Record) {
    !rec.newRecord && !rec.destroyed
  }

  /** What the patches need of a model class: its naming, its primary key,
      its parent `Arel::Table` (`self.class.arel_table`), whether it answers
      `prefetch_primary_key?`, its own answer when it overrides that method
      (`None` keeps the default of `ModelSchema.PrefetchPrimaryKey`), the
      connection's prefetch policy, and, when the model defines them, the
      class-level `dynamic_arel_table(values)` and the instance-level
      `dynamic_arel_table()` (the latter given the record's attributes). */
  datatype Model = Model(
    cls: ModelClass,
    primaryKey: Option<string>,
    classTable: ArelTable,
    respondsToPrefetch: bool,
    classPrefetch: Option<bool>,
    connectionPrefetch: string -> bool,
    classDynamicArelTable: Option<Pairs -> Option<ArelTable>>,
    instanceDynamicArelTable: Option<Attributes -> ArelTable>)

  /** `self.class.prefetch_primary_key?`: the model's own answer when it
      overrides the method, otherwise the default that asks the connection
      about the parent table. */
  function ModelPrefetch(m: Model): bool
  {
    match m.classPrefetch
    case Some(b) => b
    case None => PrefetchPrimaryKey(m.cls, m.connectionPrefetch)
  }

  /** `record.id`: the primary-key attribute, `nil` without a primary key. */
  function Id(m: Model, rec: Record): (v: Value)
    ensures m.primaryKey.None? ==> v == Nil
    ensures m.primaryKey.Some? && !HasKey(rec.attributes, m.primaryKey.value) ==> v == Nil
  {
    if m.primaryKey.None? then Nil else HashGet(rec.attributes, m.primaryKey.value)
  }

  /** `record.id = v`; without a primary key there is no attribute to write. */
  function WithId(m: Model, rec: Record, v: Value): (r: Record)
    ensures m.primaryKey.Some? ==> Id(m, r) == v
    ensures m.primaryKey.None? ==> r == rec
    ensures r.newRecord == rec.newRecord && r.destroyed == rec.destroyed && r.frozen == rec.frozen
    ensures forall k | m.primaryKey != Some(k) :: HashGet(r.attributes, k) == HashGet(rec.attributes, k)
  {
    if m.primaryKey.None? then rec
    else rec.(attributes := HashPut(rec.attributes, m.primaryKey.value, v))
  }

  /** A database sequence as a counter: `next_sequence_value` answers the
      counter and advances it. */
  function NextSequenceValue(counter: int): (r: (Value, int))
    ensures r.0 == Int(counter) && r.1 == counter + 1
  {
    (Int(counter), counter + 1)
  }

  /** An `Arel::Attribute`: a column of a particular table. */
  datatype Attribute = Attribute(table: ArelTable, name: string)

  /** The statements the patched methods build. `from` is the relation the
      statement is compiled from; the WHERE clause compares the primary-key
      column of `whereTable` with the record id. */
  datatype Statement =
    | DeleteById(from: Relation, whereTable: ArelTable, primaryKey: Option<string>, id: Value)
    | UpdateById(from: Relation, whereTable: ArelTable, primaryKey: Option<string>, id: Value,
                 assignments: seq<(Attribute, Value)>)
    | DeleteThroughRelation(from: Relation, id: Value)

  /** `arel_attributes_values(include_primary_key, include_readonly, names)`:
      the record's attributes in order, keeping the primary key only when
      asked and only the named ones; readonly attributes are not modelled. */
  function AttributesValues(m: Model, rec: Record, includePrimaryKey: bool, names: seq<string>): (r: Attributes)
    ensures forall k :: HasKey(r, k) <==>
      HasKey(rec.attributes, k) && k in names && (includePrimaryKey || m.primaryKey != Some(k))
    ensures forall k | HasKey(r, k) :: HashGet(r, k) == HashGet(rec.attributes, k)
  {
    FilterPairs(rec.attributes, (k: string) => k in names && (includePrimaryKey || m.primaryKey != Some(k)))
  }

  /** The pairs of `h` whose names satisfy `keep`, in order. */
  function FilterPairs(h: Pairs, keep: string -> bool): (r: Pairs)
    requires UniqueKeys(h)
    ensures UniqueKeys(r)
    ensures forall k :: HasKey(r, k) <==> HasKey(h, k) && keep(k)
    ensures forall k | HasKey(r, k) :: HashGet(r, k) == HashGet(h, k)
    ensures |r| <= |h|
    decreases |h|
  {
    if |h| == 0 then []
    else
      assert h == [h[0]] + h[1..];
      var rest := FilterPairs(h[1..], keep);
      assert forall k :: HasKey(h, k) <==> h[0].0 == k || HasKey(h[1..], k) by {
        forall k { HasKeyCons(h[0], h[1..], k); }
      }
      if keep(h[0].0) then
        var r := [h[0]] + rest;
        assert forall k :: HasKey(r, k) <==> h[0].0 == k || HasKey(rest, k) by {
          forall k { HasKeyCons(h[0], rest, k); }
        }
        r
      else rest
  }

  /** The attribute hash keyed by the columns of `table`, as `arel_attributes_values`
      keys it by the class table. */
  function OnTable(table: ArelTable, values: Pairs): (r: seq<(Attribute, Value)>)
    ensures |r| == |values|
    ensures forall i | 0 <= i < |values| :: r[i] == (Attribute(table, values[i].0), values[i].1)
  {
    if |values| == 0 then [] else [(Attribute(table, values[0].0), values[0].1)] + OnTable(table, values[1..])
  }
}
