/** The `create` shared by the three persistence patches: optionally draw the
    primary key from the sequence, insert the record's attribute values
    through the patched `Relation#insert`, adopt the id the insert reports
    when the record has none, and mark the record saved. The patches differ
    only in when they draw the key up front. */
module Creation {
  import opened Ruby
  import opened Naming
  import opened ModelSchema
  import opened Records
  import opened RelationInsert

  /** The names of an attribute hash, in order. */
  function Names(h: Pairs): (r: seq<string>)
    ensures |r| == |h|
    ensures forall i | 0 <= i < |h| :: r[i] == h[i].0
    ensures forall k :: k in r <==> HasKey(h, k)
  {
    if |h| == 0 then [] else
      assert forall k :: HasKey(h, k) <==> h[0].0 == k || HasKey(h[1..], k) by {
        assert h == [h[0]] + h[1..];
        forall k { HasKeyCons(h[0], h[1..], k); }
      }
      [h[0].0] + Names(h[1..])
  }

  /** The insert context of `self.class.unscoped.insert`: the model's own
      table and its class-level `dynamic_arel_table`. */
  function ContextOf(m: Model): (ctx: InsertContext)
    ensures ctx.primaryKey == m.primaryKey && ctx.klassTableName == m.cls.tableName
    ensures ctx.connectionPrefetch == m.connectionPrefetch
    ensures ctx.dynamicArelTable == m.classDynamicArelTable && ctx.table == m.classTable
  {
    InsertContext(m.primaryKey, m.cls.tableName, m.connectionPrefetch, m.classDynamicArelTable, m.classTable)
  }

  /** What `create` leaves behind: the saved record, the id it returns, the
      insert call made, and the sequence afterwards. */
  datatype Created = Created(rec: Record, id: Value, call: InsertCall, counter: int)

  /** The values `create` inserts: every attribute, the primary key only when
      the id is set. */
  function CreateValues(m: Model, rec: Record): (r: Attributes)
    ensures forall k :: HasKey(r, k) <==> HasKey(rec.attributes, k) && (Id(m, rec) != Nil || m.primaryKey != Some(k))
    ensures forall k | HasKey(r, k) :: HashGet(r, k) == HashGet(rec.attributes, k)
  {
    AttributesValues(m, rec, Id(m, rec) != Nil, Names(rec.attributes))
  }

  /** `create`, given whether the patch draws the primary key up front
      (`prefetchAtCreate`, asked only when the id is `nil`), the sequence at
      `counter` and the id the connection reports for an insert. */
  function Create(m: Model, rec: Record, prefetchAtCreate: bool, counter: int,
                  reportedId: InsertCall -> Value): (r: Created)
    ensures var drew := Id(m, rec) == Nil && prefetchAtCreate;
      var rec1 := if drew then WithId(m, rec, Int(counter)) else rec;
      && r.call == Insert(ContextOf(m), InsertValues(CreateValues(m, rec1), true), if drew then counter + 1 else counter).0
      && r.counter == Insert(ContextOf(m), InsertValues(CreateValues(m, rec1), true), if drew then counter + 1 else counter).1
    ensures !r.rec.newRecord && r.rec.destroyed == rec.destroyed && r.rec.frozen == rec.frozen
    ensures r.id == Id(m, r.rec)
    ensures Id(m, rec) != Nil ==> r.id == Id(m, rec)
    ensures Id(m, rec) == Nil && prefetchAtCreate && m.primaryKey.Some? ==> r.id == Int(counter)
    ensures Id(m, rec) == Nil && !prefetchAtCreate && m.primaryKey.Some? ==> r.id == reportedId(r.call)
    ensures forall k | m.primaryKey != Some(k) :: HashGet(r.rec.attributes, k) == HashGet(rec.attributes, k)
  {
    var drew := Id(m, rec) == Nil && prefetchAtCreate;
    var rec1 := if drew then WithId(m, rec, Int(counter)) else rec;
    var c1 := if drew then counter + 1 else counter;
    var (call, c2) := Insert(ContextOf(m), InsertValues(CreateValues(m, rec1), true), c1);
    var rec2 := if Truthy(Id(m, rec1)) then rec1 else WithId(m, rec1, reportedId(call));
    var rec3 := rec2.(newRecord := false);
    Created(rec3, Id(m, rec3), call, c2)
  }

  /** A record with an id inserts its primary key with that value, so the
      insert draws nothing from the sequence. */
  lemma InsertKeepsPresetId(m: Model, rec: Record, counter: int)
    requires Id(m, rec) != Nil
    ensures Insert(ContextOf(m), InsertValues(CreateValues(m, rec), true), counter).1 == counter
  {
    if m.primaryKey.Some? {
      var pk := m.primaryKey.value;
      assert HasKey(rec.attributes, pk);
      assert HashGet(CreateValues(m, rec), pk) == Id(m, rec);
    }
  }

  /** `create` draws at most one value from the sequence, whichever patch
      decides the up-front prefetch. */
  lemma CreateDrawsAtMostOnce(m: Model, rec: Record, prefetchAtCreate: bool, counter: int,
                              reportedId: InsertCall -> Value)
    ensures counter <= Create(m, rec, prefetchAtCreate, counter, reportedId).counter <= counter + 1
  {
    var drew := Id(m, rec) == Nil && prefetchAtCreate;
    if drew && m.primaryKey.Some? {
      InsertKeepsPresetId(m, WithId(m, rec, Int(counter)), counter + 1);
    }
  }

  /** Who draws a missing id: `create` when its up-front decision `prefetchAtCreate`
      holds, otherwise the insert when the connection's policy for the model's
      table asks for it; a preset id draws nothing. */
  lemma CreateDraws(m: Model, rec: Record, prefetchAtCreate: bool, counter: int, reportedId: InsertCall -> Value)
    requires m.primaryKey.Some?
    ensures var r := Create(m, rec, prefetchAtCreate, counter, reportedId);
      && (Id(m, rec) != Nil ==> r.counter == counter)
      && (Id(m, rec) == Nil ==>
            (r.counter == counter + 1 <==> prefetchAtCreate || m.connectionPrefetch(m.cls.tableName)))
      && (Id(m, rec) == Nil && prefetchAtCreate ==> r.id == Int(counter))
      && (Id(m, rec) == Nil && !prefetchAtCreate && m.connectionPrefetch(m.cls.tableName) ==>
            r.call.primaryKeyValue == Int(counter))
  {
    var pk := m.primaryKey.value;
    if Id(m, rec) == Nil && prefetchAtCreate {
      InsertKeepsPresetId(m, WithId(m, rec, Int(counter)), counter + 1);
    } else if Id(m, rec) != Nil {
      InsertKeepsPresetId(m, rec, counter);
    } else {
      var values := CreateValues(m, rec);
      assert !HasKey(values, pk);
      assert HashGet(values, pk) == Nil;
    }
  }

  /** When the up-front decision is the connection's own prefetch policy for
      the model's table (as `prefetch_primary_key?` is), a missing id is drawn
      by `create` exactly when the policy asks for it and the insert never
      draws a second one. */
  lemma CreateWithConnectionPolicy(m: Model, rec: Record, counter: int, reportedId: InsertCall -> Value)
    requires m.primaryKey.Some?
    ensures var r := Create(m, rec, PrefetchPrimaryKey(m.cls, m.connectionPrefetch), counter, reportedId);
      && (Id(m, rec) == Nil && m.connectionPrefetch(m.cls.tableName) ==> r.counter == counter + 1 && r.id == Int(counter))
      && (Id(m, rec) != Nil || !m.connectionPrefetch(m.cls.tableName) ==> r.counter == counter)
  {
    var p := PrefetchPrimaryKey(m.cls, m.connectionPrefetch);
    if Id(m, rec) == Nil && p {
      InsertKeepsPresetId(m, WithId(m, rec, Int(counter)), counter + 1);
    } else if Id(m, rec) != Nil {
      InsertKeepsPresetId(m, rec, counter);
    }
  }
}
