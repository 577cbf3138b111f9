/** The patched `Relation#insert`: draw a primary key from the sequence when
    the connection wants it prefetched, route the INSERT to the table the
    model's `dynamic_arel_table` picks for the values, and bind the values in
    column-name order. */
module RelationInsert {
  import opened Strings
  import opened Ruby
  import opened ModelSchema
  import opened Records

  /** What `insert` reads from the relation and its model: the primary key,
      the model's own table name (for the prefetch question), the
      connection's prefetch policy, the class-level `dynamic_arel_table` when
      the model defines one, and the relation's `@table`. */
  datatype InsertContext = InsertContext(
    primaryKey: Option<string>,
    klassTableName: string,
    connectionPrefetch: string -> bool,
    dynamicArelTable: Option<Pairs -> Option<ArelTable>>,
    table: ArelTable)

  /** The VALUES part of the statement: the connection's empty-insert clause,
      or each column with the index of its bind placeholder. */
  datatype InsertBody = EmptyInsert | Substitutes(columns: seq<(string, nat)>)

  /** The call `connection.insert(im, 'SQL', pk, pk_value, nil, binds)`. */
  datatype InsertCall = InsertCall(
    into: ArelTable,
    body: InsertBody,
    primaryKey: Option<string>,
    primaryKeyValue: Value,
    binds: Pairs)

  /** The values `insert` receives: an attribute hash, or (when not a `Hash`)
      a list of pairs, which is never prefetched into. */
  datatype InsertValues = InsertValues(pairs: Pairs, isHash: bool) {
    ghost predicate Valid() { isHash ==> UniqueKeys(pairs) }
  }

  // ---------------------------------------------------------------------------
  // Ordering the substitutes by column name
  // ---------------------------------------------------------------------------

  predicate SortedByName(s: Pairs) {
    forall i, j | 0 <= i < j < |s| :: LexLe(s[i].0, s[j].0)
  }

  function InsertByName(x: (string, Value), s: Pairs): (r: Pairs)
    requires SortedByName(s)
    ensures SortedByName(r)
    ensures multiset(r) == multiset(s) + multiset{x}
  {
    if |s| == 0 then [x]
    else if LexLe(x.0, s[0].0) then
      forall j | 0 <= j < |s| ensures LexLe(x.0, s[j].0) {
        if 0 < j { LexLeTransitive(x.0, s[0].0, s[j].0); }
      }
      [x] + s
    else
      var rest := InsertByName(x, s[1..]);
      LexLeTotal(x.0, s[0].0);
      assert s == [s[0]] + s[1..];
      forall j | 0 <= j < |rest| ensures LexLe(s[0].0, rest[j].0) {
        assert rest[j] in multiset(rest);
        if rest[j] != x {
          assert rest[j] in multiset(s[1..]);
          var k :| 0 <= k < |s[1..]| && s[1..][k] == rest[j];
          assert s[k + 1] == rest[j];
        }
      }
      [s[0]] + rest
  }

  /** `values.sort_by { |attr, _| attr.name }`. */
  function SortByName(s: Pairs): (r: Pairs)
    ensures SortedByName(r)
    ensures multiset(r) == multiset(s)
    ensures |r| == |s|
  {
    if |s| == 0 then []
    else
      assert s == [s[0]] + s[1..];
      InsertByName(s[0], SortByName(s[1..]))
  }

  /** The i-th substitute is the i-th sorted column with placeholder index i. */
  function Placeholders(sorted: Pairs, from: nat): (r: seq<(string, nat)>)
    ensures |r| == |sorted|
    ensures forall i | 0 <= i < |sorted| :: r[i] == (sorted[i].0, from + i)
  {
    if |sorted| == 0 then [] else [(sorted[0].0, from)] + Placeholders(sorted[1..], from + 1)
  }

  // ---------------------------------------------------------------------------
  // insert
  // ---------------------------------------------------------------------------

  /** Whether `insert` draws a sequence value: a primary key exists, the
      values are a hash without a truthy primary-key value, and the
      connection wants the model's table prefetched. */
  predicate Prefetches(ctx: InsertContext, values: InsertValues) {
    && ctx.primaryKey.Some?
    && values.isHash
    && !Truthy(HashGet(values.pairs, ctx.primaryKey.value))
    && ctx.connectionPrefetch(ctx.klassTableName)
  }

  /** The values after the prefetch step: the drawn value stored under the
      primary key when `insert` prefetches, the values unchanged otherwise. */
  function PrefetchedValues(ctx: InsertContext, values: InsertValues, counter: int): (r: Pairs)
    requires values.Valid()
    ensures !Prefetches(ctx, values) ==> r == values.pairs
    ensures Prefetches(ctx, values) ==>
      && HashGet(r, ctx.primaryKey.value) == Int(counter)
      && (forall k | k != ctx.primaryKey.value :: HashGet(r, k) == HashGet(values.pairs, k))
      && (forall k :: HasKey(r, k) <==> HasKey(values.pairs, k) || k == ctx.primaryKey.value)
      && UniqueKeys(r)
  {
    if Prefetches(ctx, values) then HashPut(values.pairs, ctx.primaryKey.value, Int(counter))
    else values.pairs
  }

  /** The table the INSERT goes to: what `dynamic_arel_table` answers for the
      values when the model defines it and the answer is not `nil`, the
      relation's own table otherwise. */
  function TargetTable(ctx: InsertContext, values: Pairs): ArelTable
  {
    match ctx.dynamicArelTable
    case None => ctx.table
    case Some(f) => if f(values).Some? then f(values).value else ctx.table
  }

  /** `insert(values)` against a sequence at `counter`: the call handed to the
      connection and the sequence afterwards. */
  function Insert(ctx: InsertContext, values: InsertValues, counter: int): (r: (InsertCall, int))
    requires values.Valid()
    ensures r.1 == if Prefetches(ctx, values) then counter + 1 else counter
    ensures r.0.primaryKey == ctx.primaryKey
    ensures Prefetches(ctx, values) ==> r.0.primaryKeyValue == Int(counter)
    ensures !Prefetches(ctx, values) ==>
      r.0.primaryKeyValue == (if ctx.primaryKey.Some? && values.isHash then HashGet(values.pairs, ctx.primaryKey.value) else Nil)
    ensures r.0.into == TargetTable(ctx, PrefetchedValues(ctx, values, counter))
    ensures multiset(r.0.binds) == multiset(PrefetchedValues(ctx, values, counter))
    ensures SortedByName(r.0.binds)
    ensures r.0.body.EmptyInsert? <==> |PrefetchedValues(ctx, values, counter)| == 0
    ensures r.0.body.Substitutes? ==> r.0.body.columns == Placeholders(r.0.binds, 0)
  {
    var prefetch := Prefetches(ctx, values);
    var pkValue :=
      if prefetch then Int(counter)
      else if ctx.primaryKey.Some? && values.isHash then HashGet(values.pairs, ctx.primaryKey.value)
      else Nil;
    var pairs := PrefetchedValues(ctx, values, counter);
    var into := TargetTable(ctx, pairs);
    var binds := SortByName(pairs);
    var body := if |pairs| == 0 then EmptyInsert else Substitutes(Placeholders(binds, 0));
    (InsertCall(into, body, ctx.primaryKey, pkValue, binds), if prefetch then counter + 1 else counter)
  }

  /** With a truthy primary-key value already in the hash, no sequence value
      is drawn, the values reach the connection unchanged (in column-name
      order) and the given value is the one passed on. */
  lemma ExistingKeyIsKept(ctx: InsertContext, values: InsertValues, counter: int)
    requires values.Valid() && values.isHash && ctx.primaryKey.Some?
    requires Truthy(HashGet(values.pairs, ctx.primaryKey.value))
    ensures Insert(ctx, values, counter).1 == counter
    ensures Insert(ctx, values, counter).0.primaryKeyValue == HashGet(values.pairs, ctx.primaryKey.value)
    ensures multiset(Insert(ctx, values, counter).0.binds) == multiset(values.pairs)
  {
  }

  /** Without a primary-key value and with a prefetching connection, exactly
      one sequence value is drawn, stored under the primary key, and seen by
      `dynamic_arel_table`: routing happens after the prefetch. */
  lemma MissingKeyIsPrefetched(ctx: InsertContext, values: InsertValues, counter: int)
    requires values.Valid() && values.isHash && ctx.primaryKey.Some?
    requires !HasKey(values.pairs, ctx.primaryKey.value)
    requires ctx.connectionPrefetch(ctx.klassTableName)
    ensures var (call, after) := Insert(ctx, values, counter);
      && after == counter + 1
      && call.primaryKeyValue == Int(counter)
      && (ctx.primaryKey.value, Int(counter)) in call.binds
      && call.into == TargetTable(ctx, values.pairs + [(ctx.primaryKey.value, Int(counter))])
  {
    var pk := ctx.primaryKey.value;
    var pairs := PrefetchedValues(ctx, values, counter);
    HashPutAppends(values.pairs, pk, Int(counter));
    assert (pk, Int(counter)) in multiset(pairs);
  }

  /** Putting a key the hash does not hold appends it. */
  lemma {:induction false} HashPutAppends(h: Pairs, k: string, v: Value)
    requires UniqueKeys(h) && !HasKey(h, k)
    ensures HashPut(h, k, v) == h + [(k, v)]
    decreases |h|
  {
    if |h| > 0 {
      assert h[0].0 != k;
      HashPutAppends(h[1..], k, v);
      assert h == [h[0]] + h[1..];
    }
  }

  /** Without a primary key, or with values that are not a hash, nothing is
      prefetched and the primary-key value passed on is `nil`. */
  lemma NoPrefetchWithoutKeyOrHash(ctx: InsertContext, values: InsertValues, counter: int)
    requires values.Valid()
    requires ctx.primaryKey.None? || !values.isHash
    ensures Insert(ctx, values, counter).1 == counter
    ensures Insert(ctx, values, counter).0.primaryKeyValue == Nil
    ensures multiset(Insert(ctx, values, counter).0.binds) == multiset(values.pairs)
  {
  }

  /** For a hash, the binds hold each column once, so they are exactly the
      columns in strictly increasing name order, and the i-th substitute
      names the i-th bind's column with placeholder i. */
  lemma BindsPairWithSubstitutes(ctx: InsertContext, values: InsertValues, counter: int)
    requires values.Valid() && 0 < |values.pairs|
    ensures 0 < |PrefetchedValues(ctx, values, counter)|
    ensures var call := Insert(ctx, values, counter).0;
      && call.body.Substitutes?
      && |call.body.columns| == |call.binds|
      && (forall i | 0 <= i < |call.binds| :: call.body.columns[i] == (call.binds[i].0, i))
  {
  }
}
