# partitioned, modelled in Dafny

`partitioned` is a Ruby library. It splits an `ActiveRecord` model's table into PostgreSQL child tables, one per partition key.
This project models its core in Dafny:

- **Naming.** The schema and child-table names a parent table's partitions get: `foos` keeps its partitions in `foos_partitions` and key 42 lands in `foos_partitions.p42`. Also the alias partitioned queries use, and the class-level `table_name(*keys)`.
- **Key strategies.** The modulo, hashed-modulo and text strategies:
  - how each reduces a key value to a partition identifier;
  - the key range each enumerates by default;
  - the CHECK constraint each child table carries;
  - the abstract defaults that raise `MethodNotImplemented`.
- **The per-class `Arel::Table` cache.** This is a map from partition-key tuples (`nil` for the parent) to tables. It has the invariant that every cached table is named `table_name(*key)`. Around it sit the key extraction of `ModelSchema`, `from_partition` and `table_name=`.
- **Statement routing.** The three sets of `Persistence` patches (`destroy`, `delete`, `update`, `create`), the two `Relation#insert` patches and `build_select`. Each decides:
  - whether a primary-key value is drawn from the sequence;
  - which table a statement reads from or filters on;
  - which lifecycle flags a record ends with.

The database, the sequence and the ORM are abstract collaborators:

| collaborator | modelled as |
|---|---|
| sequence | an integer counter |
| `connection.prefetch_primary_key?` | a predicate on table names |
| a model's own `prefetch_primary_key?` | an optional answer; `None` keeps the default that asks the connection |
| `dynamic_arel_table` | an optional function of the attribute hash |
| rows updated by `connection.update` | a function of the statement |
| id reported by `connection.insert` | a function of the call |

Ruby exceptions become the `Err` case of a `Result`. The MD5 digest is a function into 32-character lower-case hex strings.

Modules, one per file:

| module | what it holds |
|---|---|
| `Strings` | digits, `to_s`/`to_i` of integers, `split`/`join`, `gsub` of one character, ASCII case |
| `Ruby` | values, errors, hashes as association lists |
| `KeyStrategy` | normalisation, ranges and CHECK constraints of each strategy |
| `Naming` | the naming lambdas and `PartitionedBase.table_name` |
| `ModelSchema` | the `ModelSchema` patches |
| `ArelCache` | the `arel_table` cache and `table_name=` |
| `SchemaDefinitions` | `TableDefinition#check_constraint` |
| `QueryMethods` | `build_select` |
| `Records` | records, models, statements |
| `RelationInsert` | `Relation#insert` |
| `Creation` | the `create` the patches share |
| `MonkeyPatchPersistence` | the `Persistence` patches of `lib/monkey_patch_activerecord.rb` |
| `PatchesPersistence` | the `Persistence` patches of `lib/patches/active_record/persistence.rb` |
| `AmpPersistence` | the `Persistence` patches of `lib/activerecord_monkey_patches/persistence.rb` |

Where the library's prose and its code differ, the model follows the code:

- The cache is keyed by the raw key values, not the normalised ones. Keys 1 and 3 of a two-way modulo model get two cache entries, and both name the same child table.
- A missing key attribute is `nil`. It is not an error: under a modulo strategy `nil.to_i` is 0, so it routes to `p0`; under a text strategy it routes to the table named `p`.
- `update` in `lib/activerecord_monkey_patches/persistence.rb` finds the table from the record's current attributes, not from the values it was loaded with.
- The comments call the partition keys strings (`lib/partitioned/partitioned_base.rb:35-38`), and the examples configure Symbols. The class-level `table_partition_key_values` finds a key of either kind (`key.to_sym`). The instance `table_name` and `arel_table` look a key up as configured in the symbolized attributes, so a key configured as a String reads `nil` there. The model carries the kind of each key name.

## Model

The lambdas `parent_table_schema_name`, `part_name` and `partition_table_name` (`lib/partitioned/partitioned_base.rb:165-202`) are `Naming.ParentTableSchemaName`, `Naming.PartName` and `Naming.PartitionTableName`. Each only composes the others, so its behaviour is stated by the rows of `Naming.SchemaNameOfUnqualified`, `Naming.SchemaNameOfQualified`, `Naming.ChildTableNameOfUnqualified`, `Naming.ChildTableSchema` and `Naming.PartitionTableNameInjective`.

| member | source | states |
|---|---|---|
| Ruby.NotImplemented | lib/partitioned/partitioned_base.rb:9-13 | the message is the class name, then `.` for a class method or `#` for an instance method, then the method name |
| Ruby.HashGet | lib/activerecord_monkey_patches/model_schema.rb:58-61 | a hash lookup answers `nil` for a missing key and the stored value of a present one |
| Ruby.HashPut | lib/patches/active_record/relation.rb:22 | storing a value under a key keeps the keys unique; a later lookup of that key gives the value; every other key is unchanged; a new key adds one entry |
| Ruby.ToIOfToS | lib/partitioned/by_modulo_field.rb:27 | `to_i` of `to_s` of an integer gives the integer back |
| Strings.IntToStringRoundTrip | lib/partitioned/partitioned_base.rb:218 | the base name `to_s` gives an integer is read back by `to_i` |
| Strings.IntToStringInjective | lib/partitioned/partitioned_base.rb:218 | distinct integers have distinct `to_s`, so distinct partition identifiers give distinct child names |
| Strings.JoinSplitFields | lib/partitioned/partitioned_base.rb:137-147 | joining the fields split on a separator gives the string back |
| Strings.SplitWithoutSeparator | lib/partitioned/partitioned_base.rb:137 | a non-empty name without `.` splits into itself alone |
| Strings.SplitOneSeparator | lib/partitioned/partitioned_base.rb:137 | `q.t` with non-empty `t` and no other `.` splits into `[q, t]` |
| Strings.HexValueBound | lib/partitioned/by_modulo_hashed_field.rb:13 | the base-16 value of a hex string of length n is below 16^n |
| Strings.UpcaseInjectiveWithoutUpper | lib/partitioned/by_text_field.rb:49 | `upcase` tells apart strings that hold no upper-case letters |
| KeyStrategy.FlooredMod | lib/partitioned/by_modulo_field.rb:27 | Ruby's `%` takes the divisor's sign: the result lies in `[0, m)` for m > 0 and in `(m, 0]` for m < 0, and it differs from the dividend by a multiple of m |
| KeyStrategy.FlooredModSameIff | lib/partitioned/by_modulo_field.rb:27 | two integers have the same remainder exactly when their difference is a multiple of m |
| KeyStrategy.HashedValue | lib/partitioned/by_modulo_hashed_field.rb:13 | the decoded last eight hex characters of the digest are below 16^8 |
| KeyStrategy.NormalizeText | lib/partitioned/by_text_field.rb:19-21 | each space becomes `_` and each other character is lower-cased, position by position; the result has no space and no upper-case letter |
| KeyStrategy.Normalize | lib/partitioned/partitioned_base.rb:51-53 | every strategy's `partition_normalize_key_value`: the identity for the base class; a modulo identifier in `[0, m)` congruent to `to_i` of the key; a hashed identifier in `[0, m)` congruent to the decoded last eight digest characters; for text, the `gsub`/`downcase` of `to_s` of the key, so no space and no upper-case letter; `ZeroDivisionError` exactly for a zero modulus |
| KeyStrategy.NormalizeIdempotent | lib/partitioned/by_modulo_field.rb:26-28 | normalising a normalised value changes nothing, under the identity, modulo and text strategies |
| KeyStrategy.ModuloSameBucketIff | lib/partitioned/by_modulo_field.rb:26-28 | under a modulo strategy two keys share a partition exactly when their integer values are congruent modulo the modulus |
| KeyStrategy.ModuloShift | lib/partitioned/by_modulo_field.rb:27 | `v` and `v + j * modulus` normalise alike |
| KeyStrategy.HashedSameSuffix | lib/partitioned/by_modulo_hashed_field.rb:13 | keys whose digests share their last eight characters normalise alike |
| KeyStrategy.HashedSameBucketIff | lib/partitioned/by_modulo_hashed_field.rb:12-14 | under the hashed strategy two keys share a partition exactly when the decoded suffixes of their digests are congruent modulo the modulus |
| KeyStrategy.StepRange | lib/partitioned/partitioned_base.rb:63-65 | `Range.new(s, e).step(k)` for k > 0 is strictly increasing and holds exactly the values in `[s, e]` that are `s` plus a multiple of k; a step of 0 or less raises `ArgumentError` |
| KeyStrategy.NormalizedTextValues | lib/partitioned/by_text_field.rb:26-28 | it fails exactly when the model does not override it, and the message names `<Class>.partition_text_field`, not `normalized_text_values`; an override's values are returned |
| KeyStrategy.PartitionGenerateRange | lib/partitioned/by_text_field.rb:35-37 | the text strategy's range is exactly its normalised text values and fails when they are not defined |
| KeyStrategy.ExplicitRange | lib/partitioned/by_modulo_field.rb:38-40 | given a start, an end and a step, the base and modulo strategies enumerate, in increasing order, exactly the integers from start to end that are start plus a multiple of the step; a step of 0 or less raises `ArgumentError`; a missing step is 1 (as at `lib/partitioned/partitioned_base.rb:63-65`) |
| KeyStrategy.DefaultModuloRange | lib/partitioned/by_modulo_field.rb:38-40 | the default modulo range is `0, 1, ..., modulus - 1`: it has modulus pairwise distinct entries and holds every identifier the strategy produces |
| KeyStrategy.PartitionModuloField | lib/partitioned/by_modulo_field.rb:19-21 | it fails exactly when the model does not override it, raising `MethodNotImplemented` with the message `<Class>.partition_modulo_field`; an override's field is returned |
| KeyStrategy.PartitionTextField | lib/partitioned/by_text_field.rb:12-14 | it fails exactly when the model does not override it, raising `MethodNotImplemented` with the message `<Class>.partition_text_field`; an override's field is returned |
| KeyStrategy.CheckConstraint | lib/partitioned/by_modulo_field.rb:51-54 | the modulo constraint is `(<field>::integer % <m>) = <normalised id>::integer`; the text constraint is `<field>::text = '<UPCASE(normalised id)>'::text` (by_text_field.rb:48-51); a missing field raises `MethodNotImplemented`; the base class has none |
| KeyStrategy.CheckConstraintDistinguishesPartitions | lib/partitioned/by_text_field.rb:48-51 | two keys get the same CHECK constraint exactly when they normalise to the same identifier |
| Naming.SchemaName | lib/partitioned/partitioned_base.rb:135-148 | the partitions schema name holds no `.` |
| Naming.SchemaNameOfUnqualified | lib/partitioned/partitioned_base.rb:126-133 | `foos` keeps its partitions in `foos_partitions`, and its parent schema is `public` |
| Naming.SchemaNameOfQualified | lib/partitioned/partitioned_base.rb:126-148 | `public.foos` gives `foos_partitions` and `other.foos` gives `other_foos_partitions`; the parent schema is the qualifier (lines 165-170) |
| Naming.BaseName | lib/partitioned/partitioned_base.rb:217-219 | the base name is `to_s` of the normalised key; it exists exactly when one key is given and it normalises |
| Naming.PartitionAliasName | lib/partitioned/partitioned_base.rb:207-209 | the alias has the parent name's length and characters, with every `.` replaced by `_`, so it holds no `.` |
| Naming.AliasOfUnqualified | lib/partitioned/partitioned_base.rb:207-209 | an unqualified table is its own alias |
| Naming.TableName | lib/partitioned/partitioned_base.rb:328-332 | no key values give the parent table; a plain model ignores its key values (model_schema.rb:13-16); otherwise the child table name |
| Naming.TableAliasName | lib/partitioned/partitioned_base.rb:337-339 | `table_alias_name` never fails; a plain model aliases by its `table_name` (`lib/activerecord_monkey_patches/model_schema.rb:114-116`), a partitioned one by the parent's alias whatever the key values |
| Naming.ChildTableSchema | lib/partitioned/partitioned_base.rb:165-170 | the schema part of a modulo child table's name is the partitions schema name |
| Naming.PartitionTableNameInjective | lib/partitioned/partitioned_base.rb:199-219 | two keys name the same child table exactly when they normalise to the same identifier |
| Naming.ModuloRoutesCongruentKeysTogether | lib/partitioned/by_modulo_field.rb:26-28 | a modulo model routes two keys to the same child table exactly when they are congruent modulo the modulus |
| Naming.DefaultRangeCoversEveryKey | lib/partitioned/by_modulo_field.rb:38-40 | the default range of a modulo model creates pairwise distinct child tables, among them the table of every key |
| Naming.ChildTableNameOfUnqualified | lib/partitioned/partitioned_base.rb:177-202 | the child table of key k of an unqualified table `t` is `t_partitions.p<normalised k>`: the schema name, `.`, the prefix `p` and the base name |
| Naming.ModuloScenario | spec/partitioned/by_modulo_field_spec.rb:12-37 | for a two-way modulo model on `employees`, keys 1 and 3 go to `employees_partitions.p1`, and no key gives `employees` |
| Naming.TextScenario | spec/partitioned/by_text_field_spec.rb:12-37 | for a text model on `employees`, key `'A'` goes to `employees_partitions.pa` |
| ModelSchema.KeyValues | lib/activerecord_monkey_patches/model_schema.rb:58-61 | one value per key, in key order, `nil` for a key the hash lacks; with `key.to_sym` a key configured as a String is found as well as a Symbol |
| ModelSchema.TablePartitionKeys | lib/activerecord_monkey_patches/model_schema.rb:47-49 | a plain model has no partition keys; a partitioned one has its configured `on_fields` (`lib/partitioned/partitioned_base.rb:40-42`) |
| ModelSchema.TablePartitionKeyValues | lib/activerecord_monkey_patches/model_schema.rb:58-61 | the model's partition keys looked up by name in the values, in order, whatever kind of name each key is |
| ModelSchema.SymbolizedGet | lib/activerecord_monkey_patches/model_schema.rb:7-8 | `symbolize_keys[name]` finds the attribute for a key configured as a Symbol and reads `nil` for one configured as a String |
| ModelSchema.InstanceKeyValues | lib/activerecord_monkey_patches/model_schema.rb:7-8 | the instance lookup gives one value per key, in key order, each read from the symbolized attributes |
| ModelSchema.InstanceKeyValuesAgreeIffSymbols | lib/activerecord_monkey_patches/model_schema.rb:6-9 | with Symbol keys the instance lookup equals the class-level `table_partition_key_values`; a String key whose attribute is set makes them differ at that position |
| ModelSchema.KeyHash | lib/activerecord_monkey_patches/base.rb:5-9 | the hash the instance `arel_table` builds pairs each partition key's name with what the symbolized attributes hold under it, in key order |
| ModelSchema.KeyValuesOfKeyHash | lib/activerecord_monkey_patches/base.rb:5-9 | when no name is configured both as a Symbol and as a String, the class-level lookup of that hash gives exactly the instance lookup of the attributes |
| ModelSchema.InstanceTableName | lib/activerecord_monkey_patches/model_schema.rb:6-9 | the instance `table_name` is the class `table_name` of the key values read from the symbolized attributes; a plain model, which has no partition keys (lines 47-49), and a partitioned model without key fields both get the model's own table |
| ModelSchema.InstanceTableNameRoutesByKey | lib/activerecord_monkey_patches/model_schema.rb:6-9 | two records of a modulo model keyed by one Symbol share a table exactly when their key attributes are congruent |
| ModelSchema.InstanceTableNameIgnoresStringKeys | lib/activerecord_monkey_patches/model_schema.rb:6-9 | when every key is configured as a String, every record gets the same instance `table_name`, whatever its attributes |
| ModelSchema.FromPartition | lib/activerecord_monkey_patches/model_schema.rb:76-80 | the relation reads from `<table_name(k)> AS <table_alias_name(k)>` and its table takes that alias; nothing else changes; it fails exactly when `table_name(k)` does |
| ModelSchema.FromPartitionIdentifiesPartition | lib/activerecord_monkey_patches/model_schema.rb:76-80 | for a partitioned model, two key tuples give the same FROM clause exactly when they name the same table |
| ModelSchema.FromPartitionedWithoutAlias | lib/activerecord_monkey_patches/model_schema.rb:108-112 | the relation reads from `table_name(k)` and uses it as the alias too |
| ModelSchema.FromPartitionOfPlainModel | lib/activerecord_monkey_patches/model_schema.rb:114-116 | a plain model's `from_partition` reads its own table aliased by its own name, whatever the keys |
| ModelSchema.PrefetchPrimaryKey | lib/activerecord_monkey_patches/model_schema.rb:118-130 | `prefetch_primary_key?` passes the question to the connection for the table `table_name` names with no key values, the parent table, never a child table |
| ArelCache.KeyFor | lib/activerecord_monkey_patches/base.rb:25-29 | blank values give the `nil` key; other values give the tuple of their partition-key values |
| ArelCache.ClassArelTable | lib/activerecord_monkey_patches/base.rb:22-36 | a hit returns the cached table and changes nothing; a miss stores and returns a table named `table_name(*key)`; blank values never fail |
| ArelCache.ClassArelTablePreservesConsistency | lib/activerecord_monkey_patches/base.rb:30-35 | a lookup keeps every cached table named after its key, and the table it returns is so named |
| ArelCache.RepeatedLookupIsStable | lib/activerecord_monkey_patches/base.rb:30-35 | a second lookup returns the same table and changes nothing |
| ArelCache.ResetArelTable | lib/activerecord_monkey_patches/base.rb:12-20 | only the entry of the given key is cleared; every other entry and the rest of the class state are untouched |
| ArelCache.ResetThenLookupRebuilds | lib/activerecord_monkey_patches/base.rb:12-36 | a reset keeps the cache consistent, and the next lookup of that key builds a table under the current name |
| ArelCache.InstanceArelTable | lib/activerecord_monkey_patches/base.rb:5-9 | the instance lookup is the class lookup of the partition-key hash, and on a consistent cache, with no name configured as both kinds, it gives the table the instance `table_name` names |
| ArelCache.InstanceArelTableName | lib/activerecord_monkey_patches/base.rb:5-9 | on a consistent cache the instance's table is named by the instance `table_name` |
| ArelCache.SetTableName | lib/activerecord_monkey_patches/model_schema.rb:26-32 | after `table_name=`, the previous name is remembered only if one was set; the quoted name is cleared; the parent entry and the relation's table name the new table; the child entries are kept as they were, and no key besides the parent's is added |
| ArelCache.SetTableNameLeavesStaleChildTables | lib/activerecord_monkey_patches/model_schema.rb:26-32 | renaming `foos` to `bars` after the child table of key 1 was cached breaks the cache invariant: the lookup for key 1 still returns `foos_partitions.p1`, while `table_name(1)` is `bars_partitions.p1` |
| ArelCache.SetTableNameResettingAll | lib/activerecord_monkey_patches/model_schema.rb:26-32 | the corrected rename clears every cached table and leaves only the new parent table |
| ArelCache.SetTableNameResettingAllIsConsistent | lib/activerecord_monkey_patches/model_schema.rb:26-32 | after the corrected rename, the cache is consistent whatever it held before, and every lookup gives the table named `table_name(*key)` under the new name |
| ArelCache.SetTableNameVariantsAgreeOnParent | lib/activerecord_monkey_patches/model_schema.rb:26-32 | the rename as written and the corrected one agree on everything but the cached child tables |
| SchemaDefinitions.CheckConstraint | lib/activerecord_monkey_patches/connection_adapters/abstract/schema_definitions.rb:10-12 | the column list grows by one; the earlier entries are unchanged and in order; the new last entry is raw SQL wrapping the constraint |
| SchemaDefinitions.ConstraintOf | lib/activerecord_monkey_patches/connection_adapters/abstract/schema_definitions.rb:11 | a constraint read back from SQL is exactly what `CHECK (` and `)` wrap |
| SchemaDefinitions.ConstraintOfCheck | lib/activerecord_monkey_patches/connection_adapters/abstract/schema_definitions.rb:11 | the constraint is embedded verbatim: it reads back unchanged |
| SchemaDefinitions.CheckConstraintInjective | lib/activerecord_monkey_patches/connection_adapters/abstract/schema_definitions.rb:10-12 | two constraints give the same definition exactly when they are equal |
| SchemaDefinitions.ModuloPartitionCheck | lib/partitioned/by_modulo_field.rb:51-54 | declaring a modulo partition's constraint appends it verbatim, and two keys give the same definition exactly when they share a partition |
| QueryMethods.BuildSelect | lib/patches/active_record/relation/query_methods.rb:10-20 | non-empty selects are appended in order and clear `implicit_readonly`; no selects append `*` of the relation's own table and leave the relation untouched |
| QueryMethods.StarFollowsPartitionAlias | lib/patches/active_record/relation/query_methods.rb:15-18 | on a `from_partition` relation, `*` refers to the alias under which the FROM clause reads the child table |
| Records.WithId | lib/monkey_patch_activerecord.rb:55 | assigning the id changes only the primary-key attribute, and afterwards the id is the assigned value |
| Records.AttributesValues | lib/monkey_patch_activerecord.rb:42 | the named attributes the record holds, the primary key only when asked for, with their values |
| Records.OnTable | lib/activerecord_monkey_patches/persistence.rb:46 | every attribute is rebound to the same-named column of the given table, with the same value and in the same order |
| RelationInsert.SortByName | lib/monkey_patch_activerecord.rb:108 | the substitutes are sorted by attribute name and are a permutation of the values |
| RelationInsert.Placeholders | lib/monkey_patch_activerecord.rb:113-115 | the i-th substitute is the i-th sorted column with placeholder index i |
| RelationInsert.PrefetchedValues | lib/patches/active_record/relation.rb:15-24 | with a primary key, a hash and no truthy key value, a prefetching connection adds the drawn value under the primary key; otherwise the values are unchanged |
| RelationInsert.Insert | lib/monkey_patch_activerecord.rb:81-130 | the sequence advances exactly when a value is prefetched; the call carries the found or drawn key value; the call targets the table `dynamic_arel_table` answers for the values after the prefetch, or the relation's table when there is none or it answers nothing; the binds are the values sorted by name; empty values give the empty-insert clause; otherwise the i-th substitute has placeholder i |
| RelationInsert.ExistingKeyIsKept | lib/patches/active_record/relation.rb:15-20 | a truthy key value already present is passed on, nothing is drawn and the values are unchanged |
| RelationInsert.MissingKeyIsPrefetched | lib/patches/active_record/relation.rb:20-23 | a missing key with a prefetching connection draws exactly one value, stores it under the key and passes it on; the table is chosen from the values including the drawn key |
| RelationInsert.NoPrefetchWithoutKeyOrHash | lib/patches/active_record/relation.rb:15 | without a primary key or with non-hash values nothing is drawn and the key value is `nil` |
| RelationInsert.BindsPairWithSubstitutes | lib/monkey_patch_activerecord.rb:108-121 | non-empty values give one substitute per bind, the i-th naming the i-th bind's column with placeholder i |
| Creation.CreateValues | lib/monkey_patch_activerecord.rb:58 | the inserted values are the record's attributes, with the primary key only when the id is set |
| Creation.Create | lib/monkey_patch_activerecord.rb:53-67 | a drawn id is stored before the insert; a preset id is kept; otherwise the id is the one the insert reports; the record is no longer new; the returned id is the record's id; no other attribute changes |
| Creation.InsertKeepsPresetId | lib/monkey_patch_activerecord.rb:58-60 | a record with an id inserts it and the insert draws nothing |
| Creation.CreateDrawsAtMostOnce | lib/monkey_patch_activerecord.rb:53-60 | one `create` draws at most one sequence value |
| Creation.CreateWithConnectionPolicy | lib/activerecord_monkey_patches/persistence.rb:53-60 | when `create` follows the connection's own prefetch policy, a missing id is drawn exactly once, by `create` |
| Creation.CreateDraws | lib/activerecord_monkey_patches/persistence.rb:53-60 | a missing id is drawn once, by `create` when its up-front decision holds, otherwise by the insert exactly when the connection asks (`lib/monkey_patch_activerecord.rb:84-93`); a preset id draws nothing |
| MonkeyPatchPersistence.Destroy | lib/monkey_patch_activerecord.rb:18-37 | only a persisted record issues a DELETE by id on the model's relation, filtered on the chosen table; the record always ends destroyed and frozen |
| MonkeyPatchPersistence.DestroyReadsModelTable | lib/monkey_patch_activerecord.rb:27-29 | the DELETE reads from the model table and filters on the record's `dynamic_arel_table` when it has one, on the model table otherwise; so it names a single table exactly when the dynamic table is the model table |
| MonkeyPatchPersistence.DestroyAgainstPatches | lib/monkey_patch_activerecord.rb:18-37 | against `lib/patches/active_record/persistence.rb:10-38`: the same flags and the same filter table; the same statement without a dynamic table; with one, the other patch reads from the dynamic table while this one reads from the model table |
| MonkeyPatchPersistence.Update | lib/monkey_patch_activerecord.rb:41-48 | nothing to write gives 0 and no statement; otherwise an UPDATE by id on the chosen table, answering the affected row count |
| MonkeyPatchPersistence.UpdateWritesNamedAttributes | lib/monkey_patch_activerecord.rb:41-47 | the UPDATE sets exactly the named non-key attributes the record holds, with their current values, on columns of the model table, and filters on the chosen table |
| MonkeyPatchPersistence.UpdateAgreesWithPatches | lib/monkey_patch_activerecord.rb:41-48 | this `update` and the one at `lib/patches/active_record/persistence.rb:42-57` compile the same statement and answer the same count for every input |
| MonkeyPatchPersistence.CreateRecord | lib/monkey_patch_activerecord.rb:53-67 | prefetches only when the id is `nil` and the model answers and affirms `prefetch_primary_key?`, by its own override or by the connection's default; a model that overrides it with true gets the next sequence value as its id; otherwise the insert draws exactly when the connection asks; keeps a preset id; draws at most once |
| MonkeyPatchPersistence.InsertPrefetchesForSilentModel | lib/monkey_patch_activerecord.rb:84-93 | for a model that does not answer `prefetch_primary_key?`, the insert still draws the id when the connection asks for it |
| PatchesPersistence.Destroy | lib/patches/active_record/persistence.rb:10-38 | a partition-aware model deletes through a relation on its `dynamic_arel_table`, another model through the class table; only when persisted; always destroyed and frozen |
| PatchesPersistence.DestroyTargetsOneTable | lib/patches/active_record/persistence.rb:20-29 | the DELETE reads from and filters on the same table |
| PatchesPersistence.Update | lib/patches/active_record/persistence.rb:42-57 | nothing to write gives 0; otherwise the filter is on `dynamic_arel_table` when supported and on the class table otherwise |
| PatchesPersistence.CreateRecord | lib/patches/active_record/persistence.rb:61-76 | prefetches only when the id is `nil` and the model answers and affirms, by its own override or by the connection's default; a model that overrides it with true gets the next sequence value as its id; otherwise the insert draws exactly when the connection asks; without a primary key the id stays `nil`; keeps a preset id |
| AmpPersistence.Delete | lib/activerecord_monkey_patches/persistence.rb:5-12 | a persisted record is deleted by id through `from_partition` of its key values; the record always ends destroyed and frozen; naming failures propagate |
| AmpPersistence.DeleteReadsFromOwnPartition | lib/activerecord_monkey_patches/persistence.rb:6-7 | the DELETE reads, under the parent alias, from the child table of the key values `table_partition_key_values` finds; with Symbol keys that is the table the instance `table_name` names |
| AmpPersistence.Destroy | lib/activerecord_monkey_patches/persistence.rb:14-32 | a persisted record is deleted by id, filtered on the instance `arel_table` looked up in its own class's cache; always destroyed and frozen |
| AmpPersistence.DestroyFiltersOnOwnPartition | lib/activerecord_monkey_patches/persistence.rb:17-27 | on the class's own consistent cache, the DELETE reads from the parent table and filters on the table the instance `table_name` names, and the cache stays consistent |
| AmpPersistence.Update | lib/activerecord_monkey_patches/persistence.rb:36-49 | nothing to write gives 0 and no lookup; otherwise every assignment is rebound to the instance `arel_table` of the record's own class cache, which the filter also uses |
| AmpPersistence.UpdateRebindsToOwnTable | lib/activerecord_monkey_patches/persistence.rb:40-47 | on the class's own consistent cache, the UPDATE reads from the parent table, keeps every name and value in order, and puts each on the table named by the instance `table_name`, which the filter uses too; the cache stays consistent |
| AmpPersistence.CreateRecord | lib/activerecord_monkey_patches/persistence.rb:53-67 | prefetches exactly when the id is `nil` and `prefetch_primary_key?` holds, with no `respond_to?` check: an override answering true draws the next sequence value as the id, one answering false leaves the draw to the insert exactly when the connection asks, and the default draws in `create` exactly when the connection asks; keeps a preset id without drawing |

## Left out

- The MD5 digest is an abstract function. Only the suffix, hex-decode and modulus step is modelled.
- SQL execution is not modelled: `connection.insert`, `connection.update`, `delete_all`, the sequence itself, CHECK enforcement, and the errors PostgreSQL raises for a missing child table. Each is an abstract collaborator or a statement value.
- Arel and ActiveRecord internals are not modelled: `compile_update`, `substitute_at`, `columns_hash`, `IdentityMap`, `destroy_associations`, and `freeze` beyond a flag. Their code is not part of this model.
- `substitute_values` (`lib/patches/active_record/relation.rb:34`) is ActiveRecord code that is not part of this model. It is taken to sort and bind like `lib/monkey_patch_activerecord.rb:108-115`, so one `RelationInsert.Insert` serves both `insert` patches.
- The DSL and its plumbing are not modelled: `PartitionManager`, `SqlAdapter`, `Configurator`, the `partitioned` blocks, the one-line delegators, indexes and ordering clauses, `ByCreatedAt`, and the thread-safety of the cache. Their code is not part of this model.
- `set_table_name` (`lib/activerecord_monkey_patches/model_schema.rb:34-39`) is a deprecated setter whose property handling is not part of this model.
- Strings.LeadingInteger: `String#to_i` reads an optional sign and leading digits only. Leading whitespace and underscores are not modelled.
- Strings.Downcase: ASCII case only; Ruby's Unicode case mapping is not modelled. The same holds for Strings.Upcase.
- ArelCache.SetTableName: takes a string only. `table_name = nil`, which stores `nil`, is not modelled.
- ModelSchema.FromPartition: returns a new relation value. That the source sets the alias on the class's shared `Arel::Table` object, which other relations then see, is not modelled.
- Records.WithId: without a primary key, assigning the id is a no-op. So the `if self.class.primary_key` guard of the two later `create` patches cannot be told apart from its absence.
- Records.Model: one flag stands for both `respond_to?(:dynamic_arel_table)` checks. One is on the instance (`lib/monkey_patch_activerecord.rb:27`) and the other on the class (`lib/patches/active_record/persistence.rb:20`).
- Records.AttributesValues: does not exclude readonly attributes; `include_readonly` is not modelled.
- Records.AttributesValues: keeps the order of the record's attributes. ActiveRecord's `arel_attributes_values` walks the attribute names, so the SET order of an UPDATE may differ; the model promises which columns are set and to what, not their order.
- AmpPersistence.Delete: starts from the unscoped model relation. `from_partition` is called on the class, which in ActiveRecord applies a default scope; default scopes are not modelled.
- KeyStrategy.StepRange: raises `ArgumentError` for a step of 0 or less when the range is built. Ruby 1.9's `Range#step` without a block returns an enumerator and raises only when it is enumerated.
- ModelSchema.KeyHash: a field configured twice, once as a Symbol and once as a String, is not modelled. Ruby keeps the later entry when it symbolizes the hash, the model the earlier; the lemmas relating the key hash to the instance `table_name` assume no such field.
- Records.Attribute: an Arel attribute is compared by table and column name only.
- Naming.DefaultRangeCoversEveryKey: stated for the plain modulo strategy. The hashed strategy inherits the range `0..modulus-1`, but it re-hashes those values, so its partitions are not named by them. With an abstract digest nothing can be proved about which buckets they hit.
- KeyStrategy.CheckConstraint: the hashed strategy inherits the modulo constraint `field % m = bucket`. That does not describe the hashed placement, and the model says nothing about it beyond the string.
- KeyStrategy.TextConstraint: the value is interpolated without escaping. A `'` in a key yields malformed SQL, which the model does not flag.
- Naming.ModelClass: the partition key fields (`on_fields`) are not tied to the strategy's field. The model takes them as configured.

## Findings

| source | as written | input that shows it | evidently intended | confidence | as-written member | corrected member |
|---|---|---|---|---|---|---|
| lib/activerecord_monkey_patches/model_schema.rb:26-32 | `table_name=` calls `reset_arel_table` with no values (`lib/activerecord_monkey_patches/base.rb:12-20`). That clears only the parent's `nil` entry of the per-key cache, so tables cached for child keys keep the old name. | Model `foos`, partitioned by modulo 2 on `id`, has cached the table of key 1 (`foos_partitions.p1`). Rename it to `bars`: `arel_table(id: 1)` still gives `foos_partitions.p1`, while `table_name(1)` is `bars_partitions.p1`. | A rename forgets every cached table, as the unpatched setter's single `@arel_table = nil` did, so each table is rebuilt under the new name. | medium, not executed | ArelCache.SetTableNameLeavesStaleChildTables | ArelCache.SetTableNameResettingAllIsConsistent |
