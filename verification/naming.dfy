/** The naming rules of `Partitioned::PartitionedBase`: the schema that holds
    a parent table's partitions, the child table name for a set of partition
    key values, the alias partitioned queries use, and the class-level
    `table_name(*partition_key_values)` that switches between the parent and
    a child table. */
module Naming {
  import opened Strings
  import opened Ruby
  import opened KeyStrategy

  /** The schema whose tables are not qualified in partition schema names. */
  const DefaultSchema: string := "public"
  const PartitionsSuffix: string := "partitions"
  /** The `name_prefix` lambda: a letter, so numeric base names stay valid identifiers. */
  const NamePrefix: string := "p"

  /** A partition-key field name as the configuration gives it. Ruby tells the
      Symbol `:id` from the String `"id"`, and only some of the lookups below
      convert one into the other. */
  datatype KeyName = SymbolName(name: string) | StringName(name: string)

  /** What kind of class a model is: a plain `ActiveRecord::Base` subclass, or
      a `PartitionedBase` subclass with the partition key fields its
      configuration declares (`configurator.on_fields`) and its key strategy. */
  datatype Kind =
    | Plain
    | Partitioned(onFields: seq<KeyName>, strategy: Strategy)

  /** A model class: its Ruby class name, the table name `ActiveRecord` gives
      it (`table_name` with no arguments), and its kind. */
  datatype ModelClass = ModelClass(name: string, tableName: string, kind: Kind)

  /** The `schema_name` lambda: the local table name suffixed `_partitions`,
      prefixed by the parent's schema and `_` unless that schema is `public`. */
  function SchemaName(table: string): (r: string)
    ensures '.' !in r
  {
    var parts := Split(table, '.');
    var qualifier := if |parts| == 2 && parts[0] != DefaultSchema then [parts[0]] else [];
    var local := if |parts| == 0 then "" else parts[|parts| - 1];
    var all := qualifier + [local, PartitionsSuffix];
    JoinAvoids(all, '_', '.');
    Join(all, '_')
  }

  /** The `parent_table_schema_name` lambda: the schema part of a two-part
      table name, `public` otherwise. */
  function ParentTableSchemaName(table: string): string
  {
    var parts := Split(table, '.');
    if |parts| == 2 then parts[0] else DefaultSchema
  }

  /** The `base_name` lambda: the normalized key rendered with `to_s`. The
      strategies' `partition_normalize_key_value` take exactly one argument, so
      any other number of key values is an `ArgumentError`. */
  function BaseName(st: Strategy, keys: seq<Value>): (r: Result<string>)
    ensures r.Ok? <==> |keys| == 1 && Normalize(st, keys[0]).Ok?
    ensures r.Ok? ==> r.value == ToS(Normalize(st, keys[0]).value)
  {
    if |keys| != 1 then Err(WrongArity(|keys|, "1"))
    else
      var v :- Normalize(st, keys[0]);
      Ok(ToS(v))
  }

  /** The `part_name` lambda: prefix and base name. */
  function PartName(st: Strategy, keys: seq<Value>): (r: Result<string>)
    ensures r.Ok? <==> BaseName(st, keys).Ok?
    ensures r.Ok? ==> r.value == NamePrefix + BaseName(st, keys).value
  {
    var base :- BaseName(st, keys);
    Ok(NamePrefix + base)
  }

  /** The `table_name` lambda: `<schema_name>.<part_name>`. */
  function PartitionTableName(table: string, st: Strategy, keys: seq<Value>): (r: Result<string>)
    ensures r.Ok? <==> PartName(st, keys).Ok?
    ensures r.Ok? ==> r.value == SchemaName(table) + "." + PartName(st, keys).value
  {
    var part :- PartName(st, keys);
    Ok(SchemaName(table) + "." + part)
  }

  /** The `table_alias_name` lambda: the parent table name with `.` replaced by `_`. */
  function PartitionAliasName(table: string): (r: string)
    ensures |r| == |table|
    ensures '.' !in r
    ensures forall i | 0 <= i < |table| && table[i] != '.' :: r[i] == table[i]
  {
    ReplaceChar(table, '.', '_')
  }

  /** The class-level `table_name(*partition_key_values)`. A plain model
      ignores the key values; a partitioned model answers with its own table
      when no key values are given and with the child table otherwise. */
  function TableName(cls: ModelClass, keys: seq<Value>): (r: Result<string>)
    ensures |keys| == 0 ==> r == Ok(cls.tableName)
    ensures cls.kind.Plain? ==> r == Ok(cls.tableName)
    ensures cls.kind.Partitioned? && 0 < |keys| ==> r == PartitionTableName(cls.tableName, cls.kind.strategy, keys)
  {
    match cls.kind
    case Plain => Ok(cls.tableName)
    case Partitioned(_, st) =>
      if |keys| == 0 then Ok(cls.tableName) else PartitionTableName(cls.tableName, st, keys)
  }

  /** The class-level `table_alias_name(*partition_key_values)`: a plain model
      aliases a table by its name, a partitioned one by the alias lambda. */
  function TableAliasName(cls: ModelClass, keys: seq<Value>): (r: Result<string>)
    ensures r.Ok?
    ensures cls.kind.Plain? ==> r == TableName(cls, keys)
    ensures cls.kind.Partitioned? ==> r.value == PartitionAliasName(cls.tableName)
  {
    match cls.kind
    case Plain => TableName(cls, keys)
    case Partitioned(_, _) => Ok(PartitionAliasName(cls.tableName))
  }

  // ---------------------------------------------------------------------------
  // Properties of the naming rules
  // ---------------------------------------------------------------------------

  /** A table in the default search path: `foos` keeps its partitions in `foos_partitions`. */
  lemma SchemaNameOfUnqualified(t: string)
    requires '.' !in t && 0 < |t|
    ensures SchemaName(t) == t + "_partitions"
    ensures ParentTableSchemaName(t) == DefaultSchema
  {
    SplitWithoutSeparator(t, '.');
    var parts := Split(t, '.');
    assert parts[|parts| - 1] == t;
    var empty: seq<string> := [];
    assert empty + [t, PartitionsSuffix] == [t, PartitionsSuffix];
    assert Join([PartitionsSuffix], '_') == PartitionsSuffix;
    assert Join([t, PartitionsSuffix], '_') == t + "_" + PartitionsSuffix;
  }

  /** A schema-qualified table: `public.foos` gives `foos_partitions`,
      `other.foos` gives `other_foos_partitions`. */
  lemma SchemaNameOfQualified(q: string, t: string)
    requires '.' !in q && '.' !in t && 0 < |t|
    ensures SchemaName(q + "." + t) == if q == DefaultSchema then t + "_partitions" else q + "_" + t + "_partitions"
    ensures ParentTableSchemaName(q + "." + t) == q
  {
    assert q + "." + t == q + ['.'] + t;
    SplitOneSeparator(q, t, '.');
    assert Join([PartitionsSuffix], '_') == PartitionsSuffix;
    assert Join([t, PartitionsSuffix], '_') == t + "_" + PartitionsSuffix;
    if q != DefaultSchema {
      assert [q] + [t, PartitionsSuffix] == [q, t, PartitionsSuffix];
      assert Join([q, t, PartitionsSuffix], '_') == q + "_" + (t + "_" + PartitionsSuffix);
    } else {
      assert [] + [t, PartitionsSuffix] == [t, PartitionsSuffix];
    }
  }

  /** The alias of an unqualified table is the table name itself. */
  lemma AliasOfUnqualified(t: string)
    requires '.' !in t
    ensures PartitionAliasName(t) == t
  {
  }

  /** Under a modulo strategy the child table lives in the partitions schema:
      reading the schema back from the child table name gives `schema_name`. */
  lemma ChildTableSchema(table: string, st: Strategy, key: Value)
    requires st.IsModulo() && st.modulus != 0
    ensures PartitionTableName(table, st, [key]).Ok?
    ensures ParentTableSchemaName(PartitionTableName(table, st, [key]).value) == SchemaName(table)
  {
    var n := Normalize(st, key).value;
    IntToStringHasNoDot(n.i);
    var part := NamePrefix + IntToString(n.i);
    assert '.' !in part;
    SplitOneSeparator(SchemaName(table), part, '.');
    assert SchemaName(table) + "." + part == SchemaName(table) + ['.'] + part;
  }

  /** Two key values name the same child table exactly when they normalize to
      the same identifier (for every strategy whose identifiers are all
      integers or all strings). */
  lemma PartitionTableNameInjective(table: string, st: Strategy, a: Value, b: Value)
    requires !st.Identity?
    requires PartitionTableName(table, st, [a]).Ok? && PartitionTableName(table, st, [b]).Ok?
    ensures PartitionTableName(table, st, [a]) == PartitionTableName(table, st, [b])
      <==> Normalize(st, a) == Normalize(st, b)
  {
    var na, nb := Normalize(st, a).value, Normalize(st, b).value;
    var pre := SchemaName(table) + ".";
    assert PartitionTableName(table, st, [a]).value == pre + (NamePrefix + ToS(na));
    assert PartitionTableName(table, st, [b]).value == pre + (NamePrefix + ToS(nb));
    CancelPrefix(pre, NamePrefix + ToS(na), NamePrefix + ToS(nb));
    CancelPrefix(NamePrefix, ToS(na), ToS(nb));
    if st.IsModulo() {
      IntToStringInjective(na.i, nb.i);
    }
  }

  /** For a model partitioned by modulo, two rows go to the same child table
      exactly when their key values are congruent modulo the modulus. */
  lemma ModuloRoutesCongruentKeysTogether(cls: ModelClass, a: Value, b: Value)
    requires cls.kind.Partitioned? && cls.kind.strategy.Modulo? && cls.kind.strategy.modulus != 0
    ensures TableName(cls, [a]).Ok? && TableName(cls, [b]).Ok?
    ensures TableName(cls, [a]) == TableName(cls, [b])
      <==> (ToI(a) - ToI(b)) % cls.kind.strategy.modulus == 0
  {
    PartitionTableNameInjective(cls.tableName, cls.kind.strategy, a, b);
    ModuloSameBucketIff(cls.kind.strategy, a, b);
  }

  /** The default range of a modulo model creates pairwise distinct child
      tables, and every key value routes to one of them. */
  lemma DefaultRangeCoversEveryKey(cls: ModelClass, v: Value)
    requires cls.kind.Partitioned? && cls.kind.strategy.Modulo? && 0 < cls.kind.strategy.modulus
    ensures var range := PartitionGenerateRange(cls.name, cls.kind.strategy, []);
      && range.Ok?
      && (forall i, j | 0 <= i < j < |range.value| ::
            TableName(cls, [range.value[i]]) != TableName(cls, [range.value[j]]))
      && (exists i | 0 <= i < |range.value| :: TableName(cls, [v]) == TableName(cls, [range.value[i]]))
  {
    var st := cls.kind.strategy;
    DefaultModuloRange(cls.name, st, v);
    var range := PartitionGenerateRange(cls.name, st, []).value;
    forall i, j | 0 <= i < j < |range|
      ensures TableName(cls, [range[i]]) != TableName(cls, [range[j]])
    {
      RangeValueNormalizesToItself(st, i);
      RangeValueNormalizesToItself(st, j);
      PartitionTableNameInjective(cls.tableName, st, range[i], range[j]);
    }
    var k := Normalize(st, v).value.i;
    RangeValueNormalizesToItself(st, k);
    PartitionTableNameInjective(cls.tableName, st, v, range[k]);
  }

  /** A bucket number is its own normalized key. */
  lemma RangeValueNormalizesToItself(st: Strategy, i: int)
    requires st.Modulo? && 0 <= i < st.modulus
    ensures Normalize(st, Int(i)) == Ok(Int(i))
  {
    ModUnique(i, st.modulus, 0, i);
  }

  /** The child table of an unqualified parent: `<table>_partitions.p<identifier>`. */
  lemma ChildTableNameOfUnqualified(cls: ModelClass, key: Value)
    requires cls.kind.Partitioned? && '.' !in cls.tableName && 0 < |cls.tableName|
    requires Normalize(cls.kind.strategy, key).Ok?
    ensures TableName(cls, [key]) == Ok(cls.tableName + "_partitions.p" + ToS(Normalize(cls.kind.strategy, key).value))
  {
    var t := cls.tableName;
    var b := ToS(Normalize(cls.kind.strategy, key).value);
    assert PartitionTableName(t, cls.kind.strategy, [key]) == Ok(SchemaName(t) + "." + (NamePrefix + b));
    assert SchemaName(t) + "." + (NamePrefix + b) == t + "_partitions.p" + b by {
      SchemaNameOfUnqualified(t);
      ChildNameConcat(t, b);
    }
  }

  /** The schema suffix, the dot and the prefix of a child table name read as
      one piece after the parent name; stated apart because the solver
      unfolds concatenation of literals expensively in the lemmas that use it. */
  lemma ChildNameConcat(t: string, b: string)
    ensures t + "_partitions" + "." + (NamePrefix + b) == t + "_partitions.p" + b
  {
  }

  /** The `employees` model of the partitioning examples, keyed by one field. */
  function EmployeeModel(field: string, st: Strategy): (cls: ModelClass)
    ensures cls.tableName == "employees" && cls.kind == Partitioned([SymbolName(field)], st)
  {
    ModelClass("Employee", "employees", Partitioned([SymbolName(field)], st))
  }

  /** The scenario of a two-way modulo model on `employees`: keys 1 and 3 both
      go to `employees_partitions.p1`, and no key means the parent table. */
  lemma ModuloScenario()
    ensures var cls := EmployeeModel("integer_field", Modulo(2, Some("integer_field")));
      && TableName(cls, [Int(1)]) == Ok("employees" + "_partitions.p" + "1")
      && TableName(cls, [Int(3)]) == Ok("employees" + "_partitions.p" + "1")
      && TableName(cls, []) == Ok("employees")
  {
    var st := Modulo(2, Some("integer_field"));
    var cls := EmployeeModel("integer_field", st);
    RangeValueNormalizesToItself(st, 1);
    ModUnique(3, 2, 1, 1);
    assert Normalize(st, Int(3)) == Ok(Int(1));
    ChildTableNameOfUnqualified(cls, Int(1));
    ChildTableNameOfUnqualified(cls, Int(3));
    assert ToS(Int(1)) == "1";
  }

  /** The scenario of a text model: `'A'` goes to `employees_partitions.pa`. */
  lemma TextScenario()
    ensures var cls := EmployeeModel("text_field", Text(Some("text_field"), None));
      TableName(cls, [Str("A")]) == Ok("employees" + "_partitions.p" + "a")
  {
    var st := Text(Some("text_field"), None);
    var cls := EmployeeModel("text_field", st);
    var n := NormalizeText("A");
    assert ToLower('A') == 'a';
    assert n == "a";
    ChildTableNameOfUnqualified(cls, Str("A"));
  }
}
