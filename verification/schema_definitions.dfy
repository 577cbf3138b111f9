/** The patched `TableDefinition#check_constraint`: a CHECK clause appended to
    the column list of a table being created. */
module SchemaDefinitions {
  import opened KeyStrategy
  import opened Ruby

  /** An entry of a table definition's column list: a column, or an object
      whose `to_sql` is fixed SQL. */
  datatype ColumnEntry = Column(name: string, sqlType: string) | RawSql(sql: string)

  datatype TableDefinition = TableDefinition(columns: seq<ColumnEntry>)

  const CheckOpen: string := "CHECK ("
  const CheckClose: string := ")"

  /** `check_constraint(constraint)`: append `CHECK (<constraint>)`. */
  function CheckConstraint(td: TableDefinition, constraint: string): (r: TableDefinition)
    ensures |r.columns| == |td.columns| + 1
    ensures r.columns[..|td.columns|] == td.columns
    ensures r.columns[|td.columns|].RawSql?
    ensures ConstraintOf(r.columns[|td.columns|].sql) == Some(constraint)
  {
    var sql := CheckOpen + constraint + CheckClose;
    ConstraintOfCheck(constraint);
    TableDefinition(td.columns + [RawSql(sql)])
  }

  /** The constraint a `CHECK (...)` clause wraps, if the SQL is one. */
  function ConstraintOf(sql: string): (r: Option<string>)
    ensures r.Some? ==> sql == CheckOpen + r.value + CheckClose
  {
    if |sql| >= |CheckOpen| + |CheckClose| && sql[..|CheckOpen|] == CheckOpen && sql[|sql| - 1..] == CheckClose then
      var c := sql[|CheckOpen|..|sql| - 1];
      assert sql == sql[..|CheckOpen|] + c + sql[|sql| - 1..];
      Some(c)
    else None
  }

  /** The constraint is embedded verbatim: it can be read back unchanged. */
  lemma ConstraintOfCheck(constraint: string)
    ensures ConstraintOf(CheckOpen + constraint + CheckClose) == Some(constraint)
  {
    var sql := CheckOpen + constraint + CheckClose;
    assert sql[..|CheckOpen|] == CheckOpen;
    assert sql[|sql| - 1..] == CheckClose;
    assert sql[|CheckOpen|..|sql| - 1] == constraint;
  }

  /** Two constraints give the same definition exactly when they are equal. */
  lemma CheckConstraintInjective(td: TableDefinition, a: string, b: string)
    ensures CheckConstraint(td, a) == CheckConstraint(td, b) <==> a == b
  {
    var n := |td.columns|;
    if CheckConstraint(td, a) == CheckConstraint(td, b) {
      assert CheckConstraint(td, a).columns[n] == CheckConstraint(td, b).columns[n];
    }
  }

  /** Declaring the modulo CHECK constraint of a partition: the last entry is
      `CHECK ((<field>::integer % <m>) = <bucket>::integer)`, and two
      partitions of one model get different constraints. */
  lemma ModuloPartitionCheck(td: TableDefinition, className: string, st: Strategy, a: Value, b: Value)
    requires st.Modulo? && st.modulus != 0 && st.moduloField.Some?
    ensures KeyStrategy.CheckConstraint(className, st, a).Ok? && KeyStrategy.CheckConstraint(className, st, a).value.Some?
    ensures var c := KeyStrategy.CheckConstraint(className, st, a).value.value;
      CheckConstraint(td, c).columns[|td.columns|]
        == RawSql(CheckOpen + ModuloConstraint(st.moduloField.value, st.modulus, Normalize(st, a).value) + CheckClose)
    ensures KeyStrategy.CheckConstraint(className, st, b).Ok? && KeyStrategy.CheckConstraint(className, st, b).value.Some?
    ensures CheckConstraint(td, KeyStrategy.CheckConstraint(className, st, a).value.value)
        == CheckConstraint(td, KeyStrategy.CheckConstraint(className, st, b).value.value)
      <==> Normalize(st, a) == Normalize(st, b)
  {
    CheckConstraintDistinguishesPartitions(className, st, a, b);
    CheckConstraintInjective(td, KeyStrategy.CheckConstraint(className, st, a).value.value,
      KeyStrategy.CheckConstraint(className, st, b).value.value);
  }
}
