/** Partition-key strategies: how a raw key value is reduced to the
    identifier of its partition, which key values a partitioned model
    enumerates by default, and the CHECK constraint text each child table
    carries. One constructor per strategy class of the library:
    `PartitionedBase` (identity), `ByModuloField`, `ByModuloHashedField`
    and `ByTextField`. */
module KeyStrategy {
  import opened Strings
  import opened Ruby

  /** `ByModuloField.partition_modulus` unless a model overrides it. */
  const DefaultModulus: int := 96

  /** How many trailing hex characters of the digest the hashed strategy decodes. */
  const HashSuffixLength: nat := 8

  /** What `Digest::MD5.hexdigest` returns: 32 lower-case hex characters. */
  type HexDigest = s: string | |s| == 32 && AllLowerHex(s)
    witness "00000000000000000000000000000000"

  /** The key strategy of a partitioned model with its per-model settings.
      `moduloField`/`textField` is `None` when the model does not override the
      abstract `partition_modulo_field`/`partition_text_field`, and
      `textValues` is `None` when it does not override `normalized_text_values`. */
  datatype Strategy =
    | Identity
    | Modulo(modulus: int, moduloField: Option<string>)
    | HashedModulo(modulus: int, moduloField: Option<string>, digest: string -> HexDigest)
    | Text(textField: Option<string>, textValues: Option<seq<string>>)
  {
    predicate IsModulo() { Modulo? || HashedModulo? }
  }

  /** A `ByModuloField` model that keeps the default modulus. */
  function ByModuloField(field: Option<string>): Strategy
  {
    Modulo(DefaultModulus, field)
  }

  // ---------------------------------------------------------------------------
  // Ruby's floored `%`
  // ---------------------------------------------------------------------------

  function Abs(x: int): nat { if x < 0 then -x else x }

  lemma MulAtLeast(k: int, b: int)
    requires k != 0 && b != 0
    ensures Abs(k * b) >= Abs(b)
  {
    assert Abs(k * b) == Abs(k) * Abs(b) by {
      if k < 0 && b < 0 {
        assert k * b == (-k) * (-b);
      } else if k < 0 {
        assert k * b == -((-k) * b);
      } else if b < 0 {
        assert k * b == -(k * (-b));
      }
    }
    MulMonotone(1, Abs(k), Abs(b));
  }

  /** Dafny's remainder is the unique `r` in `[0, |b|)` with `x - r` a multiple of `b`. */
  lemma ModUnique(x: int, b: int, q: int, r: int)
    requires b != 0 && 0 <= r < Abs(b) && x == q * b + r
    ensures x % b == r
  {
    var q0, r0 := x / b, x % b;
    assert x == q0 * b + r0;
    assert (q - q0) * b == r0 - r;
    if q != q0 {
      MulAtLeast(q - q0, b);
    }
  }

  /** Ruby's `a % b`: the remainder takes the sign of the divisor. */
  function FlooredMod(a: int, b: int): (r: int)
    requires b != 0
    ensures 0 < b ==> 0 <= r < b
    ensures b < 0 ==> b < r <= 0
    ensures (a - r) % b == 0
  {
    var e := a % b;
    assert a == (a / b) * b + e;
    if b < 0 && e != 0 then
      ModUnique(a - (e + b), b, a / b - 1, 0);
      e + b
    else
      ModUnique(a - e, b, a / b, 0);
      e
  }

  /** Two integers share a floored remainder exactly when their difference is
      a multiple of the divisor. */
  lemma FlooredModSameIff(a: int, c: int, m: int)
    requires m != 0
    ensures FlooredMod(a, m) == FlooredMod(c, m) <==> (a - c) % m == 0
  {
    var qa, ea := a / m, a % m;
    var qc, ec := c / m, c % m;
    assert a == qa * m + ea && c == qc * m + ec;
    if ea == ec {
      assert a - c == (qa - qc) * m + 0;
      ModUnique(a - c, m, qa - qc, 0);
    }
    if (a - c) % m == 0 {
      var k := (a - c) / m;
      assert a - c == k * m;
      assert a == (qc + k) * m + ec;
      ModUnique(a, m, qc + k, ec);
    }
  }

  lemma FlooredModIdempotent(a: int, m: int)
    requires m != 0
    ensures FlooredMod(FlooredMod(a, m), m) == FlooredMod(a, m)
  {
    var r := FlooredMod(a, m);
    if m > 0 {
      ModUnique(r, m, 0, r);
    } else if r != 0 {
      ModUnique(r, m, 1, r - m);
    }
  }

  // ---------------------------------------------------------------------------
  // partition_normalize_key_value
  // ---------------------------------------------------------------------------

  /** `Digest::MD5.hexdigest(v.to_s).last(8).to_i(16)`. */
  function HashedValue(digest: string -> HexDigest, v: Value): (n: nat)
    ensures n < Pow16(HashSuffixLength)
  {
    var suffix := Last(digest(ToS(v)), HashSuffixLength);
    HexValueBound(suffix);
    HexValue(suffix)
  }

  /** `v.to_s.gsub(' ', '_').downcase`. */
  function NormalizeText(s: string): (r: string)
    ensures |r| == |s|
    ensures forall i | 0 <= i < |s| :: r[i] == if s[i] == ' ' then '_' else ToLower(s[i])
    ensures ' ' !in r
    ensures forall i | 0 <= i < |r| :: !IsUpper(r[i])
  {
    var r := Downcase(ReplaceChar(s, ' ', '_'));
    assert forall i | 0 <= i < |r| :: r[i] != ' ';
    r
  }

  /** `partition_normalize_key_value(v)`: the identifier of the partition that
      holds key value `v`. A zero modulus raises `ZeroDivisionError`. */
  function Normalize(st: Strategy, v: Value): (r: Result<Value>)
    ensures r.Err? <==> st.IsModulo() && st.modulus == 0
    ensures r.Err? ==> r.error == ZeroDivisionError
    ensures st.Identity? ==> r == Ok(v)
    ensures r.Ok? && st.IsModulo() ==> r.value.Int?
    ensures r.Ok? && st.IsModulo() && 0 < st.modulus ==> 0 <= r.value.i < st.modulus
    ensures r.Ok? && st.IsModulo() && st.modulus < 0 ==> st.modulus < r.value.i <= 0
    ensures st.Modulo? && r.Ok? ==> (ToI(v) - r.value.i) % st.modulus == 0
    ensures st.HashedModulo? && r.Ok? ==> (HashedValue(st.digest, v) - r.value.i) % st.modulus == 0
    ensures st.Text? ==> r == Ok(Str(NormalizeText(ToS(v))))
    ensures st.Text? ==> r.Ok? && r.value.Str? && ' ' !in r.value.s
    ensures st.Text? ==> forall i | 0 <= i < |r.value.s| :: !IsUpper(r.value.s[i])
  {
    match st
    case Identity => Ok(v)
    case Modulo(m, _) =>
      if m == 0 then Err(ZeroDivisionError) else Ok(Int(FlooredMod(ToI(v), m)))
    case HashedModulo(m, _, digest) =>
      if m == 0 then Err(ZeroDivisionError) else Ok(Int(FlooredMod(HashedValue(digest, v), m)))
    case Text(_, _) => Ok(Str(NormalizeText(ToS(v))))
  }

  /** Normalizing a normalized value changes nothing, for every strategy
      except the hashed one (which re-hashes). */
  lemma NormalizeIdempotent(st: Strategy, v: Value)
    requires !st.HashedModulo?
    requires Normalize(st, v).Ok?
    ensures Normalize(st, Normalize(st, v).value) == Normalize(st, v)
  {
    match st
    case Identity =>
    case Modulo(m, _) =>
      FlooredModIdempotent(ToI(v), m);
    case Text(_, _) =>
      var n := Normalize(st, v).value.s;
      var n2 := NormalizeText(n);
      assert forall i | 0 <= i < |n| :: n2[i] == n[i];
      assert n2 == n;
  }

  /** Under the modulo strategy two key values share a partition exactly when
      their integer values are congruent modulo the modulus. */
  lemma ModuloSameBucketIff(st: Strategy, a: Value, b: Value)
    requires st.Modulo? && st.modulus != 0
    ensures Normalize(st, a) == Normalize(st, b) <==> (ToI(a) - ToI(b)) % st.modulus == 0
  {
    FlooredModSameIff(ToI(a), ToI(b), st.modulus);
  }

  /** `v` and `v + j * modulus` land in the same partition. */
  lemma ModuloShift(st: Strategy, v: int, j: int)
    requires st.Modulo? && st.modulus != 0
    ensures Normalize(st, Int(v + j * st.modulus)) == Normalize(st, Int(v))
  {
    ModUnique(j * st.modulus, st.modulus, j, 0);
    assert (v + j * st.modulus) - v == j * st.modulus;
    ModuloSameBucketIff(st, Int(v + j * st.modulus), Int(v));
  }

  /** Under the hashed strategy two key values share a partition exactly when
      the decoded suffixes of their digests are congruent modulo the modulus. */
  lemma HashedSameBucketIff(st: Strategy, a: Value, b: Value)
    requires st.HashedModulo? && st.modulus != 0
    ensures Normalize(st, a) == Normalize(st, b)
      <==> (HashedValue(st.digest, a) - HashedValue(st.digest, b)) % st.modulus == 0
  {
    HashedBucket(st, a);
    HashedBucket(st, b);
    FlooredModSameIff(HashedValue(st.digest, a), HashedValue(st.digest, b), st.modulus);
  }

  lemma HashedBucket(st: Strategy, v: Value)
    requires st.HashedModulo? && st.modulus != 0
    ensures Normalize(st, v) == Ok(Int(FlooredMod(HashedValue(st.digest, v), st.modulus)))
  {
  }

  /** The hashed strategy only looks at the last eight hex characters of the digest. */
  lemma HashedSameSuffix(st: Strategy, a: Value, b: Value)
    requires st.HashedModulo?
    requires Last(st.digest(ToS(a)), HashSuffixLength) == Last(st.digest(ToS(b)), HashSuffixLength)
    ensures Normalize(st, a) == Normalize(st, b)
  {
  }

  // ---------------------------------------------------------------------------
  // partition_generate_range
  // ---------------------------------------------------------------------------

  /** The values `first, first + step, ...` that do not exceed `last`. */
  function Steps(first: int, last: int, step: int): seq<int>
    requires 0 < step
    decreases if first <= last then last - first + 1 else 0
  {
    if first > last then [] else [first] + Steps(first + step, last, step)
  }

  lemma MulMonotone(i: int, j: int, step: int)
    requires 0 <= i <= j && 0 < step
    ensures i * step <= j * step
  {
    assert j * step == i * step + (j - i) * step;
  }

  lemma {:induction false} StepsShape(first: int, last: int, step: int)
    requires 0 < step
    ensures var r := Steps(first, last, step);
      && (forall i | 0 <= i < |r| :: r[i] == first + i * step && r[i] <= last)
      && last < first + |r| * step
    decreases if first <= last then last - first + 1 else 0
  {
    if first <= last {
      var r := Steps(first, last, step);
      var t := Steps(first + step, last, step);
      StepsShape(first + step, last, step);
      assert r == [first] + t;
      forall i | 0 < i < |r|
        ensures r[i] == first + i * step && r[i] <= last
      {
        assert r[i] == t[i - 1];
        assert (i - 1) * step + step == i * step;
      }
      assert |r| == |t| + 1;
      assert (|t| + 1) * step == |t| * step + step;
    }
  }

  lemma StepsIncreasing(first: int, last: int, step: int)
    requires 0 < step
    ensures forall i | 0 <= i < |Steps(first, last, step)| :: first <= Steps(first, last, step)[i] <= last
    ensures forall i, j | 0 <= i < j < |Steps(first, last, step)| :: Steps(first, last, step)[i] < Steps(first, last, step)[j]
  {
    var s := Steps(first, last, step);
    StepsShape(first, last, step);
    forall i, j | 0 <= i < j < |s| ensures s[i] < s[j] {
      assert s[i] == first + i * step && s[j] == first + j * step;
      MulMonotone(i + 1, j, step);
      assert (i + 1) * step == i * step + step;
    }
    forall i | 0 <= i < |s| ensures first <= s[i] {
      assert s[i] == first + i * step;
      MulMonotone(0, i, step);
    }
  }

  lemma StepsMembers(first: int, last: int, step: int, x: int)
    requires 0 < step
    ensures x in Steps(first, last, step) <==> first <= x <= last && (x - first) % step == 0
  {
    var s := Steps(first, last, step);
    StepsShape(first, last, step);
    StepsIncreasing(first, last, step);
    if x in s {
      var i :| 0 <= i < |s| && s[i] == x;
      ModUnique(x - first, step, i, 0);
    }
    if first <= x <= last && (x - first) % step == 0 {
      var k := (x - first) / step;
      assert x - first == k * step;
      if k < 0 {
        MulAtLeast(k, step);
      }
      if k >= |s| {
        MulMonotone(|s|, k, step);
      }
      assert s[k] == x;
    }
  }

  lemma StepsMembership(first: int, last: int, step: int)
    requires 0 < step
    ensures forall x :: x in Steps(first, last, step) <==> first <= x <= last && (x - first) % step == 0
  {
    forall x
      ensures x in Steps(first, last, step) <==> first <= x <= last && (x - first) % step == 0
    {
      StepsMembers(first, last, step, x);
    }
  }

  /** Ruby's `Range.new(first, last).step(step)` over integers. A zero or
      negative step is an `ArgumentError`. */
  function StepRange(first: int, last: int, step: int): (r: Result<seq<int>>)
    ensures r.Ok? <==> 0 < step
    ensures r.Ok? ==> forall i | 0 <= i < |r.value| :: first <= r.value[i] <= last
    ensures r.Ok? ==> forall i, j | 0 <= i < j < |r.value| :: r.value[i] < r.value[j]
    ensures r.Ok? ==> forall x :: x in r.value <==> first <= x <= last && (x - first) % step == 0
  {
    if step == 0 then Err(ArgumentError("step can't be 0"))
    else if step < 0 then Err(ArgumentError("step can't be negative"))
    else
      StepsIncreasing(first, last, step);
      StepsMembership(first, last, step);
      Ok(Steps(first, last, step))
  }

  function IntValues(xs: seq<int>): (r: seq<Value>)
    ensures |r| == |xs| && forall i | 0 <= i < |xs| :: r[i] == Int(xs[i])
  {
    seq(|xs|, i requires 0 <= i < |xs| => Int(xs[i]))
  }

  function StringValues(xs: seq<string>): (r: seq<Value>)
    ensures |r| == |xs| && forall i | 0 <= i < |xs| :: r[i] == Str(xs[i])
  {
    seq(|xs|, i requires 0 <= i < |xs| => Str(xs[i]))
  }

  function IntRange(r: Result<seq<int>>): Result<seq<Value>>
  {
    var xs :- r;
    Ok(IntValues(xs))
  }

  /** `normalized_text_values`: the abstract default raises, naming
      `partition_text_field` rather than itself. */
  function NormalizedTextValues(className: string, st: Strategy): (r: Result<seq<string>>)
    requires st.Text?
    ensures r.Err? <==> st.textValues.None?
    ensures r.Err? ==> r.error == MethodNotImplemented(className + "." + "partition_text_field")
    ensures r.Ok? ==> r.value == st.textValues.value
  {
    assert NotImplemented(className, "partition_text_field", true)
      == MethodNotImplemented(className + "." + "partition_text_field");
    match st.textValues
    case None => Err(NotImplemented(className, "partition_text_field", true))
    case Some(values) => Ok(values)
  }

  /** `partition_generate_range(*args)`: the key values a model enumerates to
      create its partitions. The base class needs a start and an end, the
      modulo strategies default to `0, modulus - 1, 1`, and the text strategy
      takes no arguments and returns `normalized_text_values`. */
  function PartitionGenerateRange(className: string, st: Strategy, args: seq<int>): (r: Result<seq<Value>>)
    ensures st.Text? && |args| == 0 ==>
      r.Ok? == st.textValues.Some? && (r.Ok? ==> r.value == StringValues(st.textValues.value))
  {
    match st
    case Identity =>
      if |args| == 2 then IntRange(StepRange(args[0], args[1], 1))
      else if |args| == 3 then IntRange(StepRange(args[0], args[1], args[2]))
      else Err(WrongArity(|args|, "2..3"))
    case Text(_, _) =>
      if |args| != 0 then Err(WrongArity(|args|, "0"))
      else
        var values :- NormalizedTextValues(className, st);
        Ok(StringValues(values))
    case _ =>
      if 3 < |args| then Err(WrongArity(|args|, "0..3"))
      else
        var first := if 0 < |args| then args[0] else 0;
        var last := if 1 < |args| then args[1] else st.modulus - 1;
        var step := if 2 < |args| then args[2] else 1;
        IntRange(StepRange(first, last, step))
  }

  /** Given a start, an end and a step, the base and modulo strategies
      enumerate `Range.new(first, last).step(step)`: in increasing order, the
      integers from `first` to `last` that are `first` plus a multiple of the
      step; a step of 0 or less raises `ArgumentError`. Without a step the
      step is 1. */
  lemma ExplicitRange(className: string, st: Strategy, first: int, last: int, step: int)
    requires !st.Text?
    ensures var r := PartitionGenerateRange(className, st, [first, last, step]);
      && (r.Ok? <==> 0 < step)
      && (r.Err? ==> r.error.ArgumentError?)
      && (r.Ok? ==> forall i | 0 <= i < |r.value| :: r.value[i].Int? && first <= r.value[i].i <= last)
      && (r.Ok? ==> forall i, j | 0 <= i < j < |r.value| :: r.value[i].i < r.value[j].i)
      && (r.Ok? ==> forall x :: Int(x) in r.value <==> first <= x <= last && (x - first) % step == 0)
    ensures PartitionGenerateRange(className, st, [first, last])
      == PartitionGenerateRange(className, st, [first, last, 1])
  {
    var sr := StepRange(first, last, step);
    assert PartitionGenerateRange(className, st, [first, last, step]) == IntRange(sr);
    assert PartitionGenerateRange(className, st, [first, last]) == IntRange(StepRange(first, last, 1));
    if 0 < step {
      IntValuesMembers(sr.value);
    }
  }

  lemma IntValuesMembers(xs: seq<int>)
    ensures forall x :: Int(x) in IntValues(xs) <==> x in xs
  {
    var vs := IntValues(xs);
    forall x ensures Int(x) in vs <==> x in xs {
      if Int(x) in vs {
        var i :| 0 <= i < |vs| && vs[i] == Int(x);
        assert xs[i] == x;
      }
      if x in xs {
        var i :| 0 <= i < |xs| && xs[i] == x;
        assert vs[i] == Int(x);
      }
    }
  }

  /** The default range of a modulo strategy is `0 .. modulus - 1`: every
      partition identifier the strategy can produce occurs in it exactly once. */
  lemma DefaultModuloRange(className: string, st: Strategy, v: Value)
    requires st.IsModulo() && 0 < st.modulus
    ensures var r := PartitionGenerateRange(className, st, []);
      && r.Ok?
      && |r.value| == st.modulus
      && (forall i | 0 <= i < |r.value| :: r.value[i] == Int(i))
      && Normalize(st, v).value in r.value
      && (forall i, j | 0 <= i < j < |r.value| :: r.value[i] != r.value[j])
  {
    var m := st.modulus;
    var s := Steps(0, m - 1, 1);
    assert StepRange(0, m - 1, 1) == Ok(s);
    assert PartitionGenerateRange(className, st, []) == Ok(IntValues(s));
    StepsShape(0, m - 1, 1);
    assert forall i | 0 <= i < |s| :: s[i] == i;
    assert |s| == m by {
      if 0 < |s| {
        assert s[|s| - 1] == |s| - 1 <= m - 1;
      }
    }
    var r := IntValues(s);
    var n := Normalize(st, v).value.i;
    assert r[n] == Int(n);
  }

  /** A `ByModuloField` model that keeps the default modulus spreads its keys
      over 96 partitions, `p0` to `p95`, all of which its default range creates. */
  lemma ByModuloFieldDefaults(className: string, field: Option<string>, v: Value)
    ensures ByModuloField(field).modulus == 96
    ensures Normalize(ByModuloField(field), v).Ok?
    ensures 0 <= Normalize(ByModuloField(field), v).value.i < 96
    ensures var r := PartitionGenerateRange(className, ByModuloField(field), []);
      r.Ok? && |r.value| == 96 && Normalize(ByModuloField(field), v).value in r.value
  {
    DefaultModuloRange(className, ByModuloField(field), v);
  }

  // ---------------------------------------------------------------------------
  // The abstract field accessors and the CHECK constraints
  // ---------------------------------------------------------------------------

  /** `partition_modulo_field`; the abstract default raises `MethodNotImplemented`. */
  function PartitionModuloField(className: string, st: Strategy): (r: Result<string>)
    requires st.IsModulo()
    ensures r.Err? <==> st.moduloField.None?
    ensures r.Err? ==> r.error == MethodNotImplemented(className + "." + "partition_modulo_field")
    ensures r.Ok? ==> r.value == st.moduloField.value
  {
    assert NotImplemented(className, "partition_modulo_field", true)
      == MethodNotImplemented(className + "." + "partition_modulo_field");
    match st.moduloField
    case None => Err(NotImplemented(className, "partition_modulo_field", true))
    case Some(f) => Ok(f)
  }

  /** `partition_text_field`; the abstract default raises `MethodNotImplemented`. */
  function PartitionTextField(className: string, st: Strategy): (r: Result<string>)
    requires st.Text?
    ensures r.Err? <==> st.textField.None?
    ensures r.Err? ==> r.error == MethodNotImplemented(className + "." + "partition_text_field")
    ensures r.Ok? ==> r.value == st.textField.value
  {
    assert NotImplemented(className, "partition_text_field", true)
      == MethodNotImplemented(className + "." + "partition_text_field");
    match st.textField
    case None => Err(NotImplemented(className, "partition_text_field", true))
    case Some(f) => Ok(f)
  }

  function ModuloConstraint(field: string, modulus: int, bucket: Value): string
  {
    "(" + field + "::integer % " + IntToString(modulus) + ") = " + ToS(bucket) + "::integer"
  }

  function TextConstraint(field: string, bucket: string): string
  {
    field + "::text = '" + Upcase(bucket) + "'::text"
  }

  /** The `check_constraint` lambda for the child table that holds key `id`.
      The modulo strategies (the hashed one inherits the lambda) compare the
      field modulo the modulus with the normalized key; the text strategy
      compares the field with the upper-cased normalized key, interpolated
      without quoting. The base class configures no constraint. */
  function CheckConstraint(className: string, st: Strategy, id: Value): (r: Result<Option<string>>)
    ensures st.Identity? ==> r == Ok(None)
    ensures r.Ok? && !st.Identity? ==> r.value.Some?
    ensures st.IsModulo() && st.modulus != 0 && st.moduloField.Some? ==>
      r == Ok(Some(ModuloConstraint(st.moduloField.value, st.modulus, Normalize(st, id).value)))
    ensures st.IsModulo() && st.modulus != 0 && st.moduloField.None? ==>
      r == Err(NotImplemented(className, "partition_modulo_field", true))
    ensures st.Text? && st.textField.Some? ==>
      r == Ok(Some(TextConstraint(st.textField.value, Normalize(st, id).value.s)))
    ensures st.Text? && st.textField.None? ==>
      r == Err(NotImplemented(className, "partition_text_field", true))
  {
    match st
    case Identity => Ok(None)
    case Text(_, _) =>
      var bucket := Normalize(st, id).value;
      var field :- PartitionTextField(className, st);
      Ok(Some(TextConstraint(field, bucket.s)))
    case _ =>
      var bucket :- Normalize(st, id);
      var field :- PartitionModuloField(className, st);
      Ok(Some(ModuloConstraint(field, st.modulus, bucket)))
  }

  /** Distinct partitions get distinct constraints: two keys receive the same
      CHECK constraint exactly when they normalize to the same identifier. */
  lemma CheckConstraintDistinguishesPartitions(className: string, st: Strategy, a: Value, b: Value)
    requires CheckConstraint(className, st, a).Ok? && CheckConstraint(className, st, b).Ok?
    requires !st.Identity?
    ensures CheckConstraint(className, st, a) == CheckConstraint(className, st, b)
      <==> Normalize(st, a) == Normalize(st, b)
  {
    if st.Text? {
      TextConstraintDistinguishes(className, st, a, b);
    } else {
      ModuloConstraintDistinguishes(className, st, a, b);
    }
  }

  lemma TextConstraintDistinguishes(className: string, st: Strategy, a: Value, b: Value)
    requires st.Text? && st.textField.Some?
    ensures CheckConstraint(className, st, a) == CheckConstraint(className, st, b)
      <==> Normalize(st, a) == Normalize(st, b)
  {
    var na, nb := Normalize(st, a).value.s, Normalize(st, b).value.s;
    var f := st.textField.value;
    CancelAffixes(f + "::text = '", Upcase(na), Upcase(nb), "'::text");
    UpcaseInjectiveWithoutUpper(na, nb);
  }

  lemma ModuloConstraintDistinguishes(className: string, st: Strategy, a: Value, b: Value)
    requires st.IsModulo() && st.modulus != 0 && st.moduloField.Some?
    ensures CheckConstraint(className, st, a) == CheckConstraint(className, st, b)
      <==> Normalize(st, a) == Normalize(st, b)
  {
    var na, nb := Normalize(st, a).value, Normalize(st, b).value;
    var f := st.moduloField.value;
    CancelAffixes("(" + f + "::integer % " + IntToString(st.modulus) + ") = ", ToS(na), ToS(nb), "::integer");
    IntToStringInjective(na.i, nb.i);
  }
}
