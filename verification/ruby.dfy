/** The slice of Ruby the partitioning code relies on: the values that flow
    through partition keys and attribute hashes, their `to_s`/`to_i`
    coercions, truthiness, insertion-ordered hashes, and the exceptions the
    core raises, rendered as a failure-compatible `Result`. */
module Ruby {
  import opened Strings

  datatype Option<+T> = None | Some(value: T)

  /** The exceptions the modelled code raises. */
  datatype Error =
    | MethodNotImplemented(message: string)
    | ArgumentError(message: string)
    | ZeroDivisionError

  datatype Result<+T> = Ok(value: T) | Err(error: Error) {
    predicate IsFailure() { Err? }

    function PropagateFailure<U>(): Result<U>
      requires Err?
    {
      Err(error)
    }

    function Extract(): T
      requires Ok?
    {
      value
    }
  }

  /** A Ruby value as it appears in an attribute or a partition key. */
  datatype Value = Nil | Int(i: int) | Str(s: string)

  /** Ruby truthiness: only `nil` (and `false`, which no modelled value is) is falsy. */
  predicate Truthy(v: Value) { !v.Nil? }

  /** `Object#to_s`: `nil` is empty, integers are decimal, strings are themselves. */
  function ToS(v: Value): string
  {
    match v
    case Nil => ""
    case Int(i) => IntToString(i)
    case Str(s) => s
  }

  /** `Object#to_i`: `nil` is 0, integers are themselves, strings are read by `String#to_i`. */
  function ToI(v: Value): int
  {
    match v
    case Nil => 0
    case Int(i) => i
    case Str(s) => LeadingInteger(s)
  }

  /** `to_s` followed by `to_i` gives an integer back unchanged. */
  lemma ToIOfToS(i: int)
    ensures ToI(Str(ToS(Int(i)))) == i
  {
    IntToStringRoundTrip(i);
  }

  /** The message of `Partitioned::MethodNotImplemented.new(model, method, is_class_method)`. */
  function NotImplemented(className: string, methodName: string, isClassMethod: bool): (e: Error)
    ensures e.MethodNotImplemented?
    ensures |e.message| == |className| + 1 + |methodName|
    ensures e.message[..|className|] == className
    ensures e.message[|className|] == (if isClassMethod then '.' else '#')
    ensures e.message[|className| + 1..] == methodName
  {
    MethodNotImplemented(className + [if isClassMethod then '.' else '#'] + methodName)
  }

  /** Ruby 1.9's message for a call with the wrong number of arguments. */
  function WrongArity(given: nat, expected: string): Error
  {
    ArgumentError("wrong number of arguments (" + NatToString(given) + " for " + expected + ")")
  }

  // ---------------------------------------------------------------------------
  // Hashes keyed by attribute name, in insertion order
  // ---------------------------------------------------------------------------

  type Pairs = seq<(string, Value)>

  predicate UniqueKeys(h: Pairs) {
    forall i, j | 0 <= i < j < |h| :: h[i].0 != h[j].0
  }

  predicate HasKey(h: Pairs, k: string) {
    exists i | 0 <= i < |h| :: h[i].0 == k
  }

  /** `h[k]`: the value stored under `k`, or `nil` when there is none. */
  function HashGet(h: Pairs, k: string): (v: Value)
    ensures !HasKey(h, k) ==> v == Nil
    ensures forall i | 0 <= i < |h| && h[i].0 == k && UniqueKeys(h) :: v == h[i].1
  {
    if |h| == 0 then Nil
    else if h[0].0 == k then h[0].1
    else HashGet(h[1..], k)
  }

  lemma HasKeyCons(x: (string, Value), t: Pairs, k: string)
    ensures HasKey([x] + t, k) <==> x.0 == k || HasKey(t, k)
  {
    var h := [x] + t;
    if x.0 == k {
      assert h[0].0 == k;
    }
    if HasKey(h, k) && x.0 != k {
      var i :| 0 <= i < |h| && h[i].0 == k;
      assert t[i - 1] == h[i];
    }
    if HasKey(t, k) {
      var i :| 0 <= i < |t| && t[i].0 == k;
      assert h[i + 1] == t[i];
    }
  }

  /** `h[k] = v`: replaces the value in place when `k` is present, appends otherwise. */
  function HashPut(h: Pairs, k: string, v: Value): (r: Pairs)
    requires UniqueKeys(h)
    ensures UniqueKeys(r)
    ensures HashGet(r, k) == v
    ensures forall k' | k' != k :: HashGet(r, k') == HashGet(h, k')
    ensures forall k' :: HasKey(r, k') <==> HasKey(h, k') || k' == k
    ensures |r| == if HasKey(h, k) then |h| else |h| + 1
    decreases |h|
  {
    if |h| == 0 then [(k, v)]
    else
      assert h == [h[0]] + h[1..];
      assert forall k' :: HasKey(h, k') <==> h[0].0 == k' || HasKey(h[1..], k') by {
        forall k' { HasKeyCons(h[0], h[1..], k'); }
      }
      if h[0].0 == k then
        assert !HasKey(h[1..], k);
        var r := [(k, v)] + h[1..];
        assert forall k' :: HasKey(r, k') <==> k == k' || HasKey(h[1..], k') by {
          forall k' { HasKeyCons((k, v), h[1..], k'); }
        }
        r
      else
        var rest := HashPut(h[1..], k, v);
        var r := [h[0]] + rest;
        assert forall k' :: HasKey(r, k') <==> h[0].0 == k' || HasKey(rest, k') by {
          forall k' { HasKeyCons(h[0], rest, k'); }
        }
        assert !HasKey(rest, h[0].0);
        r
  }
}
