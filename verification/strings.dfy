/** ASCII string helpers with Ruby's semantics: decimal and hexadecimal
    numerals, `String#split` and `Array#join` on one separator character,
    `gsub` of one character, and `downcase`/`upcase` on the ASCII letters. */
module Strings {

  // ---------------------------------------------------------------------------
  // Decimal numerals
  // ---------------------------------------------------------------------------

  predicate IsDigit(c: char) { '0' <= c <= '9' }

  predicate AllDigits(s: string) {
    forall i | 0 <= i < |s| :: IsDigit(s[i])
  }

  function DigitValue(c: char): (d: nat)
    requires IsDigit(c)
    ensures d < 10
  {
    (c as int) - ('0' as int)
  }

  function DigitChar(d: nat): (c: char)
    requires d < 10
    ensures IsDigit(c) && DigitValue(c) == d
  {
    (d + '0' as int) as char
  }

  /** Ruby's `Integer#to_s` on a non-negative integer: digits, most significant first. */
  function NatToString(n: nat): (r: string)
    ensures 1 <= |r| && AllDigits(r)
    decreases n
  {
    if n < 10 then [DigitChar(n)] else NatToString(n / 10) + [DigitChar(n % 10)]
  }

  /** Ruby's `Integer#to_s`: a minus sign before the digits of a negative number. */
  function IntToString(i: int): (r: string)
    ensures 1 <= |r|
    ensures (r[0] == '-') <==> i < 0
  {
    if i < 0 then "-" + NatToString(-i) else NatToString(i)
  }

  /** The number a string of decimal digits denotes. */
  function DigitsValue(s: string): nat
    requires AllDigits(s)
  {
    if |s| == 0 then 0 else DigitsValue(s[..|s| - 1]) * 10 + DigitValue(s[|s| - 1])
  }

  /** Length of the longest prefix of `s` made of decimal digits. */
  function DigitPrefixLength(s: string): (n: nat)
    ensures n <= |s|
    ensures AllDigits(s[..n])
    ensures n < |s| ==> !IsDigit(s[n])
  {
    if |s| == 0 || !IsDigit(s[0]) then 0
    else
      var k := DigitPrefixLength(s[1..]);
      assert s[..1 + k] == [s[0]] + s[1..][..k];
      1 + k
  }

  /** Ruby's `String#to_i` for strings of the shape `[+-]?digits...`: the
      optional sign and the leading digits are read, the rest is ignored, and a
      string without leading digits reads as 0. */
  function LeadingInteger(s: string): int
  {
    if 0 < |s| && (s[0] == '-' || s[0] == '+') then
      var rest := s[1..];
      var v: int := DigitsValue(rest[..DigitPrefixLength(rest)]);
      if s[0] == '-' then -v else v
    else
      DigitsValue(s[..DigitPrefixLength(s)])
  }

  lemma {:induction false} DigitsValueOfNatToString(n: nat)
    ensures DigitsValue(NatToString(n)) == n
    decreases n
  {
    if n >= 10 {
      var s := NatToString(n / 10);
      var r := s + [DigitChar(n % 10)];
      assert r[..|r| - 1] == s;
      DigitsValueOfNatToString(n / 10);
    }
  }

  lemma AllDigitsPrefix(s: string)
    requires AllDigits(s)
    ensures DigitPrefixLength(s) == |s|
  {
  }

  /** `to_i` reads back what `to_s` wrote: decimal rendering of integers is
      invertible. */
  lemma IntToStringRoundTrip(i: int)
    ensures LeadingInteger(IntToString(i)) == i
  {
    if i < 0 {
      var d := NatToString(-i);
      var s := "-" + d;
      assert s[1..] == d;
      AllDigitsPrefix(d);
      assert d[..|d|] == d;
      DigitsValueOfNatToString(-i);
    } else {
      var d := NatToString(i);
      assert IsDigit(d[0]);
      AllDigitsPrefix(d);
      assert d[..|d|] == d;
      DigitsValueOfNatToString(i);
    }
  }

  /** Two integers render to the same decimal string exactly when they are equal. */
  lemma IntToStringInjective(a: int, b: int)
    ensures IntToString(a) == IntToString(b) <==> a == b
  {
    if IntToString(a) == IntToString(b) {
      IntToStringRoundTrip(a);
      IntToStringRoundTrip(b);
    }
  }

  /** A fixed prefix and suffix around two strings: the results agree exactly
      when the middles do. */
  lemma CancelAffixes(p: string, x: string, y: string, s: string)
    ensures p + x + s == p + y + s <==> x == y
  {
    if p + x + s == p + y + s {
      assert |x| == |y|;
      assert x == (p + x + s)[|p|..|p| + |x|];
      assert y == (p + y + s)[|p|..|p| + |y|];
    }
  }

  /** A fixed prefix: the results agree exactly when the rests do. */
  lemma CancelPrefix(p: string, x: string, y: string)
    ensures p + x == p + y <==> x == y
  {
    if p + x == p + y {
      assert x == (p + x)[|p|..];
      assert y == (p + y)[|p|..];
    }
  }

  // ---------------------------------------------------------------------------
  // Hexadecimal numerals
  // ---------------------------------------------------------------------------

  predicate IsLowerHexDigit(c: char) { IsDigit(c) || 'a' <= c <= 'f' }

  predicate AllLowerHex(s: string) {
    forall i | 0 <= i < |s| :: IsLowerHexDigit(s[i])
  }

  function HexDigitValue(c: char): (d: nat)
    requires IsLowerHexDigit(c)
    ensures d < 16
  {
    if IsDigit(c) then DigitValue(c) else (c as int) - ('a' as int) + 10
  }

  /** Ruby's `String#to_i(16)` on a string of lower-case hex digits. */
  function HexValue(s: string): nat
    requires AllLowerHex(s)
  {
    if |s| == 0 then 0 else HexValue(s[..|s| - 1]) * 16 + HexDigitValue(s[|s| - 1])
  }

  function Pow16(n: nat): (p: nat)
    ensures 1 <= p
  {
    if n == 0 then 1 else 16 * Pow16(n - 1)
  }

  /** `n` hex digits denote a number below 16^n. */
  lemma {:induction false} HexValueBound(s: string)
    requires AllLowerHex(s)
    ensures HexValue(s) < Pow16(|s|)
    decreases |s|
  {
    if |s| > 0 {
      var p := s[..|s| - 1];
      HexValueBound(p);
      assert HexValue(p) + 1 <= Pow16(|p|);
      assert HexValue(s) <= HexValue(p) * 16 + 15;
      assert (HexValue(p) + 1) * 16 <= Pow16(|p|) * 16;
    }
  }

  /** ActiveSupport's `String#last(n)`: the last `n` characters, or the whole
      string when it is shorter. */
  function Last(s: string, n: nat): (r: string)
    ensures |r| == if n < |s| then n else |s|
    ensures r == s[|s| - |r|..]
  {
    if n < |s| then s[|s| - n..] else s
  }

  // ---------------------------------------------------------------------------
  // split / join
  // ---------------------------------------------------------------------------

  /** Every field between occurrences of `sep`, empty ones included. */
  function SplitFields(s: string, sep: char): (r: seq<string>)
    ensures 1 <= |r|
    ensures forall i | 0 <= i < |r| :: sep !in r[i]
  {
    if |s| == 0 then [""]
    else
      var rest := SplitFields(s[1..], sep);
      if s[0] == sep then [""] + rest
      else [[s[0]] + rest[0]] + rest[1..]
  }

  /** Ruby's `Array#join(sep)` on strings. */
  function Join(parts: seq<string>, sep: char): string
  {
    if |parts| == 0 then ""
    else if |parts| == 1 then parts[0]
    else parts[0] + [sep] + Join(parts[1..], sep)
  }

  /** Joining the fields back with the separator restores the string. */
  lemma {:induction false} JoinSplitFields(s: string, sep: char)
    ensures Join(SplitFields(s, sep), sep) == s
    decreases |s|
  {
    if |s| > 0 {
      var rest := SplitFields(s[1..], sep);
      JoinSplitFields(s[1..], sep);
      if s[0] == sep {
        assert ([""] + rest)[1..] == rest;
      } else {
        var r := [[s[0]] + rest[0]] + rest[1..];
        if |rest| == 1 {
          assert Join(r, sep) == [s[0]] + rest[0];
        } else {
          assert r[1..] == rest[1..];
          assert Join(rest, sep) == rest[0] + [sep] + Join(rest[1..], sep);
        }
      }
    }
  }

  /** Joining strings that avoid a character, with a different separator, avoids it too. */
  lemma {:induction false} JoinAvoids(parts: seq<string>, sep: char, c: char)
    requires c != sep
    requires forall i | 0 <= i < |parts| :: c !in parts[i]
    ensures c !in Join(parts, sep)
    decreases |parts|
  {
    if |parts| > 1 {
      JoinAvoids(parts[1..], sep, c);
    }
  }

  lemma IntToStringHasNoDot(i: int)
    ensures '.' !in IntToString(i)
  {
    var r := IntToString(i);
    var d := if i < 0 then NatToString(-i) else NatToString(i);
    assert forall k | 0 <= k < |d| :: d[k] != '.';
    if i < 0 {
      assert r == "-" + d;
      assert forall k | 1 <= k < |r| :: r[k] == d[k - 1];
    }
  }

  /** Ruby's `split` drops trailing empty fields. */
  function DropTrailingEmpty(parts: seq<string>): (r: seq<string>)
    ensures |r| <= |parts| && r == parts[..|r|]
    ensures |r| > 0 ==> r[|r| - 1] != ""
    ensures forall i | |r| <= i < |parts| :: parts[i] == ""
  {
    if |parts| == 0 then []
    else if parts[|parts| - 1] == "" then DropTrailingEmpty(parts[..|parts| - 1])
    else parts
  }

  /** Ruby's `String#split(sep)` with a one-character string separator. */
  function Split(s: string, sep: char): (r: seq<string>)
    ensures forall i | 0 <= i < |r| :: sep !in r[i]
  {
    DropTrailingEmpty(SplitFields(s, sep))
  }

  /** A prefix without the separator glues onto the first field. */
  lemma {:induction false} SplitFieldsPrefix(a: string, b: string, sep: char)
    requires sep !in a
    ensures SplitFields(a + b, sep) == [a + SplitFields(b, sep)[0]] + SplitFields(b, sep)[1..]
    decreases |a|
  {
    if |a| > 0 {
      assert (a + b)[0] == a[0];
      assert (a + b)[1..] == a[1..] + b;
      SplitFieldsPrefix(a[1..], b, sep);
      assert [a[0]] + (a[1..] + SplitFields(b, sep)[0]) == a + SplitFields(b, sep)[0];
    } else {
      var f := SplitFields(b, sep);
      assert a + b == b;
      assert a + f[0] == f[0];
      assert f == [f[0]] + f[1..];
    }
  }

  lemma SplitWithoutSeparator(s: string, sep: char)
    requires sep !in s && 0 < |s|
    ensures Split(s, sep) == [s]
  {
    SplitFieldsPrefix(s, "", sep);
    assert s + "" == s;
  }

  lemma SplitOneSeparator(a: string, b: string, sep: char)
    requires sep !in a && sep !in b && 0 < |b|
    ensures Split(a + [sep] + b, sep) == [a, b]
  {
    SplitWithoutSeparator(b, sep);
    SplitFieldsPrefix(b, "", sep);
    assert b + "" == b;
    assert ([sep] + b)[1..] == b;
    assert SplitFields([sep] + b, sep) == [""] + [b];
    SplitFieldsPrefix(a, [sep] + b, sep);
    assert a + [sep] + b == a + ([sep] + b);
    assert a + "" == a;
  }

  // ---------------------------------------------------------------------------
  // gsub of one character, ASCII case mapping
  // ---------------------------------------------------------------------------

  /** Ruby's `gsub(from, to)` for one-character strings. */
  function ReplaceChar(s: string, from: char, to: char): (r: string)
    ensures |r| == |s|
    ensures forall i | 0 <= i < |s| :: r[i] == if s[i] == from then to else s[i]
  {
    if |s| == 0 then ""
    else [if s[0] == from then to else s[0]] + ReplaceChar(s[1..], from, to)
  }

  predicate IsUpper(c: char) { 'A' <= c <= 'Z' }
  predicate IsLower(c: char) { 'a' <= c <= 'z' }

  function ToLower(c: char): char {
    if IsUpper(c) then (c as int + 32) as char else c
  }

  function ToUpper(c: char): char {
    if IsLower(c) then (c as int - 32) as char else c
  }

  /** Ruby's `downcase` on the ASCII letters; every other character is kept. */
  function Downcase(s: string): (r: string)
    ensures |r| == |s|
    ensures forall i | 0 <= i < |s| :: r[i] == ToLower(s[i])
    ensures forall i | 0 <= i < |r| :: !IsUpper(r[i])
  {
    if |s| == 0 then "" else [ToLower(s[0])] + Downcase(s[1..])
  }

  /** Ruby's `upcase` on the ASCII letters; every other character is kept. */
  function Upcase(s: string): (r: string)
    ensures |r| == |s|
    ensures forall i | 0 <= i < |s| :: r[i] == ToUpper(s[i])
    ensures forall i | 0 <= i < |r| :: !IsLower(r[i])
  {
    if |s| == 0 then "" else [ToUpper(s[0])] + Upcase(s[1..])
  }

  /** `upcase` loses nothing on strings that have no upper-case letters. */
  lemma UpcaseInjectiveWithoutUpper(a: string, b: string)
    requires forall i | 0 <= i < |a| :: !IsUpper(a[i])
    requires forall i | 0 <= i < |b| :: !IsUpper(b[i])
    ensures Upcase(a) == Upcase(b) <==> a == b
  {
    if Upcase(a) == Upcase(b) {
      forall i | 0 <= i < |a|
        ensures a[i] == b[i]
      {
        assert ToUpper(a[i]) == ToUpper(b[i]);
      }
    }
  }

  // ---------------------------------------------------------------------------
  // Lexicographic order (Ruby's String#<=>)
  // ---------------------------------------------------------------------------

  /** `a <= b` in Ruby's character-by-character string order. */
  predicate LexLe(a: string, b: string)
  {
    if |a| == 0 then true
    else if |b| == 0 then false
    else if a[0] != b[0] then a[0] < b[0]
    else LexLe(a[1..], b[1..])
  }

  lemma {:induction false} LexLeTotal(a: string, b: string)
    ensures LexLe(a, b) || LexLe(b, a)
    decreases |a|
  {
    if |a| > 0 && |b| > 0 && a[0] == b[0] {
      LexLeTotal(a[1..], b[1..]);
    }
  }

  lemma {:induction false} LexLeTransitive(a: string, b: string, c: string)
    requires LexLe(a, b) && LexLe(b, c)
    ensures LexLe(a, c)
    decreases |a|
  {
    if |a| > 0 && |b| > 0 && |c| > 0 && a[0] == b[0] && b[0] == c[0] {
      LexLeTransitive(a[1..], b[1..], c[1..]);
    }
  }
}
