/** Character-sequence helpers shared by the widget models: suffix tests,
    splitting at a separator, whitespace, joining and ASCII upper-casing. */
module Strings {

  /** `s.endsWith(suffix)`. */
  predicate EndsWith(s: string, suffix: string) {
    |suffix| <= |s| && s[|s| - |suffix|..] == suffix
  }

  /** The part of `s` before the first `sep` (all of `s` when `sep` does not occur):
      element 0 of splitting `s` at `sep`. */
  function PrefixBefore(s: string, sep: char): (p: string)
    ensures |p| <= |s| && p == s[..|p|]
    ensures sep !in p
    ensures |p| < |s| ==> s[|p|] == sep
    ensures sep !in s ==> p == s
  {
    if s == [] || s[0] == sep then [] else [s[0]] + PrefixBefore(s[1..], sep)
  }

  /** Splitting `s` at every occurrence of `sep`, like `s.split(sep)`. */
  function Split(s: string, sep: char): (parts: seq<string>)
    ensures |parts| >= 1
    ensures forall i :: 0 <= i < |parts| ==> sep !in parts[i]
    decreases |s|
  {
    var p := PrefixBefore(s, sep);
    if |p| == |s| then [s] else [p] + Split(s[|p| + 1..], sep)
  }

  /** A separator that occurs in neither left part splits a concatenation uniquely. */
  lemma SeparatorSplitsUniquely(a: string, b: string, a': string, b': string, sep: char)
    requires sep !in a && sep !in a'
    requires a + [sep] + b == a' + [sep] + b'
    ensures a == a' && b == b'
  {
    var s := a + [sep] + b;
    PrefixOfSeparated(a, b, sep);
    PrefixOfSeparated(a', b', sep);
    assert b == s[|a| + 1..] == b';
  }

  /** Splitting `a + sep + b` at `sep`, where `a` holds no `sep`, yields `a` and then the parts of `b`. */
  lemma SplitAtFirst(a: string, b: string, sep: char)
    requires sep !in a
    ensures Split(a + [sep] + b, sep) == [a] + Split(b, sep)
  {
    var s := a + [sep] + b;
    PrefixOfSeparated(a, b, sep);
    assert s[|a| + 1..] == b;
  }

  /** The text before the first separator of `a + sep + b` is `a`, when `a` holds no separator. */
  lemma {:induction false} PrefixOfSeparated(a: string, b: string, sep: char)
    requires sep !in a
    ensures PrefixBefore(a + [sep] + b, sep) == a
    decreases |a|
  {
    var s := a + [sep] + b;
    if a != [] {
      assert s[0] == a[0];
      assert s[1..] == a[1..] + [sep] + b;
      PrefixOfSeparated(a[1..], b, sep);
      assert [a[0]] + a[1..] == a;
    }
  }

  /** The characters PCRE's `\s` matches: space, tab, line feed, vertical tab,
      form feed and carriage return. */
  predicate IsSpace(c: char) {
    c == ' ' || c == '\t' || c == '\n' || c == '\U{B}' || c == '\U{C}' || c == '\r'
  }

  predicate NoSpace(s: string) {
    forall i :: 0 <= i < |s| ==> !IsSpace(s[i])
  }

  /** `s` with every whitespace character removed. */
  function RemoveSpace(s: string): (r: string)
    ensures NoSpace(r)
    ensures |r| <= |s|
  {
    if s == [] then []
    else if IsSpace(s[0]) then RemoveSpace(s[1..])
    else [s[0]] + RemoveSpace(s[1..])
  }

  /** The concatenation of all `parts`, in order. */
  function Concat(parts: seq<string>): string {
    if parts == [] then [] else parts[0] + Concat(parts[1..])
  }

  /** `parts.join(sep)`. */
  function Join(parts: seq<string>, sep: string): string {
    if parts == [] then []
    else if |parts| == 1 then parts[0]
    else parts[0] + sep + Join(parts[1..], sep)
  }

  predicate IsLowerAscii(c: char) { 'a' <= c <= 'z' }

  /** Upper-case for one character, restricted to the ASCII letters. */
  function UpperChar(c: char): char {
    if IsLowerAscii(c) then (c as int - 32) as char else c
  }

  /** `s.toUpperCase()` over the ASCII letters; every other character is kept. */
  function ToUpper(s: string): (r: string)
    ensures |r| == |s|
    ensures forall i :: 0 <= i < |s| ==> !IsLowerAscii(r[i])
    ensures forall i :: 0 <= i < |s| ==> (IsLowerAscii(s[i]) ==> r[i] as int == s[i] as int - 32)
    ensures forall i :: 0 <= i < |s| ==> (!IsLowerAscii(s[i]) ==> r[i] == s[i])
  {
    seq(|s|, i requires 0 <= i < |s| => UpperChar(s[i]))
  }
}
