/** The list and map helpers of the program's `util` package that the resolution
    engine calls: membership is Dafny's `in`; the others are defined here. */
module Util {

  /** Index of the first occurrence of `x` in `s`, or -1 (Go's `strings.Index`
      on a one-byte separator, and the same search over lists). */
  function Find<T(==)>(s: seq<T>, x: T): (i: int)
    ensures -1 <= i < |s|
    ensures i == -1 <==> x !in s
    ensures 0 <= i ==> s[i] == x && x !in s[..i]
  {
    if |s| == 0 then -1
    else if s[0] == x then 0
    else
      var j := Find(s[1..], x);
      assert s[1..][..(if j < 0 then 0 else j)] == s[1..1 + (if j < 0 then 0 else j)];
      if j == -1 then -1 else j + 1
  }

  /** The first occurrence is the one with no earlier occurrence. */
  lemma FindFirst<T>(s: seq<T>, x: T, i: nat)
    requires i < |s| && s[i] == x && x !in s[..i]
    ensures Find(s, x) == i
  {
  }

  /** Concatenation regroups. */
  lemma Associative<T>(a: seq<T>, b: seq<T>, c: seq<T>)
    ensures a + b + c == a + (b + c)
  {
  }

  lemma SplitAt<T>(s: seq<T>, i: nat, e: nat)
    requires i <= e <= |s|
    ensures s[i..] == s[i..e] + s[e..]
  {
  }

  /** Index of the first element that satisfies `p`, or -1. */
  function FirstWhere<T>(s: seq<T>, p: T -> bool): (k: int)
    ensures -1 <= k < |s|
    ensures 0 <= k ==> p(s[k])
    ensures forall i :: 0 <= i < |s| && (k < 0 || i < k) ==> !p(s[i])
  {
    if |s| == 0 then -1
    else if p(s[0]) then 0
    else
      var k := FirstWhere(s[1..], p);
      assert forall i :: 1 <= i < |s| ==> s[i] == s[1..][i - 1];
      if k < 0 then -1 else k + 1
  }

  /** `util.Omit(list, x)`: the list without any occurrence of `x`, in order. */
  function Omit(s: seq<string>, x: string): (r: seq<string>)
    ensures x !in r
    ensures forall y :: y in r <==> y in s && y != x
    ensures x !in s ==> r == s
    ensures |r| <= |s|
  {
    if |s| == 0 then []
    else (if s[0] == x then [] else [s[0]]) + Omit(s[1..], x)
  }

  /** `util.AppendMapList(m, key, value)`: `value` appended to the list under
      `key`, the list being created when the key is absent. */
  function AppendMapList(m: map<string, seq<string>>, key: string, value: string): (r: map<string, seq<string>>)
    ensures key in r && r[key] == (if key in m then m[key] else []) + [value]
    ensures forall k :: k != key ==> (k in r <==> k in m) && (k in m ==> r[k] == m[k])
  {
    m[key := (if key in m then m[key] else []) + [value]]
  }

  /** The list stored under `key`, or the empty list (reading an absent key of a
      Go `map[string][]string` yields a nil slice). */
  function ListAt<K, V>(m: map<K, seq<V>>, key: K): seq<V>
  {
    if key in m then m[key] else []
  }

  /** Number of occurrences of `x` in `s`. */
  function Count<T(==)>(s: seq<T>, x: T): nat
  {
    if |s| == 0 then 0 else (if s[0] == x then 1 else 0) + Count(s[1..], x)
  }

  lemma {:induction false} CountAppend<T>(s: seq<T>, t: seq<T>, x: T)
    ensures Count(s + t, x) == Count(s, x) + Count(t, x)
  {
    if |s| == 0 {
      assert s + t == t;
    } else {
      assert (s + t)[1..] == s[1..] + t;
      CountAppend(s[1..], t, x);
    }
  }

  /** `x` occurs in `s` exactly when it is counted there. */
  lemma {:induction false} CountPositive<T>(s: seq<T>, x: T)
    ensures Count(s, x) > 0 <==> x in s
  {
    if |s| > 0 {
      CountPositive(s[1..], x);
      assert x in s <==> s[0] == x || x in s[1..];
    }
  }

  /** `n` copies of `x`. */
  function Repeat<T>(x: T, n: nat): (r: seq<T>)
    ensures |r| == n && forall i :: 0 <= i < n ==> r[i] == x
  {
    if n == 0 then [] else Repeat(x, n - 1) + [x]
  }

  /** No element occurs twice. */
  predicate NoDuplicates<T(==)>(s: seq<T>)
  {
    forall i, j :: 0 <= i < j < |s| ==> s[i] != s[j]
  }

  /** `order` lists every key of `m` exactly once: the visiting order of a Go
      `range` over the map, which the language leaves unspecified. */
  ghost predicate Enumerates<V>(order: seq<string>, m: map<string, V>)
  {
    && (forall k :: k in order <==> k in m)
    && NoDuplicates(order)
  }
}
