/** The string primitives of Python that the classifier relies on. */
module Strings {

  /** `s.startswith(p)`. */
  predicate StartsWith(s: string, p: string)
  {
    |p| <= |s| && s[..|p|] == p
  }

  /** `s.endswith(x)`. */
  predicate EndsWith(s: string, x: string)
  {
    |x| <= |s| && s[|s| - |x|..] == x
  }

  /** `sub` occurs in `s` starting at position `k`. */
  predicate OccursAt(s: string, sub: string, k: int)
  {
    0 <= k && k + |sub| <= |s| && s[k..k + |sub|] == sub
  }

  /** `s.find(sub)`: the lowest position where `sub` occurs, or -1. */
  function Find(s: string, sub: string): (r: int)
    ensures r == -1 <==> forall j :: 0 <= j ==> !OccursAt(s, sub, j)
    ensures r != -1 ==> OccursAt(s, sub, r) && forall j :: 0 <= j < r ==> !OccursAt(s, sub, j)
  {
    FindFrom(s, sub, 0)
  }

  /** The search behind `Find`, starting at position `k`. */
  function FindFrom(s: string, sub: string, k: nat): (r: int)
    ensures r == -1 <==> forall j :: k <= j ==> !OccursAt(s, sub, j)
    ensures r != -1 ==> k <= r && OccursAt(s, sub, r) && forall j :: k <= j < r ==> !OccursAt(s, sub, j)
    decreases |s| - k
  {
    if k + |sub| > |s| then -1
    else if s[k..k + |sub|] == sub then assert OccursAt(s, sub, k); k
    else FindFrom(s, sub, k + 1)
  }

  /** `find` reports a positive position exactly when `sub` is not at the start but occurs later. */
  lemma FindPositive(s: string, sub: string)
    ensures Find(s, sub) > 0 <==> !StartsWith(s, sub) && exists k :: 1 <= k && OccursAt(s, sub, k)
  {
    assert StartsWith(s, sub) <==> OccursAt(s, sub, 0);
    if Find(s, sub) > 0 {
      assert OccursAt(s, sub, Find(s, sub));
    }
  }

  /** A flag as the 0/1 entry the vector stores. */
  function Bit(b: bool): int
  {
    if b then 1 else 0
  }

  function Zeros(n: nat): seq<int>
  {
    seq(n, _ => 0)
  }

  lemma ZerosConcat(m: nat, n: nat)
    ensures Zeros(m) + Zeros(n) == Zeros(m + n)
  {
    assert forall i :: 0 <= i < m + n ==> (Zeros(m) + Zeros(n))[i] == 0;
  }

  /** Every entry is 0 or 1. */
  predicate Binary(v: seq<int>)
  {
    forall i :: 0 <= i < |v| ==> v[i] == 0 || v[i] == 1
  }

  lemma BinaryConcat(a: seq<int>, b: seq<int>)
    requires Binary(a) && Binary(b)
    ensures Binary(a + b)
  {
  }

  /** The number of 1 entries. */
  function Ones(v: seq<int>): nat
  {
    if v == [] then 0 else Ones(v[..|v| - 1]) + (if v[|v| - 1] == 1 then 1 else 0)
  }
}
