/**
 * The array operations the form's bookkeeping uses: `indexOf`,
 * `splice(index, 1)`, and the index of the last occurrence (which decides
 * what a control registered twice ends up with after a reset).
 */
module Sequences {

  /** `Array.prototype.indexOf`: the first index holding `x`, or -1. */
  function IndexOf<T(==)>(s: seq<T>, x: T): (r: int)
    ensures -1 <= r < |s|
    ensures r == -1 <==> x !in s
    ensures 0 <= r ==> s[r] == x && x !in s[..r]
  {
    if s == [] then -1
    else if s[0] == x then 0
    else
      var r := IndexOf(s[1..], x);
      assert r >= 0 ==> s[..r + 1] == [s[0]] + s[1..][..r];
      if r == -1 then -1 else r + 1
  }

  /** The last index below `n` holding `x`, or -1. */
  function LastIndexBefore<T(==)>(s: seq<T>, n: nat, x: T): (r: int)
    requires n <= |s|
    ensures -1 <= r < n
    ensures 0 <= r ==> s[r] == x
    ensures forall j :: 0 <= j < n && s[j] == x ==> j <= r
  {
    if n == 0 then -1
    else if s[n - 1] == x then n - 1
    else LastIndexBefore(s, n - 1, x)
  }

  /** `splice(i, 1)`: the sequence without its element at `i`. */
  function RemoveAt<T>(s: seq<T>, i: nat): (r: seq<T>)
    requires i < |s|
    ensures |r| == |s| - 1
    ensures forall j :: 0 <= j < i ==> r[j] == s[j]
    ensures forall j :: i <= j < |r| ==> r[j] == s[j + 1]
  {
    s[..i] + s[i + 1..]
  }

  /** The two parallel sequences, paired up index by index. */
  function Zip<A, B>(a: seq<A>, b: seq<B>): (r: seq<(A, B)>)
    requires |a| == |b|
    ensures |r| == |a|
    ensures forall i :: 0 <= i < |a| ==> r[i].0 == a[i] && r[i].1 == b[i]
  {
    if a == [] then [] else [(a[0], b[0])] + Zip(a[1..], b[1..])
  }

  predicate Distinct<T(==)>(s: seq<T>) {
    forall i, j :: 0 <= i < j < |s| ==> s[i] != s[j]
  }

  /** Removing one index from both parallel sequences keeps every other pair intact. */
  lemma RemoveAtZip<A, B>(a: seq<A>, b: seq<B>, i: nat)
    requires |a| == |b| && i < |a|
    ensures Zip(RemoveAt(a, i), RemoveAt(b, i)) == RemoveAt(Zip(a, b), i)
  {
  }

  /** Appending to both parallel sequences appends one pair. */
  lemma AppendZip<A, B>(a: seq<A>, b: seq<B>, x: A, y: B)
    requires |a| == |b|
    ensures Zip(a + [x], b + [y]) == Zip(a, b) + [(x, y)]
  {
  }

  /** In a sequence without repetitions, the last occurrence of `s[i]` is `i`. */
  lemma LastIndexOfDistinct<T>(s: seq<T>, i: nat)
    requires Distinct(s) && i < |s|
    ensures LastIndexBefore(s, |s|, s[i]) == i
  {
  }
}
