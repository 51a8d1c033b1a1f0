/** Sequence operations the store is built on: the order-preserving
    sub-sequence relation, removal of one element (an array `splice(i, 1)`)
    and substring search (a string `includes`). */
module Sequences {

  /** `r` is obtained from `s` by deleting zero or more elements, keeping the
      relative order of the rest. */
  predicate IsSubsequence<T(==)>(r: seq<T>, s: seq<T>)
    decreases |s|
  {
    if r == [] then true
    else if s == [] then false
    else (r[0] == s[0] && IsSubsequence(r[1..], s[1..])) || IsSubsequence(r, s[1..])
  }

  /** Every sequence is a sub-sequence of itself. */
  lemma {:induction false} SubsequenceReflexive<T>(s: seq<T>)
    ensures IsSubsequence(s, s)
  {
    if s != [] {
      SubsequenceReflexive(s[1..]);
    }
  }

  /** A non-empty sequence is its first element followed by the rest, also
      when something is appended to it; an empty one is a neutral element. */
  lemma SplitHead<T>(s: seq<T>, t: seq<T>)
    ensures s != [] ==> s == [s[0]] + s[1..] && s + t == [s[0]] + (s[1..] + t)
    ensures t == [] ==> s + t == s
    ensures s == [] ==> s + t == t
  {
  }

  lemma ConcatAssociative<T>(a: seq<T>, b: seq<T>, c: seq<T>)
    ensures a + (b + c) == (a + b) + c
  {
  }

  /** A sequence is its part before `i`, its element at `i` and its part
      after `i`; overwriting position `i` changes neither part. */
  lemma SplitAt<T>(s: seq<T>, i: nat, x: T)
    requires i < |s|
    ensures s == s[..i] + ([s[i]] + s[i + 1..])
    ensures s[i := x] == s[..i] + ([x] + s[i + 1..])
  {
  }

  /** Removing the element at index `i` from `s`, as `s.splice(i, 1)` does:
      the elements before `i` stay where they are and those after it move
      down by one. */
  function RemoveAt<T>(s: seq<T>, i: nat): (r: seq<T>)
    requires i < |s|
    ensures |r| == |s| - 1
    ensures forall j :: 0 <= j < i ==> r[j] == s[j]
    ensures forall j :: i <= j < |r| ==> r[j] == s[j + 1]
  {
    s[..i] + s[i + 1..]
  }

  /** Removing one element keeps the others in their relative order. */
  lemma {:induction false} RemoveAtKeepsOrder<T>(s: seq<T>, i: nat)
    requires i < |s|
    ensures IsSubsequence(RemoveAt(s, i), s)
    decreases i
  {
    var r := RemoveAt(s, i);
    if i == 0 {
      assert r == s[1..];
      SubsequenceReflexive(r);
    } else {
      RemoveAtKeepsOrder(s[1..], i - 1);
      assert r[0] == s[0];
      assert r[1..] == RemoveAt(s[1..], i - 1);
    }
  }

  /** Removing one element loses exactly one occurrence of it and nothing
      else. */
  lemma RemoveAtMultiset<T>(s: seq<T>, i: nat)
    requires i < |s|
    ensures multiset(RemoveAt(s, i)) + multiset{s[i]} == multiset(s)
  {
    assert s == s[..i] + [s[i]] + s[i + 1..];
    assert RemoveAt(s, i) == s[..i] + s[i + 1..];
  }

  /** `sub` occurs in `s` starting at position `k`. */
  predicate OccursAt<T(==)>(s: seq<T>, sub: seq<T>, k: int)
  {
    0 <= k && k + |sub| <= |s| && s[k..k + |sub|] == sub
  }

  /** Naive substring search with the meaning of a string's `includes`: true
      when `sub` occurs somewhere in `s` (so always for an empty `sub`),
      case-sensitive. */
  function Includes<T(==)>(s: seq<T>, sub: seq<T>): (b: bool)
    ensures b <==> exists k :: OccursAt(s, sub, k)
    decreases |s|
  {
    if |sub| > |s| then
      assert forall k :: !OccursAt(s, sub, k);
      false
    else if s[..|sub|] == sub then
      assert OccursAt(s, sub, 0);
      true
    else
      var b := Includes(s[1..], sub);
      assert forall k :: OccursAt(s[1..], sub, k) <==> OccursAt(s, sub, k + 1) by {
        forall k ensures OccursAt(s[1..], sub, k) <==> OccursAt(s, sub, k + 1) {
          if 0 <= k && k + |sub| <= |s| - 1 {
            assert s[1..][k..k + |sub|] == s[k + 1..k + 1 + |sub|];
          }
        }
      }
      assert !OccursAt(s, sub, 0);
      assert forall k :: OccursAt(s, sub, k) ==> OccursAt(s[1..], sub, k - 1);
      b
  }
}
