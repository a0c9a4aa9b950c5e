/** Byte strings; substring search, for strings of any kind; concatenation. */
module Bytes {

  type byte = n: int | 0 <= n < 256

  predicate OccursAt<T(==)>(s: seq<T>, sub: seq<T>, i: int)
  {
    0 <= i && i + |sub| <= |s| && s[i..i + |sub|] == sub
  }

  ghost predicate Contains<T>(s: seq<T>, sub: seq<T>)
  {
    exists i :: OccursAt(s, sub, i)
  }

  function IndexFrom<T(==)>(s: seq<T>, sub: seq<T>, from: nat): (i: int)
    requires from <= |s|
    ensures -1 <= i
    ensures i == -1 ==> forall j :: from <= j ==> !OccursAt(s, sub, j)
    ensures i >= 0 ==> from <= i && OccursAt(s, sub, i) && forall j :: from <= j < i ==> !OccursAt(s, sub, j)
    decreases |s| - from
  {
    if OccursAt(s, sub, from) then from
    else if from == |s| then -1
    else IndexFrom(s, sub, from + 1)
  }

  /** The first occurrence of `sub` in `s`, or -1. */
  function Index<T(==)>(s: seq<T>, sub: seq<T>): (i: int)
    ensures -1 <= i
    ensures i == -1 <==> !Contains(s, sub)
    ensures i >= 0 ==> OccursAt(s, sub, i) && forall j :: 0 <= j < i ==> !OccursAt(s, sub, j)
  {
    IndexFrom(s, sub, 0)
  }

  lemma SliceOfSlice<T>(s: seq<T>, lo: nat, hi: nat, n: nat)
    requires lo <= hi <= |s| && n <= hi - lo
    ensures s[lo..hi][..n] == s[lo..lo + n]
  {
  }

  lemma Assoc<T>(xs: seq<T>, ys: seq<T>, zs: seq<T>)
    ensures (xs + ys) + zs == xs + (ys + zs)
  {
  }

  function Concat(parts: seq<seq<byte>>): seq<byte>
  {
    if parts == [] then [] else Concat(parts[..|parts| - 1]) + parts[|parts| - 1]
  }

  lemma {:induction false} ConcatAppend(xs: seq<seq<byte>>, ys: seq<seq<byte>>)
    ensures Concat(xs + ys) == Concat(xs) + Concat(ys)
  {
    if ys == [] {
      assert xs + ys == xs;
    } else {
      var init := ys[..|ys| - 1];
      ConcatAppend(xs, init);
      assert (xs + ys)[..|xs + ys| - 1] == xs + init;
    }
  }

  lemma SubsliceContains<T>(s: seq<T>, lo: nat, hi: nat, sub: seq<T>, i: int)
    requires lo <= hi <= |s|
    ensures OccursAt(s[lo..hi], sub, i) <==> i >= 0 && lo + i + |sub| <= hi && OccursAt(s, sub, lo + i)
  {
    if 0 <= i && lo + i + |sub| <= hi {
      var part, whole := s[lo..hi][i..i + |sub|], s[lo + i..lo + i + |sub|];
      assert forall k :: 0 <= k < |sub| ==> part[k] == s[lo..hi][i + k] == s[lo + (i + k)] == whole[k];
      assert part == whole;
    }
  }
}
