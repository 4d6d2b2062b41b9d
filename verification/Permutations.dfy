/** Index lists that cover 0..n-1 once, and the inverse that `get_reverse_idx` builds. */
module Permutations {
  import opened Sequences

  ghost predicate IsPermutation(idx: seq<nat>) {
    multiset(idx) == multiset(Range(|idx|))
  }

  lemma PermutationShape(idx: seq<nat>)
    requires IsPermutation(idx)
    ensures forall i :: 0 <= i < |idx| ==> idx[i] < |idx|
    ensures forall i, j :: 0 <= i < j < |idx| ==> idx[i] != idx[j]
    ensures forall x :: 0 <= x < |idx| ==> x in idx
  {
    var n := |idx|;
    forall x: nat ensures x in idx <==> x < n {
      assert x in multiset(idx) <==> x in multiset(Range(n));
      if x < n { assert Range(n)[x] == x; }
    }
    forall i | 0 <= i < n ensures idx[i] < n {
      assert idx[i] in idx;
    }
    forall i, j | 0 <= i < j < n ensures idx[i] != idx[j] {
      RangeOnce(n, idx[i]);
      if idx[i] == idx[j] {
        SameTwice(idx, i, j);
      }
    }
  }

  lemma SameTwice(s: seq<nat>, i: nat, j: nat)
    requires i < j < |s| && s[i] == s[j]
    ensures multiset(s)[s[i]] >= 2
  {
    RemoveMultiset(s, i);
    assert Remove(s, i)[j - 1] == s[i];
    assert s[i] in multiset(Remove(s, i));
  }

  lemma {:induction false} RangeOnce(n: nat, x: nat)
    ensures multiset(Range(n))[x] == if x < n then 1 else 0
  {
    if n > 0 {
      RangeOnce(n - 1, x);
      assert Range(n) == Range(n - 1) + [n - 1];
    }
  }

  /** A list of n indices that misses none of 0..n-1 is a permutation. */
  lemma NoneMissing(idx: seq<nat>)
    requires forall x :: 0 <= x < |idx| ==> x in idx
    ensures IsPermutation(idx)
  {
    var all, once := multiset(idx), multiset(Range(|idx|));
    forall x: nat ensures once[x] <= all[x] {
      RangeOnce(|idx|, x);
      if x < |idx| {
        assert x in idx;
      }
    }
    assert |all - once| == 0;
    assert all == once + (all - once);
  }

  lemma SelectAll<T>(rows: seq<T>, idx: seq<nat>)
    requires |idx| == |rows| && IsPermutation(idx)
    ensures InRange(idx, |rows|) && multiset(Select(rows, idx)) == multiset(rows)
  {
    PermutationShape(idx);
    if rows != [] {
      var f := (i: nat) => if i < |rows| then rows[i] else rows[0];
      MapPermutes(idx, Range(|rows|), f);
      assert Map(f, idx) == Select(rows, idx);
      assert Map(f, Range(|rows|)) == rows;
    }
  }

  /** The list after the first n writes. */
  function Reversed(idx: seq<nat>, n: nat): (r: seq<nat>)
    requires n <= |idx| && forall i :: 0 <= i < |idx| ==> idx[i] < |idx|
    ensures |r| == |idx|
  {
    if n == 0 then idx else Reversed(idx, n - 1)[idx[n - 1] := n - 1]
  }

  method GetReverseIdx(idx: seq<nat>) returns (r: seq<nat>)
    requires forall i :: 0 <= i < |idx| ==> idx[i] < |idx|
    ensures r == Reversed(idx, |idx|)
  {
    var reverse := new nat[|idx|](i requires 0 <= i < |idx| => idx[i]);
    assert reverse[..] == idx;
    for i := 0 to |idx|
      invariant reverse[..] == Reversed(idx, i)
    {
      reverse[idx[i]] := i;
    }
    r := reverse[..];
  }

  lemma {:induction false} ReversedSoFar(idx: seq<nat>, n: nat, i: nat)
    requires IsPermutation(idx) && i < n <= |idx|
    ensures forall i :: 0 <= i < |idx| ==> idx[i] < |idx|
    ensures Reversed(idx, n)[idx[i]] == i
  {
    PermutationShape(idx);
    if i < n - 1 {
      ReversedSoFar(idx, n - 1, i);
    }
  }

  /** For a permutation the result is the inverse, from both sides. */
  lemma ReversedInverts(idx: seq<nat>, j: nat)
    requires IsPermutation(idx) && j < |idx|
    ensures forall i :: 0 <= i < |idx| ==> idx[i] < |idx|
    ensures var r := Reversed(idx, |idx|);
      r[j] < |idx| && idx[r[j]] == j && r[idx[j]] == j
  {
    PermutationShape(idx);
    var i := Find(idx, j);
    ReversedSoFar(idx, |idx|, i);
    ReversedSoFar(idx, |idx|, j);
  }
}
