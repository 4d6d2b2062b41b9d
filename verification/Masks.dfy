/** Boolean masks: how many positions are set, and which. */
module Masks {
  import opened Sequences

  function Count(mask: seq<bool>): nat {
    if mask == [] then 0 else Count(mask[..|mask| - 1]) + (if mask[|mask| - 1] then 1 else 0)
  }

  /** `torch.nonzero` of a flat mask. */
  function Nonzero(mask: seq<bool>): (r: seq<nat>)
    ensures |r| == Count(mask)
    ensures forall i :: 0 <= i < |r| ==> r[i] < |mask| && mask[r[i]]
    ensures forall i, j :: 0 <= i < j < |r| ==> r[i] < r[j]
  {
    if mask == [] then [] else Nonzero(mask[..|mask| - 1]) + (if mask[|mask| - 1] then [|mask| - 1] else [])
  }

  lemma {:induction false} CountConcat(a: seq<bool>, b: seq<bool>)
    ensures Count(a + b) == Count(a) + Count(b)
  {
    if b == [] {
      assert a + b == a;
    } else {
      CountConcat(a, b[..|b| - 1]);
      assert (a + b)[..|a + b| - 1] == a + b[..|b| - 1];
    }
  }

  lemma CountSplit(mask: seq<bool>, p: nat, q: nat)
    requires p <= q <= |mask|
    ensures Count(mask[..q]) == Count(mask[..p]) + Count(mask[p..q])
  {
    CountConcat(mask[..p], mask[p..q]);
    assert mask[..q] == mask[..p] + mask[p..q];
  }

  lemma CountNext(mask: seq<bool>, p: nat)
    requires p < |mask|
    ensures Count(mask[..p + 1]) == Count(mask[..p]) + (if mask[p] then 1 else 0)
  {
    assert mask[..p + 1][..p] == mask[..p];
  }

  /** The set position p is listed at the number of set positions before it. */
  lemma {:induction false} Rank(mask: seq<bool>, p: nat)
    requires p < |mask| && mask[p]
    ensures Count(mask[..p]) < Count(mask) && Nonzero(mask)[Count(mask[..p])] == p
    decreases |mask|
  {
    var n := |mask| - 1;
    if p < n {
      Rank(mask[..n], p);
      assert mask[..n][..p] == mask[..p];
    }
  }
}
