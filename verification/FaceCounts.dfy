/** The annotation's table from mesh numbers to face counts. */
module FaceCounts {
  import opened Wrappers

  /** The first n counts, in mesh order; a missing mesh raises. */
  function CountsUpTo(faceNum: map<int, nat>, n: nat): (r: Result<seq<nat>>)
    ensures r.Ok? <==> forall i :: 0 <= i < n ==> i in faceNum
    ensures r.Ok? ==> |r.value| == n && forall i :: 0 <= i < n ==> r.value[i] == faceNum[i]
  {
    if n == 0 then Ok([])
    else
      var front :- CountsUpTo(faceNum, n - 1);
      if n - 1 in faceNum then Ok(front + [faceNum[n - 1]]) else Raised
  }

  /** The counts of all annotated meshes: these must be numbered from 0. */
  function Counts(faceNum: map<int, nat>): Result<seq<nat>> { CountsUpTo(faceNum, |faceNum|) }

  function Numbers(n: nat): (r: set<int>)
    ensures |r| == n && forall i :: i in r <==> 0 <= i < n
  {
    if n == 0 then {} else Numbers(n - 1) + {n - 1}
  }

  /** If the first |faceNum| meshes are all there, there are no others. */
  lemma CountsCoverAll(faceNum: map<int, nat>)
    ensures Counts(faceNum).Ok? <==> faceNum.Keys == Numbers(|faceNum|)
  {
    var numbers, keys := Numbers(|faceNum|), faceNum.Keys;
    if Counts(faceNum).Ok? {
      assert numbers <= keys;
      SubsetOfSameSize(numbers, keys);
    }
  }

  lemma CountsInOrder(faceNum: map<int, nat>, counts: seq<nat>)
    requires Counts(faceNum) == Ok(counts)
    ensures forall m :: m in faceNum <==> 0 <= m < |counts|
    ensures forall m :: 0 <= m < |counts| ==> faceNum[m] == counts[m]
  {
    CountsCoverAll(faceNum);
  }

  lemma SubsetOfSameSize(a: set<int>, b: set<int>)
    requires a <= b && |a| == |b|
    ensures a == b
  {
    assert b == a + (b - a);
  }
}
