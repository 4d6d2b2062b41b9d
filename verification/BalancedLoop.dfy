/** `get_seqlen_balanced_partitions` with the loop of its checks. */
module BalancedLoop {
  import opened Wrappers
  import opened Sequences
  import opened KarmarkarKarp
  import opened DifferencingSets
  import opened BalancedPartitions

  method CheckAndSortPartitions(parts: seq<seq<nat>>, n: nat, k: nat) returns (r: Result<seq<seq<nat>>>)
    ensures r == CheckAndSort(parts, n, k)
  {
    if |parts| != k {
      return Raised;
    }
    var seen: set<nat> := {};
    var sorted: seq<seq<nat>> := [];
    for i := 0 to |parts|
      invariant seen == Members(Flatten(parts[..i]))
      invariant sorted == Map(SortIndices, parts)[..i]
      invariant forall p :: p in parts[..i] ==> p != []
    {
      if parts[i] == [] {
        assert parts[i] in parts;
        return Raised;
      }
      assert parts[..i + 1] == parts[..i] + [parts[i]];
      assert parts[..i + 1][..i] == parts[..i];
      seen := seen + Members(parts[i]);
      sorted := sorted + [SortIndices(parts[i])];
    }
    assert parts[..|parts|] == parts && Map(SortIndices, parts)[..|parts|] == Map(SortIndices, parts);
    if seen != Members(Range(n)) {
      return Raised;
    }
    return Ok(sorted);
  }

  method GetSeqlenBalancedPartitions(values: seq<int>, k: nat, equalSize: bool) returns (r: Result<seq<seq<nat>>>)
    requires k > 0
    ensures r == Balanced(values, k, equalSize)
  {
    hide Differencing, CheckAndSort;
    if |values| < k {
      return Raised;
    }
    var parts := KarmarkarKarpLoop(values, k, equalSize);
    if parts.Raised? {
      return Raised;
    }
    r := CheckAndSortPartitions(parts.value, |values|, k);
  }
}
