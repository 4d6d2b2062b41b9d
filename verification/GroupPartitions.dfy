/** `get_group_balanced_partitions`: runs of equal uids are distributed as wholes. */
module GroupPartitions {
  import opened Wrappers
  import opened Arithmetic
  import opened Sorting
  import opened Sequences
  import opened Permutations
  import opened BalancedPartitions
  import opened MicroBatches

  // ---------- Runs of equal uids ----------

  /** The runs among the first n samples. */
  function Runs<U(==)>(uids: seq<U>, n: nat): (groups: seq<seq<nat>>)
    requires n <= |uids|
    ensures n > 0 ==> groups != []
  {
    if n == 0 then []
    else
      var groups := Runs(uids, n - 1);
      if n == 1 || uids[n - 1] != uids[n - 2] then groups + [[n - 1]]
      else groups[|groups| - 1 := groups[|groups| - 1] + [n - 1]]
  }

  method GroupRuns<U(==)>(uids: seq<U>) returns (groups: seq<seq<nat>>)
    ensures groups == Runs(uids, |uids|)
  {
    groups := [];
    var current: Option<U> := None;
    var indices: seq<nat> := [];
    for i := 0 to |uids|
      invariant Runs(uids, i) == if indices == [] then groups else groups + [indices]
      invariant indices == [] <==> i == 0
      invariant i == 0 ==> groups == [] && current == None
      invariant i > 0 ==> current == Some(uids[i - 1])
    {
      if current != Some(uids[i]) {
        if indices != [] {
          groups := groups + [indices];
        }
        current := Some(uids[i]);
        indices := [i];
      } else {
        assert Runs(uids, i)[|groups| := indices + [i]] == groups + [indices + [i]];
        indices := indices + [i];
      }
    }
    if indices != [] {
      groups := groups + [indices];
    }
  }

  lemma RangeNext(n: nat)
    requires n > 0
    ensures Range(n) == Range(n - 1) + [n - 1]
  {
  }

  lemma {:induction false} RunsCover<U>(uids: seq<U>, n: nat)
    requires n <= |uids|
    ensures Flatten(Runs(uids, n)) == Range(n)
    ensures forall g :: g in Runs(uids, n) ==> g != []
  {
    if n > 0 {
      RunsCover(uids, n - 1);
      var groups := Runs(uids, n - 1);
      RangeNext(n);
      if n == 1 || uids[n - 1] != uids[n - 2] {
        FlattenConcat(groups, [[n - 1]]);
      } else {
        var last := |groups| - 1;
        var more := groups[last := groups[last] + [n - 1]];
        assert more[..last] == groups[..last];
        forall g | g in more ensures g != [] {
          var i := Find(more, g);
          assert if i == last then |g| == |groups[last]| + 1 else g == groups[i] && groups[i] in groups;
        }
      }
    }
  }

  /** All samples from the first to the second have one uid. */
  ghost predicate SameUid<U>(uids: seq<U>, i: nat, j: nat)
    requires i <= j < |uids|
  {
    forall m :: i <= m <= j ==> uids[m] == uids[j]
  }

  /** The last run holds the samples that have the last uid and nothing else up to the end. */
  lemma {:induction false} LastRun<U>(uids: seq<U>, n: nat, i: nat)
    requires 0 < n <= |uids|
    ensures var groups := Runs(uids, n);
      i in groups[|groups| - 1] <==> i < n && SameUid(uids, i, n - 1)
  {
    if n > 1 {
      LastRun(uids, n - 1, i);
      if i < n - 1 {
        assert SameUid(uids, i, n - 1) <==> SameUid(uids, i, n - 2) && uids[n - 2] == uids[n - 1];
      }
    }
  }

  /** Two samples of one run have the same uid, and so have all samples between them. */
  lemma {:induction false} RunHasOneUid<U>(uids: seq<U>, n: nat, g: nat, i: nat, j: nat)
    requires n <= |uids| && g < |Runs(uids, n)| && i in Runs(uids, n)[g] && j in Runs(uids, n)[g] && i <= j
    ensures j < n && SameUid(uids, i, j)
  {
    if g < |Runs(uids, n)| - 1 {
      RunHasOneUid(uids, n - 1, g, i, j);
    } else {
      LastRun(uids, n, i);
      LastRun(uids, n, j);
    }
  }

  lemma RunsGrow<U>(uids: seq<U>, n: nat, g: nat, i: nat)
    requires 0 < n <= |uids| && g < |Runs(uids, n - 1)| && i in Runs(uids, n - 1)[g]
    ensures g < |Runs(uids, n)| && i in Runs(uids, n)[g]
  {
  }

  /** And if all samples from one to another have one uid, some run holds both. */
  lemma {:induction false} OneUidSharesRun<U>(uids: seq<U>, n: nat, i: nat, j: nat) returns (g: nat)
    requires i <= j < n <= |uids| && SameUid(uids, i, j)
    ensures g < |Runs(uids, n)| && i in Runs(uids, n)[g] && j in Runs(uids, n)[g]
  {
    if j < n - 1 {
      g := OneUidSharesRun(uids, n - 1, i, j);
      RunsGrow(uids, n, g, i);
      RunsGrow(uids, n, g, j);
    } else {
      g := |Runs(uids, n)| - 1;
      LastRun(uids, n, i);
      LastRun(uids, n, j);
    }
  }

  // ---------- Distributing the runs ----------

  function GroupLoad(lengths: seq<nat>, group: seq<nat>): int {
    SumOf(group, (i: nat) => if i < |lengths| then Workload(lengths[i]) else 0)
  }

  function GroupLoads(lengths: seq<nat>, groups: seq<seq<nat>>): (r: seq<int>)
    ensures |r| == |groups|
  {
    Map((g: seq<nat>) => GroupLoad(lengths, g), groups)
  }

  /** The samples of the groups that one part was given. */
  function Samples(groups: seq<seq<nat>>, part: seq<nat>): seq<nat>
    requires InRange(part, |groups|)
  {
    SortIndices(Flatten(Select(groups, part)))
  }

  function SampleParts(groups: seq<seq<nat>>, parts: seq<seq<nat>>): (r: seq<seq<nat>>)
    requires forall p :: p in parts ==> InRange(p, |groups|)
    ensures |r| == |parts|
  {
    seq(|parts|, i requires 0 <= i < |parts| => Samples(groups, parts[i]))
  }

  predicate AllInRange(parts: seq<seq<nat>>, n: nat) {
    forall p :: p in parts ==> InRange(p, n)
  }

  function GroupBalanced<U(==)>(lengths: seq<nat>, uids: seq<U>, k: nat): Result<seq<seq<nat>>>
    requires k > 0
  {
    var groups := Runs(uids, |uids|);
    if |lengths| != |uids| || |groups| < k then Raised
    else
      var parts :- Balanced(GroupLoads(lengths, groups), k, true);
      if AllInRange(parts, |groups|) then Ok(SampleParts(groups, parts)) else Raised
  }

  lemma LoadsNonNegative(lengths: seq<nat>, groups: seq<seq<nat>>)
    ensures forall i :: 0 <= i < |groups| ==> GroupLoads(lengths, groups)[i] >= 0
  {
    forall i | 0 <= i < |groups| ensures GroupLoad(lengths, groups[i]) >= 0 {
      SumLowerBound(groups[i], (j: nat) => if j < |lengths| then Workload(lengths[j]) else 0, 0);
    }
  }

  /** It succeeds exactly when the runs are enough for k parts and divide evenly among them. */
  lemma GroupBalancedSucceeds<U>(lengths: seq<nat>, uids: seq<U>, k: nat)
    requires k > 0
    ensures var n, r := |Runs(uids, |uids|)|, GroupBalanced(lengths, uids, k);
      r.Ok? <==> |lengths| == |uids| && n >= k && n % k == 0
  {
    hide Balanced, Runs, ExactCover;
    var groups := Runs(uids, |uids|);
    var values := GroupLoads(lengths, groups);
    LoadsNonNegative(lengths, groups);
    BalancedSucceeds(values, k, true);
    if |groups| >= k && |groups| % k == 0 {
      PartsInRange(Balanced(values, k, true).value, |groups|);
    }
  }

  lemma {:induction false} SelectedFlatten(groups: seq<seq<nat>>, parts: seq<seq<nat>>)
    requires forall p :: p in parts ==> InRange(p, |groups|)
    ensures InRange(Flatten(parts), |groups|)
    ensures multiset(Flatten(SampleParts(groups, parts))) == multiset(Flatten(Select(groups, Flatten(parts))))
  {
    hide Sort;
    if parts == [] {
      assert Select(groups, []) == [];
    } else {
      var n := |parts| - 1;
      SelectedFlatten(groups, parts[..n]);
      assert parts[n] in parts && Flatten(parts) == Flatten(parts[..n]) + parts[n];
      assert SampleParts(groups, parts)[..n] == SampleParts(groups, parts[..n]);
      assert Select(groups, Flatten(parts)) == Select(groups, Flatten(parts[..n])) + Select(groups, parts[n]);
      FlattenConcat(Select(groups, Flatten(parts[..n])), Select(groups, parts[n]));
      SortPermutes(Flatten(Select(groups, parts[n])), IndexLess);
    }
  }

  /** Every sample is in exactly one part. */
  lemma SamplesCover<U>(lengths: seq<nat>, uids: seq<U>, k: nat)
    requires k > 0 && GroupBalanced(lengths, uids, k).Ok?
    ensures |GroupBalanced(lengths, uids, k).value| == k
    ensures ExactCover(GroupBalanced(lengths, uids, k).value, |uids|)
  {
    hide Balanced, Runs, Select, Samples;
    var groups := Runs(uids, |uids|);
    var values := GroupLoads(lengths, groups);
    LoadsNonNegative(lengths, groups);
    BalancedSucceeds(values, k, true);
    var parts := Balanced(values, k, true).value;
    CoverIsPermutation(parts, |groups|);
    SelectedFlatten(groups, parts);
    SelectAll(groups, Flatten(parts));
    FlattenPermutes(Select(groups, Flatten(parts)), groups);
    RunsCover(uids, |uids|);
  }

  // ---------- How balanced the parts are ----------

  lemma GroupLoadIsWorkload(lengths: seq<nat>, group: seq<nat>)
    ensures GroupLoad(lengths, group) == PartSum(Workloads(lengths), group)
  {
    SumExtensional(group, (i: nat) => if i < |lengths| then Workload(lengths[i]) else 0, ValueAt(Workloads(lengths)));
  }

  lemma {:induction false} SelectedLoad(lengths: seq<nat>, groups: seq<seq<nat>>, part: seq<nat>)
    requires InRange(part, |groups|)
    ensures PartSum(Workloads(lengths), Flatten(Select(groups, part))) == PartSum(GroupLoads(lengths, groups), part)
  {
    hide Workloads, GroupLoad;
    if part != [] {
      var n := |part| - 1;
      SelectedLoad(lengths, groups, part[..n]);
      assert Select(groups, part)[..n] == Select(groups, part[..n]);
      SumConcat(Flatten(Select(groups, part[..n])), groups[part[n]], ValueAt(Workloads(lengths)));
      GroupLoadIsWorkload(lengths, groups[part[n]]);
    }
  }

  lemma SamplesLoad(lengths: seq<nat>, groups: seq<seq<nat>>, part: seq<nat>)
    requires InRange(part, |groups|)
    ensures PartSum(Workloads(lengths), Samples(groups, part)) == PartSum(GroupLoads(lengths, groups), part)
  {
    hide Sort, Workloads, GroupLoads;
    SelectedLoad(lengths, groups, part);
    SortPermutes(Flatten(Select(groups, part)), IndexLess);
    SumPermutes(Samples(groups, part), Flatten(Select(groups, part)), ValueAt(Workloads(lengths)));
  }

  /** The total workloads of two parts differ by no more than the workloads of the runs do. */
  lemma SamplesBalanced<U>(lengths: seq<nat>, uids: seq<U>, k: nat, low: nat, high: int, p: seq<nat>, q: seq<nat>)
    requires k > 0 && GroupBalanced(lengths, uids, k).Ok?
    requires forall g :: g in Runs(uids, |uids|) ==> low <= PartSum(Workloads(lengths), g) <= high
    requires p in GroupBalanced(lengths, uids, k).value && q in GroupBalanced(lengths, uids, k).value
    ensures PartSum(Workloads(lengths), p) - PartSum(Workloads(lengths), q) <= high - low
  {
    hide Balanced, Runs, PartSum, GroupLoads, Samples;
    GroupBalancedSucceeds(lengths, uids, k);
    var groups := Runs(uids, |uids|);
    var values := GroupLoads(lengths, groups);
    LoadsBetween(lengths, groups, low, high);
    var parts := Balanced(values, k, true).value;
    var i := Find(SampleParts(groups, parts), p);
    var j := Find(SampleParts(groups, parts), q);
    SamplesLoad(lengths, groups, parts[i]);
    SamplesLoad(lengths, groups, parts[j]);
    LoadsApart(values, k, low, high, parts[i], parts[j]);
  }

  lemma LoadsBetween(lengths: seq<nat>, groups: seq<seq<nat>>, low: nat, high: int)
    requires forall g :: g in groups ==> low <= PartSum(Workloads(lengths), g) <= high
    ensures forall i :: 0 <= i < |groups| ==> low <= GroupLoads(lengths, groups)[i] <= high
  {
    hide PartSum, GroupLoad, Workloads;
    forall i | 0 <= i < |groups| ensures low <= GroupLoads(lengths, groups)[i] <= high {
      GroupLoadIsWorkload(lengths, groups[i]);
    }
  }

  /** The samples of a part are listed in their order. */
  lemma SamplesInOrder<U>(lengths: seq<nat>, uids: seq<U>, k: nat, p: seq<nat>, i: nat, j: nat)
    requires k > 0 && GroupBalanced(lengths, uids, k).Ok? && p in GroupBalanced(lengths, uids, k).value && i <= j < |p|
    ensures p[i] <= p[j]
  {
    hide Balanced, Runs, GroupLoads, Flatten;
    var groups := Runs(uids, |uids|);
    var parts := Balanced(GroupLoads(lengths, groups), k, true).value;
    var x := Find(SampleParts(groups, parts), p);
    SortOrders(Flatten(Select(groups, parts[x])), IndexLess);
  }

  lemma SelectedMembers(groups: seq<seq<nat>>, part: seq<nat>, g: nat, i: nat)
    requires InRange(part, |groups|) && g in part && i in groups[g]
    ensures i in Samples(groups, part)
  {
    var j := Find(part, g);
    assert Select(groups, part)[j] == groups[g];
    MemberOfFlatten(Select(groups, part), groups[g], i);
    SortMembers(Flatten(Select(groups, part)), IndexLess);
  }

  lemma GroupInOnePart(groups: seq<seq<nat>>, parts: seq<seq<nat>>, g: nat) returns (p: seq<nat>)
    requires AllInRange(parts, |groups|) && ExactCover(parts, |groups|) && g < |groups|
    ensures p in SampleParts(groups, parts) && forall i :: i in groups[g] ==> i in p
  {
    hide Samples;
    CoverMember(parts, |groups|, g);
    var part := InSomePart(parts, g);
    p := Samples(groups, part);
    forall i | i in groups[g] ensures i in p {
      SelectedMembers(groups, part, g, i);
    }
    var x := Find(parts, part);
    assert SampleParts(groups, parts)[x] == p;
  }

  // ---------- Which samples stay together ----------

  ghost predicate SharePart(parts: seq<seq<nat>>, i: nat, j: nat) {
    exists p :: p in parts && i in p && j in p
  }

  /** Two samples with nothing but their own uid between them end up in the same part. */
  lemma OneUidStaysTogether<U>(lengths: seq<nat>, uids: seq<U>, k: nat, i: nat, j: nat)
    requires k > 0 && GroupBalanced(lengths, uids, k).Ok? && i <= j < |uids| && SameUid(uids, i, j)
    ensures SharePart(GroupBalanced(lengths, uids, k).value, i, j)
  {
    hide Balanced, SampleParts, Runs, ExactCover, GroupLoads, SameUid;
    var groups := Runs(uids, |uids|);
    var values := GroupLoads(lengths, groups);
    LoadsNonNegative(lengths, groups);
    BalancedSucceeds(values, k, true);
    var g := OneUidSharesRun(uids, |uids|, i, j);
    var p := GroupInOnePart(groups, Balanced(values, k, true).value, g);
  }

  lemma UnitFactor(m: nat, k: nat)
    requires k > 0 && m * k == k
    ensures m == 1
  {
    MulCancel(m, 2, k);
    MulCancel(0, m, k);
  }

  lemma BalancedUnits(values: seq<int>, k: nat, part: seq<nat>)
    requires |values| == k > 0 && forall i :: 0 <= i < k ==> values[i] >= 0
    requires Balanced(values, k, true).Ok? && part in Balanced(values, k, true).value
    ensures |part| == 1
  {
    hide *;
    BalancedSizes(values, k, part);
    UnitFactor(|part|, k);
  }

  lemma BalancedSizes(values: seq<int>, k: nat, part: seq<nat>)
    requires k > 0 && forall i :: 0 <= i < |values| ==> values[i] >= 0
    requires Balanced(values, k, true).Ok? && part in Balanced(values, k, true).value
    ensures |part| * k == |values|
  {
    hide Balanced, ExactCover;
    BalancedSucceeds(values, k, true);
  }

  lemma OneGroup(groups: seq<seq<nat>>, part: seq<nat>, i: nat)
    requires |part| == 1 && InRange(part, |groups|) && i in Samples(groups, part)
    ensures i in groups[part[0]]
  {
    assert Select(groups, part) == [groups[part[0]]];
    assert Flatten([groups[part[0]]]) == groups[part[0]];
    SortMembers(groups[part[0]], IndexLess);
  }

  /** With as many parts as runs, every part is one run. */
  lemma OneRunEach<U>(lengths: seq<nat>, uids: seq<U>, k: nat, p: seq<nat>) returns (g: nat)
    requires k > 0 && GroupBalanced(lengths, uids, k).Ok? && |Runs(uids, |uids|)| == k
    requires p in GroupBalanced(lengths, uids, k).value
    ensures g < k && forall i :: i in p ==> i in Runs(uids, |uids|)[g]
  {
    hide Balanced, GroupLoads, ExactCover, Samples, Runs;
    var groups := Runs(uids, |uids|);
    var values := GroupLoads(lengths, groups);
    LoadsNonNegative(lengths, groups);
    var parts := Balanced(values, k, true).value;
    var x := Find(SampleParts(groups, parts), p);
    BalancedUnits(values, k, parts[x]);
    g := parts[x][0];
    forall i | i in p ensures i in groups[g] {
      OneGroup(groups, parts[x], i);
    }
  }

  /** With as many parts as runs, samples of different runs are separated, whatever their lengths. */
  lemma RunsApart<U>(lengths: seq<nat>, uids: seq<U>, i: nat, j: nat)
    requires |lengths| == |uids| && i <= j < |uids| && !SameUid(uids, i, j)
    ensures var k := |Runs(uids, |uids|)|;
      k > 0 && GroupBalanced(lengths, uids, k).Ok? && !SharePart(GroupBalanced(lengths, uids, k).value, i, j)
  {
    hide GroupBalanced, Runs, SameUid;
    var k := |Runs(uids, |uids|)|;
    GroupBalancedSucceeds(lengths, uids, k);
    forall p | p in GroupBalanced(lengths, uids, k).value ensures !(i in p && j in p) {
      var g := OneRunEach(lengths, uids, k, p);
      if i in p && j in p {
        RunHasOneUid(uids, |uids|, g, i, j);
      }
    }
  }

  ghost predicate AlwaysTogether<U>(uids: seq<U>, i: nat, j: nat) {
    forall lengths: seq<nat>, k: nat :: k > 0 && GroupBalanced(lengths, uids, k).Ok? ==>
      SharePart(GroupBalanced(lengths, uids, k).value, i, j)
  }

  /**
   Two samples share a part for all lengths and all numbers of parts for which the function succeeds, exactly
   when every sample from one to the other has the same uid.
   */
  lemma AlwaysTogetherIff<U>(uids: seq<U>, i: nat, j: nat)
    requires i <= j < |uids|
    ensures AlwaysTogether(uids, i, j) <==> SameUid(uids, i, j)
  {
    hide GroupBalanced, Runs, SharePart, SameUid;
    if SameUid(uids, i, j) {
      forall lengths: seq<nat>, k: nat | k > 0 && GroupBalanced(lengths, uids, k).Ok?
        ensures SharePart(GroupBalanced(lengths, uids, k).value, i, j)
      {
        OneUidStaysTogether(lengths, uids, k, i, j);
      }
    } else {
      RunsApart(seq(|uids|, _ => 0), uids, i, j);
    }
  }

  /** The samples of every uid are consecutive. */
  ghost predicate Consecutive<U>(uids: seq<U>) {
    forall i, j :: 0 <= i <= j < |uids| && uids[i] == uids[j] ==> SameUid(uids, i, j)
  }

  /** So samples with equal uids always stay together exactly when the samples of every uid are consecutive. */
  lemma UidsStayTogetherIff<U>(uids: seq<U>)
    ensures (forall i, j :: 0 <= i <= j < |uids| && uids[i] == uids[j] ==> AlwaysTogether(uids, i, j)) <==>
      Consecutive(uids)
  {
    hide AlwaysTogether, SameUid;
    forall i, j | 0 <= i <= j < |uids| ensures AlwaysTogether(uids, i, j) <==> SameUid(uids, i, j) {
      AlwaysTogetherIff(uids, i, j);
    }
  }

  /** The shortest such input: the first and the last of three samples are separated. */
  lemma SeparatedUid<U>(lengths: seq<nat>, a: U, b: U)
    requires |lengths| == 3 && a != b
    ensures Runs([a, b, a], 3) == [[0], [1], [2]]
    ensures GroupBalanced(lengths, [a, b, a], 3).Ok? && !SharePart(GroupBalanced(lengths, [a, b, a], 3).value, 0, 2)
  {
    hide GroupBalanced;
    var uids := [a, b, a];
    assert Runs(uids, 1) == [[0]];
    assert Runs(uids, 2) == [[0], [1]];
    assert !SameUid(uids, 0, 2) by { assert uids[1] != uids[2]; }
    RunsApart(lengths, uids, 0, 2);
  }
}
