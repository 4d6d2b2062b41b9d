/** `greedy_partition`: every item goes to the first part with the smallest sum. */
module GreedyPartition {
  import opened Wrappers
  import opened Sequences
  import opened Arithmetic
  import opened BalancedPartitions

  /** The parts and the sums the loop compares, bias included. */
  datatype Loads = Loads(parts: seq<seq<nat>>, sums: seq<int>)

  function Start(k: nat): Loads {
    Loads(seq(k, _ => []), seq(k, _ => 0))
  }

  /** The first position of a smallest sum. */
  function ArgMin(sums: seq<int>): (j: nat)
    requires sums != []
    ensures j < |sums|
    ensures forall i :: 0 <= i < |sums| ==> sums[j] <= sums[i]
    ensures forall i :: 0 <= i < j ==> sums[j] < sums[i]
  {
    var n := |sums| - 1;
    if n == 0 then 0
    else
      var j := ArgMin(sums[..n]);
      assert forall i :: 0 <= i < n ==> sums[..n][i] == sums[i];
      if sums[n] < sums[j] then n else j
  }

  function Assign(s: Loads, i: nat, weight: int): Loads
    requires |s.parts| == |s.sums| > 0
  {
    var j := ArgMin(s.sums);
    Loads(s.parts[j := s.parts[j] + [i]], s.sums[j := s.sums[j] + weight])
  }

  /** The loads after the first n items. */
  function After(values: seq<int>, k: nat, bias: int, n: nat): (s: Loads)
    requires k > 0 && n <= |values|
    ensures |s.parts| == |s.sums| == k
  {
    if n == 0 then Start(k) else Assign(After(values, k, bias, n - 1), n - 1, values[n - 1] + bias)
  }

  function Sum(values: seq<int>): int { SumOf(Range(|values|), ValueAt(values)) }

  function Bias(values: seq<int>, equalSize: bool): int {
    if equalSize then Sum(values) + 1 else 0
  }

  function Greedy(values: seq<int>, k: nat, equalSize: bool): Result<seq<seq<nat>>>
    requires k > 0
  {
    var parts := After(values, k, Bias(values, equalSize), |values|).parts;
    if equalSize && exists p :: p in parts && |p| * k != |values| then Raised else Ok(parts)
  }

  method ChooseBias(values: seq<int>, equalSize: bool) returns (bias: int)
    ensures bias == Bias(values, equalSize)
  {
    hide ValueAt;
    if !equalSize {
      return 0;
    }
    bias := 1;
    for i := 0 to |values|
      invariant bias == SumOf(Range(|values|)[..i], ValueAt(values)) + 1
    {
      NextValue(values, i);
      bias := bias + values[i];
    }
    assert Range(|values|)[..|values|] == Range(|values|);
  }

  method LeastLoaded(sums: seq<int>) returns (least: nat)
    requires sums != []
    ensures least == ArgMin(sums)
  {
    least := 0;
    for j := 1 to |sums|
      invariant least == ArgMin(sums[..j])
    {
      assert sums[..j + 1][..j] == sums[..j];
      if sums[j] < sums[least] {
        least := j;
      }
    }
    assert sums[..|sums|] == sums;
  }

  method GreedyLoop(values: seq<int>, k: nat, equalSize: bool) returns (r: Result<seq<seq<nat>>>)
    requires k > 0
    ensures r == Greedy(values, k, equalSize)
  {
    hide Bias, ArgMin;
    var bias := ChooseBias(values, equalSize);
    var parts: seq<seq<nat>>, sums: seq<int> := seq(k, _ => []), seq(k, _ => 0);
    for i := 0 to |values|
      invariant Loads(parts, sums) == After(values, k, bias, i)
    {
      var least := LeastLoaded(sums);
      parts := parts[least := parts[least] + [i]];
      sums := sums[least := sums[least] + (values[i] + bias)];
    }
    if equalSize {
      for i := 0 to |parts|
        invariant forall j :: 0 <= j < i ==> |parts[j]| * k == |values|
      {
        if |parts[i]| * k != |values| {
          assert parts[i] in parts;
          return Raised;
        }
      }
    }
    return Ok(parts);
  }

  lemma NextValue(values: seq<int>, i: nat)
    requires i < |values|
    ensures SumOf(Range(|values|)[..i + 1], ValueAt(values)) == SumOf(Range(|values|)[..i], ValueAt(values)) + values[i]
  {
    assert Range(|values|)[..i + 1][..i] == Range(|values|)[..i];
  }

  // ---------- Every index lands in one part ----------

  lemma {:induction false} AssignCovers(values: seq<int>, k: nat, bias: int, n: nat)
    requires k > 0 && n <= |values|
    ensures multiset(Flatten(After(values, k, bias, n).parts)) == multiset(Range(n))
  {
    hide ArgMin, Flatten;
    if n == 0 {
      EmptyParts(k);
    } else {
      var s := After(values, k, bias, n - 1);
      AssignCovers(values, k, bias, n - 1);
      AppendToPart(s.parts, ArgMin(s.sums), n - 1);
      assert Range(n) == Range(n - 1) + [n - 1];
    }
  }

  lemma {:induction false} EmptyParts(k: nat)
    ensures Flatten(seq<seq<nat>>(k, _ => [])) == []
  {
    if k > 0 {
      EmptyParts(k - 1);
      assert seq<seq<nat>>(k, _ => [])[..k - 1] == seq<seq<nat>>(k - 1, _ => []);
    }
  }

  lemma AppendToPart(parts: seq<seq<nat>>, j: nat, i: nat)
    requires j < |parts|
    ensures multiset(Flatten(parts[j := parts[j] + [i]])) == multiset(Flatten(parts)) + multiset{i}
  {
    var more := parts[j := parts[j] + [i]];
    FlattenRemove(parts, j);
    FlattenRemove(more, j);
    assert Remove(more, j) == Remove(parts, j);
  }

  // ---------- Balance ----------

  /** Without bias no two sums ever differ by more than the largest item. */
  lemma {:induction false} GreedySpread(values: seq<int>, k: nat, limit: int, n: nat, p: nat, q: nat)
    requires k > 0 && n <= |values| && limit >= 0 && p < k && q < k
    requires forall i :: 0 <= i < |values| ==> 0 <= values[i] <= limit
    ensures After(values, k, 0, n).sums[p] - After(values, k, 0, n).sums[q] <= limit
  {
    if n > 0 {
      GreedySpread(values, k, limit, n - 1, p, q);
    }
  }

  lemma EmptyPartSum(values: seq<int>)
    ensures PartSum(values, []) == 0
  {
  }

  /** The sums are what they stand for: a bias for each item, and the values of the items. */
  lemma {:induction false} SumsMean(values: seq<int>, k: nat, bias: int, n: nat, j: nat)
    requires k > 0 && n <= |values| && j < k
    ensures var s := After(values, k, bias, n);
      s.sums[j] == |s.parts[j]| * bias + PartSum(values, s.parts[j])
  {
    hide ArgMin, SumOf;
    if n == 0 {
      EmptyPartSum(values);
    } else {
      SumsMean(values, k, bias, n - 1, j);
      var s := After(values, k, bias, n - 1);
      SumLast<nat>(s.parts[j], n - 1, ValueAt(values));
      assert (|s.parts[j]| + 1) * bias == |s.parts[j]| * bias + bias;
    }
  }

  /** The first part with the least load: its bias for each item it has, and the values of its items. */
  ghost predicate IsLeastLoaded(values: seq<int>, parts: seq<seq<nat>>, bias: int, j: nat) {
    j < |parts| && forall q :: 0 <= q < |parts| ==>
      var here, there := |parts[j]| * bias + PartSum(values, parts[j]), |parts[q]| * bias + PartSum(values, parts[q]);
      here <= there && (q < j ==> here < there)
  }

  /** Item n goes to the first part with the least load, and no other part changes. */
  lemma NextGoesToLeast(values: seq<int>, k: nat, bias: int, n: nat) returns (j: nat)
    requires k > 0 && n < |values|
    ensures var parts := After(values, k, bias, n).parts;
      IsLeastLoaded(values, parts, bias, j) && After(values, k, bias, n + 1).parts == parts[j := parts[j] + [n]]
    ensures n == 0 ==> forall q :: 0 <= q < k ==> After(values, k, bias, n).parts[q] == []
  {
    hide PartSum;
    var s := After(values, k, bias, n);
    j := ArgMin(s.sums);
    forall q | 0 <= q < k ensures s.sums[q] == |s.parts[q]| * bias + PartSum(values, s.parts[q]) {
      SumsMean(values, k, bias, n, q);
    }
  }

  /** No part carries more than all items together. */
  lemma PartAtMostAll(values: seq<int>, k: nat, bias: int, n: nat, j: nat)
    requires k > 0 && n <= |values| && j < k
    requires forall i :: 0 <= i < |values| ==> values[i] >= 0
    ensures 0 <= PartSum(values, After(values, k, bias, n).parts[j]) <= Sum(values)
  {
    hide ValueAt, After;
    var parts := After(values, k, bias, n).parts;
    AssignCovers(values, k, bias, n);
    PartsTotal(values, parts);
    SumPermutes(Flatten(parts), Range(n), ValueAt(values));
    forall p | p in parts ensures Load(values)(p) >= 0 {
      PartNonNegative(values, p);
    }
    SumMember(parts, Load(values), parts[j]);
    PrefixSum(values, n);
  }

  lemma PartNonNegative(values: seq<int>, p: seq<nat>)
    requires forall i :: 0 <= i < |values| ==> values[i] >= 0
    ensures PartSum(values, p) >= 0
  {
    SumLowerBound(p, ValueAt(values), 0);
  }

  lemma PrefixSum(values: seq<int>, n: nat)
    requires n <= |values| && forall i :: 0 <= i < |values| ==> values[i] >= 0
    ensures SumOf(Range(n), ValueAt(values)) <= Sum(values)
  {
    var all := Range(|values|);
    assert all == all[..n] + all[n..] && all[..n] == Range(n);
    SumConcat(all[..n], all[n..], ValueAt(values));
    SumLowerBound(all[n..], ValueAt(values), 0);
  }

  /** The bias outweighs all values together, so a smaller sum means no more items. */
  lemma BiasDominates(values: seq<int>, k: nat, n: nat, i: nat, j: nat)
    requires k > 0 && n <= |values| && i < k && j < k
    requires forall i :: 0 <= i < |values| ==> values[i] >= 0
    ensures var s := After(values, k, Bias(values, true), n);
      s.sums[i] <= s.sums[j] ==> |s.parts[i]| <= |s.parts[j]|
  {
    var bias := Bias(values, true);
    var s := After(values, k, bias, n);
    SumsMean(values, k, bias, n, i);
    SumsMean(values, k, bias, n, j);
    PartAtMostAll(values, k, bias, n, i);
    PartAtMostAll(values, k, bias, n, j);
    if s.sums[i] <= s.sums[j] {
      Lexicographic(|s.parts[i]|, |s.parts[j]|, bias, PartSum(values, s.parts[i]), PartSum(values, s.parts[j]));
    }
  }

  /** With the bias, part sizes stay within one of each other at every step. */
  lemma {:induction false} SizesWithinOne(values: seq<int>, k: nat, n: nat, p: nat, q: nat)
    requires k > 0 && n <= |values| && p < k && q < k
    requires forall i :: 0 <= i < |values| ==> values[i] >= 0
    ensures var parts := After(values, k, Bias(values, true), n).parts;
      |parts[p]| <= |parts[q]| + 1
  {
    hide Bias, ArgMin;
    if n > 0 {
      var s := After(values, k, Bias(values, true), n - 1);
      SizesWithinOne(values, k, n - 1, p, q);
      BiasDominates(values, k, n - 1, ArgMin(s.sums), q);
    }
  }

  function Length(part: seq<nat>): int { |part| }

  lemma {:induction false} SizesAddUp(parts: seq<seq<nat>>)
    ensures SumOf(parts, Length) == |Flatten(parts)|
  {
    if parts != [] {
      SizesAddUp(parts[..|parts| - 1]);
    }
  }

  lemma EvenSizes(parts: seq<seq<nat>>, k: nat, n: nat, p: seq<nat>)
    requires |parts| == k > 0 && |Flatten(parts)| == n && n % k == 0 && p in parts
    requires forall p, q :: p in parts && q in parts ==> |p| <= |q| + 1
    ensures |p| * k == n
  {
    hide Flatten, SumOf;
    SizesAddUp(parts);
    var i := Find(parts, p);
    SumRemove(parts, i, Length);
    var rest := Remove(parts, i);
    SumLowerBound(rest, Length, |p| - 1);
    assert forall q :: q in rest ==> q in parts && Length(q) <= |p| + 1;
    SumBound(rest, Length, |p| + 1);
    BetweenMultiples(n, k, |p|);
  }

  lemma BetweenMultiples(n: nat, k: nat, size: nat)
    requires k > 0 && n % k == 0
    requires size + (k - 1) * (size - 1) <= n <= size + (k - 1) * (size + 1)
    ensures size * k == n
  {
    var m := n / k;
    assert n == m * k;
    assert size + (k - 1) * (size - 1) == (size - 1) * k + 1;
    assert size + (k - 1) * (size + 1) == (size + 1) * k - 1;
    MulCancel(size - 1, m, k);
    MulCancel(m, size + 1, k);
  }

  /** The check at the end fires exactly when equal sizes are asked for and impossible. */
  lemma GreedySucceeds(values: seq<int>, k: nat, equalSize: bool)
    requires k > 0 && forall i :: 0 <= i < |values| ==> values[i] >= 0
    ensures Greedy(values, k, equalSize).Ok? <==> (equalSize ==> |values| % k == 0)
    ensures Greedy(values, k, equalSize).Ok? ==>
      |Greedy(values, k, equalSize).value| == k && ExactCover(Greedy(values, k, equalSize).value, |values|) &&
      (equalSize ==> forall p :: p in Greedy(values, k, equalSize).value ==> |p| * k == |values|)
  {
    hide After, Bias, Flatten;
    var parts := After(values, k, Bias(values, equalSize), |values|).parts;
    AssignCovers(values, k, Bias(values, equalSize), |values|);
    if equalSize {
      AllEven(values, k, parts);
    }
  }

  /** In equal-size mode the parts have equal sizes exactly when k divides the number of items. */
  lemma AllEven(values: seq<int>, k: nat, parts: seq<seq<nat>>)
    requires k > 0 && forall i :: 0 <= i < |values| ==> values[i] >= 0
    requires parts == After(values, k, Bias(values, true), |values|).parts
    ensures (forall p :: p in parts ==> |p| * k == |values|) <==> |values| % k == 0
  {
    hide After, Bias, Flatten;
    AssignCovers(values, k, Bias(values, true), |values|);
    assert |Flatten(parts)| == |multiset(Flatten(parts))| == |multiset(Range(|values|))| == |values|;
    if |values| % k == 0 {
      forall p, q | p in parts && q in parts ensures |p| <= |q| + 1 {
        var i := Find(parts, p);
        var j := Find(parts, q);
        SizesWithinOne(values, k, |values|, i, j);
      }
      forall p | p in parts ensures |p| * k == |values| {
        EvenSizes(parts, k, |values|, p);
      }
    } else {
      assert parts[0] in parts;
      MultipleHasNoRemainder(|parts[0]|, k);
    }
  }

  /** Without the equal-size mode no part carries more than another by more than the largest item. */
  lemma GreedyBalanced(values: seq<int>, k: nat, limit: int, p: seq<nat>, q: seq<nat>)
    requires k > 0 && limit >= 0 && forall i :: 0 <= i < |values| ==> 0 <= values[i] <= limit
    ensures Greedy(values, k, false).Ok?
    ensures p in Greedy(values, k, false).value && q in Greedy(values, k, false).value ==>
      PartSum(values, p) - PartSum(values, q) <= limit
  {
    hide PartSum, After;
    var parts := Greedy(values, k, false).value;
    if p in parts && q in parts {
      var i := Find(parts, p);
      var j := Find(parts, q);
      SumsMean(values, k, 0, |values|, i);
      SumsMean(values, k, 0, |values|, j);
      GreedySpread(values, k, limit, |values|, i, j);
    }
  }
}
