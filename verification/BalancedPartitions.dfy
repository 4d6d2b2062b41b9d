/** `get_seqlen_balanced_partitions`: when it succeeds, and how good its answer is. */
module BalancedPartitions {
  import opened Wrappers
  import opened Sorting
  import opened Sequences
  import opened KarmarkarKarp
  import opened KarmarkarKarpInvariant
  import opened KarmarkarKarpRuns

  predicate IndexLess(a: nat, b: nat) { a < b }

  function SortIndices(part: seq<nat>): seq<nat> { Sort(part, IndexLess) }

  /** The checks of `_check_and_sort_partitions`, in their order. */
  function CheckAndSort(parts: seq<seq<nat>>, n: nat, k: nat): Result<seq<seq<nat>>> {
    if |parts| != k || (exists p :: p in parts && p == []) || Members(Flatten(parts)) != Members(Range(n)) then Raised
    else Ok(Map(SortIndices, parts))
  }

  function Members(indices: seq<nat>): set<nat> { set i | i in indices }

  function Balanced(values: seq<int>, k: nat, equalSize: bool): Result<seq<seq<nat>>>
    requires k > 0
  {
    if |values| < k then Raised
    else
      var parts :- Differencing(values, k, equalSize);
      CheckAndSort(parts, |values|, k)
  }

  // ---------- Partitions ----------

  /** Every index below n is in exactly one part, once. */
  ghost predicate ExactCover(parts: seq<seq<nat>>, n: nat) {
    multiset(Flatten(parts)) == multiset(Range(n))
  }

  function ValueAt(values: seq<int>): nat -> int {
    (i: nat) => if i < |values| then values[i] else 0
  }

  function PartSum(values: seq<int>, part: seq<nat>): int { SumOf(part, ValueAt(values)) }

  function Load(values: seq<int>): seq<nat> -> int {
    (part: seq<nat>) => PartSum(values, part)
  }

  /** The largest part sum. */
  function Busiest(values: seq<int>, parts: seq<seq<nat>>): (b: int)
    requires parts != []
    ensures exists p :: p in parts && PartSum(values, p) == b
    ensures forall p :: p in parts ==> PartSum(values, p) <= b
  {
    var last := parts[|parts| - 1];
    SplitLast(parts);
    if |parts| == 1 then PartSum(values, last)
    else Max(Busiest(values, parts[..|parts| - 1]), PartSum(values, last))
  }

  lemma BusiestPart(values: seq<int>, parts: seq<seq<nat>>) returns (p: seq<nat>)
    requires parts != []
    ensures p in parts && PartSum(values, p) == Busiest(values, parts)
  {
    var b := Busiest(values, parts);
    p :| p in parts && PartSum(values, p) == b;
  }

  lemma CoverMember(parts: seq<seq<nat>>, n: nat, i: nat)
    requires ExactCover(parts, n)
    ensures i in Flatten(parts) <==> i < n
  {
    assert i in multiset(Flatten(parts)) <==> i in multiset(Range(n));
    if i < n { assert Range(n)[i] == i; }
  }

  lemma {:induction false} InSomePart(parts: seq<seq<nat>>, i: nat) returns (p: seq<nat>)
    requires i in Flatten(parts)
    ensures p in parts && i in p
  {
    var last := parts[|parts| - 1];
    if i in last {
      p := last;
    } else {
      p := InSomePart(parts[..|parts| - 1], i);
    }
  }

  lemma {:induction false} MemberOfFlatten(parts: seq<seq<nat>>, p: seq<nat>, i: nat)
    requires p in parts && i in p
    ensures i in Flatten(parts)
  {
    if p != parts[|parts| - 1] {
      SplitLast(parts);
      MemberOfFlatten(parts[..|parts| - 1], p, i);
    }
  }

  lemma PartsTotal(values: seq<int>, parts: seq<seq<nat>>)
    ensures SumOf(parts, Load(values)) == SumOf(Flatten(parts), ValueAt(values))
  {
    SumFlatten(parts, ValueAt(values));
    SumExtensional(parts, Load(values), p => SumOf(p, ValueAt(values)));
  }

  lemma CoverTotal(values: seq<int>, parts: seq<seq<nat>>)
    requires ExactCover(parts, |values|)
    ensures SumOf(parts, Load(values)) == SumOf(Range(|values|), ValueAt(values))
  {
    PartsTotal(values, parts);
    SumPermutes(Flatten(parts), Range(|values|), ValueAt(values));
  }

  lemma {:induction false} SumExtensional<T>(s: seq<T>, f: T -> int, g: T -> int)
    requires forall x :: x in s ==> f(x) == g(x)
    ensures SumOf(s, f) == SumOf(s, g)
  {
    if s != [] {
      SumExtensional(s[..|s| - 1], f, g);
    }
  }

  // ---------- From the last state to the partition ----------

  lemma {:induction false} BinSums(values: seq<int>, items: seq<Item>)
    requires forall item :: item in items ==> item.idx < |values| && item.val == values[item.idx]
    ensures Total(items) == PartSum(values, Map(Idx, items))
  {
    if items != [] {
      BinSums(values, items[..|items| - 1]);
      assert Map(Idx, items)[..|items| - 1] == Map(Idx, items[..|items| - 1]);
    }
  }

  lemma PartitionsFlatten(s: Bins)
    ensures Flatten(Partitions(s)) == Map(Idx, ItemsOf(s))
  {
    var g := (p: seq<Item>) => Map(Idx, p);
    MapFlatten(Idx, Map(BinItems, s));
    assert Map(g, Map(BinItems, s)) == Partitions(s);
  }

  lemma FinalCovers(values: seq<int>, s: Bins)
    requires multiset(ItemsOf(s)) == multiset(Items(values))
    ensures ExactCover(Partitions(s), |values|)
  {
    PartitionsFlatten(s);
    MapPermutes(ItemsOf(s), Items(values), Idx);
    assert Map(Idx, Items(values)) == Range(|values|);
  }

  lemma ItemOfBin(s: Bins, i: nat, item: Item)
    requires i < |s| && item in s[i].items
    ensures item in ItemsOf(s)
  {
    assert Map(BinItems, s) == Map(BinItems, s[..i]) + [s[i].items] + Map(BinItems, s[i + 1..]);
    FlattenConcat(Map(BinItems, s[..i]) + [s[i].items], Map(BinItems, s[i + 1..]));
    FlattenConcat(Map(BinItems, s[..i]), [s[i].items]);
    assert Flatten([s[i].items]) == s[i].items;
  }

  lemma FinalSums(values: seq<int>, s: Bins, k: nat, i: nat)
    requires multiset(ItemsOf(s)) == multiset(Items(values)) && Sound(s, k) && i < k
    ensures PartSum(values, Partitions(s)[i]) == s[i].sum
  {
    forall item | item in s[i].items ensures item.idx < |values| && item.val == values[item.idx] {
      ItemOfBin(s, i, item);
      assert item in multiset(Items(values));
    }
    BinSums(values, s[i].items);
    assert SoundBin(s[i]);
  }

  lemma {:induction false} UniformItems(s: Bins, size: nat)
    requires Uniform(s, size)
    ensures |ItemsOf(s)| == |s| * size
  {
    if s != [] {
      UniformItems(s[..|s| - 1], size);
      LastBin(s, |s| - 1);
      assert s[..|s|] == s;
    }
  }

  // ---------- Sorting the parts ----------

  lemma IndexLessIsAnOrder()
    ensures StrictWeak(IndexLess)
  {
  }

  lemma {:induction false} SortedPartsCover(parts: seq<seq<nat>>)
    ensures multiset(Flatten(Map(SortIndices, parts))) == multiset(Flatten(parts))
  {
    if parts != [] {
      var n := |parts| - 1;
      SortedPartsCover(parts[..n]);
      SortPermutes(parts[n], IndexLess);
      assert Map(SortIndices, parts)[..n] == Map(SortIndices, parts[..n]);
    }
  }

  /** What a caller gets: k non-empty parts, each in increasing order, that cover every index once. */
  ghost predicate IsBalancedAnswer(parts: seq<seq<nat>>, n: nat, k: nat, equalSize: bool) {
    |parts| == k && ExactCover(parts, n) &&
    (forall p :: p in parts ==> p != [] && Ordered(p, IndexLess)) &&
    (equalSize ==> forall p :: p in parts ==> |p| * k == n)
  }

  /** Some limit on the spread always exists: the sum of all values. */
  lemma SomeLimit(values: seq<int>, k: nat, equalSize: bool) returns (limit: int)
    requires k > 0 && forall i :: 0 <= i < |values| ==> values[i] >= 0
    ensures SpreadLimit(values, k, equalSize, limit)
  {
    limit := SumOf(Range(|values|), ValueAt(values));
    forall i: nat | i < |values| ensures values[i] <= limit {
      assert i in Range(|values|) by { assert Range(|values|)[i] == i; }
      SumMember(Range(|values|), ValueAt(values), i);
    }
    if equalSize {
      forall b: nat | b < |values| / k ensures BlockGap(values, k, b) <= limit {
        GapWithin(values, k, 0, limit, b);
      }
    }
  }

  lemma GapWithin(values: seq<int>, k: nat, low: nat, limit: int, b: nat)
    requires k > 0 && b < |values| / k && forall i :: 0 <= i < |values| ==> low <= values[i] <= limit
    ensures BlockGap(values, k, b) <= limit - low
  {
    hide SortedItems;
    BlockInRange(|values|, k, b);
    SortedItemsShape(values);
    var last, first := SortedItems(values)[b * k + k - 1], SortedItems(values)[b * k];
    assert last in SortedItems(values) && first in SortedItems(values);
  }

  lemma DifferencingSucceeds(values: seq<int>, k: nat, equalSize: bool)
    requires k > 0 && |values| > 0 && (equalSize ==> |values| % k == 0)
    requires forall i :: 0 <= i < |values| ==> values[i] >= 0
    ensures Differencing(values, k, equalSize) == Ok(Partitions(Final(values, k, equalSize)))
    ensures equalSize ==> AllOfSize(Partitions(Final(values, k, equalSize)), |values|)
  {
    hide Filled, ItemsOf, InitialHeap, Uniform, AllOfSize;
    var limit := SomeLimit(values, k, equalSize);
    FinalGood(values, k, equalSize, limit);
    if equalSize {
      var s := Final(values, k, equalSize);
      var size :| Uniform(s, size);
      UniformAllOfSize(s, size);
    }
  }

  lemma UniformAllOfSize(s: Bins, size: nat)
    requires Uniform(s, size)
    ensures AllOfSize(Partitions(s), |ItemsOf(s)|)
  {
    UniformItems(s, size);
  }

  lemma CheckPasses(values: seq<int>, k: nat, s: Bins)
    requires |values| >= k > 0 && Filled(s, k)
    requires multiset(ItemsOf(s)) == multiset(Items(values)) && |ItemsOf(s)| == |values|
    ensures CheckAndSort(Partitions(s), |values|, k) == Ok(Map(SortIndices, Partitions(s)))
  {
    hide SoundBin, Ordered, ItemsOf, InUse;
    var parts := Partitions(s);
    FinalCovers(values, s);
    forall p | p in parts ensures p != [] {
      var i := Find(parts, p);
      FilledPrefix(s, k, i);
    }
    forall i ensures i in Members(Flatten(parts)) <==> i in Members(Range(|values|)) {
      assert i in multiset(Flatten(parts)) <==> i in multiset(Range(|values|));
    }
  }

  /**
   For non-negative values the function succeeds exactly when there are enough items and, in equal-size
   mode, they divide evenly; none of its other checks ever fires.
   */
  lemma BalancedSucceeds(values: seq<int>, k: nat, equalSize: bool)
    requires k > 0 && forall i :: 0 <= i < |values| ==> values[i] >= 0
    ensures Balanced(values, k, equalSize).Ok? <==> |values| >= k && (equalSize ==> |values| % k == 0)
    ensures Balanced(values, k, equalSize).Ok? ==>
      IsBalancedAnswer(Balanced(values, k, equalSize).value, |values|, k, equalSize) &&
      Balanced(values, k, equalSize).value == Map(SortIndices, Partitions(Final(values, k, equalSize)))
  {
    hide Final, CheckAndSort, Sound, ItemsOf, Sort;
    if |values| >= k && (equalSize ==> |values| % k == 0) {
      DifferencingSucceeds(values, k, equalSize);
      var limit := SomeLimit(values, k, equalSize);
      FinalGood(values, k, equalSize, limit);
      var s := Final(values, k, equalSize);
      CheckPasses(values, k, s);
      AnswerShape(values, k, equalSize, s);
    }
  }

  lemma AnswerShape(values: seq<int>, k: nat, equalSize: bool, s: Bins)
    requires |values| >= k > 0 && |s| == k && multiset(ItemsOf(s)) == multiset(Items(values))
    requires CheckAndSort(Partitions(s), |values|, k).Ok?
    requires equalSize ==> AllOfSize(Partitions(s), |values|)
    ensures IsBalancedAnswer(Map(SortIndices, Partitions(s)), |values|, k, equalSize)
  {
    var parts := Partitions(s);
    FinalCovers(values, s);
    SortedPartsCover(parts);
    IndexLessIsAnOrder();
    forall p | p in Map(SortIndices, parts)
      ensures p != [] && Ordered(p, IndexLess) && (equalSize ==> |p| * k == |values|)
    {
      var i := Find(Map(SortIndices, parts), p);
      SortOrders(parts[i], IndexLess);
      assert parts[i] in parts;
    }
  }

  // ---------- How balanced the answer is ----------

  function Answer(values: seq<int>, k: nat, equalSize: bool): (parts: seq<seq<nat>>)
    requires k > 0 && Balanced(values, k, equalSize).Ok?
  {
    Balanced(values, k, equalSize).value
  }

  lemma AnswerSums(values: seq<int>, k: nat, equalSize: bool, i: nat)
    requires |values| >= k > 0 && (equalSize ==> |values| % k == 0) && i < k
    requires forall i :: 0 <= i < |values| ==> values[i] >= 0
    ensures Balanced(values, k, equalSize).Ok? && |Answer(values, k, equalSize)| == k
    ensures PartSum(values, Answer(values, k, equalSize)[i]) == Final(values, k, equalSize)[i].sum
  {
    hide Balanced, Final, ItemsOf;
    BalancedSucceeds(values, k, equalSize);
    var limit := SomeLimit(values, k, equalSize);
    FinalGood(values, k, equalSize, limit);
    var s := Final(values, k, equalSize);
    FinalSums(values, s, k, i);
    SortPermutes(Partitions(s)[i], IndexLess);
    SumPermutes(SortIndices(Partitions(s)[i]), Partitions(s)[i], ValueAt(values));
  }

  lemma FinalSpread(values: seq<int>, k: nat, equalSize: bool, limit: int, i: nat, j: nat)
    requires |values| >= k > 0 && (equalSize ==> |values| % k == 0) && SpreadLimit(values, k, equalSize, limit)
    requires i < k && j < k && forall i :: 0 <= i < |values| ==> values[i] >= 0
    ensures Final(values, k, equalSize)[i].sum - Final(values, k, equalSize)[j].sum <= limit
  {
    hide Final, ItemsOf, SpreadLimit;
    FinalGood(values, k, equalSize, limit);
    var s := Final(values, k, equalSize);
    SumsFall(s, k, 0, i);
    SumsFall(s, k, j, k - 1);
  }

  /** The parts come back in the order of their sums, the largest first. */
  lemma AnswerFalls(values: seq<int>, k: nat, equalSize: bool, i: nat, j: nat)
    requires |values| >= k > 0 && (equalSize ==> |values| % k == 0) && i <= j < k
    requires forall i :: 0 <= i < |values| ==> values[i] >= 0
    ensures Balanced(values, k, equalSize).Ok? && |Balanced(values, k, equalSize).value| == k
    ensures PartSum(values, Balanced(values, k, equalSize).value[i]) >= PartSum(values, Balanced(values, k, equalSize).value[j])
  {
    hide Balanced, Final, ItemsOf, SpreadLimit, PartSum;
    var limit := SomeLimit(values, k, equalSize);
    FinalGood(values, k, equalSize, limit);
    AnswerSums(values, k, equalSize, i);
    AnswerSums(values, k, equalSize, j);
    SumsFall(Final(values, k, equalSize), k, i, j);
  }

  /** No two parts differ by more than the largest item, or in equal-size mode than the largest gap of a block. */
  lemma BalancedSpread(values: seq<int>, k: nat, equalSize: bool, limit: int, p: seq<nat>, q: seq<nat>)
    requires |values| >= k > 0 && (equalSize ==> |values| % k == 0) && SpreadLimit(values, k, equalSize, limit)
    requires forall i :: 0 <= i < |values| ==> values[i] >= 0
    ensures Balanced(values, k, equalSize).Ok?
    ensures p in Answer(values, k, equalSize) && q in Answer(values, k, equalSize) ==>
      PartSum(values, p) - PartSum(values, q) <= limit
  {
    hide *;
    AnswerSums(values, k, equalSize, 0);
    var parts := Answer(values, k, equalSize);
    if p in parts && q in parts {
      var i := Find(parts, p);
      var j := Find(parts, q);
      AnswerSums(values, k, equalSize, i);
      AnswerSums(values, k, equalSize, j);
      FinalSpread(values, k, equalSize, limit, i, j);
    }
  }

  /** In equal-size mode parts of items between two bounds differ by no more than the bounds do, however many items they have. */
  lemma LoadsApart(values: seq<int>, k: nat, low: nat, high: int, p: seq<nat>, q: seq<nat>)
    requires |values| >= k > 0 && |values| % k == 0 && forall i :: 0 <= i < |values| ==> low <= values[i] <= high
    ensures Balanced(values, k, true).Ok?
    ensures p in Balanced(values, k, true).value && q in Balanced(values, k, true).value ==>
      PartSum(values, p) - PartSum(values, q) <= high - low
  {
    hide Balanced, PartSum;
    forall b: nat | b < |values| / k ensures BlockGap(values, k, b) <= high - low {
      GapWithin(values, k, low, high, b);
    }
    BalancedSpread(values, k, true, high - low, p, q);
  }

  lemma ItemFits(values: seq<int>, parts: seq<seq<nat>>, i: nat)
    requires parts != [] && ExactCover(parts, |values|) && i < |values|
    requires forall i :: 0 <= i < |values| ==> values[i] >= 0
    ensures values[i] <= Busiest(values, parts)
  {
    CoverMember(parts, |values|, i);
    var p := InSomePart(parts, i);
    SumMember(p, ValueAt(values), i);
  }

  lemma ItemsFit(values: seq<int>, k: nat, parts: seq<seq<nat>>)
    requires k > 0 && parts != [] && ExactCover(parts, |values|)
    requires forall i :: 0 <= i < |values| ==> values[i] >= 0
    ensures SpreadLimit(values, k, false, Busiest(values, parts))
  {
    forall i | 0 <= i < |values| ensures values[i] <= Busiest(values, parts) {
      ItemFits(values, parts, i);
    }
  }

  lemma AnswerCovers(values: seq<int>, k: nat)
    requires |values| >= k > 0 && forall i :: 0 <= i < |values| ==> values[i] >= 0
    ensures Balanced(values, k, false).Ok?
    ensures |Answer(values, k, false)| == k && ExactCover(Answer(values, k, false), |values|)
  {
    hide Balanced;
    BalancedSucceeds(values, k, false);
  }

  /** The sum of all loads, if one part carries `most` and no part carries less than `most - limit`. */
  lemma LoadsAtLeast(values: seq<int>, parts: seq<seq<nat>>, p: seq<nat>, limit: int)
    requires p in parts && forall q :: q in parts ==> PartSum(values, p) - PartSum(values, q) <= limit
    ensures SumOf(parts, Load(values)) >= PartSum(values, p) + (|parts| - 1) * (PartSum(values, p) - limit)
  {
    hide SumOf, ValueAt, PartSum;
    var i := Find(parts, p);
    SumRemove(parts, i, Load(values));
    SumLowerBound(Remove(parts, i), Load(values), PartSum(values, p) - limit);
  }

  lemma LoadsAtMost(values: seq<int>, parts: seq<seq<nat>>)
    requires parts != []
    ensures SumOf(parts, Load(values)) <= |parts| * Busiest(values, parts)
  {
    var b := Busiest(values, parts);
    assert forall p :: p in parts ==> PartSum(values, p) <= b;
    SumBound(parts, Load(values), b);
  }

  /**
   In the mode of unequal sizes, k times the busiest part is at most 2k - 1 times the busiest part of any
   way to split the items into k parts.
   */
  lemma BalancedWithinFactor(values: seq<int>, k: nat, other: seq<seq<nat>>)
    requires |values| >= k > 0 && |other| == k && ExactCover(other, |values|)
    requires forall i :: 0 <= i < |values| ==> values[i] >= 0
    ensures Balanced(values, k, false).Ok? && Answer(values, k, false) != []
    ensures k * Busiest(values, Answer(values, k, false)) <= (2 * k - 1) * Busiest(values, other)
  {
    hide *;
    AnswerCovers(values, k);
    var parts, b := Answer(values, k, false), Busiest(values, other);
    ItemsFit(values, k, other);
    var p := BusiestPart(values, parts);
    forall q | q in parts ensures PartSum(values, p) - PartSum(values, q) <= b {
      BalancedSpread(values, k, false, b, p, q);
    }
    LoadsAtLeast(values, parts, p, b);
    CoverTotal(values, parts);
    CoverTotal(values, other);
    LoadsAtMost(values, other);
    FactorArithmetic(k, PartSum(values, p), b);
  }

  lemma FactorArithmetic(k: nat, most: int, b: int)
    requires k > 0 && most + (k - 1) * (most - b) <= k * b
    ensures k * most <= (2 * k - 1) * b
  {
    assert (k - 1) * (most - b) == k * most - most - (k - 1) * b;
  }
}
