/** The whole differencing run: the first heap, every round, and the state that is left. */
module KarmarkarKarpRuns {
  import opened Sorting
  import opened Sequences
  import opened KarmarkarKarp
  import opened KarmarkarKarpInvariant

  // ---------- What the whole reduction keeps ----------

  ghost predicate Good(s: Bins, k: nat, limit: int, equalSize: bool) {
    Filled(s, k) && Spread(s) <= limit && (equalSize ==> exists size :: Uniform(s, size))
  }

  lemma MergeGood(a: Bins, b: Bins, k: nat, limit: int, equalSize: bool)
    requires Good(a, k, limit, equalSize) && Good(b, k, limit, equalSize)
    ensures Good(Merge(a, b), k, limit, equalSize)
  {
    hide SoundBin, Ordered, More, InUse, ItemsOf, Joined;
    MergeFilled(a, b, k);
    MergeSpread(a, b, k);
    if equalSize {
      var p :| Uniform(a, p);
      var q :| Uniform(b, q);
      MergeUniform(a, b, p, q);
    }
  }

  ghost predicate AllGood(heap: seq<Bins>, k: nat, limit: int, equalSize: bool) {
    k > 0 && AllSized(heap, k) && forall s :: s in heap ==> Good(s, k, limit, equalSize)
  }

  function HeapItems(heap: seq<Bins>): seq<Item> { Flatten(Map(ItemsOf, heap)) }

  lemma RemoveItems(heap: seq<Bins>, i: nat)
    requires i < |heap|
    ensures multiset(HeapItems(Remove(heap, i))) + multiset(ItemsOf(heap[i])) == multiset(HeapItems(heap))
  {
    assert Map(ItemsOf, Remove(heap, i)) == Remove(Map(ItemsOf, heap), i);
    FlattenRemove(Map(ItemsOf, heap), i);
  }

  lemma AddItems(heap: seq<Bins>, s: Bins)
    ensures HeapItems(heap + [s]) == HeapItems(heap) + ItemsOf(s)
  {
    assert Map(ItemsOf, heap + [s]) == Map(ItemsOf, heap) + [ItemsOf(s)];
    FlattenConcat(Map(ItemsOf, heap), [ItemsOf(s)]);
    assert Flatten([ItemsOf(s)]) == ItemsOf(s);
  }

  /** A round loses no item and keeps every state good. */
  lemma RoundKeeps(heap: seq<Bins>, k: nat, limit: int, equalSize: bool)
    requires |heap| > 1 && AllGood(heap, k, limit, equalSize)
    ensures AllGood(Round(heap, k), k, limit, equalSize)
    ensures multiset(HeapItems(Round(heap, k))) == multiset(HeapItems(heap))
  {
    hide Good, Merge, ItemsOf, HeapItems, Best;
    var i := Best(heap, k);
    var rest := Remove(heap, i);
    var j := Best(rest, k);
    RemoveItems(heap, i);
    RemoveItems(rest, j);
    AddItems(Remove(rest, j), Merge(heap[i], rest[j]));
    MergeItems(heap[i], rest[j]);
    MergeGood(heap[i], rest[j], k, limit, equalSize);
  }

  lemma RoundStates(heap: seq<Bins>, k: nat)
    requires |heap| > 1 && k > 0 && AllSized(heap, k)
    ensures var i := Best(heap, k);
      var rest := Remove(heap, i);
      |rest| > 0 && AllSized(rest, k) &&
      var j := Best(rest, k);
      multiset(Round(heap, k)) == multiset(rest) - multiset{rest[j]} + multiset{Merge(heap[i], rest[j])}
  {
    hide Best, Merge;
    var rest := Remove(heap, Best(heap, k));
    RemoveMultiset(rest, Best(rest, k));
  }

  lemma RestAt<T>(s: seq<T>, i: nat, p: nat)
    requires i < |s| && p < |s| && p != i
    ensures var q := if p < i then p else p - 1;
      q < |Remove(s, i)| && Remove(s, i)[q] == s[p]
  {
  }

  lemma BestOfRest(heap: seq<Bins>, k: nat, i: nat, p: nat)
    requires |heap| > 1 && k > 0 && AllSized(heap, k) && i < |heap| && p < |heap| && p != i
    ensures AllSized(Remove(heap, i), k) && GoesFirst(Remove(heap, i)[Best(Remove(heap, i), k)], heap[p])
  {
    hide GoesFirst, Best;
    RestAt(heap, i, p);
    BestGoesFirst(Remove(heap, i), k, if p < i then p else p - 1);
  }

  lemma SecondPop(heap: seq<Bins>, k: nat, i: nat) returns (j: nat)
    requires |heap| > 1 && k > 0 && AllSized(heap, k) && i < |heap|
    ensures AllSized(Remove(heap, i), k)
    ensures j < |heap| && j != i && heap[j] == Remove(heap, i)[Best(Remove(heap, i), k)]
    ensures forall p :: 0 <= p < |heap| && p != i ==> GoesFirst(heap[j], heap[p])
  {
    hide GoesFirst, Best;
    var at := Best(Remove(heap, i), k);
    j := if at < i then at else at + 1;
    forall p | 0 <= p < |heap| && p != i ensures GoesFirst(heap[j], heap[p]) {
      BestOfRest(heap, k, i, p);
    }
  }

  /** Each round merges the state with the largest difference with the one that has the largest of the rest. */
  lemma RoundMergesLargest(heap: seq<Bins>, k: nat) returns (i: nat, j: nat)
    requires |heap| > 1 && k > 0 && AllSized(heap, k)
    ensures i < |heap| && forall p :: 0 <= p < |heap| ==> GoesFirst(heap[i], heap[p])
    ensures j < |heap| && j != i && forall p :: 0 <= p < |heap| && p != i ==> GoesFirst(heap[j], heap[p])
    ensures multiset(Round(heap, k)) == multiset(heap) - multiset{heap[i]} - multiset{heap[j]} + multiset{Merge(heap[i], heap[j])}
  {
    hide GoesFirst, Best, Merge, Round, Remove;
    RoundStates(heap, k);
    i := Best(heap, k);
    j := SecondPop(heap, k, i);
    RemoveMultiset(heap, i);
    forall p | 0 <= p < |heap| ensures GoesFirst(heap[i], heap[p]) {
      BestGoesFirst(heap, k, p);
    }
  }

  lemma {:induction false} ReduceKeeps(heap: seq<Bins>, k: nat, limit: int, equalSize: bool)
    requires |heap| > 0 && AllGood(heap, k, limit, equalSize)
    ensures Good(Reduce(heap, k), k, limit, equalSize)
    ensures multiset(ItemsOf(Reduce(heap, k))) == multiset(HeapItems(heap))
    decreases |heap|
  {
    if |heap| == 1 {
      AddItems([], heap[0]);
      assert [] + [heap[0]] == heap;
    } else {
      RoundKeeps(heap, k, limit, equalSize);
      ReduceKeeps(Round(heap, k), k, limit, equalSize);
    }
  }

  // ---------- The first heap ----------

  lemma {:induction false} SinglesPrefix(items: seq<Item>, k: nat, n: nat)
    requires |items| <= k && n <= k
    ensures ItemsOf(Singles(items, k)[..n]) == items[..Min(n, |items|)]
    ensures InUse(Singles(items, k)[..n]) == Min(n, |items|)
  {
    if n > 0 {
      var s := Singles(items, k);
      SinglesPrefix(items, k, n - 1);
      LastBin(s, n - 1);
      assert s[..n][..n - 1] == s[..n - 1];
    }
  }

  ghost predicate NonNegative(items: seq<Item>) {
    forall item :: item in items ==> item.val >= 0
  }

  lemma SingleBinSound(item: Item)
    requires item.val >= 0
    ensures SoundBin(Bin(item.val, [item]))
  {
    assert Total([item]) == Total([]) + item.val;
  }

  /** A new state is filled, holds its items, and its sums are their values (and zero, if a set is empty). */
  lemma NewStateShape(items: seq<Item>, k: nat)
    requires 0 < |items| <= k && NonNegative(items)
    ensures Filled(NewState(items, k), k)
    ensures multiset(ItemsOf(NewState(items, k))) == multiset(items)
    ensures |items| == k ==> Uniform(NewState(items, k), 1)
    ensures forall bin :: bin in NewState(items, k) ==> bin in Singles(items, k)
  {
    var s := Singles(items, k);
    SinglesPrefix(items, k, k);
    assert s[..k] == s && items[..|items|] == items;
    forall bin | bin in s ensures SoundBin(bin) {
      var i := Find(s, bin);
      if i < |items| {
        SingleBinSound(items[i]);
      }
    }
    ArrangeSound(s, k);
    ArrangeKeepsItems(s);
    ArrangeKeepsUse(s);
    SortMembers(s, More);
    assert |ItemsOf(NewState(items, k))| == |multiset(ItemsOf(NewState(items, k)))| == |items|;
  }

  lemma SingleStateGood(item: Item, k: nat, limit: int)
    requires k > 0 && 0 <= item.val <= limit
    ensures Good(NewState([item], k), k, limit, false)
    ensures multiset(ItemsOf(NewState([item], k))) == multiset{item}
  {
    hide Filled, ItemsOf;
    NewStateShape([item], k);
    var s := NewState([item], k);
    assert s[0] in s && s[k - 1] in s;
    var i := Find(Singles([item], k), s[0]);
    var j := Find(Singles([item], k), s[k - 1]);
  }

  lemma BlockStateGood(items: seq<Item>, k: nat, limit: int)
    requires |items| == k > 0 && NonNegative(items)
    requires forall i, j :: 0 <= i < k && 0 <= j < k ==> items[i].val - items[j].val <= limit
    ensures Good(NewState(items, k), k, limit, true)
    ensures multiset(ItemsOf(NewState(items, k))) == multiset(items)
  {
    hide Filled, ItemsOf;
    NewStateShape(items, k);
    var s := NewState(items, k);
    assert s[0] in s && s[k - 1] in s;
    var i := Find(Singles(items, k), s[0]);
    var j := Find(Singles(items, k), s[k - 1]);
  }

  lemma PairLessIsAnOrder()
    ensures StrictWeak(PairLess)
  {
  }

  lemma SortedItemsShape(values: seq<int>)
    requires forall i :: 0 <= i < |values| ==> values[i] >= 0
    ensures multiset(SortedItems(values)) == multiset(Items(values))
    ensures NonNegative(SortedItems(values))
    ensures forall i, j :: 0 <= i <= j < |values| ==>
      var a, b := SortedItems(values)[i], SortedItems(values)[j];
      a.val < b.val || (a.val == b.val && a.idx <= b.idx)
    ensures forall item :: item in SortedItems(values) ==> exists i :: 0 <= i < |values| && item == Item(i, values[i])
  {
    hide Sort, StrictWeak;
    PairLessIsAnOrder();
    SortOrders(Items(values), PairLess);
    SortPermutes(Items(values), PairLess);
    SortMembers(Items(values), PairLess);
    forall item | item in SortedItems(values)
      ensures item.val >= 0 && exists i :: 0 <= i < |values| && item == Item(i, values[i])
    {
      ItemShape(values, item);
    }
  }

  lemma ItemShape(values: seq<int>, item: Item)
    requires item in Items(values)
    ensures item.idx < |values| && item == Item(item.idx, values[item.idx])
  {
    var i := Find(Items(values), item);
  }

  /** How far the values inside one sorted block of k lie apart. */
  function BlockGap(values: seq<int>, k: nat, b: nat): int
    requires k > 0 && b < |values| / k
  {
    BlockInRange(|values|, k, b);
    SortedItems(values)[b * k + k - 1].val - SortedItems(values)[b * k].val
  }

  /** The bound on the spread: the largest item, or the largest gap of a block. */
  ghost predicate SpreadLimit(values: seq<int>, k: nat, equalSize: bool, limit: int)
    requires k > 0
  {
    if equalSize then forall b: nat :: b < |values| / k ==> BlockGap(values, k, b) <= limit
    else forall i :: 0 <= i < |values| ==> values[i] <= limit
  }

  lemma {:induction false} SinglesHeapItems(sorted: seq<Item>, k: nat, heap: seq<Bins>, n: nat)
    requires n <= |sorted| == |heap| && k > 0 && NonNegative(sorted)
    requires forall i :: 0 <= i < |heap| ==> heap[i] == NewState([sorted[i]], k)
    ensures multiset(HeapItems(heap[..n])) == multiset(sorted[..n])
  {
    hide NewState, HeapItems, ItemsOf, Uniform, Filled;
    if n == 0 {
      NoItems(heap[..0]);
    } else {
      SinglesHeapItems(sorted, k, heap, n - 1);
      assert sorted[n - 1] in sorted;
      NewStateShape([sorted[n - 1]], k);
      assert heap[..n] == heap[..n - 1] + [heap[n - 1]];
      AddItems(heap[..n - 1], heap[n - 1]);
      assert sorted[..n] == sorted[..n - 1] + [sorted[n - 1]];
    }
  }

  lemma NoItems(heap: seq<Bins>)
    requires heap == []
    ensures HeapItems(heap) == []
  {
  }

  lemma {:induction false} BlocksHeapItems(sorted: seq<Item>, k: nat, heap: seq<Bins>, b: nat)
    requires k > 0 && |heap| == |sorted| / k && b <= |heap| && b * k <= |sorted| && NonNegative(sorted)
    requires forall i :: 0 <= i < |heap| ==> heap[i] == BlockState(sorted, k, i)
    ensures multiset(HeapItems(heap[..b])) == multiset(sorted[..b * k])
  {
    hide NewState, HeapItems, ItemsOf, Uniform, Filled;
    if b == 0 {
      NoItems(heap[..0]);
      assert sorted[..0 * k] == [];
    } else {
      var lo := (b - 1) * k;
      BlockInRange(|sorted|, k, b - 1);
      assert lo + k == b * k;
      BlocksHeapItems(sorted, k, heap, b - 1);
      BlockItems(sorted, k, heap, b - 1, sorted[lo..lo + k]);
      SplitBlock(sorted, lo, k);
    }
  }

  lemma SplitBlock(sorted: seq<Item>, lo: nat, k: nat)
    requires lo + k <= |sorted|
    ensures sorted[..lo + k] == sorted[..lo] + sorted[lo..lo + k]
  {
  }

  lemma BlockItems(sorted: seq<Item>, k: nat, heap: seq<Bins>, b: nat, block: seq<Item>)
    requires k > 0 && b < |heap| && NonNegative(sorted) && |block| == k && forall item :: item in block ==> item in sorted
    requires heap[b] == NewState(block, k)
    ensures multiset(HeapItems(heap[..b + 1])) == multiset(HeapItems(heap[..b])) + multiset(block)
  {
    hide NewState, HeapItems, ItemsOf, Uniform, Filled;
    NewStateShape(block, k);
    assert heap[..b + 1] == heap[..b] + [heap[b]];
    AddItems(heap[..b], heap[b]);
  }

  lemma BlockGood(values: seq<int>, k: nat, limit: int, b: nat)
    requires k > 0 && b < |values| / k && SpreadLimit(values, k, true, limit)
    requires forall i :: 0 <= i < |values| ==> values[i] >= 0
    ensures Good(BlockState(SortedItems(values), k, b), k, limit, true)
  {
    hide Good, NewState, SortedItems;
    SortedItemsShape(values);
    BlockInRange(|values|, k, b);
    var sorted := SortedItems(values);
    var block := sorted[b * k..b * k + k];
    assert BlockGap(values, k, b) <= limit;
    assert forall item :: item in block ==> item in sorted;
    BlockStateGood(block, k, limit);
  }

  lemma WholeBlocks(n: nat, k: nat)
    requires k > 0 && n % k == 0
    ensures n / k * k == n
  {
  }

  /** The heap that the reduction starts from is good and holds every item once. */
  lemma InitialHeapGood(values: seq<int>, k: nat, equalSize: bool, limit: int)
    requires k > 0 && (equalSize ==> |values| % k == 0) && SpreadLimit(values, k, equalSize, limit)
    requires forall i :: 0 <= i < |values| ==> values[i] >= 0
    ensures AllGood(InitialHeap(values, k, equalSize), k, limit, equalSize)
    ensures multiset(HeapItems(InitialHeap(values, k, equalSize))) == multiset(Items(values))
  {
    hide Good, NewState, SortedItems, HeapItems, ItemsOf;
    SortedItemsShape(values);
    var sorted, heap := SortedItems(values), InitialHeap(values, k, equalSize);
    assert heap[..|heap|] == heap && sorted[..|sorted|] == sorted;
    forall s | s in heap ensures Good(s, k, limit, equalSize) {
      var i := Find(heap, s);
      if equalSize {
        BlockGood(values, k, limit, i);
      } else {
        assert sorted[i] in sorted;
        SingleStateGood(sorted[i], k, limit);
      }
    }
    if equalSize {
      WholeBlocks(|values|, k);
      BlocksHeapItems(sorted, k, heap, |heap|);
    } else {
      SinglesHeapItems(sorted, k, heap, |heap|);
    }
  }

  function Final(values: seq<int>, k: nat, equalSize: bool): (s: Bins)
    requires k > 0 && |values| > 0 && (equalSize ==> |values| % k == 0)
    ensures |s| == k
  {
    FirstBlock(|values|, k, equalSize);
    Reduce(InitialHeap(values, k, equalSize), k)
  }

  lemma FinalGood(values: seq<int>, k: nat, equalSize: bool, limit: int)
    requires k > 0 && |values| > 0 && (equalSize ==> |values| % k == 0) && SpreadLimit(values, k, equalSize, limit)
    requires forall i :: 0 <= i < |values| ==> values[i] >= 0
    ensures Good(Final(values, k, equalSize), k, limit, equalSize)
    ensures multiset(ItemsOf(Final(values, k, equalSize))) == multiset(Items(values))
    ensures |ItemsOf(Final(values, k, equalSize))| == |values|
  {
    hide Good, ItemsOf, HeapItems, SpreadLimit;
    FirstBlock(|values|, k, equalSize);
    InitialHeapGood(values, k, equalSize, limit);
    ReduceKeeps(InitialHeap(values, k, equalSize), k, limit, equalSize);
    var items := ItemsOf(Final(values, k, equalSize));
    assert |items| == |multiset(items)| == |multiset(Items(values))| == |values|;
  }
}
