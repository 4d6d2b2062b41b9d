/** Any heap that pops a least state computes what `karmarkar_karp` computes. */
module HeapChoice {
  import opened Sorting
  import opened Sequences
  import opened KarmarkarKarp
  import opened KarmarkarKarpInvariant
  import opened KarmarkarKarpRuns
  import opened BalancedPartitions

  // ---------- The least state is never tied ----------

  /** A heap in the middle of a run: no item is in it twice, and no state is without items. */
  ghost predicate HeapOf(values: seq<int>, heap: seq<Bins>, k: nat) {
    k > 0 && AllSized(heap, k) && (forall s :: s in heap ==> Filled(s, k) && ItemsOf(s) != []) &&
    multiset(HeapItems(heap)) <= multiset(Items(values))
  }

  lemma {:induction false} StateInHeap(heap: seq<Bins>, i: nat, item: Item)
    requires i < |heap| && item in ItemsOf(heap[i])
    ensures item in HeapItems(heap)
  {
    RemoveItems(heap, i);
    assert item in multiset(ItemsOf(heap[i]));
    assert item in multiset(HeapItems(heap));
  }

  lemma SharedItem(heap: seq<Bins>, p: nat, q: nat, item: Item)
    requires p < q < |heap| && item in ItemsOf(heap[p]) && item in ItemsOf(heap[q])
    ensures multiset(HeapItems(heap))[item] >= 2
  {
    hide ItemsOf, HeapItems;
    RemoveItems(heap, q);
    assert Remove(heap, q)[p] == heap[p];
    StateInHeap(Remove(heap, q), p, item);
    assert multiset(ItemsOf(heap[q]))[item] >= 1 && multiset(HeapItems(Remove(heap, q)))[item] >= 1;
  }

  /** The least state of a heap is smaller than every other. */
  lemma PopsAreForced(values: seq<int>, heap: seq<Bins>, k: nat, i: nat)
    requires HeapOf(values, heap, k) && i < |heap|
    ensures i != Best(heap, k) ==> StateLess(heap[Best(heap, k)], heap[i])
  {
    forall p, q | 0 <= p < q < |heap|
      ensures StateLess(heap[p], heap[q]) != StateLess(heap[q], heap[p])
    {
      DistinctStates(values, heap, k, p, q);
    }
    BestIsLeast(heap, k, i);
  }

  lemma DistinctStates(values: seq<int>, heap: seq<Bins>, k: nat, p: nat, q: nat)
    requires HeapOf(values, heap, k) && p < q < |heap|
    ensures StateLess(heap[p], heap[q]) != StateLess(heap[q], heap[p])
  {
    hide Sound, InUse, HeapItems, Less;
    FilledPrefix(heap[p], k, 0);
    forall item | item in heap[p][0].items ensures item !in heap[q][0].items {
      if item in heap[q][0].items {
        ItemOfBin(heap[p], 0, item);
        ItemOfBin(heap[q], 0, item);
        SharedItem(heap, p, q, item);
        ItemOnce(values, item);
      }
    }
    NoTies(heap[p], heap[q]);
  }

  lemma ItemOnce(values: seq<int>, item: Item)
    ensures multiset(Items(values))[item] <= 1
  {
    if item in Items(values) {
      var items := Items(values);
      var i := Find(items, item);
      RemoveMultiset(items, i);
      assert item !in Remove(items, i);
    }
  }

  // ---------- Reachable heaps ----------

  lemma RestOfHeap(values: seq<int>, heap: seq<Bins>, k: nat, i: nat)
    requires HeapOf(values, heap, k) && i < |heap|
    ensures HeapOf(values, Remove(heap, i), k)
  {
    hide HeapItems, ItemsOf, Filled;
    RemoveItems(heap, i);
  }

  lemma AddToHeap(values: seq<int>, heap: seq<Bins>, k: nat, s: Bins)
    requires HeapOf(values, heap, k) && |s| == k && Filled(s, k) && ItemsOf(s) != []
    requires multiset(HeapItems(heap)) + multiset(ItemsOf(s)) <= multiset(Items(values))
    ensures HeapOf(values, heap + [s], k)
  {
    hide HeapItems, ItemsOf, Filled;
    AddItems(heap, s);
  }

  lemma RoundKeepsHeap(values: seq<int>, heap: seq<Bins>, k: nat)
    requires HeapOf(values, heap, k) && |heap| > 1
    ensures HeapOf(values, Round(heap, k), k)
  {
    hide HeapItems, ItemsOf, SoundBin, Ordered, InUse, Merge;
    var i := Best(heap, k);
    var rest := Remove(heap, i);
    RestOfHeap(values, heap, k, i);
    var j := Best(rest, k);
    RestOfHeap(values, rest, k, j);
    RemoveItems(heap, i);
    RemoveItems(rest, j);
    assert heap[i] in heap && rest[j] in rest;
    MergeItems(heap[i], rest[j]);
    MergeFilled(heap[i], rest[j], k);
    AddToHeap(values, Remove(rest, j), k, Merge(heap[i], rest[j]));
  }

  lemma StateHasItems(items: seq<Item>, k: nat)
    requires 0 < |items| <= k && NonNegative(items)
    ensures var s := NewState(items, k);
      |s| == k && Filled(s, k) && ItemsOf(s) != []
  {
    hide ItemsOf, NewState, SoundBin, Ordered, InUse;
    NewStateShape(items, k);
    var all := ItemsOf(NewState(items, k));
    assert |all| == |multiset(all)| == |multiset(items)| == |items|;
  }

  /** The heap that the run starts from. */
  lemma InitialHeapIsHeap(values: seq<int>, k: nat, equalSize: bool)
    requires k > 0 && (equalSize ==> |values| % k == 0) && forall i :: 0 <= i < |values| ==> values[i] >= 0
    ensures HeapOf(values, InitialHeap(values, k, equalSize), k)
  {
    hide HeapItems, ItemsOf, Filled, NewState, SortedItems, SpreadLimit, Good;
    var limit := SomeLimit(values, k, equalSize);
    InitialHeapGood(values, k, equalSize, limit);
    SortedItemsShape(values);
    var sorted, heap := SortedItems(values), InitialHeap(values, k, equalSize);
    forall s | s in heap ensures Filled(s, k) && ItemsOf(s) != [] {
      var i := Find(heap, s);
      if equalSize {
        BlockInRange(|values|, k, i);
        var block := sorted[i * k..i * k + k];
        assert forall item :: item in block ==> item in sorted;
        StateHasItems(block, k);
      } else {
        assert sorted[i] in sorted;
        StateHasItems([sorted[i]], k);
      }
    }
  }

  // ---------- Runs of any heap ----------

  /** What a heap may pop: a state that no other is smaller than. */
  ghost predicate MayPop(states: multiset<Bins>, s: Bins) {
    s in states && |s| > 0 && forall t :: t in states && |t| > 0 ==> !StateLess(t, s)
  }

  /** A round of any heap: two pops, one after the other, and the merged state is pushed. */
  ghost predicate AnyRound(states: multiset<Bins>, next: multiset<Bins>) {
    exists a, b :: MayPop(states, a) && MayPop(states - multiset{a}, b) && |a| == |b| &&
      next == states - multiset{a} - multiset{b} + multiset{Merge(a, b)}
  }

  lemma StateLessAsymmetric(a: Bins, b: Bins)
    requires |a| > 0 && |b| > 0 && StateLess(a, b)
    ensures !StateLess(b, a)
  {
    hide Less;
    LessTotal(b[0], a[0]);
  }

  lemma OnlyTheBest(values: seq<int>, heap: seq<Bins>, k: nat, s: Bins)
    requires HeapOf(values, heap, k) && heap != []
    ensures MayPop(multiset(heap), s) <==> s == heap[Best(heap, k)]
    ensures multiset(Remove(heap, Best(heap, k))) == multiset(heap) - multiset{heap[Best(heap, k)]}
  {
    hide Filled, HeapItems, ItemsOf, StateLess, Best;
    var b := Best(heap, k);
    assert heap[b] in multiset(heap);
    RemoveMultiset(heap, b);
    if s in heap {
      var i := Find(heap, s);
      PopsAreForced(values, heap, k, i);
    }
    forall t | t in multiset(heap) ensures !StateLess(t, heap[b]) {
      var i := Find(heap, t);
      PopsAreForced(values, heap, k, i);
      if i != b {
        StateLessAsymmetric(heap[b], t);
      } else {
        Irreflexive(t);
      }
    }
  }

  lemma Irreflexive(s: Bins)
    requires |s| > 0
    ensures !StateLess(s, s)
  {
    hide Less;
    LessTotal(s[0], s[0]);
  }

  /** On a reachable heap every way of keeping it makes the same round. */
  lemma AnyRoundIsRound(values: seq<int>, heap: seq<Bins>, k: nat, next: multiset<Bins>)
    requires HeapOf(values, heap, k) && |heap| > 1
    ensures AnyRound(multiset(heap), next) <==> next == multiset(Round(heap, k))
  {
    hide HeapOf, Best, Merge, MayPop, HeapItems, Remove;
    HeapShape(values, heap, k);
    RoundStates(heap, k);
    var i := Best(heap, k);
    RemoveMultiset(heap, i);
    var rest := Remove(heap, i);
    RestOfHeap(values, heap, k, i);
    var j := Best(rest, k);
    OnlyTheBest(values, heap, k, heap[i]);
    OnlyTheBest(values, rest, k, rest[j]);
    if AnyRound(multiset(heap), next) {
      var a, b :| MayPop(multiset(heap), a) && MayPop(multiset(heap) - multiset{a}, b) && |a| == |b| &&
        next == multiset(heap) - multiset{a} - multiset{b} + multiset{Merge(a, b)};
      OnlyTheBest(values, heap, k, a);
      OnlyTheBest(values, rest, k, b);
    }
  }

  lemma HeapShape(values: seq<int>, heap: seq<Bins>, k: nat)
    requires HeapOf(values, heap, k)
    ensures k > 0 && AllSized(heap, k)
  {
  }

  /** Whatever heaps are used, a run that merges until one state is left ends with the same state. */
  lemma {:induction false} AnyRunEndsTheSame(values: seq<int>, heap: seq<Bins>, k: nat, run: seq<multiset<Bins>>)
    requires HeapOf(values, heap, k) && |run| == |heap| > 0 && run[0] == multiset(heap)
    requires forall n :: 0 <= n < |run| - 1 ==> AnyRound(run[n], run[n + 1])
    ensures run[|run| - 1] == multiset{Reduce(heap, k)}
    decreases |run|
  {
    hide HeapOf, AnyRound, Round;
    HeapShape(values, heap, k);
    if |heap| == 1 {
      assert heap == [heap[0]];
    } else {
      AnyRoundIsRound(values, heap, k, run[1]);
      RoundKeepsHeap(values, heap, k);
      AnyRunEndsTheSame(values, Round(heap, k), k, run[1..]);
    }
  }

  /** So the partition does not depend on how the heap is kept, only on the order of the states. */
  lemma HeapDoesNotMatter(values: seq<int>, k: nat, equalSize: bool, run: seq<multiset<Bins>>)
    requires k > 0 && |values| > 0 && (equalSize ==> |values| % k == 0)
    requires forall i :: 0 <= i < |values| ==> values[i] >= 0
    requires var heap := InitialHeap(values, k, equalSize);
      |run| == |heap| > 0 && run[0] == multiset(heap)
    requires forall n :: 0 <= n < |run| - 1 ==> AnyRound(run[n], run[n + 1])
    ensures run[|run| - 1] == multiset{Final(values, k, equalSize)}
  {
    hide HeapOf, AnyRound, Reduce, InitialHeap;
    InitialHeapIsHeap(values, k, equalSize);
    AnyRunEndsTheSame(values, InitialHeap(values, k, equalSize), k, run);
  }
}
