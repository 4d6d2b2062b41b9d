/** The loop of `karmarkar_karp` on mutable sets. */
module DifferencingSets {
  import opened Wrappers
  import opened Sorting
  import opened Sequences
  import opened KarmarkarKarp

  class PartSet {
    var sum: int
    var items: seq<Item>

    function Value(): Bin
      reads this
    {
      Bin(sum, items)
    }

    constructor ()
      ensures Value() == EmptyBin
    {
      sum, items := 0, [];
    }

    method Add(idx: nat, val: int)
      modifies this
      ensures Value() == Bin(old(sum) + val, old(items) + [Item(idx, val)])
    {
      items := items + [Item(idx, val)];
      sum := sum + val;
    }

    method Merge(other: PartSet)
      requires other != this
      modifies this
      ensures Value() == MergeBin(old(Value()), old(other.Value()))
    {
      for i := 0 to |other.items|
        invariant other.items == old(other.items)
        invariant items == old(items) + other.items[..i]
        invariant sum == old(sum) + Total(other.items[..i])
      {
        var item := other.items[i];
        items := items + [item];
        sum := sum + item.val;
        assert other.items[..i + 1] == other.items[..i] + [item];
        SumLast(other.items[..i], item, Val);
      }
      assert other.items[..|other.items|] == other.items;
    }
  }

  function Values(sets: seq<PartSet>): (r: Bins)
    reads sets
    ensures |r| == |sets| && forall i :: 0 <= i < |sets| ==> r[i] == sets[i].Value()
  {
    seq(|sets|, i requires 0 <= i < |sets| reads sets => sets[i].Value())
  }

  /** `sorted(sets, reverse=True)`: the same objects in the order of their values. */
  method SortedReverse(sets: seq<PartSet>) returns (r: seq<PartSet>)
    ensures Values(r) == Arrange(Values(sets))
    ensures multiset(r) == multiset(sets)
  {
    hide Sort;
    r := [];
    ghost var values := Values(sets);
    assert values[..0] == [] && Sort(values[..0], More) == [] by { EmptySort(); }
    for n := 0 to |sets|
      invariant Values(r) == Sort(values[..n], More)
      invariant multiset(r) == multiset(sets[..n])
    {
      var p := Place(Values(r), sets[n].Value(), More);
      SortNext(values, n, More);
      assert sets[..n + 1] == sets[..n] + [sets[n]];
      r := InsertAt(r, sets[n], p);
    }
    assert sets[..|sets|] == sets && values[..|sets|] == values;
  }

  lemma EmptySort()
    ensures Sort([], More) == []
  {
  }

  function InsertAt(sets: seq<PartSet>, x: PartSet, p: nat): (r: seq<PartSet>)
    requires p <= |sets|
    reads sets, x
    ensures Values(r) == Values(sets)[..p] + [x.Value()] + Values(sets)[p..]
    ensures multiset(r) == multiset(sets) + multiset{x}
  {
    assert sets == sets[..p] + sets[p..];
    sets[..p] + [x] + sets[p..]
  }

  ghost predicate AllDistinct(sets: seq<PartSet>) {
    forall i, j :: 0 <= i < j < |sets| ==> sets[i] != sets[j]
  }

  lemma PermutedStayDistinct(a: seq<PartSet>, b: seq<PartSet>)
    requires AllDistinct(a) && multiset(a) == multiset(b)
    ensures AllDistinct(b) && forall x :: x in a <==> x in b
  {
    forall x ensures x in a <==> x in b {
      assert x in multiset(a) <==> x in multiset(b);
    }
    forall i, j | 0 <= i < j < |b| ensures b[i] != b[j] {
      if b[i] == b[j] {
        assert b == b[..i] + [b[i]] + b[i + 1..j] + [b[j]] + b[j + 1..];
        assert multiset(b)[b[i]] >= 2;
        assert b[i] in a;
        AtMostOnce(a, b[i]);
      }
    }
  }

  lemma AtMostOnce(a: seq<PartSet>, x: PartSet)
    requires AllDistinct(a)
    ensures multiset(a)[x] <= 1
  {
    if x in a {
      var i := Find(a, x);
      RemoveMultiset(a, i);
      assert x !in Remove(a, i);
    }
  }

  /** Each set takes over the items of its opposite in the other state. */
  method MergeReversed(mine: seq<PartSet>, theirs: seq<PartSet>)
    requires |mine| == |theirs| && AllDistinct(mine) && forall p :: p in mine ==> p !in theirs
    modifies mine
    ensures Values(mine) == old(Joined(Values(mine), Values(theirs)))
  {
    var k := |mine|;
    ghost var was, add := Values(mine), Values(theirs);
    forall i, j | 0 <= i < k && 0 <= j < k ensures mine[i] in mine && mine[i] != theirs[j] {
      assert mine[i] in mine && theirs[j] in theirs;
    }
    for i := 0 to k
      invariant forall j :: 0 <= j < k ==> theirs[j].Value() == add[j]
      invariant forall j :: 0 <= j < k ==>
        mine[j].Value() == if j < i then MergeBin(was[j], add[k - 1 - j]) else was[j]
    {
      mine[i].Merge(theirs[k - 1 - i]);
    }
  }

  method EmptyRow(k: nat) returns (row: seq<PartSet>)
    ensures |row| == k && AllDistinct(row) && fresh(row)
    ensures forall i :: 0 <= i < k ==> row[i].Value() == EmptyBin
  {
    row := [];
    for i := 0 to k
      invariant |row| == i && AllDistinct(row) && fresh(row)
      invariant forall j :: 0 <= j < i ==> row[j].Value() == EmptyBin
    {
      var p := new PartSet();
      row := row + [p];
    }
  }

  method FillRow(row: seq<PartSet>, items: seq<Item>)
    requires |items| <= |row| && AllDistinct(row) && forall i :: 0 <= i < |row| ==> row[i].Value() == EmptyBin
    modifies row
    ensures Values(row) == Singles(items, |row|)
  {
    for i := 0 to |items|
      invariant forall j :: 0 <= j < |row| ==>
        row[j].Value() == if j < i then Bin(items[j].val, [items[j]]) else EmptyBin
    {
      assert row[i] in row;
      row[i].Add(items[i].idx, items[i].val);
    }
  }

  class State {
    const k: nat
    ghost const Repr: set<PartSet>  // merging moves items between sets, never sets between states
    var sets: seq<PartSet>

    ghost predicate Valid()
      reads this
    {
      |sets| == k > 0 && AllDistinct(sets) && forall p :: p in sets ==> p in Repr
    }

    function Value(): (r: Bins)
      requires Valid()
      reads this, Repr
      ensures |r| == k
    {
      Values(sets)
    }

    constructor (items: seq<Item>, k: nat)
      requires k > 0 && (|items| == 1 || |items| == k)
      ensures Valid() && this.k == k && Value() == NewState(items, k)
      ensures fresh(Repr)
    {
      var row := EmptyRow(k);
      FillRow(row, items);
      var arranged := SortedReverse(row);
      PermutedStayDistinct(row, arranged);
      this.k := k;
      Repr := set p | p in row;
      sets := arranged;
    }

    method MergeWith(other: State)
      requires Valid() && other.Valid() && other.k == k
      requires other != this && Repr !! other.Repr
      modifies this, Repr
      ensures Valid() && Value() == Merge(old(Value()), old(other.Value()))
    {
      var mine := sets;
      MergeReversed(mine, other.sets);
      sets := SortedReverse(mine);
      PermutedStayDistinct(mine, sets);
    }

    method GetPartitions() returns (parts: seq<seq<nat>>)
      requires Valid()
      ensures parts == Partitions(Value())
    {
      parts := [];
      for i := 0 to |sets|
        invariant parts == Partitions(Value())[..i]
      {
        var part: seq<nat> := [];
        for j := 0 to |sets[i].items|
          invariant part == Indices(sets[i].Value())[..j]
        {
          part := part + [sets[i].items[j].idx];
        }
        assert part == Indices(sets[i].Value()) == Partitions(Value())[i];
        parts := parts + [part];
      }
    }
  }

  // ---------- The loop over the heap ----------

  ghost predicate Separate(a: State, b: State) {
    a != b && a.Repr !! b.Repr
  }

  /** No two states of the heap share a set. */
  ghost predicate Apart(heap: seq<State>) {
    forall i, j :: 0 <= i < |heap| && 0 <= j < |heap| && i != j ==> Separate(heap[i], heap[j])
  }

  /** `heappop`: take a smallest state off the heap. Only the order of states decides which one that is. */
  method HeapPop(heap: seq<State>, ghost values: seq<Bins>, k: nat) returns (b: nat)
    requires |heap| == |values| > 0 && k > 0 && AllSized(values, k)
    requires forall i :: 0 <= i < |heap| ==> heap[i].Valid() && heap[i].Value() == values[i]
    ensures b == Best(values, k)
  {
    b := 0;
    for n := 1 to |heap|
      invariant AllSized(values[..n], k) && b == Best(values[..n], k)
    {
      assert values[..n + 1][..n] == values[..n];
      if StateLess(heap[n].Value(), heap[b].Value()) {
        b := n;
      }
    }
    assert values[..|heap|] == values;
  }

  /** The objects a heap of states consists of; heap-independent, because states keep their sets for life. */
  ghost function Footprint(heap: seq<State>): set<object> {
    (set s | s in heap) + (set s, p | s in heap && p in s.Repr :: p)
  }

  /** The heap holds exactly these values, in states of its own. */
  ghost predicate Holds(heap: seq<State>, values: seq<Bins>, k: nat)
    reads heap, set s, p | s in heap && p in s.Repr :: p
  {
    |heap| == |values| && AllSized(values, k) && Apart(heap) &&
    forall i :: 0 <= i < |heap| ==> heap[i].Valid() && heap[i].k == k && heap[i].Value() == values[i]
  }

  lemma HoldsRemove(heap: seq<State>, values: seq<Bins>, k: nat, i: nat)
    requires Holds(heap, values, k) && i < |heap|
    ensures Holds(Remove(heap, i), Remove(values, i), k)
    ensures forall s :: s in Remove(heap, i) ==> s in heap && Separate(s, heap[i]) && Separate(heap[i], s)
  {
    var rest := Remove(heap, i);
    assert forall j :: 0 <= j < |rest| ==> rest[j] == heap[if j < i then j else j + 1];
  }

  lemma HoldsAdd(heap: seq<State>, values: seq<Bins>, k: nat, s: State)
    requires Holds(heap, values, k) && s.Valid() && s.k == k
    requires forall t :: t in heap ==> Separate(t, s) && Separate(s, t)
    ensures Holds(heap + [s], values + [s.Value()], k)
  {
  }

  /** The two pops of a round. */
  method PopTwo(heap: seq<State>, ghost values: seq<Bins>, k: nat)
    returns (state0: State, state1: State, others: seq<State>, ghost left: seq<Bins>)
    requires |heap| > 1 && k > 0 && Holds(heap, values, k)
    ensures state0 in heap && state1 in heap && Separate(state0, state1) && state0.Valid() && state1.Valid()
    ensures state0.k == state1.k == k && Holds(others, left, k)
    ensures forall s :: s in others ==> s in heap && Separate(s, state0) && Separate(state0, s)
    ensures left + [Merge(state0.Value(), state1.Value())] == Round(values, k)
  {
    hide Apart, AllDistinct, Merge, Best, Separate;
    var i := HeapPop(heap, values, k);
    var rest := Remove(heap, i);
    HoldsRemove(heap, values, k, i);
    var j := HeapPop(rest, Remove(values, i), k);
    HoldsRemove(rest, Remove(values, i), k, j);
    state0, state1, others, left := heap[i], rest[j], Remove(rest, j), Remove(Remove(values, i), j);
    assert state1 in rest && state0 in heap;
  }

  /** One round: pop twice, merge, push. */
  method MergeRound(heap: seq<State>, ghost values: seq<Bins>, k: nat) returns (next: seq<State>)
    requires |heap| > 1 && k > 0 && Holds(heap, values, k)
    modifies Footprint(heap)
    ensures Holds(next, Round(values, k), k)
    ensures Footprint(next) <= Footprint(heap)
  {
    hide Round, AllDistinct;
    ghost var left;
    var state0, state1, others;
    state0, state1, others, left := PopTwo(heap, values, k);
    ghost var merged := Merge(state0.Value(), state1.Value());
    assert forall i :: 0 <= i < |others| ==> others[i] in others;
    MergeInto(state0, state1, others, left);
    HoldsAdd(others, left, k, state0);
    next := others + [state0];
  }

  /** A merge leaves the other states alone. */
  method MergeInto(state0: State, state1: State, ghost others: seq<State>, ghost left: seq<Bins>)
    requires state0.Valid() && state1.Valid() && state0.k == state1.k && Separate(state0, state1)
    requires |others| == |left| && forall i :: 0 <= i < |others| ==>
      Separate(others[i], state0) && others[i].Valid() && others[i].Value() == left[i]
    modifies state0, state0.Repr
    ensures state0.Valid() && state0.Value() == Merge(old(state0.Value()), old(state1.Value()))
    ensures forall i :: 0 <= i < |others| ==> others[i].Valid() && others[i].Value() == left[i]
  {
    state0.MergeWith(state1);
  }

  /** The items of state b: one, or a block of k. */
  function HeapItemsAt(sorted: seq<Item>, k: nat, equalSize: bool, b: nat): (items: seq<Item>)
    requires k > 0 && b < if equalSize then |sorted| / k else |sorted|
    ensures |items| == if equalSize then k else 1
  {
    if equalSize then
      BlockInRange(|sorted|, k, b);
      sorted[b * k..b * k + k]
    else [sorted[b]]
  }

  lemma HeapStateAt(values: seq<int>, k: nat, equalSize: bool, b: nat)
    requires k > 0 && (equalSize ==> |values| % k == 0) && b < if equalSize then |values| / k else |values|
    ensures var heap := InitialHeap(values, k, equalSize);
      b < |heap| && heap[b] == NewState(HeapItemsAt(SortedItems(values), k, equalSize, b), k)
  {
    hide NewState, SortedItems;
  }

  /** The first loops of `karmarkar_karp`: one state for each item, or for each block of k. */
  method BuildHeap(values: seq<int>, k: nat, equalSize: bool) returns (heap: seq<State>)
    requires k > 0 && (equalSize ==> |values| % k == 0)
    ensures Holds(heap, InitialHeap(values, k, equalSize), k)
    ensures fresh(Footprint(heap))
  {
    hide NewState, Holds, Apart, SortedItems, InitialHeap, HeapItemsAt;
    var sorted := SortedItems(values);
    ghost var target := InitialHeap(values, k, equalSize);
    heap := [];
    HoldsNothing(k);
    assert target[..0] == [];
    for b := 0 to if equalSize then |values| / k else |values|
      invariant Holds(heap, target[..b], k)
      invariant forall s :: s in heap ==> fresh(s) && fresh(s.Repr)
    {
      var items := HeapItemsAt(sorted, k, equalSize, b);
      HeapStateAt(values, k, equalSize, b);
      var s := new State(items, k);
      HoldsAdd(heap, target[..b], k, s);
      assert target[..b + 1] == target[..b] + [s.Value()];
      heap := heap + [s];
    }
    assert target[..|target|] == target;
  }

  /** `karmarkar_karp` computes the method on values. */
  method KarmarkarKarpLoop(values: seq<int>, k: nat, equalSize: bool) returns (r: Result<seq<seq<nat>>>)
    requires k > 0
    ensures r == Differencing(values, k, equalSize)
  {
    hide Round, InitialHeap, Holds, Footprint;
    if equalSize && |values| % k != 0 {
      return Raised;
    }
    var heap := BuildHeap(values, k, equalSize);
    ghost var now := InitialHeap(values, k, equalSize);
    HeapSize(heap, now, k);
    if |heap| == 0 {
      return Raised;
    }
    FirstBlock(|values|, k, equalSize);
    while |heap| > 1
      invariant |heap| > 0 && |heap| == |now| && AllSized(now, k) && Holds(heap, now, k)
      invariant fresh(Footprint(heap))
      invariant Reduce(now, k) == Reduce(InitialHeap(values, k, equalSize), k)
      decreases |heap|
    {
      heap := MergeRound(heap, now, k);
      now := Round(now, k);
      HeapSize(heap, now, k);
    }
    HeapFirst(heap, now, k);
    var parts := heap[0].GetPartitions();
    if equalSize {
      for i := 0 to |parts|
        invariant forall j :: 0 <= j < i ==> |parts[j]| * |parts| == |values|
      {
        if |parts[i]| * k != |values| {
          return Raised;
        }
      }
    }
    return Ok(parts);
  }

  lemma HoldsNothing(k: nat)
    ensures Holds([], [], k)
  {
  }

  lemma HeapSize(heap: seq<State>, values: seq<Bins>, k: nat)
    requires Holds(heap, values, k)
    ensures |heap| == |values| && AllSized(values, k)
  {
  }

  lemma HeapFirst(heap: seq<State>, values: seq<Bins>, k: nat)
    requires Holds(heap, values, k) && |heap| > 0
    ensures |heap| == |values| && heap[0].Valid() && heap[0].Value() == values[0] && |values[0]| == k
  {
  }
}
