/** The k-way largest differencing method on values: bins, states and the order in which states are merged. */
module KarmarkarKarp {
  import opened Wrappers
  import opened Sorting
  import opened Sequences

  datatype Item = Item(idx: nat, val: int)

  /** One of the k sets of a state. */
  datatype Bin = Bin(sum: int, items: seq<Item>)

  const EmptyBin := Bin(0, [])

  function Val(item: Item): int { item.val }

  function Idx(item: Item): nat { item.idx }

  function Total(items: seq<Item>): int { SumOf(items, Val) }

  function MergeBin(a: Bin, b: Bin): Bin {
    Bin(a.sum + Total(b.items), a.items + b.items)
  }

  predicate ItemLess(a: Item, b: Item) {
    a.idx < b.idx || (a.idx == b.idx && a.val < b.val)
  }

  predicate ItemsLess(a: seq<Item>, b: seq<Item>) {
    if b == [] then false
    else if a == [] then true
    else if a[0] == b[0] then ItemsLess(a[1..], b[1..])
    else ItemLess(a[0], b[0])
  }

  /** The comparison of sets: by sum, then by number of items, then by the items themselves. */
  predicate Less(a: Bin, b: Bin) {
    if a.sum != b.sum then a.sum < b.sum
    else if |a.items| != |b.items| then |a.items| < |b.items|
    else ItemsLess(a.items, b.items)
  }

  predicate More(a: Bin, b: Bin) { Less(b, a) }

  /** The k sets of a state, largest first. */
  type Bins = seq<Bin>

  function Arrange(bins: Bins): Bins { Sort(bins, More) }

  function Singles(items: seq<Item>, k: nat): Bins {
    seq(k, i requires 0 <= i => if i < |items| then Bin(items[i].val, [items[i]]) else EmptyBin)
  }

  /** The state constructor: one set for each item, the rest empty. */
  function NewState(items: seq<Item>, k: nat): Bins
    requires |items| <= k
  {
    Arrange(Singles(items, k))
  }

  /** The largest set of one state is joined with the smallest of the other, and so on. */
  function Joined(a: Bins, b: Bins): Bins
    requires |a| == |b|
  {
    seq(|a|, i requires 0 <= i < |a| => MergeBin(a[i], b[|a| - 1 - i]))
  }

  function Merge(a: Bins, b: Bins): Bins
    requires |a| == |b|
  {
    Arrange(Joined(a, b))
  }

  function Spread(s: Bins): int
    requires |s| > 0
  {
    s[0].sum - s[|s| - 1].sum
  }

  /** The comparison of states: the state to merge first is the smaller one. */
  predicate StateLess(a: Bins, b: Bins)
    requires |a| > 0 && |b| > 0
  {
    if Spread(a) != Spread(b) then Spread(a) > Spread(b) else Less(b[0], a[0])
  }

  predicate AllSized(heap: seq<Bins>, k: nat) {
    forall i :: 0 <= i < |heap| ==> |heap[i]| == k
  }

  /** The position of a smallest state. */
  function Best(heap: seq<Bins>, k: nat): (b: nat)
    requires |heap| > 0 && k > 0 && AllSized(heap, k)
    ensures b < |heap|
  {
    if |heap| == 1 then 0
    else
      var b := Best(heap[..|heap| - 1], k);
      if StateLess(heap[|heap| - 1], heap[b]) then |heap| - 1 else b
  }

  /** One round: take the two smallest states, merge the second into the first, put the result back. */
  function Round(heap: seq<Bins>, k: nat): (r: seq<Bins>)
    requires |heap| > 1 && k > 0 && AllSized(heap, k)
    ensures |r| == |heap| - 1 && AllSized(r, k)
  {
    var i := Best(heap, k);
    var rest := Remove(heap, i);
    var j := Best(rest, k);
    Remove(rest, j) + [Merge(heap[i], rest[j])]
  }

  function Reduce(heap: seq<Bins>, k: nat): (r: Bins)
    requires |heap| > 0 && k > 0 && AllSized(heap, k)
    ensures |r| == k
    decreases |heap|
  {
    if |heap| == 1 then heap[0] else Reduce(Round(heap, k), k)
  }

  function Items(values: seq<int>): seq<Item> {
    seq(|values|, i requires 0 <= i < |values| => Item(i, values[i]))
  }

  /** Python compares the pairs (value, index). */
  predicate PairLess(a: Item, b: Item) {
    a.val < b.val || (a.val == b.val && a.idx < b.idx)
  }

  function SortedItems(values: seq<int>): (r: seq<Item>)
    ensures |r| == |values|
  {
    Sort(Items(values), PairLess)
  }

  function InitialHeap(values: seq<int>, k: nat, equalSize: bool): (heap: seq<Bins>)
    requires k > 0 && (equalSize ==> |values| % k == 0)
    ensures AllSized(heap, k)
    ensures equalSize ==> |heap| == |values| / k
    ensures !equalSize ==> |heap| == |values|
  {
    var sorted := SortedItems(values);
    if equalSize
    then seq(|values| / k, b requires 0 <= b < |values| / k => BlockState(sorted, k, b))
    else seq(|values|, i requires 0 <= i < |values| => NewState([sorted[i]], k))
  }

  function BlockState(sorted: seq<Item>, k: nat, b: nat): (s: Bins)
    requires k > 0 && b < |sorted| / k
    ensures |s| == k
  {
    BlockInRange(|sorted|, k, b);
    NewState(sorted[b * k..b * k + k], k)
  }

  lemma BlockInRange(n: nat, k: nat, b: nat)
    requires k > 0 && b < n / k
    ensures b * k + k <= n
  {
    assert (b + 1) * k <= n / k * k;
  }

  function Indices(bin: Bin): seq<nat> { Map(Idx, bin.items) }

  function Partitions(s: Bins): seq<seq<nat>> { Map(Indices, s) }

  /** The function `karmarkar_karp`; the check at its end is `AllOfSize`. */
  function Differencing(values: seq<int>, k: nat, equalSize: bool): Result<seq<seq<nat>>>
    requires k > 0
  {
    if equalSize && |values| % k != 0 then Raised
    else if |values| == 0 then Raised  // there is no state to return
    else
      FirstBlock(|values|, k, equalSize);
      var parts := Partitions(Reduce(InitialHeap(values, k, equalSize), k));
      if equalSize && !AllOfSize(parts, |values|) then Raised else Ok(parts)
  }

  lemma FirstBlock(n: nat, k: nat, equalSize: bool)
    requires n > 0 && k > 0 && (equalSize ==> n % k == 0)
    ensures equalSize ==> n / k > 0
  {
  }

  predicate AllOfSize(parts: seq<seq<nat>>, n: nat) {
    forall i :: 0 <= i < |parts| ==> |parts[i]| * |parts| == n
  }
}
