/** What every state of the differencing method keeps. */
module KarmarkarKarpInvariant {
  import opened Sorting
  import opened Sequences
  import opened KarmarkarKarp

  // ---------- The comparisons are orders ----------

  lemma {:induction false} ItemsLessTotal(a: seq<Item>, b: seq<Item>)
    ensures ItemsLess(a, b) ==> !ItemsLess(b, a)
    ensures a == b || ItemsLess(a, b) || ItemsLess(b, a)
  {
    if a != [] && b != [] && a[0] == b[0] {
      ItemsLessTotal(a[1..], b[1..]);
      assert a == [a[0]] + a[1..] && b == [b[0]] + b[1..];
    }
  }

  lemma {:induction false} ItemsLessTransitive(a: seq<Item>, b: seq<Item>, c: seq<Item>)
    requires ItemsLess(a, b) && ItemsLess(b, c)
    ensures ItemsLess(a, c)
  {
    if a != [] && b != [] && c != [] && a[0] == b[0] && b[0] == c[0] {
      ItemsLessTransitive(a[1..], b[1..], c[1..]);
    }
  }

  lemma LessTotal(a: Bin, b: Bin)
    ensures Less(a, b) ==> !Less(b, a)
    ensures a == b || Less(a, b) || Less(b, a)
  {
    ItemsLessTotal(a.items, b.items);
  }

  lemma LessTransitive(a: Bin, b: Bin, c: Bin)
    requires Less(a, b) && Less(b, c)
    ensures Less(a, c)
  {
    if a.sum == b.sum == c.sum && |a.items| == |b.items| == |c.items| {
      ItemsLessTransitive(a.items, b.items, c.items);
    }
  }

  lemma MoreIsAnOrder()
    ensures StrictWeak(More)
  {
    forall x, y | More(x, y) ensures !More(y, x) {
      LessTotal(x, y);
    }
    forall x, y, z | More(x, z) ensures More(x, y) || More(y, z) {
      LessTotal(x, y);
      if Less(x, y) {
        LessTransitive(z, x, y);
      } else if !Less(y, x) {
        assert x == y;
      }
    }
  }

  lemma StateLessTransitive(a: Bins, b: Bins, c: Bins)
    requires |a| > 0 && |b| > 0 && |c| > 0 && StateLess(a, b) && StateLess(b, c)
    ensures StateLess(a, c)
  {
    if Spread(a) == Spread(b) == Spread(c) {
      LessTransitive(c[0], b[0], a[0]);
    }
  }

  /** The heap's order leaves no ties between states that share no item, so any heap pops the same state. */
  lemma NoTies(a: Bins, b: Bins)
    requires |a| > 0 && |b| > 0 && a[0].items != [] && forall item :: item in a[0].items ==> item !in b[0].items
    ensures StateLess(a, b) != StateLess(b, a)
  {
    assert a[0].items[0] in a[0].items;
    LessTotal(a[0], b[0]);
  }

  /** What is popped is smaller than every other state. */
  lemma {:induction false} BestIsLeast(heap: seq<Bins>, k: nat, i: nat)
    requires i < |heap| && k > 0 && AllSized(heap, k)
    requires forall p, q :: 0 <= p < q < |heap| ==> StateLess(heap[p], heap[q]) != StateLess(heap[q], heap[p])
    ensures var b := Best(heap, k);
      i != b ==> StateLess(heap[b], heap[i])
  {
    var n := |heap| - 1;
    if n > 0 {
      var prior := heap[..n];
      var b := Best(prior, k);
      if i < n {
        BestIsLeast(prior, k, i);
        if StateLess(heap[n], heap[b]) && i != b {
          StateLessTransitive(heap[n], heap[b], heap[i]);
        }
      } else {
        assert StateLess(heap[b], heap[n]) != StateLess(heap[n], heap[b]);
      }
    }
  }

  // ---------- What the orders mean ----------

  /** The first difference is at position `j`, where `a` has the larger index (or the same index and the larger value). */
  ghost predicate AboveAt(a: seq<Item>, b: seq<Item>, j: nat) {
    j < |a| && j < |b| && a[..j] == b[..j] &&
    (a[j].idx > b[j].idx || (a[j].idx == b[j].idx && a[j].val > b[j].val))
  }

  ghost predicate AboveAtFirstDifference(a: seq<Item>, b: seq<Item>) {
    exists j :: AboveAt(a, b, j)
  }

  lemma AboveAtNext(a: seq<Item>, b: seq<Item>, j: nat)
    requires a != [] && b != [] && a[0] == b[0]
    ensures AboveAt(a[1..], b[1..], j) <==> AboveAt(a, b, j + 1)
  {
    if j < |a| - 1 && j < |b| - 1 {
      assert a[..j + 1] == [a[0]] + a[1..][..j] && b[..j + 1] == [b[0]] + b[1..][..j];
      assert a[1..][..j] == a[..j + 1][1..] && b[1..][..j] == b[..j + 1][1..];
    }
  }

  lemma {:induction false} LessIsBelow(a: seq<Item>, b: seq<Item>) returns (j: nat)
    requires |a| == |b| && ItemsLess(b, a)
    ensures AboveAt(a, b, j)
  {
    if a[0] == b[0] {
      j := LessIsBelow(a[1..], b[1..]);
      AboveAtNext(a, b, j);
      j := j + 1;
    } else {
      j := 0;
    }
  }

  lemma {:induction false} BelowIsLess(a: seq<Item>, b: seq<Item>, j: nat)
    requires |a| == |b| && AboveAt(a, b, j)
    ensures ItemsLess(b, a)
  {
    if j > 0 {
      assert a[..j][0] == b[..j][0];
      AboveAtNext(a, b, j - 1);
      BelowIsLess(a[1..], b[1..], j - 1);
    }
  }

  lemma ItemsLessMeans(a: seq<Item>, b: seq<Item>)
    requires |a| == |b|
    ensures ItemsLess(b, a) <==> AboveAtFirstDifference(a, b)
  {
    if ItemsLess(b, a) {
      var j := LessIsBelow(a, b);
    }
    if AboveAtFirstDifference(a, b) {
      var j :| AboveAt(a, b, j);
      BelowIsLess(a, b, j);
    }
  }

  /** A set goes before another by its sum, then by the number of its items, then by the items. */
  ghost predicate NotBelow(a: Bin, b: Bin) {
    a.sum >= b.sum &&
    (a.sum == b.sum ==> |a.items| >= |b.items|) &&
    (a.sum == b.sum && |a.items| == |b.items| ==> a.items == b.items || AboveAtFirstDifference(a.items, b.items))
  }

  lemma NotBelowMeans(a: Bin, b: Bin)
    ensures Less(a, b) <==> !NotBelow(a, b)
  {
    LessTotal(a, b);
    if |a.items| == |b.items| {
      ItemsLessMeans(a.items, b.items);
    }
  }

  /** The sets of an arranged state fall in this order. */
  lemma SetsFall(bins: Bins, i: nat, j: nat)
    requires i <= j < |bins|
    ensures |Arrange(bins)| == |bins| && NotBelow(Arrange(bins)[i], Arrange(bins)[j])
  {
    hide NotBelow, Sort, Less;
    MoreIsAnOrder();
    SortOrders(bins, More);
    var s := Arrange(bins);
    NotBelowMeans(s[i], s[j]);
    LessTotal(s[i], s[j]);
    assert i < j ==> !More(s[j], s[i]);
  }

  /** Largest difference between first and last set first; of two with the same, the one with the higher first set. */
  ghost predicate GoesFirst(a: Bins, b: Bins)
    requires |a| > 0 && |b| > 0
  {
    var da, db := a[0].sum - a[|a| - 1].sum, b[0].sum - b[|b| - 1].sum;
    da >= db && (da == db ==> NotBelow(a[0], b[0]))
  }

  /** No state in the heap should have been popped rather than the one that is. */
  lemma {:induction false} BestGoesFirst(heap: seq<Bins>, k: nat, i: nat)
    requires i < |heap| && k > 0 && AllSized(heap, k)
    ensures GoesFirst(heap[Best(heap, k)], heap[i])
  {
    hide NotBelow, Less;
    var n := |heap| - 1;
    var b := Best(heap, k);
    NotBelowMeans(heap[b][0], heap[i][0]);
    LessTotal(heap[b][0], heap[i][0]);
    if n > 0 {
      var prior := heap[..n];
      var c := Best(prior, k);
      BestGoesFirst(prior, k, if i < n then i else 0);
      NotBelowMeans(heap[c][0], heap[i][0]);
      NotBelowMeans(heap[b][0], heap[c][0]);
      LessTotal(heap[b][0], heap[c][0]);
      LessTotal(heap[c][0], heap[i][0]);
      if Less(heap[b][0], heap[i][0]) && Less(heap[c][0], heap[b][0]) {
        LessTransitive(heap[c][0], heap[b][0], heap[i][0]);
      }
    }
  }

  // ---------- Sound states ----------

  ghost predicate SoundBin(bin: Bin) {
    bin.sum == Total(bin.items) && forall item :: item in bin.items ==> item.val >= 0
  }

  /** The sums are right, no value is negative and the sets are in order. */
  ghost predicate Sound(s: Bins, k: nat) {
    |s| == k > 0 && Ordered(s, More) && forall bin :: bin in s ==> SoundBin(bin)
  }

  lemma SoundBinSum(bin: Bin)
    requires SoundBin(bin)
    ensures bin.sum >= 0
  {
    SumLowerBound(bin.items, Val, 0);
  }

  lemma SumsFall(s: Bins, k: nat, i: nat, j: nat)
    requires Sound(s, k) && i <= j < k
    ensures s[i].sum >= s[j].sum
  {
    if i < j {
      assert !More(s[j], s[i]);
    }
  }

  /** No set of an arranged state is empty before a set that is not: the tie-break on the number of items at work. */
  lemma EmptySetsLast(s: Bins, k: nat, i: nat, j: nat)
    requires Sound(s, k) && i < j < k && s[j].items != []
    ensures s[i].items != []
  {
    assert !More(s[j], s[i]) && SoundBin(s[i]) && SoundBin(s[j]);
    SoundBinSum(s[j]);
  }

  lemma MergeBinSound(a: Bin, b: Bin)
    requires SoundBin(a) && SoundBin(b)
    ensures SoundBin(MergeBin(a, b)) && MergeBin(a, b).sum == a.sum + b.sum
  {
    SumConcat(a.items, b.items, Val);
  }

  lemma ArrangeSound(bins: Bins, k: nat)
    requires |bins| == k > 0 && forall bin :: bin in bins ==> SoundBin(bin)
    ensures Sound(Arrange(bins), k)
  {
    MoreIsAnOrder();
    SortOrders(bins, More);
    SortMembers(bins, More);
  }

  lemma MergeSound(a: Bins, b: Bins, k: nat)
    requires Sound(a, k) && Sound(b, k)
    ensures Sound(Merge(a, b), k)
    ensures forall bin :: bin in Joined(a, b) ==> SoundBin(bin)
  {
    forall bin | bin in Joined(a, b) ensures SoundBin(bin) {
      var i := Find(Joined(a, b), bin);
      MergeBinSound(a[i], b[k - 1 - i]);
    }
    ArrangeSound(Joined(a, b), k);
  }

  /** The largest set of one state is joined with the smallest of the other, the next with the next but one, and so on. */
  lemma MergePairs(a: Bins, b: Bins, k: nat, pairs: Bins)
    requires Sound(a, k) && Sound(b, k) && |pairs| == k
    requires forall i :: 0 <= i < k ==>
      pairs[i] == Bin(a[i].sum + b[k - 1 - i].sum, a[i].items + b[k - 1 - i].items)
    ensures multiset(Merge(a, b)) == multiset(pairs)
  {
    hide Sort;
    forall i | 0 <= i < k ensures Joined(a, b)[i] == pairs[i] {
      MergeBinSound(a[i], b[k - 1 - i]);
    }
    assert Joined(a, b) == pairs;
    SortPermutes(pairs, More);
  }

  // ---------- Items ----------

  function BinItems(bin: Bin): seq<Item> { bin.items }

  function ItemsOf(s: Bins): seq<Item> { Flatten(Map(BinItems, s)) }

  lemma ArrangeKeepsItems(bins: Bins)
    ensures multiset(ItemsOf(Arrange(bins))) == multiset(ItemsOf(bins))
  {
    SortPermutes(bins, More);
    MapPermutes(Arrange(bins), bins, BinItems);
    FlattenPermutes(Map(BinItems, Arrange(bins)), Map(BinItems, bins));
  }

  lemma {:induction false} JoinedItems(a: Bins, b: Bins, n: nat)
    requires |a| == |b| && n <= |a|
    ensures multiset(ItemsOf(Joined(a, b)[..n])) == multiset(ItemsOf(a[..n])) + multiset(ItemsOf(b[|b| - n..]))
  {
    if n > 0 {
      var m := n - 1;
      JoinedItems(a, b, m);
      var front, back := b[|b| - n], b[|b| - m..];
      assert b[|b| - n..] == [front] + back;
      assert Map(BinItems, [front] + back) == [front.items] + Map(BinItems, back);
      FlattenConcat([front.items], Map(BinItems, back));
      assert Flatten([front.items]) == front.items;
      LastBin(Joined(a, b), m);
      LastBin(a, m);
    }
  }

  lemma LastBin(s: Bins, m: nat)
    requires m < |s|
    ensures ItemsOf(s[..m + 1]) == ItemsOf(s[..m]) + s[m].items
  {
    assert Map(BinItems, s[..m + 1]) == Map(BinItems, s[..m]) + [s[m].items];
    FlattenConcat(Map(BinItems, s[..m]), [s[m].items]);
    assert Flatten([s[m].items]) == s[m].items;
  }

  lemma MergeItems(a: Bins, b: Bins)
    requires |a| == |b|
    ensures multiset(ItemsOf(Merge(a, b))) == multiset(ItemsOf(a)) + multiset(ItemsOf(b))
  {
    ArrangeKeepsItems(Joined(a, b));
    JoinedItems(a, b, |a|);
    assert Joined(a, b)[..|a|] == Joined(a, b) && a[..|a|] == a && b[0..] == b;
  }

  // ---------- How many sets are in use ----------

  function Occupied(bin: Bin): int { if bin.items == [] then 0 else 1 }

  function InUse(s: Bins): int { SumOf(s, Occupied) }

  function Min(a: int, b: int): int { if a < b then a else b }

  function Max(a: int, b: int): int { if a < b then b else a }

  lemma {:induction false} UsedSetsFirst(s: Bins)
    requires forall p, q :: 0 <= p < q < |s| && s[q].items != [] ==> s[p].items != []
    ensures 0 <= InUse(s) <= |s|
    ensures forall i :: 0 <= i < |s| ==> (s[i].items != [] <==> i < InUse(s))
  {
    if s != [] {
      var n := |s| - 1;
      UsedSetsFirst(s[..n]);
      assert InUse(s) == InUse(s[..n]) + Occupied(s[n]);
      assert forall i :: 0 <= i < n ==> s[..n][i] == s[i];
      if s[n].items != [] && n > 0 {
        assert s[..n][n - 1].items != [];
      }
    }
  }

  /** A row of sets that is in use at both ends only. */
  lemma {:induction false} BothEnds(s: Bins, a: nat, b: nat, n: nat)
    requires a <= |s| && b <= |s| && n <= |s|
    requires forall i :: 0 <= i < |s| ==> (s[i].items != [] <==> i < a || i >= |s| - b)
    ensures InUse(s[..n]) == Min(a, n) + Max(0, n - Max(a, |s| - b))
  {
    if n > 0 {
      BothEnds(s, a, b, n - 1);
      assert s[..n][..n - 1] == s[..n - 1];
    }
  }

  /** With m items in k sets, min(k, m) sets are in use. */
  ghost predicate Filled(s: Bins, k: nat) {
    Sound(s, k) && InUse(s) == Min(k, |ItemsOf(s)|)
  }

  lemma FilledPrefix(s: Bins, k: nat, i: nat)
    requires Filled(s, k) && i < k
    ensures s[i].items != [] <==> i < Min(k, |ItemsOf(s)|)
  {
    forall p, q | 0 <= p < q < k && s[q].items != [] ensures s[p].items != [] {
      EmptySetsLast(s, k, p, q);
    }
    UsedSetsFirst(s);
  }

  lemma ArrangeKeepsUse(bins: Bins)
    ensures InUse(Arrange(bins)) == InUse(bins)
  {
    SortPermutes(bins, More);
    SumPermutes(Arrange(bins), bins, Occupied);
  }

  lemma MergeFilled(a: Bins, b: Bins, k: nat)
    requires Filled(a, k) && Filled(b, k)
    ensures Filled(Merge(a, b), k) && |ItemsOf(Merge(a, b))| == |ItemsOf(a)| + |ItemsOf(b)|
  {
    MergeSound(a, b, k);
    MergeItems(a, b);
    var x, y, z := ItemsOf(a), ItemsOf(b), ItemsOf(Merge(a, b));
    assert |z| == |multiset(z)| == |multiset(x) + multiset(y)| == |x| + |y|;
    var joined := Joined(a, b);
    var p, q := Min(k, |x|), Min(k, |y|);
    forall i | 0 <= i < k ensures joined[i].items != [] <==> i < p || i >= k - q {
      FilledPrefix(a, k, i);
      FilledPrefix(b, k, k - 1 - i);
    }
    BothEnds(joined, p, q, k);
    assert joined[..k] == joined;
    ArrangeKeepsUse(joined);
  }

  // ---------- The spread ----------

  /** Within one state no two sets differ by more than the spread. */
  lemma WithinSpread(s: Bins, k: nat, i: nat, j: nat)
    requires Sound(s, k) && i <= j < k
    ensures 0 <= s[i].sum - s[j].sum <= Spread(s)
  {
    SumsFall(s, k, 0, i);
    SumsFall(s, k, i, j);
    SumsFall(s, k, j, k - 1);
  }

  lemma JoinedSpread(a: Bins, b: Bins, k: nat, i: nat, j: nat)
    requires Sound(a, k) && Sound(b, k) && i < k && j < k
    ensures Joined(a, b)[i].sum - Joined(a, b)[j].sum <= Max(Spread(a), Spread(b))
  {
    hide SoundBin, Ordered, More;
    MergeBinSound(a[i], b[k - 1 - i]);
    MergeBinSound(a[j], b[k - 1 - j]);
    if i <= j {
      WithinSpread(a, k, i, j);
      WithinSpread(b, k, k - 1 - j, k - 1 - i);
    } else {
      WithinSpread(a, k, j, i);
      WithinSpread(b, k, k - 1 - i, k - 1 - j);
    }
  }

  /** A merge never exceeds the larger of the two spreads. */
  lemma MergeSpread(a: Bins, b: Bins, k: nat)
    requires Sound(a, k) && Sound(b, k)
    ensures Spread(Merge(a, b)) <= Max(Spread(a), Spread(b))
  {
    hide More, Ordered;
    var joined, merged := Joined(a, b), Merge(a, b);
    SortMembers(joined, More);
    assert merged[0] in merged && merged[k - 1] in merged;
    var i := Find(joined, merged[0]);
    var j := Find(joined, merged[k - 1]);
    JoinedSpread(a, b, k, i, j);
  }

  // ---------- Equal sizes ----------

  ghost predicate Uniform(s: Bins, size: nat) {
    forall bin :: bin in s ==> |bin.items| == size
  }

  lemma MergeUniform(a: Bins, b: Bins, p: nat, q: nat)
    requires |a| == |b| && Uniform(a, p) && Uniform(b, q)
    ensures Uniform(Merge(a, b), p + q)
  {
    SortMembers(Joined(a, b), More);
    forall bin | bin in Joined(a, b) ensures |bin.items| == p + q {
      var i := Find(Joined(a, b), bin);
    }
  }
}
