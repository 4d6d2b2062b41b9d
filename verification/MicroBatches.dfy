/** Splitting a batch into micro-batches and putting its rows back in order. */
module MicroBatches {
  import opened Wrappers
  import opened Arithmetic
  import opened Sorting
  import opened Sequences
  import opened Permutations
  import opened BalancedPartitions

  // ---------- How many micro-batches ----------

  /** Python's `//`. */
  function FloorDiv(a: int, b: int): int
    requires b != 0
  {
    if b > 0 then a / b else (-a) / (-b)
  }

  function CeilDiv(a: int, b: int): int
    requires b != 0
  {
    -FloorDiv(a, -b)
  }

  function RoundUp(a: int, b: int): int
    requires b != 0
  {
    FloorDiv(a + b - 1, b) * b
  }

  lemma CeilDivIsLeast(a: int, b: nat, c: int)
    requires b > 0
    ensures c == CeilDiv(a, b) <==> (c - 1) * b < a <= c * b
  {
    var d := CeilDiv(a, b);
    assert -a == (-a) / b * b + (-a) % b;
    assert (-d) * b == -(d * b) && (d - 1) * b == d * b - b;
    if (c - 1) * b < a <= c * b {
      MulCancel(c - 1, d, b);
      MulCancel(d - 1, c, b);
    }
  }

  /** The least multiple of b that is not below a. */
  lemma RoundUpIsLeast(a: int, b: nat, m: int)
    requires b > 0
    ensures a <= RoundUp(a, b) < a + b && RoundUp(a, b) % b == 0
    ensures a <= m * b ==> RoundUp(a, b) <= m * b
  {
    var q := (a + b - 1) / b;
    assert a + b - 1 == q * b + (a + b - 1) % b;
    MultipleHasNoRemainder(q, b);
    if a <= m * b {
      assert (m + 1) * b == m * b + b;
      MulCancel(q, m + 1, b);
      MulMonotone(q, m, b);
    }
  }

  function Workload(length: int): int { 24576 * length + length * length }

  /** Two times the hidden size, 4096, times the workload are the operations of a dense transformer block. */
  lemma WorkloadCountsOperations(length: nat)
    ensures (2 * 4096) * Workload(length) == 12 * (4096 * 4096) * length + 2 * 4096 * (length * length)
  {
    var square := length * length;
    assert Workload(length) == 24576 * length + square;
  }

  function Workloads(lengths: seq<nat>): seq<int> { Map((n: nat) => Workload(n), lengths) }

  function Length(n: nat): int { n }

  /**
   The number of micro-batches before it is checked: the counts of other ranks enter as `groupMax`,
   the maximum that the ranks agree on.
   */
  function MicroBatchCount(lengths: seq<nat>, maxTokens: int, least: Option<int>, groupMax: Option<int>,
                           divisor: Option<int>): int
    requires maxTokens != 0 && (divisor.Some? ==> divisor.value != 0)
  {
    var needed := CeilDiv(SumOf(lengths, Length), maxTokens);
    var count := if |lengths| < needed then |lengths| else needed;
    var count := if least.Some? && count < least.value then least.value else count;
    var count := if groupMax.Some? then groupMax.value else count;
    if divisor.Some? then RoundUp(count, divisor.value) else count
  }

  /** As few micro-batches as hold `total` tokens at `maxTokens` each, but no more than there are rows. */
  ghost predicate FewestFor(total: int, rows: nat, maxTokens: nat, c: int) {
    c <= rows && (c - 1) * maxTokens < total && (c == rows || total <= c * maxTokens)
  }

  lemma OneFewest(total: int, rows: nat, maxTokens: nat, c: int, d: int)
    requires FewestFor(total, rows, maxTokens, c) && FewestFor(total, rows, maxTokens, d)
    ensures c <= d
  {
    if d < c {
      MulMonotone(d, c - 1, maxTokens);
    }
  }

  lemma SmallerOfBoth(total: int, rows: nat, maxTokens: nat, needed: int)
    requires (needed - 1) * maxTokens < total <= needed * maxTokens
    ensures FewestFor(total, rows, maxTokens, if rows < needed then rows else needed)
  {
    if rows < needed {
      MulMonotone(rows - 1, needed - 1, maxTokens);
    }
  }

  /** Without other settings there are as few micro-batches as the tokens need. */
  lemma CountIsFewest(lengths: seq<nat>, maxTokens: nat, c: int)
    requires maxTokens > 0
    ensures c == MicroBatchCount(lengths, maxTokens, None, None, None) <==>
      FewestFor(SumOf(lengths, Length), |lengths|, maxTokens, c)
  {
    hide SumOf, CeilDiv, FewestFor;
    var total := SumOf(lengths, Length);
    var needed, own := CeilDiv(total, maxTokens), MicroBatchCount(lengths, maxTokens, None, None, None);
    CeilDivIsLeast(total, maxTokens, needed);
    SmallerOfBoth(total, |lengths|, maxTokens, needed);
    if FewestFor(total, |lengths|, maxTokens, c) {
      OneFewest(total, |lengths|, maxTokens, c, own);
      OneFewest(total, |lengths|, maxTokens, own, c);
    }
  }

  /** The least number raises it, the agreed maximum replaces it, and the divisor takes the next multiple of what is then there. */
  lemma SettingsAdjustCount(lengths: seq<nat>, maxTokens: nat, least: int, given: Option<int>, groupMax: Option<int>, divisor: nat, m: int)
    requires maxTokens > 0 && divisor > 0
    ensures var own, raised := MicroBatchCount(lengths, maxTokens, None, None, None), MicroBatchCount(lengths, maxTokens, Some(least), None, None);
      raised >= own && raised >= least && (raised == own || raised == least)
    ensures groupMax.Some? ==> MicroBatchCount(lengths, maxTokens, given, groupMax, None) == groupMax.value
    ensures var count, rounded := MicroBatchCount(lengths, maxTokens, given, groupMax, None), MicroBatchCount(lengths, maxTokens, given, groupMax, Some(divisor));
      count <= rounded && rounded % divisor == 0 && (count <= m * divisor ==> rounded <= m * divisor)
  {
    hide SumOf, CeilDiv, RoundUp;
    RoundUpIsLeast(MicroBatchCount(lengths, maxTokens, given, groupMax, None), divisor, m);
  }

  // ---------- The order of the micro-batches ----------

  function First(part: seq<nat>): nat { if part == [] then 0 else part[0] }

  /** The sort key is the pair (workload, first index); the order is descending. */
  function HeavierFirst(values: seq<int>): (seq<nat>, seq<nat>) -> bool {
    (a: seq<nat>, b: seq<nat>) =>
      PartSum(values, b) < PartSum(values, a) ||
      (PartSum(values, b) == PartSum(values, a) && First(b) < First(a))
  }

  /** `s[::2]` and `s[1::2]`. */
  function EveryOther<T>(s: seq<T>): (r: seq<T>)
    ensures |r| == (|s| + 1) / 2 && forall i :: 0 <= i < |r| ==> r[i] == s[2 * i]
  {
    seq((|s| + 1) / 2, i requires 0 <= i < (|s| + 1) / 2 => s[2 * i])
  }

  function Backwards<T>(s: seq<T>): (r: seq<T>)
    ensures |r| == |s| && forall i :: 0 <= i < |s| ==> r[i] == s[|s| - 1 - i]
  {
    seq(|s|, i requires 0 <= i < |s| => s[|s| - 1 - i])
  }

  /** `s[::2][::-1] + s[1::2]` */
  function PeakInside<T>(s: seq<T>): seq<T> {
    Backwards(EveryOther(s)) + (if s == [] then [] else EveryOther(s[1..]))
  }

  function Ordering(values: seq<int>, parts: seq<seq<nat>>, balance: bool): seq<seq<nat>> {
    if balance then PeakInside(Sort(parts, HeavierFirst(values))) else parts
  }

  /** The index lists `rearrange_micro_batches` returns. */
  function Rearrange(lengths: seq<nat>, maxLength: int, maxTokens: int, least: Option<int>, groupMax: Option<int>,
                     divisor: Option<int>, balance: bool): Result<seq<seq<nat>>>
    requires maxTokens != 0 && (divisor.Some? ==> divisor.value != 0)
  {
    var count := MicroBatchCount(lengths, maxTokens, least, groupMax, divisor);
    if maxTokens < maxLength || count > |lengths| || count <= 0 then Raised
    else
      var parts :- Balanced(Workloads(lengths), count, false);
      Ok(Ordering(Workloads(lengths), parts, balance))
  }

  /** The even and the odd positions together hold everything. */
  lemma {:induction false} EvensAndOdds<T>(s: seq<T>)
    requires s != []
    ensures multiset(EveryOther(s)) + multiset(EveryOther(s[1..])) == multiset(s)
    decreases |s|
  {
    assert s == [s[0]] + s[1..];
    if |s| == 1 {
      assert EveryOther(s) == s && EveryOther(s[1..]) == [];
    } else {
      EvensAndOdds(s[1..]);
      assert s[1..][1..] == s[2..];
      assert EveryOther(s) == [s[0]] + EveryOther(s[2..]);
    }
  }

  lemma {:induction false} BackwardsPermutes<T>(s: seq<T>)
    ensures multiset(Backwards(s)) == multiset(s)
  {
    if s != [] {
      BackwardsPermutes(s[1..]);
      assert Backwards(s) == Backwards(s[1..]) + [s[0]];
      assert s == [s[0]] + s[1..];
    }
  }

  lemma PeakInsidePermutes<T>(s: seq<T>)
    ensures multiset(PeakInside(s)) == multiset(s)
  {
    BackwardsPermutes(EveryOther(s));
    if s != [] {
      EvensAndOdds(s);
    }
  }

  /** A sequence that falls becomes one that rises to its largest element and then falls. */
  lemma PeakInsideRisesAndFalls<T>(s: seq<T>, atLeast: (T, T) -> bool, i: nat, j: nat)
    requires forall p, q :: 0 <= p < q < |s| ==> atLeast(s[p], s[q])
    requires i < j < |s|
    ensures |PeakInside(s)| == |s|
    ensures var r, peak := PeakInside(s), (|s| + 1) / 2 - 1;
      (j <= peak ==> atLeast(r[j], r[i])) && (peak <= i ==> atLeast(r[i], r[j]))
  {
    var r, h := PeakInside(s), (|s| + 1) / 2;
    assert forall x :: 0 <= x < h ==> r[x] == s[2 * (h - 1 - x)];
    assert forall x :: h <= x < |s| ==> r[x] == s[1..][2 * (x - h)] == s[2 * (x - h) + 1];
  }

  /** The ordering step loses no micro-batch. */
  lemma OrderingPermutes(values: seq<int>, parts: seq<seq<nat>>, balance: bool)
    ensures multiset(Ordering(values, parts, balance)) == multiset(parts)
  {
    if balance {
      SortPermutes(parts, HeavierFirst(values));
      PeakInsidePermutes(Sort(parts, HeavierFirst(values)));
    }
  }

  /** The workload of the first is larger, or they are equal and its first index is not below the other's. */
  function NotLighter(values: seq<int>): (seq<nat>, seq<nat>) -> bool {
    (a: seq<nat>, b: seq<nat>) =>
      PartSum(values, a) > PartSum(values, b) ||
      (PartSum(values, a) == PartSum(values, b) && (a != [] && b != [] ==> a[0] >= b[0]))
  }

  /** After the ordering step the workloads rise to the heaviest micro-batch and then fall. */
  lemma WorkloadsRiseAndFall(values: seq<int>, parts: seq<seq<nat>>, i: nat, j: nat)
    requires i < j < |parts|
    ensures var r, peak := Ordering(values, parts, true), (|parts| + 1) / 2 - 1;
      |r| == |parts| &&
      (j <= peak ==> NotLighter(values)(r[j], r[i])) && (peak <= i ==> NotLighter(values)(r[i], r[j]))
  {
    hide PeakInside, PartSum;
    SortOrders(parts, HeavierFirst(values));
    PeakInsideRisesAndFalls(Sort(parts, HeavierFirst(values)), NotLighter(values), i, j);
  }

  // ---------- Rows ----------

  /** `restore_dynamic_batch`: index the rows with the inverse of the concatenated index lists. */
  function Restore<T>(data: seq<T>, parts: seq<seq<nat>>): Result<seq<T>> {
    var idx := Flatten(parts);
    if |idx| != |data| || !InRange(idx, |idx|) then Raised
    else
      var r := Reversed(idx, |idx|);
      if !InRange(r, |data|) then Raised else Ok(Select(data, r))
  }

  lemma CoverIsPermutation(parts: seq<seq<nat>>, n: nat)
    requires ExactCover(parts, n)
    ensures |Flatten(parts)| == n && IsPermutation(Flatten(parts)) && InRange(Flatten(parts), n)
  {
    var idx := Flatten(parts);
    assert |idx| == |multiset(idx)| == |multiset(Range(n))| == n;
    PermutationShape(idx);
  }

  /** Taking rows apart by any exact cover and restoring them gives the rows back. */
  lemma RestoreInverts<T>(rows: seq<T>, parts: seq<seq<nat>>)
    requires ExactCover(parts, |rows|)
    ensures InRange(Flatten(parts), |rows|)
    ensures Restore(Select(rows, Flatten(parts)), parts) == Ok(rows)
  {
    var idx := Flatten(parts);
    CoverIsPermutation(parts, |rows|);
    var r := Reversed(idx, |idx|);
    forall j | 0 <= j < |rows| ensures r[j] < |rows| && idx[r[j]] == j {
      ReversedInverts(idx, j);
    }
    assert Select(Select(rows, idx), r) == rows;
  }

  // ---------- The round trip of a batch ----------

  /** The micro-batches: for each index list the rows it names. */
  function Cut<T>(rows: seq<T>, parts: seq<seq<nat>>): (r: seq<seq<T>>)
    requires forall p :: p in parts ==> InRange(p, |rows|)
  {
    seq(|parts|, i requires 0 <= i < |parts| => Select(rows, parts[i]))
  }

  lemma CutAt<T>(rows: seq<T>, parts: seq<seq<nat>>, i: nat, j: nat)
    requires (forall p :: p in parts ==> InRange(p, |rows|)) && i < |parts| && j < |parts[i]|
    ensures |Cut(rows, parts)| == |parts| && |Cut(rows, parts)[i]| == |parts[i]| && parts[i][j] < |rows|
    ensures Cut(rows, parts)[i][j] == rows[parts[i][j]]
  {
    assert parts[i] in parts;
  }

  lemma {:induction false} CutFlatten<T>(rows: seq<T>, parts: seq<seq<nat>>)
    requires forall p :: p in parts ==> InRange(p, |rows|)
    ensures InRange(Flatten(parts), |rows|)
    ensures Flatten(Cut(rows, parts)) == Select(rows, Flatten(parts))
  {
    if parts != [] {
      var n := |parts| - 1;
      CutFlatten(rows, parts[..n]);
      assert Cut(rows, parts)[..n] == Cut(rows, parts[..n]);
      assert Flatten(Cut(rows, parts)) == Flatten(Cut(rows, parts[..n])) + Select(rows, parts[n]);
    }
  }

  lemma PartsInRange(parts: seq<seq<nat>>, n: nat)
    requires ExactCover(parts, n)
    ensures forall p :: p in parts ==> InRange(p, n)
  {
    forall p, i | p in parts && 0 <= i < |p| ensures p[i] < n {
      MemberOfFlatten(parts, p, p[i]);
      CoverMember(parts, n, p[i]);
    }
  }

  method SelectMicroBatches<T>(rows: seq<T>, parts: seq<seq<nat>>) returns (micro: seq<seq<T>>)
    requires forall p :: p in parts ==> InRange(p, |rows|)
    ensures micro == Cut(rows, parts)
  {
    micro := [];
    for i := 0 to |parts|
      invariant micro == Cut(rows, parts)[..i]
    {
      assert parts[i] in parts;
      micro := micro + [Select(rows, parts[i])];
    }
  }

  /** Workloads are never negative, so the partitioner succeeds whenever it is reached. */
  lemma RearrangeShape(lengths: seq<nat>, maxLength: int, maxTokens: int, least: Option<int>, groupMax: Option<int>,
                       divisor: Option<int>, balance: bool)
    requires maxTokens != 0 && (divisor.Some? ==> divisor.value != 0)
    ensures var r := Rearrange(lengths, maxLength, maxTokens, least, groupMax, divisor, balance);
      var count := MicroBatchCount(lengths, maxTokens, least, groupMax, divisor);
      (r.Ok? <==> maxTokens >= maxLength && 0 < count <= |lengths|) &&
      (r.Ok? ==> |r.value| == count && ExactCover(r.value, |lengths|) && forall p :: p in r.value ==> p != [])
  {
    hide Balanced, Ordering, MicroBatchCount, ExactCover;
    var values := Workloads(lengths);
    var count := MicroBatchCount(lengths, maxTokens, least, groupMax, divisor);
    if maxTokens >= maxLength && 0 < count <= |lengths| {
      BalancedSucceeds(values, count, false);
      var parts := Balanced(values, count, false).value;
      OrderingPermutes(values, parts, balance);
      CoverPermutes(parts, Ordering(values, parts, balance), |lengths|);
    }
  }

  /** Without other settings the split succeeds whenever there is a token and no row is too long. */
  lemma RearrangeSucceeds(lengths: seq<nat>, maxLength: int, maxTokens: nat, balance: bool)
    requires SumOf(lengths, Length) > 0 && 0 < maxTokens && maxLength <= maxTokens
    ensures var r := Rearrange(lengths, maxLength, maxTokens, None, None, None, balance);
      r.Ok? && FewestFor(SumOf(lengths, Length), |lengths|, maxTokens, |r.value|)
  {
    hide Rearrange, MicroBatchCount, ExactCover;
    var count := MicroBatchCount(lengths, maxTokens, None, None, None);
    RearrangeShape(lengths, maxLength, maxTokens, None, None, None, balance);
    CountIsFewest(lengths, maxTokens, count);
    if count <= 0 {
      MulMonotone(count, 0, maxTokens);
    }
  }

  lemma WithinLimit(values: seq<int>, k: nat, balance: bool, limit: int, i: nat, j: nat)
    requires |values| >= k > 0 && i < k && j < k
    requires forall n :: 0 <= n < |values| ==> 0 <= values[n] <= limit
    ensures Balanced(values, k, false).Ok?
    ensures var r := Ordering(values, Balanced(values, k, false).value, balance);
      |Balanced(values, k, false).value| == |r| == k && PartSum(values, r[i]) - PartSum(values, r[j]) <= limit
  {
    hide Balanced, Ordering, ExactCover, PartSum;
    BalancedSucceeds(values, k, false);
    var parts := Balanced(values, k, false).value;
    OrderingPermutes(values, parts, balance);
    CoverPermutes(parts, Ordering(values, parts, balance), |values|);
    BalancedSpread(values, k, false, limit, Ordering(values, parts, balance)[i], Ordering(values, parts, balance)[j]);
  }

  /** No two micro-batches differ by more than the workload of the longest row. */
  lemma RearrangeBalances(lengths: seq<nat>, maxLength: int, maxTokens: int, least: Option<int>, groupMax: Option<int>,
                          divisor: Option<int>, balance: bool, longest: nat, i: nat, j: nat)
    requires maxTokens != 0 && (divisor.Some? ==> divisor.value != 0)
    requires forall n :: 0 <= n < |lengths| ==> lengths[n] <= longest
    ensures var values, r := Workloads(lengths), Rearrange(lengths, maxLength, maxTokens, least, groupMax, divisor, balance);
      r.Ok? && i < |r.value| && j < |r.value| ==>
        PartSum(values, r.value[i]) - PartSum(values, r.value[j]) <= Workload(longest)
  {
    hide Balanced, Ordering, MicroBatchCount, ExactCover, PartSum, Workload, Workloads;
    WorkloadsGrow(lengths, longest);
    RearrangeShape(lengths, maxLength, maxTokens, least, groupMax, divisor, balance);
    var count := MicroBatchCount(lengths, maxTokens, least, groupMax, divisor);
    if 0 < count <= |lengths| && i < count && j < count {
      WithinLimit(Workloads(lengths), count, balance, Workload(longest), i, j);
    }
  }

  lemma KeptOrder(values: seq<int>, parts: seq<seq<nat>>)
    ensures Ordering(values, parts, false) == parts
  {
  }

  /** With `balance` the workloads rise to the heaviest one and then fall; without it the partitioner's order is kept. */
  lemma RearrangeOrders(lengths: seq<nat>, maxLength: int, maxTokens: int, least: Option<int>, groupMax: Option<int>,
                        divisor: Option<int>, i: nat, j: nat)
    requires maxTokens != 0 && (divisor.Some? ==> divisor.value != 0)
    ensures var values, r := Workloads(lengths), Rearrange(lengths, maxLength, maxTokens, least, groupMax, divisor, true);
      r.Ok? && i < j < |r.value| ==>
        var peak := (|r.value| + 1) / 2 - 1;
        (j <= peak ==> NotLighter(values)(r.value[j], r.value[i])) && (peak <= i ==> NotLighter(values)(r.value[i], r.value[j]))
    ensures var kept := Rearrange(lengths, maxLength, maxTokens, least, groupMax, divisor, false);
      kept.Ok? ==> |kept.value| > 0 && kept == Balanced(Workloads(lengths), |kept.value|, false)
  {
    hide Balanced, Ordering, MicroBatchCount, ExactCover, NotLighter, Workloads;
    RearrangeShape(lengths, maxLength, maxTokens, least, groupMax, divisor, true);
    RearrangeShape(lengths, maxLength, maxTokens, least, groupMax, divisor, false);
    var values, r := Workloads(lengths), Rearrange(lengths, maxLength, maxTokens, least, groupMax, divisor, true);
    if r.Ok? && i < j < |r.value| {
      var parts := Balanced(values, |r.value|, false).value;
      OrderingPermutes(values, parts, true);
      assert |r.value| == |multiset(r.value)| == |multiset(parts)| == |parts|;
      WorkloadsRiseAndFall(values, parts, i, j);
    }
    KeptOrder(values, if r.Ok? then Balanced(values, |r.value|, false).value else []);
  }

  lemma WorkloadsGrow(lengths: seq<nat>, longest: nat)
    requires forall n :: 0 <= n < |lengths| ==> lengths[n] <= longest
    ensures |Workloads(lengths)| == |lengths|
    ensures forall n :: 0 <= n < |Workloads(lengths)| ==> 0 <= Workloads(lengths)[n] <= Workload(longest)
  {
    forall n | 0 <= n < |lengths| ensures 0 <= Workloads(lengths)[n] <= Workload(longest) {
      MulMonotone(lengths[n], longest, lengths[n]);
      MulMonotone(lengths[n], longest, longest);
    }
  }

  lemma CoverPermutes(parts: seq<seq<nat>>, others: seq<seq<nat>>, n: nat)
    requires multiset(parts) == multiset(others) && ExactCover(parts, n)
    ensures ExactCover(others, n) && |others| == |parts| && forall p :: p in others <==> p in parts
  {
    FlattenPermutes(parts, others);
    assert |others| == |multiset(others)| == |multiset(parts)| == |parts|;
    forall p ensures p in others <==> p in parts {
      assert p in multiset(others) <==> p in multiset(parts);
    }
  }

  /**
   Cutting a batch into micro-batches and restoring the concatenated rows is the identity, whatever the
   rows are and however the number of micro-batches came about.
   */
  lemma MicroBatchRoundTrip<T>(rows: seq<T>, lengths: seq<nat>, maxLength: int, maxTokens: int, least: Option<int>,
                               groupMax: Option<int>, divisor: Option<int>, balance: bool)
    requires |rows| == |lengths| && maxTokens != 0 && (divisor.Some? ==> divisor.value != 0)
    ensures var r := Rearrange(lengths, maxLength, maxTokens, least, groupMax, divisor, balance);
      r.Ok? ==> (forall p :: p in r.value ==> InRange(p, |rows|)) && Restore(Flatten(Cut(rows, r.value)), r.value) == Ok(rows)
  {
    hide Rearrange, ExactCover, Restore;
    RearrangeShape(lengths, maxLength, maxTokens, least, groupMax, divisor, balance);
    var r := Rearrange(lengths, maxLength, maxTokens, least, groupMax, divisor, balance);
    if r.Ok? {
      PartsInRange(r.value, |rows|);
      CutFlatten(rows, r.value);
      RestoreInverts(rows, r.value);
    }
  }
}
