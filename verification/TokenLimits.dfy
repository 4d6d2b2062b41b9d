/** When every micro-batch keeps within the token limit. */
module TokenLimits {
  import opened Wrappers
  import opened Arithmetic
  import opened Sequences
  import opened BalancedPartitions
  import opened MicroBatches

  /** The batch of `lengths` is split into `c` micro-batches, without other settings; no row is longer than the limit. */
  ghost predicate SplitInto(lengths: seq<nat>, longest: nat, maxTokens: nat, c: nat) {
    (forall i :: 0 <= i < |lengths| ==> lengths[i] <= longest) && longest <= maxTokens && 0 < maxTokens &&
    MicroBatchCount(lengths, maxTokens, None, None, None) == c
  }

  ghost predicate WithinTokens(lengths: seq<nat>, longest: nat, maxTokens: nat, balance: bool)
    requires maxTokens > 0
  {
    var r := Rearrange(lengths, longest, maxTokens, None, None, None, balance);
    r.Ok? && forall p :: p in r.value ==> PartSum(lengths, p) <= maxTokens
  }

  lemma {:induction false} LengthsTotal(lengths: seq<nat>, n: nat)
    requires n <= |lengths|
    ensures SumOf(Range(n), ValueAt(lengths)) == SumOf(lengths[..n], Length)
  {
    if n > 0 {
      LengthsTotal(lengths, n - 1);
      assert Range(n)[..n - 1] == Range(n - 1) && lengths[..n][..n - 1] == lengths[..n - 1];
    }
  }

  lemma PartsHoldAll(lengths: seq<nat>, parts: seq<seq<nat>>)
    requires ExactCover(parts, |lengths|)
    ensures SumOf(parts, Load(lengths)) == SumOf(lengths, Length)
  {
    CoverTotal(lengths, parts);
    LengthsTotal(lengths, |lengths|);
    assert lengths[..|lengths|] == lengths;
  }

  lemma {:induction false} RoomForOthers(parts: seq<seq<nat>>, i: nat)
    requires i < |parts| && forall j :: 0 <= j < |parts| ==> parts[j] != []
    ensures |Flatten(parts)| >= |parts| - 1 + |parts[i]|
  {
    var n := |parts| - 1;
    if n > 0 {
      RoomForOthers(parts[..n], if i < n then i else 0);
    }
  }

  /** With one micro-batch the limit is the total; with one for each row it is the longest row. */
  lemma LimitKept(lengths: seq<nat>, longest: nat, maxTokens: nat, c: nat, balance: bool)
    requires SplitInto(lengths, longest, maxTokens, c) && (c == 1 || c == |lengths|) && c > 0
    ensures WithinTokens(lengths, longest, maxTokens, balance)
  {
    hide Rearrange, MicroBatchCount, SumOf, Flatten;
    RearrangeShape(lengths, longest, maxTokens, None, None, None, balance);
    CountIsFewest(lengths, maxTokens, c);
    var parts := Rearrange(lengths, longest, maxTokens, None, None, None, balance).value;
    forall p | p in parts ensures PartSum(lengths, p) <= maxTokens {
      if c == |lengths| {
        CoverIsPermutation(parts, |lengths|);
        var i := Find(parts, p);
        assert forall j :: 0 <= j < |parts| ==> parts[j] in parts;
        RoomForOthers(parts, i);
        OneRow(lengths, parts, p);
      } else {
        PartsHoldAll(lengths, parts);
        OnlyPart(lengths, parts);
      }
    }
  }

  lemma OnlyPart(lengths: seq<nat>, parts: seq<seq<nat>>)
    requires |parts| == 1
    ensures SumOf(parts, Load(lengths)) == PartSum(lengths, parts[0])
  {
  }

  lemma OneRow(lengths: seq<nat>, parts: seq<seq<nat>>, p: seq<nat>)
    requires p in parts && |p| == 1 && ExactCover(parts, |lengths|)
    ensures p[0] < |lengths| && PartSum(lengths, p) == lengths[p[0]]
  {
    PartsInRange(parts, |lengths|);
    assert SumOf(p[..0], ValueAt(lengths)) == 0;
  }

  /** One row more than there are micro-batches has tokens, as many as there are micro-batches; the others have none. */
  function Crowded(rows: nat, c: nat): (lengths: seq<nat>)
    ensures |lengths| == rows
  {
    seq(rows, i => if i <= c then c else 0)
  }

  lemma {:induction false} CrowdedTotal(rows: nat, c: nat)
    requires c < rows
    ensures SumOf(Crowded(rows, c), Length) == (c + 1) * c
  {
    var lengths := Crowded(rows, c);
    if rows == c + 1 {
      AllEqual(lengths, c);
    } else {
      assert lengths[..rows - 1] == Crowded(rows - 1, c);
      CrowdedTotal(rows - 1, c);
    }
  }

  lemma {:induction false} AllEqual(lengths: seq<nat>, c: nat)
    requires forall i :: 0 <= i < |lengths| ==> lengths[i] == c
    ensures SumOf(lengths, Length) == |lengths| * c
  {
    if lengths != [] {
      AllEqual(lengths[..|lengths| - 1], c);
    }
  }

  lemma {:induction false} SumIsMultiple(rows: nat, c: nat, part: seq<nat>) returns (m: nat)
    requires c < rows
    ensures PartSum(Crowded(rows, c), part) == m * c
  {
    if part == [] {
      m := 0;
    } else {
      var n := |part| - 1;
      m := SumIsMultiple(rows, c, part[..n]);
      m := if part[n] <= c then m + 1 else m;
    }
  }

  lemma CrowdedIsSplit(rows: nat, c: nat)
    requires 1 < c < rows
    ensures SplitInto(Crowded(rows, c), c, c + 1, c)
  {
    hide MicroBatchCount;
    CrowdedTotal(rows, c);
    assert (c - 1) * (c + 1) < (c + 1) * c <= c * (c + 1);
    CountIsFewest(Crowded(rows, c), c + 1, c);
  }

  lemma CrowdedPart(rows: nat, c: nat, part: seq<nat>)
    requires 1 < c < rows && PartSum(Crowded(rows, c), part) <= c + 1
    ensures PartSum(Crowded(rows, c), part) <= c
  {
    var m := SumIsMultiple(rows, c, part);
    if m >= 2 {
      MulMonotone(2, m, c);
    }
  }

  /** Some micro-batch gets two of the rows that have tokens. */
  lemma LimitNotKept(rows: nat, c: nat, balance: bool)
    requires 1 < c < rows
    ensures !WithinTokens(Crowded(rows, c), c, c + 1, balance)
  {
    hide Rearrange, MicroBatchCount, SumOf, Flatten, ExactCover;
    var lengths := Crowded(rows, c);
    CrowdedIsSplit(rows, c);
    RearrangeShape(lengths, c, c + 1, None, None, None, balance);
    var r := Rearrange(lengths, c, c + 1, None, None, None, balance);
    if WithinTokens(lengths, c, c + 1, balance) {
      forall p | p in r.value ensures PartSum(lengths, p) <= c {
        CrowdedPart(rows, c, p);
      }
      SumBound(r.value, Load(lengths), c);
      PartsHoldAll(lengths, r.value);
      CrowdedTotal(rows, c);
      assert false;
    }
  }

  /** The limit that the documentation promises is kept for all batches that are split into c exactly if c is one, or the number of rows. */
  lemma LimitKeptIff(rows: nat, c: nat, balance: bool)
    requires 1 <= c <= rows
    ensures (forall lengths: seq<nat>, longest: nat, maxTokens: nat ::
               |lengths| == rows && SplitInto(lengths, longest, maxTokens, c) ==>
                 WithinTokens(lengths, longest, maxTokens, balance)) <==>
      c == 1 || c == rows
  {
    hide MicroBatchCount, WithinTokens, Crowded;
    if c == 1 || c == rows {
      forall lengths: seq<nat>, longest: nat, maxTokens: nat |
        |lengths| == rows && SplitInto(lengths, longest, maxTokens, c)
        ensures WithinTokens(lengths, longest, maxTokens, balance)
      {
        LimitKept(lengths, longest, maxTokens, c, balance);
      }
    } else {
      CrowdedIsSplit(rows, c);
      LimitNotKept(rows, c, balance);
    }
  }

  /** The shortest failing input: three rows of two tokens and a limit of three give two micro-batches, one of four tokens. */
  lemma LimitExceeded(balance: bool)
    ensures SplitInto([2, 2, 2], 2, 3, 2) && !WithinTokens([2, 2, 2], 2, 3, balance)
  {
    assert Crowded(3, 2) == [2, 2, 2];
    CrowdedIsSplit(3, 2);
    LimitNotKept(3, 2, balance);
  }
}
