/** Slicing a padded sequence over ranks, and packed positions. */
module SequenceSharding {
  import opened Sequences
  import opened Arithmetic
  import opened Chunks
  import opened Masks

  // ---------- Pad, slice, gather, unpad ----------

  /** `ulysses_pad`: the padded ids and the pad size. */
  function UlyssesPad<T>(ids: seq<T>, n: nat, padValue: T): (seq<T>, nat) {
    if n <= 1 then (ids, 0)
    else
      var pad := (n - |ids| % n) % n;
      (ids + seq(pad, _ => padValue), pad)
  }

  /** `slice_input_tensor` on one rank, with or without padding. */
  function SliceInput<T>(x: seq<T>, n: nat, rank: nat, padding: bool, zero: T): seq<T>
    requires rank < n
  {
    var padded := if padding && |x| % n != 0 then x + seq(n - |x| % n, _ => zero) else x;
    WholePart(|padded|, n);
    Chunk(padded, n, |padded| / n, rank)
  }

  lemma WholePart(size: nat, n: nat)
    requires n > 0
    ensures n * (size / n) <= size
    ensures n * (size / n) == size <==> size % n == 0
  {
    assert size == n * (size / n) + size % n;
  }

  function SliceAll<T>(x: seq<T>, n: nat, padding: bool, zero: T): seq<seq<T>> {
    seq(n, rank requires 0 <= rank < n => SliceInput(x, n, rank, padding, zero))
  }

  /** `gather_outputs_and_unpad`: every rank holds the concatenation, less the padding. */
  function GatherAndUnpad<T>(locals: seq<seq<T>>, padding: nat): seq<T> {
    var x := Flatten(locals);
    if padding == 0 then x else if padding <= |x| then x[..|x| - padding] else []
  }

  lemma SlicesJoin<T>(x: seq<T>, n: nat, zero: T)
    requires n > 0
    ensures n * (|x| / n) <= |x| && Flatten(SliceAll(x, n, false, zero)) == x[..n * (|x| / n)]
  {
    WholePart(|x|, n);
    FlattenChunks(x, n, |x| / n);
    assert SliceAll(x, n, false, zero) == ChunksOf(x, n, |x| / n);
  }

  /** Without padding the slices lose something unless the ranks divide the length. */
  lemma SlicesKeepAllIff<T>(x: seq<T>, n: nat, zero: T)
    requires n > 0
    ensures Flatten(SliceAll(x, n, false, zero)) == x <==> |x| % n == 0
  {
    SlicesJoin(x, n, zero);
    WholePart(|x|, n);
  }

  lemma PadDivides(size: nat, n: nat)
    requires n > 0
    ensures (size + (n - size % n) % n) % n == 0
  {
    var q, r := size / n, size % n;
    assert size == q * n + r;
    if r == 0 {
      DivModUnique(n, n, 1, 0);
    } else {
      DivModUnique(n - r, n, 0, n - r);
      assert (q + 1) * n == q * n + n;
      MultipleHasNoRemainder(q + 1, n);
    }
  }

  /** Padding, slicing by rank, gathering and unpadding is the identity for every length and number of ranks. */
  lemma PadSliceGatherUnpad<T>(ids: seq<T>, n: nat, padValue: T, zero: T)
    requires n > 0
    ensures var (padded, pad) := UlyssesPad(ids, n, padValue);
      |padded| % n == 0 && pad < n && GatherAndUnpad(SliceAll(padded, n, false, zero), pad) == ids
  {
    var (padded, pad) := UlyssesPad(ids, n, padValue);
    PadDivides(|ids|, n);
    SlicesKeepAllIff(padded, n, zero);
    assert padded[..|ids|] == ids;
  }

  /** Padding goes behind the ids, up to the next multiple of the number of ranks and no further. */
  lemma PaddedIds<T>(ids: seq<T>, n: nat, padValue: T, i: nat, blocks: nat)
    requires n > 0
    ensures var (padded, pad) := UlyssesPad(ids, n, padValue);
      |padded| == |ids| + pad && |padded| % n == 0 && (|ids| <= blocks * n ==> |padded| <= blocks * n) &&
      (i < |padded| ==> padded[i] == if i < |ids| then ids[i] else padValue)
  {
    var (padded, pad) := UlyssesPad(ids, n, padValue);
    PadDivides(|ids|, n);
    if |ids| <= blocks * n {
      LeastMultiple(|ids|, |padded|, n, blocks);
    }
  }

  lemma LeastMultiple(size: nat, padded: nat, n: nat, blocks: nat)
    requires n > 0 && padded % n == 0 && padded < size + n && size <= blocks * n
    ensures padded <= blocks * n
  {
    assert padded == padded / n * n;
    assert (blocks + 1) * n == blocks * n + n;
    MulCancel(padded / n, blocks + 1, n);
    MulMonotone(padded / n, blocks, n);
  }

  lemma ShareOf(size: nat, padded: nat, n: nat)
    requires n > 0 && padded == size + (if size % n != 0 then n - size % n else 0)
    ensures size <= n * (padded / n) == padded < size + n
  {
    assert size == size / n * n + size % n;
    assert (size / n + 1) * n == size / n * n + n;
    MultipleHasNoRemainder(size / n + 1, n);
    MultipleHasNoRemainder(size / n, n);
  }

  lemma ChunkEntry<T>(s: seq<T>, n: nat, share: nat, rank: nat, i: nat, at: nat)
    requires rank < n && n * share <= |s| && i < share && at == rank * share + i
    ensures at < |s| && Chunk(s, n, share, rank)[i] == s[at]
  {
    ChunkInRange(n, share, rank);
  }

  /** With padding, a rank's slice has its share of the least multiple, and zeros where the input has ended. */
  lemma PaddedSlice<T>(x: seq<T>, n: nat, rank: nat, zero: T, i: nat, at: nat)
    requires rank < n && at == rank * |SliceInput(x, n, rank, true, zero)| + i
    ensures var slice := SliceInput(x, n, rank, true, zero);
      |x| <= n * |slice| < |x| + n && (i < |slice| ==> slice[i] == if at < |x| then x[at] else zero)
  {
    hide Chunk;
    var padded := if |x| % n != 0 then x + seq(n - |x| % n, _ => zero) else x;
    ShareOf(|x|, |padded|, n);
    if i < |padded| / n {
      ChunkEntry(padded, n, |padded| / n, rank, i, at);
    }
  }

  // ---------- Packed positions ----------

  /** Positions of sequences packed one after the other: each starts at zero. */
  function Packed(lens: seq<nat>): seq<nat> { Flatten(Map(Range, lens)) }

  /** `ulysses_pad` on position ids: the pad counts from zero. */
  function PadPositions(positions: seq<nat>, n: nat): seq<nat> {
    positions + Range(UlyssesPad(positions, n, 0).1)
  }

  predicate IsZero(p: nat) { p == 0 }

  function Zeros(positions: seq<nat>): seq<nat> { Nonzero(Map(IsZero, positions)) }

  /** The boundaries `prepare_fa2_from_position_ids` reads off: the positions of the zeros, and the end. */
  function CuSeqlens(positions: seq<nat>): seq<nat> {
    Zeros(positions) + [|positions|]
  }

  /** 0, l0, l0 + l1, ... */
  function PrefixSums(lens: seq<nat>): (r: seq<nat>)
    ensures |r| == |lens| + 1
  {
    if lens == [] then [0]
    else
      var r := PrefixSums(lens[..|lens| - 1]);
      r + [r[|r| - 1] + lens[|lens| - 1]]
  }

  predicate AllPositive(lens: seq<nat>) { forall i :: 0 <= i < |lens| ==> lens[i] > 0 }

  function NonEmpty(lens: seq<nat>): (r: seq<nat>)
    ensures |r| <= |lens| && (|r| == |lens| <==> AllPositive(lens))
    ensures |r| == |lens| ==> r == lens
  {
    if lens == [] then []
    else
      NonEmpty(lens[..|lens| - 1]) + (if lens[|lens| - 1] > 0 then [lens[|lens| - 1]] else [])
  }

  lemma ZerosNext(positions: seq<nat>, p: nat)
    ensures Zeros(positions + [p]) == Zeros(positions) + (if p == 0 then [|positions|] else [])
  {
    assert Map(IsZero, positions + [p])[..|positions|] == Map(IsZero, positions);
  }

  lemma {:induction false} ZerosAppend(positions: seq<nat>, k: nat)
    ensures Zeros(positions + Range(k)) == Zeros(positions) + (if k == 0 then [] else [|positions|])
  {
    hide Zeros;
    if k == 0 {
      assert positions + Range(0) == positions;
    } else {
      ZerosAppend(positions, k - 1);
      assert positions + Range(k) == positions + Range(k - 1) + [k - 1];
      ZerosNext(positions + Range(k - 1), k - 1);
      assert k == 1 ==> positions + Range(k - 1) == positions;
    }
  }

  lemma BoundariesAppend(positions: seq<nat>, k: nat)
    ensures CuSeqlens(positions + Range(k)) ==
      if k == 0 then CuSeqlens(positions) else CuSeqlens(positions) + [|positions| + k]
  {
    ZerosAppend(positions, k);
    assert Zeros(positions) + [] == Zeros(positions) && (k == 0 ==> positions + Range(k) == positions);
  }

  lemma {:induction false} PackedTotal(lens: seq<nat>)
    ensures var r := PrefixSums(NonEmpty(lens));
      r[|r| - 1] == |Packed(lens)|
  {
    hide Packed, Range;
    if lens == [] {
      NothingPackedTotal();
    } else {
      PackedTotal(lens[..|lens| - 1]);
      PackedNext(lens);
      var lengths, k := NonEmpty(lens[..|lens| - 1]), lens[|lens| - 1];
      assert (lengths + [k])[..|lengths|] == lengths && lengths + [] == lengths;
    }
  }

  lemma NothingPackedTotal()
    ensures Packed([]) == []
  {
  }

  lemma PackedNext(lens: seq<nat>)
    requires lens != []
    ensures Packed(lens) == Packed(lens[..|lens| - 1]) + Range(lens[|lens| - 1])
  {
    assert Map(Range, lens)[..|lens| - 1] == Map(Range, lens[..|lens| - 1]);
  }

  lemma NothingPacked()
    ensures CuSeqlens(Packed([])) == [0]
  {
  }

  /** The boundaries are the prefix sums of the lengths; a sequence of length zero leaves no trace. */
  lemma {:induction false} BoundariesOfPacked(lens: seq<nat>)
    ensures CuSeqlens(Packed(lens)) == PrefixSums(NonEmpty(lens))
  {
    hide CuSeqlens, Packed;
    if lens == [] {
      NothingPacked();
    } else {
      var prior, k := lens[..|lens| - 1], lens[|lens| - 1];
      BoundariesOfPacked(prior);
      PackedNext(lens);
      BoundariesAppend(Packed(prior), k);
      PackedTotal(prior);
      var lengths := NonEmpty(prior);
      assert (lengths + [k])[..|lengths|] == lengths && lengths + [] == lengths;
    }
  }

  /** So the lengths are recovered exactly when none of them is zero. */
  lemma BoundariesExactIff(lens: seq<nat>)
    ensures CuSeqlens(Packed(lens)) == PrefixSums(lens) <==> AllPositive(lens)
  {
    BoundariesOfPacked(lens);
  }

  /** A single empty sequence, for one, is taken for no sequence. */
  lemma EmptySequenceLost()
    ensures CuSeqlens(Packed([0])) == [0] && PrefixSums([0]) == [0, 0]
  {
    hide CuSeqlens, Packed;
    BoundariesOfPacked([0]);
    assert PrefixSums([]) == [0];
    assert NonEmpty([0]) == NonEmpty([]) == [];
  }

  /** The padding becomes one more sequence behind the others. */
  lemma PadIsOneSequence(lens: seq<nat>, n: nat)
    requires n > 0
    ensures var pad := UlyssesPad(Packed(lens), n, 0).1;
      CuSeqlens(PadPositions(Packed(lens), n)) ==
        PrefixSums(NonEmpty(lens)) + (if pad == 0 then [] else [|Packed(lens)| + pad])
  {
    hide CuSeqlens, Packed;
    BoundariesOfPacked(lens);
    BoundariesAppend(Packed(lens), UlyssesPad(Packed(lens), n, 0).1);
  }

  // ---------- Visual tokens ----------

  lemma CountsRise(mask: seq<bool>, start: nat, end: nat)
    requires start <= end <= |mask|
    ensures Count(mask[..start]) <= Count(mask[..end]) <= Count(mask)
    ensures Count(mask[..end]) - Count(mask[..start]) == Count(mask[start..end])
  {
    CountSplit(mask, start, end);
    CountSplit(mask, end, |mask|);
    assert mask[..|mask|] == mask;
  }

  /** The embeddings of the visual tokens between two positions, as the wrapped decoder cuts them. */
  function EmbedsBetween<E>(mask: seq<bool>, embeds: seq<E>, start: nat, end: nat): seq<E>
    requires start <= end <= |mask| && |embeds| == Count(mask)
  {
    CountsRise(mask, start, end);
    if Count(mask[start..end]) > 0 && Count(mask) > 0
    then embeds[Count(mask[..start])..Count(mask[..end])]
    else embeds[..0]
  }

  lemma EmbedsBetweenBounds<E>(mask: seq<bool>, embeds: seq<E>, start: nat, end: nat)
    requires start <= end <= |mask| && |embeds| == Count(mask)
    ensures Count(mask[..start]) <= Count(mask[..end]) <= |embeds|
    ensures EmbedsBetween(mask, embeds, start, end) == embeds[Count(mask[..start])..Count(mask[..end])]
    ensures |EmbedsBetween(mask, embeds, start, end)| == Count(mask[start..end])
  {
    CountsRise(mask, start, end);
  }

  /** Each visual token of the shard finds its own embedding at its place among the shard's visual tokens. */
  lemma EmbedsBetweenMatch<E>(mask: seq<bool>, embeds: seq<E>, start: nat, end: nat, p: nat)
    requires start <= p < end <= |mask| && |embeds| == Count(mask) && mask[p]
    ensures var own := EmbedsBetween(mask, embeds, start, end);
      Count(mask[start..p]) < |own| && Count(mask[..p]) < |embeds| && own[Count(mask[start..p])] == embeds[Count(mask[..p])]
  {
    hide EmbedsBetween, Count;
    EmbedsBetweenBounds(mask, embeds, start, end);
    CountsRise(mask, start, p);
    CountsRise(mask, p + 1, end);
    CountsRise(mask, start, end);
    CountNext(mask, p);
  }

  /** Where a rank's slice of the sequence lies. */
  function SliceStart(size: nat, n: nat, rank: nat): (start: nat)
    requires rank < n
    ensures start + size / n <= size
  {
    WholePart(size, n);
    ChunkInRange(n, size / n, rank);
    rank * (size / n)
  }

  lemma SliceIsBetween<T>(x: seq<T>, n: nat, rank: nat, zero: T)
    requires rank < n
    ensures var start := SliceStart(|x|, n, rank);
      SliceInput(x, n, rank, false, zero) == x[start..start + |x| / n]
  {
  }

  /** A rank's slice of the visual embeddings. */
  function VisualSlice<E>(mask: seq<bool>, embeds: seq<E>, n: nat, rank: nat): seq<E>
    requires rank < n && |embeds| == Count(mask)
  {
    var start := SliceStart(|mask|, n, rank);
    EmbedsBetween(mask, embeds, start, start + |mask| / n)
  }

  /** A rank gets as many embeddings as its shard of the mask has visual tokens, each with its own token. */
  lemma VisualSliceMatchesShard<E>(mask: seq<bool>, embeds: seq<E>, n: nat, rank: nat, i: nat)
    requires rank < n && |embeds| == Count(mask)
    ensures var shard, own := SliceInput(mask, n, rank, false, false), VisualSlice(mask, embeds, n, rank);
      |own| == Count(shard) &&
      (i < |shard| && shard[i] ==>
         var p := SliceStart(|mask|, n, rank) + i;
         Count(shard[..i]) < |own| && Count(mask[..p]) < |embeds| && own[Count(shard[..i])] == embeds[Count(mask[..p])])
  {
    hide Count, SliceStart;
    var start, size := SliceStart(|mask|, n, rank), |mask| / n;
    SliceIsBetween(mask, n, rank, false);
    EmbedsBetweenBounds(mask, embeds, start, start + size);
    var shard := mask[start..start + size];
    if i < |shard| && shard[i] {
      EmbedsBetweenMatch(mask, embeds, start, start + size, start + i);
      assert shard[..i] == mask[start..start + i];
    }
  }

  /** The slices of all ranks. */
  function VisualSlices<E>(mask: seq<bool>, embeds: seq<E>, n: nat): (r: seq<seq<E>>)
    requires |embeds| == Count(mask)
    ensures |r| == n && forall rank :: 0 <= rank < n ==> r[rank] == VisualSlice(mask, embeds, n, rank)
  {
    seq(n, rank requires 0 <= rank < n => VisualSlice(mask, embeds, n, rank))
  }

  lemma NextSlice<E>(mask: seq<bool>, embeds: seq<E>, n: nat, rank: nat)
    requires rank < n && |embeds| == Count(mask)
    ensures var start := SliceStart(|mask|, n, rank);
      Count(mask[..start]) <= |embeds| && Count(mask[..start + |mask| / n]) <= |embeds| &&
      embeds[..Count(mask[..start])] + VisualSlice(mask, embeds, n, rank) == embeds[..Count(mask[..start + |mask| / n])]
  {
    hide Count, SliceStart, EmbedsBetween;
    var start := SliceStart(|mask|, n, rank);
    NextBetween(mask, embeds, start, start + |mask| / n);
  }

  lemma NextBetween<E>(mask: seq<bool>, embeds: seq<E>, start: nat, end: nat)
    requires start <= end <= |mask| && |embeds| == Count(mask)
    ensures Count(mask[..start]) <= Count(mask[..end]) <= |embeds|
    ensures embeds[..Count(mask[..start])] + EmbedsBetween(mask, embeds, start, end) == embeds[..Count(mask[..end])]
  {
    hide *;
    EmbedsBetweenBounds(mask, embeds, start, end);
    JoinSlices(embeds, Count(mask[..start]), Count(mask[..end]));
  }

  lemma JoinSlices<E>(s: seq<E>, i: nat, j: nat)
    requires i <= j <= |s|
    ensures s[..i] + s[i..j] == s[..j]
  {
  }

  /** Where the first k slices end. */
  function SlicesEnd(size: nat, n: nat, k: nat): (end: nat)
    requires k <= n
    ensures end <= size
    ensures k == 0 ==> end == 0
    ensures k > 0 ==> end == SliceStart(size, n, k - 1) + size / n
    ensures k < n ==> end == SliceStart(size, n, k)
  {
    if k == 0 then 0 else SliceStart(size, n, k - 1) + size / n
  }

  lemma {:induction false} VisualSlicesPrefix<E>(mask: seq<bool>, embeds: seq<E>, n: nat, k: nat)
    requires k <= n && |embeds| == Count(mask)
    ensures Count(mask[..SlicesEnd(|mask|, n, k)]) <= |embeds|
    ensures Flatten(VisualSlices(mask, embeds, n)[..k]) == embeds[..Count(mask[..SlicesEnd(|mask|, n, k)])]
  {
    hide VisualSlice, SliceStart, SlicesEnd;
    var slices := VisualSlices(mask, embeds, n);
    if k == 0 {
      assert mask[..0] == [];
    } else {
      VisualSlicesPrefix(mask, embeds, n, k - 1);
      NextSlice(mask, embeds, n, k - 1);
      assert slices[..k][..k - 1] == slices[..k - 1];
    }
  }

  /** All slices together are the embeddings, exactly when no visual token lies behind the last whole slice. */
  lemma VisualSlicesJoin<E>(mask: seq<bool>, embeds: seq<E>, n: nat)
    requires n > 0 && |embeds| == Count(mask)
    ensures Flatten(VisualSlices(mask, embeds, n)) == embeds <==> Count(mask[SlicesEnd(|mask|, n, n)..]) == 0
    ensures |mask| % n == 0 ==> Flatten(VisualSlices(mask, embeds, n)) == embeds
  {
    hide VisualSlice, SlicesEnd, SliceStart, Count;
    var slices, end := VisualSlices(mask, embeds, n), SlicesEnd(|mask|, n, n);
    VisualSlicesPrefix(mask, embeds, n, n);
    assert slices[..n] == slices;
    CountsRise(mask, end, |mask|);
    assert mask[..|mask|] == mask && mask[end..|mask|] == mask[end..];
    if |mask| % n == 0 {
      SlicesEndAtEnd(|mask|, n);
      assert mask[..end] == mask;
    }
  }

  lemma SlicesEndAtEnd(size: nat, n: nat)
    requires n > 0 && size % n == 0
    ensures SlicesEnd(size, n, n) == size
  {
    WholePart(size, n);
    ChunkInRange(n, size / n, n - 1);
  }
}
