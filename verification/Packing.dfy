/** Removing padding, and log-probabilities on packed tokens. */
module Packing {
  import opened Sequences
  import opened Arithmetic
  import opened Chunks
  import opened Masks

  /** The rows of a batch have one length. */
  ghost predicate Rectangular<T>(rows: seq<seq<T>>, size: nat) {
    forall b :: 0 <= b < |rows| ==> |rows[b]| == size
  }

  /** Where row b starts in the flattened batch. */
  function RowStart(n: nat, size: nat, b: nat): (start: nat)
    requires b < n
    ensures start + size <= n * size
  {
    ChunkInRange(n, size, b);
    b * size
  }

  lemma FlattenEntry<T>(rows: seq<seq<T>>, size: nat, b: nat, i: nat)
    requires Rectangular(rows, size) && b < |rows| && i < size
    ensures |Flatten(rows)| == |rows| * size
    ensures Flatten(rows)[RowStart(|rows|, size, b) + i] == rows[b][i]
  {
    hide RowStart, Flatten;
    FlattenRow(rows, size, b);
    var start := RowStart(|rows|, size, b);
    assert Flatten(rows)[start..start + size][i] == Flatten(rows)[start + i];
  }

  lemma FlattenRow<T>(rows: seq<seq<T>>, size: nat, b: nat)
    requires Rectangular(rows, size) && b < |rows|
    ensures |Flatten(rows)| == |rows| * size
    ensures var start := RowStart(|rows|, size, b);
      Flatten(rows)[start..start + size] == rows[b]
  {
    ChunksFlatten(rows, size);
    assert ChunksOf(Flatten(rows), |rows|, size)[b] == rows[b];
  }

  // ---------- Unpad and pad ----------

  /** `unpad_input`: the rows the mask keeps, in order. */
  function Unpad<T>(flat: seq<T>, mask: seq<bool>): (r: seq<T>)
    requires |flat| == |mask|
    ensures |r| == Count(mask)
  {
    Select(flat, Nonzero(mask))
  }

  /** The buffer after the first n writes of `output[indices] = values`. */
  function Scatter<T>(values: seq<T>, indices: seq<nat>, size: nat, zero: T, n: nat): (r: seq<T>)
    requires n <= |indices| == |values| && InRange(indices, size)
    ensures |r| == size
  {
    if n == 0 then seq(size, _ => zero) else Scatter(values, indices, size, zero, n - 1)[indices[n - 1] := values[n - 1]]
  }

  function Pad<T>(values: seq<T>, indices: seq<nat>, size: nat, zero: T): (r: seq<T>)
    requires |indices| == |values| && InRange(indices, size)
    ensures |r| == size
  {
    Scatter(values, indices, size, zero, |indices|)
  }

  /** `IndexPutFirstAxis.forward`: a zeroed buffer that the values are written into. */
  method IndexPutFirstAxis<T>(values: seq<T>, indices: seq<nat>, size: nat, zero: T) returns (output: array<T>)
    requires |indices| == |values| && InRange(indices, size)
    ensures fresh(output) && output[..] == Pad(values, indices, size, zero)
  {
    output := new T[size](_ => zero);
    for i := 0 to |indices|
      invariant output[..] == Scatter(values, indices, size, zero, i)
    {
      output[indices[i]] := values[i];
    }
  }

  lemma {:induction false} ScatterAt<T>(values: seq<T>, indices: seq<nat>, size: nat, zero: T, n: nat, p: nat)
    requires n <= |indices| == |values| && InRange(indices, size) && p < size
    requires forall i, j :: 0 <= i < j < |indices| ==> indices[i] != indices[j]
    ensures forall i :: 0 <= i < n && indices[i] == p ==> Scatter(values, indices, size, zero, n)[p] == values[i]
    ensures (forall i :: 0 <= i < n ==> indices[i] != p) ==> Scatter(values, indices, size, zero, n)[p] == zero
  {
    if n > 0 {
      ScatterAt(values, indices, size, zero, n - 1, p);
    }
  }

  /** A padded position holds the packed value of its rank, and zero where the mask is off. */
  lemma PadAt<T>(values: seq<T>, mask: seq<bool>, zero: T, p: nat)
    requires |values| == Count(mask) && p < |mask|
    ensures Count(mask[..p]) <= Count(mask)
    ensures var r := Pad(values, Nonzero(mask), |mask|, zero);
      if mask[p] then Count(mask[..p]) < |values| && r[p] == values[Count(mask[..p])] else r[p] == zero
  {
    ScatterAt(values, Nonzero(mask), |mask|, zero, |values|, p);
    CountSplit(mask, p, |mask|);
    assert mask[..|mask|] == mask;
    if mask[p] {
      Rank(mask, p);
    }
  }

  /** Unpadding and padding keeps what the mask keeps and zeroes the rest. */
  lemma PadOfUnpad<T>(flat: seq<T>, mask: seq<bool>, zero: T, p: nat)
    requires |flat| == |mask| && p < |mask|
    ensures Pad(Unpad(flat, mask), Nonzero(mask), |mask|, zero)[p] == if mask[p] then flat[p] else zero
  {
    PadAt(Unpad(flat, mask), mask, zero, p);
    if mask[p] {
      Rank(mask, p);
    }
  }

  /** Padding and unpadding is the identity. */
  lemma UnpadOfPad<T>(values: seq<T>, mask: seq<bool>, zero: T)
    requires |values| == Count(mask)
    ensures Unpad(Pad(values, Nonzero(mask), |mask|, zero), mask) == values
  {
    var padded, indices := Pad(values, Nonzero(mask), |mask|, zero), Nonzero(mask);
    forall i | 0 <= i < |values| ensures padded[indices[i]] == values[i] {
      ScatterAt(values, indices, |mask|, zero, |values|, indices[i]);
    }
  }

  /** A stretch of the flattened batch. */
  ghost predicate IsRun<T>(flat: seq<T>, start: nat, run: seq<T>) {
    start + |run| <= |flat| && run == flat[start..start + |run|]
  }

  lemma KeptInRun(flat: seq<bool>, start: nat, run: seq<bool>, i: nat)
    requires IsRun(flat, start, run) && i < Count(run)
    ensures start <= |flat|
    ensures var rank := Count(flat[..start]) + i;
      rank < Count(flat) && Nonzero(flat)[rank] == start + Nonzero(run)[i]
  {
    hide *;
    var j := Nonzero(run)[i];
    RankInverse(run, i);
    RunPrefix(flat, start, run, j);
    KeptAt(flat, start, j, run[..j]);
  }

  lemma RunPrefix<T>(flat: seq<T>, start: nat, run: seq<T>, j: nat)
    requires IsRun(flat, start, run) && j < |run|
    ensures start + j < |flat| && run[..j] == flat[start..start + j] && run[j] == flat[start + j]
  {
  }

  lemma KeptAt(flat: seq<bool>, start: nat, j: nat, part: seq<bool>)
    requires start + j < |flat| && part == flat[start..start + j] && flat[start + j]
    ensures var rank := Count(flat[..start]) + Count(part);
      rank < Count(flat) && Nonzero(flat)[rank] == start + j
  {
    hide *;
    SplitCount(flat, start, j, part);
    Rank(flat, start + j);
  }

  lemma SplitCount(flat: seq<bool>, start: nat, j: nat, part: seq<bool>)
    requires start + j <= |flat| && part == flat[start..start + j]
    ensures Count(flat[..start + j]) == Count(flat[..start]) + Count(part)
  {
    CountSplit(flat, start, start + j);
  }

  lemma RunFits(mask: seq<bool>, start: nat, end: nat)
    requires start <= end <= |mask|
    ensures Count(mask[..start]) + Count(mask[start..end]) <= Count(mask)
  {
    CountSplit(mask, start, end);
    CountSplit(mask, end, |mask|);
    assert mask[..|mask|] == mask;
  }

  lemma RunIsPackedTogether<T>(flat: seq<T>, mask: seq<bool>, start: nat, end: nat)
    requires |flat| == |mask| && start <= end <= |mask|
    ensures var from, run := Count(mask[..start]), mask[start..end];
      from + Count(run) <= Count(mask) &&
      Unpad(flat, mask)[from..from + Count(run)] == Unpad(flat[start..end], run)
  {
    hide Count, Nonzero;
    var from, run := Count(mask[..start]), mask[start..end];
    RunFits(mask, start, end);
    forall i | 0 <= i < Count(run)
      ensures Unpad(flat, mask)[from + i] == Unpad(flat[start..end], run)[i]
    {
      KeptInRun(mask, start, run, i);
    }
    assert Unpad(flat, mask)[from..from + Count(run)] == Unpad(flat[start..end], run);
  }

  /** The packed tokens of one row lie together, behind those of the rows before it. */
  lemma RowIsPackedTogether<T>(rows: seq<seq<T>>, masks: seq<seq<bool>>, size: nat, b: nat)
    requires Rectangular(rows, size) && Rectangular(masks, size) && |rows| == |masks| && b < |rows|
    ensures |Flatten(rows)| == |Flatten(masks)| == |rows| * size
    ensures var mask := Flatten(masks);
      var from := Count(mask[..RowStart(|rows|, size, b)]);
      from + Count(masks[b]) <= Count(mask) &&
      Unpad(Flatten(rows), mask)[from..from + Count(masks[b])] == Unpad(rows[b], masks[b])
  {
    hide RowStart, Unpad, Count, Flatten;
    FlattenRow(rows, size, b);
    FlattenRow(masks, size, b);
    var start := RowStart(|rows|, size, b);
    RunIsPackedTogether(Flatten(rows), Flatten(masks), start, start + size);
  }

  lemma {:induction false} RankInverse(mask: seq<bool>, i: nat)
    requires i < Count(mask)
    ensures Count(mask[..Nonzero(mask)[i]]) == i
    decreases |mask|
  {
    var n := |mask| - 1;
    if i < Count(mask[..n]) {
      RankInverse(mask[..n], i);
      assert mask[..n][..Nonzero(mask)[i]] == mask[..Nonzero(mask)[i]];
    }
  }

  // ---------- Log-probabilities ----------

  /** `torch.roll(x, shifts=-1)` */
  function Roll<T>(x: seq<T>): (r: seq<T>)
    ensures |r| == |x| && forall i :: 0 <= i < |x| ==> r[i] == x[if i + 1 < |x| then i + 1 else 0]
  {
    if x == [] then [] else x[1..] + [x[0]]
  }

  /** `log_probs_from_logits_response` for one position: the logits of s score the token at s + 1. */
  function Dense<L, V>(ids: seq<seq<int>>, logits: seq<seq<L>>, response: nat, lp: (L, int) -> V,
                       size: nat, b: nat, k: nat): V
    requires |ids| == |logits| && b < |ids| && |ids[b]| == |logits[b]| == size
    requires k < response < size
  {
    lp(logits[b][size - response - 1 + k], ids[b][size - response + k])
  }

  /** `log_probs_from_logits_response_rmpad` before it is cut into rows. */
  function PackedLogProbs<L, V>(ids: seq<int>, mask: seq<bool>, logits: seq<L>, lp: (L, int) -> V, zero: V): (r: seq<V>)
    requires |ids| == |mask| && |logits| == Count(mask)
    ensures |r| == |mask|
  {
    var rolled := Roll(Unpad(ids, mask));
    Pad(seq(|logits|, i requires 0 <= i < |logits| => lp(logits[i], rolled[i])), Nonzero(mask), |mask|, zero)
  }

  /** Every position of the packed computation: zero, the score of the next token, or of the next kept token. */
  lemma PackedLogProbsAt<L, V>(ids: seq<int>, mask: seq<bool>, logits: seq<L>, lp: (L, int) -> V, zero: V, p: nat)
    requires |ids| == |mask| == |logits| && p < |mask|
    ensures mask[p] ==> Count(mask[..p]) < Count(mask)
    ensures var r, packed, rank := PackedLogProbs(ids, mask, Unpad(logits, mask), lp, zero), Unpad(ids, mask), Count(mask[..p]);
      if !mask[p] then r[p] == zero
      else if p + 1 < |mask| && mask[p + 1] then r[p] == lp(logits[p], ids[p + 1])
      else r[p] == lp(logits[p], packed[if rank + 1 < |packed| then rank + 1 else 0])
  {
    hide Pad, Nonzero, Count;
    var packed, kept := Unpad(ids, mask), Unpad(logits, mask);
    var values := seq(|kept|, i requires 0 <= i < |kept| => lp(kept[i], Roll(packed)[i]));
    PadAt(values, mask, zero, p);
    if mask[p] {
      Rank(mask, p);
      if p + 1 < |mask| && mask[p + 1] {
        Rank(mask, p + 1);
        CountNext(mask, p);
      }
    }
  }

  /** `log_probs_from_logits_response_rmpad` for one position: row b, cut to the response. */
  function Rmpad<L, V>(ids: seq<seq<int>>, masks: seq<seq<bool>>, logits: seq<L>, response: nat, lp: (L, int) -> V,
                       zero: V, size: nat, b: nat, k: nat): V
    requires |ids| == |masks| && b < |ids| && k < response < size
    requires |Flatten(ids)| == |Flatten(masks)| == |ids| * size && |logits| == Count(Flatten(masks))
  {
    var full := PackedLogProbs(Flatten(ids), Flatten(masks), logits, lp, zero);
    var start := RowStart(|ids|, size, b);
    var row := full[start..start + size];
    row[size - response - 1..size - 1][k]
  }

  /**
   On the logits of the packed tokens the rmpad function agrees with the dense one wherever a response
   token's predecessor and the token itself are both unmasked, whatever the mask; and it is zero where the
   predecessor is masked.
   */
  lemma RmpadAgrees<L, V>(ids: seq<seq<int>>, masks: seq<seq<bool>>, logits: seq<seq<L>>, response: nat,
                          lp: (L, int) -> V, zero: V, size: nat, b: nat, k: nat)
    requires |ids| == |masks| == |logits| && b < |ids| && k < response < size
    requires Rectangular(ids, size) && Rectangular(masks, size) && Rectangular(logits, size)
    ensures |Flatten(ids)| == |Flatten(masks)| == |Flatten(logits)| == |ids| * size
    ensures var s := size - response - 1 + k;
      var output := Rmpad(ids, masks, Unpad(Flatten(logits), Flatten(masks)), response, lp, zero, size, b, k);
      Dense(ids, logits, response, lp, size, b, k) == lp(logits[b][s], ids[b][s + 1]) &&
      (masks[b][s] && masks[b][s + 1] ==> output == Dense(ids, logits, response, lp, size, b, k)) &&
      (!masks[b][s] ==> output == zero)
  {
    hide *;
    var s := size - response - 1 + k;
    var p := RowStart(|ids|, size, b) + s;
    EntriesAt(ids, size, b, s, p);
    EntriesAt(masks, size, b, s, p);
    EntriesAt(logits, size, b, s, p);
    DenseIs(ids, logits, response, lp, size, b, k);
    AgreesAt(ids, masks, Flatten(logits), response, lp, zero, size, b, k, p);
  }

  /** The agreement in terms of the flattened batch. */
  lemma AgreesAt<L, V>(ids: seq<seq<int>>, masks: seq<seq<bool>>, logits: seq<L>, response: nat, lp: (L, int) -> V,
                       zero: V, size: nat, b: nat, k: nat, p: nat)
    requires |ids| == |masks| && b < |ids| && k < response < size
    requires |Flatten(ids)| == |Flatten(masks)| == |logits| == |ids| * size
    requires p == RowStart(|ids|, size, b) + (size - response - 1 + k) && p + 1 < |logits|
    ensures var mask := Flatten(masks);
      var output := Rmpad(ids, masks, Unpad(logits, mask), response, lp, zero, size, b, k);
      (mask[p] && mask[p + 1] ==> output == lp(logits[p], Flatten(ids)[p + 1])) && (!mask[p] ==> output == zero)
  {
    hide *;
    RmpadIsPacked(ids, masks, Unpad(logits, Flatten(masks)), response, lp, zero, size, b, k, p);
    PackedFollows(Flatten(ids), Flatten(masks), logits, lp, zero, p);
  }

  /** Two neighbours of a row, in the flattened batch. */
  lemma EntriesAt<T>(rows: seq<seq<T>>, size: nat, b: nat, s: nat, p: nat)
    requires Rectangular(rows, size) && b < |rows| && s + 1 < size && p == RowStart(|rows|, size, b) + s
    ensures |rows[b]| == size && |Flatten(rows)| == |rows| * size && p + 1 < |Flatten(rows)|
    ensures Flatten(rows)[p] == rows[b][s] && Flatten(rows)[p + 1] == rows[b][s + 1]
  {
    hide RowStart, Flatten;
    FlattenEntry(rows, size, b, s);
    FlattenEntry(rows, size, b, s + 1);
  }

  lemma DenseIs<L, V>(ids: seq<seq<int>>, logits: seq<seq<L>>, response: nat, lp: (L, int) -> V, size: nat, b: nat, k: nat)
    requires |ids| == |logits| && b < |ids| && Rectangular(ids, size) && Rectangular(logits, size) && k < response < size
    ensures |ids[b]| == |logits[b]| == size
    ensures var s := size - response - 1 + k;
      Dense(ids, logits, response, lp, size, b, k) == lp(logits[b][s], ids[b][s + 1])
  {
  }

  /** The two cases that carry over to the dense form. */
  lemma PackedFollows<L, V>(ids: seq<int>, mask: seq<bool>, logits: seq<L>, lp: (L, int) -> V, zero: V, p: nat)
    requires |ids| == |mask| == |logits| && p < |mask|
    ensures var r := PackedLogProbs(ids, mask, Unpad(logits, mask), lp, zero);
      (mask[p] && p + 1 < |mask| && mask[p + 1] ==> r[p] == lp(logits[p], ids[p + 1])) && (!mask[p] ==> r[p] == zero)
  {
    hide PackedLogProbs, Unpad, Count;
    PackedLogProbsAt(ids, mask, logits, lp, zero, p);
  }

  lemma RmpadIsPacked<L, V>(ids: seq<seq<int>>, masks: seq<seq<bool>>, logits: seq<L>, response: nat,
                            lp: (L, int) -> V, zero: V, size: nat, b: nat, k: nat, p: nat)
    requires |ids| == |masks| && b < |ids| && k < response < size
    requires |Flatten(ids)| == |Flatten(masks)| == |ids| * size && |logits| == Count(Flatten(masks))
    requires p == RowStart(|ids|, size, b) + (size - response - 1 + k)
    ensures p < |Flatten(masks)|
    ensures Rmpad(ids, masks, logits, response, lp, zero, size, b, k) ==
            PackedLogProbs(Flatten(ids), Flatten(masks), logits, lp, zero)[p]
  {
    hide RowStart, PackedLogProbs, Count, Flatten;
  }
}
