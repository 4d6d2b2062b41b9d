/** Positions of the unmasked tokens, written back to where the attention mask is on. */
module RopeMask {
  import opened Wrappers
  import opened Sequences
  import opened Masks
  import opened Packing
  import opened RopeIndex
  import opened RopeLayout
  import opened RopeProof

  const Filler := Col(1, 1, 1)

  /** Running count of unmasked tokens, from zero, on all three axes; one where the mask is off. */
  function Plain(mask: seq<bool>): (r: seq<Col>)
    ensures |r| == |mask|
  {
    seq(|mask|, p requires 0 <= p < |mask| =>
      var n := Count(mask[..p + 1]) - 1;
      if mask[p] then Col(n, n, n) else Filler)
  }

  /** The token ids: a sample has one dimension, a batch of samples two. */
  datatype TokenIds = TokenIds(shape: seq<nat>, tokens: seq<int>) {
    predicate IsSample() { shape == [|tokens|] }
  }

  /** Which tokens are kept; without a mask all of them. */
  function Kept(ids: TokenIds, mask: Option<seq<bool>>): seq<bool> {
    if mask.Some? then mask.value else seq(|ids.tokens|, _ => true)
  }

  /** `input_ids.shape[d]`; a dimension that is not there raises. */
  function Dimension(ids: TokenIds, d: nat): Result<nat> {
    if d < |ids.shape| then Ok(ids.shape[d]) else Raised
  }

  /** The branch for vision inputs, which lists the kept tokens of one sample. */
  function VisionPositions(v: Vocab, ids: TokenIds, on: seq<bool>, vision: Vision): Result<seq<Col>>
    requires v.merge > 0
  {
    if !ids.IsSample() || |on| != |ids.tokens| then Raised
    else
      var cols :- Positions(v, Unpad(ids.tokens, on), vision);
      Ok(Pad(cols, Nonzero(on), |on|, Filler))
  }

  /** The whole of `get_rope_index`; its last branch counts along the second dimension. */
  function PositionIds(v: Vocab, ids: TokenIds, mask: Option<seq<bool>>, vision: Option<Vision>): Result<seq<Col>>
    requires v.merge > 0
  {
    if vision.Some? then VisionPositions(v, ids, Kept(ids, mask), vision.value)
    else if mask.Some? then Ok(Plain(mask.value))
    else
      var size :- Dimension(ids, 1);
      Ok(TextCols(size, 0))
  }

  /** A sample, with the mask for it if there is one, whose kept tokens are the given segments and tail. */
  ghost predicate Reads(v: Vocab, ids: TokenIds, mask: Option<seq<bool>>, segs: seq<Segment>, tail: seq<int>) {
    SoundSegments(v, segs) && SoundTail(v, tail) && ids.IsSample() && |Kept(ids, mask)| == |ids.tokens| &&
    Unpad(ids.tokens, Kept(ids, mask)) == Tokens(v, segs) + tail != []
  }

  /** An unmasked token has the column of the layout that its rank among the unmasked tokens says. */
  lemma UnmaskedFollowLayout(v: Vocab, ids: TokenIds, mask: Option<seq<bool>>, segs: seq<Segment>, tail: seq<int>,
                             vision: Vision, p: nat)
    requires Reads(v, ids, mask, segs, tail) && Supplied(segs, vision) && p < |ids.tokens|
    ensures v.merge > 0 && PositionIds(v, ids, mask, Some(vision)).Ok?
    ensures var on := Kept(ids, mask);
      var r, cols := PositionIds(v, ids, mask, Some(vision)).value, Flatten(AllBlocks(v, segs, tail, vision));
      Count(on[..p]) <= Count(on) && |r| == |ids.tokens| && |cols| == Count(on) &&
      if on[p] then Count(on[..p]) < |cols| && r[p] == cols[Count(on[..p])] else r[p] == Col(1, 1, 1)
  {
    hide AllBlocks, Positions, Pad, Nonzero, Count, Tokens, StartsFresh, Flatten, Kept;
    RopeIndexIsLayout(v, segs, tail, vision);
    PadAt(Flatten(AllBlocks(v, segs, tail, vision)), Kept(ids, mask), Filler, p);
  }

  /**
   For every well-formed sample the function succeeds exactly when there are vision inputs or a mask: without
   either, it asks for a second dimension, which a sample does not have.
   */
  lemma SampleSucceedsIff(v: Vocab, ids: TokenIds, mask: Option<seq<bool>>, vision: Option<Vision>, segs: seq<Segment>,
                          tail: seq<int>)
    requires Reads(v, ids, mask, segs, tail) && (vision.Some? ==> Supplied(segs, vision.value))
    ensures v.merge > 0 && (PositionIds(v, ids, mask, vision).Ok? <==> mask.Some? || vision.Some?)
  {
    hide AllBlocks, Positions, Pad, Nonzero, Count, Tokens, StartsFresh, Flatten, Kept, Plain;
    if vision.Some? {
      RopeIndexIsLayout(v, segs, tail, vision.value);
    }
  }

  /** The shortest such sample is a single token; the same token in a batch of one is counted. */
  lemma SampleWithoutMask(v: Vocab, token: int)
    requires v.Valid() && token != v.image && token != v.video && token != v.visionStart
    ensures Reads(v, TokenIds([1], [token]), None, [], [token])
    ensures PositionIds(v, TokenIds([1], [token]), None, None) == Raised
    ensures PositionIds(v, TokenIds([1, 1], [token]), None, None) == Ok([Col(0, 0, 0)])
  {
    hide Unpad, Positions, Tokens;
    NoTokens(v);
    AllKept([token]);
    assert TextCols(1, 0) == [Col(0, 0, 0)];
  }

  /** Without vision inputs: a batch is counted along its second dimension, a mask from zero, with one where it is off. */
  lemma WithoutVision(v: Vocab, ids: TokenIds, mask: seq<bool>, p: nat)
    requires v.merge > 0
    ensures |ids.shape| == 2 ==>
      var r := PositionIds(v, ids, None, None);
      r.Ok? && |r.value| == ids.shape[1] && (p < |r.value| ==> r.value[p] == Col(p, p, p))
    ensures p < |mask| ==>
      var r, n := PositionIds(v, ids, Some(mask), None), Count(mask[..p]);
      r.Ok? && |r.value| == |mask| && r.value[p] == if mask[p] then Col(n, n, n) else Col(1, 1, 1)
  {
    hide Count;
    if p < |mask| {
      CountNext(mask, p);
    }
  }

  lemma {:induction false} AllKept(tokens: seq<int>)
    ensures Count(seq(|tokens|, _ => true)) == |tokens|
    ensures Unpad(tokens, seq(|tokens|, _ => true)) == tokens
  {
    var on := seq(|tokens|, _ => true);
    forall p | 0 <= p < |tokens| ensures Count(on[..p]) == p {
      CountOfTrue(on, p);
    }
    CountOfTrue(on, |tokens|);
    assert on[..|tokens|] == on;
    forall p | 0 <= p < |tokens| ensures Nonzero(on)[p] == p {
      Rank(on, p);
    }
  }

  lemma {:induction false} CountOfTrue(mask: seq<bool>, n: nat)
    requires n <= |mask| && forall p :: 0 <= p < |mask| ==> mask[p]
    ensures Count(mask[..n]) == n
  {
    if n > 0 {
      CountOfTrue(mask, n - 1);
      CountNext(mask, n - 1);
    }
  }

  /** On a sample of text alone, the branch for vision inputs gives what the plain branch gives. */
  lemma TextBranchesAgree(v: Vocab, ids: TokenIds, mask: seq<bool>, vision: Vision)
    requires v.Valid() && ids.IsSample() && |mask| == |ids.tokens|
    requires Unpad(ids.tokens, mask) != [] && SoundTail(v, Unpad(ids.tokens, mask))
    ensures PositionIds(v, ids, Some(mask), Some(vision)) == PositionIds(v, ids, Some(mask), None)
  {
    hide Pad, Nonzero, Count, Positions, Plain, AllBlocks, Unpad, Flatten, StartsFresh, TextCols;
    var tail := Unpad(ids.tokens, mask);
    assert Tokens(v, []) + tail == tail;
    RopeIndexIsLayout(v, [], tail, vision);
    TextLayout(v, tail, vision);
    PaddedText(mask);
  }

  lemma PaddedText(mask: seq<bool>)
    ensures Pad(TextCols(Count(mask), 0), Nonzero(mask), |mask|, Filler) == Plain(mask)
  {
    hide Pad, Nonzero, Count;
    forall p | 0 <= p < |mask|
      ensures Pad(TextCols(Count(mask), 0), Nonzero(mask), |mask|, Filler)[p] == Plain(mask)[p]
    {
      PadAt(TextCols(Count(mask), 0), mask, Filler, p);
      CountNext(mask, p);
    }
  }

  lemma TextLayout(v: Vocab, tail: seq<int>, vision: Vision)
    requires v.merge > 0 && tail != []
    ensures Flatten(AllBlocks(v, [], tail, vision)) == TextCols(|tail|, 0)
  {
  }
}
