/** The segment loop of `get_rope_index` builds the layout, and the layout has the shape that it is meant to have for every sample. */
module RopeProof {
  import opened Wrappers
  import opened Sequences
  import opened Chunks
  import opened RopeIndex
  import opened RopeLayout

  // ---------- Properties of the layout ----------

  /** Every block starts, on all three axes, one past the largest entry of all blocks before it. */
  ghost predicate StartsFresh(blocks: seq<seq<Col>>) {
    forall k :: 0 <= k < |blocks| ==> BlockStarts(blocks[k], Fresh(Flatten(blocks[..k])))
  }

  ghost predicate BlockStarts(block: seq<Col>, start: int) {
    block != [] && block[0] == Col(start, start, start)
  }

  lemma AddFresh(blocks: seq<seq<Col>>, next: seq<Col>)
    requires StartsFresh(blocks) && BlockStarts(next, Fresh(Flatten(blocks)))
    ensures StartsFresh(blocks + [next])
  {
    var more := blocks + [next];
    forall k | 0 <= k < |more| ensures BlockStarts(more[k], Fresh(Flatten(more[..k]))) {
      assert more[..k] == if k < |blocks| then blocks[..k] else blocks;
    }
  }

  lemma FlattenLast<T>(s: seq<seq<T>>, x: seq<T>)
    ensures Flatten(s + [x]) == Flatten(s) + x
  {
    assert (s + [x])[..|s|] == s;
  }

  /** A block that starts fresh holds the largest entry. */
  lemma FreshIsHighest(before: seq<Col>, next: seq<Col>)
    requires BlockStarts(next, Fresh(before))
    ensures Fresh(before + next) == MaxEntry(next) + 1
  {
    assert next[0] in next && Highest(next[0]) <= MaxEntry(next);
  }

  lemma {:induction false} BlocksShape(v: Vocab, segs: seq<Segment>, vision: Vision)
    requires SoundSegments(v, segs)
    ensures StartsFresh(Blocks(v, segs, vision))
    ensures |Flatten(Blocks(v, segs, vision))| == |Tokens(v, segs)|
  {
    hide VisionCols, Fresh, StartsFresh, Flatten, Cells;
    if segs == [] {
      NothingStarts();
    } else {
      var prior, last := segs[..|segs| - 1], segs[|segs| - 1];
      BlocksShape(v, prior, vision);
      AddSegment(v, Blocks(v, prior, vision), last, SecondOf(vision, last.isImage, |Kind(prior, false)|));
    }
  }

  lemma NothingStarts()
    ensures StartsFresh([]) && Flatten<Col>([]) == []
  {
  }

  lemma AddSegment(v: Vocab, before: seq<seq<Col>>, last: Segment, second: real)
    requires v.merge > 0 && SoundSegment(v, last) && StartsFresh(before)
    ensures var text := TextCols(|last.text|, Fresh(Flatten(before)));
      var cells := VisionCols(last.grid.t, Height(v, last), Width(v, last), second, Fresh(Flatten(before) + text));
      StartsFresh(before + [text] + [cells]) &&
      |Flatten(before + [text] + [cells])| == |Flatten(before)| + |last.text| + Cells(v, last)
  {
    hide VisionCols, Fresh, StartsFresh;
    var text := TextCols(|last.text|, Fresh(Flatten(before)));
    var base := Fresh(Flatten(before) + text);
    var cells := VisionCols(last.grid.t, Height(v, last), Width(v, last), second, base);
    TextBlock(Flatten(before), |last.text|);
    VisionFirst(last.grid.t, Height(v, last), Width(v, last), second, base);
    VisionSize(last.grid.t, Height(v, last), Width(v, last), second, base);
    AddFresh(before, text);
    FlattenLast(before, text);
    AddFresh(before + [text], cells);
    FlattenLast(before + [text], cells);
  }

  /** What the layout promises: one column a token, blocks that start fresh, and text equal on all axes. */
  lemma LayoutShape(v: Vocab, segs: seq<Segment>, tail: seq<int>, vision: Vision)
    requires SoundSegments(v, segs)
    ensures var blocks := AllBlocks(v, segs, tail, vision);
      StartsFresh(blocks) && |Flatten(blocks)| == |Tokens(v, segs) + tail|
  {
    hide Fresh, StartsFresh, Blocks;
    BlocksShape(v, segs, vision);
    var before := Blocks(v, segs, vision);
    if tail != [] {
      var text := TextCols(|tail|, Fresh(Flatten(before)));
      TextBlock(Flatten(before), |tail|);
      AddFresh(before, text);
      FlattenLast(before, text);
    }
  }

  /** Segment i gives blocks 2i and 2i + 1: its text, equal on the three axes, and its grid. */
  lemma {:induction false} BlockContents(v: Vocab, segs: seq<Segment>, vision: Vision, i: nat)
    requires v.merge > 0 && i < |segs|
    ensures var blocks, s := Blocks(v, segs, vision), segs[i];
      var start := Fresh(Flatten(Blocks(v, segs[..i], vision)));
      blocks[2 * i] == TextCols(|s.text|, start) &&
      blocks[2 * i + 1] == VisionCols(s.grid.t, Height(v, s), Width(v, s),
        SecondOf(vision, s.isImage, |Kind(segs[..i], false)|), Fresh(Flatten(Blocks(v, segs[..i], vision)) + blocks[2 * i]))
  {
    hide VisionCols, Fresh;
    if i < |segs| - 1 {
      BlockContents(v, segs[..|segs| - 1], vision, i);
      assert segs[..|segs| - 1][..i] == segs[..i];
    }
  }

  // ---------- The tokens of a well-formed sample ----------

  lemma {:induction false} PrefixOf(v: Vocab, segs: seq<Segment>, i: nat)
    requires v.merge > 0 && i <= |segs|
    ensures Tokens(v, segs[..i]) <= Tokens(v, segs)
    ensures forall b :: Kind(segs[..i], b) <= Kind(segs, b)
  {
    if i < |segs| {
      PrefixOf(v, segs[..|segs| - 1], i);
      assert segs[..|segs| - 1][..i] == segs[..i];
    } else {
      assert segs[..i] == segs;
    }
  }

  lemma NextKind(segs: seq<Segment>, i: nat, b: bool)
    requires i < |segs|
    ensures Kind(segs[..i + 1], b) == Kind(segs[..i], b) + (if segs[i].isImage == b then [segs[i].grid] else [])
  {
    assert segs[..i + 1][..i] == segs[..i];
  }

  /** Where segment i lies. */
  lemma SegmentAt(v: Vocab, segs: seq<Segment>, i: nat)
    requires v.merge > 0 && i < |segs|
    ensures var start, s := |Tokens(v, segs[..i])|, segs[i];
      var p := start + |s.text|;
      p + Cells(v, s) == |Tokens(v, segs[..i + 1])| <= |Tokens(v, segs)| &&
      Tokens(v, segs)[start..p] == s.text && Tokens(v, segs)[p..p + Cells(v, s)] == Run(v, s)
  {
    hide Cells;
    PrefixOf(v, segs, i + 1);
    assert segs[..i + 1][..i] == segs[..i];
    var all, part, before := Tokens(v, segs), Tokens(v, segs[..i + 1]), Tokens(v, segs[..i]);
    assert part == before + segs[i].text + Run(v, segs[i]);
    assert all == part + all[|part|..];
  }

  lemma {:induction false} SomeLater(segs: seq<Segment>, i: nat, b: bool) returns (j: nat)
    requires i <= |segs| && |Kind(segs[..i], b)| < |Kind(segs, b)|
    ensures i <= j < |segs| && segs[j].isImage == b
    decreases |segs| - i
  {
    assert segs[..|segs|] == segs;
    NextKind(segs, i, b);
    if segs[i].isImage == b {
      j := i;
    } else {
      j := SomeLater(segs, i + 1, b);
    }
  }

  lemma StartsRise(v: Vocab, segs: seq<Segment>, i: nat, j: nat)
    requires v.merge > 0 && i <= j <= |segs|
    ensures |Tokens(v, segs[..i])| <= |Tokens(v, segs[..j])|
  {
    PrefixOf(v, segs[..j], i);
    assert segs[..j][..i] == segs[..i];
  }

  lemma CellsPositive(v: Vocab, s: Segment)
    requires v.merge > 0 && SoundSegment(v, s)
    ensures Cells(v, s) > 0 && Run(v, s)[0] == PadToken(v, s.isImage)
  {
    assert s.grid.t * Height(v, s) > 0;
  }

  /** In the whole sample: no pad token in the text of segment i, and its own pad token right behind. */
  lemma TextThenPad(v: Vocab, segs: seq<Segment>, tail: seq<int>, i: nat)
    requires SoundSegments(v, segs) && i < |segs|
    ensures var start, tokens := |Tokens(v, segs[..i])|, Tokens(v, segs) + tail;
      var p := start + |segs[i].text|;
      p < |Tokens(v, segs)| && tokens[p] == PadToken(v, segs[i].isImage) && NoPads(v, tokens[start..p])
  {
    hide Cells, Run, Tokens;
    SegmentAt(v, segs, i);
    CellsPositive(v, segs[i]);
    var start, all := |Tokens(v, segs[..i])|, Tokens(v, segs);
    var p := start + |segs[i].text|;
    assert (all + tail)[start..p] == all[start..p];
    assert all[p..p + Cells(v, segs[i])][0] == all[p];
  }

  lemma IndexIs(tokens: seq<int>, x: int, from: nat, p: nat)
    requires from <= p < |tokens| && tokens[p] == x && forall k :: 0 <= k < p - from ==> tokens[from..p][k] != x
    ensures x in tokens && Index(tokens, x, from) == Some(p)
  {
    forall i | from <= i < p ensures tokens[i] != x {
      assert tokens[from..p][i - from] == tokens[i];
    }
  }

  lemma IndexBeyond(tokens: seq<int>, x: int, from: nat, p: nat, q: nat)
    requires from <= p < q < |tokens| && tokens[p] != x && tokens[q] == x
    requires forall k :: 0 <= k < p - from ==> tokens[from..p][k] != x
    ensures x in tokens && Index(tokens, x, from).Some? && Index(tokens, x, from).value > p
  {
    forall i | from <= i < p ensures tokens[i] != x {
      assert tokens[from..p][i - from] == tokens[i];
    }
  }

  /** From the start of segment i the next run of its own kind is its own. */
  lemma OwnRun(v: Vocab, segs: seq<Segment>, tail: seq<int>, i: nat, remaining: nat)
    requires SoundSegments(v, segs) && i < |segs| && remaining > 0
    ensures var start := |Tokens(v, segs[..i])|;
      NextRun(Tokens(v, segs) + tail, PadToken(v, segs[i].isImage), remaining, start) == Ok(start + |segs[i].text|)
  {
    hide Tokens, NoPads, Index;
    TextThenPad(v, segs, tail, i);
    var start := |Tokens(v, segs[..i])|;
    OwnNext(v, Tokens(v, segs) + tail, segs[i].isImage, start, start + |segs[i].text|);
  }

  lemma OwnNext(v: Vocab, tokens: seq<int>, isImage: bool, start: nat, p: nat)
    requires start <= p < |tokens| && NoPads(v, tokens[start..p]) && tokens[p] == PadToken(v, isImage)
    ensures PadToken(v, isImage) in tokens && Index(tokens, PadToken(v, isImage), start) == Some(p)
  {
    var text := tokens[start..p];
    assert |text| == p - start;
    assert forall k :: 0 <= k < p - start ==> text[k] != PadToken(v, isImage);
    IndexIs(tokens, PadToken(v, isImage), start, p);
  }

  lemma OtherBeyond(v: Vocab, tokens: seq<int>, isImage: bool, start: nat, p: nat, q: nat)
    requires v.Valid() && start <= p < q < |tokens| && NoPads(v, tokens[start..p])
    requires tokens[p] == PadToken(v, isImage) && tokens[q] == PadToken(v, !isImage)
    ensures var x := PadToken(v, !isImage);
      x in tokens && Index(tokens, x, start).Some? && Index(tokens, x, start).value > p
  {
    var text := tokens[start..p];
    assert |text| == p - start;
    assert forall k :: 0 <= k < p - start ==> text[k] != PadToken(v, !isImage);
    IndexBeyond(tokens, PadToken(v, !isImage), start, p, q);
  }

  /** A run of the other kind comes later, or not at all. */
  lemma OtherRun(v: Vocab, segs: seq<Segment>, tail: seq<int>, i: nat, remaining: nat)
    requires SoundSegments(v, segs) && i < |segs|
    requires remaining > 0 ==> |Kind(segs[..i], !segs[i].isImage)| < |Kind(segs, !segs[i].isImage)|
    ensures var start := |Tokens(v, segs[..i])|;
      var r := NextRun(Tokens(v, segs) + tail, PadToken(v, !segs[i].isImage), remaining, start);
      r.Ok? && r.value > start + |segs[i].text|
  {
    hide Tokens, Kind, Index, NoPads;
    var start := |Tokens(v, segs[..i])|;
    TextThenPad(v, segs, tail, i);
    if remaining > 0 {
      var j := SomeLater(segs, i, !segs[i].isImage);
      LaterStart(v, segs, i, j);
      TextThenPad(v, segs, tail, j);
      OtherBeyond(v, Tokens(v, segs) + tail, segs[i].isImage, start, start + |segs[i].text|,
                  |Tokens(v, segs[..j])| + |segs[j].text|);
    }
  }

  lemma LaterStart(v: Vocab, segs: seq<Segment>, i: nat, j: nat)
    requires SoundSegments(v, segs) && i < j < |segs|
    ensures |Tokens(v, segs[..i])| + |segs[i].text| < |Tokens(v, segs[..j])|
  {
    SegmentAt(v, segs, i);
    CellsPositive(v, segs[i]);
    StartsRise(v, segs, i + 1, j);
  }

  // ---------- Counting the runs ----------

  /** Whether the tokens at a seam are a vision start and x. */
  function Seam(a: seq<int>, b: seq<int>, start: int, x: int): nat {
    if a != [] && b != [] && a[|a| - 1] == start && b[0] == x then 1 else 0
  }

  lemma CountLast(s: seq<int>, y: int, start: int, x: int)
    ensures CountAfterStart(s + [y], start, x) == CountAfterStart(s, start, x) + Seam(s, [y], start, x)
  {
    assert (s + [y])[..|s|] == s;
  }

  lemma CountNothing(start: int, x: int)
    ensures CountAfterStart([], start, x) == 0
  {
  }

  lemma SeamsOfThree(a: seq<int>, b: seq<int>, last: int, start: int, x: int)
    ensures Seam(a, b, start, x) + Seam(a + b, [last], start, x) == Seam(b, [last], start, x) + Seam(a, b + [last], start, x)
  {
    if b == [] {
      assert a + b == a;
    } else {
      assert (a + b)[|a + b| - 1] == b[|b| - 1] && (b + [last])[0] == b[0];
    }
  }

  lemma {:induction false} CountConcat(a: seq<int>, b: seq<int>, start: int, x: int)
    ensures CountAfterStart(a + b, start, x) ==
      CountAfterStart(a, start, x) + CountAfterStart(b, start, x) + Seam(a, b, start, x)
  {
    hide CountAfterStart;
    if b == [] {
      CountNothing(start, x);
      assert a + b == a;
    } else {
      var prior, last := b[..|b| - 1], b[|b| - 1];
      CountConcat(a, prior, start, x);
      SplitLast(b);
      CountOneMore(a, prior, last, start, x);
    }
  }

  lemma CountOneMore(a: seq<int>, b: seq<int>, last: int, start: int, x: int)
    requires CountAfterStart(a + b, start, x) ==
      CountAfterStart(a, start, x) + CountAfterStart(b, start, x) + Seam(a, b, start, x)
    ensures CountAfterStart(a + (b + [last]), start, x) ==
      CountAfterStart(a, start, x) + CountAfterStart(b + [last], start, x) + Seam(a, b + [last], start, x)
  {
    hide CountAfterStart, Seam;
    CountLast(b, last, start, x);
    CountLast(a + b, last, start, x);
    SeamsOfThree(a, b, last, start, x);
    assert a + (b + [last]) == a + b + [last];
  }

  lemma {:induction false} CountNone(a: seq<int>, start: int, x: int)
    requires (forall i :: 0 <= i < |a| ==> a[i] != x) || (forall i :: 0 <= i < |a| ==> a[i] != start)
    ensures CountAfterStart(a, start, x) == 0
  {
    if |a| >= 2 {
      CountNone(a[..|a| - 1], start, x);
    }
  }

  /** The vision starts count exactly the segments of each kind. */
  lemma {:induction false} CountSegments(v: Vocab, segs: seq<Segment>, b: bool)
    requires SoundSegments(v, segs)
    ensures CountAfterStart(Tokens(v, segs), v.visionStart, PadToken(v, b)) == |Kind(segs, b)|
    ensures segs != [] ==> Tokens(v, segs) != [] && Tokens(v, segs)[|Tokens(v, segs)| - 1] != v.visionStart
  {
    hide CountAfterStart, Cells;
    if segs == [] {
      CountNothing(v.visionStart, PadToken(v, b));
    } else {
      var prior, last := segs[..|segs| - 1], segs[|segs| - 1];
      var before, run, x := Tokens(v, prior), Run(v, last), PadToken(v, b);
      CountSegments(v, prior, b);
      CellsPositive(v, last);
      CountConcat(before + last.text, run, v.visionStart, x);
      CountConcat(before, last.text, v.visionStart, x);
      CountNone(last.text, v.visionStart, x);
      CountNone(run, v.visionStart, x);
    }
  }

  // ---------- The loop ----------

  lemma LastIsHighest(blocks: seq<seq<Col>>)
    requires StartsFresh(blocks) && blocks != []
    ensures var last := blocks[|blocks| - 1];
      last != [] && Fresh(Flatten(blocks)) == MaxEntry(last) + 1
  {
    hide Flatten, Fresh;
    var n := |blocks| - 1;
    assert BlockStarts(blocks[n], Fresh(Flatten(blocks[..n])));
    FreshIsHighest(Flatten(blocks[..n]), blocks[n]);
    FlattenLast(blocks[..n], blocks[n]);
    SplitLast(blocks);
  }

  lemma NextStartIsFresh(blocks: seq<seq<Col>>)
    requires StartsFresh(blocks)
    ensures NextStart(blocks) == Ok(Fresh(Flatten(blocks)))
  {
    hide StartsFresh, MaxEntry;
    if blocks == [] {
      assert Flatten<Col>([]) == [];
    } else {
      LastIsHighest(blocks);
    }
  }

  function Left(segs: seq<Segment>, i: nat, b: bool): int
    requires i <= |segs|
  {
    |Kind(segs, b)| - |Kind(segs[..i], b)|
  }

  /** The loop variables after i rounds. */
  function LoopAt(v: Vocab, segs: seq<Segment>, vision: Vision, i: nat): Loop
    requires v.merge > 0 && i <= |segs|
  {
    PrefixOf(v, segs, i);
    assert Kind(segs[..i], true) <= Kind(segs, true) && Kind(segs[..i], false) <= Kind(segs, false);
    Loop(|Tokens(v, segs[..i])|, |Kind(segs[..i], true)|, |Kind(segs[..i], false)|,
         Left(segs, i, true), Left(segs, i, false), Blocks(v, segs[..i], vision))
  }

  lemma NextBlocks(v: Vocab, segs: seq<Segment>, vision: Vision, i: nat)
    requires SoundSegments(v, segs) && i < |segs|
    ensures var before, s := Blocks(v, segs[..i], vision), segs[i];
      var start := Fresh(Flatten(before));
      NextStart(before) == Ok(start) &&
      Blocks(v, segs[..i + 1], vision) == before +
        [TextCols(|s.text|, start),
         VisionCols(s.grid.t, Height(v, s), Width(v, s), SecondOf(vision, s.isImage, |Kind(segs[..i], false)|), |s.text| + start)]
  {
    hide VisionCols, Fresh, StartsFresh, SecondOf;
    var before, s := Blocks(v, segs[..i], vision), segs[i];
    BlocksShape(v, segs[..i], vision);
    NextStartIsFresh(before);
    TextBlock(Flatten(before), |s.text|);
    assert segs[..i + 1][..i] == segs[..i];
  }

  lemma KindAt(v: Vocab, segs: seq<Segment>, i: nat)
    requires v.merge > 0 && i < |segs|
    ensures |Kind(segs[..i], segs[i].isImage)| < |Kind(segs, segs[i].isImage)|
    ensures Kind(segs, segs[i].isImage)[|Kind(segs[..i], segs[i].isImage)|] == segs[i].grid
    ensures Left(segs, i, segs[i].isImage) > 0
    ensures forall b :: Left(segs, i, b) == Left(segs, i + 1, b) + (if segs[i].isImage == b then 1 else 0)
  {
    forall b ensures Left(segs, i, b) == Left(segs, i + 1, b) + (if segs[i].isImage == b then 1 else 0) {
      NextKind(segs, i, b);
    }
    PrefixOf(v, segs, i + 1);
    NextKind(segs, i, segs[i].isImage);
    assert Kind(segs[..i + 1], segs[i].isImage) <= Kind(segs, segs[i].isImage);
  }

  lemma EmitsSegment(v: Vocab, segs: seq<Segment>, vision: Vision, i: nat, s: Loop)
    requires SoundSegments(v, segs) && i < |segs|
    requires s.st == |Tokens(v, segs[..i])| && s.pieces == Blocks(v, segs[..i], vision)
    ensures Emit(v, s, s.st + |segs[i].text|, segs[i].grid, SecondOf(vision, segs[i].isImage, |Kind(segs[..i], false)|)) ==
      Ok(s.(pieces := Blocks(v, segs[..i + 1], vision), st := |Tokens(v, segs[..i + 1])|))
  {
    hide VisionCols, Blocks, NextStart, Tokens, Kind, SecondOf;
    NextBlocks(v, segs, vision, i);
    SegmentAt(v, segs, i);
  }

  lemma {:induction false} LoopStep(v: Vocab, segs: seq<Segment>, tail: seq<int>, vision: Vision, i: nat)
    requires SoundSegments(v, segs) && Supplied(segs, vision) && i < |segs|
    ensures Iterate(v, Tokens(v, segs) + tail, vision, LoopAt(v, segs, vision, i)) == Ok(LoopAt(v, segs, vision, i + 1))
  {
    hide Tokens, Kind, Emit, NextRun, Blocks;
    var s := segs[i];
    KindAt(v, segs, i);
    PrefixOf(v, segs, i);
    NextKind(segs, i, true);
    NextKind(segs, i, false);
    var at := LoopAt(v, segs, vision, i);
    OwnRun(v, segs, tail, i, if s.isImage then at.images else at.videos);
    OtherRun(v, segs, tail, i, if s.isImage then at.videos else at.images);
    var second := SecondOf(vision, s.isImage, |Kind(segs[..i], false)|);
    if s.isImage {
      EmitsSegment(v, segs, vision, i, at.(imageIndex := at.imageIndex + 1, images := at.images - 1));
    } else {
      EmitsSegment(v, segs, vision, i, at.(videoIndex := at.videoIndex + 1, videos := at.videos - 1));
    }
  }

  lemma {:induction false} LoopReaches(v: Vocab, segs: seq<Segment>, tail: seq<int>, vision: Vision, i: nat)
    requires SoundSegments(v, segs) && SoundTail(v, tail) && Supplied(segs, vision) && i <= |segs|
    ensures var tokens := Tokens(v, segs) + tail;
      Repeat(v, tokens, vision, FirstLoop(v, tokens), i) == Ok(LoopAt(v, segs, vision, i))
  {
    hide Iterate;
    if i == 0 {
      FirstCounts(v, segs, tail);
      assert segs[..0] == [];
    } else {
      LoopReaches(v, segs, tail, vision, i - 1);
      LoopStep(v, segs, tail, vision, i - 1);
    }
  }

  lemma FirstCounts(v: Vocab, segs: seq<Segment>, tail: seq<int>)
    requires SoundSegments(v, segs) && SoundTail(v, tail)
    ensures FirstLoop(v, Tokens(v, segs) + tail) == Loop(0, 0, 0, |Kind(segs, true)|, |Kind(segs, false)|, [])
  {
    hide CountAfterStart, Tokens, Kind;
    CountSegments(v, segs, true);
    CountSegments(v, segs, false);
    CountConcat(Tokens(v, segs), tail, v.visionStart, v.image);
    CountConcat(Tokens(v, segs), tail, v.visionStart, v.video);
    CountNone(tail, v.visionStart, v.image);
    CountNone(tail, v.visionStart, v.video);
  }

  lemma {:induction false} KindsAddUp(segs: seq<Segment>)
    ensures |Kind(segs, true)| + |Kind(segs, false)| == |segs|
  {
    if segs != [] {
      KindsAddUp(segs[..|segs| - 1]);
    }
  }

  lemma LastLoop(v: Vocab, segs: seq<Segment>, tail: seq<int>, vision: Vision)
    requires SoundSegments(v, segs) && SoundTail(v, tail) && Tokens(v, segs) + tail != []
    ensures Finish(Tokens(v, segs) + tail, LoopAt(v, segs, vision, |segs|)) == Ok(Flatten(AllBlocks(v, segs, tail, vision)))
  {
    hide Tokens, Kind, Blocks, Fresh, StartsFresh, NextStart;
    assert segs[..|segs|] == segs;
    LayoutShape(v, segs, tail, vision);
    BlocksShape(v, segs, vision);
    NextStartIsFresh(Blocks(v, segs, vision));
  }

  /** The last token is never a vision start, and there is one round for every segment. */
  lemma Rounds(v: Vocab, segs: seq<Segment>, tail: seq<int>)
    requires SoundSegments(v, segs) && SoundTail(v, tail) && Tokens(v, segs) + tail != []
    ensures var tokens := Tokens(v, segs) + tail;
      tokens[|tokens| - 1] != v.visionStart &&
      FirstLoop(v, tokens).images + FirstLoop(v, tokens).videos == |segs|
  {
    hide Tokens, Kind, CountAfterStart;
    NoTokens(v);
    CountSegments(v, segs, true);
    FirstCounts(v, segs, tail);
    KindsAddUp(segs);
  }

  lemma NoTokens(v: Vocab)
    requires v.merge > 0
    ensures Tokens(v, []) == []
  {
  }

  /**
   For a well-formed sample the function succeeds with one column for each token: the blocks of the layout,
   each of which starts, on all three axes, one past the largest entry of everything before it.
   */
  lemma RopeIndexIsLayout(v: Vocab, segs: seq<Segment>, tail: seq<int>, vision: Vision)
    requires SoundSegments(v, segs) && SoundTail(v, tail) && Supplied(segs, vision) && Tokens(v, segs) + tail != []
    ensures var blocks := AllBlocks(v, segs, tail, vision);
      Positions(v, Tokens(v, segs) + tail, vision) == Ok(Flatten(blocks)) &&
      |Flatten(blocks)| == |Tokens(v, segs) + tail| && StartsFresh(blocks)
  {
    hide Repeat, Tokens, Kind, CountAfterStart, AllBlocks, Blocks, Finish, LoopAt, FirstLoop, Flatten, StartsFresh;
    Rounds(v, segs, tail);
    LoopReaches(v, segs, tail, vision, |segs|);
    LastLoop(v, segs, tail, vision);
    LayoutShape(v, segs, tail, vision);
  }

  // ---------- The columns of a sample ----------

  /** The blocks of segment i follow those of the segments before it. */
  lemma {:induction false} SegmentBlocks(v: Vocab, segs: seq<Segment>, vision: Vision, i: nat)
    requires v.merge > 0 && i < |segs|
    ensures var s, before := segs[i], Flatten(Blocks(v, segs[..i], vision));
      var text := TextCols(|s.text|, Fresh(before));
      before + text + VisionCols(s.grid.t, Height(v, s), Width(v, s),
        SecondOf(vision, s.isImage, |Kind(segs[..i], false)|), Fresh(before + text)) <= Flatten(Blocks(v, segs, vision))
  {
    hide VisionCols, Fresh, Kind, SecondOf, Flatten;
    var n := |segs| - 1;
    var prior, last := Blocks(v, segs[..n], vision), segs[n];
    var text := TextCols(|last.text|, Fresh(Flatten(prior)));
    var cells := VisionCols(last.grid.t, Height(v, last), Width(v, last),
                            SecondOf(vision, last.isImage, |Kind(segs[..n], false)|), Fresh(Flatten(prior) + text));
    FlattenLast(prior, text);
    FlattenLast(prior + [text], cells);
    assert Flatten(Blocks(v, segs, vision)) == Flatten(prior) + text + cells;
    if i < n {
      SegmentBlocks(v, segs[..n], vision, i);
      assert segs[..n][..i] == segs[..i];
    }
  }

  /** The seconds a frame takes: none for an image; for a video as listed, or one if nothing is listed. */
  ghost predicate Seconds(vision: Vision, isImage: bool, videosBefore: nat, second: real) {
    if isImage then second == 0.0
    else match vision.seconds
      case None => second == 1.0
      case Some(listed) => videosBefore < |listed| ==> second == listed[videosBefore]
  }

  /** Column `at` is that of a text token, `j` tokens behind the first, which lies one past everything before `from`. */
  ghost predicate TextColumn(cols: seq<Col>, from: nat, j: nat)
    requires from + j < |cols|
  {
    var start := Fresh(cols[..from]);
    cols[from + j] == Col(start + j, start + j, start + j)
  }

  /** The column of frame a, row b, column c of a grid that lies one past everything before `from`. */
  ghost predicate CellColumn(cols: seq<Col>, from: nat, at: nat, second: real, a: nat, b: nat, c: nat)
    requires from <= at < |cols|
  {
    var start := Fresh(cols[..from]);
    cols[at].h == start + b && cols[at].w == start + c && AtTwoASecond(cols[at].t - start, a, second)
  }

  lemma TextOfSegment(cols: seq<Col>, before: seq<Col>, n: nat, j: nat)
    requires j < n && before + TextCols(n, Fresh(before)) <= cols
    ensures TextColumn(cols, |before|, j)
  {
    hide Fresh;
    assert cols[..|before|] == before;
  }

  lemma CellOfSegment(cols: seq<Col>, before: seq<Col>, frames: nat, height: nat, width: nat, second: real, a: nat, b: nat, c: nat)
    requires a < frames && b < height && c < width
    requires before + VisionCols(frames, height, width, second, Fresh(before)) <= cols
    ensures var at := |before| + (a * (height * width) + (b * width + c));
      |before| <= at < |cols| && CellColumn(cols, |before|, at, second, a, b, c)
  {
    hide Fresh, VisionCols, AtTwoASecond;
    VisionAt(frames, height, width, second, Fresh(before), a, b, c);
    assert cols[..|before|] == before;
  }

  lemma SegmentFirst(v: Vocab, segs: seq<Segment>, tail: seq<int>, vision: Vision)
    requires v.merge > 0
    ensures Flatten(Blocks(v, segs, vision)) <= Flatten(AllBlocks(v, segs, tail, vision))
  {
    hide Blocks;
    if tail != [] {
      var before := Blocks(v, segs, vision);
      FlattenLast(before, TextCols(|tail|, Fresh(Flatten(before))));
    }
  }

  lemma SecondsOf(vision: Vision, isImage: bool, videosBefore: nat)
    ensures Seconds(vision, isImage, videosBefore, SecondOf(vision, isImage, videosBefore))
  {
  }

  lemma ColumnsBehind(cols: seq<Col>, before: seq<Col>, s: Segment, height: nat, width: nat, second: real, j: nat, a: nat, b: nat, c: nat)
    requires j < |s.text| && a < s.grid.t && b < height && c < width
    requires var text := TextCols(|s.text|, Fresh(before));
      before + text + VisionCols(s.grid.t, height, width, second, Fresh(before + text)) <= cols
    ensures var from := |before| + |s.text|;
      var at := from + (a * (height * width) + (b * width + c));
      |before| + j < from <= at < |cols| && TextColumn(cols, |before|, j) && CellColumn(cols, from, at, second, a, b, c)
  {
    hide Fresh, VisionCols, TextColumn, CellColumn;
    var text := TextCols(|s.text|, Fresh(before));
    CellOfSegment(cols, before + text, s.grid.t, height, width, second, a, b, c);
    TextOfSegment(cols, before, |s.text|, j);
  }

  /** The layout of the tokens up to segment i. */
  lemma SegmentsBefore(v: Vocab, segs: seq<Segment>, vision: Vision, i: nat)
    requires SoundSegments(v, segs) && i < |segs|
    ensures |Flatten(Blocks(v, segs[..i], vision))| == |Tokens(v, segs[..i])|
    ensures Tokens(v, segs) != []
  {
    hide Blocks, Flatten, Tokens, CountAfterStart, StartsFresh;
    BlocksShape(v, segs[..i], vision);
    CountSegments(v, segs, true);
  }

  /** Where every token of segment i lies: the text behind all columns before it, the grid behind its text. */
  lemma ColumnsOfSegment(v: Vocab, segs: seq<Segment>, tail: seq<int>, vision: Vision, i: nat, j: nat, a: nat, b: nat, c: nat)
    returns (second: real)
    requires SoundSegments(v, segs) && SoundTail(v, tail) && Supplied(segs, vision) && i < |segs|
    requires var s := segs[i];
      j < |s.text| && a < s.grid.t && b < s.grid.h / v.merge && c < s.grid.w / v.merge
    ensures Seconds(vision, segs[i].isImage, |Kind(segs[..i], false)|, second)
    ensures Positions(v, Tokens(v, segs) + tail, vision).Ok?
    ensures var s, cols, from := segs[i], Positions(v, Tokens(v, segs) + tail, vision).value, |Tokens(v, segs[..i])|;
      var height, width := s.grid.h / v.merge, s.grid.w / v.merge;
      var at := from + |s.text| + (a * (height * width) + (b * width + c));
      from + j < from + |s.text| <= at < |cols| &&
      TextColumn(cols, from, j) && CellColumn(cols, from + |s.text|, at, second, a, b, c)
  {
    hide Kind, Tokens, Positions, SecondOf, Blocks, AllBlocks, Fresh, VisionCols, Flatten, TextColumn, CellColumn, StartsFresh;
    hide Supplied, SoundTail, Seconds, Cells, TextCols;
    var s := segs[i];
    second := SecondOf(vision, s.isImage, |Kind(segs[..i], false)|);
    SecondsOf(vision, s.isImage, |Kind(segs[..i], false)|);
    SegmentsBefore(v, segs, vision, i);
    RopeIndexIsLayout(v, segs, tail, vision);
    SegmentBlocks(v, segs, vision, i);
    SegmentFirst(v, segs, tail, vision);
    ColumnsBehind(Flatten(AllBlocks(v, segs, tail, vision)), Flatten(Blocks(v, segs[..i], vision)), s,
                  s.grid.h / v.merge, s.grid.w / v.merge, second, j, a, b, c);
  }

  /** The text behind the last segment goes on one past all columns before it. */
  lemma ColumnsOfTail(v: Vocab, segs: seq<Segment>, tail: seq<int>, vision: Vision, j: nat)
    requires SoundSegments(v, segs) && SoundTail(v, tail) && Supplied(segs, vision) && j < |tail|
    ensures Positions(v, Tokens(v, segs) + tail, vision).Ok?
    ensures var cols := Positions(v, Tokens(v, segs) + tail, vision).value;
      |cols| == |Tokens(v, segs)| + |tail| && TextColumn(cols, |Tokens(v, segs)|, j)
  {
    hide Kind, Tokens, Positions, Blocks, Fresh, Flatten, TextColumn, StartsFresh, Supplied, SoundTail;
    RopeIndexIsLayout(v, segs, tail, vision);
    BlocksShape(v, segs, vision);
    var before := Blocks(v, segs, vision);
    FlattenLast(before, TextCols(|tail|, Fresh(Flatten(before))));
    TextOfSegment(Flatten(AllBlocks(v, segs, tail, vision)), Flatten(before), |tail|, j);
  }
}
