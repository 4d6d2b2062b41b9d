/** What `get_rope_index` produces for a well-formed sample. */
module RopeLayout {
  import opened Wrappers
  import opened Sequences
  import opened Arithmetic
  import opened Chunks
  import opened RopeIndex

  /** Text that ends with a vision start, and the image or video that follows it. */
  datatype Segment = Segment(text: seq<int>, isImage: bool, grid: Grid)

  function Height(v: Vocab, s: Segment): nat requires v.merge > 0 { s.grid.h / v.merge }

  function Width(v: Vocab, s: Segment): nat requires v.merge > 0 { s.grid.w / v.merge }

  function Cells(v: Vocab, s: Segment): nat
    requires v.merge > 0
  {
    s.grid.t * Height(v, s) * Width(v, s)
  }

  function PadToken(v: Vocab, isImage: bool): int { if isImage then v.image else v.video }

  function Run(v: Vocab, s: Segment): (r: seq<int>)
    requires v.merge > 0
    ensures |r| == Cells(v, s)
  {
    seq(Cells(v, s), _ => PadToken(v, s.isImage))
  }

  function Tokens(v: Vocab, segs: seq<Segment>): seq<int>
    requires v.merge > 0
  {
    if segs == [] then []
    else
      var last := segs[|segs| - 1];
      Tokens(v, segs[..|segs| - 1]) + last.text + Run(v, last)
  }

  function Kind(segs: seq<Segment>, isImage: bool): seq<Grid> {
    if segs == [] then []
    else
      var last := segs[|segs| - 1];
      Kind(segs[..|segs| - 1], isImage) + (if last.isImage == isImage then [last.grid] else [])
  }

  ghost predicate NoPads(v: Vocab, text: seq<int>) {
    forall i :: 0 <= i < |text| ==> text[i] != v.image && text[i] != v.video
  }

  ghost predicate SoundSegment(v: Vocab, s: Segment)
    requires v.merge > 0
  {
    s.text != [] && s.text[|s.text| - 1] == v.visionStart && NoPads(v, s.text) &&
    s.grid.t > 0 && Height(v, s) > 0 && Width(v, s) > 0
  }

  ghost predicate SoundSegments(v: Vocab, segs: seq<Segment>) {
    v.Valid() && forall i :: 0 <= i < |segs| ==> SoundSegment(v, segs[i])
  }

  ghost predicate SoundTail(v: Vocab, tail: seq<int>) {
    NoPads(v, tail) && (tail != [] ==> tail[|tail| - 1] != v.visionStart)
  }

  /** The grids are listed in the order in which the images and the videos appear. */
  ghost predicate Supplied(segs: seq<Segment>, vision: Vision) {
    Kind(segs, true) <= vision.images && Kind(segs, false) <= vision.videos &&
    (vision.seconds.Some? ==> |Kind(segs, false)| <= |vision.seconds.value|)
  }

  // ---------- The layout ----------

  function Fresh(cols: seq<Col>): int {
    if cols == [] then 0 else MaxEntry(cols) + 1
  }

  function SecondOf(vision: Vision, isImage: bool, videosBefore: nat): real {
    if isImage then 0.0
    else if vision.seconds.Some? && videosBefore < |vision.seconds.value| then vision.seconds.value[videosBefore] else 1.0
  }

  /** Two blocks for each segment: its text, and its grid; each starts after everything before it. */
  function Blocks(v: Vocab, segs: seq<Segment>, vision: Vision): (r: seq<seq<Col>>)
    requires v.merge > 0
    ensures |r| == 2 * |segs|
  {
    if segs == [] then []
    else
      var prior, last := segs[..|segs| - 1], segs[|segs| - 1];
      var before := Blocks(v, prior, vision);
      var text := TextCols(|last.text|, Fresh(Flatten(before)));
      var base := Fresh(Flatten(before) + text);
      before + [text] + [VisionCols(last.grid.t, Height(v, last), Width(v, last),
                                    SecondOf(vision, last.isImage, |Kind(prior, false)|), base)]
  }

  function AllBlocks(v: Vocab, segs: seq<Segment>, tail: seq<int>, vision: Vision): seq<seq<Col>>
    requires v.merge > 0
  {
    var before := Blocks(v, segs, vision);
    if tail == [] then before else before + [TextCols(|tail|, Fresh(Flatten(before)))]
  }

  // ---------- Maxima ----------

  /** The text after everything before it: it starts fresh, and what follows it starts one past its end. */
  lemma TextBlock(before: seq<Col>, n: nat)
    requires n > 0
    ensures var text := TextCols(n, Fresh(before));
      text != [] && text[0] == Col(Fresh(before), Fresh(before), Fresh(before)) && Fresh(before + text) == Fresh(before) + n
  {
    var text := TextCols(n, Fresh(before));
    assert |text| == n && (before != [] ==> MaxEntry(before) <= MaxEntry(text));
  }

  lemma FirstOfFlatten<T>(s: seq<seq<T>>)
    requires s != [] && s[0] != []
    ensures Flatten(s) != [] && Flatten(s)[0] == s[0][0]
  {
    FlattenConcat([s[0]], s[1..]);
    assert s == [s[0]] + s[1..] && Flatten([s[0]]) == s[0];
  }

  lemma VisionFirst(frames: nat, height: nat, width: nat, second: real, base: int)
    requires frames > 0 && height > 0 && width > 0
    ensures var cols := VisionCols(frames, height, width, second, base);
      cols != [] && cols[0] == Col(base, base, base)
  {
    var plane := PlaneCols(base + FrameTime(0, second), height, width, base);
    assert |plane| == height && |plane[0]| == width;
    FirstOfFlatten(plane);
    FirstOfFlatten(Frames(frames, height, width, second, base));
    assert FrameTime(0, second) == 0;
  }

  lemma FrameSize(frames: nat, height: nat, width: nat, second: real, base: int, a: nat)
    requires a < frames
    ensures |Frames(frames, height, width, second, base)[a]| == height * width
  {
    FlattenSize(PlaneCols(base + FrameTime(a, second), height, width, base), width);
  }

  lemma FramesAlike(frames: nat, height: nat, width: nat, second: real, base: int, plane: nat)
    requires plane == height * width
    ensures forall p :: p in Frames(frames, height, width, second, base) ==> |p| == plane
  {
    hide Frames;
    forall p | p in Frames(frames, height, width, second, base) ensures |p| == plane {
      var a := Find(Frames(frames, height, width, second, base), p);
      FrameSize(frames, height, width, second, base, a);
    }
  }

  lemma VisionSize(frames: nat, height: nat, width: nat, second: real, base: int)
    ensures |VisionCols(frames, height, width, second, base)| == frames * height * width
  {
    hide Frames, Flatten;
    var plane := height * width;
    FramesAlike(frames, height, width, second, base, plane);
    FlattenSize(Frames(frames, height, width, second, base), plane);
    MulAssociative(frames, height, width);
  }

  lemma PlaneAt(t: int, height: nat, width: nat, base: int, b: nat, c: nat)
    requires b < height && c < width
    ensures var cols := Flatten(PlaneCols(t, height, width, base));
      b * width + c < height * width == |cols| && cols[b * width + c] == Col(t, base + b, base + c)
  {
    hide Flatten;
    EntryOf(PlaneCols(t, height, width, base), width, b, c);
  }

  lemma CellAt(frames: nat, height: nat, width: nat, second: real, base: int, a: nat, size: nat, place: nat)
    requires a < frames && size == height * width && place < size
    requires |Flatten(PlaneCols(base + FrameTime(a, second), height, width, base))| == size
    ensures var cols := VisionCols(frames, height, width, second, base);
      0 <= a * size + place < |cols| &&
      cols[a * size + place] == Flatten(PlaneCols(base + FrameTime(a, second), height, width, base))[place]
  {
    hide Flatten, FrameTime, PlaneCols;
    FramesAlike(frames, height, width, second, base, size);
    EntryOf(Frames(frames, height, width, second, base), size, a, place);
  }

  /** Frame a lies at two positions a second, cut to an integer towards zero. */
  ghost predicate AtTwoASecond(t: int, a: nat, second: real) {
    if second >= 0.0 then t as real <= 2.0 * second * a as real < t as real + 1.0
    else t as real - 1.0 < 2.0 * second * a as real <= t as real
  }

  lemma FrameTimeIs(a: nat, second: real)
    ensures AtTwoASecond(FrameTime(a, second), a, second)
  {
    var x := a as real * second * 2.0;
    assert x == 2.0 * second * a as real;
    RealProductSign(a as real, second);
  }

  lemma RealProductSign(a: real, second: real)
    requires a >= 0.0
    ensures second >= 0.0 ==> a * second >= 0.0
    ensures second <= 0.0 ==> a * second <= 0.0
  {
  }

  /** Without times given a video has two positions a frame; an image has all frames at the start. */
  lemma TwoASecondMeans(t: int, a: nat)
    ensures AtTwoASecond(t, a, 1.0) <==> t == 2 * a
    ensures AtTwoASecond(t, a, 0.0) <==> t == 0
  {
  }

  /** Frame a, row b, column c of the grid. */
  lemma VisionAt(frames: nat, height: nat, width: nat, second: real, base: int, a: nat, b: nat, c: nat)
    requires a < frames && b < height && c < width
    ensures var cols := VisionCols(frames, height, width, second, base);
      var i := a * (height * width) + (b * width + c);
      0 <= i < |cols| && cols[i].h == base + b && cols[i].w == base + c && AtTwoASecond(cols[i].t - base, a, second)
  {
    hide *;
    PlaneAt(base + FrameTime(a, second), height, width, base, b, c);
    CellAt(frames, height, width, second, base, a, height * width, b * width + c);
    FrameTimeIs(a, second);
  }

  /** Element i of block b, when all blocks have one size. */
  lemma EntryOf<T>(blocks: seq<seq<T>>, size: nat, b: nat, i: nat)
    requires b < |blocks| && i < size && forall p :: p in blocks ==> |p| == size
    ensures b * size + i < |blocks| * size == |Flatten(blocks)| && Flatten(blocks)[b * size + i] == blocks[b][i]
  {
    ChunksFlatten(blocks, size);
    ChunkInRange(|blocks|, size, b);
    assert ChunksOf(Flatten(blocks), |blocks|, size)[b][i] == blocks[b][i];
  }
}
