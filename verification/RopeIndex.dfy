/** `get_rope_index`: three-axis positions for text, image and video tokens of one sample. */
module RopeIndex {
  import opened Wrappers
  import opened Sequences
  import opened Arithmetic
  import opened Chunks

  datatype Col = Col(t: int, h: int, w: int)

  datatype Grid = Grid(t: nat, h: nat, w: nat)

  /** Token ids and the spatial merge size. */
  datatype Vocab = Vocab(image: int, video: int, visionStart: int, merge: nat)
  {
    ghost predicate Valid() {
      image != video && image != visionStart && video != visionStart && merge > 0
    }
  }

  datatype Vision = Vision(images: seq<Grid>, videos: seq<Grid>, seconds: Option<seq<real>>)

  /** Conversion of a float tensor to integers. */
  function Trunc(x: real): int {
    if x >= 0.0 then x.Floor else -((-x).Floor)
  }

  function TextCols(n: nat, start: int): (r: seq<Col>)
    ensures |r| == n && forall i :: 0 <= i < n ==> r[i] == Col(start + i, start + i, start + i)
  {
    seq(n, i requires 0 <= i < n => Col(start + i, start + i, start + i))
  }

  function RowCols(t: int, h: int, width: nat, base: int): (r: seq<Col>)
    ensures |r| == width && forall w :: 0 <= w < width ==> r[w] == Col(t, h, base + w)
  {
    seq(width, w requires 0 <= w < width => Col(t, h, base + w))
  }

  function PlaneCols(t: int, height: nat, width: nat, base: int): (r: seq<seq<Col>>)
    ensures |r| == height && forall h :: 0 <= h < height ==> r[h] == RowCols(t, base + h, width, base)
  {
    seq(height, h requires 0 <= h < height => RowCols(t, base + h, width, base))
  }

  function Frames(frames: nat, height: nat, width: nat, second: real, base: int): (r: seq<seq<Col>>)
    ensures |r| == frames
    ensures forall a :: 0 <= a < frames ==> r[a] == Flatten(PlaneCols(base + FrameTime(a, second), height, width, base))
  {
    seq(frames, a requires 0 <= a < frames => Flatten(PlaneCols(base + FrameTime(a, second), height, width, base)))
  }

  /** The columns of a vision run, frame by frame, row by row. */
  function VisionCols(frames: nat, height: nat, width: nat, second: real, base: int): seq<Col> {
    Flatten(Frames(frames, height, width, second, base))
  }

  /** Two positions a second. */
  function FrameTime(a: nat, second: real): int { Trunc(a as real * second * 2.0) }

  function Highest(c: Col): int {
    var m := if c.t < c.h then c.h else c.t;
    if m < c.w then c.w else m
  }

  /** The largest entry on any axis. */
  function MaxEntry(cols: seq<Col>): (m: int)
    requires cols != []
    ensures forall c :: c in cols ==> Highest(c) <= m
    ensures exists c :: c in cols && Highest(c) == m
  {
    var last := cols[|cols| - 1];
    SplitLast(cols);
    if |cols| == 1 then Highest(last)
    else
      var m := MaxEntry(cols[..|cols| - 1]);
      if m < Highest(last) then Highest(last) else m
  }

  function Index(tokens: seq<int>, x: int, from: nat): (r: Option<nat>)
    ensures r.Some? ==> from <= r.value < |tokens| && tokens[r.value] == x
    ensures r.Some? ==> forall i :: from <= i < r.value ==> tokens[i] != x
    ensures r.None? ==> forall i :: from <= i < |tokens| ==> tokens[i] != x
    decreases |tokens| - from
  {
    if from >= |tokens| then None
    else if tokens[from] == x then Some(from)
    else Index(tokens, x, from + 1)
  }

  /** How often the token after a vision start is x. */
  function CountAfterStart(tokens: seq<int>, start: int, x: int): nat {
    if |tokens| < 2 then 0
    else
      var here := tokens[|tokens| - 2] == start && tokens[|tokens| - 1] == x;
      CountAfterStart(tokens[..|tokens| - 1], start, x) + (if here then 1 else 0)
  }

  // ---------- The loop ----------

  /** The variables of the loop; `pieces` is the list of position blocks built so far. */
  datatype Loop = Loop(st: nat, imageIndex: nat, videoIndex: nat, images: nat, videos: nat, pieces: seq<seq<Col>>)

  /** One past the largest entry of the last block; an empty block has no largest entry. */
  function NextStart(pieces: seq<seq<Col>>): Result<int> {
    if pieces == [] then Ok(0)
    else if pieces[|pieces| - 1] == [] then Raised
    else Ok(MaxEntry(pieces[|pieces| - 1]) + 1)
  }

  /** Where the next run of pad tokens x begins; past the end if none is left. */
  function NextRun(tokens: seq<int>, x: int, remaining: nat, st: nat): Result<nat> {
    if x in tokens && remaining > 0 then
      match Index(tokens, x, st)
      case Some(i) => Ok(i)
      case None => Raised
    else Ok(|tokens| + 1)
  }

  function Emit(v: Vocab, s: Loop, ed: nat, grid: Grid, second: real): Result<Loop>
    requires v.merge > 0
  {
    if ed < s.st then Raised
    else
      var height, width := grid.h / v.merge, grid.w / v.merge;
      var start :- NextStart(s.pieces);
      var length := ed - s.st;
      MulNonNegative(grid.t, height);
      MulNonNegative(grid.t * height, width);
      Ok(s.(pieces := s.pieces + [TextCols(length, start), VisionCols(grid.t, height, width, second, length + start)],
            st := ed + grid.t * height * width))
  }

  function Iterate(v: Vocab, tokens: seq<int>, vision: Vision, s: Loop): Result<Loop>
    requires v.merge > 0
  {
    var edImage :- NextRun(tokens, v.image, s.images, s.st);
    var edVideo :- NextRun(tokens, v.video, s.videos, s.st);
    if edImage < edVideo then
      if s.imageIndex >= |vision.images| then Raised
      else Emit(v, s.(imageIndex := s.imageIndex + 1, images := s.images - 1), edImage, vision.images[s.imageIndex], 0.0)
    else if s.videoIndex >= |vision.videos| then Raised
    else if vision.seconds.Some? && s.videoIndex >= |vision.seconds.value| then Raised
    else
      var second := if vision.seconds.Some? then vision.seconds.value[s.videoIndex] else 1.0;
      var left := if s.videos > 0 then s.videos - 1 else 0;
      Emit(v, s.(videoIndex := s.videoIndex + 1, videos := left), edVideo, vision.videos[s.videoIndex], second)
  }

  function Repeat(v: Vocab, tokens: seq<int>, vision: Vision, s: Loop, n: nat): Result<Loop>
    requires v.merge > 0
  {
    if n == 0 then Ok(s)
    else
      var s' :- Repeat(v, tokens, vision, s, n - 1);
      Iterate(v, tokens, vision, s')
  }

  function Finish(tokens: seq<int>, s: Loop): (r: Result<seq<Col>>)
    ensures r.Ok? ==> |r.value| == |tokens|
  {
    var pieces :-
      if s.st < |tokens| then
        var start :- NextStart(s.pieces);
        Ok(s.pieces + [TextCols(|tokens| - s.st, start)])
      else Ok(s.pieces);
    if pieces == [] || |Flatten(pieces)| != |tokens| then Raised else Ok(Flatten(pieces))
  }

  function FirstLoop(v: Vocab, tokens: seq<int>): Loop {
    Loop(0, 0, 0, CountAfterStart(tokens, v.visionStart, v.image), CountAfterStart(tokens, v.visionStart, v.video), [])
  }

  /** The positions of the unmasked tokens of a sample with vision inputs. */
  function Positions(v: Vocab, tokens: seq<int>, vision: Vision): (r: Result<seq<Col>>)
    requires v.merge > 0
    ensures r.Ok? ==> |r.value| == |tokens|
  {
    if tokens != [] && tokens[|tokens| - 1] == v.visionStart then Raised  // no token after it
    else
      var first := FirstLoop(v, tokens);
      var s :- Repeat(v, tokens, vision, first, first.images + first.videos);
      Finish(tokens, s)
  }

  method GetRopeIndex(v: Vocab, tokens: seq<int>, vision: Vision) returns (r: Result<seq<Col>>)
    requires v.merge > 0
    ensures r == Positions(v, tokens, vision)
  {
    hide Iterate, Emit, Finish, CountAfterStart;
    if tokens != [] && tokens[|tokens| - 1] == v.visionStart {
      return Raised;
    }
    var first := FirstLoop(v, tokens);
    var s := first;
    for n := 0 to first.images + first.videos
      invariant Repeat(v, tokens, vision, first, n) == Ok(s)
    {
      var next := Iterate(v, tokens, vision, s);
      if next.Raised? {
        RaisedStays(v, tokens, vision, first, n + 1, first.images + first.videos);
        return Raised;
      }
      s := next.value;
    }
    r := Finish(tokens, s);
  }

  lemma {:induction false} RaisedStays(v: Vocab, tokens: seq<int>, vision: Vision, s: Loop, n: nat, m: nat)
    requires v.merge > 0 && n <= m && Repeat(v, tokens, vision, s, n).Raised?
    ensures Repeat(v, tokens, vision, s, m).Raised?
  {
    hide Iterate;
    if n < m {
      RaisedStays(v, tokens, vision, s, n, m - 1);
    }
  }
}
