/** What the log of a run says of each group, and where that puts the tensors of the group. */
module OffloadTranscript {
  import opened Wrappers
  import opened DeviceStreams
  import opened Tensors
  import opened OffloadWindows
  import opened OffloadHandler
  import opened OffloadInvariant

  predicate Moves(op: Op, g: int) {
    op == CopyOut(g) || op == Release(g) || op == CopyIn(g)
  }

  /** The commands that move group `g`, in the order of the log. */
  function MovesOf(log: seq<Op>, g: int): seq<Op> {
    if log == [] then []
    else
      var last := log[|log| - 1];
      MovesOf(log[..|log| - 1], g) + if Moves(last, g) then [last] else []
  }

  /** The commands that write and read saved tensors, in the order of the log. */
  function AccessesOf(log: seq<Op>): seq<Op> {
    if log == [] then []
    else
      var last := log[|log| - 1];
      AccessesOf(log[..|log| - 1]) + if last.Produce? || last.Consume? then [last] else []
  }

  /** What the client asks for by one event in layer `layer`. */
  function Access(e: Event, layer: int): seq<Op> {
    match e
    case Save(_) => [Produce(layer)]
    case Use(_) => [Consume(layer)]
    case _ => []
  }

  /** The writes and reads that the client asks for, from layer `layer` on: no more than its events say. */
  function Accesses(events: seq<Event>, layer: int): seq<Op> {
    if events == [] then []
    else
      var e := events[0];
      Access(e, layer) +
      Accesses(events[1..], if e.CommitLayer? then layer + 1 else if e.CommitLayerBackward? then layer - 1 else layer)
  }

  lemma Append(log: seq<Op>, op: Op)
    ensures forall g :: MovesOf(log + [op], g) == MovesOf(log, g) + if Moves(op, g) then [op] else []
    ensures AccessesOf(log + [op]) == AccessesOf(log) + if op.Produce? || op.Consume? then [op] else []
  {
    assert (log + [op])[..|log|] == log;
  }

  /** A group goes to the host, leaves the device and comes back, in this order. */
  function Journey(g: int): (moves: seq<Op>)
    ensures |moves| == 3
  {
    [CopyOut(g), Release(g), CopyIn(g)]
  }

  /** The next moves of a group. */
  function Ahead(g: int, from: nat, to: nat): seq<Op> {
    (if from < 1 <= to then [CopyOut(g)] else []) +
    (if from < 2 <= to then [Release(g)] else []) +
    (if from < 3 <= to then [CopyIn(g)] else [])
  }

  lemma Advance(g: int, from: nat, to: nat)
    requires from <= to <= 3
    ensures Journey(g)[..from] + Ahead(g, from, to) == Journey(g)[..to]
  {
  }

  /** How far group `g` has come. */
  function Stage(c: Client, h: Handler, g: int): nat
    requires h.groups >= 1
  {
    if !(0 <= g < h.groups) then 0
    else if c.phase.Forward? then (if g < FreeLimit(c, h) then 2 else if g < HostLimit(c, h) then 1 else 0)
    else if g < HostLimit(c, h) then 2 else 3
  }

  /** Since the log was `before`, each group has come as far on its journey as its stage says. */
  ghost predicate OnTheWay(before: seq<Op>, c: Client, h: Handler)
    requires h.groups >= 1
  {
    before <= h.log &&
    forall g :: MovesOf(h.log, g) == MovesOf(before, g) + Journey(g)[..Stage(c, h, g)]
  }

  /** The log after a commit of the forward pass. */
  lemma CommitLog(h: Handler)
    requires CommitForward(h).Ok?
    ensures h.released in h.windows
    ensures var log1 := if h.current == 0 then CopyOutLog(h.log, 0) else h.log;
      CommitForward(h).value.log ==
      if h.windows[h.released] != h.current then log1
      else if h.released < h.groups - 1 then WindowLog(log1, h.released) + [CopyOut(h.released + 1)]
      else WindowLog(log1, h.released)
  {
    hide Evict, Distinct, GroupOnDevice, ReleaseGroup;
  }

  /** The log after a commit of the backward pass. */
  lemma CommitBackwardLog(h: Handler)
    requires CommitBackward(h).Ok?
    ensures h.released - 1 in h.windows
    ensures var log1 := if h.windows[h.released - 1] == h.current - 1 then ReloadLog(h.log, h.released - 1) else h.log;
      CommitBackward(h).value.log == if h.current == 1 then log1 + [Wait(Compute, HostToDevice)] else log1
  {
    hide Restore, GroupRebuildable;
  }

  lemma CopyOutMoves(log: seq<Op>, g: int)
    ensures log <= CopyOutLog(log, g) && AccessesOf(CopyOutLog(log, g)) == AccessesOf(log)
    ensures forall k :: MovesOf(CopyOutLog(log, g), k) == MovesOf(log, k) + if k == g then [CopyOut(g)] else []
  {
    Append(log, Wait(DeviceToHost, Compute));
    Append(log + [Wait(DeviceToHost, Compute)], CopyOut(g));
  }

  lemma WindowMoves(log: seq<Op>, g: int)
    ensures log <= WindowLog(log, g) && AccessesOf(WindowLog(log, g)) == AccessesOf(log)
    ensures forall k :: MovesOf(WindowLog(log, g), k) == MovesOf(log, k) + if k == g then [Release(g)] else []
  {
    var log1 := log + [Wait(DeviceToHost, Compute)];
    var log2 := log1 + [Wait(Compute, DeviceToHost)];
    Append(log, Wait(DeviceToHost, Compute));
    Append(log1, Wait(Compute, DeviceToHost));
    Append(log2, Release(g));
  }

  lemma ReloadMoves(log: seq<Op>, g: int)
    ensures log <= ReloadLog(log, g) && AccessesOf(ReloadLog(log, g)) == AccessesOf(log)
    ensures forall k :: MovesOf(ReloadLog(log, g), k) == MovesOf(log, k) + if k == g then [CopyIn(g)] else []
  {
    var log1 := log + [Wait(HostToDevice, Compute)];
    var log2 := log1 + [Wait(Compute, HostToDevice)];
    Append(log, Wait(HostToDevice, Compute));
    Append(log1, Wait(Compute, HostToDevice));
    Append(log2, CopyIn(g));
  }

  /** The commands of one event. */
  lemma CommitMoves(c: Client, h: Handler, before: seq<Op>)
    requires Inv(c, h) && Legal(c, h, CommitLayer) && Step(c, h, CommitLayer).Running? && OnTheWay(before, c, h)
    ensures var r := Step(c, h, CommitLayer);
      r.handler.groups == h.groups && OnTheWay(before, r.client, r.handler) &&
      AccessesOf(r.handler.log) == AccessesOf(h.log)
  {
    hide Memory, Synchronised, CommitForward, Frontier, SoundWindows, MovesOf, AccessesOf, WindowLog, CopyOutLog, Journey;
    var l, r := c.phase.layer, Step(c, h, CommitLayer);
    CommitPosition(c, h);
    CommitKeepsInv(c, h);
    CommitLog(h);
    CopyOutMoves(h.log, 0);
    var log1 := if h.current == 0 then CopyOutLog(h.log, 0) else h.log;
    WindowMoves(log1, h.released);
    Append(WindowLog(log1, h.released), CopyOut(h.released + 1));
    FrontierEnds(h.windows, h.groups, |c.saved|);
    forall g ensures MovesOf(r.handler.log, g) == MovesOf(before, g) + Journey(g)[..Stage(r.client, r.handler, g)] {
      var from, to := Stage(c, h, g), Stage(r.client, r.handler, g);
      Advance(g, from, to);
      assert MovesOf(r.handler.log, g) == MovesOf(h.log, g) + Ahead(g, from, to);
    }
  }

  lemma CommitBackwardMoves(c: Client, h: Handler, before: seq<Op>)
    requires Inv(c, h) && Legal(c, h, CommitLayerBackward) && OnTheWay(before, c, h)
    requires Step(c, h, CommitLayerBackward).Running?
    ensures var r := Step(c, h, CommitLayerBackward);
      r.handler.groups == h.groups && OnTheWay(before, r.client, r.handler) &&
      AccessesOf(r.handler.log) == AccessesOf(h.log)
  {
    hide Memory, Synchronised, CommitBackward, Frontier, SoundWindows, MovesOf, AccessesOf, ReloadLog;
    var l, r := c.phase.layer, Step(c, h, CommitLayerBackward);
    ReloadPosition(c, h);
    CommitBackwardKeepsInv(c, h);
    CommitBackwardLog(h);
    ReloadMoves(h.log, h.released - 1);
    var log1 := if h.windows[h.released - 1] == h.current - 1 then ReloadLog(h.log, h.released - 1) else h.log;
    Append(log1, Wait(Compute, HostToDevice));
    FrontierEnds(h.windows, h.groups, |c.saved|);
  }

  lemma StepMoves(c: Client, h: Handler, e: Event, before: seq<Op>)
    requires Inv(c, h) && Legal(c, h, e) && Step(c, h, e).Running? && OnTheWay(before, c, h)
    ensures var r := Step(c, h, e);
      r.handler.groups == h.groups && OnTheWay(before, r.client, r.handler) &&
      AccessesOf(r.handler.log) == AccessesOf(h.log) + Access(e, c.phase.layer)
  {
    hide Tracked, BuffersFrom, BuffersHold, Synchronised, CommitForward, CommitBackward, Frontier, MovesOf, AccessesOf;
    match e
    case Save(t) => Append(h.log, Produce(h.current));
    case CommitLayer => CommitMoves(c, h, before);
    case CommitLayerBackward => CommitBackwardMoves(c, h, before);
    case Use(tag) =>
      OwnTag(c.saved, h, tag, c.phase.layer, HostLimit(c, h));
      Append(h.log, Consume(tag.group));
  }

  /** Where the tensors that layer `g` saved are, and their buffers, after `n` of the three moves. */
  ghost predicate Whereabouts(c: Client, h: Handler, g: nat, n: nat)
    requires g < |c.saved|
  {
    (g in h.backups <==> n == 1 || n == 2) &&
    forall tag :: tag in c.saved[g] ==>
      var t := c.saved[g][tag];
      tag in h.table.at && (h.table.at[tag] == if n == 1 || n == 2 then OnHost(t.key, t.shape) else OnDevice(t)) &&
      (n == 1 || n == 2 ==> InBackup(h, g, t)) &&
      (tag in h.buffers <==> g < h.groups) &&
      (g < h.groups ==> h.buffers[tag] == if n <= 1 then Some(t) else None)
  }

  /**
   When the moves are made: the first at the first commit, or at the one that closes the window before; the second
   when the own window closes; the third when the backward pass is back at that layer.
   */
  ghost predicate InTime(c: Client, h: Handler, g: nat, n: nat) {
    var l := c.phase.layer;
    if g >= h.groups then n == 0
    else
      g in h.windows && (g > 0 ==> g - 1 in h.windows) &&
      match c.phase
      case Forward(_) =>
        n == if h.windows[g] < l then 2 else if l > 0 && (g == 0 || h.windows[g - 1] < l) then 1 else 0
      case Backward(_) => n == if h.windows[g] < l then 2 else 3
  }

  /** The frontier tells closed windows from open ones. */
  lemma ClosedBelowFrontier(windows: map<int, int>, groups: int, layers: int, l: int, g: int)
    requires SoundWindows(windows, groups, layers) && 0 <= g < groups
    ensures g < Frontier(windows, groups, l) <==> windows[g] < l
  {
    hide FirstOpen;
    var f := Frontier(windows, groups, l);
    if g < f {
      assert windows[f - 1] - windows[g] >= f - 1 - g;
    } else {
      assert windows[g] - windows[f] >= g - f;
    }
  }

  lemma StageInTime(c: Client, h: Handler, g: nat)
    requires Position(c, h)
    ensures InTime(c, h, g, Stage(c, h, g))
  {
    hide Frontier;
    var layers, l := |c.saved|, c.phase.layer;
    FrontierEnds(h.windows, h.groups, layers);
    if g < h.groups {
      ClosedBelowFrontier(h.windows, h.groups, layers, l, g);
      if g > 0 {
        ClosedBelowFrontier(h.windows, h.groups, layers, l, g - 1);
      }
    }
  }

  lemma StageTells(c: Client, h: Handler, g: nat)
    requires Inv(c, h) && g < |c.saved|
    ensures Whereabouts(c, h, g, Stage(c, h, g))
  {
    hide Synchronised, Frontier, Tracked, Recognisable, SoundWindows;
    FrontierEnds(h.windows, h.groups, |c.saved|);
    var limit, n := HostLimit(c, h), Stage(c, h, g);
    assert n == 1 || n == 2 <==> g < limit;
    forall tag | tag in c.saved[g]
      ensures tag in h.table.at && Holds(h, tag, c.saved[g][tag], limit) && tag.group == g
    {
      assert Holds(h, tag, c.saved[g][tag], limit);
    }
  }
}
