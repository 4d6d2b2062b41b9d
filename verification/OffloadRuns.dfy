/** Whole forward and backward passes. */
module OffloadRuns {
  import opened Wrappers
  import opened DeviceStreams
  import opened Tensors
  import opened OffloadWindows
  import opened OffloadHandler
  import opened OffloadInvariant
  import opened OffloadTranscript

  /** Where a run may begin: a handler that holds nothing, after any number of earlier runs. */
  ghost predicate AtRest(h: Handler, groups: int, layers: int) {
    h == Initial(groups, layers).(log := h.log) && SafeLog(h.log) && AllCopyInsSeen(h.log)
  }

  lemma RunsBeginInInv(h: Handler, groups: int, layers: nat)
    requires layers > groups >= 1 && AtRest(h, groups, layers)
    ensures Inv(Start(layers), h)
  {
    WindowMapIsSound(groups, layers);
  }

  /** No call raises, every tensor comes back equal, and the invariant holds wherever a legal run stops. */
  lemma {:induction false} RunKeepsInv(c: Client, h: Handler, events: seq<Event>)
    requires Inv(c, h)
    ensures var r := Run(c, h, events);
      !r.Broken? && (r.Running? ==> Inv(r.client, r.handler) && SameRun(c, h, r))
    decreases |events|
  {
    hide Inv;
    if events != [] && Legal(c, h, events[0]) {
      StepKeepsInv(c, h, events[0]);
      var r := Step(c, h, events[0]);
      RunKeepsInv(r.client, r.handler, events[1..]);
    }
  }

  ghost predicate Complete(c: Client) {
    c.phase == Backward(0) && |c.saved| > 0 && c.saved[0] == map[]
  }

  lemma NothingLeft(saved: seq<map<Tag, Tensor>>, h: Handler, free: int)
    requires Memory(saved, h, 0, free) && forall g :: 0 <= g < |saved| ==> saved[g] == map[]
    ensures h.table == Table([], map[]) && h.buffers == map[] && h.backups == map[]
  {
    assert forall tag :: tag !in h.table.at;
    assert forall tag :: tag !in h.buffers;
    assert forall tag :: tag !in h.table.order;
    assert forall g :: g !in h.backups;
    EmptySeq(h.table.order);
    EmptyMap(h.table.at);
    EmptyMap(h.buffers);
    EmptyMap(h.backups);
  }

  lemma EmptySeq<A>(s: seq<A>)
    ensures s == [] || exists x :: x in s
  {
    if s != [] {
      assert s[0] in s;
    }
  }

  lemma EmptyMap<B, C>(m: map<B, C>)
    requires forall x :: x !in m
    ensures m == map[]
  {
    assert m.Keys == {};
  }

  /** Once everything was taken back, only the log tells the handler from a new one. */
  lemma CompleteRunIsAtRest(c: Client, h: Handler)
    requires Inv(c, h) && Complete(c) && h.windows == WindowMap(h.groups, |c.saved|)
    ensures AtRest(h, h.groups, |c.saved|)
  {
    hide Memory, SafeLog;
    NothingLeft(c.saved, h, h.groups);
  }

  /** The groups of which the handler keeps some tensor on the device. */
  ghost function HeldGroups(h: Handler): set<int> {
    (set tag | tag in h.table.at && h.table.at[tag].OnDevice? :: tag.group) +
    (set tag | tag in h.buffers && h.buffers[tag].Some? :: tag.group)
  }

  lemma {:induction false} IntervalSize(s: set<int>, lo: int, hi: int)
    requires lo <= hi && forall x :: x in s ==> lo <= x < hi
    ensures |s| <= hi - lo
    decreases hi - lo
  {
    if lo < hi {
      IntervalSize(s - {hi - 1}, lo, hi - 1);
    } else {
      assert s == {};
    }
  }

  /** The layers with tensors on the device lie between the frontier and the current layer. */
  lemma HeldIsAWindow(c: Client, h: Handler)
    requires Inv(c, h)
    ensures forall g :: g in HeldGroups(h) ==>
      Frontier(h.windows, h.groups, c.phase.layer) <= g <= c.phase.layer && g < |c.saved|
  {
    FrontierSpan(h.windows, h.groups, |c.saved|, c.phase.layer);
    forall tag | tag in h.table.at && h.table.at[tag].OnDevice?
      ensures Frontier(h.windows, h.groups, c.phase.layer) <= tag.group <= c.phase.layer && tag.group < |c.saved|
    {
      assert tag in c.saved[tag.group];
      assert Holds(h, tag, c.saved[tag.group][tag], HostLimit(c, h));
    }
    forall tag | tag in h.buffers && h.buffers[tag].Some?
      ensures Frontier(h.windows, h.groups, c.phase.layer) <= tag.group <= c.phase.layer && tag.group < |c.saved|
    {
      assert tag in h.table.at;
      assert tag in c.saved[tag.group];
    }
  }

  lemma HeldGroupsBound(c: Client, h: Handler)
    requires Inv(c, h)
    ensures |HeldGroups(h)| <= |c.saved| - h.groups + 1
  {
    HeldIsAWindow(c, h);
    var f, l, layers := Frontier(h.windows, h.groups, c.phase.layer), c.phase.layer, |c.saved|;
    FrontierSpan(h.windows, h.groups, layers, l);
    IntervalSize(HeldGroups(h), f, if l < layers then l + 1 else layers);
  }

  /** Every group keeps its place on its journey through any run, and the log has the client's accesses only. */
  lemma {:induction false} RunMoves(c: Client, h: Handler, events: seq<Event>, before: seq<Op>)
    requires Inv(c, h) && OnTheWay(before, c, h)
    ensures var r := Run(c, h, events);
      r.Running? ==>
        r.handler.groups == h.groups >= 1 && OnTheWay(before, r.client, r.handler) &&
        AccessesOf(r.handler.log) == AccessesOf(h.log) + Accesses(events, c.phase.layer)
    decreases |events|
  {
    hide SoundWindows, Frontier, Memory, Synchronised, OnTheWay, AccessesOf, Push, Pop, CommitForward, CommitBackward;
    if events != [] && Legal(c, h, events[0]) {
      StepKeepsInv(c, h, events[0]);
      StepMoves(c, h, events[0], before);
      var r := Step(c, h, events[0]);
      RunMoves(r.client, r.handler, events[1..], before);
    }
  }

  /** What every run has done to group `g` since the log was `before`, and where its tensors are for that reason. */
  ghost predicate Accounted(before: seq<Op>, c: Client, h: Handler, g: nat)
    requires g < |c.saved|
  {
    exists n: nat ::
      n <= 3 && MovesOf(h.log, g) == MovesOf(before, g) + Journey(g)[..n] && Whereabouts(c, h, g, n) &&
      InTime(c, h, g, n) && (g < h.groups && Complete(c) ==> n == 3)
  }

  lemma RunAccounts(h: Handler, groups: int, layers: nat, events: seq<Event>)
    requires layers > groups >= 1 && AtRest(h, groups, layers)
    ensures var r := Run(Start(layers), h, events);
      r.Running? ==>
        h.log <= r.handler.log &&
        AccessesOf(r.handler.log) == AccessesOf(h.log) + Accesses(events, 0) &&
        |r.client.saved| == layers &&
        forall g :: 0 <= g < layers ==> Accounted(h.log, r.client, r.handler, g)
  {
    hide Run, SoundWindows, Frontier, Memory, SafeLog, WindowMap, AllCopyInsSeen, AllCopyOutsSeen, AccessesOf, MovesOf, Whereabouts;
    RunsBeginInInv(h, groups, layers);
    RunKeepsInv(Start(layers), h, events);
    FrontierEnds(h.windows, groups, layers);
    RunMoves(Start(layers), h, events, h.log);
    var r := Run(Start(layers), h, events);
    if r.Running? {
      forall g | 0 <= g < layers ensures Accounted(h.log, r.client, r.handler, g) {
        StageTells(r.client, r.handler, g);
        StageInTime(r.client, r.handler, g);
        FrontierEnds(h.windows, groups, layers);
        assert Stage(r.client, r.handler, g) <= 3;
      }
    }
  }

  /**
   The theorem about runs. From a handler at rest, a legal run never raises and always gets back what it
   saved; commands on different streams are ordered wherever they must be; every offloaded group goes to
   the host, is released and comes back once, and its tensors are on the host, in the buffers and on the
   device as the log says; the device never holds more than `layers - groups + 1` groups, two with the
   setting the training code uses; and a run that took everything back leaves a handler at rest, ready for
   the next run.
   */
  lemma OffloadingIsTransparent(h: Handler, groups: int, layers: nat, events: seq<Event>)
    requires layers > groups >= 1 && AtRest(h, groups, layers)
    ensures var r := Run(Start(layers), h, events);
      !r.Broken? &&
      (r.Running? ==>
         SafeLog(r.handler.log) && h.log <= r.handler.log &&
         AccessesOf(r.handler.log) == AccessesOf(h.log) + Accesses(events, 0) &&
         |r.client.saved| == layers &&
         (forall g :: 0 <= g < layers ==> Accounted(h.log, r.client, r.handler, g)) &&
         |HeldGroups(r.handler)| <= layers - groups + 1 &&
         (layers == groups + 1 ==> |HeldGroups(r.handler)| <= 2) &&
         (Complete(r.client) ==> AtRest(r.handler, groups, layers)))
  {
    hide Run, Position, Memory, SafeLog, HeldGroups, WindowMap, AllCopyInsSeen, AllCopyOutsSeen, AccessesOf, Accounted;
    RunsBeginInInv(h, groups, layers);
    RunKeepsInv(Start(layers), h, events);
    RunAccounts(h, groups, layers, events);
    var r := Run(Start(layers), h, events);
    if r.Running? {
      HeldGroupsBound(r.client, r.handler);
      if Complete(r.client) {
        CompleteRunIsAtRest(r.client, r.handler);
      }
    }
  }

  // ---------- When keys identify contents ----------

  ghost predicate KeysIdentify(at: map<Tag, Slot>, group: int) {
    forall a, b :: Resident(a, at, group) && Resident(b, at, group) && at[a].tensor.key == at[b].tensor.key ==>
      at[a].tensor.data == at[b].tensor.data
  }

  /** Offloading a group and reloading it is the identity exactly when equal keys mean equal contents. */
  lemma RoundTripExactly(h: Handler, group: int)
    requires h.Valid() && group < h.groups && GroupOnDevice(h.table.at, group)
    requires forall tag :: Resident(tag, h.table.at, group) ==> h.table.at[tag].tensor.WellFormed()
    ensures BulkOffload(h, group).Ok?
    ensures var back := BulkReload(BulkOffload(h, group).value, group);
      (back.Ok? && back.value.table == h.table) <==> KeysIdentify(h.table.at, group)
  {
    var at, order := h.table.at, h.table.order;
    var parked := BulkOffload(h, group).value;
    var copies := parked.backups[group];
    var back := BulkReload(parked, group);
    if KeysIdentify(at, group) {
      forall tag | tag in at && InGroup(tag, group)
        ensures Rebuildable(Park(at[tag]), copies) && Rebuild(Park(at[tag]), copies) == at[tag]
      {
        var i :| 0 <= i < |order| && order[i] == tag;
        var first := DistinctRepresents(order, at, group, |order|, i);
        assert Resident(order[first], at, group) && Resident(tag, at, group);
      }
      assert GroupRebuildable(parked.table.at, group, copies);
      assert back.value.table.at == at;
    }
    if back.Ok? && back.value.table == h.table {
      forall a, b | Resident(a, at, group) && Resident(b, at, group) && at[a].tensor.key == at[b].tensor.key
        ensures at[a].tensor.data == at[b].tensor.data
      {
        assert InGroup(a, group) && InGroup(b, group);
        assert at[a] == Rebuild(Park(at[a]), copies) && at[b] == Rebuild(Park(at[b]), copies);
      }
    }
  }
}
