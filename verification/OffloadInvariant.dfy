/** Forward and backward passes, and the invariant that every event keeps. */
module OffloadInvariant {
  import opened Wrappers
  import opened DeviceStreams
  import opened Tensors
  import opened OffloadWindows
  import opened OffloadHandler

  datatype Phase = Forward(layer: nat) | Backward(layer: nat)

  /** `saved[g]` holds what layer `g` saved and has not taken back yet, under the tags the handler returned. */
  datatype Client = Client(phase: Phase, saved: seq<map<Tag, Tensor>>)

  datatype Event = Save(t: Tensor) | CommitLayer | CommitLayerBackward | Use(tag: Tag)

  datatype Outcome = Running(client: Client, handler: Handler) | Illegal | Broken

  function Start(layers: nat): Client {
    Client(Forward(0), seq(layers, _ => map[]))
  }

  /** The handler recognises tensors by their keys, so equal keys within an offloaded group must mean equal contents. */
  ghost predicate Recognisable(offloaded: bool, layer: map<Tag, Tensor>, t: Tensor) {
    offloaded ==> forall tag :: tag in layer && layer[tag].key == t.key ==> layer[tag].data == t.data
  }

  ghost predicate Legal(c: Client, h: Handler, e: Event) {
    match e
    case Save(t) =>
      c.phase.Forward? && c.phase.layer < |c.saved| && t.WellFormed() &&
      Recognisable(c.phase.layer < h.groups, c.saved[c.phase.layer], t)
    case CommitLayer => c.phase.Forward? && c.phase.layer < |c.saved|
    case CommitLayerBackward =>
      if c.phase.Forward? then c.phase.layer == |c.saved| > 0
      else 0 < c.phase.layer < |c.saved| && c.saved[c.phase.layer] == map[]
    case Use(tag) => c.phase.Backward? && c.phase.layer < |c.saved| && tag in c.saved[c.phase.layer]
  }

  ghost function Step(c: Client, h: Handler, e: Event): Outcome {
    if !Legal(c, h, e) then Illegal
    else
      var layer := c.phase.layer;
      match e
      case Save(t) =>
        (match Push(h, t, true)
         case Ok((h', Tagged(tag))) => Running(c.(saved := c.saved[layer := c.saved[layer][tag := t]]), h')
         case _ => Broken)
      case CommitLayer =>
        (match CommitForward(h)
         case Ok(h') => Running(c.(phase := Forward(layer + 1)), h')
         case Raised => Broken)
      case CommitLayerBackward =>
        (match CommitBackward(h)
         case Ok(h') => Running(c.(phase := Backward(layer - 1)), h')
         case Raised => Broken)
      case Use(tag) =>
        (match Pop(h, Tagged(tag))
         case Ok((h', t)) =>
           if SameValue(t, c.saved[layer][tag])
           then Running(c.(saved := c.saved[layer := c.saved[layer] - {tag}]), h')
           else Broken
         case Raised => Broken)
  }

  ghost function Run(c: Client, h: Handler, events: seq<Event>): Outcome
    decreases |events|
  {
    if events == [] then Running(c, h)
    else
      match Step(c, h, events[0])
      case Running(c', h') => Run(c', h', events[1..])
      case stopped => stopped
  }

  // ---------- The invariant ----------

  /** A saved tensor is on the host when its group is below `limit`, and on the device otherwise. */
  ghost predicate Holds(h: Handler, tag: Tag, t: Tensor, limit: int) {
    t.WellFormed() && tag in h.table.at &&
    if tag.group < limit
    then h.table.at[tag] == OnHost(t.key, t.shape) && InBackup(h, tag.group, t)
    else h.table.at[tag] == OnDevice(t)
  }

  ghost predicate InBackup(h: Handler, group: int, t: Tensor) {
    group in h.backups && t.key in h.backups[group] && h.backups[group][t.key] == t.data
  }

  /** The handler keeps a slot for exactly what the client has saved. */
  ghost predicate Tracked(saved: seq<map<Tag, Tensor>>, h: Handler) {
    h.Valid() &&
    forall tag {:trigger tag in h.table.at} :: tag in h.table.at ==> 0 <= tag.group < |saved| && tag in saved[tag.group]
  }

  ghost predicate AllHold(saved: seq<map<Tag, Tensor>>, h: Handler, limit: int) {
    forall g, tag {:trigger tag in saved[g]} :: 0 <= g < |saved| && tag in saved[g] ==>
      tag.group == g && Holds(h, tag, saved[g][tag], limit) && Recognisable(g < h.groups, saved[g], saved[g][tag])
  }

  ghost predicate BuffersFrom(h: Handler, free: int) {
    forall tag {:trigger tag in h.buffers} :: tag in h.buffers ==>
      tag in h.table.at && tag.group < h.groups && (h.buffers[tag].Some? ==> free <= tag.group)
  }

  /** Whatever its slot holds, a saved tensor of an offloaded group is in the buffers until its group is released. */
  ghost predicate BuffersHold(saved: seq<map<Tag, Tensor>>, buffers: map<Tag, Option<Tensor>>, groups: int, free: int) {
    forall g, tag {:trigger tag in saved[g]} :: 0 <= g < |saved| && g < groups && tag in saved[g] ==>
      tag in buffers && buffers[tag] == if g < free then None else Some(saved[g][tag])
  }

  /** The tensors of groups below `limit` are on the host; the buffers of groups below `free` are released. */
  ghost predicate Memory(saved: seq<map<Tag, Tensor>>, h: Handler, limit: int, free: int) {
    0 <= limit <= |saved| && (forall g :: g in h.backups <==> 0 <= g < limit) &&
    Tracked(saved, h) && AllHold(saved, h, limit) && BuffersFrom(h, free) && BuffersHold(saved, h.buffers, h.groups, free)
  }

  ghost predicate Position(c: Client, h: Handler) {
    var layers, l := |c.saved|, c.phase.layer;
    layers > h.groups >= 1 && SoundWindows(h.windows, h.groups, layers) &&
    h.current == l <= layers &&
    (forall g :: l < g < layers ==> c.saved[g] == map[]) &&
    var f := Frontier(h.windows, h.groups, l);
    match c.phase
    case Forward(_) =>
      h.released == f &&
      (if l == layers then h.count == 0 else forall tag :: tag in c.saved[l] ==> tag.index < h.count)
    case Backward(_) =>
      l < layers && h.count == 0 && h.released == if l == 0 then 0 else Max(1, f)
  }

  /** How many groups are on the host. */
  function HostLimit(c: Client, h: Handler): int
    requires h.groups >= 1
  {
    var l := c.phase.layer;
    var f := Frontier(h.windows, h.groups, l);
    if c.phase.Forward? then (if l == 0 then 0 else Min(f + 1, h.groups)) else f
  }

  function FreeLimit(c: Client, h: Handler): int
    requires h.groups >= 1
  {
    if c.phase.Forward? then Frontier(h.windows, h.groups, c.phase.layer) else h.groups
  }

  ghost predicate AllCopyOutsSeen(log: seq<Op>) { forall g :: AllSeen(log, Compute, CopyOut(g)) }

  ghost predicate AllCopyInsSeen(log: seq<Op>) { forall g :: AllSeen(log, Compute, CopyIn(g)) }

  ghost predicate Synchronised(c: Client, h: Handler)
    requires h.groups >= 1
  {
    SafeLog(h.log) &&
    (c.phase == Forward(|c.saved|) || c.phase.Backward? ==> AllCopyOutsSeen(h.log)) &&
    (c.phase.Forward? || c.phase.layer == 0 ==> AllCopyInsSeen(h.log)) &&
    (forall g :: g != Frontier(h.windows, h.groups, c.phase.layer) ==> AllSeen(h.log, Compute, CopyIn(g)))
  }

  ghost predicate Inv(c: Client, h: Handler) {
    Position(c, h) && Memory(c.saved, h, HostLimit(c, h), FreeLimit(c, h)) && Synchronised(c, h)
  }

  // ---------- Memory: one step each ----------

  lemma HoldingMoves(saved: seq<map<Tag, Tensor>>, h: Handler, h': Handler, limit: int, limit': int)
    requires AllHold(saved, h, limit) && h'.groups == h.groups
    requires forall tag: Tag :: 0 <= tag.group < |saved| && tag in saved[tag.group] ==>
      Holds(h', tag, saved[tag.group][tag], limit')
    ensures AllHold(saved, h', limit')
  {
    hide Holds, Recognisable;
    forall g, tag {:trigger tag in saved[g]} | 0 <= g < |saved| && tag in saved[g]
      ensures tag.group == g && Holds(h', tag, saved[g][tag], limit') && Recognisable(g < h.groups, saved[g], saved[g][tag])
    {
    }
  }

  /** Moving one group between device and host leaves the rest of the memory invariant alone. */
  lemma MemoryMoves(saved: seq<map<Tag, Tensor>>, h: Handler, h': Handler, limit: int, limit': int, free: int)
    requires Memory(saved, h, limit, free)
    requires h'.groups == h.groups && h'.buffers == h.buffers
    requires h'.table.order == h.table.order && h'.table.at.Keys == h.table.at.Keys
    requires 0 <= limit' <= |saved| && forall g :: g in h'.backups <==> 0 <= g < limit'
    requires forall tag: Tag :: 0 <= tag.group < |saved| && tag in saved[tag.group] ==>
      Holds(h', tag, saved[tag.group][tag], limit')
    ensures Memory(saved, h', limit', free)
  {
    hide AllHold, BuffersHold;
    HoldingMoves(saved, h, h', limit, limit');
    assert h'.Valid();
  }

  /** The tensor that was found first under a key has the contents of every other tensor with that key. */
  lemma FirstStandsForAll(saved: seq<map<Tag, Tensor>>, h: Handler, limit: int, tag: Tag)
    requires Tracked(saved, h) && AllHold(saved, h, limit) && 0 <= limit < |saved| && limit < h.groups && tag in saved[limit]
    ensures var found, t := Distinct(h.table.order, h.table.at, limit, |h.table.order|), saved[limit][tag];
      t.key in found && found[t.key].data == t.data
  {
    var at, order := h.table.at, h.table.order;
    assert Holds(h, tag, saved[limit][tag], limit);
    var i :| 0 <= i < |order| && order[i] == tag;
    var first := DistinctRepresents(order, at, limit, |order|, i);
    var k := order[first];
    assert k in at && k in saved[limit];
    assert Holds(h, k, saved[limit][k], limit) && Recognisable(limit < h.groups, saved[limit], saved[limit][k]);
  }

  lemma OffloadOne(saved: seq<map<Tag, Tensor>>, h: Handler, limit: int, tag: Tag)
    requires Tracked(saved, h) && AllHold(saved, h, limit) && 0 <= limit < |saved| && limit < h.groups && BulkOffload(h, limit).Ok?
    requires 0 <= tag.group < |saved| && tag in saved[tag.group]
    ensures Holds(BulkOffload(h, limit).value, tag, saved[tag.group][tag], limit + 1)
  {
    assert Holds(h, tag, saved[tag.group][tag], limit);
    if tag.group == limit {
      FirstStandsForAll(saved, h, limit, tag);
    }
  }

  lemma OffloadNext(saved: seq<map<Tag, Tensor>>, h: Handler, limit: int, free: int)
    requires Memory(saved, h, limit, free) && limit < |saved| && limit < h.groups
    ensures BulkOffload(h, limit).Ok?
    ensures var s := BulkOffload(h, limit).value;
      Memory(saved, s, limit + 1, free) && s == h.(table := s.table, backups := s.backups, log := h.log + [CopyOut(limit)])
  {
    var h' := BulkOffload(h, limit).value;
    forall tag: Tag | 0 <= tag.group < |saved| && tag in saved[tag.group]
      ensures Holds(h', tag, saved[tag.group][tag], limit + 1)
    {
      OffloadOne(saved, h, limit, tag);
    }
    MemoryMoves(saved, h, h', limit, limit + 1, free);
  }

  lemma RebuildOne(saved: seq<map<Tag, Tensor>>, h: Handler, limit: int, free: int, tag: Tag)
    requires Memory(saved, h, limit, free) && 1 <= limit && tag in h.table.at && tag.group == limit - 1
    ensures Rebuildable(h.table.at[tag], h.backups[limit - 1])
    ensures Rebuild(h.table.at[tag], h.backups[limit - 1]) == OnDevice(saved[limit - 1][tag])
  {
    assert Holds(h, tag, saved[limit - 1][tag], limit);
  }

  lemma GroupReloadable(saved: seq<map<Tag, Tensor>>, h: Handler, limit: int, free: int)
    requires Memory(saved, h, limit, free) && 1 <= limit <= h.groups
    ensures BulkReload(h, limit - 1).Ok?
  {
    forall tag | tag in h.table.at && InGroup(tag, limit - 1)
      ensures Rebuildable(h.table.at[tag], h.backups[limit - 1])
    {
      RebuildOne(saved, h, limit, free, tag);
    }
  }

  lemma ReloadOne(saved: seq<map<Tag, Tensor>>, h: Handler, limit: int, free: int, tag: Tag)
    requires Memory(saved, h, limit, free) && 1 <= limit && BulkReload(h, limit - 1).Ok?
    requires 0 <= tag.group < |saved| && tag in saved[tag.group]
    ensures Holds(BulkReload(h, limit - 1).value, tag, saved[tag.group][tag], limit - 1)
  {
    assert Holds(h, tag, saved[tag.group][tag], limit);
    if tag.group == limit - 1 {
      RebuildOne(saved, h, limit, free, tag);
    }
  }

  lemma ReloadLast(saved: seq<map<Tag, Tensor>>, h: Handler, limit: int, free: int)
    requires Memory(saved, h, limit, free) && 1 <= limit <= h.groups
    ensures BulkReload(h, limit - 1).Ok?
    ensures Memory(saved, BulkReload(h, limit - 1).value, limit - 1, free)
  {
    GroupReloadable(saved, h, limit, free);
    var h' := BulkReload(h, limit - 1).value;
    forall tag: Tag | 0 <= tag.group < |saved| && tag in saved[tag.group]
      ensures Holds(h', tag, saved[tag.group][tag], limit - 1)
    {
      ReloadOne(saved, h, limit, free, tag);
    }
    MemoryMoves(saved, h, h', limit, limit - 1, free);
  }

  lemma ReleaseKeepsBuffers(saved: seq<map<Tag, Tensor>>, h: Handler, limit: int, free: int)
    requires AllHold(saved, h, limit) && BuffersFrom(h, free) && BuffersHold(saved, h.buffers, h.groups, free)
    ensures var h' := h.(buffers := ReleaseGroup(h.buffers, free));
      BuffersFrom(h', free + 1) && BuffersHold(saved, h'.buffers, h'.groups, free + 1)
  {
    hide Holds, Recognisable;
  }

  lemma ReleaseNext(saved: seq<map<Tag, Tensor>>, h: Handler, limit: int, free: int)
    requires Memory(saved, h, limit, free)
    ensures Memory(saved, h.(buffers := ReleaseGroup(h.buffers, free)), limit, free + 1)
  {
    hide BuffersFrom, BuffersHold, Recognisable, ReleaseGroup;
    var h' := h.(buffers := ReleaseGroup(h.buffers, free));
    ReleaseKeepsBuffers(saved, h, limit, free);
    forall k, tag {:trigger tag in saved[k]} | 0 <= k < |saved| && tag in saved[k]
      ensures tag.group == k && Holds(h', tag, saved[k][tag], limit) && Recognisable(k < h.groups, saved[k], saved[k][tag])
    {
      assert Holds(h, tag, saved[k][tag], limit);
    }
  }

  /** Memory speaks about the tensors and their copies only. */
  lemma MemoryIgnores(saved: seq<map<Tag, Tensor>>, h: Handler, h': Handler, limit: int, free: int)
    requires Memory(saved, h, limit, free)
    requires h'.groups == h.groups && h'.table == h.table && h'.buffers == h.buffers && h'.backups == h.backups
    ensures Memory(saved, h', limit, free)
  {
    forall k, tag | 0 <= k < |saved| && tag in saved[k]
      ensures Holds(h', tag, saved[k][tag], limit)
    {
      assert Holds(h, tag, saved[k][tag], limit);
    }
  }

  // ---------- Streams: the logs of a commit ----------

  function CopyOutLog(log: seq<Op>, g: int): seq<Op> {
    log + [Wait(DeviceToHost, Compute)] + [CopyOut(g)]
  }

  function WindowLog(log: seq<Op>, g: int): seq<Op> {
    log + [Wait(DeviceToHost, Compute)] + [Wait(Compute, DeviceToHost)] + [Release(g)]
  }

  function ReloadLog(log: seq<Op>, g: int): seq<Op> {
    log + [Wait(HostToDevice, Compute)] + [Wait(Compute, HostToDevice)] + [CopyIn(g)]
  }

  lemma KeepsSeen(log: seq<Op>, op: Op)
    ensures !op.CopyIn? && AllCopyInsSeen(log) ==> AllCopyInsSeen(log + [op])
    ensures !op.CopyOut? && AllCopyOutsSeen(log) ==> AllCopyOutsSeen(log + [op])
    ensures forall g :: AllSeen(log, Compute, CopyIn(g)) && op != CopyIn(g) ==> AllSeen(log + [op], Compute, CopyIn(g))
  {
    forall g | AllSeen(log, Compute, CopyIn(g)) && op != CopyIn(g) ensures AllSeen(log + [op], Compute, CopyIn(g)) {
      AllSeenAppend(log, op, Compute, CopyIn(g));
    }
    forall g | AllSeen(log, Compute, CopyOut(g)) && op != CopyOut(g) ensures AllSeen(log + [op], Compute, CopyOut(g)) {
      AllSeenAppend(log, op, Compute, CopyOut(g));
    }
  }

  lemma WaitForCopies(log: seq<Op>)
    ensures AllCopyInsSeen(log + [Wait(Compute, HostToDevice)])
    ensures AllCopyOutsSeen(log + [Wait(Compute, DeviceToHost)])
  {
    forall g ensures AllSeen(log + [Wait(Compute, HostToDevice)], Compute, CopyIn(g)) {
      WaitSeesAll(log, Compute, CopyIn(g));
    }
    forall g ensures AllSeen(log + [Wait(Compute, DeviceToHost)], Compute, CopyOut(g)) {
      WaitSeesAll(log, Compute, CopyOut(g));
    }
  }

  lemma CopyOutIsSafe(log: seq<Op>, g: int)
    requires SafeLog(log)
    ensures SafeLog(CopyOutLog(log, g))
    ensures AllCopyInsSeen(log) ==> AllCopyInsSeen(CopyOutLog(log, g))
  {
    var wait := Wait(DeviceToHost, Compute);
    SafeAppend(log, wait);
    WaitSeesAll(log, DeviceToHost, Produce(g));
    SafeAppend(log + [wait], CopyOut(g));
    KeepsSeen(log, wait);
    KeepsSeen(log + [wait], CopyOut(g));
  }

  lemma WindowIsSafe(log: seq<Op>, g: int)
    requires SafeLog(log)
    ensures SafeLog(WindowLog(log, g)) && SafeLog(WindowLog(log, g) + [CopyOut(g + 1)])
    ensures AllCopyOutsSeen(WindowLog(log, g))
    ensures AllCopyInsSeen(log) ==> AllCopyInsSeen(WindowLog(log, g)) && AllCopyInsSeen(WindowLog(log, g) + [CopyOut(g + 1)])
  {
    var log1 := log + [Wait(DeviceToHost, Compute)];
    var log2 := log1 + [Wait(Compute, DeviceToHost)];
    SafeAppend(log, Wait(DeviceToHost, Compute));
    SafeAppend(log1, Wait(Compute, DeviceToHost));
    WaitForCopies(log1);
    SafeAppend(log2, Release(g));
    KeepsSeen(log, Wait(DeviceToHost, Compute));
    KeepsSeen(log1, Wait(Compute, DeviceToHost));
    KeepsSeen(log2, Release(g));
    KeepsSeen(WindowLog(log, g), CopyOut(g + 1));
    var next := Produce(g + 1);
    WaitSeesAll(log, DeviceToHost, next);
    AllSeenAppend(log1, Wait(Compute, DeviceToHost), DeviceToHost, next);
    AllSeenAppend(log2, Release(g), DeviceToHost, next);
    SafeAppend(WindowLog(log, g), CopyOut(g + 1));
  }

  lemma ReloadIsSafe(log: seq<Op>, g: int)
    requires SafeLog(log) && AllCopyOutsSeen(log)
    ensures SafeLog(ReloadLog(log, g)) && AllCopyOutsSeen(ReloadLog(log, g))
    ensures forall k :: k != g ==> AllSeen(ReloadLog(log, g), Compute, CopyIn(k))
  {
    var log1 := log + [Wait(HostToDevice, Compute)];
    var log2 := log1 + [Wait(Compute, HostToDevice)];
    SafeAppend(log, Wait(HostToDevice, Compute));
    SafeAppend(log1, Wait(Compute, HostToDevice));
    WaitInherits(log, HostToDevice, Compute, CopyOut(g));
    AllSeenAppend(log1, Wait(Compute, HostToDevice), HostToDevice, CopyOut(g));
    SafeAppend(log2, CopyIn(g));
    WaitForCopies(log1);
    KeepsSeen(log, Wait(HostToDevice, Compute));
    KeepsSeen(log1, Wait(Compute, HostToDevice));
    KeepsSeen(log2, CopyIn(g));
  }

  lemma LastWaitIsSafe(log: seq<Op>)
    requires SafeLog(log) && AllCopyOutsSeen(log)
    ensures var log' := log + [Wait(Compute, HostToDevice)];
      SafeLog(log') && AllCopyOutsSeen(log') && AllCopyInsSeen(log')
  {
    SafeAppend(log, Wait(Compute, HostToDevice));
    WaitForCopies(log);
    KeepsSeen(log, Wait(Compute, HostToDevice));
  }

  // ---------- Each event keeps the invariant ----------

  ghost predicate SameRun(c: Client, h: Handler, r: Outcome)
    requires r.Running?
  {
    r.handler.groups == h.groups && r.handler.windows == h.windows && |r.client.saved| == |c.saved|
  }

  function WithSaved(saved: seq<map<Tag, Tensor>>, tag: Tag, t: Tensor): seq<map<Tag, Tensor>>
    requires 0 <= tag.group < |saved|
  {
    saved[tag.group := saved[tag.group][tag := t]]
  }

  lemma SaveOne(saved: seq<map<Tag, Tensor>>, h: Handler, tag: Tag, t: Tensor, limit: int, k: Tag)
    requires AllHold(saved, h, limit) && 0 <= limit <= tag.group < |saved| && tag !in h.table.at
    requires tag == Tag(h.current, h.count) && t.WellFormed() && Recognisable(tag.group < h.groups, saved[tag.group], t)
    requires 0 <= k.group < |saved| && k in WithSaved(saved, tag, t)[k.group]
    ensures var saved' := WithSaved(saved, tag, t);
      Holds(Push(h, t, true).value.0, k, saved'[k.group][k], limit) && Recognisable(k.group < h.groups, saved'[k.group], saved'[k.group][k])
  {
    if k != tag {
      assert k in saved[k.group];
      assert Holds(h, k, saved[k.group][k], limit) && Recognisable(k.group < h.groups, saved[k.group], saved[k.group][k]);
    }
  }

  lemma SaveKeepsHolding(saved: seq<map<Tag, Tensor>>, h: Handler, tag: Tag, t: Tensor, limit: int)
    requires AllHold(saved, h, limit) && 0 <= limit <= tag.group < |saved| && tag !in h.table.at
    requires tag == Tag(h.current, h.count) && t.WellFormed() && Recognisable(tag.group < h.groups, saved[tag.group], t)
    ensures AllHold(WithSaved(saved, tag, t), Push(h, t, true).value.0, limit)
  {
    hide Holds, Recognisable;
    var saved' := WithSaved(saved, tag, t);
    forall g: int, k: Tag {:trigger k in saved'[g]} | 0 <= g < |saved'| && k in saved'[g]
      ensures k.group == g &&
        Holds(Push(h, t, true).value.0, k, saved'[g][k], limit) && Recognisable(g < h.groups, saved'[g], saved'[g][k])
    {
      assert k == tag || k in saved[g];
      SaveOne(saved, h, tag, t, limit, k);
    }
  }

  lemma SaveKeepsBuffers(saved: seq<map<Tag, Tensor>>, h: Handler, tag: Tag, t: Tensor, limit: int, free: int)
    requires AllHold(saved, h, limit) && BuffersHold(saved, h.buffers, h.groups, free) && 0 <= tag.group < |saved|
    requires tag == Tag(h.current, h.count) && tag !in h.table.at && free <= tag.group
    ensures BuffersHold(WithSaved(saved, tag, t), Push(h, t, true).value.0.buffers, h.groups, free)
  {
    var saved' := WithSaved(saved, tag, t);
    var buffers := Push(h, t, true).value.0.buffers;
    forall g: int, k: Tag {:trigger k in saved'[g]} | 0 <= g < |saved| && g < h.groups && k in saved'[g]
      ensures k in buffers && buffers[k] == if g < free then None else Some(saved'[g][k])
    {
      assert if k in saved[g] then Holds(h, k, saved[g][k], limit) else k == tag && g == tag.group;
    }
  }

  lemma SaveKeepsMemory(saved: seq<map<Tag, Tensor>>, h: Handler, tag: Tag, t: Tensor, limit: int, free: int)
    requires Memory(saved, h, limit, free) && 0 <= limit <= tag.group < |saved| && tag !in h.table.at && free <= tag.group
    requires tag == Tag(h.current, h.count) && t.WellFormed() && Recognisable(tag.group < h.groups, saved[tag.group], t)
    ensures Memory(WithSaved(saved, tag, t), Push(h, t, true).value.0, limit, free)
  {
    hide AllHold, Recognisable, BuffersHold;
    SaveKeepsHolding(saved, h, tag, t, limit);
    SaveKeepsBuffers(saved, h, tag, t, limit, free);
  }

  lemma FreshTag(c: Client, h: Handler, tag: Tag)
    requires Tracked(c.saved, h) && Position(c, h) && c.phase.Forward? && c.phase.layer < |c.saved|
    requires tag == Tag(c.phase.layer, h.count)
    ensures tag !in h.table.at
  {
  }

  lemma SaveKeepsInv(c: Client, h: Handler, t: Tensor)
    requires Inv(c, h) && Legal(c, h, Save(t))
    ensures var r := Step(c, h, Save(t));
      r.Running? && Inv(r.client, r.handler) && SameRun(c, h, r)
  {
    hide Tracked, AllHold, BuffersFrom, BuffersHold, SafeLog, Recognisable;
    var l := c.phase.layer;
    FrontierSpan(h.windows, h.groups, |c.saved|, l);
    var tag := Tag(l, h.count);
    FreshTag(c, h, tag);
    SaveKeepsMemory(c.saved, h, tag, t, HostLimit(c, h), FreeLimit(c, h));
    SafeAppend(h.log, Produce(h.current));
    KeepsSeen(h.log, Produce(h.current));
  }

  lemma CommitOffloads(c: Client, h: Handler)
    requires Inv(c, h) && Legal(c, h, CommitLayer)
    ensures var f := Frontier(h.windows, h.groups, c.phase.layer);
      var s1 := if h.current == 0 then BulkOffload(h.(log := h.log + [Wait(DeviceToHost, Compute)]), 0) else Ok(h);
      s1.Ok? && Memory(c.saved, s1.value, Min(f + 1, h.groups), f) && s1.value.buffers == h.buffers &&
      s1.value == h.(table := s1.value.table, backups := s1.value.backups, log := s1.value.log) &&
      SafeLog(s1.value.log) && AllCopyInsSeen(s1.value.log)
  {
    hide Tracked, AllHold, BuffersFrom, BuffersHold, SafeLog, AllCopyInsSeen, AllCopyOutsSeen, BulkOffload;
    FrontierSpan(h.windows, h.groups, |c.saved|, c.phase.layer);
    if h.current == 0 {
      var h0 := h.(log := h.log + [Wait(DeviceToHost, Compute)]);
      MemoryIgnores(c.saved, h, h0, 0, 0);
      OffloadNext(c.saved, h0, 0, 0);
      CopyOutIsSafe(h.log, 0);
    }
  }

  lemma ClosedWindow(c: Client, h: Handler, s: Handler, f: int)
    requires Inv(c, h) && Legal(c, h, CommitLayer) && f == Frontier(h.windows, h.groups, c.phase.layer) < h.groups
    requires Memory(c.saved, s, f + 1, f) && SafeLog(s.log) && AllCopyInsSeen(s.log)
    requires s.groups == h.groups && s.released == f
    ensures var r := CloseWindow(s);
      r.Ok? && Memory(c.saved, r.value, Min(f + 2, h.groups), f + 1) && SafeLog(r.value.log) &&
      AllCopyInsSeen(r.value.log) && (f + 1 == h.groups ==> AllCopyOutsSeen(r.value.log)) &&
      r.value.current == s.current && r.value.groups == s.groups && r.value.windows == s.windows &&
      r.value.released == f + 1
  {
    hide Memory, SafeLog, AllCopyInsSeen, AllCopyOutsSeen, BulkOffload, ReleaseGroup;
    ReleaseNext(c.saved, s, f + 1, f);
    WindowIsSafe(s.log, f);
    var s1 := s.(buffers := ReleaseGroup(s.buffers, f));
    var s2 := s1.(log := WindowLog(s.log, f));
    MemoryIgnores(c.saved, s1, s2, f + 1, f + 1);
    if f < s.groups - 1 {
      OffloadNext(c.saved, s2, f + 1, f + 1);
      var s3 := BulkOffload(s2, f + 1).value;
      MemoryIgnores(c.saved, s3, s3.(released := f + 1), f + 2, f + 1);
    } else {
      MemoryIgnores(c.saved, s2, s2.(released := f + 1), f + 1, f + 1);
    }
  }

  /** What both kinds of commit leave alone. */
  ghost predicate SameSetup(h: Handler, s: Handler) {
    s.groups == h.groups && s.windows == h.windows
  }

  lemma CommitPosition(c: Client, h: Handler)
    requires Position(c, h) && Legal(c, h, CommitLayer)
    ensures var l, layers := c.phase.layer, |c.saved|;
      var f, f' := Frontier(h.windows, h.groups, l), Frontier(h.windows, h.groups, l + 1);
      h.released == f < h.groups && f in h.windows && 0 in h.windows && h.windows[0] >= 1 &&
      f' == (if h.windows[f] == l then f + 1 else f) && (l + 1 == layers ==> f + 1 == f' == h.groups)
  {
    FrontierStep(h.windows, h.groups, |c.saved|, c.phase.layer);
    FrontierEnds(h.windows, h.groups, |c.saved|);
  }

  lemma CommitEffect(c: Client, h: Handler)
    requires Inv(c, h) && Legal(c, h, CommitLayer)
    ensures var l, layers := c.phase.layer, |c.saved|;
      var r, f' := CommitForward(h), Frontier(h.windows, h.groups, l + 1);
      r.Ok? && SameSetup(h, r.value) && r.value.current == l + 1 && r.value.count == 0 && r.value.released == f' &&
      Memory(c.saved, r.value, Min(f' + 1, h.groups), f') && SafeLog(r.value.log) && AllCopyInsSeen(r.value.log) &&
      (l + 1 == layers ==> AllCopyOutsSeen(r.value.log))
  {
    hide Memory, SafeLog, AllCopyInsSeen, AllCopyOutsSeen, BulkOffload, CloseWindow, SoundWindows, Frontier;
    var l := c.phase.layer;
    CommitPosition(c, h);
    CommitOffloads(c, h);
    var f := h.released;
    var s1 := (if l == 0 then BulkOffload(h.(log := h.log + [Wait(DeviceToHost, Compute)]), 0) else Ok(h)).value;
    if h.windows[f] == l {
      ClosedWindow(c, h, s1, f);
      var s2 := CloseWindow(s1).value;
      MemoryIgnores(c.saved, s2, s2.(current := l + 1, count := 0), Min(f + 2, h.groups), f + 1);
    } else {
      MemoryIgnores(c.saved, s1, s1.(current := l + 1, count := 0), Min(f + 1, h.groups), f);
    }
  }

  lemma CommitKeepsInv(c: Client, h: Handler)
    requires Inv(c, h) && Legal(c, h, CommitLayer)
    ensures var r := Step(c, h, CommitLayer);
      r.Running? && Inv(r.client, r.handler) && SameRun(c, h, r)
  {
    hide Memory, SafeLog, AllCopyOutsSeen, Frontier, CommitForward;
    CommitEffect(c, h);
  }

  lemma ReloadPosition(c: Client, h: Handler)
    requires Position(c, h) && Legal(c, h, CommitLayerBackward)
    ensures h.released == Max(1, Frontier(h.windows, h.groups, c.phase.layer)) && h.released - 1 in h.windows
    ensures var l, layers := c.phase.layer, |c.saved|;
      var f, f' := Frontier(h.windows, h.groups, l), Frontier(h.windows, h.groups, l - 1);
      HostLimit(c, h) == f && FreeLimit(c, h) <= h.groups && (c.phase.Forward? ==> FreeLimit(c, h) == h.groups) &&
      if h.windows[h.released - 1] == l - 1 then f == h.released >= 1 && f' == f - 1 else f' == f
  {
    hide Frontier, SoundWindows;
    FrontierBack(h.windows, h.groups, |c.saved|, c.phase.layer);
  }

  lemma ReloadEffect(saved: seq<map<Tag, Tensor>>, s: Handler, f: int)
    requires Memory(saved, s, f, s.groups) && 1 <= f == s.released <= s.groups
    requires s.released - 1 in s.windows && s.windows[s.released - 1] == s.current
    requires SafeLog(s.log) && AllCopyOutsSeen(s.log)
    ensures var r := ReloadIfDue(s);
      r.Ok? && SameSetup(s, r.value) && r.value.current == s.current && r.value.count == s.count &&
      r.value.released == Max(1, f - 1) && Memory(saved, r.value, f - 1, s.groups) &&
      r.value.log == ReloadLog(s.log, f - 1)
  {
    var s1 := s.(log := s.log + [Wait(HostToDevice, Compute)] + [Wait(Compute, HostToDevice)]);
    MemoryIgnores(saved, s, s1, f, s.groups);
    ReloadLast(saved, s1, f, s.groups);
    var s2 := BulkReload(s1, f - 1).value;
    MemoryIgnores(saved, s2, s2.(released := Max(1, f - 1)), f - 1, s.groups);
  }

  /** Before the last wait: everything the invariant says but for the final reset of the counter. */
  ghost predicate Restored(c: Client, h: Handler, s: Handler)
    requires h.groups >= 1
  {
    var f' := Frontier(h.windows, h.groups, c.phase.layer - 1);
    SameSetup(h, s) && s.current == c.phase.layer - 1 && s.count == 0 &&
    s.released == Max(1, f') && Memory(c.saved, s, f', h.groups) &&
    SafeLog(s.log) && AllCopyOutsSeen(s.log) &&
    forall g :: g != f' ==> AllSeen(s.log, Compute, CopyIn(g))
  }

  lemma BackwardReload(c: Client, h: Handler)
    requires Inv(c, h) && Legal(c, h, CommitLayerBackward)
    requires h.released - 1 in h.windows && h.windows[h.released - 1] == c.phase.layer - 1
    ensures var r := ReloadIfDue(h.(current := h.current - 1));
      r.Ok? && Restored(c, h, r.value)
  {
    hide Memory, SafeLog, AllCopyInsSeen, AllCopyOutsSeen, ReloadIfDue, SoundWindows, Frontier;
    var l := c.phase.layer;
    var s := h.(current := l - 1);
    ReloadPosition(c, h);
    var f := Frontier(h.windows, h.groups, l);
    MemoryIgnores(c.saved, h, s, f, h.groups);
    ReloadIsSafe(h.log, f - 1);
    ReloadEffect(c.saved, s, f);
  }

  lemma BackwardEffect(c: Client, h: Handler)
    requires Inv(c, h) && Legal(c, h, CommitLayerBackward)
    ensures var r := ReloadIfDue(h.(current := h.current - 1));
      r.Ok? && Restored(c, h, r.value)
  {
    hide Memory, SafeLog, AllCopyInsSeen, AllCopyOutsSeen, SoundWindows, Frontier, BulkReload;
    ReloadPosition(c, h);
    if h.windows[h.released - 1] == c.phase.layer - 1 {
      BackwardReload(c, h);
    } else {
      MemoryIgnores(c.saved, h, h.(current := h.current - 1), Frontier(h.windows, h.groups, c.phase.layer), h.groups);
    }
  }

  lemma FinishKeepsInv(c: Client, h: Handler, s: Handler)
    requires Inv(c, h) && Legal(c, h, CommitLayerBackward) && Restored(c, h, s)
    ensures Inv(c.(phase := Backward(c.phase.layer - 1)), FinishAtFirst(s)) && SameSetup(h, FinishAtFirst(s))
  {
    hide Memory, SafeLog, AllCopyInsSeen, AllCopyOutsSeen, SoundWindows;
    var f' := Frontier(h.windows, h.groups, c.phase.layer - 1);
    FrontierEnds(h.windows, h.groups, |c.saved|);
    if s.current == 0 {
      LastWaitIsSafe(s.log);
      MemoryIgnores(c.saved, s, FinishAtFirst(s), f', h.groups);
    }
  }

  lemma CommitBackwardKeepsInv(c: Client, h: Handler)
    requires Inv(c, h) && Legal(c, h, CommitLayerBackward)
    ensures var r := Step(c, h, CommitLayerBackward);
      r.Running? && Inv(r.client, r.handler) && SameRun(c, h, r)
  {
    hide Memory, Restored, Synchronised, ReloadIfDue, FinishAtFirst, SoundWindows, Frontier;
    BackwardEffect(c, h);
    FinishKeepsInv(c, h, ReloadIfDue(h.(current := h.current - 1)).value);
  }

  function Used(saved: seq<map<Tag, Tensor>>, tag: Tag): seq<map<Tag, Tensor>>
    requires 0 <= tag.group < |saved|
  {
    saved[tag.group := saved[tag.group] - {tag}]
  }

  lemma OwnTag(saved: seq<map<Tag, Tensor>>, h: Handler, tag: Tag, g: nat, limit: int)
    requires AllHold(saved, h, limit) && g < |saved| && tag in saved[g]
    ensures tag.group == g
  {
  }

  lemma UsableTag(saved: seq<map<Tag, Tensor>>, h: Handler, tag: Tag, limit: int)
    requires AllHold(saved, h, limit) && 0 <= limit <= tag.group < |saved| && tag in saved[tag.group]
    ensures tag in h.table.at && h.table.at[tag] == OnDevice(saved[tag.group][tag])
  {
    assert Holds(h, tag, saved[tag.group][tag], limit);
  }

  lemma UseKeepsHolding(saved: seq<map<Tag, Tensor>>, h: Handler, tag: Tag, limit: int)
    requires AllHold(saved, h, limit) && 0 <= tag.group < |saved| && tag in h.table.at && h.table.at[tag].OnDevice?
    ensures AllHold(Used(saved, tag), Pop(h, Tagged(tag)).value.0, limit)
  {
    var saved' := Used(saved, tag);
    var h' := Pop(h, Tagged(tag)).value.0;
    forall g: int, k: Tag {:trigger k in saved'[g]} | 0 <= g < |saved'| && k in saved'[g]
      ensures k.group == g && Holds(h', k, saved'[g][k], limit) && Recognisable(g < h.groups, saved'[g], saved'[g][k])
    {
      assert k in saved[g];
      assert Holds(h, k, saved[g][k], limit) && Recognisable(g < h.groups, saved[g], saved[g][k]);
    }
  }

  lemma UseKeepsTracked(saved: seq<map<Tag, Tensor>>, h: Handler, tag: Tag)
    requires Tracked(saved, h) && 0 <= tag.group < |saved| && tag in h.table.at && h.table.at[tag].OnDevice?
    ensures Tracked(Used(saved, tag), Pop(h, Tagged(tag)).value.0)
  {
    DropKeepsValid(h.table, tag);
  }

  lemma UseKeepsBuffers(h: Handler, tag: Tag, free: int)
    requires BuffersFrom(h, free) && tag in h.table.at && h.table.at[tag].OnDevice?
    ensures BuffersFrom(Pop(h, Tagged(tag)).value.0, free)
  {
  }

  lemma UseKeepsHeld(saved: seq<map<Tag, Tensor>>, h: Handler, tag: Tag, limit: int, free: int)
    requires AllHold(saved, h, limit) && BuffersHold(saved, h.buffers, h.groups, free) && 0 <= tag.group < |saved|
    requires tag in h.table.at && h.table.at[tag].OnDevice?
    ensures BuffersHold(Used(saved, tag), Pop(h, Tagged(tag)).value.0.buffers, h.groups, free)
  {
    hide Holds, Recognisable;
    var saved' := Used(saved, tag);
    forall g: int, k: Tag {:trigger k in saved'[g]} | 0 <= g < |saved'| && k in saved'[g]
      ensures k in saved[g] && k.group == g && k != tag && saved'[g][k] == saved[g][k]
    {
    }
  }

  lemma StepKeepsInv(c: Client, h: Handler, e: Event)
    requires Inv(c, h) && Legal(c, h, e)
    ensures var r := Step(c, h, e);
      r.Running? && Inv(r.client, r.handler) && SameRun(c, h, r)
  {
    hide Tracked, AllHold, BuffersFrom, BuffersHold, SafeLog;
    match e
    case Save(t) => SaveKeepsInv(c, h, t);
    case CommitLayer => CommitKeepsInv(c, h);
    case CommitLayerBackward => CommitBackwardKeepsInv(c, h);
    case Use(tag) =>
      var l, limit := c.phase.layer, HostLimit(c, h);
      FrontierSpan(h.windows, h.groups, |c.saved|, l);
      OwnTag(c.saved, h, tag, l, limit);
      UsableTag(c.saved, h, tag, limit);
      UseKeepsHolding(c.saved, h, tag, limit);
      UseKeepsTracked(c.saved, h, tag);
      UseKeepsBuffers(h, tag, FreeLimit(c, h));
      UseKeepsHeld(c.saved, h, tag, limit, FreeLimit(c, h));
      SafeAppend(h.log, Consume(l));
      KeepsSeen(h.log, Consume(l));
  }
}
