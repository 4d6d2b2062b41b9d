/** The asynchronous double-buffer offload handler: what each call does, and the class that does it. */
module OffloadHandler {
  import opened Wrappers
  import opened DeviceStreams
  import opened Tensors
  import opened OffloadWindows

  /** What saving a tensor returns: a tag, or the tensor itself when it is not to be offloaded. */
  datatype Handle = Tagged(tag: Tag) | Untouched(tensor: Tensor)

  datatype Handler = Handler(
    groups: int,                               // number of groups to offload
    windows: map<int, int>,
    current: int,                              // the group being saved or restored
    count: nat,                                // tensors saved in the current group
    table: Table,
    buffers: map<Tag, Option<Tensor>>,
    released: int,                             // offloaded groups whose buffers were released
    backups: map<int, map<Key, seq<int>>>,     // host copies of each offloaded group
    log: seq<Op>)                              // commands issued to the device
  {
    ghost predicate Valid() { table.Valid() }
  }

  function Initial(groups: int, layers: int): Handler {
    Handler(groups, WindowMap(groups, layers), 0, 0, Table([], map[]), map[], 0, map[], [])
  }

  function Push(s: Handler, t: Tensor, eligible: bool): Result<(Handler, Handle)> {
    if !eligible then Ok((s, Untouched(t)))
    else
      var tag := Tag(s.current, s.count);
      if tag in s.table.at then Raised
      else Ok((s.(count := s.count + 1,
                  table := s.table.Add(tag, OnDevice(t)),
                  buffers := if s.current < s.groups then s.buffers[tag := Some(t)] else s.buffers,
                  log := s.log + [Produce(s.current)]), Tagged(tag)))
  }

  function Pop(s: Handler, handle: Handle): Result<(Handler, Tensor)> {
    match handle
    case Untouched(t) => Ok((s, t))
    case Tagged(tag) =>
      if tag !in s.table.at || s.table.at[tag].OnHost? then Raised
      else Ok((s.(table := s.table.Drop(tag),
                  buffers := s.buffers - {tag},
                  log := s.log + [Consume(tag.group)]), s.table.at[tag].tensor))
  }

  /** A tensor that is not to be offloaded is handed back as it is, whatever happened in between, and leaves no trace. */
  lemma UntouchedComesBack(s: Handler, t: Tensor, later: Handler)
    ensures Push(s, t, false).Ok? && Push(s, t, false).value.0 == s
    ensures Pop(later, Push(s, t, false).value.1) == Ok((later, t))
  {
  }

  predicate InGroup(tag: Tag, group: int) { tag.group == group }

  predicate GroupOnDevice(at: map<Tag, Slot>, group: int) {
    forall tag :: tag in at && InGroup(tag, group) ==> at[tag].OnDevice?
  }

  function Park(slot: Slot): Slot {
    if slot.OnDevice? then OnHost(slot.tensor.key, slot.tensor.shape) else slot
  }

  function Evict(at: map<Tag, Slot>, group: int): map<Tag, Slot> {
    map tag | tag in at :: if InGroup(tag, group) then Park(at[tag]) else at[tag]
  }

  lemma NotOnDevice(at: map<Tag, Slot>, group: int, tag: Tag)
    requires tag in at && InGroup(tag, group) && at[tag].OnHost?
    ensures !GroupOnDevice(at, group)
  {
  }

  lemma EvictedAll(order: seq<Tag>, at: map<Tag, Slot>, now: map<Tag, Slot>, group: int)
    requires now.Keys == at.Keys && forall tag :: tag in order <==> tag in at
    requires forall j :: 0 <= j < |order| ==>
      if InGroup(order[j], group)
      then at[order[j]].OnDevice? && now[order[j]] == Park(at[order[j]])
      else now[order[j]] == at[order[j]]
    ensures GroupOnDevice(at, group) && now == Evict(at, group)
  {
  }

  function BulkOffload(s: Handler, group: int): Result<Handler>
  {
    if !GroupOnDevice(s.table.at, group) then Raised
    else Ok(s.(table := s.table.(at := Evict(s.table.at, group)),
               backups := s.backups[group := Contents(Distinct(s.table.order, s.table.at, group, |s.table.order|))],
               log := s.log + [CopyOut(group)]))
  }

  function ReleaseGroup(buffers: map<Tag, Option<Tensor>>, group: int): map<Tag, Option<Tensor>> {
    map tag | tag in buffers :: if InGroup(tag, group) then None else buffers[tag]
  }

  /** Release the group whose window closes and start offloading the next one. */
  function CloseWindow(s: Handler): Result<Handler>
  {
    var s1 := s.(log := s.log + [Wait(DeviceToHost, Compute)] + [Wait(Compute, DeviceToHost)] + [Release(s.released)],
                 buffers := ReleaseGroup(s.buffers, s.released));
    var s2 :- if s.released < s.groups - 1 then BulkOffload(s1, s.released + 1) else Ok(s1);
    Ok(s2.(released := s.released + 1))
  }

  function SynchronizeForward(s: Handler, group: int): Result<Handler>
  {
    var s1 :- if group == 0 then BulkOffload(s.(log := s.log + [Wait(DeviceToHost, Compute)]), group) else Ok(s);
    if s1.released !in s1.windows then Raised
    else if s1.windows[s1.released] != group then Ok(s1)
    else CloseWindow(s1)
  }

  function CommitForward(s: Handler): Result<Handler>
  {
    var s1 :- SynchronizeForward(s, s.current);
    Ok(s1.(current := s1.current + 1, count := 0))
  }

  predicate Rebuildable(slot: Slot, copies: map<Key, seq<int>>) {
    slot.OnHost? ==> slot.key in copies && |copies[slot.key]| == Numel(slot.shape)
  }

  function Rebuild(slot: Slot, copies: map<Key, seq<int>>): Slot
    requires Rebuildable(slot, copies)
  {
    if slot.OnHost? then OnDevice(Tensor(slot.key, slot.shape, copies[slot.key])) else slot
  }

  predicate GroupRebuildable(at: map<Tag, Slot>, group: int, copies: map<Key, seq<int>>) {
    forall tag :: tag in at && InGroup(tag, group) ==> Rebuildable(at[tag], copies)
  }

  function Restore(at: map<Tag, Slot>, group: int, copies: map<Key, seq<int>>): map<Tag, Slot>
    requires GroupRebuildable(at, group, copies)
  {
    map tag | tag in at :: if InGroup(tag, group) then Rebuild(at[tag], copies) else at[tag]
  }

  function BulkReload(s: Handler, group: int): Result<Handler> {
    if group >= s.groups || group !in s.backups || !GroupRebuildable(s.table.at, group, s.backups[group]) then Raised
    else Ok(s.(table := s.table.(at := Restore(s.table.at, group, s.backups[group])),
               backups := s.backups - {group},
               log := s.log + [CopyIn(group)]))
  }

  /** The first half of a backward commit: reload the group whose window this layer closes. */
  function ReloadIfDue(s: Handler): Result<Handler> {
    if s.released - 1 !in s.windows then Raised
    else if s.windows[s.released - 1] != s.current then Ok(s)
    else
      var s' :- BulkReload(s.(log := s.log + [Wait(HostToDevice, Compute)] + [Wait(Compute, HostToDevice)]), s.released - 1);
      Ok(s'.(released := s'.released - (if s'.released > 1 then 1 else 0)))
  }

  /** The second half: at the first layer the compute stream waits for the last reload. */
  function FinishAtFirst(s: Handler): Handler {
    if s.current == 0 then s.(log := s.log + [Wait(Compute, HostToDevice)], released := 0) else s
  }

  function CommitBackward(s: Handler): Result<Handler> {
    if s.current - 1 < 0 then Raised
    else
      var s' :- ReloadIfDue(s.(current := s.current - 1));
      Ok(FinishAtFirst(s'))
  }

  class AsyncDoubleBufferGroupOffloadHandler {
    var groups: int
    var windows: map<int, int>
    var current: int
    var count: nat
    var table: Table
    var buffers: map<Tag, Option<Tensor>>
    var released: int
    var backups: map<int, map<Key, seq<int>>>
    var log: seq<Op>

    ghost function State(): Handler
      reads this
    {
      Handler(groups, windows, current, count, table, buffers, released, backups, log)
    }

    ghost predicate Valid()
      reads this
    {
      table.Valid()
    }

    constructor (numOffloadGroup: int, numModelGroup: int)
      ensures State() == Initial(numOffloadGroup, numModelGroup) && Valid()
    {
      groups, current, count, released := numOffloadGroup, 0, 0, 0;
      table, buffers, backups, log := Table([], map[]), map[], map[], [];
      windows := map[];
      new;
      windows := BuildWindowMap(numOffloadGroup, numModelGroup);
    }

    /** A method that raises reports `Raised` and promises nothing about the fields it leaves behind. */
    method TensorPush(t: Tensor, eligible: bool) returns (r: Result<Handle>)
      requires Valid()
      modifies this
      ensures match Push(old(State()), t, eligible)
        case Ok(p) => Valid() && State() == p.0 && r == Ok(p.1)
        case Raised => r.Raised?
    {
      if !eligible {
        return Ok(Untouched(t));
      }
      var tag := Tag(current, count);
      count := count + 1;
      if tag in table.at {
        return Raised;
      }
      table := table.Add(tag, OnDevice(t));
      log := log + [Produce(current)];
      if current < groups {
        buffers := buffers[tag := Some(t)];
      }
      return Ok(Tagged(tag));
    }

    method TensorPop(handle: Handle) returns (r: Result<Tensor>)
      requires Valid()
      modifies this
      ensures match Pop(old(State()), handle)
        case Ok(p) => Valid() && State() == p.0 && r == Ok(p.1)
        case Raised => r.Raised?
    {
      match handle {
        case Untouched(t) => return Ok(t);
        case Tagged(tag) =>
          if tag !in table.at {
            return Raised;
          }
          var slot := table.at[tag];
          DropKeepsValid(table, tag);
          table := table.Drop(tag);
          buffers := buffers - {tag};
          if slot.OnHost? {
            return Raised;
          }
          log := log + [Consume(tag.group)];
          return Ok(slot.tensor);
      }
    }

    /** The first loop of the bulk offload: replace the group's tensors by keys, keeping one tensor for each key. */
    method EvictGroup(group: int) returns (r: Result<map<Key, Tensor>>)
      requires Valid()
      modifies this`table
      ensures r.Ok? <==> GroupOnDevice(old(table).at, group)
      ensures r.Ok? ==> table == old(table).(at := Evict(old(table).at, group))
      ensures r.Ok? ==> r.value == Distinct(old(table).order, old(table).at, group, |old(table).order|)
    {
      hide Evict, GroupOnDevice, Meet, Resident, Park, InGroup;
      var found: map<Key, Tensor> := map[];
      var order, at := table.order, table.at;
      for i := 0 to |order|
        invariant table.order == order && table.at.Keys == at.Keys
        invariant forall j :: i <= j < |order| ==> table.at[order[j]] == at[order[j]]
        invariant forall j :: 0 <= j < i ==>
          if InGroup(order[j], group)
          then at[order[j]].OnDevice? && table.at[order[j]] == Park(at[order[j]])
          else table.at[order[j]] == at[order[j]]
        invariant found == Distinct(order, at, group, i)
      {
        var tag := order[i];
        var slot := table.at[tag];
        found := Meet(found, tag, at, group);
        if InGroup(tag, group) {
          if slot.OnHost? {
            NotOnDevice(at, group, tag);
            return Raised;
          }
          table := table.(at := table.at[tag := Park(slot)]);
        }
      }
      EvictedAll(order, at, table.at, group);
      return Ok(found);
    }

    method BulkOffloadGroup(group: int) returns (r: Result<()>)
      requires Valid()
      modifies this
      ensures match BulkOffload(old(State()), group)
        case Ok(s) => Valid() && State() == s && r.Ok?
        case Raised => r.Raised?
    {
      var found := EvictGroup(group);
      if found.Raised? {
        return Raised;
      }
      log := log + [CopyOut(group)];
      backups := backups[group := Contents(found.value)];
      return Ok(());
    }

    method ReleaseBuffers(group: int)
      requires Valid()
      modifies this`buffers
      ensures buffers == ReleaseGroup(old(buffers), group)
    {
      var todo := buffers.Keys;
      while todo != {}
        invariant todo <= buffers.Keys == old(buffers).Keys
        invariant forall tag :: tag in todo ==> buffers[tag] == old(buffers)[tag]
        invariant forall tag :: tag in buffers && tag !in todo ==> buffers[tag] == ReleaseGroup(old(buffers), group)[tag]
        decreases todo
      {
        var tag :| tag in todo;
        todo := todo - {tag};
        if InGroup(tag, group) {
          buffers := buffers[tag := None];
        }
      }
    }

    method HandOver() returns (r: Result<()>)
      requires Valid()
      modifies this
      ensures match CloseWindow(old(State()))
        case Ok(s) => Valid() && State() == s && r.Ok?
        case Raised => r.Raised?
    {
      log := log + [Wait(DeviceToHost, Compute)];
      log := log + [Wait(Compute, DeviceToHost)];
      log := log + [Release(released)];
      ReleaseBuffers(released);
      if released < groups - 1 {
        r := BulkOffloadGroup(released + 1);
        if r.Raised? { return; }
      }
      released := released + 1;
      return Ok(());
    }

    method SynchronizeOnGroupCommitForward(group: int) returns (r: Result<()>)
      requires Valid()
      modifies this
      ensures match SynchronizeForward(old(State()), group)
        case Ok(s) => Valid() && State() == s && r.Ok?
        case Raised => r.Raised?
    {
      if group == 0 {
        log := log + [Wait(DeviceToHost, Compute)];
        r := BulkOffloadGroup(group);
        if r.Raised? { return; }
      }
      if released !in windows {
        return Raised;
      }
      if windows[released] == group {
        r := HandOver();
        return;
      }
      return Ok(());
    }

    method OnGroupCommitForward() returns (r: Result<()>)
      requires Valid()
      modifies this
      ensures match CommitForward(old(State()))
        case Ok(s) => Valid() && State() == s && r.Ok?
        case Raised => r.Raised?
    {
      r := SynchronizeOnGroupCommitForward(current);
      if r.Raised? { return; }
      current := current + 1;
      count := 0;
    }

    /** The second loop of the bulk reload: rebuild the group's tensors from the reloaded copies. */
    method RestoreGroup(group: int, copies: map<Key, seq<int>>) returns (r: Result<()>)
      requires Valid()
      modifies this`table
      ensures r.Ok? <==> GroupRebuildable(old(table).at, group, copies)
      ensures r.Ok? ==> table == old(table).(at := Restore(old(table).at, group, copies))
    {
      var order, at := table.order, table.at;
      for i := 0 to |order|
        invariant table.order == order && table.at.Keys == at.Keys
        invariant forall j :: i <= j < |order| ==> table.at[order[j]] == at[order[j]]
        invariant forall j :: 0 <= j < i ==>
          if InGroup(order[j], group)
          then Rebuildable(at[order[j]], copies) && table.at[order[j]] == Rebuild(at[order[j]], copies)
          else table.at[order[j]] == at[order[j]]
      {
        var tag := order[i];
        var slot := table.at[tag];
        if InGroup(tag, group) && slot.OnHost? {
          if slot.key !in copies || |copies[slot.key]| != Numel(slot.shape) {
            return Raised;
          }
          table := table.(at := table.at[tag := OnDevice(Tensor(slot.key, slot.shape, copies[slot.key]))]);
        }
      }
      assert table.at == Restore(at, group, copies);
      return Ok(());
    }

    method BulkReloadGroup(group: int) returns (r: Result<()>)
      requires Valid()
      modifies this
      ensures match BulkReload(old(State()), group)
        case Ok(s) => Valid() && State() == s && r.Ok?
        case Raised => r.Raised?
    {
      if group >= groups || group !in backups {
        return Raised;
      }
      var copies := backups[group];
      backups := backups - {group};
      log := log + [CopyIn(group)];
      r := RestoreGroup(group, copies);
    }

    method OnGroupCommitBackward() returns (r: Result<()>)
      requires Valid()
      modifies this
      ensures match CommitBackward(old(State()))
        case Ok(s) => Valid() && State() == s && r.Ok?
        case Raised => r.Raised?
    {
      current := current - 1;
      if current < 0 || released - 1 !in windows {
        return Raised;
      }
      if windows[released - 1] == current {
        log := log + [Wait(HostToDevice, Compute)];
        log := log + [Wait(Compute, HostToDevice)];
        r := BulkReloadGroup(released - 1);
        if r.Raised? { return; }
        released := released - (if released > 1 then 1 else 0);
      }
      if current == 0 {
        log := log + [Wait(Compute, HostToDevice)];
        released := 0;
      }
      return Ok(());
    }
  }
}
