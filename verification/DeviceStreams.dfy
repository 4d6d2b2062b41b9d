/** Device streams as one log of commands. */
module DeviceStreams {

  datatype Stream = Compute | DeviceToHost | HostToDevice

  /** The integer is the activation group a command works on. */
  datatype Op =
    | Wait(waiter: Stream, waited: Stream)
    | Produce(group: int)  // the forward pass writes a saved tensor
    | CopyOut(group: int)  // device-to-host copies of a group
    | Release(group: int)  // the buffers of a group go back to the allocator
    | CopyIn(group: int)   // host-to-device copies of a group
    | Consume(group: int)  // the backward pass reads a saved tensor

  function On(op: Op): Stream {
    match op
    case Wait(waiter, _) => waiter
    case CopyOut(_) => DeviceToHost
    case CopyIn(_) => HostToDevice
    case _ => Compute
  }

  function Max(a: nat, b: nat): nat {
    if a < b then b else a
  }

  /** Commands of `other` at log positions below the result finish before the next command of `viewer` starts. */
  function Seen(log: seq<Op>, viewer: Stream, other: Stream): (n: nat)
    ensures n <= |log|
  {
    if viewer == other then |log|
    else if log == [] then 0
    else
      var prior, last := log[..|log| - 1], log[|log| - 1];
      var before := Seen(prior, viewer, other);
      if last.Wait? && last.waiter == viewer then Max(before, Seen(prior, last.waited, other)) else before
  }

  /** The usual definition: same stream, or a chain of waits leads from the command to `viewer`. */
  ghost predicate HappensBefore(log: seq<Op>, i: nat, viewer: Stream)
    decreases |log|
  {
    i < |log| &&
    (On(log[i]) == viewer ||
     exists w :: i < w < |log| && WaitLeads(log, i, w, viewer))
  }

  ghost predicate WaitLeads(log: seq<Op>, i: nat, w: nat, viewer: Stream)
    requires i < w < |log|
    decreases |log|, 0
  {
    log[w].Wait? && log[w].waiter == viewer && HappensBefore(log[..w], i, log[w].waited)
  }

  lemma {:induction false} SeenIsHappensBefore(log: seq<Op>, i: nat, viewer: Stream)
    requires i < |log|
    ensures HappensBefore(log, i, viewer) <==> i < Seen(log, viewer, On(log[i]))
    decreases |log|
  {
    var k := |log| - 1;
    var prior := log[..k];
    if On(log[i]) != viewer && i < k {
      SeenIsHappensBefore(prior, i, viewer);
      forall w | i < w < k
        ensures WaitLeads(log, i, w, viewer) == WaitLeads(prior, i, w, viewer)
      {
        assert log[..w] == prior[..w];
      }
      if log[k].Wait? {
        SeenIsHappensBefore(prior, i, log[k].waited);
        assert WaitLeads(log, i, k, viewer) <==>
          (log[k].waiter == viewer && i < Seen(prior, log[k].waited, On(log[i])));
      }
      if HappensBefore(prior, i, viewer) {
        var w :| i < w < k && WaitLeads(prior, i, w, viewer);
        assert WaitLeads(log, i, w, viewer);
      }
    }
  }

  lemma SeenAppend(log: seq<Op>, op: Op, viewer: Stream, other: Stream)
    ensures Seen(log, viewer, other) <= Seen(log + [op], viewer, other)
    ensures op == Wait(viewer, other) ==> Seen(log, other, other) <= Seen(log + [op], viewer, other)
    ensures op.Wait? && op.waiter == viewer ==> Seen(log, op.waited, other) <= Seen(log + [op], viewer, other)
  {
    assert (log + [op])[..|log|] == log;
  }

  /** Every command of `other` that satisfies `what` is ordered before the next command of `viewer`. */
  ghost predicate AllSeen(log: seq<Op>, viewer: Stream, what: Op) {
    forall j :: 0 <= j < |log| && log[j] == what ==> j < Seen(log, viewer, On(what))
  }

  /** What must be ordered before a command is issued on its stream. */
  ghost predicate Ordered(log: seq<Op>, next: Op) {
    match next
    case CopyOut(g) => AllSeen(log, DeviceToHost, Produce(g))
    case Release(g) => AllSeen(log, Compute, CopyOut(g))
    case CopyIn(g) => AllSeen(log, HostToDevice, CopyOut(g))
    case Consume(g) => AllSeen(log, Compute, CopyIn(g))
    case _ => true
  }

  ghost predicate SafeLog(log: seq<Op>) {
    forall k :: 0 <= k < |log| ==> Ordered(log[..k], log[k])
  }

  lemma SafeAppend(log: seq<Op>, op: Op)
    requires SafeLog(log) && Ordered(log, op)
    ensures SafeLog(log + [op])
  {
    var more := log + [op];
    forall k | 0 <= k < |more|
      ensures Ordered(more[..k], more[k])
    {
      assert more[..k] == log[..k] && (k == |log| ==> log[..k] == log);
    }
  }

  /** Issuing a command orders nothing less than before; a new command of another kind adds no obligation. */
  lemma AllSeenAppend(log: seq<Op>, op: Op, viewer: Stream, what: Op)
    requires AllSeen(log, viewer, what) && op != what
    ensures AllSeen(log + [op], viewer, what)
  {
    SeenAppend(log, op, viewer, On(what));
  }

  lemma WaitSeesAll(log: seq<Op>, viewer: Stream, what: Op)
    requires !what.Wait?
    ensures AllSeen(log + [Wait(viewer, On(what))], viewer, what)
  {
    SeenAppend(log, Wait(viewer, On(what)), viewer, On(what));
  }

  /** A wait passes on what the other stream has already been ordered after. */
  lemma WaitInherits(log: seq<Op>, viewer: Stream, via: Stream, what: Op)
    requires !what.Wait? && AllSeen(log, via, what)
    ensures AllSeen(log + [Wait(viewer, via)], viewer, what)
  {
    SeenAppend(log, Wait(viewer, via), viewer, On(what));
  }

  /** Streams run on their own: without a wait between them, none of the four orders that matter holds. */
  lemma WaitsAreNeeded(g: int)
    ensures !SafeLog([Produce(g), CopyOut(g)]) && !SafeLog([CopyOut(g), Release(g)])
    ensures !SafeLog([CopyOut(g), CopyIn(g)]) && !SafeLog([CopyIn(g), Consume(g)])
  {
    forall first: Op, next: Op | (first, next) in
      {(Produce(g), CopyOut(g)), (CopyOut(g), Release(g)), (CopyOut(g), CopyIn(g)), (CopyIn(g), Consume(g))}
      ensures !SafeLog([first, next])
    {
      var log := [first, next];
      assert log[..1] == [first];
      assert Seen([first], On(next), On(first)) == 0;
      assert !Ordered(log[..1], log[1]);
    }
  }
}
