/** The wrapped decoder forward: inputs are sliced once on the way down, however the calls nest. */
module InitialSlice {

  /**
   A call to the wrapped forward: the calls to it that the original forward would make, whether it catches their
   exceptions, and whether it raises one of its own at the end.
   */
  datatype Call = Call(hasEmbeds: bool, inner: seq<Call>, catches: bool, raises: bool)

  /** What happened: which of the calls were made, which sliced their inputs, and which ended with an exception. */
  datatype Trace = Trace(sliced: bool, inner: seq<Trace>, raised: bool)

  function Traced(call: Call, armed: bool): Trace
    decreases call, 0
  {
    var sliced := armed && call.hasEmbeds;
    var inner := Made(call.inner, armed && !sliced, call.catches, |call.inner|);
    Trace(sliced, inner, Stopped(inner, call.catches) || call.raises)
  }

  /** An exception that is not caught ends the list of inner calls. */
  predicate Stopped(inner: seq<Trace>, catches: bool) {
    inner != [] && inner[|inner| - 1].raised && !catches
  }

  /** The calls made, of the first n. */
  function Made(calls: seq<Call>, armed: bool, catches: bool, n: nat): (r: seq<Trace>)
    requires n <= |calls|
    ensures |r| <= n
    decreases calls, n
  {
    if n == 0 then []
    else
      var prior := Made(calls, armed, catches, n - 1);
      if Stopped(prior, catches) then prior else prior + [Traced(calls[n - 1], armed)]
  }

  lemma NoneMade(calls: seq<Call>, armed: bool, catches: bool)
    ensures Made(calls, armed, catches, 0) == [] && !Stopped([], catches)
  {
  }

  lemma {:induction false} MadeAt(calls: seq<Call>, armed: bool, catches: bool, n: nat, i: nat)
    requires n <= |calls| && i < |Made(calls, armed, catches, n)|
    ensures Made(calls, armed, catches, n)[i] == Traced(calls[i], armed)
  {
    hide Traced, Stopped;
    if i < |Made(calls, armed, catches, n - 1)| {
      MadeAt(calls, armed, catches, n - 1, i);
    } else {
      MadeWhole(calls, armed, catches, n - 1);
    }
  }

  /** Only an exception keeps the list shorter than the calls there are to make. */
  lemma {:induction false} MadeWhole(calls: seq<Call>, armed: bool, catches: bool, n: nat)
    requires n <= |calls|
    ensures var inner := Made(calls, armed, catches, n);
      |inner| == n || Stopped(inner, catches)
  {
    hide Traced, Stopped;
    if n > 0 {
      MadeWhole(calls, armed, catches, n - 1);
    }
  }

  lemma MadeNext(calls: seq<Call>, armed: bool, catches: bool, n: nat)
    requires n < |calls|
    ensures var inner, t := Made(calls, armed, catches, n), Traced(calls[n], armed);
      Made(calls, armed, catches, n + 1) == (if Stopped(inner, catches) then inner else inner + [t]) &&
      (Stopped(inner + [t], catches) <==> t.raised && !catches)
  {
    hide Traced;
  }

  class Decoder {
    const worldSize: nat
    var needsInitialSlice: bool

    constructor (worldSize: nat)
      ensures this.worldSize == worldSize && needsInitialSlice
    {
      this.worldSize := worldSize;
      needsInitialSlice := true;
    }

    /**
     `ulysses_wrapped_decoder_forward`: the flag is down only while the call that slices is running, and it is up
     again even if that call ends with an exception.
     */
    method Forward(call: Call) returns (t: Trace)
      modifies this
      ensures needsInitialSlice == old(needsInitialSlice)
      ensures t == Traced(call, worldSize > 1 && old(needsInitialSlice))
      decreases call
    {
      hide Made, Stopped;
      ghost var armed := worldSize > 1 && needsInitialSlice && !call.hasEmbeds;
      var sliceNow := call.hasEmbeds && worldSize > 1 && needsInitialSlice;
      if sliceNow {
        needsInitialSlice := false;
      }
      var inner, stopped := [], false;
      NoneMade(call.inner, armed, call.catches);
      for i := 0 to |call.inner|
        invariant needsInitialSlice == (old(needsInitialSlice) && !sliceNow) && (worldSize > 1 && needsInitialSlice) == armed
        invariant inner == Made(call.inner, armed, call.catches, i)
        invariant stopped == Stopped(inner, call.catches)
      {
        MadeNext(call.inner, armed, call.catches, i);
        if !stopped {
          var t' := Forward(call.inner[i]);
          inner := inner + [t'];
          stopped := t'.raised && !call.catches;
        }
      }
      if sliceNow {
        needsInitialSlice := true;
      }
      t := Trace(sliceNow, inner, stopped || call.raises);
    }
  }

  // ---------- Paths from an outermost call inwards ----------

  /** A path of calls that were made. */
  ghost predicate IsPath(t: Trace, path: seq<nat>) {
    path == [] || (path[0] < |t.inner| && IsPath(t.inner[path[0]], path[1..]))
  }

  ghost predicate EmbedsOn(call: Call, path: seq<nat>) {
    call.hasEmbeds || (path != [] && path[0] < |call.inner| && EmbedsOn(call.inner[path[0]], path[1..]))
  }

  ghost function SlicedOn(t: Trace, path: seq<nat>): nat
    requires IsPath(t, path)
  {
    (if t.sliced then 1 else 0) + (if path != [] then SlicedOn(t.inner[path[0]], path[1..]) else 0)
  }

  /** On a path of nested calls the inputs are sliced once if any of the calls has embeddings, and never otherwise. */
  lemma {:induction false} SlicedOnceOnPath(call: Call, armed: bool, path: seq<nat>)
    requires IsPath(Traced(call, armed), path)
    ensures SlicedOn(Traced(call, armed), path) == if armed && EmbedsOn(call, path) then 1 else 0
    decreases path
  {
    if path != [] {
      var rest := armed && !call.hasEmbeds;
      MadeAt(call.inner, rest, call.catches, |call.inner|, path[0]);
      SlicedOnceOnPath(call.inner[path[0]], rest, path[1..]);
    }
  }
}
