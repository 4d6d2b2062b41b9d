/** Parameters packed into one buffer per element type, and the in-place copy that fills the buffers. */
module MemoryBuffers {
  import opened Wrappers
  import opened Arithmetic

  /** An element type and its width; the floating-point types have at most 128 bits. */
  type DType = d: (nat, nat) | 0 < d.1 <= 128 witness (0, 32)

  /** What is known of a parameter before it is placed; parameters come in the order of their sorted names. */
  datatype Meta = Meta(dtype: DType, numel: nat)

  // ---------- Layout ----------

  /** `calc_padded_numel` */
  function PaddedNumel(m: Meta): (r: nat)
    ensures r >= m.numel
  {
    AlignPositive(m.dtype.1);
    var align := 128 / m.dtype.1;
    RoundsUp(m.numel, align);
    (m.numel + align - 1) / align * align
  }

  lemma AlignPositive(bits: nat)
    requires 0 < bits <= 128
    ensures 128 / bits > 0
  {
    assert 128 == 128 / bits * bits + 128 % bits;
  }

  lemma RoundsUp(size: nat, align: nat)
    requires align > 0
    ensures (size + align - 1) / align * align >= size
  {
    assert size + align - 1 == (size + align - 1) / align * align + (size + align - 1) % align;
  }

  /** How much of the buffer of a type the first n parameters take: also where the next one of that type starts. */
  function Taken(metas: seq<Meta>, dtype: DType, n: nat): nat
    requires n <= |metas|
  {
    if n == 0 then 0
    else Taken(metas, dtype, n - 1) + (if metas[n - 1].dtype == dtype then PaddedNumel(metas[n - 1]) else 0)
  }

  function Start(metas: seq<Meta>, i: nat): nat
    requires i < |metas|
  {
    Taken(metas, metas[i].dtype, i)
  }

  lemma {:induction false} TakenGrows(metas: seq<Meta>, dtype: DType, i: nat, n: nat)
    requires i <= n <= |metas|
    ensures Taken(metas, dtype, i) <= Taken(metas, dtype, n)
    ensures i < n && metas[i].dtype == dtype ==>
      Taken(metas, dtype, i) + PaddedNumel(metas[i]) <= Taken(metas, dtype, n)
    decreases n
  {
    hide PaddedNumel;
    if i < n {
      TakenGrows(metas, dtype, i, n - 1);
    }
  }

  /** Regions of one type do not overlap, and all of them lie within the buffer. */
  lemma RegionsAreDisjoint(metas: seq<Meta>, i: nat, j: nat)
    requires i < j < |metas| && metas[i].dtype == metas[j].dtype
    ensures Start(metas, i) + metas[i].numel <= Start(metas, j)
    ensures Start(metas, j) + metas[j].numel <= Taken(metas, metas[j].dtype, |metas|)
  {
    TakenGrows(metas, metas[i].dtype, i, j);
    TakenGrows(metas, metas[j].dtype, j, |metas|);
  }

  lemma {:induction false} TakenStays(metas: seq<Meta>, dtype: DType, i: nat, j: nat)
    requires i <= j <= |metas| && forall x :: i <= x < j ==> metas[x].dtype != dtype
    ensures Taken(metas, dtype, i) == Taken(metas, dtype, j)
    decreases j
  {
    hide PaddedNumel;
    if i < j {
      TakenStays(metas, dtype, i, j - 1);
    }
  }

  /** The first region of a type starts at zero, and behind each is less room than the alignment before the next or the end. */
  lemma RegionsAreTight(metas: seq<Meta>, i: nat, j: nat)
    requires i < j <= |metas| && forall x :: i < x < j ==> metas[x].dtype != metas[i].dtype
    ensures (forall x :: 0 <= x < i ==> metas[x].dtype != metas[i].dtype) ==> Start(metas, i) == 0
    ensures var next := if j < |metas| && metas[j].dtype == metas[i].dtype then Start(metas, j) else Taken(metas, metas[i].dtype, j);
      0 <= next - (Start(metas, i) + metas[i].numel) < 128 / metas[i].dtype.1
  {
    TakenStays(metas, metas[i].dtype, i + 1, j);
    if forall x :: 0 <= x < i ==> metas[x].dtype != metas[i].dtype {
      TakenStays(metas, metas[i].dtype, 0, i);
    }
    PaddedBelow(metas[i]);
  }

  lemma PaddedBelow(m: Meta)
    ensures 128 / m.dtype.1 > 0 && PaddedNumel(m) < m.numel + 128 / m.dtype.1
  {
    AlignPositive(m.dtype.1);
    var align := 128 / m.dtype.1;
    assert m.numel + align - 1 == (m.numel + align - 1) / align * align + (m.numel + align - 1) % align;
  }

  /** The padded size is the least multiple of the alignment that is not below the size. */
  lemma PaddedIsLeast(m: Meta, blocks: nat)
    ensures var align := 128 / m.dtype.1;
      align > 0 && PaddedNumel(m) % align == 0 && m.numel <= PaddedNumel(m) &&
      (m.numel <= blocks * align ==> PaddedNumel(m) <= blocks * align)
  {
    AlignPositive(m.dtype.1);
    var align := 128 / m.dtype.1;
    var most := PaddedIsAligned(m);
    MultipleHasNoRemainder(most, align);
    if m.numel <= blocks * align {
      LeastMultiple(m.numel, align, most, blocks);
      MulMonotone(most, blocks, align);
    }
  }

  lemma LeastMultiple(n: nat, align: nat, most: nat, blocks: nat)
    requires align > 0 && most == (n + align - 1) / align && n <= blocks * align
    ensures most <= blocks
  {
    assert n + align - 1 == most * align + (n + align - 1) % align;
    Distribute(blocks, 1, align);
    MulCancel(most, blocks + 1, align);
  }

  lemma PaddedIsAligned(m: Meta) returns (blocks: nat)
    ensures 128 / m.dtype.1 > 0 && blocks == (m.numel + 128 / m.dtype.1 - 1) / (128 / m.dtype.1)
    ensures PaddedNumel(m) == blocks * (128 / m.dtype.1)
  {
    AlignPositive(m.dtype.1);
    blocks := (m.numel + 128 / m.dtype.1 - 1) / (128 / m.dtype.1);
  }

  lemma Distribute(a: nat, b: nat, k: nat)
    ensures a * k + b * k == (a + b) * k
  {
  }

  lemma {:induction false} TakenIsAligned(metas: seq<Meta>, dtype: DType, n: nat) returns (blocks: nat)
    requires n <= |metas|
    ensures Taken(metas, dtype, n) == blocks * (128 / dtype.1)
  {
    hide PaddedNumel;
    if n == 0 {
      blocks := 0;
    } else {
      blocks := TakenIsAligned(metas, dtype, n - 1);
      if metas[n - 1].dtype == dtype {
        var more := PaddedIsAligned(metas[n - 1]);
        Distribute(blocks, more, 128 / dtype.1);
        blocks := blocks + more;
      }
    }
  }

  /** If the element width divides 128, every region starts on a 128-bit boundary. */
  lemma RegionsAreAligned(metas: seq<Meta>, i: nat)
    requires i < |metas| && 128 % metas[i].dtype.1 == 0
    ensures Start(metas, i) * metas[i].dtype.1 % 128 == 0
  {
    var bits := metas[i].dtype.1;
    var blocks := TakenIsAligned(metas, metas[i].dtype, i);
    assert 128 == 128 / bits * bits;
    MulAssociative(blocks, 128 / bits, bits);
    MultipleHasNoRemainder(blocks, 128);
  }

  ghost predicate AlwaysAligned(dtype: DType) {
    forall metas: seq<Meta>, i: nat :: i < |metas| && metas[i].dtype == dtype ==> Start(metas, i) * dtype.1 % 128 == 0
  }

  lemma SecondStart(dtype: DType)
    ensures Start([Meta(dtype, 1), Meta(dtype, 1)], 1) == 128 / dtype.1
  {
    var metas := [Meta(dtype, 1), Meta(dtype, 1)];
    var align := 128 / dtype.1;
    AlignPositive(dtype.1);
    MultipleHasNoRemainder(1, align);
    assert PaddedNumel(metas[0]) == align;
    assert Taken(metas, dtype, 0) == 0;
    assert Taken(metas, dtype, 1) == align;
  }

  /** All regions of a type start on 128-bit boundaries, whatever the parameters, exactly if its width divides 128. */
  lemma AlignedIff(dtype: DType)
    ensures AlwaysAligned(dtype) <==> 128 % dtype.1 == 0
  {
    hide Start;
    if 128 % dtype.1 == 0 {
      forall metas: seq<Meta>, i: nat | i < |metas| && metas[i].dtype == dtype
        ensures Start(metas, i) * dtype.1 % 128 == 0
      {
        RegionsAreAligned(metas, i);
      }
    }
    if AlwaysAligned(dtype) {
      var metas := [Meta(dtype, 1), Meta(dtype, 1)];
      assert Start(metas, 1) * dtype.1 % 128 == 0;
      SecondStart(dtype);
      AlignPositive(dtype.1);
      WholeWidth(128 / dtype.1, dtype.1);
    }
  }

  lemma WholeWidth(align: nat, bits: nat)
    requires 0 < bits <= 128 && align == 128 / bits > 0 && align * bits % 128 == 0
    ensures 128 % bits == 0
  {
    assert 128 == align * bits + 128 % bits;
    MulMonotone(1, align, bits);
  }

  // ---------- Tensors and buffers ----------

  /** A parameter's tensor: its own at first, later a view of a buffer. */
  datatype Tensor<T> = Own(values: seq<T>) | View(storage: array<T>, start: nat, size: nat) {
    predicate InBounds() { View? ==> start + size <= storage.Length }

    function Numel(): nat { if Own? then |values| else size }

    function Values(): seq<T>
      requires InBounds()
      reads if View? then {storage} else {}
    {
      if Own? then values else storage[start..start + size]
    }
  }

  class MemoryBuffer<T> {
    const numel: nat
    const data: array<T>

    constructor (numel: nat, zero: T)
      ensures this.numel == numel == data.Length && fresh(data)
      ensures forall k :: 0 <= k < numel ==> data[k] == zero
    {
      this.numel := numel;
      data := new T[numel](_ => zero);
    }

    method Get(size: nat, start: nat) returns (r: Result<Tensor<T>>)
      ensures r == if start + size <= numel then Ok(View(data, start, size)) else Raised
    {
      if start + size <= numel {
        r := Ok(View(data, start, size));
      } else {
        r := Raised;
      }
    }
  }

  ghost predicate Apart<T>(buffers: map<DType, MemoryBuffer<T>>) {
    (forall d :: d in buffers ==> buffers[d].numel == buffers[d].data.Length) &&
    forall a, b :: a in buffers && b in buffers && a != b ==> buffers[a].data != buffers[b].data
  }

  method TotalNumel(metas: seq<Meta>) returns (totals: map<DType, nat>)
    ensures forall d :: d in totals <==> exists i :: 0 <= i < |metas| && metas[i].dtype == d
    ensures forall d :: d in totals ==> totals[d] == Taken(metas, d, |metas|)
  {
    hide PaddedNumel;
    totals := map[];
    for i := 0 to |metas|
      invariant forall d :: d in totals <==> exists j :: 0 <= j < i && metas[j].dtype == d
      invariant forall d: DType :: (if d in totals then totals[d] else 0) == Taken(metas, d, i)
    {
      var m := metas[i];
      if m.dtype !in totals {
        totals := totals[m.dtype := 0];
      }
      totals := totals[m.dtype := totals[m.dtype] + PaddedNumel(m)];
    }
  }

  /** `build_memory_buffer` */
  method BuildMemoryBuffer<T>(metas: seq<Meta>, zero: T) returns (buffers: map<DType, MemoryBuffer<T>>)
    ensures Apart(buffers)
    ensures forall d :: d in buffers <==> exists i :: 0 <= i < |metas| && metas[i].dtype == d
    ensures forall d :: d in buffers ==> buffers[d].numel == Taken(metas, d, |metas|)
    ensures forall d :: d in buffers ==> fresh(buffers[d].data)
    ensures forall d, k :: d in buffers && 0 <= k < buffers[d].numel ==> buffers[d].data[k] == zero
  {
    var totals := TotalNumel(metas);
    buffers := map[];
    var left := totals.Keys;
    while left != {}
      invariant left <= totals.Keys && buffers.Keys == totals.Keys - left
      invariant Apart(buffers)
      invariant forall d :: d in buffers ==> buffers[d].numel == totals[d] && fresh(buffers[d].data)
      invariant forall d, k :: d in buffers && 0 <= k < buffers[d].numel ==> buffers[d].data[k] == zero
      decreases left
    {
      var d :| d in left;
      var buffer := new MemoryBuffer(totals[d], zero);
      buffers := buffers[d := buffer];
      left := left - {d};
    }
  }

  // ---------- Filling the buffers ----------

  class Parameter<T> {
    const dtype: DType
    var data: Tensor<T>

    constructor (dtype: DType, data: Tensor<T>)
      ensures this.dtype == dtype && this.data == data
    {
      this.dtype := dtype;
      this.data := data;
    }
  }

  /** Distinct parameters, and the type and size of each. */
  ghost predicate Describes<T>(metas: seq<Meta>, params: seq<Parameter<T>>)
    reads params
  {
    |metas| == |params| &&
    (forall i, j :: 0 <= i < j < |params| ==> params[i] != params[j]) &&
    forall i :: 0 <= i < |params| ==> metas[i] == Meta(params[i].dtype, params[i].data.Numel())
  }

  /** From parameter n on, each has its own tensor with the given contents. */
  ghost predicate Waiting<T>(params: seq<Parameter<T>>, contents: seq<seq<T>>, n: nat)
    requires |contents| == |params|
    reads params
  {
    forall i :: n <= i < |params| ==> params[i].data == Own(contents[i])
  }

  /** Every parameter's region is there: what `build_memory_reference_from_module` checks on its way. */
  ghost predicate HasRoom<T>(metas: seq<Meta>, buffers: map<DType, MemoryBuffer<T>>, n: nat)
    requires n <= |metas|
  {
    forall i :: 0 <= i < n ==>
      metas[i].dtype in buffers && Start(metas, i) + metas[i].numel <= buffers[metas[i].dtype].numel
  }

  /** The buffers built for some parameters have room for all of them. */
  lemma BuiltBuffersHaveRoom<T>(metas: seq<Meta>, buffers: map<DType, MemoryBuffer<T>>)
    requires forall d :: d in buffers <==> exists i :: 0 <= i < |metas| && metas[i].dtype == d
    requires forall d :: d in buffers ==> buffers[d].numel == Taken(metas, d, |metas|)
    ensures HasRoom(metas, buffers, |metas|)
  {
    hide PaddedNumel;
    forall i | 0 <= i < |metas|
      ensures metas[i].dtype in buffers && Start(metas, i) + metas[i].numel <= buffers[metas[i].dtype].numel
    {
      TakenGrows(metas, metas[i].dtype, i, |metas|);
    }
  }

  /** `buffer.copy_(param.data)` */
  method CopyInto<T>(storage: array<T>, start: nat, values: seq<T>)
    requires start + |values| <= storage.Length
    modifies storage
    ensures storage[..] == old(storage[..start]) + values + old(storage[start + |values|..])
  {
    for i := 0 to |values|
      invariant storage[..start] == old(storage[..start]) && storage[start..start + i] == values[..i]
      invariant storage[start + i..] == old(storage[start + i..])
    {
      storage[start + i] := values[i];
      assert storage[start..start + i + 1] == storage[start..start + i] + [values[i]];
      assert storage[start + i + 1..] == storage[start + i..][1..];
    }
  }

  /** Parameter i is the view of its own region and, if asked for, reads as before. */
  ghost predicate PlacedAt<T>(param: Parameter<T>, view: Tensor<T>, values: seq<T>, maintainWeight: bool)
    reads param, if param.data.View? then {param.data.storage} else {}
  {
    param.data == view && view.InBounds() && (maintainWeight ==> view.Values() == values)
  }

  ghost function RegionView<T>(metas: seq<Meta>, buffers: map<DType, MemoryBuffer<T>>, i: nat): (r: Tensor<T>)
    requires i < |metas| && metas[i].dtype in buffers
    ensures r.View? && r.size == metas[i].numel
  {
    View(buffers[metas[i].dtype].data, Start(metas, i), metas[i].numel)
  }

  /** The parameters before n are in their regions. */
  ghost predicate Placed<T>(
      metas: seq<Meta>, params: seq<Parameter<T>>, buffers: map<DType, MemoryBuffer<T>>, contents: seq<seq<T>>,
      maintainWeight: bool, n: nat)
    requires n <= |params| == |metas| == |contents|
    reads params, set p | p in params && p.data.View? :: p.data.storage
  {
    HasRoom(metas, buffers, n) &&
    forall i :: 0 <= i < n ==> PlacedAt(params[i], RegionView(metas, buffers, i), contents[i], maintainWeight)
  }

  lemma SliceUnmoved<T>(before: seq<T>, after: seq<T>, start: nat, size: nat, end: nat)
    requires start + size <= end <= |before| && end <= |after| && before[..end] == after[..end]
    ensures before[start..start + size] == after[start..start + size]
  {
    assert before[start..start + size] == before[..end][start..start + size];
    assert after[start..start + size] == after[..end][start..start + size];
  }

  lemma RegionsApart<T>(metas: seq<Meta>, buffers: map<DType, MemoryBuffer<T>>, j: nat, i: nat)
    requires j < i < |metas| && Apart(buffers) && HasRoom(metas, buffers, i + 1)
    ensures var a, b := RegionView(metas, buffers, j), RegionView(metas, buffers, i);
      a.storage == b.storage ==> a.start + a.size <= b.start
  {
    hide PaddedNumel, Taken;
    if metas[j].dtype == metas[i].dtype {
      RegionsAreDisjoint(metas, j, i);
    }
  }

  /** One parameter moves into its region. */
  method Place<T>(
      params: seq<Parameter<T>>, buffers: map<DType, MemoryBuffer<T>>, view: Tensor<T>, maintainWeight: bool, i: nat,
      ghost metas: seq<Meta>, ghost contents: seq<seq<T>>)
    requires i < |params| == |contents| && Describes(metas, params) && Apart(buffers)
    requires Placed(metas, params, buffers, contents, maintainWeight, i) && Waiting(params, contents, i)
    requires HasRoom(metas, buffers, i + 1)
    requires view == RegionView(metas, buffers, i)
    modifies params[i], view.storage
    ensures Describes(metas, params)
    ensures Placed(metas, params, buffers, contents, maintainWeight, i + 1) && Waiting(params, contents, i + 1)
    ensures !maintainWeight ==> view.storage[..] == old(view.storage[..])
  {
    hide PaddedNumel, Taken, RegionView, Apart, Start;
    RegionFits(metas, buffers, i);
    Move(params[i], view, maintainWeight);
    forall j | 0 <= j < i ensures PlacedAt(params[j], RegionView(metas, buffers, j), contents[j], maintainWeight) {
      RegionsApart(metas, buffers, j, i);
      var region := RegionView(metas, buffers, j);
      if region.storage == view.storage {
        assert old(view.storage[..])[..view.start] == old(view.storage[..view.start]);
        assert view.storage[..][..view.start] == view.storage[..view.start];
        SliceUnmoved(old(view.storage[..]), view.storage[..], region.start, region.size, view.start);
      }
    }
  }

  lemma RegionFits<T>(metas: seq<Meta>, buffers: map<DType, MemoryBuffer<T>>, i: nat)
    requires i < |metas| && Apart(buffers) && HasRoom(metas, buffers, i + 1)
    ensures RegionView(metas, buffers, i).InBounds()
  {
  }

  method Move<T>(param: Parameter<T>, view: Tensor<T>, maintainWeight: bool)
    requires param.data.Own? && view.View? && view.InBounds() && |param.data.values| == view.size
    modifies param, view.storage
    ensures PlacedAt(param, view, old(param.data.values), maintainWeight)
    ensures view.storage[..view.start] == old(view.storage[..view.start])
    ensures !maintainWeight ==> view.storage[..] == old(view.storage[..])
  {
    if maintainWeight {
      CopyInto(view.storage, view.start, param.data.values);
    }
    param.data := view;
  }

  /**
   * `build_memory_reference_from_module`: it succeeds exactly when every region is there; then every parameter is a
   * view of its own region and, with maintain_weight, still reads as it did before.
   */
  method BuildMemoryReferenceFromModule<T>(
      params: seq<Parameter<T>>, buffers: map<DType, MemoryBuffer<T>>, maintainWeight: bool,
      ghost metas: seq<Meta>, ghost contents: seq<seq<T>>)
    returns (done: bool)
    requires |contents| == |params| && Describes(metas, params)
    requires Apart(buffers) && Waiting(params, contents, 0)
    modifies params, set d | d in buffers :: buffers[d].data
    ensures done <==> HasRoom(metas, buffers, |metas|)
    ensures done ==> Placed(metas, params, buffers, contents, maintainWeight, |params|)
    ensures !maintainWeight ==> forall d :: d in buffers ==> buffers[d].data[..] == old(buffers[d].data[..])
  {
    hide PaddedNumel, Taken, Placed, PlacedAt, Waiting, Apart, Tensor.InBounds, Tensor.Values;
    var starts := map d | d in buffers :: 0;
    TakenNone(metas);
    PlacedNone(metas, params, buffers, contents, maintainWeight);
    for i := 0 to |params|
      invariant Describes(metas, params)
      invariant starts.Keys == buffers.Keys && forall d :: d in starts ==> starts[d] == Taken(metas, d, i)
      invariant HasRoom(metas, buffers, i)
      invariant Placed(metas, params, buffers, contents, maintainWeight, i) && Waiting(params, contents, i)
      invariant !maintainWeight ==> forall d :: d in buffers ==> buffers[d].data[..] == old(buffers[d].data[..])
    {
      var p := params[i];
      if p.dtype !in buffers {
        return false;
      }
      var view := buffers[p.dtype].Get(p.data.Numel(), starts[p.dtype]);
      if view.Raised? {
        return false;
      }
      TakenNext(metas, i);
      starts := starts[p.dtype := starts[p.dtype] + PaddedNumel(Meta(p.dtype, p.data.Numel()))];
      Place(params, buffers, view.value, maintainWeight, i, metas, contents);
    }
    return true;
  }

  lemma PlacedNone<T>(
      metas: seq<Meta>, params: seq<Parameter<T>>, buffers: map<DType, MemoryBuffer<T>>, contents: seq<seq<T>>,
      maintainWeight: bool)
    requires |params| == |metas| == |contents|
    ensures Placed(metas, params, buffers, contents, maintainWeight, 0)
  {
  }

  lemma TakenNone(metas: seq<Meta>)
    ensures forall d: DType :: Taken(metas, d, 0) == 0
  {
  }

  lemma TakenNext(metas: seq<Meta>, i: nat)
    requires i < |metas|
    ensures forall d: DType ::
      Taken(metas, d, i + 1) == Taken(metas, d, i) + (if d == metas[i].dtype then PaddedNumel(metas[i]) else 0)
  {
  }
}
