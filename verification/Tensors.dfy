/** Tensors as the offload handler sees them, and an insertion-ordered dictionary of saved tensors. */
module Tensors {

  /** Address of the first element and element type: all the handler uses to recognise a tensor. */
  datatype Key = Key(address: int, dtype: int)

  /** `data` lists the elements in row-major order, whatever the strides in memory are. */
  datatype Tensor = Tensor(key: Key, shape: seq<nat>, data: seq<int>)
  {
    /** True of every tensor there is. */
    predicate WellFormed() { |data| == Numel(shape) }
  }

  function Numel(shape: seq<nat>): nat {
    if shape == [] then 1 else shape[0] * Numel(shape[1..])
  }

  predicate SameValue(a: Tensor, b: Tensor) {
    a.shape == b.shape && a.data == b.data
  }

  datatype Tag = Tag(group: int, index: nat)

  /** A saved tensor is on the device, or replaced by the key and shape needed to rebuild it. */
  datatype Slot = OnDevice(tensor: Tensor) | OnHost(key: Key, shape: seq<nat>)

  datatype Table = Table(order: seq<Tag>, at: map<Tag, Slot>) {
    ghost predicate Valid() {
      (forall tag :: tag in order <==> tag in at) &&
      NoRepeats(order)
    }

    function Add(tag: Tag, slot: Slot): Table {
      Table(order + [tag], at[tag := slot])
    }

    function Drop(tag: Tag): Table {
      Table(Without(order, tag), at - {tag})
    }
  }

  function Without(order: seq<Tag>, tag: Tag): (rest: seq<Tag>)
    ensures forall t :: t in rest <==> t in order && t != tag
  {
    if order == [] then []
    else if order[0] == tag then Without(order[1..], tag)
    else [order[0]] + Without(order[1..], tag)
  }

  ghost predicate NoRepeats(order: seq<Tag>) {
    forall i, j :: 0 <= i < j < |order| ==> order[i] != order[j]
  }

  lemma {:induction false} WithoutKeepsDistinct(order: seq<Tag>, tag: Tag)
    requires NoRepeats(order)
    ensures NoRepeats(Without(order, tag))
  {
    if order != [] {
      WithoutKeepsDistinct(order[1..], tag);
      var rest := Without(order[1..], tag);
      assert order[0] !in order[1..];
      assert forall j :: 0 <= j < |rest| ==> rest[j] in rest;
    }
  }

  lemma DropKeepsValid(table: Table, tag: Tag)
    requires table.Valid()
    ensures table.Drop(tag).Valid()
  {
    WithoutKeepsDistinct(table.order, tag);
  }

  /** Meeting one more tensor keeps an earlier one with the same key. */
  function Meet(found: map<Key, Tensor>, tag: Tag, at: map<Tag, Slot>, group: int): map<Key, Tensor> {
    if Resident(tag, at, group) && at[tag].tensor.key !in found
    then found[at[tag].tensor.key := at[tag].tensor]
    else found
  }

  predicate Resident(tag: Tag, at: map<Tag, Slot>, group: int) {
    tag.group == group && tag in at && at[tag].OnDevice?
  }

  /** The device tensors of one group among the first `n` entries, by key; the first tensor in dictionary order wins. */
  function Distinct(order: seq<Tag>, at: map<Tag, Slot>, group: int, n: nat): map<Key, Tensor>
    requires n <= |order|
  {
    if n == 0 then map[] else Meet(Distinct(order, at, group, n - 1), order[n - 1], at, group)
  }

  /** A device tensor of the group is found under its key, or an earlier one with the same key is. */
  lemma {:induction false} DistinctRepresents(order: seq<Tag>, at: map<Tag, Slot>, group: int, n: nat, i: nat)
    returns (first: nat)
    requires i < n <= |order|
    requires Resident(order[i], at, group)
    ensures first <= i && Resident(order[first], at, group)
    ensures at[order[first]].tensor.key == at[order[i]].tensor.key
    ensures var found, t := Distinct(order, at, group, n), at[order[first]].tensor;
      t.key in found && found[t.key] == t
  {
    if i < n - 1 {
      first := DistinctRepresents(order, at, group, n - 1, i);
    } else if at[order[i]].tensor.key in Distinct(order, at, group, n - 1) {
      var j := DistinctSound(order, at, group, n - 1, at[order[i]].tensor.key);
      first := DistinctRepresents(order, at, group, n - 1, j);
    } else {
      first := i;
    }
  }

  lemma {:induction false} DistinctSound(order: seq<Tag>, at: map<Tag, Slot>, group: int, n: nat, key: Key)
    returns (i: nat)
    requires n <= |order|
    requires key in Distinct(order, at, group, n)
    ensures i < n && Resident(order[i], at, group) && at[order[i]].tensor.key == key
  {
    if key in Distinct(order, at, group, n - 1) {
      i := DistinctSound(order, at, group, n - 1, key);
    } else {
      i := n - 1;
    }
  }

  function Contents(tensors: map<Key, Tensor>): map<Key, seq<int>> {
    map key | key in tensors :: tensors[key].data
  }
}
