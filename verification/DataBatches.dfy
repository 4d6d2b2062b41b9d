/** Batches of named columns: padding to a divisor, chunking, concatenation, and futures of them. */
module DataBatches {
  import opened Wrappers
  import opened Sequences
  import opened Arithmetic
  import opened Chunks

  /** A column of the tensor batch or of the non-tensor batch. */
  datatype Key = Tensor(name: string) | NonTensor(name: string)

  type Columns<T> = map<Key, seq<T>>

  /** `DataProto`; size is its length. */
  datatype Data<T, M> = Data(hasBatch: bool, size: nat, columns: Columns<T>, meta: map<string, M>) {
    /** What `check_consistency` asks for, and that columns without a tensor batch have one length as well. */
    ghost predicate Valid() {
      (forall k :: k in columns ==> |columns[k]| == size) &&
      (!hasBatch ==> (forall k :: k in columns ==> k.NonTensor?) && (columns.Keys == {} ==> size == 0))
    }
  }

  // ---------- Slices ----------

  function Clip(i: int, n: nat): nat { if i < 0 then 0 else if i > n then n else i }

  /** `slice` for a start and an end that are not negative: an end beyond the last row is the last row. */
  function Slice<T, M>(d: Data<T, M>, start: nat, end: nat): (r: Data<T, M>)
    requires d.Valid()
    ensures r.Valid()
  {
    var a := Clip(start, d.size);
    var b := if end < start then a else Clip(end, d.size);
    assert (map k | k in d.columns :: d.columns[k][a..b]).Keys == d.columns.Keys;
    d.(size := b - a, columns := map k | k in d.columns :: d.columns[k][a..b])
  }

  /** `unpad_dataproto`: `data[:-pad_size]` */
  function Unpad<T, M>(d: Data<T, M>, padSize: nat): Data<T, M>
    requires d.Valid()
  {
    if padSize != 0 then Slice(d, 0, Clip(d.size - padSize, d.size)) else d
  }

  // ---------- Concatenation ----------

  ghost predicate SameColumns<T, M>(list: seq<Data<T, M>>) {
    forall i :: 0 <= i < |list| ==> list[i].hasBatch == list[0].hasBatch && list[i].columns.Keys == list[0].columns.Keys
  }

  function ColumnsAt<T, M>(list: seq<Data<T, M>>, k: Key): (r: seq<seq<T>>)
    requires forall i :: 0 <= i < |list| ==> k in list[i].columns
    ensures |r| == |list| && forall i :: 0 <= i < |list| ==> r[i] == list[i].columns[k]
  {
    seq(|list|, i requires 0 <= i < |list| => list[i].columns[k])
  }

  function TotalSize<T, M>(list: seq<Data<T, M>>): nat {
    if list == [] then 0 else TotalSize(list[..|list| - 1]) + list[|list| - 1].size
  }

  /** Entries are merged; the same key with two values is an error. */
  function MergeMeta<T, M(==)>(list: seq<Data<T, M>>): Result<map<string, M>> {
    if list == [] then Ok(map[])
    else
      var merged :- MergeMeta(list[..|list| - 1]);
      var meta := list[|list| - 1].meta;
      if exists k :: k in meta && k in merged && merged[k] != meta[k] then Raised else Ok(merged + meta)
  }

  /** `DataProto.concat` */
  ghost function Concat<T, M>(list: seq<Data<T, M>>): Result<Data<T, M>> {
    if list == [] || !SameColumns(list) then Raised
    else
      var meta :- MergeMeta(list);
      Ok(Data(list[0].hasBatch, TotalSize(list), map k | k in list[0].columns :: Flatten(ColumnsAt(list, k)), meta))
  }

  // ---------- Padding ----------

  /** The first m elements of s repeated for ever. */
  function Cycle<T>(s: seq<T>, m: nat): (r: seq<T>)
    requires m > 0 ==> s != []
    ensures |r| == m && forall i :: 0 <= i < m ==> r[i] == s[i % |s|]
  {
    seq(m, i requires 0 <= i < m => s[i % |s|])
  }

  lemma CycleOnce<T>(s: seq<T>)
    ensures Cycle(s, |s|) == s
  {
    forall i | 0 <= i < |s| ensures i % |s| == i {
      DivModUnique(i, |s|, 0, i);
    }
  }

  lemma WholeRounds(m: nat, n: nat, j: nat)
    requires n > 0 && m % n == 0
    ensures j < n ==> (m + j) % n == j
    ensures (m + n) % n == 0
  {
    var q := m / n;
    assert m == q * n;
    assert (q + 1) * n == m + n;
    DivModUnique(m + n, n, q + 1, 0);
    if j < n {
      DivModUnique(m + j, n, q, j);
    }
  }

  /** After whole rounds, the next elements are a prefix of s. */
  lemma CycleMore<T>(s: seq<T>, m: nat, more: nat)
    requires s != [] && m % |s| == 0 && more <= |s|
    ensures Cycle(s, m) + s[..more] == Cycle(s, m + more)
  {
    var long := Cycle(s, m + more);
    forall i | m <= i < m + more ensures long[i] == s[..more][i - m] {
      WholeRounds(m, |s|, i - m);
    }
    assert long[..m] == Cycle(s, m);
    assert long[m..] == s[..more];
  }

  /** How many rows are missing to the next multiple. */
  function PadSize(n: nat, divisor: nat): (r: nat)
    requires divisor > 0
    ensures (n + r) % divisor == 0 && r < divisor
  {
    if n % divisor == 0 then 0
    else
      assert n == n / divisor * divisor + n % divisor;
      assert n + (divisor - n % divisor) == (n / divisor + 1) * divisor;
      MultipleHasNoRemainder(n / divisor + 1, divisor);
      divisor - n % divisor
  }

  lemma PadSizeCases(n: nat, divisor: nat)
    requires divisor > 0
    ensures PadSize(n, divisor) == if n % divisor == 0 then 0 else divisor - n % divisor
    ensures n == 0 ==> n % divisor == 0
  {
  }

  /** The batch with its rows repeated from the beginning until there are m. */
  function Cycled<T, M>(d: Data<T, M>, m: nat): (r: Data<T, M>)
    requires d.Valid() && (m > 0 ==> d.size > 0)
    ensures r.Valid()
  {
    assert (map k | k in d.columns :: Cycle(d.columns[k], m)).Keys == d.columns.Keys;
    d.(size := m, columns := map k | k in d.columns :: Cycle(d.columns[k], m))
  }

  /** A list of batches that cut the columns of d. */
  ghost predicate CutsOf<T, M>(list: seq<Data<T, M>>, d: Data<T, M>) {
    forall i :: 0 <= i < |list| ==>
      list[i].hasBatch == d.hasBatch && list[i].columns.Keys == d.columns.Keys && list[i].meta == d.meta
  }

  lemma {:induction false} MetaOfCuts<T, M>(list: seq<Data<T, M>>, d: Data<T, M>)
    requires CutsOf(list, d)
    ensures MergeMeta(list) == Ok(if list == [] then map[] else d.meta)
  {
    if list != [] {
      var front, meta := list[..|list| - 1], list[|list| - 1].meta;
      MetaOfCuts(front, d);
      assert (if front == [] then map[] else meta) + meta == meta;
    }
  }

  /** Joining cuts of d gives d's columns from the joined pieces. */
  lemma ConcatOfCuts<T, M>(list: seq<Data<T, M>>, d: Data<T, M>, whole: Data<T, M>)
    requires list != [] && CutsOf(list, d)
    requires whole.hasBatch == d.hasBatch && whole.columns.Keys == d.columns.Keys && whole.meta == d.meta
    requires TotalSize(list) == whole.size
    requires forall k :: k in d.columns ==> Flatten(ColumnsAt(list, k)) == whole.columns[k]
    ensures Concat(list) == Ok(whole)
  {
    hide Flatten, TotalSize, ColumnsAt;
    MetaOfCuts(list, d);
    assert SameColumns(list);
    assert (map k | k in list[0].columns :: Flatten(ColumnsAt(list, k))) == whole.columns;
  }

  /** The joined pieces so far are m rows of the cycle. */
  ghost predicate Cycles<T, M>(list: seq<Data<T, M>>, d: Data<T, M>, m: nat)
    requires d.Valid()
  {
    list != [] && CutsOf(list, d) && TotalSize(list) == m && (m > 0 ==> d.size > 0) &&
    forall k :: k in d.columns ==> Flatten(ColumnsAt(list, k)) == Cycle(d.columns[k], m)
  }

  lemma CyclesOnce<T, M>(d: Data<T, M>)
    requires d.Valid()
    ensures Cycles([d], d, d.size)
  {
    var list := [d];
    assert list[..0] == [];
    forall k | k in d.columns ensures Flatten(ColumnsAt(list, k)) == Cycle(d.columns[k], d.size) {
      CycleOnce(d.columns[k]);
      assert ColumnsAt(list, k)[..0] == [];
    }
  }

  lemma FlattenLast<T>(s: seq<seq<T>>, last: seq<T>)
    ensures Flatten(s + [last]) == Flatten(s) + last
  {
    assert (s + [last])[..|s|] == s;
  }

  lemma SliceIsPrefix<T, M>(d: Data<T, M>, end: nat)
    requires d.Valid() && end <= d.size
    ensures var r := Slice(d, 0, end);
      r.size == end && r.hasBatch == d.hasBatch && r.meta == d.meta && r.columns.Keys == d.columns.Keys &&
      forall k :: k in d.columns ==> r.columns[k] == d.columns[k][..end]
  {
  }

  lemma CyclesMore<T, M>(list: seq<Data<T, M>>, d: Data<T, M>, m: nat, more: nat)
    requires d.Valid() && Cycles(list, d, m) && d.size > 0 && m % d.size == 0 && more <= d.size
    ensures Cycles(list + [Slice(d, 0, more)], d, m + more)
  {
    hide Flatten, Cycle, Slice;
    var next := Slice(d, 0, more);
    SliceIsPrefix(d, more);
    var list' := list + [next];
    assert list'[..|list|] == list;
    forall k | k in d.columns ensures Flatten(ColumnsAt(list', k)) == Cycle(d.columns[k], m + more) {
      assert ColumnsAt(list', k) == ColumnsAt(list, k) + [next.columns[k]];
      FlattenLast(ColumnsAt(list, k), next.columns[k]);
      CycleMore(d.columns[k], m, more);
    }
  }

  /** `pad_dataproto_to_divisor`; a zero divisor raises. */
  method PadToDivisor<T, M(==)>(d: Data<T, M>, divisor: nat) returns (r: Result<(Data<T, M>, nat)>)
    requires d.Valid()
    ensures r.Ok? <==> divisor > 0
    ensures divisor > 0 ==>
      var pad := PadSize(d.size, divisor);
      (pad > 0 ==> d.size > 0) && r.value == (Cycled(d, d.size + pad), pad)
  {
    hide PadSize, Cycle, Cycled, Cycles, Concat;
    if divisor == 0 {
      return Raised;
    }
    PadSizeCases(d.size, divisor);
    if d.size % divisor == 0 {
      CycledOnce(d);
      return Ok((d, 0));
    }
    var padSize := divisor - d.size % divisor;
    var list := PaddingProtos(d, padSize);
    ConcatCycles(list, d, d.size + padSize);
    var padded := ConcatData(list);
    r := Ok((padded.value, padSize));
  }

  /** The batch itself and the slices that are appended to it. */
  method PaddingProtos<T, M>(d: Data<T, M>, padSize: nat) returns (list: seq<Data<T, M>>)
    requires d.Valid() && d.size > 0
    ensures Cycles(list, d, d.size + padSize)
  {
    hide Flatten, Cycle, Cycles, CutsOf, Slice;
    list := [d];
    CyclesOnce(d);
    var remaining := padSize;
    ghost var done := d.size;
    while remaining > 0
      invariant 0 <= remaining <= padSize && done == d.size + padSize - remaining
      invariant Cycles(list, d, done)
      invariant remaining == 0 || done % d.size == 0
    {
      var take := if remaining < d.size then remaining else d.size;
      CyclesMore(list, d, done, take);
      WholeRounds(done, d.size, 0);
      list := list + [Slice(d, 0, take)];
      remaining := remaining - take;
      done := done + take;
    }
  }

  lemma CycledOnce<T, M>(d: Data<T, M>)
    requires d.Valid()
    ensures Cycled(d, d.size) == d
  {
    forall k | k in d.columns ensures Cycle(d.columns[k], d.size) == d.columns[k] {
      CycleOnce(d.columns[k]);
    }
    assert Cycled(d, d.size).columns == d.columns;
  }

  lemma ConcatCycles<T, M>(list: seq<Data<T, M>>, d: Data<T, M>, m: nat)
    requires d.Valid() && Cycles(list, d, m)
    ensures Concat(list) == Ok(Cycled(d, m))
  {
    hide Flatten, TotalSize, Cycle;
    ConcatOfCuts(list, d, Cycled(d, m));
  }

  // ---------- Rows ----------

  function Row<T, M>(d: Data<T, M>, i: nat): map<Key, T>
    requires d.Valid() && i < d.size
  {
    map k | k in d.columns :: d.columns[k][i]
  }

  /** Row i of a slice is row start + i, for every row of the batch from the start on and before the end. */
  lemma SliceRows<T, M>(d: Data<T, M>, start: nat, end: nat, i: nat)
    requires d.Valid()
    ensures var r := Slice(d, start, end);
      (i < r.size <==> start + i < end && start + i < d.size) &&
      r.columns.Keys == d.columns.Keys && r.meta == d.meta && r.hasBatch == d.hasBatch &&
      (i < r.size ==> Row(r, i) == Row(d, start + i))
  {
    var r := Slice(d, start, end);
    if i < r.size {
      forall k | k in d.columns ensures r.columns[k][i] == d.columns[k][start + i] {
      }
      assert Row(r, i).Keys == Row(d, start + i).Keys;
    }
  }

  /** Row i of the padded batch is row i mod n, and the padded length is a multiple. */
  lemma PaddedRows<T, M>(d: Data<T, M>, divisor: nat, i: nat)
    requires d.Valid() && divisor > 0 && i < d.size + PadSize(d.size, divisor) && d.size > 0
    ensures var padded := Cycled(d, d.size + PadSize(d.size, divisor));
      padded.size % divisor == 0 && Row(padded, i) == Row(d, i % d.size)
  {
    hide PadSize;
    var padded := Cycled(d, d.size + PadSize(d.size, divisor));
    forall k | k in d.columns ensures padded.columns[k][i] == d.columns[k][i % d.size] {
    }
  }

  /** Unpadding undoes padding. */
  lemma UnpadOfPad<T, M>(d: Data<T, M>, pad: nat)
    requires d.Valid() && (pad > 0 ==> d.size > 0)
    ensures Unpad(Cycled(d, d.size + pad), pad) == d
  {
    if pad == 0 {
      CycledOnce(d);
    } else {
      var padded := Cycled(d, d.size + pad);
      forall k | k in d.columns ensures padded.columns[k][..d.size] == d.columns[k] {
        CycleOnce(d.columns[k]);
        assert padded.columns[k][..d.size] == Cycle(d.columns[k], d.size);
      }
      assert Unpad(padded, pad).columns == d.columns;
    }
  }

  // ---------- Rows of a concatenation ----------

  lemma {:induction false} PieceInFlatten<T>(s: seq<seq<T>>, j: nat, i: nat)
    requires j < |s| && i < |s[j]|
    ensures |Flatten(s[..j])| + i < |Flatten(s)| && Flatten(s)[|Flatten(s[..j])| + i] == s[j][i]
  {
    var n := |s| - 1;
    if j < n {
      PieceInFlatten(s[..n], j, i);
      assert s[..n][..j] == s[..j];
    }
  }

  lemma {:induction false} ColumnSize<T, M>(list: seq<Data<T, M>>, k: Key)
    requires forall i :: 0 <= i < |list| ==> list[i].Valid() && k in list[i].columns
    ensures |Flatten(ColumnsAt(list, k))| == TotalSize(list)
  {
    if list != [] {
      var n := |list| - 1;
      ColumnSize(list[..n], k);
      assert ColumnsAt(list, k)[..n] == ColumnsAt(list[..n], k);
    }
  }

  /** From position `at` on the column continues with the piece. */
  ghost predicate Continues<T>(column: seq<T>, at: nat, piece: seq<T>) {
    at + |piece| <= |column| && forall i :: 0 <= i < |piece| ==> column[at + i] == piece[i]
  }

  lemma PieceContinues<T>(s: seq<seq<T>>, j: nat)
    requires j < |s|
    ensures Continues(Flatten(s), |Flatten(s[..j])|, s[j])
  {
    FlattenUpTo(s, j);
    forall i | 0 <= i < |s[j]| ensures Flatten(s)[|Flatten(s[..j])| + i] == s[j][i] {
      PieceInFlatten(s, j, i);
    }
  }

  lemma {:induction false} FlattenUpTo<T>(s: seq<seq<T>>, j: nat)
    requires j < |s|
    ensures |Flatten(s[..j])| + |s[j]| <= |Flatten(s)|
  {
    var n := |s| - 1;
    if j < n {
      FlattenUpTo(s[..n], j);
      assert s[..n][..j] == s[..j];
    }
  }

  lemma ColumnRows<T, M>(list: seq<Data<T, M>>, k: Key, j: nat)
    requires j < |list| && forall x :: 0 <= x < |list| ==> list[x].Valid() && k in list[x].columns
    ensures |Flatten(ColumnsAt(list, k))| == TotalSize(list)
    ensures Continues(Flatten(ColumnsAt(list, k)), TotalSize(list[..j]), list[j].columns[k])
  {
    hide Flatten, TotalSize, Continues;
    ColumnSize(list, k);
    ColumnSize(list[..j], k);
    assert ColumnsAt(list, k)[..j] == ColumnsAt(list[..j], k);
    PieceContinues(ColumnsAt(list, k), j);
  }

  /** The rows of the whole are the rows of the batches, one batch after the other. */
  lemma ConcatRows<T, M>(list: seq<Data<T, M>>, whole: Data<T, M>, j: nat, k: Key)
    requires Concat(list) == Ok(whole) && forall x :: 0 <= x < |list| ==> list[x].Valid()
    requires j < |list| && k in list[j].columns
    ensures whole.columns.Keys == list[j].columns.Keys && whole.hasBatch == list[j].hasBatch && whole.size == TotalSize(list)
    ensures k in whole.columns && |whole.columns[k]| == whole.size &&
      Continues(whole.columns[k], TotalSize(list[..j]), list[j].columns[k])
  {
    hide MergeMeta, Flatten, TotalSize, ColumnsAt, Continues;
    EveryColumn(list, j, k);
    ColumnRows(list, k, j);
  }

  lemma EveryColumn<T, M>(list: seq<Data<T, M>>, j: nat, k: Key)
    requires SameColumns(list) && j < |list| && k in list[j].columns
    ensures forall x :: 0 <= x < |list| ==> k in list[x].columns
  {
  }

  /** No two batches have different values for one entry. */
  ghost predicate Consistent<T, M>(list: seq<Data<T, M>>) {
    forall i, j, k :: 0 <= i < |list| && 0 <= j < |list| && k in list[i].meta && k in list[j].meta ==>
      list[i].meta[k] == list[j].meta[k]
  }

  /** The entries are those of the batches and no others. */
  ghost predicate AllEntries<T, M>(list: seq<Data<T, M>>, meta: map<string, M>) {
    (forall k :: k in meta <==> exists i :: 0 <= i < |list| && k in list[i].meta) &&
    forall i, k :: 0 <= i < |list| && k in list[i].meta ==> meta[k] == list[i].meta[k]
  }

  lemma EntriesOfMore<T, M>(list: seq<Data<T, M>>, last: Data<T, M>, meta: map<string, M>)
    requires AllEntries(list, meta) && Consistent(list)
    requires forall k :: k in meta && k in last.meta ==> meta[k] == last.meta[k]
    ensures AllEntries(list + [last], meta + last.meta) && Consistent(list + [last])
  {
    var more := list + [last];
    assert more[|list|] == last;
    forall i, k | 0 <= i < |more| && k in more[i].meta ensures (meta + last.meta)[k] == more[i].meta[k] {
    }
    forall k ensures k in meta + last.meta <==> exists i :: 0 <= i < |more| && k in more[i].meta {
      if k in meta {
        var i :| 0 <= i < |list| && k in list[i].meta;
        assert k in more[i].meta;
      }
    }
  }

  lemma Disagree<T, M>(list: seq<Data<T, M>>, meta: map<string, M>, k: string)
    requires list != [] && AllEntries(list[..|list| - 1], meta)
    requires k in list[|list| - 1].meta && k in meta && meta[k] != list[|list| - 1].meta[k]
    ensures !Consistent(list)
  {
    var n := |list| - 1;
    var i :| 0 <= i < n && k in list[..n][i].meta;
    assert list[..n][i] == list[i];
  }

  lemma FrontConsistent<T, M>(list: seq<Data<T, M>>)
    requires list != [] && Consistent(list)
    ensures Consistent(list[..|list| - 1])
  {
  }

  lemma MergeLast<T, M>(list: seq<Data<T, M>>, merged: map<string, M>)
    requires list != [] && MergeMeta(list[..|list| - 1]) == Ok(merged)
    requires Consistent(list[..|list| - 1]) && AllEntries(list[..|list| - 1], merged)
    ensures MergeMeta(list).Ok? <==> Consistent(list)
    ensures MergeMeta(list).Ok? ==> AllEntries(list, MergeMeta(list).value)
  {
    hide Consistent, AllEntries;
    var n := |list| - 1;
    var meta := list[n].meta;
    if exists k :: k in meta && k in merged && merged[k] != meta[k] {
      var k :| k in meta && k in merged && merged[k] != meta[k];
      Disagree(list, merged, k);
    } else {
      EntriesOfMore(list[..n], list[n], merged);
      SplitLast(list);
    }
  }

  /** Metadata can be merged exactly if no two batches disagree on an entry, and then they are all entries of all batches. */
  lemma {:induction false} MergeMetaMeans<T, M>(list: seq<Data<T, M>>)
    ensures MergeMeta(list).Ok? <==> Consistent(list)
    ensures MergeMeta(list).Ok? ==> AllEntries(list, MergeMeta(list).value)
  {
    if list != [] {
      hide Consistent, AllEntries;
      var front := list[..|list| - 1];
      MergeMetaMeans(front);
      if MergeMeta(front).Ok? {
        MergeLast(list, MergeMeta(front).value);
      } else if Consistent(list) {
        FrontConsistent(list);
      }
    }
  }

  /** `concat` succeeds exactly for batches with the same columns that do not disagree on an entry of the metadata. */
  lemma ConcatSucceedsIff<T, M>(list: seq<Data<T, M>>)
    ensures Concat(list).Ok? <==> list != [] && SameColumns(list) && Consistent(list)
    ensures Concat(list).Ok? ==> AllEntries(list, Concat(list).value.meta)
  {
    hide Consistent, AllEntries, MergeMeta;
    MergeMetaMeans(list);
  }

  // ---------- The concatenation loops ----------

  method ConcatData<T, M(==)>(list: seq<Data<T, M>>) returns (r: Result<Data<T, M>>)
    ensures r == Concat(list)
  {
    hide Flatten, TotalSize, MergeMeta, ColumnsAt;
    if |list| == 0 {
      return Raised;
    }
    var first := list[0];
    for i := 0 to |list|
      invariant forall j :: 0 <= j < i ==> list[j].hasBatch == first.hasBatch && list[j].columns.Keys == first.columns.Keys
    {
      if list[i].hasBatch != first.hasBatch || list[i].columns.Keys != first.columns.Keys {
        return Raised;
      }
    }
    var columns := JoinColumns(list, first.columns.Keys);
    var merged := MergeAll(list);
    if merged.Raised? {
      return Raised;
    }
    assert columns == map k | k in list[0].columns :: Flatten(ColumnsAt(list, k));
    r := Ok(Data(first.hasBatch, merged.value.1, columns, merged.value.0));
  }

  method JoinColumns<T, M>(list: seq<Data<T, M>>, keys: set<Key>) returns (columns: Columns<T>)
    requires forall i :: 0 <= i < |list| ==> list[i].columns.Keys == keys
    ensures columns == map k | k in keys :: Flatten(ColumnsAt(list, k))
  {
    hide Flatten, ColumnsAt;
    columns := map[];
    var left := keys;
    while left != {}
      invariant left <= keys && columns.Keys == keys - left
      invariant forall k :: k in columns ==> columns[k] == Flatten(ColumnsAt(list, k))
      decreases left
    {
      var k :| k in left;
      columns := columns[k := Flatten(ColumnsAt(list, k))];
      left := left - {k};
    }
  }

  method MergeAll<T, M(==)>(list: seq<Data<T, M>>) returns (r: Result<(map<string, M>, nat)>)
    ensures r == if MergeMeta(list).Ok? then Ok((MergeMeta(list).value, TotalSize(list))) else Raised
  {
    var meta, size: nat := map[], 0;
    for i := 0 to |list|
      invariant MergeMeta(list[..i]) == Ok(meta) && size == TotalSize(list[..i])
    {
      assert list[..i + 1][..i] == list[..i];
      if exists k :: k in list[i].meta && k in meta && meta[k] != list[i].meta[k] {
        MergeFails(list, i + 1);
        return Raised;
      }
      meta := meta + list[i].meta;
      size := size + list[i].size;
    }
    assert list[..|list|] == list;
    r := Ok((meta, size));
  }

  lemma {:induction false} MergeFails<T, M>(list: seq<Data<T, M>>, n: nat)
    requires n <= |list| && MergeMeta(list[..n]).Raised?
    ensures MergeMeta(list).Raised?
    decreases |list| - n
  {
    if n == |list| {
      assert list[..n] == list;
    } else {
      assert list[..n + 1][..n] == list[..n];
      MergeFails(list, n + 1);
    }
  }

  // ---------- Chunks ----------

  function ChunkAt<T, M>(d: Data<T, M>, n: nat, size: nat, c: nat): (r: Data<T, M>)
    requires d.Valid() && d.size == n * size && c < n
    ensures r.columns.Keys == d.columns.Keys
  {
    d.(size := size, columns := map k | k in d.columns :: Chunk(d.columns[k], n, size, c))
  }

  function ChunksOfData<T, M>(d: Data<T, M>, n: nat, size: nat): (r: seq<Data<T, M>>)
    requires d.Valid() && d.size == n * size
    ensures |r| == n && forall c :: 0 <= c < n ==> r[c] == ChunkAt(d, n, size, c)
  {
    seq(n, c requires 0 <= c < n => ChunkAt(d, n, size, c))
  }

  /** `chunk` with auto-padding off: only equal chunks. */
  function ChunkData<T, M>(d: Data<T, M>, n: nat): Result<seq<Data<T, M>>>
    requires d.Valid()
  {
    if n == 0 || d.size % n != 0 then Raised
    else
      EvenSize(d.size, n);
      Ok(ChunksOfData(d, n, d.size / n))
  }

  lemma EvenSize(size: nat, n: nat)
    requires n > 0 && size % n == 0
    ensures size == n * (size / n)
  {
  }

  /** `np.array_split` at given indices */
  method SplitAtIndices<T>(s: seq<T>, cuts: seq<nat>, n: nat, size: nat) returns (pieces: seq<seq<T>>)
    requires n > 0 && |s| == n * size && |cuts| == n - 1
    requires forall i :: 0 <= i < n - 1 ==> cuts[i] == (i + 1) * size
    ensures pieces == ChunksOf(s, n, size)
  {
    pieces := [];
    var start := 0;
    for i := 0 to n
      invariant start == i * size && |pieces| == i
      invariant forall c :: 0 <= c < i ==> pieces[c] == Chunk(s, n, size, c)
    {
      ChunkInRange(n, size, i);
      var end := if i < n - 1 then cuts[i] else |s|;
      pieces := pieces + [s[start..end]];
      start := end;
    }
  }

  /** The running sums of the chunk sizes, without the last. */
  method ChunkIndices(n: nat, size: nat) returns (cuts: seq<nat>)
    requires n > 0
    ensures |cuts| == n - 1 && forall i :: 0 <= i < n - 1 ==> cuts[i] == (i + 1) * size
  {
    cuts := [];
    var sum := 0;
    for i := 0 to n - 1
      invariant |cuts| == i && sum == i * size
      invariant forall j :: 0 <= j < i ==> cuts[j] == (j + 1) * size
    {
      assert (i + 1) * size == i * size + size;
      sum := sum + size;
      cuts := cuts + [sum];
    }
  }

  /** Columns that are chunk c of the columns with the given keys. */
  ghost predicate ChunkColumns<T, M>(part: Columns<T>, d: Data<T, M>, keys: set<Key>, n: nat, size: nat, c: nat)
    requires d.Valid() && d.size == n * size && c < n && keys <= d.columns.Keys
  {
    part.Keys == keys && forall k :: k in keys ==> part[k] == Chunk(d.columns[k], n, size, c)
  }

  method ChunkProto<T, M>(d: Data<T, M>, n: nat) returns (r: Result<seq<Data<T, M>>>)
    requires d.Valid()
    ensures r == ChunkData(d, n)
  {
    hide Chunk;
    if n == 0 || d.size % n != 0 {
      return Raised;
    }
    EvenSize(d.size, n);
    var size := d.size / n;
    var cuts := ChunkIndices(n, size);
    var parts: seq<Columns<T>> := seq(n, _ => map[]);
    var left := d.columns.Keys;
    while left != {}
      invariant left <= d.columns.Keys && |parts| == n
      invariant forall c :: 0 <= c < n ==> ChunkColumns(parts[c], d, d.columns.Keys - left, n, size, c)
      decreases left
    {
      var k :| k in left;
      var pieces := ChunksOf(d.columns[k], n, size);
      if k.NonTensor? && d.hasBatch {
        pieces := SplitAtIndices(d.columns[k], cuts, n, size);
      }
      parts := AddColumn(parts, k, pieces, d, d.columns.Keys - left, size);
      left := left - {k};
      assert d.columns.Keys - left == d.columns.Keys - (left + {k}) + {k};
    }
    var output := ChunkOutput(d, parts, size);
    r := Ok(output);
  }

  method ChunkOutput<T, M>(d: Data<T, M>, parts: seq<Columns<T>>, size: nat) returns (output: seq<Data<T, M>>)
    requires d.Valid() && d.size == |parts| * size
    requires forall c :: 0 <= c < |parts| ==> ChunkColumns(parts[c], d, d.columns.Keys, |parts|, size, c)
    ensures output == ChunksOfData(d, |parts|, size)
  {
    hide Chunk;
    output := [];
    for c := 0 to |parts|
      invariant |output| == c && forall j :: 0 <= j < c ==> output[j] == ChunkAt(d, |parts|, size, j)
    {
      assert ChunkColumns(parts[c], d, d.columns.Keys, |parts|, size, c);
      assert parts[c] == ChunkAt(d, |parts|, size, c).columns;
      output := output + [Data(d.hasBatch, size, parts[c], d.meta)];
    }
  }

  method AddColumn<T, M>(parts: seq<Columns<T>>, k: Key, pieces: seq<seq<T>>, ghost d: Data<T, M>, ghost keys: set<Key>, ghost size: nat)
    returns (r: seq<Columns<T>>)
    requires d.Valid() && d.size == |parts| * size && keys <= d.columns.Keys && k in d.columns
    requires forall c :: 0 <= c < |parts| ==> ChunkColumns(parts[c], d, keys, |parts|, size, c)
    requires pieces == ChunksOf(d.columns[k], |parts|, size)
    ensures |r| == |parts|
    ensures forall c :: 0 <= c < |parts| ==> ChunkColumns(r[c], d, keys + {k}, |parts|, size, c)
  {
    hide Chunk;
    r := parts;
    for c := 0 to |parts|
      invariant |r| == |parts|
      invariant forall j :: 0 <= j < c ==> ChunkColumns(r[j], d, keys + {k}, |parts|, size, j)
      invariant forall j :: c <= j < |parts| ==> r[j] == parts[j]
    {
      r := r[c := r[c][k := pieces[c]]];
    }
  }

  lemma {:induction false} ChunkSizes<T, M>(list: seq<Data<T, M>>, size: nat)
    requires forall i :: 0 <= i < |list| ==> list[i].size == size
    ensures TotalSize(list) == |list| * size
  {
    if list != [] {
      ChunkSizes(list[..|list| - 1], size);
      assert (|list| - 1 + 1) * size == (|list| - 1) * size + size;
    }
  }

  /** Concatenating the chunks gives the batch back. */
  lemma ConcatOfChunks<T, M>(d: Data<T, M>, n: nat)
    requires d.Valid() && n > 0 && d.size % n == 0
    ensures ChunkData(d, n).Ok? && Concat(ChunkData(d, n).value) == Ok(d)
  {
    hide Flatten, TotalSize, Chunk;
    EvenSize(d.size, n);
    var size := d.size / n;
    var list := ChunksOfData(d, n, size);
    ChunkSizes(list, size);
    forall k | k in d.columns ensures Flatten(ColumnsAt(list, k)) == d.columns[k] {
      assert ColumnsAt(list, k) == ChunksOf(d.columns[k], n, size);
      FlattenChunks(d.columns[k], n, size);
    }
    ConcatOfCuts(list, d, d);
  }

  /** Row i of chunk c is row c * size + i, and all chunks have one size. */
  lemma ChunkRows<T, M>(d: Data<T, M>, n: nat, c: nat, i: nat)
    requires d.Valid() && ChunkData(d, n).Ok? && c < |ChunkData(d, n).value| && i < d.size / n
    ensures var part, at := ChunkData(d, n).value[c], c * (d.size / n) + i;
      |ChunkData(d, n).value| == n && part.size == d.size / n && at < d.size && part.meta == d.meta &&
      part.hasBatch == d.hasBatch && part.columns.Keys == d.columns.Keys &&
      forall k :: k in d.columns ==> |part.columns[k]| == part.size && part.columns[k][i] == d.columns[k][at]
  {
    EvenSize(d.size, n);
    ChunkInRange(n, d.size / n, c);
  }

  // ---------- Futures ----------

  /** `DataProtoFuture`: outputs still to be fetched, and the chunk of their concatenation to hand out. */
  datatype Future<T, M> = Future(outputs: seq<Data<T, M>>, dispatch: Option<(nat, nat)>) {
    /** `chunk`: n futures of the same outputs; whatever was to be dispatched before is replaced. */
    function Chunk(n: nat): (r: seq<Future<T, M>>)
      ensures |r| == n && forall i :: 0 <= i < n ==> r[i] == Future(outputs, Some((i, n)))
    {
      seq(n, (i: nat) => Future(outputs, Some((i, n))))
    }

    /** `get`; the concatenated outputs are taken to be consistent, which their constructor checks. */
    ghost function Get(): Result<Data<T, M>> {
      var whole :- Concat(outputs);
      if !whole.Valid() then Raised
      else if dispatch.None? then Ok(whole)
      else
        var chunks :- ChunkData(whole, dispatch.value.1);
        if dispatch.value.0 < |chunks| then Ok(chunks[dispatch.value.0]) else Raised
    }
  }

  /** The results of all futures; one that raises makes the whole raise. */
  ghost function GetAll<T, M>(futures: seq<Future<T, M>>): Result<seq<Data<T, M>>> {
    if futures == [] then Ok([])
    else
      var front :- GetAll(futures[..|futures| - 1]);
      var last :- futures[|futures| - 1].Get();
      Ok(front + [last])
  }

  lemma ChunksOfWhole<T, M>(whole: Data<T, M>, n: nat)
    requires whole.Valid() && n > 0 && whole.size % n == 0
    ensures ChunkData(whole, n).Ok? && |ChunkData(whole, n).value| == n
  {
    hide ChunkAt;
    EvenSize(whole.size, n);
  }

  lemma {:induction false} GetAllChunks<T, M>(f: Future<T, M>, whole: Data<T, M>, n: nat, m: nat)
    requires Concat(f.outputs) == Ok(whole) && whole.Valid() && n > 0 && whole.size % n == 0 && m <= n
    ensures GetAll(f.Chunk(n)[..m]) == Ok(ChunkData(whole, n).value[..m])
  {
    hide Concat, ChunkData;
    ChunksOfWhole(whole, n);
    if m > 0 {
      GetAllChunks(f, whole, n, m - 1);
      var chunks, pieces := f.Chunk(n), ChunkData(whole, n).value;
      assert chunks[..m][..m - 1] == chunks[..m - 1];
      assert pieces[..m] == pieces[..m - 1] + [pieces[m - 1]];
    }
  }

  /** Fetching all chunks of a future and concatenating them is concatenating its outputs. */
  lemma FutureChunksJoin<T, M>(f: Future<T, M>, whole: Data<T, M>, n: nat)
    requires Concat(f.outputs) == Ok(whole) && whole.Valid() && n > 0 && whole.size % n == 0
    ensures GetAll(f.Chunk(n)).Ok? && Concat(GetAll(f.Chunk(n)).value) == Concat(f.outputs)
  {
    hide Concat;
    GetAllChunks(f, whole, n, n);
    assert f.Chunk(n)[..n] == f.Chunk(n);
    var list := ChunkData(whole, n).value;
    assert list[..n] == list;
    ConcatOfChunks(whole, n);
  }

  /** So chunking loses nothing of what `get` returned exactly if `get` returned everything. */
  lemma FutureChunksKeepIff<T, M>(f: Future<T, M>, whole: Data<T, M>, n: nat)
    requires Concat(f.outputs) == Ok(whole) && whole.Valid() && n > 0 && whole.size % n == 0
    requires f.dispatch.Some? ==>
      f.dispatch.value.1 > 0 && whole.size % f.dispatch.value.1 == 0 && f.dispatch.value.0 < f.dispatch.value.1
    ensures GetAll(f.Chunk(n)).Ok?
    ensures Concat(GetAll(f.Chunk(n)).value) == f.Get() <==>
      f.dispatch.None? || f.dispatch.value.1 == 1 || whole.size == 0
  {
    hide Concat, ChunkAt, Chunk, GetAll;
    FutureChunksJoin(f, whole, n);
    if f.dispatch.Some? {
      var (i, m) := f.dispatch.value;
      EvenSize(whole.size, m);
      GetChunk(f, whole, i, m);
      if m == 1 || whole.size == 0 {
        WholeChunk(whole, m, whole.size / m, i);
      } else {
        SmallerChunk(whole.size, m);
      }
    }
  }

  lemma GetChunk<T, M>(f: Future<T, M>, whole: Data<T, M>, i: nat, m: nat)
    requires Concat(f.outputs) == Ok(whole) && whole.Valid() && i < m && whole.size % m == 0 && f.dispatch == Some((i, m))
    ensures whole.size == m * (whole.size / m) && f.Get() == Ok(ChunkAt(whole, m, whole.size / m, i))
    ensures ChunkAt(whole, m, whole.size / m, i).size == whole.size / m
  {
    hide Concat, Chunk;
    EvenSize(whole.size, m);
  }

  lemma WholeChunk<T, M>(d: Data<T, M>, n: nat, size: nat, c: nat)
    requires d.Valid() && d.size == n * size && c < n && (n == 1 || d.size == 0)
    ensures ChunkAt(d, n, size, c) == d
  {
    MulMonotone(1, n, size);
    forall k | k in d.columns ensures Chunk(d.columns[k], n, size, c) == d.columns[k] {
      if n == 1 {
        assert c == 0;
      }
    }
    assert ChunkAt(d, n, size, c).columns == d.columns;
  }

  lemma SmallerChunk(size: nat, n: nat)
    requires n > 1 && size > 0 && size % n == 0
    ensures size / n < size
  {
    EvenSize(size, n);
    MulMonotone(2, n, size / n);
  }

  lemma ConcatOne<T, M>(d: Data<T, M>)
    requires d.Valid()
    ensures Concat([d]) == Ok(d)
  {
    assert [d][..0] == [];
    forall k | k in d.columns ensures Flatten(ColumnsAt([d], k)) == d.columns[k] {
      assert ColumnsAt([d], k)[..0] == [];
    }
    ConcatOfCuts([d], d, d);
  }

  /** A chunk of a chunk, for one: the first half of two rows, chunked again, gives back both rows. */
  lemma ChunkOfChunk<T, M>(d: Data<T, M>)
    requires d.Valid() && d.size == 2
    ensures var half := Future([d], None).Chunk(2)[0];
      half.Get() == Ok(ChunkAt(d, 2, 1, 0)) && ChunkAt(d, 2, 1, 0).size == 1 &&
      GetAll(half.Chunk(2)).Ok? && Concat(GetAll(half.Chunk(2)).value) == Ok(d)
  {
    hide Concat, GetAll;
    ConcatOne(d);
    FutureChunksJoin(Future([d], Some((0, 2))), d, 2);
  }
}
