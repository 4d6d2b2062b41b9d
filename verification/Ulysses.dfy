/** Exchanges between the ranks of a group. */
module Ulysses {
  import opened Wrappers
  import opened Sequences
  import opened Arithmetic
  import opened Chunks

  datatype Dim = SeqDim | HeadDim

  datatype Tensor<T> = Tensor(rows: nat, cols: nat, cells: seq<seq<T>>)
  {
    ghost predicate Valid() {
      |cells| == rows && forall i :: 0 <= i < rows ==> |cells[i]| == cols
    }

    function Size(dim: Dim): nat {
      if dim == SeqDim then rows else cols
    }
  }

  predicate SameShape<T>(a: Tensor<T>, b: Tensor<T>) {
    a.rows == b.rows && a.cols == b.cols
  }

  /** `x[lo:hi]` along one dimension. */
  function Part<T>(x: Tensor<T>, dim: Dim, lo: nat, hi: nat): (r: Tensor<T>)
    requires x.Valid() && lo <= hi <= x.Size(dim)
    ensures r.Valid() && r.Size(dim) == hi - lo
  {
    if dim == SeqDim then Tensor(hi - lo, x.cols, x.cells[lo..hi])
    else Tensor(x.rows, hi - lo, seq(x.rows, i requires 0 <= i < x.rows => x.cells[i][lo..hi]))
  }

  function Rows<T>(list: seq<Tensor<T>>): seq<seq<seq<T>>> {
    Map((t: Tensor<T>) => t.cells, list)
  }

  ghost predicate Alike<T>(list: seq<Tensor<T>>, rows: nat, cols: nat) {
    forall i :: 0 <= i < |list| ==> list[i].Valid() && list[i].rows == rows && list[i].cols == cols
  }

  function RowOfEach<T>(list: seq<Tensor<T>>, rows: nat, cols: nat, i: nat): (r: seq<seq<T>>)
    requires Alike(list, rows, cols) && i < rows
    ensures |r| == |list| && forall k :: 0 <= k < |list| ==> r[k] == list[k].cells[i]
  {
    seq(|list|, k requires 0 <= k < |list| => list[k].cells[i])
  }

  lemma {:induction false} RowWidths<T>(blocks: seq<seq<seq<T>>>, cols: nat)
    requires forall b, i :: 0 <= b < |blocks| && 0 <= i < |blocks[b]| ==> |blocks[b][i]| == cols
    ensures forall i :: 0 <= i < |Flatten(blocks)| ==> |Flatten(blocks)[i]| == cols
  {
    if blocks != [] {
      RowWidths(blocks[..|blocks| - 1], cols);
    }
  }

  lemma CatWidths<T>(list: seq<Tensor<T>>, rows: nat, cols: nat)
    requires Alike(list, rows, cols)
    ensures |Flatten(Rows(list))| == |list| * rows
    ensures forall i :: 0 <= i < |Flatten(Rows(list))| ==> |Flatten(Rows(list))[i]| == cols
    ensures forall i :: 0 <= i < rows ==> |Flatten(RowOfEach(list, rows, cols, i))| == |list| * cols
  {
    FlattenSize(Rows(list), rows);
    RowWidths(Rows(list), cols);
    forall i | 0 <= i < rows ensures |Flatten(RowOfEach(list, rows, cols, i))| == |list| * cols {
      FlattenSize(RowOfEach(list, rows, cols, i), cols);
    }
  }

  /** `torch.cat` of tensors of one shape. */
  function Cat<T>(list: seq<Tensor<T>>, dim: Dim): (r: Tensor<T>)
    requires list != [] && Alike(list, list[0].rows, list[0].cols)
    ensures r.Valid()
  {
    var rows, cols := list[0].rows, list[0].cols;
    CatWidths(list, rows, cols);
    if dim == SeqDim then Tensor(|list| * rows, cols, Flatten(Rows(list)))
    else Tensor(rows, |list| * cols, seq(rows, i requires 0 <= i < rows => Flatten(RowOfEach(list, rows, cols, i))))
  }

  function Min(a: int, b: int): int { if a < b then a else b }

  /** `torch.tensor_split`: the first pieces get one element more when the size does not divide. */
  function SplitStart(size: nat, n: nat, j: nat): (p: nat)
    requires n > 0 && j <= n
    ensures p <= size
  {
    assert size == n * (size / n) + size % n;
    MulMonotone(j, n, size / n);
    j * (size / n) + Min(j, size % n)
  }

  lemma SplitStartsRise(size: nat, n: nat, j: nat)
    requires n > 0 && j < n
    ensures SplitStart(size, n, j + 1) - SplitStart(size, n, j) == size / n + (if j < size % n then 1 else 0)
  {
    assert (j + 1) * (size / n) == j * (size / n) + size / n;
  }

  function Piece<T>(x: Tensor<T>, n: nat, dim: Dim, j: nat): (r: Tensor<T>)
    requires x.Valid() && n > 0 && j < n
    ensures r.Valid()
    ensures r.Size(dim) == x.Size(dim) / n + (if j < x.Size(dim) % n then 1 else 0)
  {
    SplitStartsRise(x.Size(dim), n, j);
    Part(x, dim, SplitStart(x.Size(dim), n, j), SplitStart(x.Size(dim), n, j + 1))
  }

  ghost predicate AllValid<T>(locals: seq<Tensor<T>>) {
    forall r :: 0 <= r < |locals| ==> locals[r].Valid()
  }

  /** The receive buffers of rank j have the shape of its own first piece; pieces of another shape do not arrive. */
  predicate ShapesAgree<T>(locals: seq<Tensor<T>>, scatter: Dim)
    requires AllValid(locals)
  {
    var n := |locals|;
    forall r, j :: 0 <= r < n && 0 <= j < n ==>
      SameShape(Piece(locals[r], n, scatter, j), Piece(locals[j], n, scatter, 0))
  }

  /** What rank j receives: the j-th piece of every rank. */
  function Received<T>(locals: seq<Tensor<T>>, scatter: Dim, j: nat): (r: seq<Tensor<T>>)
    requires AllValid(locals) && j < |locals| && ShapesAgree(locals, scatter)
    ensures |r| == |locals| && Alike(r, r[0].rows, r[0].cols)
  {
    var n := |locals|;
    assert forall r :: 0 <= r < n ==>
      SameShape(Piece(locals[r], n, scatter, j), Piece(locals[j], n, scatter, 0));
    seq(n, r requires 0 <= r < n => Piece(locals[r], n, scatter, j))
  }

  /** `all_to_all_tensor` on every rank. */
  function AllToAll<T>(locals: seq<Tensor<T>>, scatter: Dim, gather: Dim): (r: Result<seq<Tensor<T>>>)
    requires AllValid(locals)
    ensures r.Ok? ==> |r.value| == |locals| && AllValid(r.value)
  {
    if !ShapesAgree(locals, scatter) then Raised
    else Ok(seq(|locals|, j requires 0 <= j < |locals| => Cat(Received(locals, scatter, j), gather)))
  }

  // ---------- Shards of one tensor ----------

  /** Rank r's block of rows or columns. */
  function Shard<T>(x: Tensor<T>, n: nat, dim: Dim, r: nat): (s: Tensor<T>)
    requires x.Valid() && n > 0 && r < n && x.Size(dim) % n == 0
    ensures s.Valid()
  {
    var size := x.Size(dim) / n;
    ChunkInRange(n, size, r);
    Part(x, dim, r * size, r * size + size)
  }

  function Shards<T>(x: Tensor<T>, n: nat, dim: Dim): (r: seq<Tensor<T>>)
    requires x.Valid() && n > 0 && x.Size(dim) % n == 0
    ensures |r| == n && AllValid(r)
  {
    seq(n, i requires 0 <= i < n => Shard(x, n, dim, i))
  }

  lemma PieceIsShard<T>(x: Tensor<T>, n: nat, dim: Dim, j: nat)
    requires x.Valid() && n > 0 && j < n && x.Size(dim) % n == 0
    ensures Piece(x, n, dim, j) == Shard(x, n, dim, j)
  {
    SplitStartsRise(x.Size(dim), n, j);
  }

  lemma {:induction false} ShardsAlike<T>(x: Tensor<T>, n: nat, dim: Dim)
    requires x.Valid() && n > 0 && x.Size(dim) % n == 0
    ensures dim == SeqDim ==> Alike(Shards(x, n, dim), x.rows / n, x.cols)
    ensures dim == HeadDim ==> Alike(Shards(x, n, dim), x.rows, x.cols / n)
  {
  }

  /** Tensors of one shape exchange pieces of one shape exactly when the scattered dimension divides evenly. */
  lemma ShapesAgreeIff<T>(locals: seq<Tensor<T>>, scatter: Dim, rows: nat, cols: nat)
    requires locals != [] && Alike(locals, rows, cols)
    ensures ShapesAgree(locals, scatter) <==> (if scatter == SeqDim then rows else cols) % |locals| == 0
  {
    var n := |locals|;
    var size := if scatter == SeqDim then rows else cols;
    if size % n != 0 {
      assert Piece(locals[0], n, scatter, n - 1).Size(scatter) == size / n;
      assert Piece(locals[n - 1], n, scatter, 0).Size(scatter) == size / n + 1;
      assert !SameShape(Piece(locals[0], n, scatter, n - 1), Piece(locals[n - 1], n, scatter, 0));
    }
  }

  lemma ColumnsOf<T>(x: Tensor<T>, n: nat, j: nat, i: nat)
    requires x.Valid() && n > 0 && j < n && x.cols % n == 0 && i < x.rows
    ensures j * (x.cols / n) + x.cols / n <= x.cols
    ensures Shard(x, n, HeadDim, j).rows == x.rows && Shard(x, n, HeadDim, j).cols == x.cols / n
    ensures Shard(x, n, HeadDim, j).cells[i] == x.cells[i][j * (x.cols / n)..j * (x.cols / n) + x.cols / n]
  {
    ChunkInRange(n, x.cols / n, j);
  }

  lemma RowsOf<T>(x: Tensor<T>, n: nat, r: nat)
    requires x.Valid() && n > 0 && r < n && x.rows % n == 0
    ensures r * (x.rows / n) + x.rows / n <= x.rows
    ensures Shard(x, n, SeqDim, r).rows == x.rows / n && Shard(x, n, SeqDim, r).cols == x.cols
    ensures forall i :: 0 <= i < x.rows / n ==> Shard(x, n, SeqDim, r).cells[i] == x.cells[r * (x.rows / n) + i]
  {
    ChunkInRange(n, x.rows / n, r);
  }

  /** The block of a row shard's columns. */
  lemma ShardOfShard<T>(x: Tensor<T>, n: nat, r: nat, j: nat)
    requires x.Valid() && n > 0 && x.rows % n == 0 && x.cols % n == 0 && r < n && j < n
    ensures Shard(x, n, SeqDim, r).cols == x.cols && Shard(x, n, HeadDim, j).rows == x.rows
    ensures Shard(Shard(x, n, SeqDim, r), n, HeadDim, j) == Shard(Shard(x, n, HeadDim, j), n, SeqDim, r)
  {
    hide Shard;
    var size := x.rows / n;
    RowsOf(x, n, r);
    ShardSize(x, n, HeadDim, j);
    var a, b := Shard(Shard(x, n, SeqDim, r), n, HeadDim, j), Shard(Shard(x, n, HeadDim, j), n, SeqDim, r);
    ShardSize(Shard(x, n, SeqDim, r), n, HeadDim, j);
    RowsOf(Shard(x, n, HeadDim, j), n, r);
    forall i | 0 <= i < size ensures a.cells[i] == b.cells[i] {
      ColumnsOf(Shard(x, n, SeqDim, r), n, j, i);
      ColumnsOf(x, n, j, r * size + i);
    }
    assert a.cells == b.cells;
  }

  lemma ShardSize<T>(x: Tensor<T>, n: nat, dim: Dim, r: nat)
    requires x.Valid() && n > 0 && r < n && x.Size(dim) % n == 0
    ensures var s := Shard(x, n, dim, r);
      if dim == SeqDim then s.rows == x.rows / n && s.cols == x.cols else s.rows == x.rows && s.cols == x.cols / n
  {
  }

  lemma CatRowShards<T>(x: Tensor<T>, n: nat)
    requires x.Valid() && n > 0 && x.rows % n == 0
    ensures var shards := Shards(x, n, SeqDim);
      Alike(shards, x.rows / n, x.cols) && Cat(shards, SeqDim) == x
  {
    var shards, size := Shards(x, n, SeqDim), x.rows / n;
    ShardsAlike(x, n, SeqDim);
    assert n * size == x.rows;
    assert Rows(shards) == ChunksOf(x.cells, n, size);
    FlattenChunks(x.cells, n, size);
  }

  lemma RowFromShards<T>(x: Tensor<T>, n: nat, i: nat)
    requires x.Valid() && n > 0 && x.cols % n == 0 && i < x.rows && Alike(Shards(x, n, HeadDim), x.rows, x.cols / n)
    ensures Flatten(RowOfEach(Shards(x, n, HeadDim), x.rows, x.cols / n, i)) == x.cells[i]
  {
    var size := x.cols / n;
    assert n * size == x.cols;
    var pieces := RowOfEach(Shards(x, n, HeadDim), x.rows, size, i);
    forall j | 0 <= j < n ensures pieces[j] == Chunk(x.cells[i], n, size, j) {
      ColumnsOf(x, n, j, i);
    }
    assert pieces == ChunksOf(x.cells[i], n, size);
    FlattenChunks(x.cells[i], n, size);
  }

  lemma CatColumnShards<T>(x: Tensor<T>, n: nat)
    requires x.Valid() && n > 0 && x.cols % n == 0
    ensures var shards := Shards(x, n, HeadDim);
      Alike(shards, x.rows, x.cols / n) && Cat(shards, HeadDim) == x
  {
    hide Shards, RowOfEach;
    var shards := Shards(x, n, HeadDim);
    ShardsAlike(x, n, HeadDim);
    assert n * (x.cols / n) == x.cols;
    forall i | 0 <= i < x.rows
      ensures Flatten(RowOfEach(shards, x.rows, x.cols / n, i)) == x.cells[i]
    {
      RowFromShards(x, n, i);
    }
    assert Cat(shards, HeadDim).cells == x.cells;
  }

  lemma CatShards<T>(x: Tensor<T>, n: nat, dim: Dim)
    requires x.Valid() && n > 0 && x.Size(dim) % n == 0
    ensures var shards := Shards(x, n, dim);
      Alike(shards, shards[0].rows, shards[0].cols) && Cat(shards, dim) == x
  {
    hide Shards, Cat;
    if dim == SeqDim { CatRowShards(x, n); } else { CatColumnShards(x, n); }
  }

  /** The exchange turns the row shards of a tensor into its column shards, and back. */
  lemma ExchangeShards<T>(x: Tensor<T>, n: nat, scatter: Dim, gather: Dim)
    requires x.Valid() && n > 0 && x.rows % n == 0 && x.cols % n == 0 && scatter != gather
    ensures AllToAll(Shards(x, n, gather), scatter, gather) == Ok(Shards(x, n, scatter))
  {
    hide Shard, Cat, Piece;
    var locals := Shards(x, n, gather);
    ShardsAlike(x, n, gather);
    ShapesAgreeIff(locals, scatter, locals[0].rows, locals[0].cols);
    forall j | 0 <= j < n
      ensures Cat(Received(locals, scatter, j), gather) == Shard(x, n, scatter, j)
    {
      ShardsAlike(x, n, scatter);
      var target := Shards(x, n, scatter)[j];
      forall r | 0 <= r < n
        ensures Piece(locals[r], n, scatter, j) == Shard(target, n, gather, r)
      {
        PieceIsShard(locals[r], n, scatter, j);
        if gather == SeqDim { ShardOfShard(x, n, r, j); } else { ShardOfShard(x, n, j, r); }
      }
      assert Received(locals, scatter, j) == Shards(target, n, gather);
      CatShards(target, n, gather);
    }
    var result := AllToAll(locals, scatter, gather);
    assert result.value == Shards(x, n, scatter);
  }

  lemma CatSize<T>(locals: seq<Tensor<T>>, dim: Dim, rows: nat, cols: nat)
    requires locals != [] && Alike(locals, rows, cols)
    ensures var x, n := Cat(locals, dim), |locals|;
      x.Size(dim) % n == 0 && x.Size(dim) / n == if dim == SeqDim then rows else cols
  {
    var n := |locals|;
    var size := if dim == SeqDim then rows else cols;
    MultipleHasNoRemainder(size, n);
    assert size * n == n * size;
  }

  lemma RowShardOfCat<T>(locals: seq<Tensor<T>>, rows: nat, cols: nat, r: nat)
    requires Alike(locals, rows, cols) && r < |locals|
    requires Cat(locals, SeqDim).rows % |locals| == 0 && Cat(locals, SeqDim).rows / |locals| == rows
    ensures Shard(Cat(locals, SeqDim), |locals|, SeqDim, r) == locals[r]
  {
    ChunksFlatten(Rows(locals), rows);
    assert ChunksOf(Cat(locals, SeqDim).cells, |locals|, rows)[r] == locals[r].cells;
  }

  lemma ColumnShardOfCat<T>(locals: seq<Tensor<T>>, rows: nat, cols: nat, r: nat)
    requires Alike(locals, rows, cols) && r < |locals|
    requires Cat(locals, HeadDim).cols % |locals| == 0 && Cat(locals, HeadDim).cols / |locals| == cols
    ensures Shard(Cat(locals, HeadDim), |locals|, HeadDim, r) == locals[r]
  {
    hide Shard;
    var n, x := |locals|, Cat(locals, HeadDim);
    var shard := Shard(x, n, HeadDim, r);
    ShardSize(x, n, HeadDim, r);
    forall i | 0 <= i < rows ensures shard.cells[i] == locals[r].cells[i] {
      ColumnsOf(x, n, r, i);
      ChunksFlatten(RowOfEach(locals, rows, cols, i), cols);
      assert ChunksOf(x.cells[i], n, cols)[r] == locals[r].cells[i];
    }
    assert shard.cells == locals[r].cells;
  }

  /** Any tensors of one shape are the shards of their concatenation. */
  lemma ShardsOfCat<T>(locals: seq<Tensor<T>>, dim: Dim, rows: nat, cols: nat)
    requires locals != [] && Alike(locals, rows, cols)
    ensures var x := Cat(locals, dim);
      x.Size(dim) % |locals| == 0 && Shards(x, |locals|, dim) == locals
  {
    hide Cat, Shard;
    CatSize(locals, dim, rows, cols);
    forall r | 0 <= r < |locals| ensures Shard(Cat(locals, dim), |locals|, dim, r) == locals[r] {
      if dim == SeqDim { RowShardOfCat(locals, rows, cols, r); } else { ColumnShardOfCat(locals, rows, cols, r); }
    }
  }

  /**
   The exchange succeeds exactly when the scattered dimension divides evenly, and then the exchange with
   the dimensions swapped undoes it. That second exchange is what the backward pass of `SeqAllToAll` runs.
   */
  lemma AllToAllInverse<T>(locals: seq<Tensor<T>>, scatter: Dim, gather: Dim, rows: nat, cols: nat)
    requires locals != [] && Alike(locals, rows, cols) && scatter != gather
    ensures var r := AllToAll(locals, scatter, gather);
      (r.Ok? <==> (if scatter == SeqDim then rows else cols) % |locals| == 0) &&
      (r.Ok? ==> AllToAll(r.value, gather, scatter) == Ok(locals))
  {
    hide Cat, Shard, AllToAll, ShapesAgree;
    ShapesAgreeIff(locals, scatter, rows, cols);
    ExchangeOk(locals, scatter, gather);
    if (if scatter == SeqDim then rows else cols) % |locals| == 0 {
      var x, n := Cat(locals, gather), |locals|;
      ShardsOfCat(locals, gather, rows, cols);
      CatOther(locals, gather, rows, cols);
      ExchangeShards(x, n, scatter, gather);
      ExchangeShards(x, n, gather, scatter);
    }
  }

  lemma ExchangeOk<T>(locals: seq<Tensor<T>>, scatter: Dim, gather: Dim)
    requires AllValid(locals)
    ensures AllToAll(locals, scatter, gather).Ok? <==> ShapesAgree(locals, scatter)
  {
  }

  lemma CatOther<T>(locals: seq<Tensor<T>>, dim: Dim, rows: nat, cols: nat)
    requires locals != [] && Alike(locals, rows, cols)
    ensures dim == SeqDim ==> Cat(locals, dim).cols == cols
    ensures dim == HeadDim ==> Cat(locals, dim).rows == rows
  {
  }

  lemma CatRows<T>(locals: seq<Tensor<T>>, rows: nat, cols: nat)
    requires locals != [] && Alike(locals, rows, cols)
    ensures Cat(locals, SeqDim).rows == |locals| * rows && Cat(locals, SeqDim).cols == cols
    ensures Cat(locals, HeadDim).cols == |locals| * cols && Cat(locals, HeadDim).rows == rows
  {
  }

  /** The cell that column c of column shard j shares with row i of row shard q. */
  lemma CellOfShards<T>(x: Tensor<T>, n: nat, j: nat, q: nat, i: nat, c: nat, row: nat, col: nat)
    requires x.Valid() && n > 0 && x.rows % n == 0 && x.cols % n == 0 && j < n && q < n
    requires i < x.rows / n && c < x.cols / n && row == q * (x.rows / n) + i && col == j * (x.cols / n) + c
    ensures row < x.rows && col < x.cols
    ensures Shard(x, n, SeqDim, q).rows == x.rows / n && Shard(x, n, SeqDim, q).cols == x.cols
    ensures Shard(x, n, HeadDim, j).rows == x.rows && Shard(x, n, HeadDim, j).cols == x.cols / n
    ensures Shard(x, n, HeadDim, j).cells[row][c] == Shard(x, n, SeqDim, q).cells[i][col]
  {
    hide Shard;
    RowsOf(x, n, q);
    ColumnsOf(x, n, j, row);
  }

  /** Scattering the columns: rank j gets its block of columns of every rank's rows, one rank after the other. */
  lemma ScatterColumns<T>(locals: seq<Tensor<T>>, rows: nat, cols: nat, j: nat, q: nat, i: nat, c: nat, row: nat, col: nat)
    requires Alike(locals, rows, cols) && j < |locals| && q < |locals| && cols % |locals| == 0
    requires i < rows && c < cols / |locals| && row == q * rows + i && col == j * (cols / |locals|) + c
    ensures col < cols
    ensures var r := AllToAll(locals, HeadDim, SeqDim);
      r.Ok? && r.value[j].rows == |locals| * rows && r.value[j].cols == cols / |locals| &&
      row < r.value[j].rows && r.value[j].cells[row][c] == locals[q].cells[i][col]
  {
    hide AllToAll, Cat, Shard;
    var n, x := |locals|, Cat(locals, SeqDim);
    ShardsOfCat(locals, SeqDim, rows, cols);
    CatSize(locals, SeqDim, rows, cols);
    CatRows(locals, rows, cols);
    ExchangeShards(x, n, HeadDim, SeqDim);
    CellOfShards(x, n, j, q, i, c, row, col);
    assert Shards(x, n, SeqDim)[q] == locals[q];
  }

  /** Scattering the rows: rank j gets its block of rows of every rank's columns, one rank beside the other. */
  lemma ScatterRows<T>(locals: seq<Tensor<T>>, rows: nat, cols: nat, j: nat, q: nat, i: nat, c: nat, row: nat, col: nat)
    requires Alike(locals, rows, cols) && j < |locals| && q < |locals| && rows % |locals| == 0
    requires i < rows / |locals| && c < cols && row == j * (rows / |locals|) + i && col == q * cols + c
    ensures row < rows
    ensures var r := AllToAll(locals, SeqDim, HeadDim);
      r.Ok? && r.value[j].rows == rows / |locals| && r.value[j].cols == |locals| * cols &&
      col < r.value[j].cols && r.value[j].cells[i][col] == locals[q].cells[row][c]
  {
    hide AllToAll, Cat, Shard;
    var n, x := |locals|, Cat(locals, HeadDim);
    ShardsOfCat(locals, HeadDim, rows, cols);
    CatSize(locals, HeadDim, rows, cols);
    CatRows(locals, rows, cols);
    ExchangeShards(x, n, SeqDim, HeadDim);
    CellOfShards(x, n, q, j, i, c, row, col);
    assert Shards(x, n, HeadDim)[q] == locals[q];
  }

  // ---------- Gathering and scattering with padding ----------

  function PadRows<T>(x: Tensor<T>, p: nat, zero: T): Tensor<T> {
    Tensor(x.rows + p, x.cols, x.cells + seq(p, _ => seq(x.cols, _ => zero)))
  }

  /** The Python slice `[0:-p]`; for p == 0 it is empty. */
  function KeepBut(size: nat, p: int): (keep: nat)
    ensures keep <= size
  {
    if p > 0 then (if p < size then size - p else 0) else if -p < size then -p else size
  }

  function DropRows<T>(x: Tensor<T>, p: int): (r: Tensor<T>)
    requires x.Valid()
    ensures r.Valid()
  {
    Part(x, SeqDim, 0, KeepBut(x.rows, p))
  }

  /** `gather_seq_scatter_heads` on every rank. */
  function GatherSeqScatterHeads<T>(locals: seq<Tensor<T>>, unpadded: nat): (r: Result<seq<Tensor<T>>>)
    requires locals != [] && AllValid(locals)
    ensures r.Ok? ==> |r.value| == |locals| && AllValid(r.value)
  {
    var n := |locals|;
    var xs :- AllToAll(locals, HeadDim, SeqDim);
    Ok(if unpadded != 0 && unpadded % n != 0 then DropAll(xs, unpadded) else xs)
  }

  function DropAll<T>(xs: seq<Tensor<T>>, unpadded: nat): (r: seq<Tensor<T>>)
    requires AllValid(xs)
    ensures |r| == |xs| && AllValid(r)
  {
    seq(|xs|, i requires 0 <= i < |xs| => DropRows(xs[i], xs[i].rows - unpadded))
  }

  function Padded<T>(x: Tensor<T>, n: nat, zero: T): Tensor<T>
    requires n > 0
  {
    if x.rows % n != 0 then PadRows(x, n - x.rows % n, zero) else x
  }

  function PadAll<T>(locals: seq<Tensor<T>>, n: nat, zero: T): (r: seq<Tensor<T>>)
    requires n > 0 && AllValid(locals)
    ensures |r| == |locals| && AllValid(r)
  {
    seq(|locals|, i requires 0 <= i < |locals| => Padded(locals[i], n, zero))
  }

  /** `gather_heads_scatter_seq` on every rank. */
  function GatherHeadsScatterSeq<T>(locals: seq<Tensor<T>>, zero: T): (r: Result<seq<Tensor<T>>>)
    requires locals != [] && AllValid(locals)
    ensures r.Ok? ==> |r.value| == |locals| && AllValid(r.value)
  {
    AllToAll(PadAll(locals, |locals|, zero), SeqDim, HeadDim)
  }

  lemma ExchangeAlike<T>(locals: seq<Tensor<T>>, rows: nat, cols: nat)
    requires locals != [] && Alike(locals, rows, cols) && cols % |locals| == 0
    ensures var r := AllToAll(locals, HeadDim, SeqDim);
      r.Ok? && |r.value| == |locals| && Alike(r.value, |locals| * rows, cols / |locals|)
  {
    hide Shard, Shards, AllToAll, AllValid;
    var x := Cat(locals, SeqDim);
    ShardsOfCat(locals, SeqDim, rows, cols);
    CatOther(locals, SeqDim, rows, cols);
    ExchangeShards(x, |locals|, HeadDim, SeqDim);
    ShardsAlike(x, |locals|, HeadDim);
    ShardsCount(x, |locals|, HeadDim);
  }

  lemma ShardsCount<T>(x: Tensor<T>, n: nat, dim: Dim)
    requires x.Valid() && n > 0 && x.Size(dim) % n == 0
    ensures |Shards(x, n, dim)| == n
  {
  }

  /** Attention in the middle: gathering the sequence and scattering it again is the identity on every rank. */
  lemma SeqThenHeads<T>(locals: seq<Tensor<T>>, rows: nat, cols: nat, zero: T)
    requires locals != [] && Alike(locals, rows, cols) && cols % |locals| == 0
    ensures var mid := GatherSeqScatterHeads(locals, 0);
      mid.Ok? && GatherHeadsScatterSeq(mid.value, zero) == Ok(locals)
  {
    hide AllToAll;
    var n := |locals|;
    AllToAllInverse(locals, HeadDim, SeqDim, rows, cols);
    ExchangeAlike(locals, rows, cols);
    var mid := AllToAll(locals, HeadDim, SeqDim).value;
    MultipleHasNoRemainder(rows, n);
    assert rows * n == n * rows;
    NoPadding(mid, n, n * rows, cols / n, zero);
  }

  lemma PaddedShape<T>(locals: seq<Tensor<T>>, n: nat, rows: nat, cols: nat, zero: T)
    requires n > 0 && Alike(locals, rows, cols)
    ensures var more := if rows % n != 0 then n - rows % n else 0;
      Alike(PadAll(locals, n, zero), rows + more, cols) && (rows + more) % n == 0
  {
    if rows % n != 0 {
      assert rows == rows / n * n + rows % n;
      assert (rows / n + 1) * n == rows / n * n + n;
      MultipleHasNoRemainder(rows / n + 1, n);
    }
  }

  lemma ShareOfPadded(rows: nat, padded: nat, n: nat, share: nat)
    requires n > 0 && padded % n == 0 && rows <= padded < rows + n && rows <= n * share < rows + n
    ensures padded / n == share
  {
    var q := padded / n;
    assert padded == q * n && n * share == share * n;
    assert (q + 1) * n == q * n + n && (share + 1) * n == share * n + n;
    MulCancel(q, share + 1, n);
    MulCancel(share, q + 1, n);
  }

  lemma PaddedCell<T>(x: Tensor<T>, n: nat, zero: T, row: nat, c: nat)
    requires x.Valid() && n > 0 && c < x.cols && row < Padded(x, n, zero).rows
    ensures Padded(x, n, zero).Valid() && Padded(x, n, zero).cols == x.cols
    ensures Padded(x, n, zero).cells[row][c] == if row < x.rows then x.cells[row][c] else zero
  {
  }

  /** `gather_heads_scatter_seq` cell by cell: the rows are dealt out in equal shares, with zeros behind the last row. */
  lemma ScatterRowsPadded<T>(locals: seq<Tensor<T>>, rows: nat, cols: nat, zero: T, share: nat,
                             j: nat, q: nat, i: nat, c: nat, row: nat, col: nat)
    requires Alike(locals, rows, cols) && j < |locals| && q < |locals| && rows <= |locals| * share < rows + |locals|
    requires i < share && c < cols && row == j * share + i && col == q * cols + c
    ensures var r := GatherHeadsScatterSeq(locals, zero);
      r.Ok? && r.value[j].rows == share && r.value[j].cols == |locals| * cols && col < r.value[j].cols &&
      r.value[j].cells[i][col] == if row < rows then locals[q].cells[row][c] else zero
  {
    hide AllToAll, Padded;
    var n := |locals|;
    var padded := PadAll(locals, n, zero);
    PaddedShape(locals, n, rows, cols, zero);
    ShareOfPadded(rows, padded[0].rows, n, share);
    ScatterRows(padded, padded[0].rows, cols, j, q, i, c, row, col);
    PaddedCell(locals[q], n, zero, row, c);
  }

  /** In the other order, with the unpadded length given, it is the identity for every sequence length. */
  lemma HeadsThenSeq<T>(locals: seq<Tensor<T>>, rows: nat, cols: nat, zero: T)
    requires locals != [] && Alike(locals, rows, cols)
    ensures var mid := GatherHeadsScatterSeq(locals, zero);
      mid.Ok? && GatherSeqScatterHeads(mid.value, rows) == Ok(locals)
  {
    hide AllToAll, DropAll, PadAll;
    var n := |locals|;
    var padded := PadAll(locals, n, zero);
    var more := if rows % n != 0 then n - rows % n else 0;
    PaddedShape(locals, n, rows, cols, zero);
    AllToAllInverse(padded, SeqDim, HeadDim, rows + more, cols);
    var mid := AllToAll(padded, SeqDim, HeadDim).value;
    if more > 0 {
      DropUndoesPad(locals, n, rows, cols, zero);
    } else {
      NoPadding(locals, n, rows, cols, zero);
    }
  }

  lemma NoPadding<T>(locals: seq<Tensor<T>>, n: nat, rows: nat, cols: nat, zero: T)
    requires n > 0 && Alike(locals, rows, cols) && rows % n == 0
    ensures PadAll(locals, n, zero) == locals
  {
  }

  lemma DropUndoesPad<T>(locals: seq<Tensor<T>>, n: nat, rows: nat, cols: nat, zero: T)
    requires n > 0 && Alike(locals, rows, cols) && rows % n != 0
    ensures DropAll(PadAll(locals, n, zero), rows) == locals
  {
    forall i | 0 <= i < |locals| ensures DropAll(PadAll(locals, n, zero), rows)[i] == locals[i] {
      assert Padded(locals[i], n, zero).cells[..rows] == locals[i].cells;
    }
  }
}
