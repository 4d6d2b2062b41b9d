/** Cutting a sequence into pieces of equal size, reading single pieces of it, and joining all of the pieces again. */
module Chunks {
  import opened Sequences
  import opened Arithmetic

  lemma ChunkInRange(n: nat, size: nat, c: nat)
    requires c < n
    ensures c * size + size == (c + 1) * size <= n * size
  {
    MulMonotone(c + 1, n, size);
  }

  function Chunk<T>(s: seq<T>, n: nat, size: nat, c: nat): (r: seq<T>)
    requires c < n && n * size <= |s|
    ensures |r| == size
  {
    ChunkInRange(n, size, c);
    s[c * size..c * size + size]
  }

  function ChunksOf<T>(s: seq<T>, n: nat, size: nat): (r: seq<seq<T>>)
    requires n * size <= |s|
    ensures |r| == n && forall c :: 0 <= c < n ==> r[c] == Chunk(s, n, size, c)
  {
    seq(n, c requires 0 <= c < n => Chunk(s, n, size, c))
  }

  lemma {:induction false} FlattenPrefixChunks<T>(s: seq<T>, n: nat, size: nat, c: nat)
    requires n * size <= |s| && c <= n
    ensures c * size <= |s| && Flatten(ChunksOf(s, n, size)[..c]) == s[..c * size]
  {
    if c > 0 {
      FlattenPrefixChunks(s, n, size, c - 1);
      ChunkInRange(n, size, c - 1);
      var chunks := ChunksOf(s, n, size);
      assert chunks[..c][..c - 1] == chunks[..c - 1];
      assert s[..c * size] == s[..(c - 1) * size] + Chunk(s, n, size, c - 1);
    }
  }

  /** Joining the chunks gives back what they cover. */
  lemma FlattenChunks<T>(s: seq<T>, n: nat, size: nat)
    requires n * size <= |s|
    ensures Flatten(ChunksOf(s, n, size)) == s[..n * size]
  {
    FlattenPrefixChunks(s, n, size, n);
    assert ChunksOf(s, n, size)[..n] == ChunksOf(s, n, size);
  }

  lemma {:induction false} FlattenSize<T>(pieces: seq<seq<T>>, size: nat)
    requires forall p :: p in pieces ==> |p| == size
    ensures |Flatten(pieces)| == |pieces| * size
  {
    if pieces != [] {
      var n := |pieces| - 1;
      assert pieces[n] in pieces;
      FlattenSize(pieces[..n], size);
      OneMore(n, size);
    }
  }

  lemma OneMore(n: nat, size: nat)
    ensures (n + 1) * size == n * size + size
  {
  }

  lemma ChunkOfPrefix<T>(prior: seq<T>, last: seq<T>, n: nat, size: nat, c: nat)
    requires |prior| == n * size && |last| == size && c < n
    ensures (n + 1) * size <= |prior + last| && Chunk(prior + last, n + 1, size, c) == Chunk(prior, n, size, c)
  {
    assert (n + 1) * size == n * size + size;
    ChunkInRange(n, size, c);
  }

  lemma LastChunk<T>(prior: seq<T>, last: seq<T>, n: nat, size: nat)
    requires |prior| == n * size && |last| == size
    ensures (n + 1) * size <= |prior + last| && Chunk(prior + last, n + 1, size, n) == last
  {
    assert (n + 1) * size == n * size + size;
  }

  /** Cutting what was joined from equal pieces gives the pieces. */
  lemma {:induction false} ChunksFlatten<T>(pieces: seq<seq<T>>, size: nat)
    requires forall p :: p in pieces ==> |p| == size
    ensures |Flatten(pieces)| == |pieces| * size
    ensures ChunksOf(Flatten(pieces), |pieces|, size) == pieces
  {
    hide Chunk;
    FlattenSize(pieces, size);
    if pieces != [] {
      var n := |pieces| - 1;
      var prior, last := Flatten(pieces[..n]), pieces[n];
      ChunksFlatten(pieces[..n], size);
      forall c | 0 <= c < n ensures Chunk(Flatten(pieces), n + 1, size, c) == pieces[c] {
        ChunkOfPrefix(prior, last, n, size, c);
        assert ChunksOf(prior, n, size)[c] == pieces[c];
      }
      LastChunk(prior, last, n, size);
    }
  }
}
