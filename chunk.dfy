/** utils/chunk.py: split a list into consecutive slices of `chunk_size` items. */
module Chunking {
  import opened Slicing
  import opened Flattening

  /** The default chunk size, MapQuest's per-request limit of 100 locations. */
  const DefaultChunkSize: nat := 100

  /** `(len(full_list) + chunk_size - 1) // chunk_size`: the number of chunks. */
  function NumChunks(n: nat, size: nat): nat
    requires size > 0
  {
    (n + size - 1) / size
  }

  /** `[full_list[i*size:(i+1)*size] for i in range(NumChunks)]`. */
  function Chunk<T>(xs: seq<T>, size: nat := DefaultChunkSize): seq<seq<T>>
    requires size > 0
  {
    seq(NumChunks(|xs|, size), i requires 0 <= i < NumChunks(|xs|, size) => Slice(xs, i * size, (i + 1) * size))
  }

  /** The chunk count is the ceiling of n / size. */
  lemma ChunkCount(n: nat, size: nat)
    requires size > 0
    ensures NumChunks(n, size) * size >= n
    ensures n > 0 ==> (NumChunks(n, size) - 1) * size < n
    ensures n == 0 <==> NumChunks(n, size) == 0
  {
    var c := NumChunks(n, size);
    var r := (n + size - 1) % size;
    assert n + size - 1 == c * size + r;
    assert c * size - size == (c - 1) * size;
  }

  lemma MulMono(a: nat, b: nat, k: nat)
    requires a <= b
    ensures a * k <= b * k
  {
  }

  /** Chunking the empty list gives no chunks. */
  lemma ChunkEmpty<T>(xs: seq<T>, size: nat)
    requires size > 0 && xs == []
    ensures Chunk(xs, size) == []
  {
    ChunkCount(0, size);
  }

  /** Every chunk is non-empty and at most `size` long; all but the last are exactly `size` long. */
  lemma ChunkShape<T>(xs: seq<T>, size: nat, i: nat)
    requires size > 0 && i < |Chunk(xs, size)|
    ensures 0 < |Chunk(xs, size)[i]| <= size
    ensures i < |Chunk(xs, size)| - 1 ==> |Chunk(xs, size)[i]| == size
  {
    var n, c := |xs|, NumChunks(|xs|, size);
    ChunkCount(n, size);
    MulMono(i, c - 1, size);
    if i < c - 1 {
      MulMono(i + 1, c - 1, size);
    }
    assert (i + 1) * size == i * size + size;
  }

  /** The number of chunks is the ceiling of |xs| / size and the empty list gives []. */
  lemma ChunkLength<T>(xs: seq<T>, size: nat)
    requires size > 0
    ensures |Chunk(xs, size)| * size >= |xs|
    ensures |xs| > 0 ==> (|Chunk(xs, size)| - 1) * size < |xs|
    ensures xs == [] <==> Chunk(xs, size) == []
  {
    ChunkCount(|xs|, size);
  }

  /** A list no longer than `size` is a single chunk. */
  lemma ChunkSingle<T>(xs: seq<T>, size: nat)
    requires size > 0 && 0 < |xs| <= size
    ensures Chunk(xs, size) == [xs]
  {
    var c := NumChunks(|xs|, size);
    ChunkCount(|xs|, size);
    assert c == 1 by {
      if c >= 2 {
        MulMono(1, c - 1, size);
      }
    }
    assert Chunk(xs, size)[0] == Slice(xs, 0, size) == xs;
  }

  lemma NumChunksStep(n: nat, size: nat)
    requires size > 0 && n > size
    ensures NumChunks(n, size) == NumChunks(n - size, size) + 1
  {
    var a := n - size + size - 1;
    var q, r := a / size, a % size;
    assert a + size == (q + 1) * size + r;
    DivUnique(a + size, size, q + 1, r);
  }

  lemma DivUnique(a: nat, d: nat, q: nat, r: nat)
    requires d > 0 && r < d && a == q * d + r
    ensures a / d == q
  {
    var q', r' := a / d, a % d;
    assert (q - q') * d == r' - r;
    if q > q' {
      MulMono(1, q - q', d);
    } else if q < q' {
      MulMono(1, q' - q, d);
    }
  }

  /** Chunk i + 1 of a list is chunk i of the list without its first `size` items. */
  lemma ChunkOfRest<T>(xs: seq<T>, size: nat, i: nat)
    requires size > 0 && size < |xs| && i + 1 < NumChunks(|xs|, size)
    ensures Slice(xs[size..], i * size, (i + 1) * size) == Slice(xs, (i + 1) * size, (i + 2) * size)
  {
    assert i * size + size == (i + 1) * size;
    assert (i + 1) * size + size == (i + 2) * size;
    SliceOfSuffix(xs, size, i * size, (i + 1) * size);
  }

  /** A list longer than `size` is its first `size` items followed by the chunks of the rest. */
  lemma ChunkCons<T>(xs: seq<T>, size: nat)
    requires size > 0 && |xs| > size
    ensures Chunk(xs, size) == [xs[..size]] + Chunk(xs[size..], size)
  {
    var rest := xs[size..];
    NumChunksStep(|xs|, size);
    var lhs, rhs := Chunk(xs, size), [xs[..size]] + Chunk(rest, size);
    assert |lhs| == |rhs|;
    forall i | 0 <= i < |lhs|
      ensures lhs[i] == rhs[i]
    {
      if i > 0 {
        ChunkOfRest(xs, size, i - 1);
      }
    }
  }

  /** Concatenating the chunks gives back the input list: `flatten(chunk(xs, k)) == xs`. */
  lemma {:induction false} FlattenChunk<T>(xs: seq<T>, size: nat)
    requires size > 0
    ensures Flatten(Chunk(xs, size)) == xs
    decreases |xs|
  {
    if xs == [] {
      ChunkEmpty(xs, size);
    } else {
      if |xs| <= size {
        ChunkSingle(xs, size);
        FlattenSingleton(xs);
      } else {
        ChunkCons(xs, size);
        FlattenChunk(xs[size..], size);
        FlattenConcat([xs[..size]], Chunk(xs[size..], size));
        FlattenSingleton(xs[..size]);
      }
    }
  }
}
