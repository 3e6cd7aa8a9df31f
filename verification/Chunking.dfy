/** Cutting a file into chunks, and what composing those chunks yields. */
module Chunking {
  import opened Prelude
  import opened Hashing
  import opened Storage
  import opened Sorting

  datatype ManifestChunk = ManifestChunk(i: nat, chunkHash: string, size: nat)

  const MIN_CHUNK_SIZE := 64 * 1024

  /** The chunks of some bytes, numbered from `index`. */
  function ChunksOf(bytes: Bytes, size: nat, index: nat, hash: Hash): seq<ManifestChunk>
    requires size > 0
  {
    if bytes == [] then []
    else
      var n := Min(size, |bytes|);
      [ManifestChunk(index, hash(bytes[..n]), n)] + ChunksOf(bytes[n..], size, index + 1, hash)
  }

  /** The chunks cut so far, followed by those of the rest of the file, are those of the whole file. */
  ghost predicate CutUpTo(bytes: Bytes, size: nat, hash: Hash, chunks: seq<ManifestChunk>, cursor: nat, index: nat)
    requires size > 0
  {
    cursor <= |bytes| && chunks + ChunksOf(bytes[cursor..], size, index, hash) == ChunksOf(bytes, size, 0, hash)
  }

  lemma CutNext(bytes: Bytes, size: nat, hash: Hash, chunks: seq<ManifestChunk>, cursor: nat, index: nat)
    requires size > 0 && CutUpTo(bytes, size, hash, chunks, cursor, index) && cursor < |bytes|
    ensures var end := Min(cursor + size, |bytes|);
            var next := ManifestChunk(index, hash(bytes[cursor..end]), end - cursor);
            CutUpTo(bytes, size, hash, chunks + [next], end, index + 1)
  {
    var end := Min(cursor + size, |bytes|);
    assert bytes[cursor..][..end - cursor] == bytes[cursor..end];
    assert bytes[cursor..][end - cursor..] == bytes[end..];
    var first := [ManifestChunk(index, hash(bytes[cursor..end]), end - cursor)];
    var rest := ChunksOf(bytes[end..], size, index + 1, hash);
    assert ChunksOf(bytes[cursor..], size, index, hash) == first + rest;
    assert (chunks + first) + rest == chunks + (first + rest);
  }

  lemma CutStart(bytes: Bytes, size: nat, hash: Hash)
    requires size > 0
    ensures CutUpTo(bytes, size, hash, [], 0, 0)
  {
    assert bytes[0..] == bytes;
  }

  lemma CutDone(bytes: Bytes, size: nat, hash: Hash, chunks: seq<ManifestChunk>, cursor: nat, index: nat)
    requires size > 0 && CutUpTo(bytes, size, hash, chunks, cursor, index) && cursor >= |bytes|
    ensures chunks == ChunksOf(bytes, size, 0, hash)
  {
    assert bytes[cursor..] == [];
  }

  /** The first loop of the upload: cut the file at multiples of the chunk size. */
  method SplitFile(bytes: Bytes, chunkSize: nat, hash: Hash) returns (chunks: seq<ManifestChunk>)
    ensures chunks == ChunksOf(bytes, Max(chunkSize, MIN_CHUNK_SIZE), 0, hash)
  {
    var size := Max(chunkSize, MIN_CHUNK_SIZE);
    chunks := [];
    var cursor, index := 0, 0;
    CutStart(bytes, size, hash);
    while cursor < |bytes|
      invariant CutUpTo(bytes, size, hash, chunks, cursor, index)
      decreases |bytes| - cursor
    {
      var end := Min(cursor + size, |bytes|);
      CutNext(bytes, size, hash, chunks, cursor, index);
      chunks := chunks + [ManifestChunk(index, hash(bytes[cursor..end]), end - cursor)];
      cursor, index := end, index + 1;
    }
    CutDone(bytes, size, hash, chunks, cursor, index);
  }

  /** Chunk k is numbered in order, starts at k times the chunk size, is full unless it is the last, and
      carries the hash and the length of exactly the bytes it covers. */
  ghost predicate CoversItsBytes(bytes: Bytes, size: nat, index: nat, hash: Hash, cs: seq<ManifestChunk>, k: nat)
    requires k < |cs|
  {
    && cs[k].i == index + k
    && 0 < cs[k].size <= size && (k < |cs| - 1 ==> cs[k].size == size)
    && k * size + cs[k].size <= |bytes| && (k == |cs| - 1 ==> k * size + cs[k].size == |bytes|)
    && cs[k].chunkHash == hash(bytes[k * size..k * size + cs[k].size])
  }

  lemma {:induction false} ChunksCoverTheFile(bytes: Bytes, size: nat, index: nat, hash: Hash, k: nat)
    requires size > 0 && k < |ChunksOf(bytes, size, index, hash)|
    ensures CoversItsBytes(bytes, size, index, hash, ChunksOf(bytes, size, index, hash), k)
  {
    var n := Min(size, |bytes|);
    if k == 0 {
      assert 0 * size == 0;
      assert bytes[0..n] == bytes[..n];
    } else {
      ChunksCoverTheFile(bytes[n..], size, index + 1, hash, k - 1);
      CoverShifts(bytes, size, index, hash, ChunksOf(bytes[n..], size, index + 1, hash), k - 1);
    }
  }

  lemma CoverShifts(bytes: Bytes, size: nat, index: nat, hash: Hash, rest: seq<ManifestChunk>, k: nat)
    requires 0 < size < |bytes| && k < |rest| && CoversItsBytes(bytes[size..], size, index + 1, hash, rest, k)
    ensures CoversItsBytes(bytes, size, index, hash, [ManifestChunk(index, hash(bytes[..size]), size)] + rest, k + 1)
  {
    var s := k * size;
    assert (k + 1) * size == size + s;
    assert bytes[size..][s..s + rest[k].size] == bytes[size + s..size + s + rest[k].size];
  }

  /** There are as many chunks as the file length divided by the chunk size, rounded up. */
  lemma {:induction false} ChunkCount(bytes: Bytes, size: nat, index: nat, hash: Hash)
    requires size > 0
    ensures |ChunksOf(bytes, size, index, hash)| == (|bytes| + size - 1) / size
  {
    if bytes == [] {
      assert (size - 1) / size == 0;
    } else {
      var n := Min(size, |bytes|);
      ChunkCount(bytes[n..], size, index + 1, hash);
      if |bytes| <= size {
        assert (|bytes| + size - 1) / size == 1 by {
          DividesOnce(|bytes| + size - 1, size);
        }
        assert (0 + size - 1) / size == 0;
      } else {
        DividesAfter(|bytes| - size + size - 1, size);
      }
    }
  }

  lemma DividesOnce(a: nat, b: nat)
    requires 0 < b <= a < 2 * b
    ensures a / b == 1
  {
  }

  lemma DividesAfter(a: nat, b: nat)
    requires 0 < b
    ensures (a + b) / b == a / b + 1
  {
    var q, r := a / b, a % b;
    assert a + b == b * (q + 1) + r;
    QuotientIsUnique(a + b, b, q + 1, r);
  }

  lemma Multiples(b: nat, d: int)
    ensures d >= 1 ==> b * d >= b
    ensures d <= -1 ==> b * d <= -1 * b
  {
  }

  lemma QuotientIsUnique(a: nat, b: nat, q: nat, r: nat)
    requires 0 <= r < b && a == b * q + r
    ensures a / b == q
  {
    var d := a / b - q;
    assert b * d == r - a % b;
    Multiples(b, d);
  }

  // ---- composing

  datatype ComposeError = MissingChunk(hash: string) | SizeMismatch(hash: string, declared: nat, actual: nat)

  /** What composing the chunks in order yields, or the first chunk that stops it. */
  function Composed(objects: map<string, Bytes>, chunks: seq<ManifestChunk>): Result<Bytes, ComposeError> {
    if chunks == [] then Ok([])
    else
      match Composed(objects, chunks[..|chunks| - 1])
      case Err(e) => Err(e)
      case Ok(front) =>
        var c := Last(chunks);
        if !Findable(objects, c.chunkHash) then Err(MissingChunk(c.chunkHash))
        else if |objects[c.chunkHash]| != c.size then Err(SizeMismatch(c.chunkHash, c.size, |objects[c.chunkHash]|))
        else Ok(front + objects[c.chunkHash])
  }

  predicate Fits(objects: map<string, Bytes>, c: ManifestChunk) {
    Findable(objects, c.chunkHash) && |objects[c.chunkHash]| == c.size
  }

  /** Composing succeeds exactly when every chunk is stored with its declared size. */
  lemma {:induction false} ComposedIffAllFit(objects: map<string, Bytes>, chunks: seq<ManifestChunk>)
    ensures Composed(objects, chunks).Ok? <==> forall k :: 0 <= k < |chunks| ==> Fits(objects, chunks[k])
  {
    if chunks != [] {
      var front := chunks[..|chunks| - 1];
      ComposedIffAllFit(objects, front);
      assert forall k :: 0 <= k < |front| ==> front[k] == chunks[k];
      assert Fits(objects, Last(chunks)) <==> Fits(objects, chunks[|chunks| - 1]);
    }
  }

  /** An error names the first chunk that is missing or has another size than declared. */
  lemma {:induction false} ComposeNamesFirstMisfit(objects: map<string, Bytes>, chunks: seq<ManifestChunk>)
    returns (k: nat)
    requires Composed(objects, chunks).Err?
    ensures k < |chunks| && !Fits(objects, chunks[k]) && forall j :: 0 <= j < k ==> Fits(objects, chunks[j])
    ensures Composed(objects, chunks).error ==
            var h := chunks[k].chunkHash;
            if !Findable(objects, h) then MissingChunk(h) else SizeMismatch(h, chunks[k].size, |objects[h]|)
  {
    var front := chunks[..|chunks| - 1];
    if Composed(objects, front).Err? {
      k := ComposeNamesFirstMisfit(objects, front);
      assert forall j :: 0 <= j <= k ==> front[j] == chunks[j];
    } else {
      k := |chunks| - 1;
      ComposedIffAllFit(objects, front);
      assert forall j :: 0 <= j < k ==> front[j] == chunks[j];
    }
  }

  lemma {:induction false} ComposeStopsEarly(objects: map<string, Bytes>, chunks: seq<ManifestChunk>, k: nat)
    requires k <= |chunks| && Composed(objects, chunks[..k]).Err?
    ensures Composed(objects, chunks) == Composed(objects, chunks[..k])
  {
    if k == |chunks| {
      assert chunks[..k] == chunks;
    } else {
      var front := chunks[..|chunks| - 1];
      assert front[..k] == chunks[..k];
      ComposeStopsEarly(objects, front, k);
    }
  }

  function Sizes(chunks: seq<ManifestChunk>): nat {
    if chunks == [] then 0 else Sizes(chunks[..|chunks| - 1]) + Last(chunks).size
  }

  /** Composed bytes are as long as the manifest declares. */
  lemma {:induction false} ComposedHasDeclaredSize(objects: map<string, Bytes>, chunks: seq<ManifestChunk>)
    requires Composed(objects, chunks).Ok?
    ensures |Composed(objects, chunks).value| == Sizes(chunks)
  {
    if chunks != [] {
      ComposedHasDeclaredSize(objects, chunks[..|chunks| - 1]);
    }
  }

  lemma {:induction false} ComposedConcat(objects: map<string, Bytes>, a: seq<ManifestChunk>, b: seq<ManifestChunk>)
    requires Composed(objects, a).Ok? && Composed(objects, b).Ok?
    ensures Composed(objects, a + b) == Ok(Composed(objects, a).value + Composed(objects, b).value)
  {
    if b == [] {
      assert a + b == a;
      assert Composed(objects, a).value + [] == Composed(objects, a).value;
    } else {
      assert (a + b)[..|a + b| - 1] == a + b[..|b| - 1];
      ComposedConcat(objects, a, b[..|b| - 1]);
      var x, y, z := Composed(objects, a).value, Composed(objects, b[..|b| - 1]).value, objects[Last(b).chunkHash];
      assert (x + y) + z == x + (y + z);
      assert Last(a + b) == Last(b);
    }
  }

  ghost predicate AllStored(objects: map<string, Bytes>, chunks: seq<ManifestChunk>) {
    forall k {:trigger chunks[k]} :: 0 <= k < |chunks| ==> Findable(objects, chunks[k].chunkHash)
  }

  /** Each piece of the file is what the store holds under the piece's hash. */
  ghost predicate HoldsPieces(objects: map<string, Bytes>, bytes: Bytes, size: nat, hash: Hash)
    requires size > 0
    decreases |bytes|
  {
    bytes != [] ==>
      var n := Min(size, |bytes|);
      && Findable(objects, hash(bytes[..n])) && objects[hash(bytes[..n])] == bytes[..n]
      && HoldsPieces(objects, bytes[n..], size, hash)
  }

  /** Composing the chunks of a file gives the file back. */
  lemma {:induction false} ChunksComposeToTheFile(objects: map<string, Bytes>, bytes: Bytes, size: nat, index: nat,
                                                  hash: Hash)
    requires size > 0 && HoldsPieces(objects, bytes, size, hash)
    ensures Composed(objects, ChunksOf(bytes, size, index, hash)) == Ok(bytes)
    decreases |bytes|
  {
    if bytes != [] {
      var n := Min(size, |bytes|);
      var first := ManifestChunk(index, hash(bytes[..n]), n);
      ChunksComposeToTheFile(objects, bytes[n..], size, index + 1, hash);
      assert [first][..0] == [];
      assert Composed(objects, [first]) == Ok([] + bytes[..n]);
      ComposedConcat(objects, [first], ChunksOf(bytes[n..], size, index + 1, hash));
      assert bytes == ([] + bytes[..n]) + bytes[n..];
    }
  }

  /** Every string a chunk of the file hashes. */
  function Pieces(bytes: Bytes, size: nat): set<Bytes>
    requires size > 0
    decreases |bytes|
  {
    if bytes == [] then {}
    else {bytes[..Min(size, |bytes|)]} + Pieces(bytes[Min(size, |bytes|)..], size)
  }

  /** If every chunk hash of the file is stored, every piece is, repeated pieces included. */
  lemma {:induction false} StoredChunksArePieces(objects: map<string, Bytes>, bytes: Bytes, size: nat, index: nat,
                                                 hash: Hash, inputs: set<Bytes>)
    requires size > 0 && FiledByHash(objects, hash) && NoCollision(hash, inputs)
    requires objects.Values <= inputs && Pieces(bytes, size) <= inputs
    requires AllStored(objects, ChunksOf(bytes, size, index, hash))
    ensures HoldsPieces(objects, bytes, size, hash)
    decreases |bytes|
  {
    if bytes != [] {
      var n := Min(size, |bytes|);
      var cs, rest := ChunksOf(bytes, size, index, hash), ChunksOf(bytes[n..], size, index + 1, hash);
      assert cs[0].chunkHash == hash(bytes[..n]);
      assert objects[hash(bytes[..n])] in objects.Values;
      FoundIsStored(objects, bytes[..n], hash, inputs);
      forall k | 0 <= k < |rest|
        ensures Findable(objects, rest[k].chunkHash)
      {
        assert cs[k + 1] == rest[k];
      }
      StoredChunksArePieces(objects, bytes[n..], size, index + 1, hash, inputs);
    }
  }

  // ---- the canonical order

  datatype ManifestError =
    | NoChunks | BlankPolicy | DuplicateIndex | ChunksMissing(hashes: seq<string>)

  predicate IndexLeq(a: ManifestChunk, b: ManifestChunk) {
    a.i <= b.i
  }

  ghost predicate DistinctIndices(cs: seq<ManifestChunk>) {
    forall j, k :: 0 <= j < k < |cs| ==> cs[j].i != cs[k].i
  }

  /** Sort by index, then compare neighbours. */
  method CanonicalOrder(chunks: seq<ManifestChunk>) returns (r: Result<seq<ManifestChunk>, ManifestError>)
    ensures r.Ok? <==> DistinctIndices(chunks)
    ensures r.Ok? ==> IsCanonical(chunks, r.value)
    ensures r.Err? ==> r.error == DuplicateIndex
  {
    IndexOrderIsTotal();
    SortByIsSorted(IndexLeq, chunks);
    var sorted := SortBy(IndexLeq, chunks);
    var w := 1;
    while w < |sorted|
      invariant 1 <= w
      invariant forall k :: 0 < k < w && k < |sorted| ==> sorted[k - 1].i != sorted[k].i
    {
      if sorted[w - 1].i == sorted[w].i {
        if DistinctIndices(chunks) {
          DistinctIsOrderFree(chunks, sorted);
        }
        return Err(DuplicateIndex);
      }
      w := w + 1;
    }
    NeighboursApart(sorted);
    DistinctIsOrderFree(sorted, chunks);
    return Ok(sorted);
  }

  /** The same chunks in strictly ascending index order. */
  ghost predicate IsCanonical(chunks: seq<ManifestChunk>, sorted: seq<ManifestChunk>) {
    multiset(sorted) == multiset(chunks) && StrictlySortedBy(IndexLeq, sorted)
  }

  lemma IndexOrderIsTotal()
    ensures TotalOrder(IndexLeq)
  {
  }

  lemma {:induction false} NeighboursApart(s: seq<ManifestChunk>)
    requires SortedBy(IndexLeq, s) && forall k :: 0 < k < |s| ==> s[k - 1].i != s[k].i
    ensures StrictlySortedBy(IndexLeq, s) && DistinctIndices(s)
  {
    forall j, k | 0 <= j < k < |s|
      ensures s[j].i < s[k].i
    {
      assert IndexLeq(s[j], s[k - 1]) || j == k - 1;
      assert IndexLeq(s[k - 1], s[k]);
    }
  }

  lemma TwoPlaces<T>(s: seq<T>, j: nat, k: nat)
    requires j < k < |s| && s[j] == s[k]
    ensures multiset(s)[s[j]] >= 2
  {
    assert s == s[..k] + s[k..];
    assert s[..k][j] == s[j] && s[k..][0] == s[j];
  }

  lemma {:induction false} PlacesOfTwo<T>(s: seq<T>, x: T) returns (j: nat, k: nat)
    requires multiset(s)[x] >= 2
    ensures j < k < |s| && s[j] == x && s[k] == x
  {
    assert s == [s[0]] + s[1..];
    if s[0] == x {
      assert x in multiset(s[1..]);
      var n :| 0 <= n < |s[1..]| && s[1..][n] == x;
      j, k := 0, n + 1;
    } else {
      var j', k' := PlacesOfTwo(s[1..], x);
      j, k := j' + 1, k' + 1;
    }
  }

  /** Whether the indices are distinct does not depend on the order of the chunks. */
  lemma DistinctIsOrderFree(a: seq<ManifestChunk>, b: seq<ManifestChunk>)
    requires DistinctIndices(a) && multiset(a) == multiset(b)
    ensures DistinctIndices(b)
  {
    forall j, k | 0 <= j < k < |b|
      ensures b[j].i != b[k].i
    {
      if b[j].i == b[k].i {
        assert b[j] in multiset(a) && b[k] in multiset(a);
        var m :| 0 <= m < |a| && a[m] == b[j];
        var n :| 0 <= n < |a| && a[n] == b[k];
        if b[j] == b[k] {
          TwoPlaces(b, j, k);
          var m', n' := PlacesOfTwo(a, b[j]);
        }
      }
    }
  }

  /** Two requests with the same chunks in any order have the same canonical list. */
  lemma CanonicalIsOrderFree(a: seq<ManifestChunk>, b: seq<ManifestChunk>, s: seq<ManifestChunk>, t: seq<ManifestChunk>)
    requires multiset(a) == multiset(b) && IsCanonical(a, s) && IsCanonical(b, t)
    ensures s == t
  {
    SortedIsUnique(IndexLeq, s, t);
  }

  /** However the chunks of a file are permuted in the request, the manifest lists them in file order, and
      composing it gives the file. The store may hold anything else as well. */
  lemma PermutedChunksCompose(objects: map<string, Bytes>, bytes: Bytes, size: nat, hash: Hash,
                              sent: seq<ManifestChunk>, listed: seq<ManifestChunk>, inputs: set<Bytes>)
    requires size > 0 && FiledByHash(objects, hash) && NoCollision(hash, inputs)
    requires objects.Values <= inputs && Pieces(bytes, size) <= inputs
    requires multiset(sent) == multiset(ChunksOf(bytes, size, 0, hash)) && IsCanonical(sent, listed)
    requires AllStored(objects, listed)
    ensures listed == ChunksOf(bytes, size, 0, hash)
    ensures Composed(objects, listed) == Ok(bytes)
  {
    var cs := ChunksOf(bytes, size, 0, hash);
    ChunksAreCanonical(bytes, size, hash);
    CanonicalIsOrderFree(sent, cs, listed, cs);
    StoredChunksArePieces(objects, bytes, size, 0, hash, inputs);
    ChunksComposeToTheFile(objects, bytes, size, 0, hash);
  }

  lemma ChunksAreCanonical(bytes: Bytes, size: nat, hash: Hash)
    requires size > 0
    ensures var cs := ChunksOf(bytes, size, 0, hash); DistinctIndices(cs) && IsCanonical(cs, cs)
  {
    var cs := ChunksOf(bytes, size, 0, hash);
    forall k | 0 <= k < |cs|
      ensures cs[k].i == k
    {
      ChunksCoverTheFile(bytes, size, 0, hash, k);
    }
  }
}
