/** The client's side of a chunked upload, and what the whole exchange leaves in the store. */
module ChunkUpload {
  import opened Prelude
  import opened Hashing
  import opened Storage
  import opened Chunking
  import opened BlobApi

  /** After k chunks: nothing lost, nothing but pieces of the file added, the first k chunks offered. */
  ghost predicate Uploaded(start: map<string, Bytes>, objects: map<string, Bytes>, db: Db, pieces: set<Bytes>,
                           chunks: seq<ManifestChunk>, k: nat, hash: Hash) {
    && FiledByHash(objects, hash) && Extends(start, objects) && objects.Values <= start.Values + pieces
    && RowsBacked(objects, db)
    && forall j {:trigger chunks[j]} :: 0 <= j < k && j < |chunks| ==> Offered(objects, db, chunks[j].chunkHash)
  }

  ghost predicate AllOffered(objects: map<string, Bytes>, db: Db, chunks: seq<ManifestChunk>) {
    forall k {:trigger chunks[k]} :: 0 <= k < |chunks| ==> Offered(objects, db, chunks[k].chunkHash)
  }

  lemma OneMoreUploaded(start: map<string, Bytes>, before: map<string, Bytes>, db: Db, pieces: set<Bytes>,
                        chunks: seq<ManifestChunk>, k: nat, hash: Hash, piece: Bytes)
    requires Uploaded(start, before, db, pieces, chunks, k, hash) && k < |chunks| && piece in pieces
    requires chunks[k].chunkHash == hash(piece) && |hash(piece)| >= 3
    ensures Uploaded(start, AfterStore(before, piece, hash), WithChunk(db, hash(piece)), pieces, chunks, k + 1, hash)
  {
    OneMoreObject(before, piece, hash);
  }

  /** Where the upload loop stands: at chunk k, with the chunks of the rest of the file still to come. */
  ghost predicate AtChunk(bytes: Bytes, cursor: nat, size: nat, chunks: seq<ManifestChunk>, k: nat, hash: Hash)
    requires size > 0
  {
    && k <= |chunks| && cursor <= |bytes|
    && chunks[k..] == ChunksOf(bytes[cursor..], size, k, hash)
    && Pieces(bytes[cursor..], size) <= Pieces(bytes, size)
  }

  lemma NextChunk(bytes: Bytes, cursor: nat, size: nat, chunks: seq<ManifestChunk>, k: nat, hash: Hash)
    requires size > 0 && AtChunk(bytes, cursor, size, chunks, k, hash) && k < |chunks|
    ensures var end := Min(cursor + chunks[k].size, |bytes|);
            && cursor <= end && chunks[k].chunkHash == hash(bytes[cursor..end])
            && bytes[cursor..end] in Pieces(bytes, size)
            && AtChunk(bytes, end, size, chunks, k + 1, hash)
  {
    var rest, end := bytes[cursor..], Min(cursor + chunks[k].size, |bytes|);
    assert chunks[k..][0] == chunks[k] && chunks[k..][1..] == chunks[k + 1..];
    assert rest[..end - cursor] == bytes[cursor..end] && rest[end - cursor..] == bytes[end..];
  }

  /** Upload exactly the pieces whose hashes were reported missing. */
  method UploadMissing(server: BlobServer, bytes: Bytes, size: nat, chunks: seq<ManifestChunk>, missing: set<string>)
    requires server.Valid() && size > 0 && YieldsDigests(server.storage.hash)
    requires chunks == ChunksOf(bytes, size, 0, server.storage.hash)
    requires FiledByHash(server.Objects(), server.storage.hash)
    requires forall k {:trigger chunks[k]} :: 0 <= k < |chunks| ==>
               chunks[k].chunkHash in missing || Offered(server.Objects(), server.db, chunks[k].chunkHash)
    modifies server, server.storage
    ensures server.Valid() && SameManifests(old(server.db), server.db)
    ensures Uploaded(old(server.Objects()), server.Objects(), server.db, Pieces(bytes, size), chunks, |chunks|,
                     server.storage.hash)
    ensures (forall k {:trigger chunks[k]} :: 0 <= k < |chunks| ==> chunks[k].chunkHash !in missing) ==>
              server.Objects() == old(server.Objects()) && server.db == old(server.db)
  {
    ghost var start, pieces := server.Objects(), Pieces(bytes, size);
    ghost var hash := server.storage.hash;
    var cursor: nat := 0;
    assert bytes[0..] == bytes && chunks[0..] == chunks;
    for k := 0 to |chunks|
      invariant server.Valid() && AtChunk(bytes, cursor, size, chunks, k, hash)
      invariant Uploaded(start, server.Objects(), server.db, pieces, chunks, k, hash)
      invariant SameManifests(old(server.db), server.db)
      invariant forall j {:trigger chunks[j]} :: k <= j < |chunks| ==>
                  chunks[j].chunkHash in missing || Offered(server.Objects(), server.db, chunks[j].chunkHash)
      invariant (forall j {:trigger chunks[j]} :: 0 <= j < |chunks| ==> chunks[j].chunkHash !in missing) ==>
                  server.Objects() == start && server.db == old(server.db)
    {
      NextChunk(bytes, cursor, size, chunks, k, hash);
      var end := Min(cursor + chunks[k].size, |bytes|);
      if chunks[k].chunkHash in missing {
        assert IsDigest(server.storage.hash(bytes[cursor..end]));
        OneMoreUploaded(start, server.Objects(), server.db, pieces, chunks, k, hash, bytes[cursor..end]);
        OffersStay(server.Objects(), server.db, bytes[cursor..end], hash);
        var uploaded := server.UploadChunk(chunks[k].chunkHash, bytes[cursor..end]);
      }
      cursor := end;
    }
  }

  /** Uploading a chunk takes no offer back. */
  lemma OffersStay(objects: map<string, Bytes>, db: Db, piece: Bytes, hash: Hash)
    ensures forall h :: Offered(objects, db, h) ==>
              Offered(AfterStore(objects, piece, hash), WithChunk(db, hash(piece)), h)
  {
  }

  /** Chunk rows may have been added, manifest rows not. */
  ghost predicate SameManifests(db: Db, db': Db) {
    && (db.Some? <==> db'.Some?)
    && (db.Some? ==> db'.value.manifests == db.value.manifests && db.value.chunks <= db'.value.chunks)
  }

  ghost predicate Extends(objects: map<string, Bytes>, later: map<string, Bytes>) {
    forall h :: h in objects ==> h in later && later[h] == objects[h]
  }

  lemma OneMoreObject(objects: map<string, Bytes>, data: Bytes, hash: Hash)
    requires FiledByHash(objects, hash)
    ensures var later := AfterStore(objects, data, hash);
            FiledByHash(later, hash) && Extends(objects, later) && later.Values <= objects.Values + {data}
  {
  }

  /** Cut the file, ask what is missing, send it. */
  method SendChunks(server: BlobServer, bytes: Bytes, chunkSize: nat) returns (chunks: seq<ManifestChunk>)
    requires server.Valid() && FiledByHash(server.Objects(), server.storage.hash)
    requires YieldsDigests(server.storage.hash)
    modifies server, server.storage
    ensures chunks == ChunksOf(bytes, Max(chunkSize, MIN_CHUNK_SIZE), 0, server.storage.hash)
    ensures server.Valid() && SameManifests(old(server.db), server.db)
    ensures Uploaded(old(server.Objects()), server.Objects(), server.db, Pieces(bytes, Max(chunkSize, MIN_CHUNK_SIZE)),
                     chunks, |chunks|, server.storage.hash)
    ensures AllOffered(old(server.Objects()), old(server.db), chunks) ==>
              server.Objects() == old(server.Objects()) && server.db == old(server.db)
  {
    chunks := SplitFile(bytes, chunkSize, server.storage.hash);
    var missing := server.MissingChunks(HashesOf(chunks));
    ReportedOrOffered(server.Objects(), server.db, chunks, missing);
    UploadMissing(server, bytes, Max(chunkSize, MIN_CHUNK_SIZE), chunks, set h | h in missing);
  }

  lemma ReportedOrOffered(objects: map<string, Bytes>, db: Db, chunks: seq<ManifestChunk>, missing: seq<string>)
    requires forall h :: h in missing <==> h in HashesOf(chunks) && !Offered(objects, db, h)
    ensures forall k {:trigger chunks[k]} :: 0 <= k < |chunks| ==>
              (chunks[k].chunkHash in missing <==> !Offered(objects, db, chunks[k].chunkHash))
  {
    forall k | 0 <= k < |chunks|
      ensures chunks[k].chunkHash in missing <==> !Offered(objects, db, chunks[k].chunkHash)
    {
      assert HashesOf(chunks)[k] == chunks[k].chunkHash;
    }
  }

  // ---- the whole upload

  /** The manifest a file is uploaded with. */
  function ManifestOf(bytes: Bytes, chunkSize: nat, policy: string, fileMeta: string, hash: Hash): Manifest {
    Manifest(1, policy, ChunksOf(bytes, Max(chunkSize, MIN_CHUNK_SIZE), 0, hash), fileMeta)
  }

  lemma ChunksOfUpload(bytes: Bytes, chunkSize: nat, hash: Hash)
    ensures var size := if chunkSize < 65536 then 65536 else chunkSize;
            var chunks := ChunksOf(bytes, Max(chunkSize, MIN_CHUNK_SIZE), 0, hash);
            && |chunks| == (|bytes| + size - 1) / size
            && forall k :: 0 <= k < |chunks| ==> CoversItsBytes(bytes, size, 0, hash, chunks, k)
  {
    var size := Max(chunkSize, MIN_CHUNK_SIZE);
    assert size == if chunkSize < 65536 then 65536 else chunkSize;
    var chunks := ChunksOf(bytes, size, 0, hash);
    ChunkCount(bytes, size, 0, hash);
    forall k | 0 <= k < |chunks|
      ensures CoversItsBytes(bytes, size, 0, hash, chunks, k)
    {
      ChunksCoverTheFile(bytes, size, 0, hash, k);
    }
  }

  /** The manifest has version 1, the given policy and file data, and as many chunks as the file has stretches of the
      chunk size, which is at least 65536; they cover the file in order. */
  lemma ManifestDescribesTheFile(bytes: Bytes, chunkSize: nat, policy: string, fileMeta: string, hash: Hash)
    ensures var m := ManifestOf(bytes, chunkSize, policy, fileMeta, hash);
            var size := if chunkSize < 65536 then 65536 else chunkSize;
            && m == Manifest(1, policy, m.chunks, fileMeta)
            && |m.chunks| == (|bytes| + size - 1) / size
            && forall k :: 0 <= k < |m.chunks| ==> CoversItsBytes(bytes, size, 0, hash, m.chunks, k)
  {
    ChunksOfUpload(bytes, chunkSize, hash);
  }

  /** Every text that one upload hashes or finds in the store or the manifest table. */
  ghost function UploadInputs(objects: map<string, Bytes>, db: Db, bytes: Bytes, size: nat, m: Manifest,
                              encode: Encoder): set<Bytes>
    requires size > 0
  {
    objects.Values + Encodings(db, encode) + Pieces(bytes, size) + {encode(m), bytes}
  }

  /** What an upload may rely on: objects and manifest rows filed by hash, encodings that read back, and no
      collision among the texts involved. */
  ghost predicate Uploadable(objects: map<string, Bytes>, db: Db, bytes: Bytes, size: nat, m: Manifest,
                             encode: Encoder, decode: Decoder, hash: Hash)
    requires size > 0
  {
    && FiledByHash(objects, hash) && YieldsDigests(hash)
    && ManifestsFiled(db, encode, hash) && RowsReadBack(db, encode, decode) && ReadsBack(m, encode, decode)
    && NoCollision(hash, UploadInputs(objects, db, bytes, size, m, encode))
  }

  /** What the server holds once a manifest has been created: nothing lost, no text beyond the upload's, the
      manifest readable under its hash, and every chunk stored. */
  ghost predicate Registered(start: map<string, Bytes>, objects: map<string, Bytes>, db: Db, inputs: set<Bytes>,
                             m: Manifest, encode: Encoder, decode: Decoder, hash: Hash) {
    && FiledByHash(objects, hash) && Extends(start, objects) && objects.Values <= inputs
    && LoadManifest(objects, db, hash(encode(m)), decode) == Ok(m) && Findable(objects, hash(encode(m)))
    && AllStored(objects, m.chunks)
  }

  /** Cut the file, send what is missing, create the manifest. */
  method SendManifest(server: BlobServer, bytes: Bytes, chunkSize: nat, policy: string, fileMeta: string,
                      encode: Encoder, ghost decode: Decoder)
    returns (r: Result<Created, UploadError>)
    requires server.Valid()
    requires Uploadable(server.Objects(), server.db, bytes, Max(chunkSize, MIN_CHUNK_SIZE),
                        ManifestOf(bytes, chunkSize, policy, fileMeta, server.storage.hash),
                        encode, decode, server.storage.hash)
    modifies server, server.storage
    ensures server.Valid() && FiledByHash(server.Objects(), server.storage.hash)
    ensures Extends(old(server.Objects()), server.Objects())
    ensures ManifestsFiled(server.db, encode, server.storage.hash) && RowsReadBack(server.db, encode, decode)
    ensures bytes == [] ==>
              r == Err(Rejected(NoChunks)) && server.Objects() == old(server.Objects()) && server.db == old(server.db)
    ensures bytes != [] && Blank(policy) ==> r == Err(Rejected(BlankPolicy))
    ensures bytes != [] && !Blank(policy) ==>
              var m := ManifestOf(bytes, chunkSize, policy, fileMeta, server.storage.hash);
              var inputs := UploadInputs(old(server.Objects()), old(server.db), bytes,
                                         Max(chunkSize, MIN_CHUNK_SIZE), m, encode);
              && r.Ok? && r.value.manifestHash == server.storage.hash(encode(m))
              && Registered(old(server.Objects()), server.Objects(), server.db, inputs, m, encode, decode,
                            server.storage.hash)
  {
    ghost var size, hash := Max(chunkSize, MIN_CHUNK_SIZE), server.storage.hash;
    ghost var start, db0 := server.Objects(), server.db;
    ghost var m := ManifestOf(bytes, chunkSize, policy, fileMeta, hash);
    var chunks := SendChunks(server, bytes, chunkSize);
    ghost var uploaded, db1 := server.Objects(), server.db;
    ghost var stored: Manifest;
    r, stored := server.CreateManifest(Manifest(1, policy, chunks, fileMeta), encode);
    ManifestIsAccepted(uploaded, db1, bytes, size, hash, m, stored);
    ManifestIsStored(start, db0, uploaded, db1, bytes, size, m, encode, decode, hash);
    RowsStayFiled(db0, db1, m, encode, decode, hash);
  }

  lemma RowsStayFiled(db0: Db, db1: Db, m: Manifest, encode: Encoder, decode: Decoder, hash: Hash)
    requires ManifestsFiled(db0, encode, hash) && RowsReadBack(db0, encode, decode) && ReadsBack(m, encode, decode)
    requires SameManifests(db0, db1)
    ensures ManifestsFiled(db1, encode, hash) && RowsReadBack(db1, encode, decode)
    ensures var db := WithManifest(db1, hash(encode(m)), m);
            ManifestsFiled(db, encode, hash) && RowsReadBack(db, encode, decode)
  {
    CreateKeepsFiling(db1, m, encode, hash);
  }

  /** Upload a file: cut it, send what is missing, create the manifest and, unless only the manifest is
      wanted, compose. A non-empty file ends up in the store under its own hash, unchanged. An empty file is
      refused because its manifest has no chunks, and a blank chunk-size policy is refused. */
  method UploadBlob(server: BlobServer, bytes: Bytes, chunkSize: nat, policy: string, fileMeta: string,
                    manifestOnly: bool, encode: Encoder, decode: Decoder)
    returns (r: Result<Blob, UploadError>)
    requires server.Valid()
    requires Uploadable(server.Objects(), server.db, bytes, Max(chunkSize, MIN_CHUNK_SIZE),
                        ManifestOf(bytes, chunkSize, policy, fileMeta, server.storage.hash),
                        encode, decode, server.storage.hash)
    modifies server, server.storage
    ensures server.Valid() && FiledByHash(server.Objects(), server.storage.hash)
    ensures Extends(old(server.Objects()), server.Objects())
    ensures ManifestsFiled(server.db, encode, server.storage.hash) && RowsReadBack(server.db, encode, decode)
    ensures bytes == [] ==>
              r == Err(Rejected(NoChunks)) && server.Objects() == old(server.Objects()) && server.db == old(server.db)
    ensures bytes != [] && Blank(policy) ==> r == Err(Rejected(BlankPolicy))
    ensures bytes != [] && !Blank(policy) ==>
              var h := server.storage.hash(encode(ManifestOf(bytes, chunkSize, policy, fileMeta, server.storage.hash)));
              Findable(server.Objects(), h) && (manifestOnly ==> r == Ok(Blob(h, |bytes|)))
    ensures bytes != [] && !Blank(policy) && !manifestOnly ==>
              var h := server.storage.hash(bytes);
              && r == Ok(Blob(h, |bytes|))
              && Findable(server.Objects(), h) && server.Objects()[h] == bytes
  {
    ghost var size, start, hash := Max(chunkSize, MIN_CHUNK_SIZE), server.Objects(), server.storage.hash;
    ghost var m := ManifestOf(bytes, chunkSize, policy, fileMeta, hash);
    ghost var inputs := UploadInputs(start, server.db, bytes, size, m, encode);
    var created := SendManifest(server, bytes, chunkSize, policy, fileMeta, encode, decode);
    if created.Err? {
      return Err(created.error);
    }
    if manifestOnly {
      return Ok(Blob(created.value.manifestHash, |bytes|));
    }
    ManifestComposes(server.Objects(), server.db, bytes, size, m, encode, decode, hash, inputs);
    r := server.ComposeBlob(created.value.manifestHash, decode);
  }

  lemma ManifestIsAccepted(objects: map<string, Bytes>, db: Db, bytes: Bytes, size: nat, hash: Hash, m: Manifest,
                           stored: Manifest)
    requires size > 0 && m.chunks == ChunksOf(bytes, size, 0, hash)
    requires stored == m.(chunks := stored.chunks)
    requires DistinctIndices(m.chunks) ==> IsCanonical(m.chunks, stored.chunks)
    requires AllOffered(objects, db, m.chunks)
    ensures stored == m && DistinctIndices(m.chunks)
    ensures Rejection(objects, db, m, true, m.chunks) ==
            if bytes == [] then Some(NoChunks) else if Blank(m.policy) then Some(BlankPolicy) else None
  {
    ChunksAreCanonical(bytes, size, hash);
    CanonicalIsOrderFree(m.chunks, m.chunks, stored.chunks, m.chunks);
    NothingAbsent(objects, db, m.chunks);
  }

  lemma NothingAbsent(objects: map<string, Bytes>, db: Db, chunks: seq<ManifestChunk>)
    requires AllOffered(objects, db, chunks)
    ensures Absent(objects, db, HashesOf(chunks)) == []
  {
    AbsentAreTheAbsent(objects, db, HashesOf(chunks));
    forall h | h in HashesOf(chunks)
      ensures Offered(objects, db, h)
    {
      var k :| 0 <= k < |chunks| && HashesOf(chunks)[k] == h;
      assert chunks[k].chunkHash == h;
    }
    if Absent(objects, db, HashesOf(chunks)) != [] {
      SomeMember(Absent(objects, db, HashesOf(chunks)));
    }
  }

  /** After the manifest was created: the store and the table have it, and every chunk is stored. */
  lemma ManifestIsStored(start: map<string, Bytes>, db0: Db, uploaded: map<string, Bytes>, db1: Db, bytes: Bytes,
                         size: nat, m: Manifest, encode: Encoder, decode: Decoder, hash: Hash)
    requires size > 0 && Uploadable(start, db0, bytes, size, m, encode, decode, hash) && SameManifests(db0, db1)
    requires Uploaded(start, uploaded, db1, Pieces(bytes, size), m.chunks, |m.chunks|, hash)
    ensures var objects, db := AfterStore(uploaded, encode(m), hash), WithManifest(db1, hash(encode(m)), m);
            var inputs := UploadInputs(start, db0, bytes, size, m, encode);
            Registered(start, objects, db, inputs, m, encode, decode, hash)
  {
    var inputs := UploadInputs(start, db0, bytes, size, m, encode);
    var objects := AfterStore(uploaded, encode(m), hash);
    OneMoreObject(uploaded, encode(m), hash);
    assert IsDigest(hash(encode(m)));
    assert objects[hash(encode(m))] in objects.Values;
    FoundIsStored(objects, encode(m), hash, inputs);
    if db0.Some? && hash(encode(m)) in db0.value.manifests {
      RowIsTheManifest(db0, m, encode, decode, hash, inputs);
    }
    forall k | 0 <= k < |m.chunks|
      ensures Findable(objects, m.chunks[k].chunkHash)
    {
      OfferedIsFindable(uploaded, db1, m.chunks[k].chunkHash);
    }
  }

  lemma ManifestComposes(objects: map<string, Bytes>, db: Db, bytes: Bytes, size: nat, m: Manifest,
                         encode: Encoder, decode: Decoder, hash: Hash, inputs: set<Bytes>)
    requires size > 0 && m.chunks == ChunksOf(bytes, size, 0, hash)
    requires YieldsDigests(hash) && NoCollision(hash, inputs)
    requires FiledByHash(objects, hash) && objects.Values <= inputs && Pieces(bytes, size) <= inputs && bytes in inputs
    requires LoadManifest(objects, db, hash(encode(m)), decode) == Ok(m)
    requires AllStored(objects, m.chunks)
    ensures Composed(objects, m.chunks) == Ok(bytes)
    ensures var after := AfterStore(objects, bytes, hash);
            && Extends(objects, after) && FiledByHash(after, hash)
            && Findable(after, hash(bytes)) && after[hash(bytes)] == bytes
  {
    ChunksAreCanonical(bytes, size, hash);
    PermutedChunksCompose(objects, bytes, size, hash, m.chunks, m.chunks, inputs);
    OneMoreObject(objects, bytes, hash);
    assert IsDigest(hash(bytes));
    var after := AfterStore(objects, bytes, hash);
    assert after[hash(bytes)] in after.Values;
    FoundIsStored(after, bytes, hash, inputs);
  }
}
