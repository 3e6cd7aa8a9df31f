/** The server's side of a chunked upload: the missing-chunk query, chunk upload, manifest creation and
    composition, over the file store and, when there is a database, the chunk and manifest tables. */
module BlobApi {
  import opened Prelude
  import opened Hashing
  import opened Storage
  import opened Sorting
  import opened Chunking
  import opened Merkle

  datatype Manifest = Manifest(version: nat, policy: string, chunks: seq<ManifestChunk>, fileMeta: string)

  /** The stored form of a manifest and its reader. */
  type Encoder = Manifest -> Bytes
  type Decoder = Bytes -> Option<Manifest>

  datatype UploadError =
    | HashTooShort | HashMismatch
    | Rejected(reason: ManifestError)
    | ManifestNotFound | ManifestUnreadable
    | NotComposed(cause: ComposeError)

  datatype Created = Created(manifestHash: string, merkleRoot: string, chunkCount: nat, isNew: bool)

  datatype Blob = Blob(hash: string, size: nat)

  /** The characters that trimming removes: those with the Unicode property White_Space. */
  predicate WhiteSpace(c: char) {
    || '\U{9}' <= c <= '\U{D}' || c in {' ', '\U{85}', '\U{A0}', '\U{1680}'}
    || '\U{2000}' <= c <= '\U{200A}' || c in {'\U{2028}', '\U{2029}', '\U{202F}', '\U{205F}', '\U{3000}'}
  }

  predicate Blank(s: string) {
    forall k :: 0 <= k < |s| ==> WhiteSpace(s[k])
  }

  /** The tables of a database: the hashes of uploaded chunks, and the manifests by hash. */
  datatype BlobTables = BlobTables(chunks: set<string>, manifests: map<string, Manifest>)

  type Db = Option<BlobTables>

  // ---- lists of hashes

  function Dedup(s: seq<string>): seq<string> {
    if |s| <= 1 then s
    else if s[0] == s[1] then Dedup(s[1..])
    else [s[0]] + Dedup(s[1..])
  }

  lemma FirstIsSmallest(s: seq<string>, x: string)
    requires SortedBy(TextLeq, s) && |s| > 1 && s[0] != s[1] && x in s[1..]
    ensures TextLeq(s[0], x) && x != s[0]
  {
    var k :| 0 <= k < |s[1..]| && s[1..][k] == x;
    assert TextLeq(s[1], x) || k == 0;
    TextTotal(s[0], s[1]);
    TextTotal(s[1], x);
  }

  lemma SmallestInFront(x: string, d: seq<string>)
    requires SortedBy(TextLeq, d) && NoDuplicates(d) && forall y :: y in d ==> TextLeq(x, y) && y != x
    ensures SortedBy(TextLeq, [x] + d) && NoDuplicates([x] + d)
  {
    assert forall k :: 0 <= k < |d| ==> d[k] in d;
  }

  lemma {:induction false} DedupOfSorted(s: seq<string>)
    requires SortedBy(TextLeq, s)
    ensures NoDuplicates(Dedup(s)) && SortedBy(TextLeq, Dedup(s))
    ensures forall x :: x in Dedup(s) <==> x in s
    ensures s != [] ==> Dedup(s) != [] && Dedup(s)[0] == s[0]
  {
    if |s| > 1 {
      DedupOfSorted(s[1..]);
      assert s == [s[0]] + s[1..];
      if s[0] != s[1] {
        forall x | x in s[1..]
          ensures TextLeq(s[0], x) && x != s[0]
        {
          FirstIsSmallest(s, x);
        }
        SmallestInFront(s[0], Dedup(s[1..]));
      }
    }
  }

  /** Whether the server counts a chunk as uploaded: the chunk table decides if there is one. */
  predicate Offered(objects: map<string, Bytes>, db: Db, h: string) {
    if db.Some? then h in db.value.chunks else Findable(objects, h)
  }

  /** The names of a list that the server lacks, in list order. */
  function Absent(objects: map<string, Bytes>, db: Db, names: seq<string>): seq<string> {
    if names == [] then []
    else Absent(objects, db, names[..|names| - 1]) + if Offered(objects, db, Last(names)) then [] else [Last(names)]
  }

  lemma {:induction false} AbsentAreTheAbsent(objects: map<string, Bytes>, db: Db, names: seq<string>)
    ensures forall h :: h in Absent(objects, db, names) <==> h in names && !Offered(objects, db, h)
  {
    if names != [] {
      var front := names[..|names| - 1];
      AbsentAreTheAbsent(objects, db, front);
      assert names == front + [Last(names)];
    }
  }

  lemma {:induction false} AbsentKeepsOrder(objects: map<string, Bytes>, db: Db, names: seq<string>)
    requires SortedBy(TextLeq, names) && NoDuplicates(names)
    ensures SortedBy(TextLeq, Absent(objects, db, names)) && NoDuplicates(Absent(objects, db, names))
  {
    if names != [] {
      var front := names[..|names| - 1];
      AbsentKeepsOrder(objects, db, front);
      AbsentAreTheAbsent(objects, db, front);
      var kept := Absent(objects, db, front);
      forall k | 0 <= k < |kept|
        ensures TextLeq(kept[k], Last(names)) && kept[k] != Last(names)
      {
        assert kept[k] in front;
        var j :| 0 <= j < |front| && front[j] == kept[k];
        assert names[j] == front[j];
      }
    }
  }

  lemma SortedUnique(hashes: seq<string>)
    ensures var u := Dedup(SortBy(TextLeq, hashes));
            SortedBy(TextLeq, u) && NoDuplicates(u) && forall h :: h in u <==> h in hashes
  {
    SortedTexts(hashes);
    DedupOfSorted(SortBy(TextLeq, hashes));
  }

  lemma SortedTexts(hashes: seq<string>)
    ensures SortedBy(TextLeq, SortBy(TextLeq, hashes))
    ensures forall h :: h in SortBy(TextLeq, hashes) <==> h in hashes
  {
    TextOrderIsTotal();
    SortByIsSorted(TextLeq, hashes);
    SameMembers(SortBy(TextLeq, hashes), hashes);
  }

  lemma SameMembers<T(!new)>(s: seq<T>, t: seq<T>)
    requires multiset(s) == multiset(t)
    ensures forall x :: x in s <==> x in t
  {
    forall x
      ensures x in s <==> x in t
    {
      assert x in s <==> x in multiset(s);
      assert x in t <==> x in multiset(t);
    }
  }

  function HashesOf(cs: seq<ManifestChunk>): seq<string> {
    seq(|cs|, k requires 0 <= k < |cs| => cs[k].chunkHash)
  }

  lemma SameMultisetSameLength<T>(s: seq<T>, t: seq<T>)
    requires multiset(s) == multiset(t)
    ensures |s| == |t|
  {
    assert |multiset(s)| == |s| && |multiset(t)| == |t|;
  }

  // ---- effects and answers

  /** What a request is rejected for, in the order of the checks. `listed` is its canonical chunk list. */
  function Rejection(objects: map<string, Bytes>, db: Db, request: Manifest, distinct: bool,
                     listed: seq<ManifestChunk>): Option<ManifestError>
  {
    if request.chunks == [] then Some(NoChunks)
    else if Blank(request.policy) then Some(BlankPolicy)
    else if !distinct then Some(DuplicateIndex)
    else if Absent(objects, db, HashesOf(listed)) != []
    then Some(ChunksMissing(Absent(objects, db, HashesOf(listed))))
    else None
  }

  function WithChunk(db: Db, h: string): Db {
    if db.Some? then Some(db.value.(chunks := db.value.chunks + {h})) else None
  }

  /** A manifest row that is there already is left alone. */
  function WithManifest(db: Db, h: string, m: Manifest): Db {
    if db.Some? && h !in db.value.manifests then Some(db.value.(manifests := db.value.manifests[h := m])) else db
  }

  /** The manifest table answers first, then the store. */
  function LoadManifest(objects: map<string, Bytes>, db: Db, h: string, decode: Decoder)
    : Result<Manifest, UploadError>
  {
    if db.Some? && h in db.value.manifests then Ok(db.value.manifests[h])
    else if !Findable(objects, h) then Err(ManifestNotFound)
    else if decode(objects[h]).None? then Err(ManifestUnreadable)
    else Ok(decode(objects[h]).value)
  }

  /** A manifest is refused, in this order, without chunks, for a policy of white space only, for a repeated index,
      and for chunks that the table, or without a database the store, lacks, which are then named; else accepted. */
  lemma RefusedFor(objects: map<string, Bytes>, db: Db, request: Manifest, listed: seq<ManifestChunk>)
    requires DistinctIndices(request.chunks) ==> IsCanonical(request.chunks, listed)
    ensures var refused := Rejection(objects, db, request, DistinctIndices(request.chunks), listed);
            var blank := forall k :: 0 <= k < |request.policy| ==> WhiteSpace(request.policy[k]);
            if request.chunks == [] then refused == Some(NoChunks)
            else if blank then refused == Some(BlankPolicy)
            else if !DistinctIndices(request.chunks) then refused == Some(DuplicateIndex)
            else if forall c :: c in request.chunks ==>
                      (if db.Some? then c.chunkHash in db.value.chunks
                       else |c.chunkHash| >= 3 && c.chunkHash in objects)
            then refused == None
            else refused.Some? && refused.value.ChunksMissing?
                 && forall h :: h in refused.value.hashes <==>
                      (exists c :: c in request.chunks && c.chunkHash == h) && !Offered(objects, db, h)
  {
    AbsentAreTheAbsent(objects, db, HashesOf(listed));
    if DistinctIndices(request.chunks) {
      SameMembers(listed, request.chunks);
      forall h
        ensures h in HashesOf(listed) <==> exists c :: c in request.chunks && c.chunkHash == h
      {
        HasHash(listed, h);
        assert forall c :: c in listed <==> c in request.chunks;
      }
      var absent := Absent(objects, db, HashesOf(listed));
      forall c | c in request.chunks
        ensures Offered(objects, db, c.chunkHash) <==> c.chunkHash !in absent
      {
        assert c.chunkHash in HashesOf(listed);
      }
      if absent != [] {
        SomeMember(absent);
      }
    }
  }

  lemma HasHash(cs: seq<ManifestChunk>, h: string)
    ensures h in HashesOf(cs) <==> exists c :: c in cs && c.chunkHash == h
  {
    if k :| 0 <= k < |cs| && HashesOf(cs)[k] == h {
      assert cs[k] in cs;
    }
    if c :| c in cs && c.chunkHash == h {
      var k :| 0 <= k < |cs| && cs[k] == c;
      assert HashesOf(cs)[k] == h;
    }
  }

  /** Every chunk that the table lists is in the store. */
  ghost predicate RowsBacked(objects: map<string, Bytes>, db: Db) {
    db.Some? ==> forall h :: h in db.value.chunks ==> Findable(objects, h)
  }

  lemma OfferedIsFindable(objects: map<string, Bytes>, db: Db, h: string)
    requires RowsBacked(objects, db) && Offered(objects, db, h)
    ensures Findable(objects, h)
  {
  }

  class BlobServer {
    const storage: StorageManager
    var db: Db

    ghost predicate Valid()
      reads this, storage
    {
      storage.Valid() && RowsBacked(storage.Objects(), db)
    }

    ghost function Objects(): map<string, Bytes>
      reads this, storage
      requires Valid()
    {
      storage.Objects()
    }

    constructor (storage: StorageManager, persisted: bool)
      requires storage.Valid()
      ensures Valid() && this.storage == storage && db == if persisted then Some(BlobTables({}, map[])) else None
    {
      this.storage := storage;
      db := if persisted then Some(BlobTables({}, map[])) else None;
    }

    /** Query the chunk table once, or ask the store for each name. */
    method FindAbsent(names: seq<string>) returns (missing: seq<string>)
      requires Valid()
      ensures missing == Absent(Objects(), db, names)
    {
      var existing := if db.Some? then set h | h in names && h in db.value.chunks else {};
      missing := [];
      for k := 0 to |names|
        invariant missing == Absent(Objects(), db, names[..k])
      {
        assert names[..k + 1][..k] == names[..k];
        var found: bool;
        if db.Some? {
          found := names[k] in existing;
        } else {
          found := storage.Exists(names[k]);
        }
        if !found {
          missing := missing + [names[k]];
        }
      }
      assert names[..|names|] == names;
    }

    /** Which of the hashes the server lacks: each once, in order, whatever repeats the request holds. */
    method MissingChunks(hashes: seq<string>) returns (missing: seq<string>)
      requires Valid()
      ensures SortedBy(TextLeq, missing) && NoDuplicates(missing)
      ensures forall h :: h in missing <==> h in hashes && !Offered(Objects(), db, h)
      ensures forall h :: h in missing <==>
                h in hashes && (if db.Some? then h !in db.value.chunks else |h| < 3 || h !in Objects())
    {
      if hashes == [] {
        return [];
      }
      var unique := SortBy(TextLeq, hashes);
      unique := Dedup(unique);
      SortedUnique(hashes);
      AbsentAreTheAbsent(Objects(), db, unique);
      AbsentKeepsOrder(Objects(), db, unique);
      missing := FindAbsent(unique);
    }

    /** A chunk is accepted only under the hash of its body; its row follows its object. */
    method UploadChunk(chunkHash: string, body: Bytes) returns (r: Result<bool, UploadError>)
      requires Valid()
      modifies this, storage
      ensures Valid()
      ensures |chunkHash| < 3 ==> r == Err(HashTooShort)
      ensures |chunkHash| >= 3 && storage.hash(body) != chunkHash ==> r == Err(HashMismatch)
      ensures |chunkHash| >= 3 && storage.hash(body) == chunkHash ==> r == Ok(chunkHash !in old(Objects()))
      ensures Objects() == if r.Ok? then AfterStore(old(Objects()), body, storage.hash) else old(Objects())
      ensures db == if r.Ok? then WithChunk(old(db), chunkHash) else old(db)
    {
      if |chunkHash| < 3 {
        return Err(HashTooShort);
      }
      if storage.hash(body) != chunkHash {
        return Err(HashMismatch);
      }
      var existed := storage.Exists(chunkHash);
      var stored := storage.Store(body);
      if db.Some? {
        db := Some(db.value.(chunks := db.value.chunks + {stored}));
      }
      return Ok(!existed);
    }

    /** Create a manifest: the request's chunks in index order, stored under the hash of its encoding. */
    method CreateManifest(request: Manifest, encode: Encoder)
      returns (r: Result<Created, UploadError>, ghost stored: Manifest)
      requires Valid()
      modifies this, storage
      ensures Valid()
      ensures stored == request.(chunks := stored.chunks)
      ensures DistinctIndices(request.chunks) ==> IsCanonical(request.chunks, stored.chunks)
      ensures
        var why := Rejection(old(Objects()), old(db), request, DistinctIndices(request.chunks), stored.chunks);
        if why.Some? then r == Err(Rejected(why.value)) && Objects() == old(Objects()) && db == old(db)
        else
          var h := storage.hash(encode(stored));
          && Objects() == AfterStore(old(Objects()), encode(stored), storage.hash)
          && db == WithManifest(old(db), h, stored)
          && r == Ok(Created(h, Root(stored.chunks, storage.hash), |request.chunks|,
                             !Findable(old(Objects()), h) || db != old(db)))
    {
      var sorted := CanonicalOrder(request.chunks);
      stored := request.(chunks := if sorted.Ok? then sorted.value else []);
      if request.chunks == [] {
        return Err(Rejected(NoChunks)), stored;
      }
      if Blank(request.policy) {
        return Err(Rejected(BlankPolicy)), stored;
      }
      if sorted.Err? {
        return Err(Rejected(sorted.error)), stored;
      }
      var chunks := sorted.value;
      var missing := FindAbsent(HashesOf(chunks));
      if missing != [] {
        return Err(Rejected(ChunksMissing(missing))), stored;
      }
      SameMultisetSameLength(chunks, request.chunks);
      var canonical := request.(chunks := chunks);
      var root, rounds := MerkleRoot(chunks, storage.hash);
      var existed := storage.Exists(storage.hash(encode(canonical)));
      var created := !existed;
      var manifestHash := storage.Store(encode(canonical));
      if db.Some? && manifestHash !in db.value.manifests {
        db := Some(db.value.(manifests := db.value.manifests[manifestHash := canonical]));
        assert manifestHash in db.value.manifests;
        created := true;
      }
      return Ok(Created(manifestHash, root, |chunks|, created)), stored;
    }

    /** Concatenate the listed chunks, stopping at the first that is missing or of another size. */
    method ComposeChunks(chunks: seq<ManifestChunk>) returns (r: Result<Bytes, ComposeError>)
      requires Valid()
      ensures r == Composed(Objects(), chunks)
    {
      var composed: Bytes := [];
      for k := 0 to |chunks|
        invariant Composed(Objects(), chunks[..k]) == Ok(composed)
      {
        assert chunks[..k + 1][..k] == chunks[..k];
        var bytes := storage.Retrieve(chunks[k].chunkHash);
        if bytes.Err? {
          ComposeStopsEarly(Objects(), chunks, k + 1);
          return Err(MissingChunk(chunks[k].chunkHash));
        }
        if |bytes.value| != chunks[k].size {
          ComposeStopsEarly(Objects(), chunks, k + 1);
          return Err(SizeMismatch(chunks[k].chunkHash, chunks[k].size, |bytes.value|));
        }
        composed := composed + bytes.value;
      }
      assert chunks[..|chunks|] == chunks;
      return Ok(composed);
    }

    /** Concatenate the chunks a manifest lists and store the result under its own hash. */
    method ComposeBlob(manifestHash: string, decode: Decoder) returns (r: Result<Blob, UploadError>)
      requires Valid()
      modifies this, storage
      ensures Valid() && db == old(db)
      ensures LoadManifest(old(Objects()), db, manifestHash, decode) ==
              if db.Some? && manifestHash in db.value.manifests then Ok(db.value.manifests[manifestHash])
              else if |manifestHash| < 3 || manifestHash !in old(Objects()) then Err(ManifestNotFound)
              else if decode(old(Objects())[manifestHash]).None? then Err(ManifestUnreadable)
              else Ok(decode(old(Objects())[manifestHash]).value)
      ensures
        var objects := old(Objects());
        match LoadManifest(objects, old(db), manifestHash, decode)
        case Err(e) => r == Err(e) && Objects() == objects
        case Ok(m) =>
          match Composed(objects, m.chunks)
          case Err(e) => r == Err(NotComposed(e)) && Objects() == objects
          case Ok(bytes) =>
            && r == Ok(Blob(storage.hash(bytes), |bytes|))
            && Objects() == AfterStore(objects, bytes, storage.hash)
    {
      var manifest: Manifest;
      if db.Some? && manifestHash in db.value.manifests {
        manifest := db.value.manifests[manifestHash];
      } else {
        var loaded := storage.Retrieve(manifestHash);
        if loaded.Err? {
          return Err(ManifestNotFound);
        }
        var decoded := decode(loaded.value);
        if decoded.None? {
          return Err(ManifestUnreadable);
        }
        manifest := decoded.value;
      }
      var composed := ComposeChunks(manifest.chunks);
      if composed.Err? {
        return Err(NotComposed(composed.error));
      }
      var h := storage.Store(composed.value);
      return Ok(Blob(h, |composed.value|));
    }
  }

  // ---- the manifest table

  /** Every manifest row is filed under the hash of its encoding. */
  ghost predicate ManifestsFiled(db: Db, encode: Encoder, hash: Hash) {
    db.Some? ==> forall h :: h in db.value.manifests ==> hash(encode(db.value.manifests[h])) == h
  }

  lemma CreateKeepsFiling(db: Db, m: Manifest, encode: Encoder, hash: Hash)
    requires ManifestsFiled(db, encode, hash)
    ensures ManifestsFiled(WithManifest(db, hash(encode(m)), m), encode, hash)
  {
  }

  ghost function Encodings(db: Db, encode: Encoder): set<Bytes> {
    if db.Some? then set m | m in db.value.manifests.Values :: encode(m) else {}
  }

  /** What a manifest was encoded to reads back as it. */
  ghost predicate ReadsBack(m: Manifest, encode: Encoder, decode: Decoder) {
    decode(encode(m)) == Some(m)
  }

  ghost predicate RowsReadBack(db: Db, encode: Encoder, decode: Decoder) {
    db.Some? ==> forall h :: h in db.value.manifests ==> ReadsBack(db.value.manifests[h], encode, decode)
  }

  /** The row under a manifest's hash, if there is one, is that manifest, unless encodings collide. */
  lemma RowIsTheManifest(db: Db, m: Manifest, encode: Encoder, decode: Decoder, hash: Hash, inputs: set<Bytes>)
    requires ManifestsFiled(db, encode, hash) && RowsReadBack(db, encode, decode) && ReadsBack(m, encode, decode)
    requires NoCollision(hash, inputs) && encode(m) in inputs && Encodings(db, encode) <= inputs
    requires db.Some? && hash(encode(m)) in db.value.manifests
    ensures db.value.manifests[hash(encode(m))] == m
  {
    var row := db.value.manifests[hash(encode(m))];
    assert row in db.value.manifests.Values;
    assert encode(row) in Encodings(db, encode);
  }
}
