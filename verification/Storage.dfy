/** The content-addressed store as one caller sees it: `store`, `retrieve` and `exists` over the disk whose
    concurrent behaviour `StoreProtocol` describes. */
module Storage {
  import opened Prelude
  import opened Hashing
  import opened StoreProtocol

  datatype StorageError = InvalidHash | NotFound

  /** Every object is filed under the hash of its bytes. */
  ghost predicate FiledByHash(objects: map<string, Bytes>, hash: Hash) {
    forall h :: h in objects ==> hash(objects[h]) == h
  }

  function AfterStore(objects: map<string, Bytes>, data: Bytes, hash: Hash): map<string, Bytes> {
    if hash(data) in objects then objects else objects[hash(data) := data]
  }

  /** A name shorter than three characters has no path, hence no object. */
  predicate Findable(objects: map<string, Bytes>, h: string) {
    |h| >= 3 && h in objects
  }

  ghost function ObjectsOf(d: Disk): map<string, Bytes>
    requires LinksApart(d)
  {
    map h | h in d.objects :: d.inodes[d.objects[h]]
  }

  lemma WrittenTemp(d: Disk, h: string, data: Bytes)
    requires LinksApart(d) && h in d.temp
    ensures LinksApart(d.(inodes := d.inodes[d.temp[h] := data]))
    ensures ObjectsOf(d.(inodes := d.inodes[d.temp[h] := data])) == ObjectsOf(d)
  {
    var d' := d.(inodes := d.inodes[d.temp[h] := data]);
    assert d'.temp == d.temp && d'.objects == d.objects && |d'.inodes| == |d.inodes|;
  }

  lemma RenamedTemp(d: Disk, h: string)
    requires LinksApart(d) && h in d.temp
    ensures var d' := d.(objects := d.objects[h := d.temp[h]], temp := d.temp - {h});
            LinksApart(d') && ObjectsOf(d') == ObjectsOf(d)[h := d.inodes[d.temp[h]]]
  {
  }

  class StorageManager {
    const hash: Hash
    var disk: Disk

    ghost predicate Valid()
      reads this
    {
      LinksApart(disk)
    }

    ghost function Objects(): map<string, Bytes>
      reads this
      requires Valid()
    {
      ObjectsOf(disk)
    }

    constructor (hash: Hash)
      ensures Valid() && this.hash == hash && Objects() == map[]
    {
      this.hash := hash;
      disk := Disk([], map[], map[]);
    }

    /** Store bytes under their hash; an object that exists already is not written again. */
    method Store(data: Bytes) returns (h: string)
      requires Valid()
      modifies this
      ensures Valid()
      ensures h == hash(data) && Objects() == AfterStore(old(Objects()), data, hash)
    {
      h := hash(data);
      if h in disk.objects {
        return;
      }
      var fd := CreateTemp(h);
      WrittenTemp(disk, h, data);
      WriteAll(fd, data);
      RenamedTemp(disk, h);
      disk := disk.(objects := disk.objects[h := fd], temp := disk.temp - {h});
    }

    /** Create or truncate the temp file of a hash. */
    method CreateTemp(h: string) returns (fd: nat)
      requires Valid()
      modifies this
      ensures Valid() && Objects() == old(Objects())
      ensures h in disk.temp && disk.temp[h] == fd && disk.inodes[fd] == []
    {
      if h in disk.temp {
        fd := disk.temp[h];
        disk := disk.(inodes := disk.inodes[fd := []]);
      } else {
        fd := |disk.inodes|;
        disk := disk.(inodes := disk.inodes + [[]], temp := disk.temp[h := fd]);
      }
    }

    /** Write bytes to an empty open file, in pieces of any size; only that file changes. */
    method WriteAll(fd: nat, data: Bytes)
      requires fd < |disk.inodes| && disk.inodes[fd] == []
      modifies this
      ensures disk == old(disk).(inodes := old(disk).inodes[fd := data])
    {
      var offset := 0;
      assert disk.inodes == disk.inodes[fd := []];
      while offset < |data|
        invariant offset <= |data|
        invariant disk == old(disk).(inodes := old(disk).inodes[fd := data[..offset]])
      {
        var n :| 0 < n <= |data| - offset;
        assert Overwrite(data[..offset], offset, data[offset..offset + n]) == data[..offset + n];
        disk := disk.(inodes := disk.inodes[fd := Overwrite(disk.inodes[fd], offset, data[offset..offset + n])]);
        offset := offset + n;
      }
      assert data[..offset] == data;
    }

    method Retrieve(h: string) returns (r: Result<Bytes, StorageError>)
      requires Valid()
      ensures r.Ok? <==> Findable(Objects(), h)
      ensures r.Ok? ==> r.value == Objects()[h]
      ensures r.Err? ==> r.error == if |h| < 3 then InvalidHash else NotFound
    {
      if |h| < 3 {
        return Err(InvalidHash);
      }
      if h !in disk.objects {
        return Err(NotFound);
      }
      return Ok(disk.inodes[disk.objects[h]]);
    }

    method Exists(h: string) returns (r: bool)
      requires Valid()
      ensures r == Findable(Objects(), h)
    {
      return |h| >= 3 && h in disk.objects;
    }
  }

  lemma StoreKeepsFiling(objects: map<string, Bytes>, data: Bytes, hash: Hash)
    requires FiledByHash(objects, hash)
    ensures FiledByHash(AfterStore(objects, data, hash), hash)
    ensures forall h :: h in objects ==>
              h in AfterStore(objects, data, hash) && AfterStore(objects, data, hash)[h] == objects[h]
    ensures hash(data) in AfterStore(objects, data, hash)
    ensures forall h :: h in AfterStore(objects, data, hash) && h !in objects ==>
              h == hash(data) && AfterStore(objects, data, hash)[h] == data
  {
  }

  /** What is found under the hash of some bytes is those bytes, unless the two collide. */
  lemma FoundIsStored(objects: map<string, Bytes>, data: Bytes, hash: Hash, inputs: set<Bytes>)
    requires FiledByHash(objects, hash) && NoCollision(hash, inputs)
    requires hash(data) in objects && data in inputs && objects[hash(data)] in inputs
    ensures objects[hash(data)] == data
  {
    assert hash(objects[hash(data)]) == hash(data);
  }
}
