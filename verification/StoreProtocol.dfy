/** Concurrent `store` calls over one file system. Each call checks for the object, opens (and so
    truncates) the temp file its hash names, writes it in pieces, and renames it to the object path;
    all calls for the same bytes share one temp path. The calls may be interleaved at every step. */
module StoreProtocol {
  import opened Hashing

  /** Where a call is. */
  datatype Stage = Checking | Opening | Writing | Renaming | Rechecking | CleaningUp | Returned | Failed

  datatype Call = Call(data: Bytes, stage: Stage, fd: nat, offset: nat)

  /** Paths lead to inodes; an open file keeps its inode whatever happens to the path. */
  datatype Disk = Disk(inodes: seq<Bytes>, temp: map<string, nat>, objects: map<string, nat>)

  datatype State = State(disk: Disk, calls: seq<Call>)

  function Zeros(n: nat): Bytes {
    seq(n, _ => '\0')
  }

  /** Writing at an offset past the end leaves a hole of zeros. */
  function Overwrite(content: Bytes, offset: nat, piece: Bytes): Bytes {
    (if offset <= |content| then content[..offset] else content + Zeros(offset - |content|))
    + piece
    + (if offset + |piece| < |content| then content[offset + |piece|..] else [])
  }

  function WithCall(s: State, i: nat, c: Call, d: Disk): State
    requires i < |s.calls|
  {
    State(d, s.calls[i := c])
  }

  /** The state after call i takes its next step; `n` is how many bytes a write moves. */
  function Act(s: State, i: nat, n: nat, hash: Hash): State
    requires CanAct(s, i, n)
  {
    var c, d := s.calls[i], s.disk;
    var h := hash(c.data);
    match c.stage
    case Checking =>
      WithCall(s, i, c.(stage := if h in d.objects then Returned else Opening), d)
    case Opening =>
      if h in d.temp && d.temp[h] < |d.inodes|
      then WithCall(s, i, c.(stage := Writing, fd := d.temp[h], offset := 0), d.(inodes := d.inodes[d.temp[h] := []]))
      else WithCall(s, i, c.(stage := Writing, fd := |d.inodes|, offset := 0),
                    d.(inodes := d.inodes + [[]], temp := d.temp[h := |d.inodes|]))
    case Writing =>
      if c.offset == |c.data| then WithCall(s, i, c.(stage := Renaming), d)
      else WithCall(s, i, c.(offset := c.offset + n),
                    d.(inodes := d.inodes[c.fd := Overwrite(d.inodes[c.fd], c.offset, c.data[c.offset..c.offset + n])]))
    case Renaming =>
      if h in d.temp
      then WithCall(s, i, c.(stage := Returned), d.(objects := d.objects[h := d.temp[h]], temp := d.temp - {h}))
      else WithCall(s, i, c.(stage := Rechecking), d)
    case Rechecking =>
      WithCall(s, i, c.(stage := if h in d.objects then CleaningUp else Failed), d)
    case CleaningUp =>
      WithCall(s, i, c.(stage := Returned), d.(temp := d.temp - {h}))
    case Returned => s
    case Failed => s
  }

  predicate Over(c: Call) {
    c.stage == Returned || c.stage == Failed
  }

  /** A call that is not over can act; a write moves at least one byte and at most what is left. */
  predicate CanAct(s: State, i: nat, n: nat) {
    && i < |s.calls| && !Over(s.calls[i])
    && (s.calls[i].stage == Writing ==>
          && s.calls[i].fd < |s.disk.inodes| && s.calls[i].offset <= |s.calls[i].data|
          && (s.calls[i].offset < |s.calls[i].data| ==> 0 < n <= |s.calls[i].data| - s.calls[i].offset))
  }

  ghost predicate Next(s: State, s': State, hash: Hash) {
    exists i: nat, n: nat :: CanAct(s, i, n) && s' == Act(s, i, n, hash)
  }

  ghost predicate StepsAt(states: seq<State>, k: nat, hash: Hash)
    requires 0 < k < |states|
  {
    Next(states[k - 1], states[k], hash)
  }

  ghost predicate IsRun(states: seq<State>, hash: Hash) {
    states != [] && forall k {:trigger StepsAt(states, k, hash)} :: 0 < k < |states| ==> StepsAt(states, k, hash)
  }

  // ---- what the disk may hold before the calls start

  /** Different paths lead to different inodes. */
  ghost predicate LinksApart(d: Disk) {
    && (forall h :: h in d.temp ==> d.temp[h] < |d.inodes|)
    && (forall h :: h in d.objects ==> d.objects[h] < |d.inodes|)
    && (forall h, g :: h in d.temp && g in d.temp && h != g ==> d.temp[h] != d.temp[g])
    && (forall h, g :: h in d.objects && g in d.objects && h != g ==> d.objects[h] != d.objects[g])
    && (forall h, g :: h in d.temp && g in d.objects ==> d.temp[h] != d.objects[g])
  }

  /** Objects that exist already are complete; temp files left by a crash may hold anything. */
  ghost predicate Startable(s: State, hash: Hash) {
    && LinksApart(s.disk)
    && (forall i :: 0 <= i < |s.calls| ==> s.calls[i].stage == Checking)
    && (forall i :: 0 <= i < |s.calls| && hash(s.calls[i].data) in s.disk.objects ==>
          s.disk.inodes[s.disk.objects[hash(s.calls[i].data)]] == s.calls[i].data)
    && (forall i, j :: 0 <= i < |s.calls| && 0 <= j < |s.calls| && hash(s.calls[i].data) == hash(s.calls[j].data) ==>
          s.calls[i].data == s.calls[j].data)
  }
}
