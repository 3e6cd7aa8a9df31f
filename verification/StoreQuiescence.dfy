/** However the steps of concurrent `store` calls interleave, none of them fails, all of them end, and once
    they have, every object is there and complete. Not before: a call may return while its object is not. */
module StoreQuiescence {
  import opened Prelude
  import opened Hashing
  import opened StoreProtocol

  // ---- what is true of every byte of a linked file

  /** Some call still has the file open and will write byte k. */
  ghost predicate Covered(s: State, inode: nat, k: nat) {
    exists j :: 0 <= j < |s.calls| && s.calls[j].stage == Writing && s.calls[j].fd == inode && s.calls[j].offset <= k
  }

  ghost predicate ByteOk(s: State, inode: nat, data: Bytes, k: nat)
    requires inode < |s.disk.inodes| && k < |data|
  {
    (k < |s.disk.inodes[inode]| && s.disk.inodes[inode][k] == data[k]) || Covered(s, inode, k)
  }

  /** The file will be `data`: each byte is right already or still to be written. */
  ghost predicate Faithful(s: State, inode: nat, data: Bytes) {
    && inode < |s.disk.inodes| && |s.disk.inodes[inode]| <= |data|
    && forall k {:trigger ByteOk(s, inode, data, k)} :: 0 <= k < |data| ==> ByteOk(s, inode, data, k)
  }

  predicate HasOpened(c: Call) {
    c.stage == Writing || c.stage == Renaming
  }

  /** An open file that some path leads to is reached by the path of the call's own hash. */
  ghost predicate WritesItsOwn(d: Disk, fd: nat, h: string) {
    && (forall g :: g in d.temp && d.temp[g] == fd ==> g == h)
    && (forall g :: g in d.objects && d.objects[g] == fd ==> g == h)
  }

  ghost predicate CallOk(s: State, i: nat, hash: Hash)
    requires i < |s.calls|
  {
    var c, d := s.calls[i], s.disk;
    var h := hash(c.data);
    && c.stage != Failed
    && (h in d.objects ==> Faithful(s, d.objects[h], c.data))
    && (HasOpened(c) ==> h in d.temp || h in d.objects)
    && (HasOpened(c) && h in d.temp ==> Faithful(s, d.temp[h], c.data))
    && (c.stage == Writing ==> c.fd < |d.inodes| && c.offset <= |c.data| && WritesItsOwn(d, c.fd, h))
    && (c.stage == Rechecking || c.stage == CleaningUp || c.stage == Returned ==> h in d.objects)
  }

  /** Calls whose bytes have the same hash store the same bytes. */
  ghost predicate SameHashSameBytes(s: State, hash: Hash) {
    forall i, j :: 0 <= i < |s.calls| && 0 <= j < |s.calls| && hash(s.calls[i].data) == hash(s.calls[j].data) ==>
      s.calls[i].data == s.calls[j].data
  }

  ghost predicate Sound(s: State, hash: Hash) {
    && LinksApart(s.disk) && SameHashSameBytes(s, hash)
    && forall i {:trigger CallOk(s, i, hash)} :: 0 <= i < |s.calls| ==> CallOk(s, i, hash)
  }

  lemma StartableIsSound(s: State, hash: Hash)
    requires Startable(s, hash)
    ensures Sound(s, hash)
  {
    forall i | 0 <= i < |s.calls|
      ensures CallOk(s, i, hash)
    {
    }
  }

  // ---- how one step treats the files

  /** A step that leaves a file alone keeps it faithful, unless it ends the call's promise to write. */
  lemma OtherFilesStayFaithful(s: State, s': State, i: nat, inode: nat, data: Bytes)
    requires Faithful(s, inode, data)
    requires i < |s.calls| && |s'.calls| == |s.calls| && s'.calls == s.calls[i := s'.calls[i]]
    requires inode < |s'.disk.inodes| && s'.disk.inodes[inode] == s.disk.inodes[inode]
    requires s.calls[i].stage == Writing && s.calls[i].fd == inode ==> |data| <= s.calls[i].offset
    ensures Faithful(s', inode, data)
  {
    forall k | 0 <= k < |data|
      ensures ByteOk(s', inode, data, k)
    {
      assert ByteOk(s, inode, data, k);
      if Covered(s, inode, k) {
        var j :| 0 <= j < |s.calls| && s.calls[j].stage == Writing && s.calls[j].fd == inode && s.calls[j].offset <= k;
        assert s'.calls[j] == s.calls[j];
      }
    }
  }

  /** A file just opened, hence empty, is covered by the call that opened it. */
  lemma OpenedFileIsFaithful(s: State, i: nat, inode: nat, data: Bytes)
    requires i < |s.calls| && s.calls[i].stage == Writing && s.calls[i].fd == inode && s.calls[i].offset == 0
    requires inode < |s.disk.inodes| && s.disk.inodes[inode] == []
    ensures Faithful(s, inode, data)
  {
    forall k | 0 <= k < |data|
      ensures ByteOk(s, inode, data, k)
    {
      assert s.calls[i].offset <= k;
    }
  }

  lemma OverwriteAt(content: Bytes, offset: nat, piece: Bytes, k: nat)
    requires k < |Overwrite(content, offset, piece)|
    ensures |Overwrite(content, offset, piece)| == Max(|content|, offset + |piece|)
    ensures offset <= k < offset + |piece| ==> Overwrite(content, offset, piece)[k] == piece[k - offset]
    ensures k < |content| && !(offset <= k < offset + |piece|) ==> Overwrite(content, offset, piece)[k] == content[k]
    ensures |content| <= k < offset ==> Overwrite(content, offset, piece)[k] == '\0'
  {
  }

  /** A write settles the bytes it moves and leaves the others to the calls that still owe them. */
  lemma WrittenFileIsFaithful(s: State, s': State, i: nat, n: nat, data: Bytes)
    requires i < |s.calls| && s.calls[i].stage == Writing && s.calls[i].data == data
    requires Faithful(s, s.calls[i].fd, data) && 0 < n <= |data| - s.calls[i].offset
    requires s'.calls == s.calls[i := s.calls[i].(offset := s.calls[i].offset + n)]
    requires |s'.disk.inodes| == |s.disk.inodes|
    requires s'.disk.inodes[s.calls[i].fd] ==
             Overwrite(s.disk.inodes[s.calls[i].fd], s.calls[i].offset, data[s.calls[i].offset..s.calls[i].offset + n])
    ensures Faithful(s', s.calls[i].fd, data)
  {
    var fd, o := s.calls[i].fd, s.calls[i].offset;
    var before, after := s.disk.inodes[fd], s'.disk.inodes[fd];
    OverwriteAt(before, o, data[o..o + n], o);
    assert |after| <= |data|;
    forall k | 0 <= k < |data|
      ensures ByteOk(s', fd, data, k)
    {
      assert ByteOk(s, fd, data, k);
      if o <= k < o + n {
        OverwriteAt(before, o, data[o..o + n], k);
      } else if Covered(s, fd, k) {
        var j :| 0 <= j < |s.calls| && s.calls[j].stage == Writing && s.calls[j].fd == fd && s.calls[j].offset <= k;
        assert s'.calls[j].stage == Writing && s'.calls[j].fd == fd && s'.calls[j].offset <= k;
      } else {
        OverwriteAt(before, o, data[o..o + n], k);
      }
    }
  }

  // ---- every step keeps the invariant

  predicate QuietStep(c: Call) {
    c.stage != Opening && (c.stage == Writing ==> c.offset == |c.data|)
  }

  /** The files call p's hash led to are faithful after the step. */
  ghost predicate FilesOf(s: State, s': State, p: nat, hash: Hash)
    requires p < |s.calls|
  {
    var c, d := s.calls[p], s.disk;
    var h := hash(c.data);
    && (h in d.objects ==> Faithful(s', d.objects[h], c.data))
    && (HasOpened(c) && h in d.temp ==> Faithful(s', d.temp[h], c.data))
  }

  lemma QuietStepKeepsFiles(s: State, i: nat, n: nat, hash: Hash, p: nat)
    requires Sound(s, hash) && CanAct(s, i, n) && QuietStep(s.calls[i]) && p < |s.calls|
    ensures FilesOf(s, Act(s, i, n, hash), p, hash)
  {
    var s' := Act(s, i, n, hash);
    var c, h := s.calls[p], hash(s.calls[p].data);
    assert CallOk(s, i, hash) && CallOk(s, p, hash);
    if h in s.disk.objects {
      OtherFilesStayFaithful(s, s', i, s.disk.objects[h], c.data);
    }
    if HasOpened(c) && h in s.disk.temp {
      OtherFilesStayFaithful(s, s', i, s.disk.temp[h], c.data);
    }
  }

  lemma StepKeepsLinksApart(s: State, i: nat, n: nat, hash: Hash)
    requires LinksApart(s.disk) && CanAct(s, i, n)
    ensures LinksApart(Act(s, i, n, hash).disk)
  {
  }

  lemma StepKeepsData(s: State, i: nat, n: nat, hash: Hash)
    requires SameHashSameBytes(s, hash) && CanAct(s, i, n)
    ensures SameHashSameBytes(Act(s, i, n, hash), hash)
  {
    var s' := Act(s, i, n, hash);
    assert |s'.calls| == |s.calls| && forall p :: 0 <= p < |s.calls| ==> s'.calls[p].data == s.calls[p].data;
  }

  lemma StillDiskKeepsCall(s: State, i: nat, n: nat, hash: Hash, p: nat)
    requires CanAct(s, i, n) && QuietStep(s.calls[i]) && p < |s.calls|
    requires s.calls[i].stage != Renaming && s.calls[i].stage != CleaningUp
    requires CallOk(s, i, hash) && CallOk(s, p, hash)
    requires FilesOf(s, Act(s, i, n, hash), p, hash)
    ensures CallOk(Act(s, i, n, hash), p, hash)
  {
  }

  lemma RenameKeepsCall(s: State, i: nat, n: nat, hash: Hash, p: nat)
    requires CanAct(s, i, n) && s.calls[i].stage == Renaming && p < |s.calls|
    requires CallOk(s, i, hash) && CallOk(s, p, hash)
    requires hash(s.calls[i].data) == hash(s.calls[p].data) ==> s.calls[i].data == s.calls[p].data
    requires FilesOf(s, Act(s, i, n, hash), p, hash) && FilesOf(s, Act(s, i, n, hash), i, hash)
    ensures CallOk(Act(s, i, n, hash), p, hash)
  {
  }

  lemma CleanUpKeepsCall(s: State, i: nat, n: nat, hash: Hash, p: nat)
    requires CanAct(s, i, n) && s.calls[i].stage == CleaningUp && p < |s.calls|
    requires CallOk(s, i, hash) && CallOk(s, p, hash)
    requires FilesOf(s, Act(s, i, n, hash), p, hash)
    ensures CallOk(Act(s, i, n, hash), p, hash)
  {
  }

  /** Steps that change no file and no promise: all but open and write. */
  lemma QuietStepKeepsSound(s: State, i: nat, n: nat, hash: Hash)
    requires Sound(s, hash) && CanAct(s, i, n) && QuietStep(s.calls[i])
    ensures Sound(Act(s, i, n, hash), hash)
  {
    var s' := Act(s, i, n, hash);
    StepKeepsLinksApart(s, i, n, hash);
    StepKeepsData(s, i, n, hash);
    forall p | 0 <= p < |s'.calls|
      ensures CallOk(s', p, hash)
    {
      assert CallOk(s, i, hash) && CallOk(s, p, hash);
      QuietStepKeepsFiles(s, i, n, hash, p);
      QuietStepKeepsFiles(s, i, n, hash, i);
      if s.calls[i].stage == Renaming {
        RenameKeepsCall(s, i, n, hash, p);
      } else if s.calls[i].stage == CleaningUp {
        CleanUpKeepsCall(s, i, n, hash, p);
      } else {
        StillDiskKeepsCall(s, i, n, hash, p);
      }
    }
  }

  lemma OpenKeepsCall(s: State, i: nat, n: nat, hash: Hash, p: nat)
    requires Sound(s, hash) && CanAct(s, i, n) && s.calls[i].stage == Opening && p < |s.calls|
    ensures CallOk(Act(s, i, n, hash), p, hash)
  {
    var s' := Act(s, i, n, hash);
    var g := hash(s.calls[i].data);
    assert CallOk(s, i, hash) && CallOk(s, p, hash);
    var c, h := s.calls[p], hash(s.calls[p].data);
    assert s'.calls[p].data == c.data;
    OpenedFileIsFaithful(s', i, s'.disk.temp[g], s.calls[i].data);
    if h in s.disk.objects {
      OtherFilesStayFaithful(s, s', i, s.disk.objects[h], c.data);
    }
    if HasOpened(c) && h in s.disk.temp && h != g {
      OtherFilesStayFaithful(s, s', i, s.disk.temp[h], c.data);
    }
  }

  lemma OpenKeepsSound(s: State, i: nat, n: nat, hash: Hash)
    requires Sound(s, hash) && CanAct(s, i, n) && s.calls[i].stage == Opening
    ensures Sound(Act(s, i, n, hash), hash)
  {
    StepKeepsLinksApart(s, i, n, hash);
    StepKeepsData(s, i, n, hash);
    forall p | 0 <= p < |Act(s, i, n, hash).calls|
      ensures CallOk(Act(s, i, n, hash), p, hash)
    {
      OpenKeepsCall(s, i, n, hash, p);
    }
  }

  lemma WriteKeepsSound(s: State, i: nat, n: nat, hash: Hash)
    requires Sound(s, hash) && CanAct(s, i, n)
    requires s.calls[i].stage == Writing && s.calls[i].offset < |s.calls[i].data|
    ensures Sound(Act(s, i, n, hash), hash)
  {
    var s' := Act(s, i, n, hash);
    var fd := s.calls[i].fd;
    assert CallOk(s, i, hash);
    forall p | 0 <= p < |s'.calls|
      ensures CallOk(s', p, hash)
    {
      var c, h := s.calls[p], hash(s.calls[p].data);
      assert CallOk(s, p, hash);
      assert s'.calls[p].data == c.data;
      if h in s.disk.objects {
        LinkedFileStaysFaithful(s, i, n, hash, h, s.disk.objects[h], c.data);
      }
      if HasOpened(c) && h in s.disk.temp {
        LinkedFileStaysFaithful(s, i, n, hash, h, s.disk.temp[h], c.data);
      }
    }
  }

  lemma LinkedFileStaysFaithful(s: State, i: nat, n: nat, hash: Hash, h: string, inode: nat, data: Bytes)
    requires Sound(s, hash) && CanAct(s, i, n)
    requires s.calls[i].stage == Writing && s.calls[i].offset < |s.calls[i].data|
    requires (h in s.disk.objects && s.disk.objects[h] == inode) || (h in s.disk.temp && s.disk.temp[h] == inode)
    requires Faithful(s, inode, data)
    requires exists p :: 0 <= p < |s.calls| && s.calls[p].data == data && hash(data) == h
    ensures Faithful(Act(s, i, n, hash), inode, data)
  {
    var s' := Act(s, i, n, hash);
    assert CallOk(s, i, hash);
    if s.calls[i].fd == inode {
      assert hash(s.calls[i].data) == h;
      WrittenFileIsFaithful(s, s', i, n, data);
    } else {
      OtherFilesStayFaithful(s, s', i, inode, data);
    }
  }

  lemma StepKeepsSound(s: State, s': State, hash: Hash)
    requires Sound(s, hash) && Next(s, s', hash)
    ensures Sound(s', hash)
  {
    var i: nat, n: nat :| CanAct(s, i, n) && s' == Act(s, i, n, hash);
    if s.calls[i].stage == Opening {
      OpenKeepsSound(s, i, n, hash);
    } else if s.calls[i].stage == Writing && s.calls[i].offset < |s.calls[i].data| {
      WriteKeepsSound(s, i, n, hash);
    } else {
      QuietStepKeepsSound(s, i, n, hash);
    }
  }

  lemma FrontIsRun(states: seq<State>, hash: Hash)
    requires IsRun(states, hash) && |states| > 1
    ensures IsRun(states[..|states| - 1], hash)
    ensures Next(states[|states| - 2], states[|states| - 1], hash)
  {
    var front := states[..|states| - 1];
    forall k | 0 < k < |front|
      ensures StepsAt(front, k, hash)
    {
      assert StepsAt(states, k, hash);
    }
    assert StepsAt(states, |states| - 1, hash);
  }

  lemma {:induction false} RunKeepsSound(states: seq<State>, hash: Hash)
    requires IsRun(states, hash) && Startable(states[0], hash)
    ensures Sound(Last(states), hash)
  {
    if |states| == 1 {
      StartableIsSound(states[0], hash);
    } else {
      var front := states[..|states| - 1];
      FrontIsRun(states, hash);
      RunKeepsSound(front, hash);
      StepKeepsSound(Last(front), Last(states), hash);
    }
  }

  // ---- every run ends

  /** Steps a call may still take, if every write moves one byte. */
  function Left(c: Call): nat {
    match c.stage
    case Checking => |c.data| + 6
    case Opening => |c.data| + 5
    case Writing => (if c.offset <= |c.data| then |c.data| - c.offset else 0) + 4
    case Renaming => 3
    case Rechecking => 2
    case CleaningUp => 1
    case Returned => 0
    case Failed => 0
  }

  function Work(calls: seq<Call>): nat {
    if calls == [] then 0 else Left(calls[0]) + Work(calls[1..])
  }

  lemma {:induction false} WorkAfterOne(calls: seq<Call>, i: nat, c: Call)
    requires i < |calls|
    ensures Work(calls[i := c]) == Work(calls) - Left(calls[i]) + Left(c)
  {
    if i == 0 {
      assert calls[i := c][1..] == calls[1..];
    } else {
      assert calls[i := c][1..] == calls[1..][i - 1 := c];
      WorkAfterOne(calls[1..], i - 1, c);
    }
  }

  lemma ActLeavesLess(s: State, i: nat, n: nat, hash: Hash)
    requires CanAct(s, i, n)
    ensures var s' := Act(s, i, n, hash);
            |s'.calls| == |s.calls| && s'.calls == s.calls[i := s'.calls[i]] && Left(s'.calls[i]) < Left(s.calls[i])
  {
  }

  lemma StepLeavesLess(s: State, s': State, hash: Hash)
    requires Next(s, s', hash)
    ensures Work(s'.calls) < Work(s.calls)
  {
    var i: nat, n: nat :| CanAct(s, i, n) && s' == Act(s, i, n, hash);
    WorkAfterOne(s.calls, i, s'.calls[i]);
    ActLeavesLess(s, i, n, hash);
  }

  lemma {:induction false} RunsAreShort(states: seq<State>, hash: Hash)
    requires IsRun(states, hash)
    ensures |states| - 1 + Work(Last(states).calls) <= Work(states[0].calls)
  {
    if |states| > 1 {
      var front := states[..|states| - 1];
      FrontIsRun(states, hash);
      RunsAreShort(front, hash);
      StepLeavesLess(Last(front), Last(states), hash);
    }
  }

  // ---- the main result

  ghost predicate CanGoOn(s: State, hash: Hash) {
    exists s' :: Next(s, s', hash)
  }

  /** Every call has returned, and `retrieve` of its hash yields its bytes. */
  ghost predicate EveryCallStored(s: State, hash: Hash) {
    forall i {:trigger s.calls[i]} :: 0 <= i < |s.calls| ==>
      && s.calls[i].stage == Returned
      && Retrieve(s.disk, hash(s.calls[i].data)) == Some(s.calls[i].data)
  }

  function Retrieve(d: Disk, h: string): Option<Bytes> {
    if h in d.objects && d.objects[h] < |d.inodes| then Some(d.inodes[d.objects[h]]) else None
  }

  lemma LiveCallCanAct(s: State, i: nat, hash: Hash)
    requires Sound(s, hash) && i < |s.calls| && !Over(s.calls[i])
    ensures CanGoOn(s, hash)
  {
    assert CallOk(s, i, hash);
    assert CanAct(s, i, 1);
    assert Next(s, Act(s, i, 1, hash), hash);
  }

  lemma QuietMeansStored(s: State, hash: Hash)
    requires Sound(s, hash) && forall i :: 0 <= i < |s.calls| ==> Over(s.calls[i])
    ensures EveryCallStored(s, hash)
  {
    forall i | 0 <= i < |s.calls|
      ensures s.calls[i].stage == Returned && Retrieve(s.disk, hash(s.calls[i].data)) == Some(s.calls[i].data)
    {
      assert CallOk(s, i, hash);
      UnwrittenObjectIsComplete(s, i, hash);
    }
  }

  /** Any interleaving of any calls takes boundedly many steps, no call ever fails, and a state in which
      nothing more can happen is one in which every object is present and equals its bytes. */
  lemma StoresEndWell(states: seq<State>, hash: Hash)
    requires IsRun(states, hash) && Startable(states[0], hash)
    ensures |states| - 1 <= Work(states[0].calls)
    ensures forall i :: 0 <= i < |Last(states).calls| ==> Last(states).calls[i].stage != Failed
    ensures CanGoOn(Last(states), hash) || EveryCallStored(Last(states), hash)
  {
    RunsAreShort(states, hash);
    RunKeepsSound(states, hash);
    var s := Last(states);
    forall i | 0 <= i < |s.calls|
      ensures s.calls[i].stage != Failed
    {
      assert CallOk(s, i, hash);
    }
    if i :| 0 <= i < |s.calls| && !Over(s.calls[i]) {
      LiveCallCanAct(s, i, hash);
    } else {
      QuietMeansStored(s, hash);
    }
  }

  // ---- one hash at a time

  lemma UnwrittenObjectIsComplete(s: State, i: nat, hash: Hash)
    requires Sound(s, hash) && i < |s.calls|
    requires var h := hash(s.calls[i].data);
             h in s.disk.objects && forall j :: 0 <= j < |s.calls| && s.calls[j].stage == Writing ==>
               s.calls[j].fd != s.disk.objects[h]
    ensures Retrieve(s.disk, hash(s.calls[i].data)) == Some(s.calls[i].data)
  {
    var data := s.calls[i].data;
    assert CallOk(s, i, hash);
    var inode := s.disk.objects[hash(data)];
    forall k | 0 <= k < |data|
      ensures k < |s.disk.inodes[inode]| && s.disk.inodes[inode][k] == data[k]
    {
      assert ByteOk(s, inode, data, k);
    }
    if data != [] {
      assert ByteOk(s, inode, data, |data| - 1);
    }
    assert s.disk.inodes[inode] == data;
  }

  lemma WriterHasTheHash(s: State, j: nat, h: string, hash: Hash)
    requires Sound(s, hash) && j < |s.calls| && s.calls[j].stage == Writing
    requires h in s.disk.objects && s.calls[j].fd == s.disk.objects[h]
    ensures hash(s.calls[j].data) == h
  {
    assert CallOk(s, j, hash);
  }

  /** Once every call with the hash of call i is over, call i has returned and `retrieve` of the hash yields
      its bytes, whatever calls for other bytes still do. */
  lemma HashIsSettled(states: seq<State>, i: nat, hash: Hash)
    requires IsRun(states, hash) && Startable(states[0], hash) && i < |Last(states).calls|
    requires var s := Last(states);
             forall j :: 0 <= j < |s.calls| && hash(s.calls[j].data) == hash(s.calls[i].data) ==> Over(s.calls[j])
    ensures Last(states).calls[i].stage == Returned
    ensures Retrieve(Last(states).disk, hash(Last(states).calls[i].data)) == Some(Last(states).calls[i].data)
  {
    var s := Last(states);
    RunKeepsSound(states, hash);
    assert CallOk(s, i, hash);
    var h := hash(s.calls[i].data);
    forall j | 0 <= j < |s.calls| && s.calls[j].stage == Writing
      ensures s.calls[j].fd != s.disk.objects[h]
    {
      if s.calls[j].fd == s.disk.objects[h] {
        WriterHasTheHash(s, j, h, hash);
      }
    }
    UnwrittenObjectIsComplete(s, i, hash);
  }

  // ---- objects of other hashes, and the first Ok

  /** A step leaves every object alone whose hash no call stores. */
  lemma OtherObjectsStay(s: State, s': State, hash: Hash, g: string)
    requires Sound(s, hash) && Next(s, s', hash) && g in s.disk.objects
    requires forall i :: 0 <= i < |s.calls| ==> hash(s.calls[i].data) != g
    ensures Retrieve(s'.disk, g) == Retrieve(s.disk, g)
  {
    var i: nat, n: nat :| CanAct(s, i, n) && s' == Act(s, i, n, hash);
    assert CallOk(s, i, hash);
  }

  /** No call for this hash has opened a file. */
  ghost predicate NoneOpens(s: State, g: string, hash: Hash) {
    forall i :: 0 <= i < |s.calls| && hash(s.calls[i].data) == g ==> s.calls[i].stage in {Checking, Returned}
  }

  lemma StoredStaysOneStep(s: State, s': State, hash: Hash, g: string)
    requires Sound(s, hash) && Next(s, s', hash) && g in s.disk.objects && NoneOpens(s, g, hash)
    ensures NoneOpens(s', g, hash)
    ensures g in s'.disk.objects && s'.disk.objects[g] == s.disk.objects[g]
    ensures Retrieve(s'.disk, g) == Retrieve(s.disk, g)
  {
    var i: nat, n: nat :| CanAct(s, i, n) && s' == Act(s, i, n, hash);
    assert CallOk(s, i, hash);
  }

  /** An object that is there when the calls start is never written again: every call for it returns at its first
      step, and the object's file and bytes stay. */
  lemma {:induction false} StoredObjectsStay(states: seq<State>, hash: Hash, g: string)
    requires IsRun(states, hash) && Startable(states[0], hash) && g in states[0].disk.objects
    ensures NoneOpens(Last(states), g, hash)
    ensures g in Last(states).disk.objects && Last(states).disk.objects[g] == states[0].disk.objects[g]
    ensures Retrieve(Last(states).disk, g) == Retrieve(states[0].disk, g)
  {
    if |states| > 1 {
      var front := states[..|states| - 1];
      FrontIsRun(states, hash);
      StoredObjectsStay(front, hash, g);
      RunKeepsSound(front, hash);
      StoredStaysOneStep(Last(front), Last(states), hash, g);
    }
  }

  /** Two calls of the same byte: the second truncates the shared file just before the first renames it. */
  function EarlyOk(k: nat, h: string): State {
    var c := Call("a", Checking, 0, 0);
    var waiting, writing := c.(stage := Opening), c.(stage := Writing);
    match k
    case 0 => State(Disk([], map[], map[]), [c, c])
    case 1 => State(Disk([], map[], map[]), [waiting, c])
    case 2 => State(Disk([], map[], map[]), [waiting, waiting])
    case 3 => State(Disk([""], map[h := 0], map[]), [writing, waiting])
    case 4 => State(Disk(["a"], map[h := 0], map[]), [writing.(offset := 1), waiting])
    case 5 => State(Disk(["a"], map[h := 0], map[]), [writing.(stage := Renaming, offset := 1), waiting])
    case 6 => State(Disk([""], map[h := 0], map[]), [writing.(stage := Renaming, offset := 1), writing])
    case _ => State(Disk([""], map[], map[h := 0]), [writing.(stage := Returned, offset := 1), writing])
  }

  lemma EarlyOkSteps(k: nat, hash: Hash)
    requires k < 7
    ensures Next(EarlyOk(k, hash("a")), EarlyOk(k + 1, hash("a")), hash)
  {
    var s, s' := EarlyOk(k, hash("a")), EarlyOk(k + 1, hash("a"));
    var i: nat := if k == 1 || k == 5 then 1 else 0;
    assert Overwrite("", 0, "a"[0..1]) == "a";
    assert CanAct(s, i, 1) && s' == Act(s, i, 1, hash);
  }

  lemma EarlyOkEnds(hash: Hash)
    ensures Startable(EarlyOk(0, hash("a")), hash)
    ensures var s := EarlyOk(7, hash("a"));
            && |s.calls| == 2 && s.calls[0].stage == Returned && s.calls[0].data == "a"
            && Retrieve(s.disk, hash("a")) == Some("")
  {
  }

  /** The first Ok promises nothing yet: a call may have returned while the object of its hash is empty. */
  lemma OkMayComeEarly(hash: Hash) returns (states: seq<State>)
    ensures IsRun(states, hash) && Startable(states[0], hash)
    ensures var s := Last(states);
            && |s.calls| == 2 && s.calls[0].stage == Returned && s.calls[0].data == "a"
            && Retrieve(s.disk, hash("a")) == Some("")
  {
    EarlyOkEnds(hash);
    states := EarlyOks(8, hash);
  }

  lemma {:induction false} EarlyOks(n: nat, hash: Hash) returns (states: seq<State>)
    requires 0 < n <= 8
    ensures |states| == n && IsRun(states, hash)
    ensures states[0] == EarlyOk(0, hash("a")) && Last(states) == EarlyOk(n - 1, hash("a"))
  {
    if n == 1 {
      states := [EarlyOk(0, hash("a"))];
    } else {
      var front := EarlyOks(n - 1, hash);
      EarlyOkSteps(n - 2, hash);
      states := RunLonger(front, EarlyOk(n - 1, hash("a")), hash);
    }
  }

  lemma RunLonger(front: seq<State>, s: State, hash: Hash) returns (states: seq<State>)
    requires IsRun(front, hash) && Next(Last(front), s, hash)
    ensures states == front + [s] && IsRun(states, hash)
  {
    states := front + [s];
    forall k | 0 < k < |states|
      ensures StepsAt(states, k, hash)
    {
      if k < |front| {
        assert StepsAt(front, k, hash);
      }
    }
  }
}
