/** Exactly when the object of a hash is complete while calls are still at work: a record of which bytes of
    each file have been written since it was last created or truncated. */
module StoreCompleteness {
  import opened Prelude
  import opened Hashing
  import opened StoreProtocol
  import opened StoreQuiescence

  /** A state, and for each file the positions written since it was last created or truncated. */
  datatype Traced = Traced(s: State, written: seq<set<nat>>)

  function Span(from: nat, to: nat): (span: set<nat>)
    ensures forall k :: k in span <==> from <= k < to
  {
    if from >= to then {} else Span(from, to - 1) + {to - 1}
  }

  /** The record after call i takes its next step. */
  function Marks(t: Traced, i: nat, n: nat, hash: Hash): seq<set<nat>>
    requires CanAct(t.s, i, n) && |t.written| == |t.s.disk.inodes|
  {
    var c, d := t.s.calls[i], t.s.disk;
    var h := hash(c.data);
    if c.stage == Opening then
      if h in d.temp && d.temp[h] < |d.inodes| then t.written[d.temp[h] := {}] else t.written + [{}]
    else if c.stage == Writing && c.offset < |c.data| then
      t.written[c.fd := t.written[c.fd] + Span(c.offset, c.offset + n)]
    else t.written
  }

  ghost predicate TracedNext(t: Traced, t': Traced, hash: Hash) {
    && |t.written| == |t.s.disk.inodes|
    && exists i: nat, n: nat ::
         CanAct(t.s, i, n) && t'.s == Act(t.s, i, n, hash) && t'.written == Marks(t, i, n, hash)
  }

  ghost predicate TracedAt(ts: seq<Traced>, k: nat, hash: Hash)
    requires 0 < k < |ts|
  {
    TracedNext(ts[k - 1], ts[k], hash)
  }

  /** What a file holds at the start counts as written. */
  ghost predicate TracedStart(t: Traced, hash: Hash) {
    && Startable(t.s, hash) && |t.written| == |t.s.disk.inodes|
    && forall x :: 0 <= x < |t.written| ==> t.written[x] == Span(0, |t.s.disk.inodes[x]|)
  }

  ghost predicate TracedRun(ts: seq<Traced>, hash: Hash) {
    && ts != [] && TracedStart(ts[0], hash)
    && forall k {:trigger TracedAt(ts, k, hash)} :: 0 < k < |ts| ==> TracedAt(ts, k, hash)
  }

  lemma TraceLonger(front: seq<Traced>, s': State, hash: Hash) returns (t': Traced)
    requires TracedRun(front, hash) && |Last(front).written| == |Last(front).s.disk.inodes|
    requires Next(Last(front).s, s', hash)
    ensures t'.s == s' && |t'.written| == |s'.disk.inodes| && TracedRun(front + [t'], hash)
  {
    var t := Last(front);
    var i: nat, n: nat :| CanAct(t.s, i, n) && s' == Act(t.s, i, n, hash);
    t' := Traced(s', Marks(t, i, n, hash));
    assert TracedNext(t, t', hash);
    LongerTrace(front, t', hash);
  }

  lemma LongerTrace(front: seq<Traced>, t': Traced, hash: Hash)
    requires TracedRun(front, hash) && TracedNext(Last(front), t', hash)
    ensures TracedRun(front + [t'], hash)
  {
    var ts := front + [t'];
    forall k | 0 < k < |ts|
      ensures TracedAt(ts, k, hash)
    {
      if k < |front| {
        assert TracedAt(front, k, hash);
      }
    }
  }

  /** Every run has its record. */
  lemma {:induction false} RunIsTraced(states: seq<State>, hash: Hash) returns (ts: seq<Traced>)
    requires IsRun(states, hash) && Startable(states[0], hash)
    ensures TracedRun(ts, hash) && |ts| == |states| && forall k :: 0 <= k < |ts| ==> ts[k].s == states[k]
    ensures |Last(ts).written| == |Last(ts).s.disk.inodes|
  {
    if |states| == 1 {
      var inodes := states[0].disk.inodes;
      ts := [Traced(states[0], seq(|inodes|, x requires 0 <= x < |inodes| => Span(0, |inodes[x]|)))];
    } else {
      FrontIsRun(states, hash);
      var front := RunIsTraced(states[..|states| - 1], hash);
      assert Last(front).s == states[|states| - 2];
      var t' := TraceLonger(front, Last(states), hash);
      ts := front + [t'];
    }
  }

  // ---- what a file holds

  /** The written positions hold the data, gaps between them zeros, and the last byte was written. */
  ghost predicate Renders(content: Bytes, written: set<nat>, data: Bytes) {
    && |content| <= |data|
    && (forall k :: k in written ==> k < |content|)
    && (forall k :: 0 <= k < |content| ==> content[k] == if k in written then data[k] else '\0')
    && (content != [] ==> |content| - 1 in written)
  }

  lemma WholeRenders(data: Bytes)
    ensures Renders(data, Span(0, |data|), data)
  {
  }

  lemma WriteRenders(content: Bytes, written: set<nat>, data: Bytes, offset: nat, n: nat,
                     after: Bytes, written': set<nat>)
    requires Renders(content, written, data) && 0 < n && offset + n <= |data|
    requires after == Overwrite(content, offset, data[offset..offset + n])
    requires written' == written + Span(offset, offset + n)
    ensures Renders(after, written', data)
  {
    OverwriteAt(content, offset, data[offset..offset + n], offset);
    forall k | 0 <= k < |after|
      ensures after[k] == if k in written' then data[k] else '\0'
    {
      OverwriteAt(content, offset, data[offset..offset + n], k);
    }
  }

  /** A rendered file is the data exactly when its last byte and every byte that is not zero were written. */
  lemma RenderedIsWholeIff(content: Bytes, written: set<nat>, data: Bytes)
    requires Renders(content, written, data)
    ensures content == data <==> WellWritten(written, data)
  {
  }

  predicate WellWritten(written: set<nat>, data: Bytes) {
    && (data != [] ==> |data| - 1 in written)
    && forall k :: 0 <= k < |data| && data[k] != '\0' ==> k in written
  }

  ghost predicate FileRenders(t: Traced, inode: nat, data: Bytes) {
    inode < |t.written| == |t.s.disk.inodes| && Renders(t.s.disk.inodes[inode], t.written[inode], data)
  }

  ghost predicate CallRenders(t: Traced, p: nat, hash: Hash)
    requires p < |t.s.calls|
  {
    var c, d := t.s.calls[p], t.s.disk;
    var h := hash(c.data);
    && (h in d.objects ==> FileRenders(t, d.objects[h], c.data))
    && (HasOpened(c) && h in d.temp ==> FileRenders(t, d.temp[h], c.data))
  }

  ghost predicate Rendered(t: Traced, hash: Hash) {
    && |t.written| == |t.s.disk.inodes| && Sound(t.s, hash)
    && forall p {:trigger CallRenders(t, p, hash)} :: 0 <= p < |t.s.calls| ==> CallRenders(t, p, hash)
  }

  // ---- each step keeps the record right

  lemma OpenKeepsRender(t: Traced, t': Traced, i: nat, n: nat, hash: Hash, p: nat)
    requires Rendered(t, hash) && CanAct(t.s, i, n) && t.s.calls[i].stage == Opening && p < |t.s.calls|
    requires t'.s == Act(t.s, i, n, hash) && t'.written == Marks(t, i, n, hash)
    ensures |t'.written| == |t'.s.disk.inodes| && CallRenders(t', p, hash)
  {
    var c := t.s.calls[p];
    assert CallRenders(t, p, hash);
    assert LinksApart(t.s.disk) && t'.s.calls[p].data == c.data;
  }

  lemma QuietKeepsRender(t: Traced, t': Traced, i: nat, n: nat, hash: Hash, p: nat)
    requires Rendered(t, hash) && CanAct(t.s, i, n) && QuietStep(t.s.calls[i]) && p < |t.s.calls|
    requires t'.s == Act(t.s, i, n, hash) && t'.written == Marks(t, i, n, hash)
    ensures |t'.written| == |t'.s.disk.inodes| && CallRenders(t', p, hash)
  {
    assert CallRenders(t, p, hash) && CallRenders(t, i, hash);
    assert CallOk(t.s, i, hash);
    assert t'.written == t.written && t'.s.disk.inodes == t.s.disk.inodes && t'.s.calls[p].data == t.s.calls[p].data;
  }

  /** A write of call i changes its file and the record of it, and no other. */
  ghost predicate Wrote(t: Traced, t': Traced, i: nat, n: nat)
    requires i < |t.s.calls| && t.s.calls[i].offset + n <= |t.s.calls[i].data|
  {
    var c, inodes := t.s.calls[i], t.s.disk.inodes;
    && c.fd < |inodes| == |t.written|
    && t'.s.disk.inodes == inodes[c.fd := Overwrite(inodes[c.fd], c.offset, c.data[c.offset..c.offset + n])]
    && t'.written == t.written[c.fd := t.written[c.fd] + Span(c.offset, c.offset + n)]
  }

  lemma WriteWrites(t: Traced, t': Traced, i: nat, n: nat, hash: Hash)
    requires CanAct(t.s, i, n) && t.s.calls[i].stage == Writing && t.s.calls[i].offset < |t.s.calls[i].data|
    requires |t.written| == |t.s.disk.inodes|
    requires t'.s == Act(t.s, i, n, hash) && t'.written == Marks(t, i, n, hash)
    ensures Wrote(t, t', i, n)
  {
  }

  lemma OtherFileKept(t: Traced, t': Traced, i: nat, n: nat, inode: nat, data: Bytes)
    requires i < |t.s.calls| && 0 < n <= |t.s.calls[i].data| - t.s.calls[i].offset && Wrote(t, t', i, n)
    requires FileRenders(t, inode, data) && t.s.calls[i].fd != inode
    ensures FileRenders(t', inode, data)
  {
    assert t'.s.disk.inodes[inode] == t.s.disk.inodes[inode] && t'.written[inode] == t.written[inode];
  }

  lemma OwnFileWritten(t: Traced, t': Traced, i: nat, n: nat, data: Bytes)
    requires i < |t.s.calls| && 0 < n <= |t.s.calls[i].data| - t.s.calls[i].offset && Wrote(t, t', i, n)
    requires FileRenders(t, t.s.calls[i].fd, data) && t.s.calls[i].data == data
    ensures FileRenders(t', t.s.calls[i].fd, data)
  {
    var c := t.s.calls[i];
    WriteRenders(t.s.disk.inodes[c.fd], t.written[c.fd], data, c.offset, n,
                 t'.s.disk.inodes[c.fd], t'.written[c.fd]);
  }

  lemma WriteKeepsFile(t: Traced, t': Traced, i: nat, n: nat, inode: nat, data: Bytes)
    requires i < |t.s.calls| && 0 < n <= |t.s.calls[i].data| - t.s.calls[i].offset && Wrote(t, t', i, n)
    requires FileRenders(t, inode, data) && (t.s.calls[i].fd == inode ==> t.s.calls[i].data == data)
    ensures FileRenders(t', inode, data)
  {
    if t.s.calls[i].fd == inode {
      OwnFileWritten(t, t', i, n, data);
    } else {
      OtherFileKept(t, t', i, n, inode, data);
    }
  }

  lemma WriteKeepsRender(t: Traced, t': Traced, i: nat, n: nat, hash: Hash, p: nat)
    requires Rendered(t, hash) && CanAct(t.s, i, n) && p < |t.s.calls|
    requires t.s.calls[i].stage == Writing && t.s.calls[i].offset < |t.s.calls[i].data|
    requires t'.s == Act(t.s, i, n, hash) && t'.written == Marks(t, i, n, hash)
    ensures |t'.written| == |t'.s.disk.inodes| && CallRenders(t', p, hash)
  {
    var c, d := t.s.calls[p], t.s.disk;
    var h := hash(c.data);
    assert CallRenders(t, p, hash) && CallOk(t.s, i, hash);
    assert t'.s.calls[p].data == c.data;
    WriteWrites(t, t', i, n, hash);
    if h in d.objects {
      WriteKeepsFile(t, t', i, n, d.objects[h], c.data);
    }
    if HasOpened(c) && h in d.temp {
      WriteKeepsFile(t, t', i, n, d.temp[h], c.data);
    }
  }

  lemma StepKeepsRendered(t: Traced, t': Traced, hash: Hash)
    requires Rendered(t, hash) && TracedNext(t, t', hash)
    ensures Rendered(t', hash)
  {
    var i: nat, n: nat :| CanAct(t.s, i, n) && t'.s == Act(t.s, i, n, hash) && t'.written == Marks(t, i, n, hash);
    assert Next(t.s, t'.s, hash);
    StepKeepsSound(t.s, t'.s, hash);
    assert |t'.s.calls| == |t.s.calls|;
    forall p | 0 <= p < |t'.s.calls|
      ensures |t'.written| == |t'.s.disk.inodes| && CallRenders(t', p, hash)
    {
      if t.s.calls[i].stage == Opening {
        OpenKeepsRender(t, t', i, n, hash, p);
      } else if QuietStep(t.s.calls[i]) {
        QuietKeepsRender(t, t', i, n, hash, p);
      } else {
        WriteKeepsRender(t, t', i, n, hash, p);
      }
    }
    assert CallRenders(t', i, hash);
  }

  lemma StartIsRendered(t: Traced, hash: Hash)
    requires TracedStart(t, hash)
    ensures Rendered(t, hash)
  {
    StartableIsSound(t.s, hash);
    forall p | 0 <= p < |t.s.calls|
      ensures CallRenders(t, p, hash)
    {
      WholeRenders(t.s.calls[p].data);
    }
  }

  lemma {:induction false} RunIsRendered(ts: seq<Traced>, k: nat, hash: Hash)
    requires TracedRun(ts, hash) && k < |ts|
    ensures Rendered(ts[k], hash)
  {
    if k == 0 {
      StartIsRendered(ts[0], hash);
    } else {
      RunIsRendered(ts, k - 1, hash);
      assert TracedAt(ts, k, hash);
      StepKeepsRendered(ts[k - 1], ts[k], hash);
    }
  }

  /** At any moment of any run, the object that a returned call promised is complete exactly when every byte of
      it that is not zero, and its last byte, has been written since its file was last created or truncated. */
  lemma ObjectIsCompleteIff(ts: seq<Traced>, i: nat, hash: Hash)
    requires TracedRun(ts, hash) && i < |Last(ts).s.calls| && Last(ts).s.calls[i].stage == Returned
    ensures var t := Last(ts);
            var data, d := t.s.calls[i].data, t.s.disk;
            && hash(data) in d.objects && d.objects[hash(data)] < |t.written|
            && (Retrieve(d, hash(data)) == Some(data) <==> WellWritten(t.written[d.objects[hash(data)]], data))
  {
    var t := Last(ts);
    RunIsRendered(ts, |ts| - 1, hash);
    assert CallOk(t.s, i, hash) && CallRenders(t, i, hash);
    var data := t.s.calls[i].data;
    var inode := t.s.disk.objects[hash(data)];
    RenderedIsWholeIff(t.s.disk.inodes[inode], t.written[inode], data);
  }
}
