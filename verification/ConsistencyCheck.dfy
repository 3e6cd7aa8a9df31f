/** What the consistency check reports: the replay of all events, or of those after a checkpoint, compared with
    the tables. */
module ConsistencyChecks {
  import opened Prelude
  import opened Lineage
  import opened Versioning
  import opened VersionInvariant
  import opened Replay
  import opened EventRefinement

  // ---- what the check reads

  /** The visible changesets of all repositories. */
  ghost function VisibleIds(repos: Repos): set<Id> {
    set r, id | r in repos && id in repos[r].changesets && repos[r].changesets[id].status == Visible :: id
  }

  /** What the check reads from the tables when they hold the server's present state. */
  ghost predicate ReadFrom(s: Server, c: Current) {
    && c.locks == |s.locks|
    && c.visible == |VisibleIds(s.store)|
    && HeadsRead(s.store, c.heads)
  }

  /** The heads the check reads: by key, that of some branch with this key, which one depending on the order of
      the rows. */
  ghost predicate HeadsRead(repos: Repos, heads: map<string, Id>) {
    && (forall r, b {:trigger HeadOf(repos, r, b)} :: HeadOf(repos, r, b).Some? ==> HeadKey(r, b) in heads)
    && (forall key :: key in heads ==> exists r, b :: HeadOf(repos, r, b) == Some(heads[key]) && key == HeadKey(r, b))
  }

  /** The keys of all branches that have a head. */
  ghost function HeadKeys(repos: Repos): set<string> {
    set r, b | r in repos && b in repos[r].branches && repos[r].branches[b].record.head.Some? :: HeadKey(r, b)
  }

  ghost function AnyHead(repos: Repos, key: string): (id: Id)
    requires key in HeadKeys(repos)
    ensures exists r, b :: HeadOf(repos, r, b) == Some(id) && key == HeadKey(r, b)
  {
    var r, b :| HeadOf(repos, r, b).Some? && key == HeadKey(r, b);
    HeadOf(repos, r, b).value
  }

  /** Every head is what the check reads under its key in some order of the rows. */
  lemma HeadCanBeRead(repos: Repos, r: string, b: string) returns (heads: map<string, Id>)
    requires HeadOf(repos, r, b).Some?
    ensures HeadsRead(repos, heads)
    ensures HeadKey(r, b) in heads && Some(heads[HeadKey(r, b)]) == HeadOf(repos, r, b)
  {
    heads := (map key | key in HeadKeys(repos) :: AnyHead(repos, key))[HeadKey(r, b) := HeadOf(repos, r, b).value];
    forall q, c | HeadOf(repos, q, c).Some?
      ensures HeadKey(q, c) in heads
    {
      assert HeadKey(q, c) in HeadKeys(repos);
    }
  }

  lemma SomethingIsRead(s: Server) returns (c: Current)
    ensures ReadFrom(s, c)
  {
    var heads := map key | key in HeadKeys(s.store) :: AnyHead(s.store, key);
    forall q, b | HeadOf(s.store, q, b).Some?
      ensures HeadKey(q, b) in heads
    {
      assert HeadKey(q, b) in HeadKeys(s.store);
    }
    c := Current(|s.locks|, |VisibleIds(s.store)|, heads);
  }

  // ---- counts and heads apart

  /** Counts do not depend on the order of the rows, heads may. */
  lemma ConsistentInEveryOrderIff(s: Server, a: Accumulated)
    ensures (forall c :: ReadFrom(s, c) ==> Consistent(a, c))
            <==> |a.locks| == |s.locks| && |a.visible| == |VisibleIds(s.store)|
                 && (forall heads :: HeadsRead(s.store, heads) ==> a.heads == heads)
  {
    if forall c :: ReadFrom(s, c) ==> Consistent(a, c) {
      var c := SomethingIsRead(s);
      forall heads | HeadsRead(s.store, heads)
        ensures a.heads == heads
      {
        assert ReadFrom(s, c.(heads := heads));
      }
    }
  }

  lemma ConsistentInSomeOrderIff(s: Server, a: Accumulated)
    ensures (exists c :: ReadFrom(s, c) && Consistent(a, c))
            <==> |a.locks| == |s.locks| && |a.visible| == |VisibleIds(s.store)| && HeadsRead(s.store, a.heads)
  {
    if |a.locks| == |s.locks| && |a.visible| == |VisibleIds(s.store)| && HeadsRead(s.store, a.heads) {
      assert ReadFrom(s, Current(|a.locks|, |a.visible|, a.heads));
    }
  }

  // ---- heads

  /** Every branch that has a head had a visible commit of its own. */
  ghost predicate AllHeadsTouched(repos: Repos) {
    forall r, b {:trigger HeadOf(repos, r, b)} :: HeadOf(repos, r, b).Some? ==> Touched(repos, r, b)
  }

  /** Some branch with this key had a visible commit of its own. */
  ghost predicate KeyTouched(repos: Repos, key: string) {
    exists r, b :: Touched(repos, r, b) && key == HeadKey(r, b)
  }

  ghost predicate AllKeysTouched(repos: Repos) {
    forall r, b {:trigger HeadOf(repos, r, b)} :: HeadOf(repos, r, b).Some? ==> KeyTouched(repos, HeadKey(r, b))
  }

  lemma ReadingsTellHeadsApart(repos: Repos, heads: map<string, Id>, r: string, b: string, q: string, c: string)
    requires StoreOk(repos) && forall read :: HeadsRead(repos, read) ==> heads == read
    requires HeadOf(repos, r, b).Some? && HeadOf(repos, q, c).Some? && HeadKey(r, b) == HeadKey(q, c)
    ensures r == q && b == c
  {
    if r == q {
      KeysOfOneRepo(r, b, c);
    } else {
      var one := HeadCanBeRead(repos, r, b);
      var other := HeadCanBeRead(repos, q, c);
      HeadsOfReposDiffer(repos, r, b, q, c);
    }
  }

  lemma ReadHeadsAreTouched(repos: Repos, heads: map<string, Id>, r: string, b: string)
    requires StoreOk(repos) && HeadsKnown(repos, heads) && HeadKeysApart(repos) && HeadOf(repos, r, b).Some?
    requires HeadsRead(repos, heads)
    ensures Touched(repos, r, b)
  {
    var key := HeadKey(r, b);
    var q, c :| HeadUnder(repos, key, heads[key], q, c);
  }

  lemma TouchedHeadsAreEqual(repos: Repos, replayed: map<string, Id>, read: map<string, Id>)
    requires HeadKeysApart(repos) && HeadsKnown(repos, replayed) && HeadsRead(repos, read) && AllHeadsTouched(repos)
    ensures replayed == read
  {
    forall key | key in replayed
      ensures key in read && read[key] == replayed[key]
    {
      var r, b :| HeadUnder(repos, key, replayed[key], r, b);
      var q, c :| HeadOf(repos, q, c) == Some(read[key]) && key == HeadKey(q, c);
    }
    forall key | key in read
      ensures key in replayed
    {
      var r, b :| HeadOf(repos, r, b) == Some(read[key]) && key == HeadKey(r, b);
    }
  }

  /** The replayed heads are read in every order exactly when keys differ and no head came without a commit. */
  lemma HeadsReadInEveryOrderIff(repos: Repos, heads: map<string, Id>)
    requires StoreOk(repos) && HeadsKnown(repos, heads)
    ensures (forall read :: HeadsRead(repos, read) ==> heads == read)
            <==> AllHeadsTouched(repos) && HeadKeysApart(repos)
  {
    if forall read :: HeadsRead(repos, read) ==> heads == read {
      forall r, b, q, c | HeadOf(repos, r, b).Some? && HeadOf(repos, q, c).Some? && HeadKey(r, b) == HeadKey(q, c)
        ensures r == q && b == c
      {
        ReadingsTellHeadsApart(repos, heads, r, b, q, c);
      }
      forall r, b | HeadOf(repos, r, b).Some?
        ensures Touched(repos, r, b)
      {
        var read := HeadCanBeRead(repos, r, b);
        ReadHeadsAreTouched(repos, heads, r, b);
      }
    } else if AllHeadsTouched(repos) && HeadKeysApart(repos) {
      forall read | HeadsRead(repos, read)
        ensures heads == read
      {
        TouchedHeadsAreEqual(repos, heads, read);
      }
    }
  }

  lemma HeadsReadInSomeOrderIff(repos: Repos, heads: map<string, Id>)
    requires StoreOk(repos) && HeadsKnown(repos, heads)
    ensures HeadsRead(repos, heads) <==> AllKeysTouched(repos)
  {
    if HeadsRead(repos, heads) {
      forall r, b | HeadOf(repos, r, b).Some?
        ensures KeyTouched(repos, HeadKey(r, b))
      {
        var key := HeadKey(r, b);
        var q, c :| HeadUnder(repos, key, heads[key], q, c);
      }
    }
    forall key | key in heads
      ensures exists r, b :: HeadOf(repos, r, b) == Some(heads[key]) && key == HeadKey(r, b)
    {
      var r, b :| HeadUnder(repos, key, heads[key], r, b);
    }
  }

  // ---- the full check

  lemma LockCountsAgree(s: Server)
    requires LocksAgree(ReplayFrom(NOTHING, s.log).locks, s)
    ensures |ReplayFrom(NOTHING, s.log).locks| == |s.locks| <==> s.dropped == {}
  {
    assert |s.locks.Keys + s.dropped| == |s.locks.Keys| + |s.dropped|;
  }

  lemma VisibleSetsAgree(repos: Repos, visible: set<Id>)
    requires VisibleAgree(repos, visible)
    ensures visible == VisibleIds(repos)
  {
    forall id
      ensures id in visible <==> id in VisibleIds(repos)
    {
      if id in VisibleIds(repos) {
        var r :| r in repos && id in repos[r].changesets && repos[r].changesets[id].status == Visible;
        assert OnBranch(repos, r, repos[r].changesets[id].branch, id);
      }
    }
  }

  /** With all events recorded, the check finds nothing, in whatever order the rows are read, exactly when no
      expired lock was dropped by a renewal, every branch that has a head had a visible commit of its own, and
      these branches have different keys. It finds nothing in some order exactly when no lock was dropped and the
      key of every branch with a head is that of a branch with a visible commit of its own. */
  lemma CheckPassesExactlyWhen(qs: seq<Request>, conf: Locks.Settings)
    requires Served(START, qs, conf)
    ensures var s := ServeAll(START, qs, conf);
            var a := ReplayFrom(NOTHING, s.log);
            && ((forall c :: ReadFrom(s, c) ==> Consistent(a, c))
                <==> s.dropped == {} && AllHeadsTouched(s.store) && HeadKeysApart(s.store))
            && ((exists c :: ReadFrom(s, c) && Consistent(a, c))
                <==> s.dropped == {} && AllKeysTouched(s.store))
  {
    StartRefines();
    ServeAllRefines(START, qs, conf);
    var s := ServeAll(START, qs, conf);
    var a := ReplayFrom(NOTHING, s.log);
    LockCountsAgree(s);
    VisibleSetsAgree(s.store, a.visible);
    ConsistentInEveryOrderIff(s, a);
    ConsistentInSomeOrderIff(s, a);
    HeadsReadInEveryOrderIff(s.store, a.heads);
    HeadsReadInSomeOrderIff(s.store, a.heads);
  }

  // ---- the check from a checkpoint

  /** The events a run records after the first server's. */
  ghost function Later(s: Server, s': Server): seq<Event>
    requires s.log <= s'.log
  {
    s'.log[|s.log|..]
  }

  lemma ShownWasHidden(repos: Repos, op: Op)
    requires StoreOk(repos) && Legal(repos, op) && ShownBy(repos, op).Some?
    ensures ShownBy(repos, op).value.id !in VisibleIds(repos)
  {
    var sh := ShownBy(repos, op).value;
    forall r | r in repos && r != sh.repoId
      ensures sh.id !in repos[r].changesets
    {
      if op.Promote? {
        assert repos[r].changesets.Keys !! repos[sh.repoId].changesets.Keys;
      }
    }
  }

  /** The events of one request show only changesets that were not visible before. */
  ghost predicate ShowsNew(s: Server, s': Server) {
    && s.log <= s'.log
    && VisibleIds(s'.store) == VisibleIds(s.store) + ReplayFrom(NOTHING, Later(s, s')).visible
    && VisibleIds(s.store) !! ReplayFrom(NOTHING, Later(s, s')).visible
  }

  lemma ChangeShowsNew(s: Server, s': Server, op: Op, events: seq<Event>)
    requires Refines(s) && Refines(s') && Legal(s.store, op) && Announces(s.store, op, events)
    requires s'.log == s.log + events
    ensures ShowsNew(s, s')
  {
    assert [] + events == events && Later(s, s') == events;
    AnnouncedReplay(s.store, op, [], events);
    SplitReplayMerges(s.log, events);
    VisibleSetsAgree(s.store, ReplayFrom(NOTHING, s.log).visible);
    VisibleSetsAgree(s'.store, ReplayFrom(NOTHING, s'.log).visible);
    if ShownBy(s.store, op).Some? {
      ShownWasHidden(s.store, op);
    }
  }

  lemma LockShowsNew(s: Server, s': Server, events: seq<Event>)
    requires s'.store == s.store && s'.log == s.log + events
    requires events == [] || (|events| == 1 && !Shows(events[0].kind))
    ensures ShowsNew(s, s')
  {
    assert Later(s, s') == events;
    assert events != [] ==> events[..|events| - 1] == [];
  }

  lemma LockRequestShowsNew(s: Server, q: Request, conf: Locks.Settings)
    requires !q.Change? && !q.RollbackTo?
    ensures ShowsNew(s, Serve(s, q, conf))
  {
    assert s.log + [] == s.log;
    match q
    case LockFile(p, o, now) =>
      LockShowsNew(s, Serve(s, q, conf),
                   if Locks.AcquireResult(s.locks, p, o, conf, now).Ok? then PathEvent(LockAcquired, p) else []);
    case RenewFile(p, o, now) =>
      LockShowsNew(s, Serve(s, q, conf),
                   if Locks.RenewResult(s.locks, p, o, conf, now).Ok?
                   then PathEvent(OtherEvent("LOCK_RENEWED"), p) else []);
    case UnlockFile(p, o) =>
      LockShowsNew(s, Serve(s, q, conf),
                   if Locks.UnlockResult(s.locks, p, o).Ok? then PathEvent(LockReleased, p) else []);
    case ForceUnlockFile(p) =>
      LockShowsNew(s, Serve(s, q, conf), if p in s.locks then PathEvent(LockForceReleased, p) else []);
  }

  function RollbackEvents(refused: bool, input: SubmitInput, id: Id): seq<Event> {
    if refused then [] else ChangesetEvent(RollbackVisible, input.repoId, id, input.branch)
  }

  lemma RollbackAnnounces(repos: Repos, input: SubmitInput, id: Id)
    requires input.visibility == ShowNow
    ensures Announces(repos, Submit(input, id), RollbackEvents(Outcome(repos, Submit(input, id)).Some?, input, id))
  {
  }

  lemma RollbackShowsNew(s: Server, input: SubmitInput, id: Id, conf: Locks.Settings)
    requires Refines(s) && Allowed(s, RollbackTo(input, id)) && Refines(Serve(s, RollbackTo(input, id), conf))
    ensures ShowsNew(s, Serve(s, RollbackTo(input, id), conf))
  {
    RollbackAnnounces(s.store, input, id);
    ChangeShowsNew(s, Serve(s, RollbackTo(input, id), conf), Submit(input, id),
                   RollbackEvents(Outcome(s.store, Submit(input, id)).Some?, input, id));
  }

  lemma RequestShowsNew(s: Server, q: Request, conf: Locks.Settings)
    requires Refines(s) && Allowed(s, q)
    ensures ShowsNew(s, Serve(s, q, conf))
  {
    match q
    case Change(op) =>
      ServeRefines(s, q, conf);
      ChangeShowsNew(s, Serve(s, q, conf), op, ChangeEvents(s.store, op));
    case RollbackTo(input, id) =>
      ServeRefines(s, q, conf);
      RollbackShowsNew(s, input, id, conf);
    case _ =>
      LockRequestShowsNew(s, q, conf);
  }

  lemma ShowsNewTransitive(s1: Server, s2: Server, s3: Server)
    requires ShowsNew(s1, s2) && ShowsNew(s2, s3)
    ensures ShowsNew(s1, s3)
  {
    assert Later(s1, s3) == Later(s1, s2) + Later(s2, s3);
    SplitReplayMerges(Later(s1, s2), Later(s2, s3));
  }

  lemma {:induction false} RequestsShowNew(s: Server, qs: seq<Request>, conf: Locks.Settings)
    requires Refines(s) && Served(s, qs, conf)
    ensures ShowsNew(s, ServeAll(s, qs, conf))
    decreases |qs|
  {
    if qs == [] {
      assert Later(s, s) == [];
    } else {
      var s' := Serve(s, qs[0], conf);
      ServeRefines(s, qs[0], conf);
      RequestShowsNew(s, qs[0], conf);
      RequestsShowNew(s', qs[1..], conf);
      ShowsNewTransitive(s, s', ServeAll(s, qs, conf));
    }
  }

  /** The locks that the replay had at the checkpoint and that no later event names. */
  ghost function KeptLocks(s: Server, s': Server): set<string>
    requires s.log <= s'.log
  {
    s.locks.Keys + s.dropped - LockPathsIn(Later(s, s'))
  }

  lemma PartCounts(s: Server, s': Server)
    requires Refines(s) && Refines(s') && ShowsNew(s, s')
    ensures var part := ReplayFrom(NOTHING, Later(s, s'));
            && (|part.visible| == |VisibleIds(s'.store)| <==> VisibleIds(s.store) == {})
            && (|part.locks| == |s'.locks| <==> |KeptLocks(s, s')| == |s'.dropped|)
  {
    var before, after := ReplayFrom(NOTHING, s.log), Later(s, s');
    var part := ReplayFrom(NOTHING, after);
    assert s.log + after == s'.log;
    SplitReplayMerges(s.log, after);
    LocksSplit(before, after);
    assert |VisibleIds(s.store) + part.visible| == |VisibleIds(s.store)| + |part.visible|;
    assert part.locks + KeptLocks(s, s') == s'.locks.Keys + s'.dropped;
    assert |part.locks + KeptLocks(s, s')| == |part.locks| + |KeptLocks(s, s')|;
    assert |s'.locks.Keys + s'.dropped| == |s'.locks.Keys| + |s'.dropped|;
  }

  lemma NothingVisibleNoHeads(repos: Repos, heads: map<string, Id>)
    requires HeadsKnown(repos, heads) && VisibleIds(repos) == {}
    ensures heads == map[]
  {
    forall r, b
      ensures !Touched(repos, r, b)
    {
      forall id
        ensures !OnBranch(repos, r, b, id)
      {
        assert id !in VisibleIds(repos);
      }
    }
    forall key
      ensures key !in heads
    {
      assert forall r, b :: !Touched(repos, r, b);
    }
  }

  /** If nothing was visible at the checkpoint, all heads were moved after it. */
  lemma PartHeads(s: Server, s': Server)
    requires Refines(s) && s.log <= s'.log && VisibleIds(s.store) == {}
    ensures ReplayFrom(NOTHING, Later(s, s')).heads == ReplayFrom(NOTHING, s'.log).heads
  {
    NothingVisibleNoHeads(s.store, ReplayFrom(NOTHING, s.log).heads);
    assert s.log + Later(s, s') == s'.log;
    SplitReplayMerges(s.log, Later(s, s'));
  }

  /** A check from a checkpoint replays only the later events but compares with the whole state. It finds nothing,
      in whatever order the rows are read, exactly when nothing was visible at the checkpoint, the conditions of
      the full check hold for heads, and as many locks were kept since the checkpoint as were dropped by a late
      renewal. Once anything was visible at the checkpoint it reports in every order. */
  lemma IncrementalCheckPassesExactlyWhen(qs: seq<Request>, later: seq<Request>, conf: Locks.Settings)
    requires Served(START, qs, conf) && Served(ServeAll(START, qs, conf), later, conf)
    ensures var s, s' := ServeAll(START, qs, conf), ServeAll(ServeAll(START, qs, conf), later, conf);
            && s.log <= s'.log
            && var part := ReplayFrom(NOTHING, Later(s, s'));
               && ((forall c :: ReadFrom(s', c) ==> Consistent(part, c))
                   <==> && VisibleIds(s.store) == {} && |KeptLocks(s, s')| == |s'.dropped|
                        && AllHeadsTouched(s'.store) && HeadKeysApart(s'.store))
               && ((exists c :: ReadFrom(s', c) && Consistent(part, c))
                   <==> && VisibleIds(s.store) == {} && |KeptLocks(s, s')| == |s'.dropped|
                        && AllKeysTouched(s'.store))
  {
    StartRefines();
    ServeAllRefines(START, qs, conf);
    var s := ServeAll(START, qs, conf);
    ServeAllRefines(s, later, conf);
    var s' := ServeAll(s, later, conf);
    RequestsShowNew(s, later, conf);
    var part := ReplayFrom(NOTHING, Later(s, s'));
    PartCounts(s, s');
    ConsistentInEveryOrderIff(s', part);
    ConsistentInSomeOrderIff(s', part);
    if VisibleIds(s.store) == {} {
      PartHeads(s, s');
      HeadsReadInEveryOrderIff(s'.store, part.heads);
      HeadsReadInSomeOrderIff(s'.store, part.heads);
    }
  }

  // ---- runs in which the check reports

  lemma ServeTwo(s: Server, a: Request, b: Request, conf: Locks.Settings)
    requires Allowed(s, a) && Allowed(Serve(s, a, conf), b)
    ensures Served(s, [a, b], conf) && ServeAll(s, [a, b], conf) == Serve(Serve(s, a, conf), b, conf)
  {
    assert [a, b][1..] == [b] && [b][1..] == [];
    assert Served(Serve(s, a, conf), [b], conf);
    assert ServeAll(Serve(s, a, conf), [b], conf) == ServeAll(Serve(Serve(s, a, conf), b, conf), [], conf);
  }

  lemma ServeThree(s: Server, a: Request, b: Request, c: Request, conf: Locks.Settings)
    requires Allowed(s, a) && Allowed(Serve(s, a, conf), b) && Allowed(Serve(Serve(s, a, conf), b, conf), c)
    ensures Served(s, [a, b, c], conf)
    ensures ServeAll(s, [a, b, c], conf) == Serve(Serve(Serve(s, a, conf), b, conf), c, conf)
  {
    assert [a, b, c][1..] == [b, c];
    ServeTwo(Serve(s, a, conf), b, c, conf);
  }

  /** A first visible commit to a branch. */
  function CommitTo(r: string, branch: string, id: Id): Op {
    Submit(SubmitInput(r, branch, Some(ROOT), Normal, None, "ann", "", ShowNow, []), id)
  }

  /** The store after a first commit. */
  ghost function Committed(): Repos {
    Step(map[], CommitTo("r", "main", "x"))
  }

  /** And after a branch from it. */
  ghost function Branched(): Repos {
    Step(Committed(), CreateBranch("r", "side", None, "ann"))
  }

  lemma CommittedFacts()
    ensures StoreOk(Committed()) && Outcome(map[], CommitTo("r", "main", "x")).None?
    ensures Committed().Keys == {"r"} && Committed()["r"].changesets.Keys == {"x"}
    ensures Committed()["r"].changesets["x"].branch == "main" && Committed()["r"].changesets["x"].status == Visible
    ensures forall r, b :: HeadOf(Committed(), r, b) == if r == "r" && b == "main" then Some("x") else None
    ensures Touched(Committed(), "r", "main")
  {
    StepKeepsOk(map[], CommitTo("r", "main", "x"));
    assert OnBranch(Committed(), "r", "main", "x");
  }

  lemma BranchedFacts()
    ensures Outcome(Committed(), CreateBranch("r", "side", None, "ann")).None?
    ensures Branched().Keys == {"r"} && Branched()["r"].changesets == Committed()["r"].changesets
    ensures HeadOf(Branched(), "r", "side") == Some("x")
  {
    CommittedFacts();
    OpenRepoOk(Committed(), "r", "ann");
    assert RecordOk("r", Committed()["r"], "x");
    assert DefaultHead(Committed()["r"]) == HeadOf(Committed(), "r", "main");
  }

  lemma SideKeyIsUntouched()
    ensures !AllKeysTouched(Branched())
  {
    CommittedFacts();
    BranchedFacts();
    if r, b :| Touched(Branched(), r, b) && HeadKey("r", "side") == HeadKey(r, b) {
      var id :| OnBranch(Branched(), r, b, id);
      KeysOfOneRepo("r", "side", b);
    }
  }

  /** A run after which the check reports, in every order, a branch that was created from the default head. */
  lemma NewBranchIsReported(conf: Locks.Settings) returns (qs: seq<Request>, c: Current)
    ensures Served(START, qs, conf) && ReadFrom(ServeAll(START, qs, conf), c)
    ensures var s := ServeAll(START, qs, conf);
            forall read :: ReadFrom(s, read) ==> !Consistent(ReplayFrom(NOTHING, s.log), read)
  {
    var one, two := Change(CommitTo("r", "main", "x")), Change(CreateBranch("r", "side", None, "ann"));
    qs := [one, two];
    ServeTwo(START, one, two, conf);
    c := SomethingIsRead(ServeAll(START, qs, conf));
    SideKeyIsUntouched();
    CheckPassesExactlyWhen(qs, conf);
  }

  /** A run after which the check reports a lock that was dropped when its owner renewed it too late. */
  lemma DroppedLockIsReported(conf: Locks.Settings) returns (qs: seq<Request>, c: Current)
    ensures Served(START, qs, conf) && ReadFrom(ServeAll(START, qs, conf), c)
    ensures var s := ServeAll(START, qs, conf);
            forall read :: ReadFrom(s, read) ==> !Consistent(ReplayFrom(NOTHING, s.log), read)
  {
    var one, two := LockFile("p", "ann", 0), RenewFile("p", "ann", Max(conf.lease, 30));
    qs := [one, two];
    ServeTwo(START, one, two, conf);
    c := SomethingIsRead(ServeAll(START, qs, conf));
    CheckPassesExactlyWhen(qs, conf);
  }

  lemma CommittedKeys()
    ensures AllHeadsTouched(Committed()) && HeadKeysApart(Committed())
  {
    CommittedFacts();
  }

  lemma FirstCommitRun(conf: Locks.Settings)
    ensures var qs := [Change(CommitTo("r", "main", "x"))];
            && Served(START, qs, conf)
            && ServeAll(START, qs, conf).store == Committed() && ServeAll(START, qs, conf).dropped == {}
  {
    var q := Change(CommitTo("r", "main", "x"));
    assert [q][1..] == [] && Served(Serve(START, q, conf), [], conf);
    assert ServeAll(Serve(START, q, conf), [], conf) == Serve(START, q, conf);
  }

  lemma NothingReplayedMisses(s: Server, c: Current)
    requires s.store == Committed() && ReadFrom(s, c)
    ensures IsMismatch(NOTHING, c, VisibleDiffer)
    ensures IsMismatch(NOTHING, c, HeadMissingInReplay(HeadKey("r", "main")))
  {
    CommittedFacts();
    assert "x" in VisibleIds(s.store);
    assert HeadOf(s.store, "r", "main").Some?;
  }

  /** A run after which the full check finds nothing, and a check from a checkpoint taken at its end reports the
      count of visible changesets and a missing head. */
  lemma CheckpointForgetsCommits(conf: Locks.Settings) returns (qs: seq<Request>, c: Current)
    ensures Served(START, qs, conf) && ReadFrom(ServeAll(START, qs, conf), c)
    ensures var s := ServeAll(START, qs, conf);
            var part := ReplayFrom(NOTHING, Later(s, s));
            && Consistent(ReplayFrom(NOTHING, s.log), c)
            && IsMismatch(part, c, VisibleDiffer) && IsMismatch(part, c, HeadMissingInReplay(HeadKey("r", "main")))
  {
    qs := [Change(CommitTo("r", "main", "x"))];
    FirstCommitRun(conf);
    CommittedKeys();
    CheckPassesExactlyWhen(qs, conf);
    var s := ServeAll(START, qs, conf);
    c := SomethingIsRead(s);
    NothingReplayedMisses(s, c);
    assert Later(s, s) == [];
  }

  // ---- a run in which two keys clash

  /** First commits to branch "main" of repository "a::b" and to branch "b::main" of repository "a". */
  function Clashing(): seq<Op> {
    [CommitTo("a::b", "main", "x"), CreateBranch("a", "b::main", None, "ann"), CommitTo("a", "b::main", "y")]
  }

  ghost function Clashed(n: nat): Repos
    requires n <= 3
  {
    if n == 0 then map[] else Step(Clashed(n - 1), Clashing()[n - 1])
  }

  lemma ClashingIsLegal(n: nat)
    requires n < 3
    ensures Legal(Clashed(n), Clashing()[n]) && Outcome(Clashed(n), Clashing()[n]).None?
    ensures n > 0 ==> Clashed(1).Keys == {"a::b"} && Clashed(1)["a::b"].changesets.Keys == {"x"}
    ensures n > 1 ==> Clashed(2).Keys == {"a::b", "a"} && Clashed(2)["a"].changesets.Keys == {}
    ensures n > 1 ==> Clashed(2)["a::b"] == Clashed(1)["a::b"]
    ensures n > 1 ==> forall b :: HeadOf(Clashed(2), "a", b) == None
  {
    if n > 0 {
      ClashingIsLegal(n - 1);
    }
  }

  lemma ClashedFacts()
    ensures forall r, b :: HeadOf(Clashed(3), r, b) ==
              if r == "a::b" && b == "main" then Some("x") else if r == "a" && b == "b::main" then Some("y") else None
    ensures Touched(Clashed(3), "a::b", "main") && Touched(Clashed(3), "a", "b::main")
  {
    ClashingIsLegal(2);
    assert OnBranch(Clashed(3), "a::b", "main", "x");
    assert OnBranch(Clashed(3), "a", "b::main", "y");
  }

  lemma ClashedKeys()
    ensures !TouchedKeysApart(Clashed(3)) && !HeadKeysApart(Clashed(3)) && AllKeysTouched(Clashed(3))
  {
    ClashedFacts();
    assert HeadKey("a::b", "main") == "a::b::main" == HeadKey("a", "b::main");
    assert Touched(Clashed(3), "a::b", "main") && HeadOf(Clashed(3), "a::b", "main").Some?;
    assert Touched(Clashed(3), "a", "b::main") && HeadOf(Clashed(3), "a", "b::main").Some?;
  }

  lemma ClashingRun(conf: Locks.Settings)
    ensures var qs := [Change(Clashing()[0]), Change(Clashing()[1]), Change(Clashing()[2])];
            && Served(START, qs, conf)
            && ServeAll(START, qs, conf).store == Clashed(3) && ServeAll(START, qs, conf).dropped == {}
  {
    ClashingIsLegal(0);
    ClashingIsLegal(1);
    ClashingIsLegal(2);
    ServeThree(START, Change(Clashing()[0]), Change(Clashing()[1]), Change(Clashing()[2]), conf);
    assert Clashed(1) == Step(map[], Clashing()[0]);
  }

  /** A run after which two branches with commits of their own have one key: the replay has the wrong head for one
      of them, and whether the check reports depends on the order of the rows. */
  lemma KeysMayClash(conf: Locks.Settings) returns (qs: seq<Request>)
    ensures Served(START, qs, conf)
    ensures var s := ServeAll(START, qs, conf);
            var a := ReplayFrom(NOTHING, s.log);
            && !TouchedKeysApart(s.store) && !HeadsAgree(s.store, a.heads)
            && (exists c :: ReadFrom(s, c) && Consistent(a, c)) && (exists c :: ReadFrom(s, c) && !Consistent(a, c))
  {
    qs := [Change(Clashing()[0]), Change(Clashing()[1]), Change(Clashing()[2])];
    ClashingRun(conf);
    ClashedKeys();
    ReplayRefinesServer(qs, conf);
    CheckPassesExactlyWhen(qs, conf);
  }
}
