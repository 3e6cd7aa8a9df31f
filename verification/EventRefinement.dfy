/** The recorded events against the state they describe: what a replay of the log knows, after any
    sequence of requests whose events were all recorded. */
module EventRefinement {
  import opened Prelude
  import opened Lineage
  import opened Versioning
  import opened VersionInvariant
  import opened VersionRuns
  import Locks
  import opened Replay

  /** The server's state, its event log, and the paths whose lock was dropped without an event. */
  datatype Server = Server(store: Repos, locks: Locks.LockTable, log: seq<Event>, dropped: set<string>)

  const START := Server(map[], map[], [], {})

  datatype Request =
    | Change(op: Op)
    | RollbackTo(input: SubmitInput, newId: Id)
    | LockFile(path: string, owner: string, now: int)
    | RenewFile(path: string, owner: string, now: int)
    | UnlockFile(path: string, owner: string)
    | ForceUnlockFile(path: string)

  ghost predicate Allowed(s: Server, q: Request) {
    match q
    case Change(op) => Legal(s.store, op)
    case RollbackTo(input, id) => input.visibility == ShowNow && FreshId(s.store, id)
    case _ => true
  }

  function PathEvent(kind: EventType, path: string): seq<Event> {
    [Event(kind, None, None, None, Some(path))]
  }

  function ChangesetEvent(kind: EventType, r: string, id: Id, branch: string): seq<Event> {
    [Event(kind, Some(r), Some(id), Some(branch), None)]
  }

  /** Creating a repository or a branch records nothing; a failed request records nothing. */
  ghost function ChangeEvents(repos: Repos, op: Op): seq<Event> {
    if Outcome(repos, op).Some? then []
    else match op
      case Submit(input, id) =>
        ChangesetEvent(if input.visibility == AsDraft then OtherEvent("CHANGESET_CREATED_DRAFT") else ChangesetVisible,
                       input.repoId, id, input.branch)
      case Approve(r, id, _) => ChangesetEvent(ChangesetApproved, r, id, repos[r].changesets[id].branch)
      case Promote(r, id, _) => ChangesetEvent(ChangesetPromoted, r, id, repos[r].changesets[id].branch)
      case _ => []
  }

  ghost function Serve(s: Server, q: Request, conf: Locks.Settings): Server {
    match q
    case Change(op) => s.(store := Step(s.store, op), log := s.log + ChangeEvents(s.store, op))
    case RollbackTo(input, id) =>
      var op := Submit(input, id);
      s.(store := Step(s.store, op),
         log := s.log + if Outcome(s.store, op).Some? then []
                        else ChangesetEvent(RollbackVisible, input.repoId, id, input.branch))
    case LockFile(p, o, now) =>
      s.(locks := Locks.AcquireEffect(s.locks, p, o, conf, now),
         log := s.log + if Locks.AcquireResult(s.locks, p, o, conf, now).Ok? then PathEvent(LockAcquired, p) else [],
         dropped := if Locks.AcquireResult(s.locks, p, o, conf, now).Ok? then s.dropped - {p} else s.dropped)
    case RenewFile(p, o, now) =>
      var r := Locks.RenewResult(s.locks, p, o, conf, now);
      s.(locks := Locks.RenewEffect(s.locks, p, o, conf, now),
         log := s.log + if r.Ok? then PathEvent(OtherEvent("LOCK_RENEWED"), p) else [],
         dropped := if r == Err(Locks.LeaseExpired) then s.dropped + {p} else s.dropped)
    case UnlockFile(p, o) =>
      s.(locks := Locks.UnlockEffect(s.locks, p, o),
         log := s.log + if Locks.UnlockResult(s.locks, p, o).Ok? then PathEvent(LockReleased, p) else [])
    case ForceUnlockFile(p) =>
      s.(locks := s.locks - {p}, log := s.log + if p in s.locks then PathEvent(LockForceReleased, p) else [])
  }

  ghost predicate Served(s: Server, qs: seq<Request>, conf: Locks.Settings)
    decreases |qs|
  {
    qs == [] || (Allowed(s, qs[0]) && Served(Serve(s, qs[0], conf), qs[1..], conf))
  }

  ghost function ServeAll(s: Server, qs: seq<Request>, conf: Locks.Settings): Server
    decreases |qs|
  {
    if qs == [] then s else ServeAll(Serve(s, qs[0], conf), qs[1..], conf)
  }

  // ---- string keys for branches

  /** One of the two ids, followed by the separator, begins with the other followed by the separator. */
  predicate KeysMeet(r: string, q: string) {
    r + "::" <= q + "::" || q + "::" <= r + "::"
  }

  /** Two repositories can have branches with the same key exactly when their ids meet. */
  lemma KeysClashIff(r: string, q: string)
    requires r != q
    ensures (exists b, c :: HeadKey(r, b) == HeadKey(q, c)) <==> KeysMeet(r, q)
  {
    if b, c :| HeadKey(r, b) == HeadKey(q, c) {
      var key := HeadKey(r, b);
      assert r + "::" == key[..|r| + 2] && q + "::" == key[..|q| + 2];
    }
    if r + "::" <= q + "::" {
      assert HeadKey(r, (q + "::")[|r| + 2..]) == HeadKey(q, "");
    }
    if q + "::" <= r + "::" {
      assert HeadKey(q, (r + "::")[|q| + 2..]) == HeadKey(r, "");
    }
  }

  /** Within one repository keys never clash. */
  lemma KeysOfOneRepo(r: string, b: string, c: string)
    requires HeadKey(r, b) == HeadKey(r, c)
    ensures b == c
  {
    assert HeadKey(r, b)[|r| + 2..] == b && HeadKey(r, c)[|r| + 2..] == c;
  }

  // ---- what a step makes visible

  datatype Shown = Shown(repoId: string, branch: string, id: Id)

  /** The changeset a step makes visible, if any. */
  ghost function ShownBy(repos: Repos, op: Op): Option<Shown> {
    if Outcome(repos, op).Some? then None
    else match op
      case Submit(input, id) =>
        if input.visibility == ShowNow then Some(Shown(input.repoId, input.branch, id)) else None
      case Promote(r, id, _) => Some(Shown(r, repos[r].changesets[id].branch, id))
      case _ => None
  }

  ghost predicate OnBranch(repos: Repos, r: string, b: string, id: Id) {
    IsVisible(repos, r, id) && repos[r].changesets[id].branch == b
  }

  /** The branch has had a visible submit or a promotion of its own. */
  ghost predicate Touched(repos: Repos, r: string, b: string) {
    exists id :: OnBranch(repos, r, b, id)
  }

  function HeadOf(repos: Repos, r: string, b: string): Option<Id> {
    if r in repos && b in repos[r].branches then repos[r].branches[b].record.head else None
  }

  /** A step adds at most the shown changeset to the visible ones of its branch. */
  lemma StepShows(repos: Repos, op: Op, r: string, b: string, id: Id)
    requires StoreOk(repos) && Legal(repos, op)
    ensures OnBranch(Step(repos, op), r, b, id)
            <==> OnBranch(repos, r, b, id) || ShownBy(repos, op) == Some(Shown(r, b, id))
  {
    match op
    case CreateRepo(q, d, who) =>
    case CreateBranch(q, c, from, who) => OpenRepoOk(repos, q, who);
    case Submit(input, x) => SubmitShows(repos, input, x, r, b, id);
    case Approve(q, x, who) =>
    case Promote(q, x, who) =>
    case Restart =>
  }

  lemma SubmitShows(repos: Repos, input: SubmitInput, x: Id, r: string, b: string, id: Id)
    requires StoreOk(repos) && Legal(repos, Submit(input, x))
    ensures OnBranch(Step(repos, Submit(input, x)), r, b, id)
            <==> OnBranch(repos, r, b, id) || ShownBy(repos, Submit(input, x)) == Some(Shown(r, b, id))
  {
    OpenRepoOk(repos, input.repoId, input.author);
  }

  lemma SubmitMovesHead(repos: Repos, input: SubmitInput, x: Id, r: string, b: string)
    requires StoreOk(repos) && Legal(repos, Submit(input, x))
    ensures var op := Submit(input, x);
            && (ShowsOn(repos, op, r, b) ==> HeadOf(Step(repos, op), r, b) == Some(ShownBy(repos, op).value.id))
            && (r in repos && b in repos[r].branches && !ShowsOn(repos, op, r, b) ==>
                  HeadOf(Step(repos, op), r, b) == HeadOf(repos, r, b))
  {
    OpenRepoOk(repos, input.repoId, input.author);
  }

  /** A step moves only the head of the branch it shows a changeset on. */
  lemma StepMovesHead(repos: Repos, op: Op, r: string, b: string)
    requires StoreOk(repos) && Legal(repos, op)
    ensures ShowsOn(repos, op, r, b) ==> HeadOf(Step(repos, op), r, b) == Some(ShownBy(repos, op).value.id)
    ensures r in repos && b in repos[r].branches && !ShowsOn(repos, op, r, b) ==>
              HeadOf(Step(repos, op), r, b) == HeadOf(repos, r, b)
  {
    match op
    case CreateRepo(q, d, who) =>
    case CreateBranch(q, c, from, who) => OpenRepoOk(repos, q, who);
    case Submit(input, x) => SubmitMovesHead(repos, input, x, r, b);
    case Approve(q, x, who) =>
    case Promote(q, x, who) =>
    case Restart =>
  }

  // ---- the refinement

  ghost predicate VisibleAgree(repos: Repos, visible: set<Id>) {
    forall id :: id in visible <==> exists r, b :: OnBranch(repos, r, b, id)
  }

  /** The replay has the head of every branch with a visible commit of its own. */
  ghost predicate HeadsAgree(repos: Repos, heads: map<string, Id>) {
    forall r, b {:trigger Touched(repos, r, b)} :: Touched(repos, r, b) ==> HeadAgrees(repos, heads, r, b)
  }

  /** The key of every branch with a visible commit of its own is replayed, and every replayed head is the present
      head of some such branch with that key. */
  ghost predicate HeadsKnown(repos: Repos, heads: map<string, Id>) {
    && (forall r, b {:trigger Touched(repos, r, b)} :: Touched(repos, r, b) ==> HeadKey(r, b) in heads)
    && (forall key :: key in heads ==> exists r, b :: HeadUnder(repos, key, heads[key], r, b))
  }

  ghost predicate HeadUnder(repos: Repos, key: string, id: Id, r: string, b: string) {
    Touched(repos, r, b) && key == HeadKey(r, b) && HeadOf(repos, r, b) == Some(id)
  }

  /** Branches with visible commits of their own have different keys. */
  ghost predicate TouchedKeysApart(repos: Repos) {
    forall r, b, q, c {:trigger Touched(repos, r, b), Touched(repos, q, c)} ::
      Touched(repos, r, b) && Touched(repos, q, c) && HeadKey(r, b) == HeadKey(q, c) ==> r == q && b == c
  }

  ghost predicate Refines(s: Server) {
    var a := ReplayFrom(NOTHING, s.log);
    && StoreOk(s.store)
    && VisibleAgree(s.store, a.visible)
    && HeadsKnown(s.store, a.heads)
    && LocksAgree(a.locks, s)
  }

  lemma ReplayOne(log: seq<Event>, e: Event)
    ensures ReplayFrom(NOTHING, log + [e]) == Apply(ReplayFrom(NOTHING, log), e)
  {
    assert (log + [e])[..|log|] == log;
  }

  lemma VisibleStep(repos: Repos, op: Op, visible: set<Id>)
    requires StoreOk(repos) && Legal(repos, op) && VisibleAgree(repos, visible)
    ensures VisibleAgree(Step(repos, op),
                         visible + if ShownBy(repos, op).Some? then {ShownBy(repos, op).value.id} else {})
  {
    forall r, b, id
      ensures OnBranch(Step(repos, op), r, b, id)
              <==> OnBranch(repos, r, b, id) || ShownBy(repos, op) == Some(Shown(r, b, id))
    {
      StepShows(repos, op, r, b, id);
    }
    if sh :| ShownBy(repos, op) == Some(sh) {
      assert OnBranch(Step(repos, op), sh.repoId, sh.branch, sh.id);
    }
  }

  /** The step shows a changeset on this branch. */
  ghost predicate ShowsOn(repos: Repos, op: Op, r: string, b: string) {
    ShownBy(repos, op).Some? && ShownBy(repos, op).value.repoId == r && ShownBy(repos, op).value.branch == b
  }

  lemma TouchedStep(repos: Repos, op: Op, r: string, b: string)
    requires StoreOk(repos) && Legal(repos, op)
    ensures Touched(Step(repos, op), r, b) <==> Touched(repos, r, b) || ShowsOn(repos, op, r, b)
  {
    forall id
      ensures OnBranch(Step(repos, op), r, b, id)
              <==> OnBranch(repos, r, b, id) || ShownBy(repos, op) == Some(Shown(r, b, id))
    {
      StepShows(repos, op, r, b, id);
    }
    if ShowsOn(repos, op, r, b) {
      assert OnBranch(Step(repos, op), r, b, ShownBy(repos, op).value.id);
    }
  }

  ghost function HeadsAfter(repos: Repos, op: Op, heads: map<string, Id>): map<string, Id> {
    var sh := ShownBy(repos, op);
    if sh.Some? then heads[HeadKey(sh.value.repoId, sh.value.branch) := sh.value.id] else heads
  }

  ghost predicate HeadAgrees(repos: Repos, heads: map<string, Id>, r: string, b: string) {
    HeadKey(r, b) in heads && HeadOf(repos, r, b) == Some(heads[HeadKey(r, b)])
  }

  lemma KnownStep(repos: Repos, op: Op, heads: map<string, Id>)
    requires StoreOk(repos) && Legal(repos, op) && HeadsKnown(repos, heads)
    ensures HeadsKnown(Step(repos, op), HeadsAfter(repos, op, heads))
  {
    forall r, b | Touched(Step(repos, op), r, b)
      ensures HeadKey(r, b) in HeadsAfter(repos, op, heads)
    {
      TouchedStep(repos, op, r, b);
    }
    forall key | key in HeadsAfter(repos, op, heads)
      ensures exists r, b :: HeadUnder(Step(repos, op), key, HeadsAfter(repos, op, heads)[key], r, b)
    {
      KnownHeadStep(repos, op, heads, key);
    }
  }

  lemma KnownHeadStep(repos: Repos, op: Op, heads: map<string, Id>, key: string)
    requires StoreOk(repos) && Legal(repos, op) && HeadsKnown(repos, heads) && key in HeadsAfter(repos, op, heads)
    ensures exists r, b :: HeadUnder(Step(repos, op), key, HeadsAfter(repos, op, heads)[key], r, b)
  {
    var sh := ShownBy(repos, op);
    var r, b;
    if sh.Some? && key == HeadKey(sh.value.repoId, sh.value.branch) {
      r, b := sh.value.repoId, sh.value.branch;
    } else {
      r, b :| HeadUnder(repos, key, heads[key], r, b);
      TouchedIsThere(repos, r, b);
    }
    TouchedStep(repos, op, r, b);
    StepMovesHead(repos, op, r, b);
    assert HeadUnder(Step(repos, op), key, HeadsAfter(repos, op, heads)[key], r, b);
  }

  lemma TouchedIsThere(repos: Repos, r: string, b: string)
    requires StoreOk(repos) && Touched(repos, r, b)
    ensures r in repos && b in repos[r].branches
  {
    var id :| OnBranch(repos, r, b, id);
    assert RecordOk(r, repos[r], id);
  }

  /** The events a store step records: one that names the shown changeset, or none that replay uses. */
  ghost predicate Announces(repos: Repos, op: Op, events: seq<Event>) {
    match ShownBy(repos, op)
    case None => events == [] || (|events| == 1 && (events[0].kind == ChangesetApproved || events[0].kind.OtherEvent?))
    case Some(sh) => |events| == 1 && Shows(events[0].kind) && events[0].repoId == Some(sh.repoId)
                     && events[0].branch == Some(sh.branch) && events[0].changesetId == Some(sh.id)
  }

  lemma AnnouncedEvent(a: Accumulated, shown: Option<Shown>, e: Event)
    requires shown.None? ==> e.kind == ChangesetApproved || e.kind.OtherEvent?
    requires shown.Some? ==> Shows(e.kind) && e.repoId == Some(shown.value.repoId)
                             && e.branch == Some(shown.value.branch) && e.changesetId == Some(shown.value.id)
    ensures Apply(a, e).visible == a.visible + (if shown.Some? then {shown.value.id} else {})
    ensures Apply(a, e).locks == a.locks
    ensures Apply(a, e).heads == if shown.None? then a.heads
                                 else a.heads[HeadKey(shown.value.repoId, shown.value.branch) := shown.value.id]
  {
  }

  lemma AnnouncedReplay(repos: Repos, op: Op, log: seq<Event>, events: seq<Event>)
    requires Announces(repos, op, events)
    ensures var a, a' := ReplayFrom(NOTHING, log), ReplayFrom(NOTHING, log + events);
            && a'.visible == a.visible + (if ShownBy(repos, op).Some? then {ShownBy(repos, op).value.id} else {})
            && a'.heads == HeadsAfter(repos, op, a.heads)
            && a'.locks == a.locks
  {
    if events == [] {
      assert log + events == log;
    } else {
      assert events == [events[0]];
      ReplayOne(log, events[0]);
      AnnouncedEvent(ReplayFrom(NOTHING, log), ShownBy(repos, op), events[0]);
    }
  }

  /** A store step and its event, seen by the replay. */
  lemma ChangeKeepsAgreement(repos: Repos, op: Op, log: seq<Event>, events: seq<Event>)
    requires StoreOk(repos) && Legal(repos, op) && Announces(repos, op, events)
    requires VisibleAgree(repos, ReplayFrom(NOTHING, log).visible) && HeadsKnown(repos, ReplayFrom(NOTHING, log).heads)
    ensures StoreOk(Step(repos, op))
    ensures VisibleAgree(Step(repos, op), ReplayFrom(NOTHING, log + events).visible)
    ensures HeadsKnown(Step(repos, op), ReplayFrom(NOTHING, log + events).heads)
    ensures ReplayFrom(NOTHING, log + events).locks == ReplayFrom(NOTHING, log).locks
  {
    StepKeepsOk(repos, op);
    VisibleStep(repos, op, ReplayFrom(NOTHING, log).visible);
    KnownStep(repos, op, ReplayFrom(NOTHING, log).heads);
    AnnouncedReplay(repos, op, log, events);
  }

  lemma ServeRefines(s: Server, q: Request, conf: Locks.Settings)
    requires Refines(s) && Allowed(s, q)
    ensures Refines(Serve(s, q, conf))
  {
    match q
    case Change(op) =>
      ChangeKeepsAgreement(s.store, op, s.log, ChangeEvents(s.store, op));
    case RollbackTo(input, id) =>
      var op := Submit(input, id);
      var events := if Outcome(s.store, op).Some? then []
                    else ChangesetEvent(RollbackVisible, input.repoId, id, input.branch);
      ChangeKeepsAgreement(s.store, op, s.log, events);
    case LockFile(p, o, now) => LockRefines(s, q, conf);
    case RenewFile(p, o, now) => LockRefines(s, q, conf);
    case UnlockFile(p, o) => LockRefines(s, q, conf);
    case ForceUnlockFile(p) => LockRefines(s, q, conf);
  }

  ghost predicate LocksAgree(locks: set<string>, s: Server) {
    locks == s.locks.Keys + s.dropped && s.locks.Keys !! s.dropped
  }

  /** One recorded lock event, seen by the replay. */
  lemma LockEvent(log: seq<Event>, kind: EventType, path: string)
    requires !Shows(kind)
    ensures var a, a' := ReplayFrom(NOTHING, log), ReplayFrom(NOTHING, log + PathEvent(kind, path));
            && a'.visible == a.visible && a'.heads == a.heads
            && a'.locks == (if kind == LockAcquired then a.locks + {path}
                            else if kind == LockReleased || kind == LockForceReleased then a.locks - {path}
                            else a.locks)
  {
    ReplayOne(log, Event(kind, None, None, None, Some(path)));
  }

  ghost predicate LockReplayed(s: Server, s': Server) {
    var a, a' := ReplayFrom(NOTHING, s.log), ReplayFrom(NOTHING, s'.log);
    s'.store == s.store && a'.visible == a.visible && a'.heads == a.heads && LocksAgree(a'.locks, s')
  }

  lemma LockReplay(s: Server, p: string, o: string, now: int, conf: Locks.Settings)
    requires LocksAgree(ReplayFrom(NOTHING, s.log).locks, s)
    ensures LockReplayed(s, Serve(s, LockFile(p, o, now), conf))
  {
    assert s.log + [] == s.log;
    var ok := Locks.AcquireResult(s.locks, p, o, conf, now).Ok?;
    assert Locks.AcquireEffect(s.locks, p, o, conf, now).Keys == s.locks.Keys + if ok then {p} else {};
    if ok {
      LockEvent(s.log, LockAcquired, p);
    }
  }

  lemma RenewReplay(s: Server, p: string, o: string, now: int, conf: Locks.Settings)
    requires LocksAgree(ReplayFrom(NOTHING, s.log).locks, s)
    ensures LockReplayed(s, Serve(s, RenewFile(p, o, now), conf))
  {
    assert s.log + [] == s.log;
    RenewedPaths(s.locks, p, o, now, conf);
    if Locks.RenewResult(s.locks, p, o, conf, now).Ok? {
      LockEvent(s.log, OtherEvent("LOCK_RENEWED"), p);
    }
  }

  lemma RenewedPaths(t: Locks.LockTable, p: string, o: string, now: int, conf: Locks.Settings)
    ensures var r, paths := Locks.RenewResult(t, p, o, conf, now), Locks.RenewEffect(t, p, o, conf, now).Keys;
            if r == Err(Locks.LeaseExpired) then p in t && paths == t.Keys - {p} else paths == t.Keys
  {
  }

  lemma UnlockReplay(s: Server, p: string, o: string, conf: Locks.Settings)
    requires LocksAgree(ReplayFrom(NOTHING, s.log).locks, s)
    ensures LockReplayed(s, Serve(s, UnlockFile(p, o), conf))
  {
    assert s.log + [] == s.log;
    LockEvent(s.log, LockReleased, p);
  }

  lemma ForceReplay(s: Server, p: string, conf: Locks.Settings)
    requires LocksAgree(ReplayFrom(NOTHING, s.log).locks, s)
    ensures LockReplayed(s, Serve(s, ForceUnlockFile(p), conf))
  {
    assert s.log + [] == s.log;
    LockEvent(s.log, LockForceReleased, p);
  }

  lemma LockRefines(s: Server, q: Request, conf: Locks.Settings)
    requires Refines(s) && !q.Change? && !q.RollbackTo?
    ensures Refines(Serve(s, q, conf))
  {
    match q
    case LockFile(p, o, now) => LockReplay(s, p, o, now, conf);
    case RenewFile(p, o, now) => RenewReplay(s, p, o, now, conf);
    case UnlockFile(p, o) => UnlockReplay(s, p, o, conf);
    case ForceUnlockFile(p) => ForceReplay(s, p, conf);
  }

  lemma {:induction false} ServeAllRefines(s: Server, qs: seq<Request>, conf: Locks.Settings)
    requires Refines(s) && Served(s, qs, conf)
    ensures Refines(ServeAll(s, qs, conf))
    decreases |qs|
  {
    if qs != [] {
      ServeRefines(s, qs[0], conf);
      ServeAllRefines(Serve(s, qs[0], conf), qs[1..], conf);
    }
  }

  lemma StartRefines()
    ensures Refines(START)
  {
  }

  /** Heads of different repositories are different changesets, so one key cannot agree with both. */
  lemma AgreementNeedsKeysApart(repos: Repos, heads: map<string, Id>)
    requires StoreOk(repos) && HeadsAgree(repos, heads)
    ensures TouchedKeysApart(repos)
  {
    forall r, b, q, c | Touched(repos, r, b) && Touched(repos, q, c) && HeadKey(r, b) == HeadKey(q, c)
      ensures r == q && b == c
    {
      if r == q {
        KeysOfOneRepo(r, b, c);
      } else {
        TouchedHasHead(repos, r, b);
        HeadsOfReposDiffer(repos, r, b, q, c);
      }
    }
  }

  lemma HeadsOfReposDiffer(repos: Repos, r: string, b: string, q: string, c: string)
    requires StoreOk(repos) && HeadOf(repos, r, b).Some? && r != q
    ensures HeadOf(repos, r, b) != HeadOf(repos, q, c)
  {
    HeadIsKnown(r, repos[r], b);
    if HeadOf(repos, q, c).Some? {
      HeadIsKnown(q, repos[q], c);
      assert repos[r].changesets.Keys !! repos[q].changesets.Keys;
    }
  }

  /** Where keys differ, the replay has the present head of every branch with a visible commit of its own. */
  lemma KnownHeadsAgree(repos: Repos, heads: map<string, Id>)
    requires HeadsKnown(repos, heads) && TouchedKeysApart(repos)
    ensures HeadsAgree(repos, heads)
  {
    forall r, b | Touched(repos, r, b)
      ensures HeadAgrees(repos, heads, r, b)
    {
      var key := HeadKey(r, b);
      var q, c :| HeadUnder(repos, key, heads[key], q, c);
    }
  }

  /** After any sequence of requests with all events recorded: the replayed visible set is exactly the visible
      changesets; under the key of every branch that had a visible submit or promotion of its own the replay has
      the head of some such branch, and of every one exactly when these branches have different keys; the replayed
      locks are the held ones plus the paths whose expired lock a renewal dropped. */
  lemma ReplayRefinesServer(qs: seq<Request>, conf: Locks.Settings)
    requires Served(START, qs, conf)
    ensures var s := ServeAll(START, qs, conf);
            var a := ReplayFrom(NOTHING, s.log);
            && (forall id :: id in a.visible <==> exists r :: IsVisible(s.store, r, id))
            && HeadsKnown(s.store, a.heads)
            && (HeadsAgree(s.store, a.heads) <==> TouchedKeysApart(s.store))
            && s.locks.Keys <= a.locks
            && (a.locks == s.locks.Keys <==> s.dropped == {})
  {
    StartRefines();
    ServeAllRefines(START, qs, conf);
    var s := ServeAll(START, qs, conf);
    var a := ReplayFrom(NOTHING, s.log);
    forall id
      ensures id in a.visible <==> exists r :: IsVisible(s.store, r, id)
    {
      if r :| IsVisible(s.store, r, id) {
        assert OnBranch(s.store, r, s.store[r].changesets[id].branch, id);
      }
    }
    if HeadsAgree(s.store, a.heads) {
      AgreementNeedsKeysApart(s.store, a.heads);
    } else if TouchedKeysApart(s.store) {
      KnownHeadsAgree(s.store, a.heads);
    }
  }

  /** Repository ids that do not meet keep all branch keys apart. */
  ghost predicate IdsDoNotMeet(repos: Repos) {
    forall r, q :: r in repos && q in repos && r != q ==> !KeysMeet(r, q)
  }

  lemma IdsKeepKeysApart(repos: Repos, r: string, b: string, q: string, c: string)
    requires IdsDoNotMeet(repos) && r in repos && q in repos && HeadKey(r, b) == HeadKey(q, c)
    ensures r == q && b == c
  {
    if r == q {
      KeysOfOneRepo(r, b, c);
    } else {
      KeysClashIff(r, q);
    }
  }

  /** Branches that have a head have different keys. */
  ghost predicate HeadKeysApart(repos: Repos) {
    forall r, b, q, c {:trigger HeadOf(repos, r, b), HeadOf(repos, q, c)} ::
      HeadOf(repos, r, b).Some? && HeadOf(repos, q, c).Some? && HeadKey(r, b) == HeadKey(q, c) ==> r == q && b == c
  }

  lemma IdsKeepHeadKeysApart(repos: Repos)
    requires IdsDoNotMeet(repos)
    ensures HeadKeysApart(repos)
  {
    forall r, b, q, c | HeadOf(repos, r, b).Some? && HeadOf(repos, q, c).Some? && HeadKey(r, b) == HeadKey(q, c)
      ensures r == q && b == c
    {
      IdsKeepKeysApart(repos, r, b, q, c);
    }
  }

  lemma TouchedHasHead(repos: Repos, r: string, b: string)
    requires StoreOk(repos) && Touched(repos, r, b)
    ensures HeadOf(repos, r, b).Some?
  {
    var id :| OnBranch(repos, r, b, id);
    assert RecordOk(r, repos[r], id) && BranchOk(repos[r], b);
  }
}
