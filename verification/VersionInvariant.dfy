/** What every operation of the version store keeps true: the cached histories are the lineages of
    the heads, the snapshots are the effect of the deltas, `base` agrees with `parent`, and a
    branch's own changesets are in its history exactly when they are visible. */
module VersionInvariant {
  import opened Prelude
  import opened Deltas
  import opened Lineage
  import opened Versioning

  /** The history cached for a branch is the lineage of its head. */
  ghost predicate HistoryOk(repo: Repo, b: BranchState) {
    match b.record.head
    case None => b.history == []
    case Some(h) => ChainTo(repo.changesets, b.history, h)
  }

  ghost predicate BranchOk(repo: Repo, name: string)
    requires name in repo.branches
  {
    var b := repo.branches[name];
    && b.record.name == name
    && (b.record.isDefault <==> name == repo.defaultBranch)
    && HistoryOk(repo, b)
  }

  /** A stored snapshot is the effect of the changeset's deltas on its parent's snapshot, and the
      deltas are recorded in normal form. */
  ghost predicate DeltasOk(repo: Repo, id: Id)
    requires id in repo.changesets
  {
    var c := repo.changesets[id];
    var before := SnapshotAt(repo, c.parent);
    && Normalise(before, c.assets) == c.assets
    && SnapshotOf(repo, id) == ApplyDeltas(before, c.assets)
    && WellKeyed(SnapshotOf(repo, id))
  }

  ghost predicate LinksOk(repo: Repo, id: Id)
    requires id in repo.changesets
  {
    var c := repo.changesets[id];
    && Grounded(repo.changesets, id)
    && c.base == (if c.parent.None? then Some(ROOT) else c.parent)
  }

  ghost predicate StatusOk(repo: Repo, id: Id)
    requires id in repo.changesets
  {
    var c := repo.changesets[id];
    && c.branch in repo.branches
    && (c.parent.Some? ==> c.parent.value in repo.branches[c.branch].history)
    && (c.status == Visible <==> id in repo.branches[c.branch].history)
    && c.visibleRef == (if c.status == Visible then Some(VisibleRef(c.branch)) else None)
    && (c.status == Approved ==> c.approvedBy.Some?)
    && (c.status != Visible ==> c.stagingRef == Some(StagingRef(c.repoId, c.branch, id)))
  }

  ghost predicate RecordOk(repoId: string, repo: Repo, id: Id)
    requires id in repo.changesets
  {
    && repo.changesets[id].id == id
    && repo.changesets[id].repoId == repoId
    && DeltasOk(repo, id)
    && LinksOk(repo, id)
    && StatusOk(repo, id)
  }

  ghost predicate RepoOk(repoId: string, repo: Repo) {
    && repo.defaultBranch in repo.branches
    && ROOT !in repo.changesets
    && repo.snapshots.Keys <= repo.changesets.Keys
    && (forall name {:trigger BranchOk(repo, name)} :: name in repo.branches ==> BranchOk(repo, name))
    && (forall id {:trigger RecordOk(repoId, repo, id)} :: id in repo.changesets ==> RecordOk(repoId, repo, id))
  }

  /** No changeset id is used in two repositories. */
  ghost predicate IdsApart(repos: Repos) {
    forall r, q :: r in repos && q in repos && r != q ==> repos[r].changesets.Keys !! repos[q].changesets.Keys
  }

  ghost predicate StoreOk(repos: Repos) {
    && (forall r :: r in repos ==> RepoOk(r, repos[r]))
    && IdsApart(repos)
  }

  // ---- small consequences

  lemma HeadIsKnown(repoId: string, repo: Repo, name: string)
    requires RepoOk(repoId, repo) && name in repo.branches
    ensures repo.branches[name].record.head.Some? ==>
              && repo.branches[name].record.head.value in repo.changesets
              && repo.branches[name].history != []
              && Last(repo.branches[name].history) == repo.branches[name].record.head.value
    ensures forall x :: x in repo.branches[name].history ==> x in repo.changesets
    ensures NoDuplicates(repo.branches[name].history)
  {
    assert BranchOk(repo, name);
    var b := repo.branches[name];
    if b.record.head.Some? {
      WalkHasNoDuplicates(repo.changesets, b.history, b.record.head.value);
      OnChain(repo.changesets, b.history, b.record.head.value);
    }
  }

  lemma SnapshotsAreWellKeyed(repoId: string, repo: Repo, at: Option<Id>)
    requires RepoOk(repoId, repo)
    ensures WellKeyed(SnapshotAt(repo, at))
  {
    if at.Some? && at.value in repo.changesets {
      assert RecordOk(repoId, repo, at.value);
    }
  }

  // ---- each operation on one repository

  lemma NewRepoOk(repoId: string, repo: Repo, who: string)
    requires repo.branches == map[] && repo.changesets == map[] && repo.snapshots == map[]
    ensures RepoOk(repoId, EnsureDefault(repo, who))
  {
  }

  lemma OpenRepoOk(repos: Repos, repoId: string, who: string)
    requires StoreOk(repos)
    ensures RepoOk(repoId, OpenRepo(repos, repoId, who))
    ensures repoId in repos ==> OpenRepo(repos, repoId, who) == repos[repoId]
    ensures repoId !in repos ==> OpenRepo(repos, repoId, who) == NewRepo("main", who)
  {
  }

  lemma BranchKeepsOk(repoId: string, repo: Repo, branch: string, from: Option<Id>, who: string)
    requires RepoOk(repoId, repo)
    ensures RepoOk(repoId, BranchEffect(repo, branch, from, who))
  {
    var repo' := BranchEffect(repo, branch, from, who);
    forall name | name in repo'.branches
      ensures BranchOk(repo', name)
    {
      assert name in repo.branches ==> BranchOk(repo, name);
    }
    forall id | id in repo'.changesets
      ensures RecordOk(repoId, repo', id)
    {
      assert RecordOk(repoId, repo, id);
    }
  }

  /** A new draft or visible changeset leaves all older records as they were. */
  lemma SubmitKeepsOld(repoId: string, repo: Repo, input: SubmitInput, id: Id, x: Id)
    requires RepoOk(repoId, repo) && input.repoId == repoId
    requires id !in repo.changesets && x in repo.changesets && SubmitError(repo, input).None?
    ensures RecordOk(repoId, SubmitEffect(repo, input, id), x)
  {
    var repo' := SubmitEffect(repo, input, id);
    var c := repo.changesets[x];
    assert RecordOk(repoId, repo, x);
    var w :| ChainTo(repo.changesets, w, x);
    ChainPersists(repo.changesets, repo'.changesets, w, x);
    OnChain(repo.changesets, w, x);
    assert SnapshotAt(repo', c.parent) == SnapshotAt(repo, c.parent);
  }

  lemma SubmitKeepsOk(repoId: string, repo: Repo, input: SubmitInput, id: Id)
    requires RepoOk(repoId, repo) && input.repoId == repoId
    requires id !in repo.changesets && id != ROOT
    ensures RepoOk(repoId, SubmitEffect(repo, input, id))
  {
    if SubmitError(repo, input).None? {
      var repo' := SubmitEffect(repo, input, id);
      var b := repo.branches[input.branch];
      HeadIsKnown(repoId, repo, input.branch);
      forall name | name in repo'.branches
        ensures BranchOk(repo', name)
      {
        assert BranchOk(repo, name);
        KeepsHistory(repo, repo', repo.branches[name]);
        SubmittedLinksOk(repoId, repo, input, id);
      }
      forall x | x in repo.changesets
        ensures RecordOk(repoId, repo', x)
      {
        SubmitKeepsOld(repoId, repo, input, id, x);
      }
      SubmittedIsOk(repoId, repo, input, id);
    }
  }

  lemma SubmittedDeltasOk(repoId: string, repo: Repo, input: SubmitInput, id: Id)
    requires RepoOk(repoId, repo) && id !in repo.changesets && SubmitError(repo, input).None?
    ensures DeltasOk(SubmitEffect(repo, input, id), id)
  {
    var head := repo.branches[input.branch].record.head;
    var before := SnapshotAt(repo, head);
    HeadIsKnown(repoId, repo, input.branch);
    assert SnapshotAt(SubmitEffect(repo, input, id), head) == before;
    NormaliseIsIdempotent(before, input.assets);
    NormalisedAppliesAlike(before, input.assets);
    SnapshotsAreWellKeyed(repoId, repo, head);
    ApplyKeepsKeys(before, input.assets);
  }

  lemma SubmittedLinksOk(repoId: string, repo: Repo, input: SubmitInput, id: Id)
    requires RepoOk(repoId, repo) && id !in repo.changesets && SubmitError(repo, input).None?
    ensures LinksOk(SubmitEffect(repo, input, id), id)
    ensures input.visibility == ShowNow ==>
              HistoryOk(SubmitEffect(repo, input, id), Advance(repo.branches[input.branch], id))
  {
    var cs := SubmitEffect(repo, input, id).changesets;
    var b := repo.branches[input.branch];
    assert BranchOk(repo, input.branch);
    if b.record.head.Some? {
      ChainPersists(repo.changesets, cs, b.history, b.record.head.value);
      ChainExtends(cs, b.history, b.record.head.value, id);
    } else {
      assert ChainTo(cs, [id], id);
    }
  }

  lemma SubmittedIsOk(repoId: string, repo: Repo, input: SubmitInput, id: Id)
    requires RepoOk(repoId, repo) && input.repoId == repoId
    requires id !in repo.changesets && SubmitError(repo, input).None?
    ensures RecordOk(repoId, SubmitEffect(repo, input, id), id)
  {
    SubmittedDeltasOk(repoId, repo, input, id);
    SubmittedLinksOk(repoId, repo, input, id);
    HeadIsKnown(repoId, repo, input.branch);
  }

  /** Everything but the workflow status of records is the same. */
  ghost predicate OnlyStatus(repo: Repo, repo': Repo) {
    && repo'.changesets.Keys == repo.changesets.Keys && repo'.snapshots == repo.snapshots
    && forall x {:trigger SameButStatus(repo.changesets[x], repo'.changesets[x])} ::
         x in repo.changesets ==> SameButStatus(repo.changesets[x], repo'.changesets[x])
  }

  /** Deltas, snapshots and links do not depend on the workflow status. */
  lemma StatusChangeKeepsRecord(repoId: string, repo: Repo, repo': Repo, x: Id)
    requires x in repo.changesets && RecordOk(repoId, repo, x) && OnlyStatus(repo, repo')
    ensures repo'.changesets[x].id == x && repo'.changesets[x].repoId == repoId
    ensures DeltasOk(repo', x) && LinksOk(repo', x)
  {
    assert SameButStatus(repo.changesets[x], repo'.changesets[x]);
    var w :| ChainTo(repo.changesets, w, x);
    StatusChangeKeepsParents(repo, repo');
    ChainPersists(repo.changesets, repo'.changesets, w, x);
  }

  lemma StatusChangeKeepsParents(repo: Repo, repo': Repo)
    requires OnlyStatus(repo, repo')
    ensures KeepsParents(repo.changesets, repo'.changesets)
  {
    forall x | x in repo.changesets
      ensures repo'.changesets[x].parent == repo.changesets[x].parent
    {
      assert SameButStatus(repo.changesets[x], repo'.changesets[x]);
    }
  }

  lemma KeepsHistory(repo: Repo, repo': Repo, b: BranchState)
    requires HistoryOk(repo, b) && KeepsParents(repo.changesets, repo'.changesets)
    ensures HistoryOk(repo', b)
  {
    if b.record.head.Some? {
      ChainPersists(repo.changesets, repo'.changesets, b.history, b.record.head.value);
    }
  }

  lemma StatusChangeKeepsBranch(repo: Repo, repo': Repo, name: string)
    requires OnlyStatus(repo, repo') && repo'.defaultBranch == repo.defaultBranch
    requires name in repo.branches && name in repo'.branches && repo'.branches[name] == repo.branches[name]
    requires BranchOk(repo, name)
    ensures BranchOk(repo', name)
  {
    StatusChangeKeepsParents(repo, repo');
    KeepsHistory(repo, repo', repo.branches[name]);
  }

  lemma ApproveKeepsRecord(repoId: string, repo: Repo, id: Id, who: string, x: Id)
    requires ApproveError(repo, id).None? && OnlyStatus(repo, ApproveEffect(repo, id, who))
    requires x in repo.changesets && RecordOk(repoId, repo, x)
    ensures RecordOk(repoId, ApproveEffect(repo, id, who), x)
  {
    StatusChangeKeepsRecord(repoId, repo, ApproveEffect(repo, id, who), x);
  }

  lemma ApproveKeepsBranches(repoId: string, repo: Repo, id: Id, who: string)
    requires RepoOk(repoId, repo) && OnlyStatus(repo, ApproveEffect(repo, id, who))
    ensures forall name | name in ApproveEffect(repo, id, who).branches :: BranchOk(ApproveEffect(repo, id, who), name)
  {
    var repo' := ApproveEffect(repo, id, who);
    forall name | name in repo'.branches
      ensures BranchOk(repo', name)
    {
      assert BranchOk(repo, name);
      StatusChangeKeepsBranch(repo, repo', name);
    }
  }

  lemma ApproveKeepsOk(repoId: string, repo: Repo, id: Id, who: string)
    requires RepoOk(repoId, repo)
    ensures RepoOk(repoId, ApproveEffect(repo, id, who))
  {
    if ApproveError(repo, id).None? {
      var repo' := ApproveEffect(repo, id, who);
      assert OnlyStatus(repo, repo');
      forall x | x in repo'.changesets
        ensures RecordOk(repoId, repo', x)
      {
        assert RecordOk(repoId, repo, x);
        ApproveKeepsRecord(repoId, repo, id, who, x);
      }
      ApproveKeepsBranches(repoId, repo, id, who);
    }
  }

  ghost predicate SameButStatus(c: Changeset, c': Changeset) {
    c' == c.(status := c'.status, approvedBy := c'.approvedBy, visibleRef := c'.visibleRef)
  }

  /** The guard against a changeset that is already in the history never fires. */
  lemma PromotedIsNotInHistory(repoId: string, repo: Repo, id: Id)
    requires RepoOk(repoId, repo) && PromoteError(repo, id).None?
    ensures id !in repo.branches[repo.changesets[id].branch].history
  {
    assert RecordOk(repoId, repo, id);
  }

  lemma PromoteKeepsBranch(repoId: string, repo: Repo, id: Id, who: string, name: string)
    requires RepoOk(repoId, repo) && PromoteError(repo, id).None? && name in repo.branches
    requires OnlyStatus(repo, PromoteEffect(repo, id, who))
    ensures BranchOk(PromoteEffect(repo, id, who), name)
  {
    var repo' := PromoteEffect(repo, id, who);
    var c := repo.changesets[id];
    var b := repo.branches[name];
    assert BranchOk(repo, name);
    StatusChangeKeepsParents(repo, repo');
    KeepsHistory(repo, repo', b);
    if name == c.branch {
      PromotedIsNotInHistory(repoId, repo, id);
      PromotedHasParent(repoId, repo, id);
      ChainExtends(repo'.changesets, b.history, b.record.head.value, id);
    }
  }

  /** A promotable changeset is a child of the current head. */
  lemma PromotedHasParent(repoId: string, repo: Repo, id: Id)
    requires RepoOk(repoId, repo) && PromoteError(repo, id).None?
    ensures repo.changesets[id].parent.Some?
    ensures repo.changesets[id].parent == repo.branches[repo.changesets[id].branch].record.head
  {
    assert RecordOk(repoId, repo, id);
    HeadIsKnown(repoId, repo, repo.changesets[id].branch);
  }

  lemma PromoteKeepsRecords(repoId: string, repo: Repo, id: Id, who: string)
    requires RepoOk(repoId, repo) && PromoteError(repo, id).None? && OnlyStatus(repo, PromoteEffect(repo, id, who))
    ensures forall x | x in repo.changesets :: RecordOk(repoId, PromoteEffect(repo, id, who), x)
  {
    var repo' := PromoteEffect(repo, id, who);
    forall x | x in repo.changesets
      ensures RecordOk(repoId, repo', x)
    {
      assert RecordOk(repoId, repo, x);
      StatusChangeKeepsRecord(repoId, repo, repo', x);
    }
  }

  lemma PromoteKeepsOk(repoId: string, repo: Repo, id: Id, who: string)
    requires RepoOk(repoId, repo)
    ensures RepoOk(repoId, PromoteEffect(repo, id, who))
  {
    if PromoteError(repo, id).None? {
      var repo' := PromoteEffect(repo, id, who);
      assert OnlyStatus(repo, repo');
      PromotedIsNotInHistory(repoId, repo, id);
      PromoteKeepsRecords(repoId, repo, id, who);
      forall name | name in repo'.branches
        ensures BranchOk(repo', name)
      {
        PromoteKeepsBranch(repoId, repo, id, who, name);
      }
    }
  }

  lemma DropEmptyKeepsOk(repoId: string, repo: Repo)
    requires RepoOk(repoId, repo)
    ensures RepoOk(repoId, DropEmpty(repo))
    ensures forall id :: SnapshotOf(DropEmpty(repo), id) == SnapshotOf(repo, id)
  {
    var repo' := DropEmpty(repo);
    assert forall id :: SnapshotOf(repo', id) == SnapshotOf(repo, id);
    forall x | x in repo'.changesets
      ensures RecordOk(repoId, repo', x)
    {
      assert RecordOk(repoId, repo, x);
      assert SnapshotAt(repo', repo.changesets[x].parent) == SnapshotAt(repo, repo.changesets[x].parent);
    }
    forall name | name in repo'.branches
      ensures BranchOk(repo', name)
    {
      assert BranchOk(repo, name);
    }
  }

  // ---- the whole store

  /** Replacing one repository by a good one keeps the store good, as long as any new changeset id
      is new to the whole store. */
  lemma ReplaceKeepsOk(repos: Repos, r: string, repo: Repo)
    requires StoreOk(repos) && RepoOk(r, repo)
    requires forall id :: id in repo.changesets ==>
                            (r in repos && id in repos[r].changesets) || FreshId(repos, id)
    ensures StoreOk(repos[r := repo])
  {
  }

  lemma StepKeepsOk(repos: Repos, op: Op)
    requires StoreOk(repos) && Legal(repos, op)
    ensures StoreOk(Step(repos, op))
  {
    match op
    case CreateRepo(r, d, who) =>
      NewRepoOk(r, Repo(d, map[], map[], map[]), who);
      if r !in repos {
        ReplaceKeepsOk(repos, r, NewRepo(d, who));
      }
    case CreateBranch(r, b, from, who) =>
      OpenRepoOk(repos, r, who);
      BranchKeepsOk(r, OpenRepo(repos, r, who), b, from, who);
      ReplaceKeepsOk(repos, r, BranchEffect(OpenRepo(repos, r, who), b, from, who));
    case Submit(input, id) =>
      var repo := OpenRepo(repos, input.repoId, input.author);
      OpenRepoOk(repos, input.repoId, input.author);
      SubmitKeepsOk(input.repoId, repo, input, id);
      ReplaceKeepsOk(repos, input.repoId, SubmitEffect(repo, input, id));
    case Approve(r, id, who) =>
      if r in repos {
        ApproveKeepsOk(r, repos[r], id, who);
        ReplaceKeepsOk(repos, r, ApproveEffect(repos[r], id, who));
      }
    case Promote(r, id, who) =>
      if r in repos {
        PromoteKeepsOk(r, repos[r], id, who);
        ReplaceKeepsOk(repos, r, PromoteEffect(repos[r], id, who));
      }
    case Restart =>
      forall r | r in repos
        ensures RepoOk(r, DropEmpty(repos[r]))
      {
        DropEmptyKeepsOk(r, repos[r]);
      }
  }

  lemma {:induction false} RunKeepsOk(repos: Repos, ops: seq<Op>)
    requires StoreOk(repos) && LegalRun(repos, ops)
    ensures StoreOk(Exec(repos, ops))
    decreases |ops|
  {
    if ops != [] {
      StepKeepsOk(repos, ops[0]);
      RunKeepsOk(Step(repos, ops[0]), ops[1..]);
    }
  }

  /** In every reachable store every cached history is the lineage of its head, every snapshot is
      the effect of its deltas, and every changeset is visible exactly when its own branch lists it. */
  lemma ReachableIsOk(repos: Repos)
    requires Reachable(repos)
    ensures StoreOk(repos)
  {
    var ops :| LegalRun(map[], ops) && Exec(map[], ops) == repos;
    RunKeepsOk(map[], ops);
  }

  lemma LeadsKeepsOk(repos: Repos, repos': Repos)
    requires StoreOk(repos) && Leads(repos, repos')
    ensures StoreOk(repos')
  {
    var ops :| LegalRun(repos, ops) && Exec(repos, ops) == repos';
    RunKeepsOk(repos, ops);
  }
}
