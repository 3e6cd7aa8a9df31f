/** The version manager as the object it is: one map of repositories, updated in place by each
    operation under its write lock. */
module VersionManagers {
  import opened Prelude
  import opened Deltas
  import opened Lineage
  import opened Versioning
  import opened VersionInvariant
  import opened VersionRuns
  import opened Observers
  import opened Operations
  import opened Sorting

  class VersionManager {
    var repos: Repos

    /** The agreement of the manager's redundant views, which no method checks and every one keeps. */
    ghost predicate Valid()
      reads this
    {
      StoreOk(repos)
    }

    constructor ()
      ensures Valid() && repos == map[]
    {
      repos := map[];
    }

    /** A manager over repositories loaded from the database. */
    constructor WithPg(loaded: Repos)
      requires StoreOk(loaded)
      ensures Valid() && repos == loaded
    {
      repos := loaded;
    }

    method CreateRepo(repoId: string, defaultBranch: string, who: string) returns (r: Result<Repo, Error>)
      requires Valid()
      modifies this
      ensures Valid() && repos == Step(old(repos), Op.CreateRepo(repoId, defaultBranch, who))
      ensures r == if repoId in old(repos) then Err(RepoAlreadyExists) else Ok(NewRepo(defaultBranch, who))
    {
      StepKeepsOk(repos, Op.CreateRepo(repoId, defaultBranch, who));
      if repoId in repos {
        return Err(RepoAlreadyExists);
      }
      var repo := NewRepo(defaultBranch, who);
      repos := repos[repoId := repo];
      r := Ok(repo);
    }

    /** The repository is created on first use, even when the branch then cannot be. */
    method CreateBranch(repoId: string, branch: string, from: Option<Id>, who: string)
      returns (r: Result<BranchState, Error>)
      requires Valid()
      modifies this
      ensures Valid() && repos == Step(old(repos), Op.CreateBranch(repoId, branch, from, who))
      ensures r == BranchResult(OpenRepo(old(repos), repoId, who), branch, from, who)
    {
      StepKeepsOk(repos, Op.CreateBranch(repoId, branch, from, who));
      OpenRepoOk(repos, repoId, who);
      var repo := OpenRepo(repos, repoId, who);
      repo, r := AddBranch(repoId, repo, branch, from, who);
      repos := repos[repoId := repo];
    }

    method Submit(input: SubmitInput, newId: Id) returns (r: Result<Changeset, Error>)
      requires Valid() && FreshId(repos, newId)
      modifies this
      ensures Valid() && repos == Step(old(repos), Op.Submit(input, newId))
      ensures r == SubmitResult(OpenRepo(old(repos), input.repoId, input.author), input, newId)
    {
      StepKeepsOk(repos, Op.Submit(input, newId));
      var repo := OpenRepo(repos, input.repoId, input.author);
      repo, r := SubmitInternal(repo, input, newId);
      repos := repos[input.repoId := repo];
    }

    method Approve(repoId: string, id: Id, who: string) returns (r: Result<Changeset, Error>)
      requires Valid()
      modifies this
      ensures Valid() && repos == Step(old(repos), Op.Approve(repoId, id, who))
      ensures r.Err? <==> Outcome(old(repos), Op.Approve(repoId, id, who)).Some?
      ensures r.Err? ==> Outcome(old(repos), Op.Approve(repoId, id, who)) == Some(r.error)
      ensures r.Ok? ==> r.value == repos[repoId].changesets[id]
    {
      StepKeepsOk(repos, Op.Approve(repoId, id, who));
      if repoId !in repos {
        return Err(RepoNotFound);
      }
      var repo := repos[repoId];
      assert repos[repoId := repo] == repos;
      if id !in repo.changesets {
        return Err(ChangesetNotFound(id));
      }
      var record := repo.changesets[id];
      if record.status != Draft {
        return Err(InvalidState(id, record.status, "draft"));
      }
      record := record.(status := Approved, approvedBy := Some(who));
      repos := repos[repoId := repo.(changesets := repo.changesets[id := record])];
      r := Ok(record);
    }

    method Promote(repoId: string, id: Id, who: string) returns (r: Result<Changeset, Error>)
      requires Valid()
      modifies this
      ensures Valid() && repos == Step(old(repos), Op.Promote(repoId, id, who))
      ensures r.Err? <==> Outcome(old(repos), Op.Promote(repoId, id, who)).Some?
      ensures r.Err? ==> Outcome(old(repos), Op.Promote(repoId, id, who)) == Some(r.error)
      ensures r.Ok? ==> r.value == repos[repoId].changesets[id]
    {
      StepKeepsOk(repos, Op.Promote(repoId, id, who));
      if repoId !in repos {
        return Err(RepoNotFound);
      }
      var repo := repos[repoId];
      assert repos[repoId := repo] == repos;
      if id !in repo.changesets {
        return Err(ChangesetNotFound(id));
      }
      var record := repo.changesets[id];
      if record.status != Approved {
        return Err(InvalidState(id, record.status, "approved"));
      }
      if record.branch !in repo.branches {
        return Err(BranchNotFound(record.branch));
      }
      var b := repo.branches[record.branch];
      if b.record.head != record.base {
        return Err(BaseMismatch(record.branch, b.record.head, record.base));
      }
      b := b.(record := b.record.(head := Some(id)));
      if id !in b.history {
        b := b.(history := b.history + [id]);
      }
      repo := repo.(branches := repo.branches[record.branch := b]);
      record := record.(status := Visible);
      if record.approvedBy.None? {
        record := record.(approvedBy := Some(who));
      }
      record := record.(visibleRef := Some(VisibleRef(record.branch)));
      repo := repo.(changesets := repo.changesets[id := record]);
      repos := repos[repoId := repo];
      r := Ok(record);
    }

    /** One page of a branch history, newest first. No record is ever missing, so a page is as long
        as its slice of ids and the cursor moves past all of it. */
    method History(repoId: string, branch: string, limit: nat, cursor: nat)
      returns (r: Result<(seq<Changeset>, Option<nat>), Error>)
      requires Valid()
      ensures r.Err? <==> repoId !in repos || branch !in repos[repoId].branches
      ensures r.Err? ==> r.error == if repoId in repos then BranchNotFound(branch) else RepoNotFound
      ensures r.Ok? ==>
                var h := repos[repoId].branches[branch].history;
                && (forall k :: 0 <= k < |r.value.0| ==> r.value.0[k].id in repos[repoId].changesets
                                                         && r.value.0[k] == repos[repoId].changesets[r.value.0[k].id])
                && seq(|r.value.0|, k requires 0 <= k < |r.value.0| => r.value.0[k].id) == PageIds(h, limit, cursor)
                && r.value.1 == NextCursor(h, limit, cursor)
    {
      if repoId !in repos {
        return Err(RepoNotFound);
      }
      var repo := repos[repoId];
      if branch !in repo.branches {
        return Err(BranchNotFound(branch));
      }
      var history := repo.branches[branch].history;
      PageIsKnown(repoId, repo, branch, limit, cursor);
      var items := RecordsOf(repoId, repo, PageIds(history, limit, cursor));
      var consumed := cursor + |items|;
      r := Ok((items, if consumed < |history| then Some(consumed) else None));
    }

    method ChangesetGate(repoId: string, id: Id) returns (r: Result<Gate, Error>)
      ensures r == GateOf(repos, repoId, id)
    {
      if repoId !in repos {
        return Err(RepoNotFound);
      }
      var repo := repos[repoId];
      if id !in repo.changesets {
        return Err(ChangesetNotFound(id));
      }
      var record := repo.changesets[id];
      if record.branch !in repo.branches {
        return Err(BranchNotFound(record.branch));
      }
      var head := repo.branches[record.branch].record.head;
      var can: bool, blocking: Option<Blocking>;
      if record.status != Approved {
        can, blocking := false, Some(StatusIs(record.status));
      } else if head != record.base {
        can, blocking := false, Some(HeadMoved(head, record.base));
      } else {
        can, blocking := true, None;
      }
      r := Ok(Gate(record.branch, record.status, can, blocking, record.base, head,
                   record.stagingRef, record.visibleRef));
    }

    method BuildRollbackPlan(repoId: string, branch: string, target: Id) returns (r: Result<seq<AssetDelta>, Error>)
      requires Valid()
      ensures r.Err? <==> PlanError(repos, repoId, branch, target).Some?
      ensures r.Err? ==> PlanError(repos, repoId, branch, target) == Some(r.error)
      ensures r.Ok? ==> IsPlan(SnapshotAt(repos[repoId], repos[repoId].branches[branch].record.head),
                               SnapshotOf(repos[repoId], target), r.value)
    {
      if repoId !in repos {
        return Err(RepoNotFound);
      }
      var repo := repos[repoId];
      if branch !in repo.branches {
        return Err(BranchNotFound(branch));
      }
      var b := repo.branches[branch];
      if b.record.head.None? || b.record.head.value == target || target !in b.history {
        return Err(InvalidRollbackTarget(branch, target));
      }
      if target !in repo.snapshots {
        return Err(ChangesetNotFound(target));
      }
      var assets := PlanBetween(SnapshotAt(repo, b.record.head), SnapshotOf(repo, target));
      r := Ok(assets);
    }

    /** The named changeset, if the branch history holds it, or else the head, with its content. */
    method SyncSnapshot(repoId: string, branch: string, to: Option<Id>) returns (r: Result<Sync, Error>)
      requires Valid()
      ensures repoId !in repos ==> r == Err(RepoNotFound)
      ensures repoId in repos && branch !in repos[repoId].branches ==> r == Err(BranchNotFound(branch))
      ensures repoId in repos && branch in repos[repoId].branches ==>
                var cs, b := repos[repoId].changesets, repos[repoId].branches[branch];
                && (to.Some? && to.value !in b.history ==> r == Err(ChangesetNotFound(to.value)))
                && (to.None? || to.value in b.history ==>
                      r.Ok? && r.value.at == if to.Some? then to else b.record.head)
                && (forall k :: 0 <= k < |b.history| ==> b.history[k] in cs)
                && (r.Ok? ==> forall n | 0 <= n <= |b.history| && r.value.at == EndOf(b.history, n) ::
                      IsListing(ApplyDeltas(map[], AllDeltas(cs, b.history[..n])), r.value.assets))
      ensures SyncPoint(repos, repoId, branch, to) == if r.Ok? then Ok(r.value.at) else Err(r.error)
    {
      if repoId !in repos {
        return Err(RepoNotFound);
      }
      var repo := repos[repoId];
      if branch !in repo.branches {
        return Err(BranchNotFound(branch));
      }
      var b := repo.branches[branch];
      HistoryContents(repos, repoId, branch);
      if to.Some? && to.value !in b.history {
        return Err(ChangesetNotFound(to.value));
      }
      var at := if to.Some? then to else b.record.head;
      SnapshotsAreWellKeyed(repoId, repo, at);
      var assets := Listing(SnapshotAt(repo, at));
      r := Ok(Sync(at, assets));
    }
  }

  lemma PageIsKnown(repoId: string, repo: Repo, branch: string, limit: nat, cursor: nat)
    requires RepoOk(repoId, repo) && branch in repo.branches
    ensures forall x :: x in PageIds(repo.branches[branch].history, limit, cursor) ==> x in repo.changesets
  {
    HeadIsKnown(repoId, repo, branch);
    var history := repo.branches[branch].history;
    forall x | x in PageIds(history, limit, cursor)
      ensures x in history
    {
      assert x in Reverse(history);
    }
  }

  /** The records of known ids, in order; an id without a record would be passed over. */
  method RecordsOf(ghost repoId: string, repo: Repo, ids: seq<Id>) returns (items: seq<Changeset>)
    requires RepoOk(repoId, repo) && forall x :: x in ids ==> x in repo.changesets
    ensures |items| == |ids|
    ensures forall k :: 0 <= k < |ids| ==> items[k] == repo.changesets[ids[k]] && items[k].id == ids[k]
  {
    items := [];
    for k := 0 to |ids|
      invariant |items| == k
      invariant forall j :: 0 <= j < k ==> items[j] == repo.changesets[ids[j]] && items[j].id == ids[j]
    {
      assert RecordOk(repoId, repo, ids[k]);
      if ids[k] in repo.changesets {
        items := items + [repo.changesets[ids[k]]];
      }
    }
  }

  /** The history a new branch starts with: the lineage of its head. */
  method HistoryTo(ghost repoId: string, repo: Repo, head: Option<Id>) returns (history: seq<Id>)
    requires RepoOk(repoId, repo) && (head.Some? ==> head.value in repo.changesets)
    ensures head.None? ==> history == []
    ensures head.Some? ==> LineageOf(repo.changesets, head.value) == Some(history)
  {
    if head.None? {
      return [];
    }
    assert RecordOk(repoId, repo, head.value);
    ghost var w :| ChainTo(repo.changesets, w, head.value);
    var lineage := LineageTo(repo.changesets, head.value);
    history := lineage.value;
  }

  /** Branch creation inside one repository. */
  method AddBranch(ghost repoId: string, repo: Repo, branch: string, from: Option<Id>, who: string)
    returns (repo': Repo, r: Result<BranchState, Error>)
    requires RepoOk(repoId, repo)
    ensures repo' == BranchEffect(repo, branch, from, who)
    ensures r == BranchResult(repo, branch, from, who)
  {
    if branch in repo.branches {
      return repo, Err(BranchAlreadyExists(branch));
    }
    var head := DefaultHead(repo);
    if from.Some? {
      if from.value !in repo.changesets {
        return repo, Err(ChangesetNotFound(from.value));
      }
      head := from;
    }
    HeadIsKnown(repoId, repo, repo.defaultBranch);
    var history := HistoryTo(repoId, repo, head);
    var b := BranchState(BranchRecord(branch, who, false, head), history);
    return repo.(branches := repo.branches[branch := b]), Ok(b);
  }

  /** Submit inside one repository: check the base against the head, apply the deltas to the head's
      snapshot, store both, and move the head if the changeset is to be visible. */
  method SubmitInternal(repo: Repo, input: SubmitInput, newId: Id) returns (repo': Repo, r: Result<Changeset, Error>)
    ensures repo' == SubmitEffect(repo, input, newId)
    ensures r == SubmitResult(repo, input, newId)
  {
    repo' := repo;
    if input.base.None? {
      return repo', Err(BaseRequired);
    }
    if input.branch !in repo.branches {
      return repo', Err(BranchNotFound(input.branch));
    }
    var b := repo.branches[input.branch];
    var expected := b.record.head;
    if expected.None? {
      if input.base != Some(ROOT) {
        return repo', Err(BaseMismatch(input.branch, expected, input.base));
      }
    } else if input.base != expected {
      return repo', Err(BaseMismatch(input.branch, expected, input.base));
    }
    var snapshot, normalised := ApplyAssets(SnapshotAt(repo, expected), input.assets);
    var shown := input.visibility == ShowNow;
    var record := Changeset(
      newId, input.repoId, input.branch, expected, input.base, input.kind, input.rollbackOf,
      input.author, input.message,
      if shown then Visible else Draft,
      None,
      if shown then None else Some(StagingRef(input.repoId, input.branch, newId)),
      if shown then Some(VisibleRef(input.branch)) else None,
      normalised);
    repo' := repo'.(snapshots := repo.snapshots[newId := snapshot]);
    repo' := repo'.(changesets := repo.changesets[newId := record]);
    if record.status == Visible {
      b := BranchState(b.record.(head := Some(newId)), b.history + [newId]);
      repo' := repo'.(branches := repo.branches[input.branch := b]);
    }
    r := Ok(record);
  }

  /** The plan for the first k asset ids. */
  ghost predicate PlanPart(current: Snapshot, target: Snapshot, ids: seq<string>, assets: seq<AssetDelta>) {
    && (forall i, j :: 0 <= i < j < |assets| ==>
          TextLeq(Key(assets[i]), Key(assets[j])) && Key(assets[i]) != Key(assets[j]))
    && (forall j :: 0 <= j < |assets| ==>
          && Key(assets[j]) in ids && Differs(current, target, Key(assets[j]))
          && assets[j] == PlanDelta(current, target, Key(assets[j])))
    && (forall id :: id in ids && Differs(current, target, id) ==> Listed(assets, id))
  }

  ghost predicate Listed(assets: seq<AssetDelta>, id: string) {
    exists j :: 0 <= j < |assets| && Key(assets[j]) == id
  }

  lemma ExtendPlan(current: Snapshot, target: Snapshot, ids: seq<string>, assets: seq<AssetDelta>, id: string)
    requires PlanPart(current, target, ids, assets) && Differs(current, target, id)
    requires forall x :: x in ids ==> TextLeq(x, id) && x != id
    ensures PlanPart(current, target, ids + [id], assets + [PlanDelta(current, target, id)])
  {
    var more := assets + [PlanDelta(current, target, id)];
    assert Key(more[|assets|]) == id;
    forall x | x in ids + [id] && Differs(current, target, x)
      ensures Listed(more, x)
    {
      if x != id {
        var j :| 0 <= j < |assets| && Key(assets[j]) == x;
        assert Key(more[j]) == x;
      }
    }
  }

  lemma SkipInPlan(current: Snapshot, target: Snapshot, ids: seq<string>, assets: seq<AssetDelta>, id: string)
    requires PlanPart(current, target, ids, assets) && !Differs(current, target, id)
    ensures PlanPart(current, target, ids + [id], assets)
  {
  }

  /** One turn of the plan loop. */
  function PlanNext(current: Snapshot, target: Snapshot, assets: seq<AssetDelta>, id: string): seq<AssetDelta> {
    if Differs(current, target, id) then assets + [PlanDelta(current, target, id)] else assets
  }

  lemma PlanTurn(current: Snapshot, target: Snapshot, ids: seq<string>, k: nat, assets: seq<AssetDelta>)
    requires SortedBy(TextLeq, ids) && NoDuplicates(ids) && k < |ids|
    requires PlanPart(current, target, ids[..k], assets)
    ensures PlanPart(current, target, ids[..k + 1], PlanNext(current, target, assets, ids[k]))
  {
    assert ids[..k + 1] == ids[..k] + [ids[k]];
    if Differs(current, target, ids[k]) {
      ExtendPlan(current, target, ids[..k], assets, ids[k]);
    } else {
      SkipInPlan(current, target, ids[..k], assets, ids[k]);
    }
  }

  lemma WholePlan(current: Snapshot, target: Snapshot, ids: seq<string>, assets: seq<AssetDelta>)
    requires PlanPart(current, target, ids[..|ids|], assets)
    requires forall id :: id in ids <==> id in current.Keys + target.Keys
    ensures IsPlan(current, target, assets)
  {
    assert ids[..|ids|] == ids;
    forall id | Differs(current, target, id)
      ensures exists j :: 0 <= j < |assets| && Key(assets[j]) == id
    {
      assert Listed(assets, id);
    }
  }

  /** The plan loop: over the asset ids of both snapshots in ascending order, skipping equal hashes. */
  method PlanBetween(current: Snapshot, target: Snapshot) returns (assets: seq<AssetDelta>)
    ensures IsPlan(current, target, assets)
  {
    var ids := Ascending(current.Keys + target.Keys);
    assets := [];
    for k := 0 to |ids|
      invariant PlanPart(current, target, ids[..k], assets)
    {
      PlanTurn(current, target, ids, k, assets);
      var id := ids[k];
      var before := HashAt(current, id);
      var after := HashAt(target, id);
      if before == after {
        continue;
      }
      var path := if id in target then target[id].path else if id in current then current[id].path else id;
      assets := assets + [AssetDelta(Some(id), path, before, after)];
    }
    WholePlan(current, target, ids, assets);
  }

  /** A snapshot's entries, by path and then by asset id. */
  method Listing(s: Snapshot) returns (entries: seq<SnapshotAsset>)
    requires WellKeyed(s)
    ensures IsListing(s, entries)
  {
    EntryOrderIsTotal();
    var rest := s.Keys;
    entries := [];
    while rest != {}
      invariant rest <= s.Keys && SortedBy(EntryLeq, entries) && NoDuplicates(entries)
      invariant forall e :: e in entries <==> e.assetId in s.Keys - rest && s[e.assetId] == e
    {
      var id :| id in rest;
      InsertIsSorted(EntryLeq, s[id], entries);
      InsertKeepsDistinct(EntryLeq, s[id], entries);
      entries, rest := Insert(EntryLeq, s[id], entries), rest - {id};
    }
  }
}
