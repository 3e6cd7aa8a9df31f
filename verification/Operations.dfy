/** What each operation of the store answers and does, said of its inputs and the two states alone. */
module Operations {
  import opened Prelude
  import opened Deltas
  import opened Lineage
  import opened Versioning
  import opened VersionInvariant
  import opened VersionRuns
  import opened Observers
  import opened Sorting

  // ---- what an operation finds

  /** The branch is there: in a known repository, or as the first branch of one that is created on first use. */
  predicate BranchThere(repos: Repos, r: string, branch: string) {
    if r in repos then branch in repos[r].branches else branch == "main"
  }

  function HeadBefore(repos: Repos, r: string, branch: string): Option<Id> {
    if r in repos && branch in repos[r].branches then repos[r].branches[branch].record.head else None
  }

  function HistoryBefore(repos: Repos, r: string, branch: string): seq<Id> {
    if r in repos && branch in repos[r].branches then repos[r].branches[branch].history else []
  }

  function ContentBefore(repos: Repos, r: string, branch: string): Snapshot {
    var head := HeadBefore(repos, r, branch);
    if head.Some? && head.value in repos[r].snapshots then repos[r].snapshots[head.value] else map[]
  }

  ghost predicate OthersSame(repos: Repos, repos': Repos, r: string) {
    repos'.Keys == repos.Keys + {r} && forall q :: q in repos && q != r ==> repos'[q] == repos[q]
  }

  /** All branches but one are as before; a repository created by the operation has its first branch, empty. */
  ghost predicate OtherBranchesSame(repos: Repos, repos': Repos, r: string, branch: string, who: string)
    requires r in repos'
  {
    var after := repos'[r];
    if r in repos then
      && after.defaultBranch == repos[r].defaultBranch
      && after.branches.Keys == repos[r].branches.Keys + {branch}
      && (forall b :: b in repos[r].branches && b != branch ==> after.branches[b] == repos[r].branches[b])
    else
      && after.defaultBranch == "main" && after.branches.Keys == {"main", branch}
      && (branch != "main" ==> after.branches["main"] == BranchState(BranchRecord("main", who, true, None), []))
  }

  ghost predicate OtherChangesetsSame(repos: Repos, repos': Repos, r: string, ids: set<Id>)
    requires r in repos'
  {
    var before: Changesets := if r in repos then repos[r].changesets else map[];
    var snapshots: map<Id, Snapshot> := if r in repos then repos[r].snapshots else map[];
    && repos'[r].changesets.Keys == before.Keys + ids
    && (forall id :: id in before && id !in ids ==> repos'[r].changesets[id] == before[id])
    && (forall id :: id in snapshots && id !in ids ==> id in repos'[r].snapshots
                                                       && repos'[r].snapshots[id] == snapshots[id])
  }

  // ---- submit

  /** A submit succeeds exactly when the branch is there and its base is the branch's head, or the word ROOT where
      there is no head, whether it is a draft or not. */
  lemma SubmitSucceedsIff(repos: Repos, input: SubmitInput, id: Id)
    requires StoreOk(repos)
    ensures var head := HeadBefore(repos, input.repoId, input.branch);
            Outcome(repos, Submit(input, id)).None?
            <==> && BranchThere(repos, input.repoId, input.branch)
                 && input.base == (if head.Some? then head else Some("ROOT"))
    ensures input.base.None? ==> Outcome(repos, Submit(input, id)) == Some(BaseRequired)
    ensures input.base.Some? && !BranchThere(repos, input.repoId, input.branch) ==>
              Outcome(repos, Submit(input, id)) == Some(BranchNotFound(input.branch))
    ensures input.base.Some? && BranchThere(repos, input.repoId, input.branch)
            && Outcome(repos, Submit(input, id)).Some? ==>
              Outcome(repos, Submit(input, id)) ==
              Some(BaseMismatch(input.branch, HeadBefore(repos, input.repoId, input.branch), input.base))
  {
    OpenRepoOk(repos, input.repoId, input.author);
  }

  /** The new record: everything the input says, the parent, the deltas with the hashes just before them, and a
      visible or a staging reference. */
  ghost predicate Records(c: Changeset, input: SubmitInput, id: Id, head: Option<Id>, content: Snapshot) {
    && c.id == id && c.repoId == input.repoId && c.branch == input.branch
    && c.parent == head && c.base == input.base && c.kind == input.kind && c.rollbackOf == input.rollbackOf
    && c.author == input.author && c.message == input.message && c.approvedBy == None
    && (input.visibility == ShowNow ==>
          && c.status == Visible && c.visibleRef == Some("refs/heads/" + input.branch) && c.stagingRef == None)
    && (input.visibility == AsDraft ==>
          && c.status == Draft && c.visibleRef == None
          && c.stagingRef == Some("refs/ht/staging/" + input.repoId + "/" + input.branch + "/" + id))
    && |c.assets| == |input.assets|
    && forall k :: 0 <= k < |input.assets| ==> RecordsDelta(c.assets[k], input.assets, k, content)
  }

  ghost predicate RecordsDelta(d: AssetDelta, ds: seq<AssetDelta>, k: nat, content: Snapshot)
    requires k < |ds|
  {
    var key, before := ds[k].assetId.GetOr(ds[k].path), ApplyDeltas(content, ds[..k]);
    d == AssetDelta(Some(key), ds[k].path, if key in before then Some(before[key].blobHash) else None, ds[k].blobHash)
  }

  /** What a successful submit works on. */
  lemma SubmitFinds(repos: Repos, input: SubmitInput, id: Id)
    requires StoreOk(repos) && Outcome(repos, Submit(input, id)).None?
    ensures var repo := OpenRepo(repos, input.repoId, input.author);
            && input.branch in repo.branches
            && repo.branches[input.branch].record.head == HeadBefore(repos, input.repoId, input.branch)
            && repo.branches[input.branch].history == HistoryBefore(repos, input.repoId, input.branch)
            && SnapshotAt(repo, HeadBefore(repos, input.repoId, input.branch)) ==
               ContentBefore(repos, input.repoId, input.branch)
  {
    OpenRepoOk(repos, input.repoId, input.author);
  }

  lemma SubmitKeepsTheRest(repos: Repos, input: SubmitInput, id: Id)
    requires StoreOk(repos) && FreshId(repos, id) && Outcome(repos, Submit(input, id)).None?
    ensures var r, after := input.repoId, Step(repos, Submit(input, id));
            && OthersSame(repos, after, r) && OtherBranchesSame(repos, after, r, input.branch, input.author)
            && OtherChangesetsSame(repos, after, r, {id})
  {
    OpenRepoOk(repos, input.repoId, input.author);
  }

  lemma SubmitRecords(repos: Repos, input: SubmitInput, id: Id)
    requires StoreOk(repos) && Outcome(repos, Submit(input, id)).None?
    ensures var after := Step(repos, Submit(input, id))[input.repoId];
            && id in after.changesets
            && Records(after.changesets[id], input, id, HeadBefore(repos, input.repoId, input.branch),
                       ContentBefore(repos, input.repoId, input.branch))
  {
    SubmitFinds(repos, input, id);
    var content := ContentBefore(repos, input.repoId, input.branch);
    var assets := Step(repos, Submit(input, id))[input.repoId].changesets[id].assets;
    assert assets == Normalise(content, input.assets);
    forall k | 0 <= k < |input.assets|
      ensures RecordsDelta(assets[k], input.assets, k, content)
    {
      RecordedDelta(content, input.assets, k);
    }
  }

  /** A successful submit, visible or not, adds one changeset with the input's record, which is also the answer. Its
      snapshot is the head's with the input's deltas applied. The head moves, and the history grows, exactly if it is
      visible. Nothing else changes. */
  lemma SubmitAddsTheChangeset(repos: Repos, input: SubmitInput, id: Id)
    requires StoreOk(repos) && FreshId(repos, id) && Outcome(repos, Submit(input, id)).None?
    ensures var r, branch, after := input.repoId, input.branch, Step(repos, Submit(input, id));
            var head, content := HeadBefore(repos, r, branch), ContentBefore(repos, r, branch);
            && OthersSame(repos, after, r) && OtherBranchesSame(repos, after, r, branch, input.author)
            && OtherChangesetsSame(repos, after, r, {id})
            && Records(after[r].changesets[id], input, id, head, content)
            && id in after[r].snapshots && after[r].snapshots[id] == ApplyDeltas(content, input.assets)
            && after[r].branches[branch].record.head == (if input.visibility == ShowNow then Some(id) else head)
            && after[r].branches[branch].history ==
               HistoryBefore(repos, r, branch) + (if input.visibility == ShowNow then [id] else [])
    ensures SubmitResult(OpenRepo(repos, input.repoId, input.author), input, id) ==
            Ok(Step(repos, Submit(input, id))[input.repoId].changesets[id])
  {
    SubmitFinds(repos, input, id);
    SubmitKeepsTheRest(repos, input, id);
    SubmitRecords(repos, input, id);
  }

  /** An accepted rollback is recorded as one: visible, of kind rollback, naming its target, on the planned head. */
  lemma RollbackIsRecorded(repos: Repos, r: string, branch: string, head: Id, target: Id, author: string,
                           message: string, assets: seq<AssetDelta>, id: Id)
    requires var op := Submit(RollbackInput(r, branch, head, target, author, message, assets), id);
             StoreOk(repos) && FreshId(repos, id) && head != ROOT && Outcome(repos, op).None?
    ensures var after := Step(repos, Submit(RollbackInput(r, branch, head, target, author, message, assets), id));
            && r in after && id in after[r].changesets
            && var c := after[r].changesets[id];
               && c.status == Visible && c.kind == Rollback && c.rollbackOf == Some(target)
               && c.parent == Some(head) && c.base == Some(head) && c.branch == branch
               && c.author == author && c.message == message
  {
    var input := RollbackInput(r, branch, head, target, author, message, assets);
    SubmitSucceedsIff(repos, input, id);
    SubmitAddsTheChangeset(repos, input, id);
  }

  // ---- branches

  /** A branch is created exactly when its name is free and the changeset it is to start from, if one is named, is
      known. */
  lemma CreateBranchSucceedsIff(repos: Repos, r: string, branch: string, from: Option<Id>, who: string)
    requires StoreOk(repos)
    ensures Outcome(repos, CreateBranch(r, branch, from, who)).None?
            <==> && !BranchThere(repos, r, branch)
                 && (from.Some? ==> r in repos && from.value in repos[r].changesets)
    ensures BranchThere(repos, r, branch) ==>
              Outcome(repos, CreateBranch(r, branch, from, who)) == Some(BranchAlreadyExists(branch))
    ensures !BranchThere(repos, r, branch) && Outcome(repos, CreateBranch(r, branch, from, who)).Some? ==>
              Outcome(repos, CreateBranch(r, branch, from, who)) == Some(ChangesetNotFound(from.GetOr("")))
  {
    OpenRepoOk(repos, r, who);
    var repo := OpenRepo(repos, r, who);
    HeadIsKnown(r, repo, repo.defaultBranch);
    var head := if from.Some? then from else DefaultHead(repo);
    if head.Some? && head.value in repo.changesets {
      assert RecordOk(r, repo, head.value);
    }
  }

  /** From a parentless changeset by parent links to the last one. */
  ghost predicate FollowsParents(cs: Changesets, w: seq<Id>) {
    && (forall k :: 0 <= k < |w| ==> w[k] in cs)
    && (forall k :: 0 < k < |w| ==> cs[w[k]].parent == Some(w[k - 1]))
    && (w != [] ==> cs[w[0]].parent == None)
  }

  lemma LineageFollowsParents(cs: Changesets, w: seq<Id>, id: Id)
    requires ChainTo(cs, w, id)
    ensures w != [] && Last(w) == id && FollowsParents(cs, w)
  {
    OnChain(cs, w, id);
    ChainIsLineage(cs, w, id);
    forall k | 0 < k < |w|
      ensures cs[w[k]].parent == Some(w[k - 1])
    {
      assert Linked(cs, w, k);
    }
  }

  /** The new branch starts at the named changeset, or else at the head of the default branch; its history is that
      head's line of parents; no other branch and no changeset changes. */
  lemma CreateBranchStartsThere(repos: Repos, r: string, branch: string, from: Option<Id>, who: string)
    requires StoreOk(repos) && Outcome(repos, CreateBranch(r, branch, from, who)).None?
    ensures var after := Step(repos, CreateBranch(r, branch, from, who));
            && OthersSame(repos, after, r) && OtherBranchesSame(repos, after, r, branch, who)
            && OtherChangesetsSame(repos, after, r, {})
            && var head := if from.Some? then from else if r in repos then HeadBefore(repos, r, repos[r].defaultBranch)
                           else None;
               var b := after[r].branches[branch];
               && b.record == BranchRecord(branch, who, false, head)
               && FollowsParents(after[r].changesets, b.history)
               && (head.None? ==> b.history == [])
               && (head.Some? ==> b.history != [] && Last(b.history) == head.value)
    ensures BranchResult(OpenRepo(repos, r, who), branch, from, who) ==
            Ok(Step(repos, CreateBranch(r, branch, from, who))[r].branches[branch])
  {
    OpenRepoOk(repos, r, who);
    CreateBranchSucceedsIff(repos, r, branch, from, who);
    var repo := OpenRepo(repos, r, who);
    var b := Step(repos, CreateBranch(r, branch, from, who))[r].branches[branch];
    if b.record.head.Some? {
      LineageFollowsParents(repo.changesets, b.history, b.record.head.value);
    }
  }

  // ---- repositories, approval, promotion

  /** A repository is created exactly when its name is free, with its default branch, empty, as its only one. */
  lemma CreateRepoStartsEmpty(repos: Repos, r: string, d: string, who: string)
    ensures Outcome(repos, CreateRepo(r, d, who)) == if r in repos then Some(RepoAlreadyExists) else None
    ensures r in repos ==> Step(repos, CreateRepo(r, d, who)) == repos
    ensures r !in repos ==>
              && OthersSame(repos, Step(repos, CreateRepo(r, d, who)), r)
              && Step(repos, CreateRepo(r, d, who))[r] ==
                 Repo(d, map[d := BranchState(BranchRecord(d, who, true, None), [])], map[], map[])
  {
  }

  /** A changeset is approved exactly when it is a draft; it then has the approver's name and nothing else changes. */
  lemma ApproveMarksTheDraft(repos: Repos, r: string, id: Id, who: string)
    ensures Outcome(repos, Approve(r, id, who)) ==
            if r !in repos then Some(RepoNotFound)
            else if id !in repos[r].changesets then Some(ChangesetNotFound(id))
            else if repos[r].changesets[id].status == Draft then None
            else Some(InvalidState(id, repos[r].changesets[id].status, "draft"))
    ensures Outcome(repos, Approve(r, id, who)).None? ==>
              var c := repos[r].changesets[id].(status := Approved, approvedBy := Some(who));
              Step(repos, Approve(r, id, who)) ==
              repos[r := repos[r].(changesets := repos[r].changesets[id := c])]
    ensures Outcome(repos, Approve(r, id, who)).Some? ==> Step(repos, Approve(r, id, who)) == repos
  {
  }

  /** A changeset is promoted exactly when it is approved and its base is the head; the head moves to it, the history
      grows by it, it keeps the approver's name, and nothing else changes. */
  lemma PromoteMovesTheHead(repos: Repos, r: string, id: Id, who: string)
    requires StoreOk(repos)
    ensures r !in repos ==> Outcome(repos, Promote(r, id, who)) == Some(RepoNotFound)
    ensures r in repos && id !in repos[r].changesets ==>
              Outcome(repos, Promote(r, id, who)) == Some(ChangesetNotFound(id))
    ensures r in repos && id in repos[r].changesets ==>
              var c := repos[r].changesets[id];
              var head := HeadBefore(repos, r, c.branch);
              Outcome(repos, Promote(r, id, who)) ==
              if c.status != Approved then Some(InvalidState(id, c.status, "approved"))
              else if head != c.base then Some(BaseMismatch(c.branch, head, c.base)) else None
    ensures Outcome(repos, Promote(r, id, who)).None? ==>
              var c, after := repos[r].changesets[id], Step(repos, Promote(r, id, who));
              && c.branch in repos[r].branches
              && after == repos[r := after[r]]
              && after[r] == repos[r].(
                 changesets := repos[r].changesets[id :=
                   c.(status := Visible, visibleRef := Some("refs/heads/" + c.branch))],
                 branches := repos[r].branches[c.branch :=
                   BranchState(repos[r].branches[c.branch].record.(head := Some(id)),
                               repos[r].branches[c.branch].history + [id])])
    ensures Outcome(repos, Promote(r, id, who)).Some? ==> Step(repos, Promote(r, id, who)) == repos
  {
    if r in repos && id in repos[r].changesets {
      assert RecordOk(r, repos[r], id);
      if PromoteError(repos[r], id).None? {
        PromotedIsNotInHistory(r, repos[r], id);
      }
    }
  }

  // ---- what is answered

  /** The gate shows the changeset's base and references, the present head of its branch, and its status. */
  lemma GateShows(repos: Repos, r: string, id: Id)
    requires StoreOk(repos)
    ensures GateOf(repos, r, id).Ok? <==> r in repos && id in repos[r].changesets
    ensures GateOf(repos, r, id).Err? ==>
              GateOf(repos, r, id).error == if r in repos then ChangesetNotFound(id) else RepoNotFound
    ensures GateOf(repos, r, id).Ok? ==>
              var gate, c := GateOf(repos, r, id).value, repos[r].changesets[id];
              && gate.branch == c.branch && gate.status == c.status && gate.base == c.base
              && gate.head == HeadBefore(repos, r, c.branch)
              && gate.stagingRef == c.stagingRef && gate.visibleRef == c.visibleRef
              && (gate.canPromote <==> c.status == Approved && c.base == gate.head)
              && (gate.canPromote <==> gate.blocking.None?)
              && (c.status != Approved ==> gate.blocking == Some(StatusIs(c.status)))
              && (c.status == Approved && c.base != gate.head ==> gate.blocking == Some(HeadMoved(gate.head, c.base)))
  {
    if r in repos && id in repos[r].changesets {
      assert RecordOk(r, repos[r], id);
    }
  }

  /** A page shows, newest first, the entries after those skipped: as many as asked for, but at least one and at most
      200, as long as there are any. There is a next cursor exactly when entries are left, and it is the number of
      entries passed. */
  lemma PageShows(history: seq<Id>, limit: nat, cursor: nat)
    ensures var page, next := PageIds(history, limit, cursor), NextCursor(history, limit, cursor);
            var asked := if limit == 0 then 1 else if limit > 200 then 200 else limit;
            var left := if cursor < |history| then |history| - cursor else 0;
            && |page| == (if asked < left then asked else left)
            && (forall k :: 0 <= k < |page| ==> page[k] == history[|history| - 1 - cursor - k])
            && next == (if asked < left then Some(cursor + asked) else None)
  {
  }

  /** A rollback is refused if there is no such branch, if the target is the head or not in the history, or if the
      target's snapshot is gone. */
  lemma PlanIsRefusedFor(repos: Repos, r: string, branch: string, target: Id)
    requires StoreOk(repos)
    ensures r !in repos ==> PlanError(repos, r, branch, target) == Some(RepoNotFound)
    ensures r in repos && branch !in repos[r].branches ==>
              PlanError(repos, r, branch, target) == Some(BranchNotFound(branch))
    ensures r in repos && branch in repos[r].branches ==>
              var b := repos[r].branches[branch];
              PlanError(repos, r, branch, target) ==
              if target !in b.history || b.record.head == Some(target) then Some(InvalidRollbackTarget(branch, target))
              else if target !in repos[r].snapshots then Some(ChangesetNotFound(target))
              else None
  {
    if r in repos && branch in repos[r].branches {
      assert BranchOk(repos[r], branch);
    }
  }

  /** Each entry of a plan goes from the present hash to the target's, under the target's path or, for an asset that
      is to disappear, its present path. */
  lemma PlanEntryShows(current: Snapshot, target: Snapshot, assets: seq<AssetDelta>, k: nat)
    requires IsPlan(current, target, assets) && k < |assets| && assets[k].assetId.Some?
    ensures var id := assets[k].assetId.value;
            && (id in target || id in current)
            && assets[k].path == (if id in target then target[id].path else current[id].path)
            && assets[k].fromHash == (if id in current then Some(current[id].blobHash) else None)
            && assets[k].blobHash == (if id in target then Some(target[id].blobHash) else None)
            && assets[k].fromHash != assets[k].blobHash
  {
  }

  /** The content of an entry of a branch history is the replay of the deltas up to and including it. */
  lemma SyncedContent(repos: Repos, r: string, branch: string, k: nat)
    requires StoreOk(repos) && r in repos && branch in repos[r].branches && k < |repos[r].branches[branch].history|
    ensures var cs, h := repos[r].changesets, repos[r].branches[branch].history;
            && (forall j :: 0 <= j < |h| ==> h[j] in cs)
            && SnapshotOf(repos[r], h[k]) == ApplyDeltas(map[], AllDeltas(cs, h[..k + 1]))
  {
    var cs, b := repos[r].changesets, repos[r].branches[branch];
    assert RepoOk(r, repos[r]) && BranchOk(repos[r], branch);
    HeadIsKnown(r, repos[r], branch);
    OnChain(cs, b.history, b.record.head.value);
    PrefixIsWalk(cs, b.history, b.record.head.value, k);
    ChainReplays(r, repos[r], b.history[..k + 1], b.history[k]);
  }

  /** The changeset that the first n entries of a history end in, if any. */
  function EndOf(h: seq<Id>, n: nat): Option<Id>
    requires n <= |h|
  {
    if n == 0 then None else Some(h[n - 1])
  }

  /** The content at every point of a branch history is the replay of the deltas up to there. */
  lemma HistoryContents(repos: Repos, r: string, branch: string)
    requires StoreOk(repos) && r in repos && branch in repos[r].branches
    ensures var cs, h := repos[r].changesets, repos[r].branches[branch].history;
            && (forall k :: 0 <= k < |h| ==> h[k] in cs)
            && (forall n | 0 <= n <= |h| ::
                  SnapshotAt(repos[r], EndOf(h, n)) == ApplyDeltas(map[], AllDeltas(cs, h[..n])))
  {
    HistoryIsLineage(repos, r, branch);
    var cs, h := repos[r].changesets, repos[r].branches[branch].history;
    forall n | 0 <= n <= |h|
      ensures SnapshotAt(repos[r], EndOf(h, n)) == ApplyDeltas(map[], AllDeltas(cs, h[..n]))
    {
      if n > 0 {
        SyncedContent(repos, r, branch, n - 1);
      }
    }
  }

  /** A listing has every entry of a snapshot once, by path and, under one path, by asset id. */
  lemma ListingShows(s: Snapshot, entries: seq<SnapshotAsset>)
    requires WellKeyed(s) && IsListing(s, entries)
    ensures |entries| == |s|
    ensures forall id :: id in s <==> exists k :: 0 <= k < |entries| && entries[k].assetId == id
    ensures forall k :: 0 <= k < |entries| ==> entries[k].assetId in s && entries[k] == s[entries[k].assetId]
    ensures forall j, k :: 0 <= j < k < |entries| ==>
              if entries[j].path == entries[k].path then ComesBefore(entries[j].assetId, entries[k].assetId)
              else ComesBefore(entries[j].path, entries[k].path)
  {
    forall id | id in s
      ensures exists k :: 0 <= k < |entries| && entries[k].assetId == id
    {
      assert s[id] in entries;
    }
    ListingIsAsLong(s, entries);
    forall j, k | 0 <= j < k < |entries|
      ensures if entries[j].path == entries[k].path then ComesBefore(entries[j].assetId, entries[k].assetId)
              else ComesBefore(entries[j].path, entries[k].path)
    {
      assert EntryLeq(entries[j], entries[k]);
      TextLeqIff(entries[j].path, entries[k].path);
      TextLeqIff(entries[j].assetId, entries[k].assetId);
    }
  }

  /** A prefix of the other text, or smaller where the two first differ. */
  ghost predicate ComesBefore(a: string, b: string) {
    a <= b || exists k: nat :: DiffersFirstAt(a, b, k) && a[k] < b[k]
  }

  lemma ListingIsAsLong(s: Snapshot, entries: seq<SnapshotAsset>)
    requires WellKeyed(s) && IsListing(s, entries)
    ensures |entries| == |s|
  {
    AsLongAsItsSet(entries);
    var values := set e | e in entries;
    var keys := set e | e in entries :: e.assetId;
    assert keys == s.Keys by {
      forall id | id in s
        ensures id in keys
      {
        assert s[id] in entries;
      }
    }
    SameSize(values, s);
  }

  lemma {:induction false} AsLongAsItsSet<T(!new)>(s: seq<T>)
    requires NoDuplicates(s)
    ensures |set x | x in s| == |s|
  {
    if s != [] {
      var front := s[..|s| - 1];
      AsLongAsItsSet(front);
      assert (set x | x in s) == (set x | x in front) + {Last(s)};
    }
  }

  lemma {:induction false} SameSize(values: set<SnapshotAsset>, s: Snapshot)
    requires WellKeyed(s) && forall e :: e in values <==> e.assetId in s && s[e.assetId] == e
    ensures |values| == |s|
    decreases |s|
  {
    if s != map[] {
      var id :| id in s;
      SameSize(values - {s[id]}, s - {id});
      assert s.Keys == (s - {id}).Keys + {id};
    } else {
      assert values == {};
    }
  }
}
