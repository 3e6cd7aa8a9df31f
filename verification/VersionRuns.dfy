/** What holds over whole runs of the version store. */
module VersionRuns {
  import opened Prelude
  import opened Deltas
  import opened Lineage
  import opened Versioning
  import opened VersionInvariant

  // ---- histories, records and snapshots only grow

  function Rank(s: Status): nat {
    match s
    case Draft => 0
    case Approved => 1
    case Visible => 2
  }

  ghost predicate BranchGrows(repo: Repo, repo': Repo, name: string)
    requires name in repo.branches
  {
    && name in repo'.branches
    && repo.branches[name].history <= repo'.branches[name].history
    && repo'.branches[name].record == repo.branches[name].record.(head := repo'.branches[name].record.head)
  }

  ghost predicate RecordGrows(repo: Repo, repo': Repo, id: Id)
    requires id in repo.changesets
  {
    && id in repo'.changesets
    && SameButStatus(repo.changesets[id], repo'.changesets[id])
    && Rank(repo.changesets[id].status) <= Rank(repo'.changesets[id].status)
    && SnapshotOf(repo', id) == SnapshotOf(repo, id)
  }

  ghost predicate RepoGrows(repo: Repo, repo': Repo) {
    && repo'.defaultBranch == repo.defaultBranch
    && (forall name {:trigger BranchGrows(repo, repo', name)} ::
          name in repo.branches ==> BranchGrows(repo, repo', name))
    && (forall id {:trigger RecordGrows(repo, repo', id)} ::
          id in repo.changesets ==> RecordGrows(repo, repo', id))
  }

  ghost predicate RepoGrowsIn(repos: Repos, repos': Repos, r: string)
    requires r in repos
  {
    r in repos' && RepoGrows(repos[r], repos'[r])
  }

  ghost predicate Grows(repos: Repos, repos': Repos) {
    forall r {:trigger RepoGrowsIn(repos, repos', r)} :: r in repos ==> RepoGrowsIn(repos, repos', r)
  }

  lemma RepoGrowsTransitive(a: Repo, b: Repo, c: Repo)
    requires RepoGrows(a, b) && RepoGrows(b, c)
    ensures RepoGrows(a, c)
  {
    forall name | name in a.branches
      ensures BranchGrows(a, c, name)
    {
      assert BranchGrows(a, b, name) && BranchGrows(b, c, name);
    }
    forall id | id in a.changesets
      ensures RecordGrows(a, c, id)
    {
      assert RecordGrows(a, b, id) && RecordGrows(b, c, id);
    }
  }

  lemma GrowsTransitive(a: Repos, b: Repos, c: Repos)
    requires Grows(a, b) && Grows(b, c)
    ensures Grows(a, c)
  {
    forall r | r in a
      ensures RepoGrowsIn(a, c, r)
    {
      assert RepoGrowsIn(a, b, r) && RepoGrowsIn(b, c, r);
      RepoGrowsTransitive(a[r], b[r], c[r]);
    }
  }

  lemma RepoGrowsReflexive(repo: Repo)
    ensures RepoGrows(repo, repo)
  {
  }

  lemma PromoteGrows(r: string, repo: Repo, id: Id, who: string)
    requires RepoOk(r, repo)
    ensures RepoGrows(repo, PromoteEffect(repo, id, who))
  {
    if PromoteError(repo, id).None? {
      PromotedIsNotInHistory(r, repo, id);
    }
  }

  lemma SubmitGrows(r: string, repo: Repo, input: SubmitInput, id: Id)
    requires RepoOk(r, repo) && id !in repo.changesets
    ensures RepoGrows(repo, SubmitEffect(repo, input, id))
  {
  }

  lemma DropEmptyGrows(r: string, repo: Repo)
    requires RepoOk(r, repo)
    ensures RepoGrows(repo, DropEmpty(repo))
  {
    DropEmptyKeepsOk(r, repo);
  }

  /** One repository moves on from `repo` to `repo'`, the others stay. */
  lemma ReplaceGrows(repos: Repos, r: string, repo': Repo)
    requires r in repos ==> RepoGrows(repos[r], repo')
    ensures Grows(repos, repos[r := repo'])
  {
    forall q | q in repos
      ensures RepoGrowsIn(repos, repos[r := repo'], q)
    {
      RepoGrowsReflexive(repos[q]);
    }
  }

  lemma GrowsReflexive(repos: Repos)
    ensures Grows(repos, repos)
  {
    forall q | q in repos
      ensures RepoGrowsIn(repos, repos, q)
    {
      RepoGrowsReflexive(repos[q]);
    }
  }

  lemma BranchGrowsIn(repos: Repos, r: string, b: string, from: Option<Id>, who: string)
    requires StoreOk(repos)
    ensures Grows(repos, repos[r := BranchEffect(OpenRepo(repos, r, who), b, from, who)])
  {
    OpenRepoOk(repos, r, who);
    ReplaceGrows(repos, r, BranchEffect(OpenRepo(repos, r, who), b, from, who));
  }

  lemma StepGrows(repos: Repos, op: Op)
    requires StoreOk(repos) && Legal(repos, op)
    ensures Grows(repos, Step(repos, op))
  {
    match op
    case CreateRepo(r, d, who) =>
      if r in repos {
        GrowsReflexive(repos);
      } else {
        ReplaceGrows(repos, r, NewRepo(d, who));
      }
    case CreateBranch(r, b, from, who) =>
      BranchGrowsIn(repos, r, b, from, who);
    case Submit(input, id) =>
      var repo := OpenRepo(repos, input.repoId, input.author);
      OpenRepoOk(repos, input.repoId, input.author);
      SubmitGrows(input.repoId, repo, input, id);
      ReplaceGrows(repos, input.repoId, SubmitEffect(repo, input, id));
    case Approve(r, id, who) =>
      if r in repos {
        ReplaceGrows(repos, r, ApproveEffect(repos[r], id, who));
      } else {
        GrowsReflexive(repos);
      }
    case Promote(r, id, who) =>
      if r in repos {
        PromoteGrows(r, repos[r], id, who);
        ReplaceGrows(repos, r, PromoteEffect(repos[r], id, who));
      } else {
        GrowsReflexive(repos);
      }
    case Restart =>
      forall q | q in repos
        ensures RepoGrowsIn(repos, Step(repos, op), q)
      {
        DropEmptyGrows(q, repos[q]);
      }
  }

  lemma {:induction false} RunGrows(repos: Repos, ops: seq<Op>)
    requires StoreOk(repos) && LegalRun(repos, ops)
    ensures Grows(repos, Exec(repos, ops))
    decreases |ops|
  {
    if ops == [] {
      GrowsReflexive(repos);
    } else {
      StepKeepsOk(repos, ops[0]);
      StepGrows(repos, ops[0]);
      RunGrows(Step(repos, ops[0]), ops[1..]);
      GrowsTransitive(repos, Step(repos, ops[0]), Exec(repos, ops));
    }
  }

  /** Over any run, from any reachable store: a branch history is only ever extended at its end,
      deltas, links and snapshots never change, and a status only moves forward. */
  lemma RunsOnlyGrow(repos: Repos, repos': Repos)
    requires StoreOk(repos) && Leads(repos, repos')
    ensures Grows(repos, repos')
    ensures StoreOk(repos')
  {
    LeadsKeepsOk(repos, repos');
    var ops :| LegalRun(repos, ops) && Exec(repos, ops) == repos';
    RunGrows(repos, ops);
  }

  // ---- histories are lineages

  /** Starts at a parentless changeset, goes from parent to child, and repeats nothing. */
  ghost predicate IsLineage(cs: Changesets, w: seq<Id>) {
    && NoDuplicates(w)
    && (forall k {:trigger w[k]} :: 0 <= k < |w| ==> w[k] in cs)
    && (forall k {:trigger Linked(cs, w, k)} :: 0 < k < |w| ==> Linked(cs, w, k))
    && (w != [] ==> cs[w[0]].parent == None)
  }

  lemma ChainIsLineage(cs: Changesets, w: seq<Id>, id: Id)
    requires ChainTo(cs, w, id)
    ensures IsLineage(cs, w) && LineageOf(cs, id) == Some(w)
  {
    OnChain(cs, w, id);
    WalkHasNoDuplicates(cs, w, id);
    WalkIsUnique(cs, LineageOf(cs, id).value, w, id);
  }

  /** A cached history is a lineage, ends at the head, and is what the parent walk from the head
      returns. */
  lemma HistoryIsLineage(repos: Repos, r: string, name: string)
    requires StoreOk(repos) && r in repos && name in repos[r].branches
    ensures var b := repos[r].branches[name];
            && IsLineage(repos[r].changesets, b.history)
            && (b.record.head.None? ==> b.history == [])
            && (b.record.head.Some? ==>
                  && b.history != [] && Last(b.history) == b.record.head.value
                  && LineageOf(repos[r].changesets, b.record.head.value) == Some(b.history))
  {
    assert RepoOk(r, repos[r]) && BranchOk(repos[r], name);
    var b := repos[r].branches[name];
    if b.record.head.Some? {
      ChainIsLineage(repos[r].changesets, b.history, b.record.head.value);
    }
  }

  /** The parent walk ends, and is never None, from every changeset. */
  lemma LineageAlwaysEnds(repos: Repos, r: string, id: Id)
    requires StoreOk(repos) && r in repos && id in repos[r].changesets
    ensures LineageOf(repos[r].changesets, id).Some?
  {
    assert RepoOk(r, repos[r]) && RecordOk(r, repos[r], id);
  }

  /** The changesets of a branch's own that its history lists are exactly its visible ones. A
      history may hold drafts only of other branches. */
  lemma OwnHistoryIsVisible(repos: Repos, r: string, id: Id)
    requires StoreOk(repos) && r in repos && id in repos[r].changesets
    ensures repos[r].changesets[id].branch in repos[r].branches
    ensures id in repos[r].branches[repos[r].changesets[id].branch].history
            <==> repos[r].changesets[id].status == Visible
  {
    assert RecordOk(r, repos[r], id);
  }

  lemma RunOfTwo(repos: Repos, a: Op, b: Op)
    requires Legal(repos, a) && Legal(Step(repos, a), b)
    ensures LegalRun(repos, [a, b]) && Exec(repos, [a, b]) == Step(Step(repos, a), b)
  {
    assert [a, b][1..] == [b] && [b][1..] == [];
    assert LegalRun(Step(repos, a), [b]);
    assert Exec(Step(repos, a), [b]) == Exec(Step(Step(repos, a), b), []);
  }

  /** A branch may start from a draft, so a history can hold a changeset that is not visible. */
  lemma HistoryMayHoldADraft() returns (ops: seq<Op>)
    ensures LegalRun(map[], ops)
    ensures "r" in Exec(map[], ops)
    ensures var repo := Exec(map[], ops)["r"];
            && "side" in repo.branches && "d" in repo.changesets
            && repo.branches["side"].history == ["d"] && repo.changesets["d"].status == Draft
  {
    var input := SubmitInput("r", "main", Some(ROOT), Normal, None, "ann", "first", AsDraft, []);
    var one, two := Submit(input, "d"), CreateBranch("r", "side", Some("d"), "ann");
    ops := [one, two];
    var s1 := Step(map[], one);
    RunOfTwo(map[], one, two);
    var cs := s1["r"].changesets;
    assert cs["d"].parent == None;
    assert ChainTo(cs, ["d"], "d");
    WalkIsUnique(cs, LineageOf(cs, "d").value, ["d"], "d");
  }

  // ---- snapshots are replays

  /** All deltas of a list of changesets, in order. */
  function AllDeltas(cs: Changesets, w: seq<Id>): seq<AssetDelta>
    requires forall k :: 0 <= k < |w| ==> w[k] in cs
  {
    if w == [] then [] else AllDeltas(cs, w[..|w| - 1]) + cs[Last(w)].assets
  }

  lemma {:induction false} ChainReplays(r: string, repo: Repo, w: seq<Id>, id: Id)
    requires RepoOk(r, repo) && ChainTo(repo.changesets, w, id)
    requires forall k :: 0 <= k < |w| ==> w[k] in repo.changesets
    ensures SnapshotOf(repo, id) == ApplyDeltas(map[], AllDeltas(repo.changesets, w))
    decreases |w|
  {
    var cs := repo.changesets;
    OnChain(cs, w, id);
    assert RecordOk(r, repo, id);
    var front := w[..|w| - 1];
    if |w| > 1 {
      PrefixIsWalk(cs, w, w[|w| - 1], |w| - 2);
      ChainReplays(r, repo, front, Last(front));
    }
    ApplyConcat(map[], AllDeltas(cs, front), cs[id].assets);
  }

  /** Every snapshot is the replay, from empty, of all deltas along its changeset's lineage. */
  lemma SnapshotIsReplay(repos: Repos, r: string, id: Id)
    requires StoreOk(repos) && r in repos && id in repos[r].changesets
    ensures var cs := repos[r].changesets;
            && LineageOf(cs, id).Some?
            && (forall k :: 0 <= k < |LineageOf(cs, id).value| ==> LineageOf(cs, id).value[k] in cs)
            && SnapshotOf(repos[r], id) == ApplyDeltas(map[], AllDeltas(cs, LineageOf(cs, id).value))
  {
    assert RecordOk(r, repos[r], id);
    var w := LineageOf(repos[r].changesets, id).value;
    OnChain(repos[r].changesets, w, id);
    ChainReplays(r, repos[r], w, id);
  }

  /** So the content of a branch is the replay of its whole cached history. */
  lemma BranchContentIsReplay(repos: Repos, r: string, name: string)
    requires StoreOk(repos) && r in repos && name in repos[r].branches
    ensures var b, cs := repos[r].branches[name], repos[r].changesets;
            && (forall k :: 0 <= k < |b.history| ==> b.history[k] in cs)
            && SnapshotAt(repos[r], b.record.head) == ApplyDeltas(map[], AllDeltas(cs, b.history))
  {
    HistoryIsLineage(repos, r, name);
    if repos[r].branches[name].record.head.Some? {
      SnapshotIsReplay(repos, r, repos[r].branches[name].record.head.value);
    }
  }

  /** Every recorded changeset can be undone from its own deltas. */
  lemma ChangesetsAreInvertible(repos: Repos, r: string, id: Id)
    requires StoreOk(repos) && r in repos && id in repos[r].changesets
    ensures var c := repos[r].changesets[id];
            UndoDeltas(Hashes(SnapshotOf(repos[r], id)), c.assets) == Hashes(SnapshotAt(repos[r], c.parent))
  {
    assert RecordOk(r, repos[r], id);
    DeltasAreInvertible(SnapshotAt(repos[r], repos[r].changesets[id].parent), repos[r].changesets[id].assets);
  }

  /** Promotion installs exactly the draft's deltas on top of the head current at that moment, though
      the snapshot was computed when the draft was submitted. */
  lemma PromoteInstallsTheDraft(repos: Repos, r: string, id: Id, who: string)
    requires StoreOk(repos) && Outcome(repos, Promote(r, id, who)).None?
    ensures var repo, repo' := repos[r], Step(repos, Promote(r, id, who))[r];
            var c := repo.changesets[id];
            var b, b' := repo.branches[c.branch], repo'.branches[c.branch];
            && b'.record.head == Some(id) && b'.history == b.history + [id]
            && SnapshotAt(repo', b'.record.head) == ApplyDeltas(SnapshotAt(repo, b.record.head), c.assets)
            && repo'.changesets[id].status == Visible
  {
    assert RepoOk(r, repos[r]);
    PromotedIsNotInHistory(r, repos[r], id);
    PromotedHasParent(r, repos[r], id);
    assert RecordOk(r, repos[r], id);
  }

  // ---- heads never come back

  lemma SamePlace<T(!new)>(w: seq<T>, i: int, j: int)
    requires NoDuplicates(w) && 0 <= i < |w| && 0 <= j < |w| && w[i] == w[j]
    ensures i == j
  {
  }

  lemma NotLast<T(!new)>(w: seq<T>, i: int)
    requires NoDuplicates(w) && 0 <= i < |w| - 1
    ensures w[i] != Last(w)
  {
  }

  /** A branch whose history has grown past x does not have x as its head again. */
  lemma HeadLeftBehind(r: string, repo1: Repo, repo2: Repo, repo3: Repo, name: string, x: Id)
    requires RepoOk(r, repo1) && RepoOk(r, repo2) && RepoOk(r, repo3)
    requires name in repo1.branches && BranchGrows(repo1, repo2, name) && BranchGrows(repo2, repo3, name)
    requires repo1.branches[name].record.head == Some(x) && repo2.branches[name].record.head != Some(x)
    ensures repo3.branches[name].record.head != Some(x)
  {
    HeadIsKnown(r, repo1, name);
    HeadIsKnown(r, repo2, name);
    HeadIsKnown(r, repo3, name);
    assert BranchOk(repo2, name);
    NotLast(repo3.branches[name].history, |repo1.branches[name].history| - 1);
  }

  /** Once a branch head has left changeset x it never returns to x. */
  lemma HeadsNeverReturn(s1: Repos, s2: Repos, s3: Repos, r: string, name: string, x: Id)
    requires StoreOk(s1) && Leads(s1, s2) && Leads(s2, s3)
    requires r in s1 && name in s1[r].branches
    requires s1[r].branches[name].record.head == Some(x)
    ensures r in s2 && name in s2[r].branches && r in s3 && name in s3[r].branches
    ensures s2[r].branches[name].record.head != Some(x) ==> s3[r].branches[name].record.head != Some(x)
  {
    RunsOnlyGrow(s1, s2);
    LeadsKeepsOk(s2, s3);
    var ops :| LegalRun(s2, ops) && Exec(s2, ops) == s3;
    RunGrows(s2, ops);
    assert RepoGrowsIn(s1, s2, r) && RepoGrowsIn(s2, s3, r);
    assert BranchGrows(s1[r], s2[r], name) && BranchGrows(s2[r], s3[r], name);
    if s2[r].branches[name].record.head != Some(x) {
      HeadLeftBehind(r, s1[r], s2[r], s3[r], name, x);
    }
  }

  /** Position of a visible changeset in its branch: right after its parent. */
  lemma VisibleFollowsParent(r: string, repo: Repo, x: Id) returns (k: nat)
    requires RepoOk(r, repo) && x in repo.changesets && repo.changesets[x].status == Visible
    ensures var c := repo.changesets[x];
            && c.branch in repo.branches
            && k < |repo.branches[c.branch].history| && repo.branches[c.branch].history[k] == x
            && c.parent == (if k == 0 then None else Some(repo.branches[c.branch].history[k - 1]))
  {
    assert RecordOk(r, repo, x);
    var c := repo.changesets[x];
    var b := repo.branches[c.branch];
    assert BranchOk(repo, c.branch);
    k :| 0 <= k < |b.history| && b.history[k] == x;
    assert Linked(repo.changesets, b.history, k);
  }

  /** No two visible changesets with the same home branch share a parent. */
  lemma VisibleSiblingsAreEqual(repos: Repos, r: string, x: Id, y: Id)
    requires StoreOk(repos) && r in repos && x in repos[r].changesets && y in repos[r].changesets
    requires var c, d := repos[r].changesets[x], repos[r].changesets[y];
             c.status == Visible && d.status == Visible && c.branch == d.branch && c.parent == d.parent
    ensures x == y
  {
    var i := VisibleFollowsParent(r, repos[r], x);
    var j := VisibleFollowsParent(r, repos[r], y);
    var h := repos[r].branches[repos[r].changesets[x].branch].history;
    HeadIsKnown(r, repos[r], repos[r].changesets[x].branch);
    if i > 0 {
      SamePlace(h, i - 1, j - 1);
    }
  }

  // ---- which drafts can still become visible

  ghost predicate IsVisible(repos: Repos, r: string, id: Id) {
    r in repos && id in repos[r].changesets && repos[r].changesets[id].status == Visible
  }

  /** Some continuation makes the changeset visible. */
  ghost predicate CanBecomeVisible(repos: Repos, r: string, id: Id) {
    exists ops :: LegalRun(repos, ops) && IsVisible(Exec(repos, ops), r, id)
  }

  /** The head of the changeset's home branch is no longer the base it was submitted on. */
  ghost predicate Overtaken(repos: Repos, r: string, id: Id)
    requires StoreOk(repos) && r in repos && id in repos[r].changesets
  {
    assert RecordOk(r, repos[r], id);
    var c := repos[r].changesets[id];
    repos[r].branches[c.branch].record.head != c.base
  }

  lemma StepKeepsOvertaken(repos: Repos, op: Op, r: string, id: Id)
    requires StoreOk(repos) && Legal(repos, op) && r in repos && id in repos[r].changesets
    requires Overtaken(repos, r, id)
    ensures StoreOk(Step(repos, op)) && r in Step(repos, op) && id in Step(repos, op)[r].changesets
    ensures Overtaken(Step(repos, op), r, id)
  {
    var repos' := Step(repos, op);
    StepKeepsOk(repos, op);
    StepGrows(repos, op);
    assert RepoGrowsIn(repos, repos', r) && RecordGrows(repos[r], repos'[r], id);
    assert RecordOk(r, repos[r], id) && RecordOk(r, repos'[r], id);
    var c := repos[r].changesets[id];
    var b, b' := repos[r].branches[c.branch], repos'[r].branches[c.branch];
    assert BranchGrows(repos[r], repos'[r], c.branch);
    HeadIsKnown(r, repos[r], c.branch);
    HeadIsKnown(r, repos'[r], c.branch);
    assert BranchOk(repos[r], c.branch);
    if c.parent.Some? {
      var k :| 0 <= k < |b.history| && b.history[k] == c.parent.value;
      NotLast(b'.history, k);
    }
  }

  lemma StepDoesNotShow(repos: Repos, op: Op, r: string, id: Id)
    requires StoreOk(repos) && Legal(repos, op) && r in repos && id in repos[r].changesets
    requires Overtaken(repos, r, id) && !IsVisible(repos, r, id)
    ensures !IsVisible(Step(repos, op), r, id)
  {
    match op
    case CreateRepo(q, d, who) =>
    case CreateBranch(q, b, from, who) => OpenRepoOk(repos, q, who);
    case Submit(input, x) => OpenRepoOk(repos, input.repoId, input.author);
    case Approve(q, x, who) =>
    case Promote(q, x, who) =>
    case Restart =>
  }

  lemma {:induction false} OvertakenStaysHidden(repos: Repos, ops: seq<Op>, r: string, id: Id)
    requires StoreOk(repos) && LegalRun(repos, ops) && r in repos && id in repos[r].changesets
    requires Overtaken(repos, r, id) && !IsVisible(repos, r, id)
    ensures !IsVisible(Exec(repos, ops), r, id)
    decreases |ops|
  {
    if ops != [] {
      StepKeepsOvertaken(repos, ops[0], r, id);
      StepDoesNotShow(repos, ops[0], r, id);
      OvertakenStaysHidden(Step(repos, ops[0]), ops[1..], r, id);
    }
  }

  lemma CurrentCanBePromoted(repos: Repos, r: string, id: Id)
    requires StoreOk(repos) && r in repos && id in repos[r].changesets
    requires !Overtaken(repos, r, id) && !IsVisible(repos, r, id)
    ensures CanBecomeVisible(repos, r, id)
  {
    assert RecordOk(r, repos[r], id);
    var a, p := Approve(r, id, "ann"), Promote(r, id, "ann");
    if repos[r].changesets[id].status == Approved {
      var ops := [p];
      assert ops[1..] == [];
      assert Exec(repos, ops) == Exec(Step(repos, p), []) == Step(repos, p);
      assert LegalRun(repos, ops) && IsVisible(Exec(repos, ops), r, id);
    } else {
      var ops := [a, p];
      var s1 := Step(repos, a);
      assert ops[1..] == [p] && ops[1..][1..] == [];
      assert LegalRun(s1, [p]) by { assert [p][1..] == []; }
      assert Exec(repos, ops) == Exec(s1, [p]) == Exec(Step(s1, p), []) == Step(s1, p);
      assert IsVisible(Exec(repos, ops), r, id);
    }
  }

  /** A draft or approved changeset can still become visible, in some continuation, exactly when the
      head of its home branch is its base right now. Everything else is blocked forever. */
  lemma PromotableIffCurrent(repos: Repos, r: string, id: Id)
    requires StoreOk(repos) && r in repos && id in repos[r].changesets && !IsVisible(repos, r, id)
    ensures repos[r].changesets[id].branch in repos[r].branches
    ensures CanBecomeVisible(repos, r, id) <==>
            repos[r].branches[repos[r].changesets[id].branch].record.head == repos[r].changesets[id].base
  {
    assert RecordOk(r, repos[r], id);
    if Overtaken(repos, r, id) {
      forall ops | LegalRun(repos, ops)
        ensures !IsVisible(Exec(repos, ops), r, id)
      {
        OvertakenStaysHidden(repos, ops, r, id);
      }
    } else {
      CurrentCanBePromoted(repos, r, id);
    }
  }

  /** A draft of a first commit is never promotable: no head is ever called ROOT. */
  lemma RootDraftsStayHidden(repos: Repos, r: string, id: Id)
    requires StoreOk(repos) && r in repos && id in repos[r].changesets && !IsVisible(repos, r, id)
    requires repos[r].changesets[id].base == Some(ROOT)
    ensures !CanBecomeVisible(repos, r, id)
  {
    PromotableIffCurrent(repos, r, id);
    HeadIsKnown(r, repos[r], repos[r].changesets[id].branch);
  }

  /** Of all drafts of a branch on the same base at most one is ever promoted; once one is, the
      others are blocked forever. */
  lemma OneDraftPerBase(repos: Repos, r: string, x: Id, y: Id)
    requires StoreOk(repos) && r in repos && x in repos[r].changesets && y in repos[r].changesets
    requires repos[r].changesets[x].branch == repos[r].changesets[y].branch
    requires repos[r].changesets[x].base == repos[r].changesets[y].base
    requires IsVisible(repos, r, x) && x != y
    ensures !IsVisible(repos, r, y) && !CanBecomeVisible(repos, r, y)
  {
    var repo := repos[r];
    assert RecordOk(r, repo, x) && RecordOk(r, repo, y);
    var branch := repo.changesets[x].branch;
    HeadIsKnown(r, repo, branch);
    if IsVisible(repos, r, y) {
      VisibleSiblingsAreEqual(repos, r, x, y);
    }
    var k := VisibleFollowsParent(r, repo, x);
    if k > 0 {
      NotLast(repo.branches[branch].history, k - 1);
    }
    PromotableIffCurrent(repos, r, y);
  }

  // ---- errors

  ghost function RepoOf(op: Op): Option<string> {
    match op
    case CreateRepo(r, _, _) => Some(r)
    case CreateBranch(r, _, _, _) => Some(r)
    case Submit(input, _) => Some(input.repoId)
    case Approve(r, _, _) => Some(r)
    case Promote(r, _, _) => Some(r)
    case Restart => None
  }

  /** A failed operation changes nothing, except that a failed submit or branch creation on an
      unknown repository leaves an empty repository with its default branch behind. */
  lemma FailureChangesNothing(repos: Repos, op: Op)
    requires StoreOk(repos) && Outcome(repos, op).Some?
    ensures || Step(repos, op) == repos
            || exists r, who :: RepoOf(op) == Some(r) && r !in repos
                 && (op.Submit? || op.CreateBranch?) && Step(repos, op) == repos[r := NewRepo("main", who)]
  {
    match op
    case CreateRepo(r, d, who) =>
    case CreateBranch(r, b, from, who) =>
      OpenRepoOk(repos, r, who);
      assert r in repos ==> Step(repos, op) == repos;
      assert r !in repos ==> Step(repos, op) == repos[r := NewRepo("main", who)];
    case Submit(input, id) =>
      OpenRepoOk(repos, input.repoId, input.author);
      assert input.repoId in repos ==> Step(repos, op) == repos;
      assert input.repoId !in repos ==> Step(repos, op) == repos[input.repoId := NewRepo("main", input.author)];
    case Approve(r, id, who) =>
      assert Step(repos, op) == repos;
    case Promote(r, id, who) =>
      assert Step(repos, op) == repos;
    case Restart =>
  }
}
