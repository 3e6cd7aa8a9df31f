/** What the store answers without changing: the promotion gate, history pages, rollback plans and
    synchronised snapshots, and what these answers mean. */
module Observers {
  import opened Prelude
  import opened Deltas
  import opened Lineage
  import opened Versioning
  import opened VersionInvariant
  import opened VersionRuns
  import opened Sorting

  // ---- the promotion gate

  /** Why a changeset cannot be promoted; the server words it as a sentence with the same contents. */
  datatype Blocking = StatusIs(status: Status) | HeadMoved(head: Option<Id>, base: Option<Id>)

  datatype Gate = Gate(
    branch: string, status: Status, canPromote: bool, blocking: Option<Blocking>, base: Option<Id>, head: Option<Id>,
    stagingRef: Option<string>, visibleRef: Option<string>)

  function GateOf(repos: Repos, r: string, id: Id): Result<Gate, Error> {
    if r !in repos then Err(RepoNotFound)
    else if id !in repos[r].changesets then Err(ChangesetNotFound(id))
    else
      var c := repos[r].changesets[id];
      if c.branch !in repos[r].branches then Err(BranchNotFound(c.branch))
      else
        var head := repos[r].branches[c.branch].record.head;
        var blocking :=
          if c.status != Approved then Some(StatusIs(c.status))
          else if head != c.base then Some(HeadMoved(head, c.base))
          else None;
        Ok(Gate(c.branch, c.status, blocking.None?, blocking, c.base, head, c.stagingRef, c.visibleRef))
  }

  /** Promotion succeeds exactly when the gate says it can, and otherwise fails for the reason the gate names;
      where the gate has no answer, promotion fails with the same error unless the changeset is not even
      approved. */
  lemma GateDecidesPromote(repos: Repos, r: string, id: Id, who: string)
    ensures Outcome(repos, Promote(r, id, who)).None?
            <==> GateOf(repos, r, id).Ok? && GateOf(repos, r, id).value.canPromote
    ensures GateOf(repos, r, id).Ok? && !GateOf(repos, r, id).value.canPromote ==>
              var gate := GateOf(repos, r, id).value;
              Outcome(repos, Promote(r, id, who)) ==
              Some(match gate.blocking.value
                   case StatusIs(status) => InvalidState(id, status, "approved")
                   case HeadMoved(head, base) => BaseMismatch(gate.branch, head, base))
    ensures GateOf(repos, r, id).Err? ==>
              || Outcome(repos, Promote(r, id, who)) == Some(GateOf(repos, r, id).error)
              || (r in repos && id in repos[r].changesets && repos[r].changesets[id].status != Approved)
  {
  }

  // ---- history pages

  function Clamp(limit: nat): nat {
    Min(Max(limit, 1), 200)
  }

  /** Skip, then take. */
  function PageOf(s: seq<Id>, limit: nat, cursor: nat): seq<Id> {
    var from := Min(cursor, |s|);
    s[from..Min(from + Clamp(limit), |s|)]
  }

  /** The newest-first slice a page shows. */
  function PageIds(history: seq<Id>, limit: nat, cursor: nat): seq<Id> {
    PageOf(Reverse(history), limit, cursor)
  }

  function NextCursor(history: seq<Id>, limit: nat, cursor: nat): Option<nat> {
    var consumed := cursor + |PageIds(history, limit, cursor)|;
    if consumed < |history| then Some(consumed) else None
  }

  /** Following `next_cursor` over an unchanging history, with any limit for each page. */
  function FollowPages(history: seq<Id>, limits: nat -> nat, page: nat, cursor: nat): seq<Id>
    decreases |history| - cursor
  {
    var items := PageIds(history, limits(page), cursor);
    var next := NextCursor(history, limits(page), cursor);
    if next.None? || cursor >= |history| then items else items + FollowPages(history, limits, page + 1, next.value)
  }

  lemma {:induction false} PagesFromCursor(history: seq<Id>, limits: nat -> nat, page: nat, cursor: nat)
    requires cursor <= |history|
    ensures FollowPages(history, limits, page, cursor) == Reverse(history)[cursor..]
    decreases |history| - cursor
  {
    var next := NextCursor(history, limits(page), cursor);
    if next.Some? {
      PagesFromCursor(history, limits, page + 1, next.value);
    }
  }

  /** Whatever the limits, following the pages from the start lists the history once, newest first. */
  lemma PagesListHistoryOnce(history: seq<Id>, limits: nat -> nat)
    ensures FollowPages(history, limits, 0, 0) == Reverse(history)
  {
    PagesFromCursor(history, limits, 0, 0);
    assert Reverse(history)[0..] == Reverse(history);
  }

  datatype Fetch = Fetch(history: seq<Id>, limit: nat)

  /** Commits may land between two fetches. */
  ghost predicate HistoriesGrow(fetches: seq<Fetch>) {
    forall i, j :: 0 <= i < j < |fetches| ==> fetches[i].history <= fetches[j].history
  }

  /** The entries a client collects from its fetches, until it is told there is no next page. */
  function Collected(fetches: seq<Fetch>, cursor: nat): seq<Id> {
    if fetches == [] then []
    else
      var f := fetches[0];
      var next := NextCursor(f.history, f.limit, cursor);
      PageIds(f.history, f.limit, cursor) + if next.None? then [] else Collected(fetches[1..], next.value)
  }

  predicate Finished(fetches: seq<Fetch>, cursor: nat) {
    fetches != [] &&
    var next := NextCursor(fetches[0].history, fetches[0].limit, cursor);
    next.None? || Finished(fetches[1..], next.value)
  }

  lemma HistoriesGrowOn(fetches: seq<Fetch>)
    requires HistoriesGrow(fetches) && fetches != []
    ensures HistoriesGrow(fetches[1..])
  {
    forall i, j | 0 <= i < j < |fetches[1..]|
      ensures fetches[1..][i].history <= fetches[1..][j].history
    {
      assert fetches[i + 1].history <= fetches[j + 1].history;
    }
  }

  lemma InPage(h: seq<Id>, limit: nat, cursor: nat, k: nat)
    requires cursor + k < |h| <= cursor + |PageIds(h, limit, cursor)| + k
    ensures h[k] in PageIds(h, limit, cursor)
  {
    assert PageIds(h, limit, cursor)[|h| - 1 - k - cursor] == h[k];
  }

  lemma AfterFirstFetch(fetches: seq<Fetch>, cursor: nat, next: nat)
    requires HistoriesGrow(fetches) && Finished(fetches, cursor)
    requires NextCursor(fetches[0].history, fetches[0].limit, cursor) == Some(next)
    ensures |fetches| > 1 && fetches[0].history <= fetches[1].history
    ensures HistoriesGrow(fetches[1..]) && Finished(fetches[1..], next)
    ensures Collected(fetches, cursor) ==
            PageIds(fetches[0].history, fetches[0].limit, cursor) + Collected(fetches[1..], next)
  {
    HistoriesGrowOn(fetches);
    assert Finished(fetches[1..], next);
  }

  lemma {:induction false} NothingIsSkipped(fetches: seq<Fetch>, cursor: nat, k: nat)
    requires HistoriesGrow(fetches) && Finished(fetches, cursor)
    requires cursor + k < |fetches[0].history|
    ensures fetches[0].history[k] in Collected(fetches, cursor)
  {
    var f := fetches[0];
    var next := cursor + |PageIds(f.history, f.limit, cursor)|;
    if |f.history| <= next + k {
      InPage(f.history, f.limit, cursor, k);
    } else {
      AfterFirstFetch(fetches, cursor, next);
      NothingIsSkipped(fetches[1..], next, k);
    }
  }

  /** A client that follows the pages to the end while commits land still sees every entry that was
      there at its first fetch. */
  lemma PagesUnderCommits(fetches: seq<Fetch>, k: nat)
    requires HistoriesGrow(fetches) && Finished(fetches, 0) && k < |fetches[0].history|
    ensures fetches[0].history[k] in Collected(fetches, 0)
  {
    NothingIsSkipped(fetches, 0, k);
  }

  /** How many fetches the client really makes. */
  function Used(fetches: seq<Fetch>, cursor: nat): nat {
    if fetches == [] then 0
    else
      var next := NextCursor(fetches[0].history, fetches[0].limit, cursor);
      if next.None? then 1 else 1 + Used(fetches[1..], next.value)
  }

  /** No commit lands between the first and the last fetch made. */
  ghost predicate Still(fetches: seq<Fetch>, cursor: nat) {
    forall j :: 0 <= j < Used(fetches, cursor) && j < |fetches| ==> fetches[j].history == fetches[0].history
  }

  /** Stillness from one fetch on: this step and the rest. */
  lemma StillStep(fetches: seq<Fetch>, cursor: nat, next: nat)
    requires |fetches| > 1 && NextCursor(fetches[0].history, fetches[0].limit, cursor) == Some(next)
    ensures Still(fetches, cursor) <==> fetches[1].history == fetches[0].history && Still(fetches[1..], next)
  {
    var later := fetches[1..];
    assert Used(fetches, cursor) == 1 + Used(later, next) && Used(later, next) >= 1;
    assert later[0] == fetches[1];
    if Still(fetches, cursor) {
      forall j | 0 <= j < Used(later, next) && j < |later|
        ensures later[j].history == later[0].history
      {
        assert later[j] == fetches[j + 1];
      }
    }
    if fetches[1].history == fetches[0].history && Still(later, next) {
      forall j | 0 <= j < Used(fetches, cursor) && j < |fetches|
        ensures fetches[j].history == fetches[0].history
      {
        assert j > 0 ==> later[j - 1] == fetches[j];
      }
    }
  }

  lemma {:induction false} StillDeliversOnce(fetches: seq<Fetch>, cursor: nat)
    requires HistoriesGrow(fetches) && Finished(fetches, cursor) && Still(fetches, cursor)
    requires cursor <= |fetches[0].history|
    ensures Collected(fetches, cursor) == Reverse(fetches[0].history)[cursor..]
  {
    var f := fetches[0];
    var next := NextCursor(f.history, f.limit, cursor);
    if next.Some? {
      AfterFirstFetch(fetches, cursor, next.value);
      StillStep(fetches, cursor, next.value);
      StillDeliversOnce(fetches[1..], next.value);
      PageThenRest(f.history, f.limit, cursor);
      assert fetches[1..][0].history == f.history;
    } else {
      PageThenRest(f.history, f.limit, cursor);
    }
  }

  lemma PageOfThenRest(s: seq<Id>, limit: nat, cursor: nat)
    requires cursor <= |s|
    ensures var page, next := PageOf(s, limit, cursor), cursor + |PageOf(s, limit, cursor)|;
            next <= |s| && page + s[next..] == s[cursor..] && (next == |s| ==> page == s[cursor..])
  {
  }

  lemma PageThenRest(h: seq<Id>, limit: nat, cursor: nat)
    requires cursor <= |h|
    ensures var next, page := NextCursor(h, limit, cursor), PageIds(h, limit, cursor);
            && (next.None? ==> page == Reverse(h)[cursor..])
            && (next.Some? ==> next.value <= |h| && page + Reverse(h)[next.value..] == Reverse(h)[cursor..])
  {
    PageOfThenRest(Reverse(h), limit, cursor);
  }

  /** The last entry of a page is delivered again if a commit lands before a later fetch that is made. */
  lemma GrowthRepeatsAnEntry(fetches: seq<Fetch>, cursor: nat, next: nat)
    requires HistoriesGrow(fetches) && Finished(fetches, cursor) && cursor <= |fetches[0].history|
    requires NextCursor(fetches[0].history, fetches[0].limit, cursor) == Some(next)
    requires |fetches| > 1 && fetches[1].history != fetches[0].history
    ensures !NoDuplicates(Collected(fetches, cursor))
  {
    var f := fetches[0];
    var page, rest := PageIds(f.history, f.limit, cursor), fetches[1..];
    AfterFirstFetch(fetches, cursor, next);
    LastOfPage(f.history, f.limit, cursor, next);
    var k := |f.history| - next;
    assert rest[0].history[k] == f.history[k];
    NothingIsSkipped(rest, next, k);
    SharedEntry(page, Collected(rest, next), f.history[k]);
  }

  lemma LastOfPage(h: seq<Id>, limit: nat, cursor: nat, next: nat)
    requires cursor <= |h| && NextCursor(h, limit, cursor) == Some(next)
    ensures next < |h| && PageIds(h, limit, cursor) != [] && Last(PageIds(h, limit, cursor)) == h[|h| - next]
  {
  }

  lemma SharedEntry<T(!new)>(page: seq<T>, later: seq<T>, x: T)
    requires page != [] && Last(page) == x && x in later
    ensures !NoDuplicates(page + later)
  {
    var j :| 0 <= j < |later| && later[j] == x;
    assert (page + later)[|page| - 1] == (page + later)[|page| + j];
  }

  lemma RepeatInPart<T(!new)>(page: seq<T>, rest: seq<T>)
    requires !NoDuplicates(rest)
    ensures !NoDuplicates(page + rest)
  {
    var a, b :| 0 <= a < b < |rest| && rest[a] == rest[b];
    assert (page + rest)[|page| + a] == (page + rest)[|page| + b];
  }

  lemma {:induction false} GrowthRepeats(fetches: seq<Fetch>, cursor: nat)
    requires HistoriesGrow(fetches) && Finished(fetches, cursor) && cursor <= |fetches[0].history|
    requires !Still(fetches, cursor)
    ensures !NoDuplicates(Collected(fetches, cursor))
  {
    var f := fetches[0];
    var next := NextCursor(f.history, f.limit, cursor).value;
    AfterFirstFetch(fetches, cursor, next);
    StillStep(fetches, cursor, next);
    if fetches[1].history != f.history {
      GrowthRepeatsAnEntry(fetches, cursor, next);
    } else {
      GrowthRepeats(fetches[1..], next);
      RepeatInPart(PageIds(f.history, f.limit, cursor), Collected(fetches[1..], next));
    }
  }

  /** A client that follows the pages to the end gets each entry of the first history exactly once, newest
      first, exactly when no commit lands before its last fetch; otherwise it gets some entry twice. */
  lemma EachEntryOnceIff(fetches: seq<Fetch>)
    requires HistoriesGrow(fetches) && Finished(fetches, 0) && NoDuplicates(fetches[0].history)
    ensures Collected(fetches, 0) == Reverse(fetches[0].history) <==> Still(fetches, 0)
    ensures NoDuplicates(Collected(fetches, 0)) <==> Still(fetches, 0)
  {
    if Still(fetches, 0) {
      StillDeliversOnce(fetches, 0);
      assert Reverse(fetches[0].history)[0..] == Reverse(fetches[0].history);
    } else {
      GrowthRepeats(fetches, 0);
    }
    assert NoDuplicates(Reverse(fetches[0].history));
  }

  /** The fetches of a branch's pages in successive states of the store. */
  function FetchesOf(states: seq<Repos>, r: string, name: string, limits: nat -> nat): (fetches: seq<Fetch>)
    requires forall k :: 0 <= k < |states| ==> r in states[k] && name in states[k][r].branches
    ensures |fetches| == |states|
  {
    seq(|states|, k requires 0 <= k < |states| => Fetch(states[k][r].branches[name].history, limits(k)))
  }

  /** Each state is led to from the one before. */
  ghost predicate Successive(states: seq<Repos>) {
    forall k {:trigger states[k]} :: 0 < k < |states| ==> Leads(states[k - 1], states[k])
  }

  lemma {:induction false} StatesGrow(states: seq<Repos>, i: nat, j: nat)
    requires Successive(states) && i <= j < |states| && StoreOk(states[0])
    ensures StoreOk(states[i]) && StoreOk(states[j]) && Grows(states[i], states[j])
    decreases j
  {
    if j == 0 {
      GrowsReflexive(states[0]);
    } else if i == j {
      StatesGrow(states, i - 1, j - 1);
      RunsOnlyGrow(states[j - 1], states[j]);
      GrowsReflexive(states[j]);
    } else {
      StatesGrow(states, i, j - 1);
      RunsOnlyGrow(states[j - 1], states[j]);
      GrowsTransitive(states[i], states[j - 1], states[j]);
    }
  }

  lemma BranchStays(states: seq<Repos>, r: string, name: string, i: nat, j: nat)
    requires Successive(states) && i <= j < |states| && StoreOk(states[0])
    requires r in states[i] && name in states[i][r].branches
    ensures r in states[j] && name in states[j][r].branches
    ensures states[i][r].branches[name].history <= states[j][r].branches[name].history
  {
    StatesGrow(states, i, j);
    assert RepoGrowsIn(states[i], states[j], r) && BranchGrows(states[i][r], states[j][r], name);
  }

  /** Paging through a branch of the store while any operations come between the fetches: every entry that was
      there at the first fetch is delivered, and each exactly once, newest first, exactly when the branch has
      not moved before the last fetch made. */
  lemma BranchPages(states: seq<Repos>, r: string, name: string, limits: nat -> nat)
    requires states != [] && Successive(states) && StoreOk(states[0])
    requires r in states[0] && name in states[0][r].branches
    ensures forall k :: 0 <= k < |states| ==> r in states[k] && name in states[k][r].branches
    ensures var h, fetches := states[0][r].branches[name].history, FetchesOf(states, r, name, limits);
            Finished(fetches, 0) ==>
              && (forall id :: id in h ==> id in Collected(fetches, 0))
              && (Collected(fetches, 0) == Reverse(h) <==> Still(fetches, 0))
              && (NoDuplicates(Collected(fetches, 0)) <==> Still(fetches, 0))
  {
    forall k | 0 <= k < |states|
      ensures r in states[k] && name in states[k][r].branches
    {
      BranchStays(states, r, name, 0, k);
    }
    var fetches := FetchesOf(states, r, name, limits);
    forall i, j | 0 <= i < j < |fetches|
      ensures fetches[i].history <= fetches[j].history
    {
      BranchStays(states, r, name, i, j);
    }
    HistoryIsLineage(states[0], r, name);
    if Finished(fetches, 0) {
      EachEntryOnceIff(fetches);
      forall id | id in fetches[0].history
        ensures id in Collected(fetches, 0)
      {
        var k :| 0 <= k < |fetches[0].history| && fetches[0].history[k] == id;
        PagesUnderCommits(fetches, k);
      }
    }
  }

  /** An entry may be seen twice when a commit lands between two fetches. */
  lemma PagesMayRepeat()
    ensures var fetches := [Fetch(["a", "b"], 1), Fetch(["a", "b", "c"], 5)];
            HistoriesGrow(fetches) && Finished(fetches, 0) && Collected(fetches, 0) == ["b", "b", "a"]
  {
    var h1, h2 := ["a", "b"], ["a", "b", "c"];
    assert Reverse(h1) == ["b", "a"] && Reverse(h2) == ["c", "b", "a"];
    var fetches := [Fetch(h1, 1), Fetch(h2, 5)];
    assert PageIds(h1, 1, 0) == ["b"] && PageIds(h2, 5, 1) == ["b", "a"];
    assert fetches[1..] == [fetches[1]];
    assert Collected([fetches[1]], 1) == ["b", "a"];
  }

  // ---- rollback plans

  predicate Differs(current: Snapshot, target: Snapshot, id: string) {
    HashAt(current, id) != HashAt(target, id)
  }

  /** The delta a plan holds for one asset whose hash differs. */
  function PlanDelta(current: Snapshot, target: Snapshot, id: string): AssetDelta {
    AssetDelta(
      Some(id),
      if id in target then target[id].path else if id in current then current[id].path else id,
      HashAt(current, id),
      HashAt(target, id))
  }

  /** A plan lists each asset whose hash differs once, in ascending order, and nothing else. */
  ghost predicate IsPlan(current: Snapshot, target: Snapshot, assets: seq<AssetDelta>) {
    && (forall i, j :: 0 <= i < j < |assets| ==>
          TextLeq(Key(assets[i]), Key(assets[j])) && Key(assets[i]) != Key(assets[j]))
    && (forall k :: 0 <= k < |assets| ==>
          Differs(current, target, Key(assets[k])) && assets[k] == PlanDelta(current, target, Key(assets[k])))
    && (forall id :: Differs(current, target, id) ==> exists k :: 0 <= k < |assets| && Key(assets[k]) == id)
  }

  function PlanError(repos: Repos, r: string, branch: string, target: Id): Option<Error> {
    if r !in repos then Some(RepoNotFound)
    else if branch !in repos[r].branches then Some(BranchNotFound(branch))
    else
      var b := repos[r].branches[branch];
      if b.record.head.None? || b.record.head.value == target || target !in b.history
      then Some(InvalidRollbackTarget(branch, target))
      else if target !in repos[r].snapshots then Some(ChangesetNotFound(target))
      else None
  }

  /** Applying a plan gives each listed asset the target's hash, and leaves the others alone. */
  lemma {:induction false} ApplyPlanPart(current: Snapshot, target: Snapshot, assets: seq<AssetDelta>, id: string)
    requires forall i, j :: 0 <= i < j < |assets| ==> Key(assets[i]) != Key(assets[j])
    requires forall k :: 0 <= k < |assets| ==> assets[k] == PlanDelta(current, target, Key(assets[k]))
    requires WellKeyed(target)
    ensures var after, listed := ApplyDeltas(current, assets), exists k :: 0 <= k < |assets| && Key(assets[k]) == id;
            && (listed ==> (id in after <==> id in target) && (id in after ==> after[id] == target[id]))
            && (!listed ==> (id in after <==> id in current) && (id in after ==> after[id] == current[id]))
  {
    if assets != [] {
      var front := assets[..|assets| - 1];
      ApplyPlanPart(current, target, front, id);
      if Key(Last(assets)) != id {
        assert (exists k :: 0 <= k < |assets| && Key(assets[k]) == id) ==>
            exists k :: 0 <= k < |front| && Key(front[k]) == id;
        assert (exists k :: 0 <= k < |front| && Key(front[k]) == id) ==>
            exists k :: 0 <= k < |assets| && Key(assets[k]) == id;
      }
    }
  }

  /** Assets whose content is the same keep their current path. */
  ghost predicate SamePaths(current: Snapshot, target: Snapshot) {
    forall id :: id in current && id in target && current[id].blobHash == target[id].blobHash ==>
                   current[id].path == target[id].path
  }

  /** Every asset of the target whose hash differs from the current one has exactly the target's entry. */
  ghost predicate RestoresChanged(current: Snapshot, target: Snapshot, after: Snapshot) {
    forall id :: id in target && Differs(current, target, id) ==> id in after && after[id] == target[id]
  }

  /** A plan restores the target's asset ids and hashes, and the path of every asset whose hash
      changed. It restores the whole snapshot exactly when no asset merely moved. */
  lemma PlanRestores(current: Snapshot, target: Snapshot, assets: seq<AssetDelta>)
    requires WellKeyed(current) && WellKeyed(target) && IsPlan(current, target, assets)
    ensures Hashes(ApplyDeltas(current, assets)) == Hashes(target)
    ensures RestoresChanged(current, target, ApplyDeltas(current, assets))
    ensures ApplyDeltas(current, assets) == target <==> SamePaths(current, target)
  {
    var after := ApplyDeltas(current, assets);
    forall id
      ensures id in after <==> id in target
      ensures id in target && Differs(current, target, id) ==> after[id] == target[id]
      ensures id in target && !Differs(current, target, id) ==> id in current && after[id] == current[id]
    {
      ApplyPlanPart(current, target, assets, id);
      assert Differs(current, target, id) <==> exists k :: 0 <= k < |assets| && Key(assets[k]) == id;
    }
    if SamePaths(current, target) {
      forall id | id in target
        ensures after[id] == target[id]
      {
      }
    }
    if after == target {
      forall id | id in current && id in target && current[id].blobHash == target[id].blobHash
        ensures current[id].path == target[id].path
      {
        assert !Differs(current, target, id);
      }
    }
  }

  /** The input the rollback handler submits for a plan. */
  function RollbackInput(r: string, branch: string, head: Id, target: Id, author: string, message: string,
                         assets: seq<AssetDelta>): SubmitInput {
    SubmitInput(r, branch, Some(head), Rollback, Some(target), author, message, ShowNow, assets)
  }

  /** An accepted submit on a known head leaves older snapshots alone and adds one. */
  lemma AcceptedSubmit(repos: Repos, input: SubmitInput, newId: Id, x: Id)
    requires StoreOk(repos) && input.repoId in repos && x in repos[input.repoId].changesets
    requires Legal(repos, Submit(input, newId)) && Outcome(repos, Submit(input, newId)).None?
    requires input.base.Some? && input.base != Some(ROOT) && input.visibility == ShowNow
    ensures var repo, repo' := repos[input.repoId], Step(repos, Submit(input, newId))[input.repoId];
            && input.branch in repo'.branches && repo'.branches[input.branch].record.head == Some(newId)
            && SnapshotOf(repo', newId) == ApplyDeltas(SnapshotOf(repo, input.base.value), input.assets)
            && x in repo'.changesets && SnapshotOf(repo', x) == SnapshotOf(repo, x)
  {
    OpenRepoOk(repos, input.repoId, input.author);
  }

  /** What a plan was made from is still there later. */
  lemma PlanGroundsPersist(s1: Repos, s2: Repos, r: string, branch: string, target: Id)
    requires StoreOk(s1) && Leads(s1, s2) && PlanError(s1, r, branch, target).None?
    ensures StoreOk(s2) && r in s2 && target in s2[r].changesets
    ensures var head := s1[r].branches[branch].record.head.value;
            && head != ROOT && head in s2[r].changesets
            && SnapshotOf(s2[r], head) == SnapshotOf(s1[r], head) && WellKeyed(SnapshotOf(s1[r], head))
            && SnapshotOf(s2[r], target) == SnapshotOf(s1[r], target) && WellKeyed(SnapshotOf(s1[r], target))
  {
    var head := s1[r].branches[branch].record.head.value;
    RunsOnlyGrow(s1, s2);
    assert RepoOk(r, s1[r]) && RepoGrowsIn(s1, s2, r);
    HeadIsKnown(r, s1[r], branch);
    assert RecordGrows(s1[r], s2[r], head) && RecordGrows(s1[r], s2[r], target);
    SnapshotsAreWellKeyed(r, s1[r], Some(head));
    SnapshotsAreWellKeyed(r, s1[r], Some(target));
  }

  /** The plan is made in one state and submitted in a later one, with any other operations in
      between. If the submit is accepted, the new head has exactly the target's ids and hashes, exactly
      the target's entry for every asset whose hash differed, and the whole target snapshot exactly when
      no asset merely moved. */
  lemma RollbackRestoresTarget(s1: Repos, s2: Repos, r: string, branch: string, target: Id, assets: seq<AssetDelta>,
                               author: string, message: string, newId: Id)
    requires StoreOk(s1) && Leads(s1, s2)
    requires PlanError(s1, r, branch, target).None?
    requires IsPlan(SnapshotAt(s1[r], s1[r].branches[branch].record.head), SnapshotOf(s1[r], target), assets)
    requires var head := s1[r].branches[branch].record.head.value;
             var op := Submit(RollbackInput(r, branch, head, target, author, message, assets), newId);
             Legal(s2, op) && Outcome(s2, op).None?
    ensures var head := s1[r].branches[branch].record.head.value;
            var s3 := Step(s2, Submit(RollbackInput(r, branch, head, target, author, message, assets), newId));
            && r in s3 && branch in s3[r].branches && s3[r].branches[branch].record.head == Some(newId)
            && target in s3[r].changesets
            && Hashes(SnapshotOf(s3[r], newId)) == Hashes(SnapshotOf(s3[r], target))
            && RestoresChanged(SnapshotOf(s3[r], head), SnapshotOf(s3[r], target), SnapshotOf(s3[r], newId))
            && (SnapshotOf(s3[r], newId) == SnapshotOf(s3[r], target)
                <==> SamePaths(SnapshotOf(s3[r], head), SnapshotOf(s3[r], target)))
  {
    var head := s1[r].branches[branch].record.head.value;
    var input := RollbackInput(r, branch, head, target, author, message, assets);
    PlanGroundsPersist(s1, s2, r, branch, target);
    AcceptedSubmit(s2, input, newId, target);
    AcceptedSubmit(s2, input, newId, head);
    PlanRestores(SnapshotOf(s1[r], head), SnapshotOf(s1[r], target), assets);
  }

  /** The repository after one or two visible commits on its first branch. */
  function Commit(id: Id, base: Id, assets: seq<AssetDelta>): Op {
    Submit(SubmitInput("r", "main", Some(base), Normal, None, "ann", "", ShowNow, assets), id)
  }

  function PutAt(path: string): seq<AssetDelta> {
    [AssetDelta(Some("a"), path, None, Some("h"))]
  }

  lemma FirstCommit(id: Id, assets: seq<AssetDelta>)
    requires id != ROOT
    ensures var s := Step(map[], Commit(id, ROOT, assets));
            && "r" in s && "main" in s["r"].branches && s["r"].branches["main"].record.head == Some(id)
            && s["r"].branches["main"].history == [id] && s["r"].changesets.Keys == {id} && s.Keys == {"r"}
            && s["r"].snapshots == map[id := ApplyDeltas(map[], assets)]
  {
  }

  lemma NextCommit(s: Repos, id: Id, base: Id, assets: seq<AssetDelta>)
    requires StoreOk(s) && s.Keys == {"r"} && "main" in s["r"].branches
    requires s["r"].branches["main"].record.head == Some(base) && FreshId(s, id)
    ensures Outcome(s, Commit(id, base, assets)).None?
    ensures var s' := Step(s, Commit(id, base, assets));
            && s'.Keys == {"r"} && "main" in s'["r"].branches && s'["r"].branches["main"].record.head == Some(id)
            && s'["r"].branches["main"].history == s["r"].branches["main"].history + [id]
            && s'["r"].changesets.Keys == s["r"].changesets.Keys + {id}
            && s'["r"].snapshots == s["r"].snapshots[id := ApplyDeltas(SnapshotOf(s["r"], base), assets)]
  {
    OpenRepoOk(s, "r", "ann");
  }

  /** The store after a commit of one asset and a commit that only moves it. */
  ghost function Moved(): Repos {
    Step(Step(map[], Commit("x", ROOT, PutAt("old"))), Commit("y", "x", PutAt("new")))
  }

  lemma MovedFacts()
    ensures LegalRun(map[], [Commit("x", ROOT, PutAt("old")), Commit("y", "x", PutAt("new"))])
    ensures Exec(map[], [Commit("x", ROOT, PutAt("old")), Commit("y", "x", PutAt("new"))]) == Moved()
    ensures StoreOk(Moved()) && Moved().Keys == {"r"} && "main" in Moved()["r"].branches
    ensures Moved()["r"].branches["main"].record.head == Some("y")
    ensures Moved()["r"].branches["main"].history == ["x", "y"] && Moved()["r"].changesets.Keys == {"x", "y"}
    ensures Moved()["r"].snapshots ==
            map["x" := map["a" := SnapshotAsset("a", "old", "h")], "y" := map["a" := SnapshotAsset("a", "new", "h")]]
  {
    var one, two := Commit("x", ROOT, PutAt("old")), Commit("y", "x", PutAt("new"));
    FirstCommit("x", PutAt("old"));
    StepKeepsOk(map[], one);
    NextCommit(Step(map[], one), "y", "x", PutAt("new"));
    StepKeepsOk(Step(map[], one), two);
    RunOfTwo(map[], one, two);
    MovedSnapshots();
  }

  function UndoMove(): Op {
    Submit(RollbackInput("r", "main", "y", "x", "ann", "", []), "z")
  }

  /** A run of two commits, the second of which only moves an asset, and its rollback: the plan is empty, it
      is accepted, and the asset stays where it was moved to. */
  lemma RollbackMayLeaveAMove() returns (ops: seq<Op>)
    ensures LegalRun(map[], ops)
    ensures var s := Exec(map[], ops);
            && PlanError(s, "r", "main", "x").None?
            && s["r"].branches["main"].record.head == Some("y")
            && IsPlan(SnapshotOf(s["r"], "y"), SnapshotOf(s["r"], "x"), [])
            && Legal(s, UndoMove()) && Outcome(s, UndoMove()).None?
            && "r" in Step(s, UndoMove())
            && SnapshotOf(Step(s, UndoMove())["r"], "z") != SnapshotOf(Step(s, UndoMove())["r"], "x")
  {
    ops := [Commit("x", ROOT, PutAt("old")), Commit("y", "x", PutAt("new"))];
    MovedFacts();
    var s := Moved();
    OpenRepoOk(s, "r", "ann");
    AcceptedSubmit(s, RollbackInput("r", "main", "y", "x", "ann", "", []), "z", "x");
    assert SnapshotOf(s["r"], "x")["a"].path != SnapshotOf(s["r"], "y")["a"].path;
  }

  lemma MovedSnapshots()
    ensures ApplyDeltas(map[], PutAt("old")) == map["a" := SnapshotAsset("a", "old", "h")]
    ensures ApplyDeltas(map["a" := SnapshotAsset("a", "old", "h")], PutAt("new")) ==
            map["a" := SnapshotAsset("a", "new", "h")]
  {
    assert PutAt("old")[..0] == [] && PutAt("new")[..0] == [];
    assert ApplyDeltas(map[], []) == map[];
    assert ApplyDeltas(map["a" := SnapshotAsset("a", "old", "h")], []) == map["a" := SnapshotAsset("a", "old", "h")];
  }

  /** A run after which a rollback to an empty snapshot is planned before a restart and refused after it. */
  lemma EmptySnapshotIsForgotten() returns (ops: seq<Op>)
    ensures LegalRun(map[], ops)
    ensures var s := Exec(map[], ops);
            && PlanError(s, "r", "main", "x").None?
            && PlanError(Step(s, Restart), "r", "main", "x") == Some(ChangesetNotFound("x"))
  {
    var one, two := Commit("x", ROOT, []), Commit("y", "x", PutAt("new"));
    ops := [one, two];
    FirstCommit("x", []);
    StepKeepsOk(map[], one);
    NextCommit(Step(map[], one), "y", "x", PutAt("new"));
    RunOfTwo(map[], one, two);
  }

  ghost predicate AllKeyedByPath(ds: seq<AssetDelta>) {
    forall k :: 0 <= k < |ds| ==> Key(ds[k]) == ds[k].path
  }

  /** Every delta the repository has recorded is filed under its path. */
  ghost predicate KeyedByPath(repo: Repo) {
    forall id :: id in repo.changesets ==> AllKeyedByPath(repo.changesets[id].assets)
  }

  ghost predicate PathsAreIds(s: Snapshot) {
    forall id :: id in s ==> s[id].path == id
  }

  lemma {:induction false} PathKeysGivePathIds(s: Snapshot, ds: seq<AssetDelta>)
    requires PathsAreIds(s) && AllKeyedByPath(ds)
    ensures PathsAreIds(ApplyDeltas(s, ds))
  {
    if ds != [] {
      PathKeysGivePathIds(s, ds[..|ds| - 1]);
    }
  }

  lemma {:induction false} DeltasKeyedByPath(repo: Repo, w: seq<Id>)
    requires KeyedByPath(repo) && forall k :: 0 <= k < |w| ==> w[k] in repo.changesets
    ensures AllKeyedByPath(AllDeltas(repo.changesets, w))
  {
    if w != [] {
      DeltasKeyedByPath(repo, w[..|w| - 1]);
      assert w[|w| - 1] in repo.changesets && AllKeyedByPath(repo.changesets[Last(w)].assets);
    }
  }

  /** Where all deltas are filed under their paths, every snapshot's asset ids are its paths. */
  lemma PathIdsEverywhere(repos: Repos, r: string, id: Id)
    requires StoreOk(repos) && r in repos && id in repos[r].changesets && KeyedByPath(repos[r])
    ensures PathsAreIds(SnapshotOf(repos[r], id))
  {
    SnapshotIsReplay(repos, r, id);
    var w := LineageOf(repos[r].changesets, id).value;
    DeltasKeyedByPath(repos[r], w);
    PathKeysGivePathIds(map[], AllDeltas(repos[r].changesets, w));
  }

  /** So in a repository whose clients file every asset under its path, an accepted rollback restores the
      whole target snapshot, whatever came between plan and submit. */
  lemma PathKeyedRollbackIsExact(s1: Repos, s2: Repos, r: string, branch: string, target: Id, assets: seq<AssetDelta>,
                                 author: string, message: string, newId: Id)
    requires StoreOk(s1) && Leads(s1, s2)
    requires PlanError(s1, r, branch, target).None?
    requires IsPlan(SnapshotAt(s1[r], s1[r].branches[branch].record.head), SnapshotOf(s1[r], target), assets)
    requires r in s2 && KeyedByPath(s2[r])
    requires var head := s1[r].branches[branch].record.head.value;
             var op := Submit(RollbackInput(r, branch, head, target, author, message, assets), newId);
             Legal(s2, op) && Outcome(s2, op).None?
    ensures var head := s1[r].branches[branch].record.head.value;
            var s3 := Step(s2, Submit(RollbackInput(r, branch, head, target, author, message, assets), newId));
            r in s3 && SnapshotOf(s3[r], newId) == SnapshotOf(s3[r], target)
  {
    var head := s1[r].branches[branch].record.head.value;
    var input := RollbackInput(r, branch, head, target, author, message, assets);
    PlanGroundsPersist(s1, s2, r, branch, target);
    PathIdsEverywhere(s2, r, head);
    PathIdsEverywhere(s2, r, target);
    AcceptedSubmit(s2, input, newId, target);
    AcceptedSubmit(s2, input, newId, head);
    PlanRestores(SnapshotOf(s1[r], head), SnapshotOf(s1[r], target), assets);
  }

  // ---- synchronised snapshots

  predicate EntryLeq(a: SnapshotAsset, b: SnapshotAsset) {
    if a.path != b.path then TextLeq(a.path, b.path) else TextLeq(a.assetId, b.assetId)
  }

  lemma EntryOrderIsTotal()
    ensures TotalOrder(EntryLeq)
  {
    TextOrderIsTotal();
    forall a, b
      ensures EntryLeq(a, b) || EntryLeq(b, a)
    {
      TextTotal(a.path, b.path);
      TextTotal(a.assetId, b.assetId);
    }
    forall a, b, c | EntryLeq(a, b) && EntryLeq(b, c)
      ensures EntryLeq(a, c)
    {
      TextTotal(a.path, b.path);
      TextTotal(b.path, c.path);
      TextTotal(a.path, c.path);
      assert TextLeq(a.path, b.path) && TextLeq(b.path, c.path) ==> TextLeq(a.path, c.path);
    }
  }

  datatype Sync = Sync(at: Option<Id>, assets: seq<SnapshotAsset>)

  /** The changeset a client is brought to: the named one if the branch history lists it, else the head. */
  function SyncPoint(repos: Repos, r: string, branch: string, to: Option<Id>): Result<Option<Id>, Error> {
    if r !in repos then Err(RepoNotFound)
    else if branch !in repos[r].branches then Err(BranchNotFound(branch))
    else if to.Some? && to.value !in repos[r].branches[branch].history then Err(ChangesetNotFound(to.value))
    else Ok(if to.Some? then to else repos[r].branches[branch].record.head)
  }

  /** The answer lists the snapshot's entries once each, by path and then by asset id. */
  ghost predicate IsListing(s: Snapshot, entries: seq<SnapshotAsset>) {
    && SortedBy(EntryLeq, entries)
    && NoDuplicates(entries)
    && forall e :: e in entries <==> e.assetId in s && s[e.assetId] == e
  }

  // ---- what a restart changes for a client

  /** After a restart every answer is the same, except that a rollback to an empty snapshot is
      refused: an empty snapshot has no rows. */
  lemma RestartObserved(repos: Repos, r: string, branch: string, id: Id, to: Option<Id>)
    requires StoreOk(repos)
    ensures var after := Step(repos, Restart);
            && GateOf(after, r, id) == GateOf(repos, r, id)
            && SyncPoint(after, r, branch, to) == SyncPoint(repos, r, branch, to)
            && (r in repos ==>
                  && r in after && after[r].branches == repos[r].branches && after[r].changesets == repos[r].changesets
                  && after[r].defaultBranch == repos[r].defaultBranch
                  && (forall x :: SnapshotOf(after[r], x) == SnapshotOf(repos[r], x)))
            && (PlanError(after, r, branch, id) == PlanError(repos, r, branch, id)
                <==> !(PlanError(repos, r, branch, id).None? && SnapshotOf(repos[r], id) == map[]))
  {
    if r in repos {
      DropEmptyKeepsOk(r, repos[r]);
    }
  }
}
