/** Saves that land late and in any order. Every successful operation hands a clone of its repository to the
    database; the transactions may land in any order, or be lost; and a new manager may start at any time from
    whatever the tables then hold. */
module StoredStates {
  import opened Prelude
  import opened Lineage
  import opened Versioning
  import opened VersionInvariant
  import opened VersionRuns
  import opened RepoRows
  import opened RepoTables
  import opened VersionManagers

  /** The clone of a repository as it was in state number `at`. */
  datatype Save = Save(repoId: string, at: nat)

  /** `past` are all states of the successive managers, the last being the present one; `pending` are saves on
      their way; `landed` names the save of each repository that landed last, `newest` the one it made last, or
      started from; `tables` is what the database holds. */
  datatype System = System(
    past: seq<Repos>,
    pending: seq<Save>,
    landed: map<string, nat>,
    newest: map<string, nat>,
    tables: Tables)

  const FRESH := System([map[]], [], map[], map[], Tables(map[], [], [], [], []))

  /** What the present manager has in memory. */
  function Present(s: System): Repos {
    if s.past == [] then map[] else Last(s.past)
  }

  /** An operation takes effect in memory; if it succeeds its repository is cloned for saving. */
  ghost predicate Commits(s: System, s': System, op: Op)
    requires s.past != []
  {
    var now, next := Last(s.past), Step(Last(s.past), op);
    var saved := Outcome(now, op).None? && RepoOf(op).Some?;
    && op != Restart && Legal(now, op)
    && s'.past == s.past + [next] && s'.landed == s.landed && s'.tables == s.tables
    && s'.pending == (if saved then s.pending + [Save(RepoOf(op).value, |s.past|)] else s.pending)
    && s'.newest == (if saved then s.newest[RepoOf(op).value := |s.past|] else s.newest)
  }

  /** Any one of the pending saves runs its transaction. */
  ghost predicate Lands(s: System, s': System, k: nat, ok: bool) {
    && k < |s.pending|
    && var save := s.pending[k];
    && save.at < |s.past| && save.repoId in s.past[save.at]
    && Replaces(s.tables, s'.tables, save.repoId, s.past[save.at][save.repoId], ok)
    && s'.past == s.past && s'.newest == s.newest && s'.pending == s.pending[..k] + s.pending[k + 1..]
    && s'.landed == if ok then s.landed[save.repoId := save.at] else s.landed
  }

  /** A save that fails is logged and forgotten. */
  ghost predicate Loses(s: System, s': System, k: nat) {
    k < |s.pending| && s' == s.(pending := s.pending[..k] + s.pending[k + 1..])
  }

  /** The manager ends, and with it its pending saves; a new one starts from the tables. */
  ghost predicate Reboots(s: System, s': System) {
    s' == s.(past := s.past + [LoadedFrom(s.tables)], pending := [], newest := s.landed)
  }

  ghost predicate Moves(s: System, s': System) {
    && s.past != []
    && (|| (exists op :: Commits(s, s', op))
        || (exists k: nat, ok :: Lands(s, s', k, ok))
        || (exists k: nat :: Loses(s, s', k))
        || Reboots(s, s'))
  }

  ghost predicate MovesAt(states: seq<System>, k: nat)
    requires 0 < k < |states|
  {
    Moves(states[k - 1], states[k])
  }

  ghost predicate SystemRun(states: seq<System>) {
    && states != [] && states[0] == FRESH
    && forall k {:trigger MovesAt(states, k)} :: 0 < k < |states| ==> MovesAt(states, k)
  }

  // ---- how far a repository has come

  /** Same branches, same changesets, same statuses. Every successful operation changes this. */
  ghost predicate SameShape(a: Repo, b: Repo) {
    && a.branches.Keys == b.branches.Keys && a.changesets.Keys == b.changesets.Keys
    && forall id :: id in a.changesets ==> a.changesets[id].status == b.changesets[id].status
  }

  lemma SameLoadedSameShape(a: Repo, b: Repo)
    requires DropEmpty(a) == DropEmpty(b)
    ensures SameShape(a, b)
  {
    assert a.branches == DropEmpty(a).branches && a.changesets == DropEmpty(a).changesets;
    assert b.branches == DropEmpty(b).branches && b.changesets == DropEmpty(b).changesets;
  }

  lemma GrownBetween(a: Repo, b: Repo, c: Repo)
    requires RepoGrows(a, b) && RepoGrows(b, c) && SameShape(a, c)
    ensures SameShape(b, c)
  {
    forall name | name in b.branches
      ensures name in c.branches && name in a.branches
    {
      assert BranchGrows(b, c, name);
    }
    forall name | name in a.branches
      ensures name in b.branches
    {
      assert BranchGrows(a, b, name);
    }
    forall id | id in b.changesets
      ensures id in c.changesets && b.changesets[id].status == c.changesets[id].status
    {
      assert RecordGrows(b, c, id) && RecordGrows(a, b, id);
    }
    forall id | id in a.changesets
      ensures id in b.changesets
    {
      assert RecordGrows(a, b, id);
    }
  }

  lemma SuccessChangesShape(repos: Repos, op: Op, r: string)
    requires StoreOk(repos) && Legal(repos, op) && op != Restart && Outcome(repos, op).None?
    requires RepoOf(op) == Some(r)
    ensures r in Step(repos, op)
    ensures r in repos ==> !SameShape(repos[r], Step(repos, op)[r])
  {
    match op
    case CreateRepo(_, d, who) =>
    case CreateBranch(_, b, from, who) => OpenRepoOk(repos, r, who);
    case Submit(input, id) => OpenRepoOk(repos, r, input.author);
    case Approve(_, id, who) =>
    case Promote(_, id, who) =>
  }

  // ---- what holds in every state

  /** The clone is of a state the manager really was in; the present repository has grown from it, and is
      further on unless this is the newest clone. */
  ghost predicate SaveOk(s: System, save: Save)
    requires s.past != []
  {
    var now, r, i := Last(s.past), save.repoId, save.at;
    && r in s.newest && i <= s.newest[r] && i < |s.past| && r in s.past[i] && r in now
    && RepoGrows(s.past[i][r], now[r])
    && (i < s.newest[r] ==> !SameShape(s.past[i][r], now[r]))
  }

  /** The newest clone is of the present repository, up to empty snapshots. */
  ghost predicate NewestOk(s: System, r: string)
    requires s.past != [] && r in s.newest
  {
    var i := s.newest[r];
    && i < |s.past| && r in s.past[i] && r in Last(s.past)
    && DropEmpty(s.past[i][r]) == DropEmpty(Last(s.past)[r])
  }

  ghost predicate PastOk(s: System) {
    s.past != [] && forall i {:trigger s.past[i]} :: 0 <= i < |s.past| ==> StoreOk(s.past[i])
  }

  ghost predicate SavesOk(s: System)
    requires s.past != []
  {
    && (forall k {:trigger s.pending[k]} :: 0 <= k < |s.pending| ==> SaveOk(s, s.pending[k]))
    && (forall r {:trigger s.landed[r]} :: r in s.landed ==> SaveOk(s, Save(r, s.landed[r])))
    && (forall r {:trigger NewestOk(s, r)} :: r in s.newest ==> NewestOk(s, r))
  }

  /** The tables hold, of each repository that was ever saved, the clone that landed last, and no row else. */
  ghost predicate StoredOk(s: System) {
    && TablesOk(s.tables) && s.tables.repos.Keys == s.landed.Keys
    && (forall r {:trigger s.landed[r]} :: r in s.landed ==>
          s.landed[r] < |s.past| && r in s.past[s.landed[r]] && Holds(s.tables, r, s.past[s.landed[r]][r]))
    && (forall row :: row in s.tables.changesets ==> row.repoId in s.landed)
  }

  ghost predicate SystemOk(s: System) {
    PastOk(s) && SavesOk(s) && StoredOk(s)
  }

  // ---- commits

  lemma CommitGrows(s: System, s': System, op: Op)
    requires PastOk(s) && Commits(s, s', op)
    ensures PastOk(s') && Grows(Last(s.past), Last(s'.past))
    ensures forall i :: 0 <= i < |s.past| ==> s'.past[i] == s.past[i]
  {
    assert StoreOk(s.past[|s.past| - 1]);
    StepKeepsOk(Last(s.past), op);
    StepGrows(Last(s.past), op);
  }

  /** An operation leaves every repository but its own alone. */
  lemma OthersUntouched(repos: Repos, op: Op, q: string)
    requires StoreOk(repos) && op != Restart && RepoOf(op) != Some(q)
    ensures q in Step(repos, op) <==> q in repos
    ensures q in repos ==> Step(repos, op)[q] == repos[q]
  {
  }

  /** A failed operation leaves a known repository alone. */
  lemma FailureUntouched(repos: Repos, op: Op, q: string)
    requires StoreOk(repos) && op != Restart && Outcome(repos, op).Some? && q in repos
    ensures q in Step(repos, op) && Step(repos, op)[q] == repos[q]
  {
    FailureChangesNothing(repos, op);
  }

  lemma CommitKeepsSave(s: System, s': System, op: Op, save: Save)
    requires PastOk(s) && SavesOk(s) && Commits(s, s', op) && SaveOk(s, save)
    ensures SaveOk(s', save)
  {
    var now, next, r := Last(s.past), Last(s'.past), save.repoId;
    CommitGrows(s, s', op);
    assert StoreOk(s.past[|s.past| - 1]);
    assert RepoGrowsIn(now, next, r) && NewestOk(s, r);
    RepoGrowsTransitive(s.past[save.at][r], now[r], next[r]);
    if RepoOf(op) != Some(r) {
      OthersUntouched(now, op, r);
    } else if Outcome(now, op).Some? {
      FailureUntouched(now, op, r);
    } else {
      SuccessChangesShape(now, op, r);
      if SameShape(s.past[save.at][r], next[r]) {
        GrownBetween(s.past[save.at][r], now[r], next[r]);
      }
    }
  }

  lemma CommitKeepsNewest(s: System, s': System, op: Op, r: string)
    requires PastOk(s) && SavesOk(s) && Commits(s, s', op) && r in s'.newest
    ensures NewestOk(s', r)
  {
    var now := Last(s.past);
    CommitGrows(s, s', op);
    assert StoreOk(s.past[|s.past| - 1]);
    if RepoOf(op) == Some(r) && Outcome(now, op).None? {
      SuccessChangesShape(now, op, r);
    } else {
      assert NewestOk(s, r);
      if RepoOf(op) != Some(r) {
        OthersUntouched(now, op, r);
      } else {
        FailureUntouched(now, op, r);
      }
    }
  }

  lemma CommitKeepsOk(s: System, s': System, op: Op)
    requires SystemOk(s) && Commits(s, s', op)
    ensures SystemOk(s')
  {
    CommitGrows(s, s', op);
    forall k | 0 <= k < |s'.pending|
      ensures SaveOk(s', s'.pending[k])
    {
      if k < |s.pending| {
        assert s'.pending[k] == s.pending[k];
        CommitKeepsSave(s, s', op, s.pending[k]);
      } else {
        CommitKeepsNewest(s, s', op, s'.pending[k].repoId);
        RepoGrowsReflexive(Last(s'.past)[s'.pending[k].repoId]);
      }
    }
    forall r | r in s'.landed
      ensures SaveOk(s', Save(r, s'.landed[r]))
    {
      CommitKeepsSave(s, s', op, Save(r, s.landed[r]));
    }
    forall r | r in s'.newest
      ensures NewestOk(s', r)
    {
      CommitKeepsNewest(s, s', op, r);
    }
    forall r | r in s'.landed
      ensures s'.past[s'.landed[r]] == s.past[s.landed[r]]
    {
      assert s.landed[r] < |s.past|;
    }
  }

  // ---- landings

  /** What a clone holds the present manager still has. */
  lemma ClonedIsPresent(s: System, save: Save, id: Id)
    requires PastOk(s) && SaveOk(s, save) && id in s.past[save.at][save.repoId].changesets
    ensures id in Present(s)[save.repoId].changesets
  {
    assert RecordGrows(s.past[save.at][save.repoId], Present(s)[save.repoId], id);
  }

  lemma StoredIdIsCloned(s: System, row: ChangesetRow)
    requires StoredOk(s) && row in s.tables.changesets
    ensures row.id in s.past[s.landed[row.repoId]][row.repoId].changesets
  {
    assert Holds(s.tables, row.repoId, s.past[s.landed[row.repoId]][row.repoId]);
  }

  /** No other repository's row uses an id of a pending clone, though the two were saved at different times. */
  lemma NoForeignRows(s: System, save: Save, row: ChangesetRow)
    requires SystemOk(s) && SaveOk(s, save) && row in s.tables.changesets && row.repoId != save.repoId
    ensures row.id !in s.past[save.at][save.repoId].changesets
  {
    var stored := Save(row.repoId, s.landed[row.repoId]);
    StoredIdIsCloned(s, row);
    assert SaveOk(s, stored);
    ClonedIsPresent(s, stored, row.id);
    PresentIdsApart(s, row.repoId, save.repoId, row.id);
    if row.id in s.past[save.at][save.repoId].changesets {
      ClonedIsPresent(s, save, row.id);
    }
  }

  lemma PresentIdsApart(s: System, q: string, r: string, id: Id)
    requires PastOk(s) && q != r && q in Present(s) && r in Present(s) && id in Present(s)[q].changesets
    ensures id !in Present(s)[r].changesets
  {
    assert StoreOk(s.past[|s.past| - 1]);
    assert Present(s)[q].changesets.Keys !! Present(s)[r].changesets.Keys;
  }

  lemma LandingSucceeds(s: System, s': System, k: nat, ok: bool)
    requires SystemOk(s) && Lands(s, s', k, ok)
    ensures ok
  {
    var save := s.pending[k];
    assert SaveOk(s, save);
    forall row | row in s.tables.changesets && row.repoId != save.repoId
      ensures row.id !in s.past[save.at][save.repoId].changesets
    {
      NoForeignRows(s, save, row);
    }
  }

  /** Saves depend on the past, the present and the newest saves only. */
  lemma SaveStaysOk(s: System, s': System, save: Save)
    requires s.past != [] && SaveOk(s, save) && s'.past == s.past && s'.newest == s.newest
    ensures SaveOk(s', save)
  {
  }

  lemma RemovalKeepsSaves(s: System, s': System, k: nat)
    requires PastOk(s) && SavesOk(s) && k < |s.pending| && s'.past == s.past && s'.newest == s.newest
    requires s'.pending == s.pending[..k] + s.pending[k + 1..]
    requires forall r {:trigger s'.landed[r]} :: r in s'.landed ==>
               Save(r, s'.landed[r]) == s.pending[k] || (r in s.landed && s'.landed[r] == s.landed[r])
    ensures PastOk(s') && SavesOk(s')
  {
    assert SaveOk(s, s.pending[k]);
    forall j | 0 <= j < |s'.pending|
      ensures SaveOk(s', s'.pending[j])
    {
      assert s'.pending[j] == if j < k then s.pending[j] else s.pending[j + 1];
      SaveStaysOk(s, s', s'.pending[j]);
    }
    forall r | r in s'.landed
      ensures SaveOk(s', Save(r, s'.landed[r]))
    {
      SaveStaysOk(s, s', Save(r, s'.landed[r]));
    }
    forall r | r in s'.newest
      ensures NewestOk(s', r)
    {
      assert NewestOk(s, r);
    }
  }

  lemma OtherStillLanded(s: System, s': System, k: nat, q: string)
    requires TablesOk(s.tables) && Lands(s, s', k, true)
    requires q in s.landed && s.landed[q] < |s.past| && q in s.past[s.landed[q]] && q != s.pending[k].repoId
    requires StoreOk(s.past[s.landed[q]]) && Holds(s.tables, q, s.past[s.landed[q]][q])
    ensures Holds(s'.tables, q, s.past[s.landed[q]][q])
  {
    OthersStillHeld(s.tables, s'.tables, s.pending[k].repoId, q, s.past[s.landed[q]][q]);
  }

  lemma LandedAreHeld(s: System, s': System, k: nat)
    requires PastOk(s) && StoredOk(s) && Lands(s, s', k, true)
    ensures forall q | q in s'.landed :: s'.landed[q] < |s'.past| && q in s'.past[s'.landed[q]]
                                         && Holds(s'.tables, q, s'.past[s'.landed[q]][q])
  {
    forall q | q in s'.landed && q != s.pending[k].repoId
      ensures Holds(s'.tables, q, s.past[s.landed[q]][q])
    {
      assert StoreOk(s.past[s.landed[q]]);
      OtherStillLanded(s, s', k, q);
    }
  }

  /** The saved repository is now in the tables, and no other comes or goes. */
  lemma LandedReposAreStored(t: Tables, t': Tables, landed: map<string, nat>, r: string, at: nat)
    requires t.repos.Keys == landed.Keys && OthersKept(t, t', r) && r in t'.repos
    requires forall row :: row in t.changesets ==> row.repoId in landed
    ensures t'.repos.Keys == landed[r := at].Keys
    ensures forall row :: row in t'.changesets ==> row.repoId in landed[r := at]
  {
    forall q
      ensures q in t'.repos <==> q in landed[r := at]
    {
      assert q != r ==> (q in t.repos <==> q in t'.repos);
    }
    forall row | row in t'.changesets
      ensures row.repoId in landed[r := at]
    {
      assert row.repoId != r ==> row in t.changesets;
    }
  }

  lemma LandingKeepsStored(s: System, s': System, k: nat)
    requires SystemOk(s) && Lands(s, s', k, true)
    ensures StoredOk(s')
  {
    LandedAreHeld(s, s', k);
    LandedReposAreStored(s.tables, s'.tables, s.landed, s.pending[k].repoId, s.pending[k].at);
  }

  lemma LandKeepsOk(s: System, s': System, k: nat, ok: bool)
    requires SystemOk(s) && Lands(s, s', k, ok)
    ensures ok && SystemOk(s')
  {
    LandingSucceeds(s, s', k, ok);
    LandingKeepsStored(s, s', k);
    RemovalKeepsSaves(s, s', k);
  }

  // ---- a new manager

  /** Loading gives back, of each repository, the clone that landed last, without its empty snapshots. */
  lemma LoadedIsLanded(s: System, r: string)
    requires PastOk(s) && StoredOk(s) && r in s.landed
    ensures r in LoadedFrom(s.tables) && LoadedFrom(s.tables)[r] == DropEmpty(s.past[s.landed[r]][r])
  {
    assert StoreOk(s.past[s.landed[r]]);
    LoadAfterSave(s.tables, r, s.past[s.landed[r]][r], s.tables.repos[r]);
  }

  lemma LoadedIsOk(s: System)
    requires SystemOk(s)
    ensures StoreOk(LoadedFrom(s.tables))
  {
    var now, loaded := Last(s.past), LoadedFrom(s.tables);
    assert StoreOk(s.past[|s.past| - 1]);
    forall r | r in loaded
      ensures RepoOk(r, loaded[r]) && r in now
      ensures forall id :: id in loaded[r].changesets ==> id in now[r].changesets
    {
      var clone := s.past[s.landed[r]][r];
      assert SaveOk(s, Save(r, s.landed[r])) && StoreOk(s.past[s.landed[r]]);
      LoadedIsLanded(s, r);
      DropEmptyKeepsOk(r, clone);
      forall id | id in clone.changesets
        ensures id in now[r].changesets
      {
        assert RecordGrows(clone, now[r], id);
      }
    }
    ApartBelow(now, loaded);
  }

  lemma ApartBelow(now: Repos, repos: Repos)
    requires IdsApart(now)
    requires forall r :: r in repos ==> r in now && forall id :: id in repos[r].changesets ==> id in now[r].changesets
    ensures IdsApart(repos)
  {
  }

  lemma DroppingTwice(repo: Repo)
    ensures DropEmpty(DropEmpty(repo)) == DropEmpty(repo)
  {
    assert DropEmpty(DropEmpty(repo)).snapshots == DropEmpty(repo).snapshots;
  }

  lemma RebootedSave(s': System, r: string, i: nat)
    requires s'.past != [] && r in s'.newest && s'.newest[r] == i && i < |s'.past| && r in s'.past[i]
    requires StoreOk(s'.past[i]) && r in Present(s') && Present(s')[r] == DropEmpty(s'.past[i][r])
    ensures SaveOk(s', Save(r, i)) && NewestOk(s', r)
  {
    DropEmptyGrows(r, s'.past[i][r]);
    DroppingTwice(s'.past[i][r]);
  }

  lemma RebootKeepsSave(s: System, s': System, r: string)
    requires Reboots(s, s') && r in s.landed && s.landed[r] < |s.past|
    requires StoreOk(s.past[s.landed[r]]) && r in s.past[s.landed[r]]
    requires r in LoadedFrom(s.tables) && LoadedFrom(s.tables)[r] == DropEmpty(s.past[s.landed[r]][r])
    ensures SaveOk(s', Save(r, s.landed[r])) && NewestOk(s', r)
  {
    assert s'.past[s.landed[r]] == s.past[s.landed[r]];
    RebootedSave(s', r, s.landed[r]);
  }

  lemma LandedIsKnown(s: System, r: string)
    requires SystemOk(s) && r in s.landed
    ensures s.landed[r] < |s.past| && StoreOk(s.past[s.landed[r]]) && r in s.past[s.landed[r]]
  {
  }

  lemma RebootKeepsStored(s: System, s': System)
    requires StoredOk(s) && Reboots(s, s')
    ensures StoredOk(s')
  {
    forall r | r in s'.landed
      ensures s'.landed[r] < |s'.past| && s'.past[s'.landed[r]] == s.past[s.landed[r]]
    {
      assert s.landed[r] < |s.past|;
    }
  }

  lemma RebootKeepsPast(s: System, s': System)
    requires SystemOk(s) && Reboots(s, s')
    ensures PastOk(s')
  {
    LoadedIsOk(s);
    forall i | 0 <= i < |s'.past|
      ensures StoreOk(s'.past[i])
    {
      if i < |s.past| {
        assert s'.past[i] == s.past[i];
      }
    }
  }

  lemma RebootKeepsOk(s: System, s': System)
    requires SystemOk(s) && Reboots(s, s')
    ensures SystemOk(s')
  {
    RebootKeepsPast(s, s');
    RebootKeepsStored(s, s');
    forall r | r in s.landed
      ensures SaveOk(s', Save(r, s.landed[r])) && NewestOk(s', r)
    {
      LandedIsKnown(s, r);
      LoadedIsLanded(s, r);
      RebootKeepsSave(s, s', r);
    }
  }

  // ---- runs

  lemma MoveKeepsOk(s: System, s': System)
    requires SystemOk(s) && Moves(s, s')
    ensures SystemOk(s')
  {
    if op :| Commits(s, s', op) {
      CommitKeepsOk(s, s', op);
    } else if k: nat, ok :| Lands(s, s', k, ok) {
      LandKeepsOk(s, s', k, ok);
    } else if k: nat :| Loses(s, s', k) {
      RemovalKeepsSaves(s, s', k);
    } else {
      RebootKeepsOk(s, s');
    }
  }

  lemma {:induction false} RunsStayOk(states: seq<System>, k: nat)
    requires SystemRun(states) && k < |states|
    ensures SystemOk(states[k])
  {
    if k > 0 {
      RunsStayOk(states, k - 1);
      assert MovesAt(states, k);
      MoveKeepsOk(states[k - 1], states[k]);
    }
  }

  /** Through commits, late and lost saves and new managers, the views of every state agree, so that all
      that is proved of such states and of runs from them holds. */
  lemma EveryStateIsOk(states: seq<System>, i: nat)
    requires SystemRun(states) && i < |Last(states).past|
    ensures StoreOk(Last(states).past[i])
  {
    RunsStayOk(states, |states| - 1);
  }

  /** No save is ever rolled back. */
  lemma NoSaveIsRolledBack(states: seq<System>, s': System, k: nat, ok: bool)
    requires SystemRun(states) && Lands(Last(states), s', k, ok)
    ensures ok
  {
    RunsStayOk(states, |states| - 1);
    LandingSucceeds(Last(states), s', k, ok);
  }

  /** What a new manager would load is, of each repository that was ever saved, exactly what some manager
      really had when its last landed save was made, without the empty snapshots. */
  lemma StoredWasReal(states: seq<System>)
    requires SystemRun(states)
    ensures LoadedFrom(Last(states).tables).Keys == Last(states).landed.Keys
    ensures forall r :: r in Last(states).landed ==>
              && Last(states).landed[r] < |Last(states).past| && r in Last(states).past[Last(states).landed[r]]
              && LoadedFrom(Last(states).tables)[r] == DropEmpty(Last(states).past[Last(states).landed[r]][r])
  {
    RunsStayOk(states, |states| - 1);
    forall r | r in Last(states).landed
      ensures LoadedFrom(Last(states).tables)[r] == DropEmpty(Last(states).past[Last(states).landed[r]][r])
    {
      LoadedIsLanded(Last(states), r);
    }
  }

  /** A manager started from whatever is stored has all of its views in agreement, even when its
      repositories were saved at different times. */
  lemma RestartFromStoredIsOk(states: seq<System>)
    requires SystemRun(states)
    ensures StoreOk(LoadedFrom(Last(states).tables))
  {
    RunsStayOk(states, |states| - 1);
    LoadedIsOk(Last(states));
  }

  /** The tables stand like this at some moment of some run. */
  ghost predicate MayBeStored(t: Tables) {
    exists states :: SystemRun(states) && Last(states).tables == t
  }

  /** Starting a manager from the database, as the code does. */
  method Boot(pg: VersionRepoPg) returns (manager: VersionManager)
    requires MayBeStored(pg.tables)
    ensures fresh(manager) && manager.Valid() && manager.repos == LoadedFrom(pg.tables)
  {
    ghost var states :| SystemRun(states) && Last(states).tables == pg.tables;
    ghost var s := Last(states);
    RunsStayOk(states, |states| - 1);
    forall r | r in s.tables.repos
      ensures WalksEnd(BareRepo(s.tables, r, s.tables.repos[r]))
    {
      assert r in s.landed && StoreOk(s.past[s.landed[r]]);
      HeldWalksEnd(s.tables, r, s.past[s.landed[r]][r], s.tables.repos[r]);
    }
    var loaded := pg.LoadRepos();
    LoadedIsOk(s);
    manager := new VersionManager.WithPg(loaded);
  }

  // ---- when what is stored is the present state

  lemma CloneIsPresentIff(s: System, save: Save)
    requires s.past != [] && SaveOk(s, save) && NewestOk(s, save.repoId)
    ensures DropEmpty(s.past[save.at][save.repoId]) == DropEmpty(Last(s.past)[save.repoId])
            <==> save.at == s.newest[save.repoId]
  {
    var clone, now := s.past[save.at][save.repoId], Last(s.past)[save.repoId];
    if DropEmpty(clone) == DropEmpty(now) {
      SameLoadedSameShape(clone, now);
    }
  }

  /** A new manager would find a repository as it is now exactly when the newest save of the repository is
      the one that landed last. */
  lemma StoredIsPresentIff(states: seq<System>, r: string)
    requires SystemRun(states) && r in Last(states).landed
    ensures r in Last(states).newest && r in Present(Last(states)) && r in LoadedFrom(Last(states).tables)
    ensures LoadedFrom(Last(states).tables)[r] == DropEmpty(Present(Last(states))[r])
            <==> Last(states).landed[r] == Last(states).newest[r]
  {
    var s := Last(states);
    RunsStayOk(states, |states| - 1);
    LoadedIsLanded(s, r);
    assert SaveOk(s, Save(r, s.landed[r])) && NewestOk(s, r);
    CloneIsPresentIff(s, Save(r, s.landed[r]));
  }

  /** A move in which no save is lost and no older save lands on a newer one. */
  ghost predicate InOrder(s: System, s': System) {
    && s.past != []
    && (|| (exists op :: Commits(s, s', op))
        || (exists k: nat, ok :: Lands(s, s', k, ok) && LandsOnOlder(s, s.pending[k]))
        || Reboots(s, s'))
  }

  predicate LandsOnOlder(s: System, save: Save) {
    save.repoId in s.landed ==> s.landed[save.repoId] < save.at
  }

  ghost predicate InOrderAt(states: seq<System>, k: nat)
    requires 0 < k < |states|
  {
    InOrder(states[k - 1], states[k])
  }

  ghost predicate OrderedRun(states: seq<System>) {
    SystemRun(states) && forall k {:trigger InOrderAt(states, k)} :: 0 < k < |states| ==> InOrderAt(states, k)
  }

  /** The newest save of each repository is on its way or is the one that landed last. */
  ghost predicate KeepsUpWith(s: System, r: string)
    requires r in s.newest
  {
    Save(r, s.newest[r]) in s.pending || (r in s.landed && s.landed[r] == s.newest[r])
  }

  ghost predicate KeepsUp(s: System) {
    forall r {:trigger KeepsUpWith(s, r)} :: r in s.newest ==> KeepsUpWith(s, r)
  }

  lemma OtherSavesStay(pending: seq<Save>, k: nat, save: Save)
    requires k < |pending| && save in pending && save != pending[k]
    ensures save in pending[..k] + pending[k + 1..]
  {
    var j :| 0 <= j < |pending| && pending[j] == save;
    assert (pending[..k] + pending[k + 1..])[if j < k then j else j - 1] == save;
  }

  lemma LandedSaveKeepsUp(s: System, s': System, k: nat, r: string)
    requires k < |s.pending| && r in s.newest && KeepsUpWith(s, r)
    requires s'.newest == s.newest && s'.pending == s.pending[..k] + s.pending[k + 1..]
    requires s'.landed == s.landed[s.pending[k].repoId := s.pending[k].at]
    requires LandsOnOlder(s, s.pending[k])
    requires s.pending[k].repoId in s.newest && s.pending[k].at <= s.newest[s.pending[k].repoId]
    ensures KeepsUpWith(s', r)
  {
    var save := Save(r, s.newest[r]);
    if save in s.pending && save != s.pending[k] {
      OtherSavesStay(s.pending, k, save);
    }
  }

  lemma LandingKeepsUp(s: System, s': System, k: nat)
    requires s.past != [] && KeepsUp(s) && Lands(s, s', k, true) && LandsOnOlder(s, s.pending[k])
    requires SaveOk(s, s.pending[k])
    ensures KeepsUp(s')
  {
    forall r | r in s'.newest
      ensures KeepsUpWith(s', r)
    {
      assert KeepsUpWith(s, r);
      LandedSaveKeepsUp(s, s', k, r);
    }
  }

  lemma CommitKeepsUp(s: System, s': System, op: Op)
    requires s.past != [] && KeepsUp(s) && Commits(s, s', op)
    ensures KeepsUp(s')
  {
    forall r | r in s'.newest
      ensures KeepsUpWith(s', r)
    {
      if s'.newest == s.newest || r != RepoOf(op).value {
        assert KeepsUpWith(s, r);
        assert Save(r, s.newest[r]) in s.pending ==> Save(r, s.newest[r]) in s'.pending;
      } else {
        assert s'.pending[|s.pending|] == Save(r, s'.newest[r]);
      }
    }
  }

  lemma OrderedMoveKeepsUp(s: System, s': System)
    requires SystemOk(s) && KeepsUp(s) && InOrder(s, s')
    ensures KeepsUp(s')
  {
    if op :| Commits(s, s', op) {
      CommitKeepsUp(s, s', op);
    } else if k: nat, ok :| Lands(s, s', k, ok) && LandsOnOlder(s, s.pending[k]) {
      LandingSucceeds(s, s', k, ok);
      assert SaveOk(s, s.pending[k]);
      LandingKeepsUp(s, s', k);
    }
  }

  lemma OrderedTurnKeepsUp(states: seq<System>, k: nat)
    requires OrderedRun(states) && 0 < k < |states| && KeepsUp(states[k - 1])
    ensures KeepsUp(states[k])
  {
    RunsStayOk(states, k - 1);
    assert InOrderAt(states, k);
    OrderedMoveKeepsUp(states[k - 1], states[k]);
  }

  lemma {:induction false} OrderedRunsKeepUp(states: seq<System>, k: nat)
    requires OrderedRun(states) && k < |states|
    ensures KeepsUp(states[k])
  {
    if k > 0 {
      OrderedRunsKeepUp(states, k - 1);
      OrderedTurnKeepsUp(states, k);
    }
  }

  /** If no save is lost and each repository's saves land in the order they were made, then at every moment
      the newest save of a repository is on its way or is what the tables hold; once none is on its way, every
      saved repository would be loaded as it is now. */
  lemma SavesInOrderKeepUp(states: seq<System>, r: string)
    requires OrderedRun(states) && r in Last(states).newest
    ensures Save(r, Last(states).newest[r]) in Last(states).pending
            || (r in Last(states).landed && Last(states).landed[r] == Last(states).newest[r])
    ensures (forall k :: 0 <= k < |Last(states).pending| ==> Last(states).pending[k].repoId != r) ==>
              && r in LoadedFrom(Last(states).tables) && r in Present(Last(states))
              && LoadedFrom(Last(states).tables)[r] == DropEmpty(Present(Last(states))[r])
  {
    OrderedRunsKeepUp(states, |states| - 1);
    assert KeepsUpWith(Last(states), r);
    if Save(r, Last(states).newest[r]) !in Last(states).pending {
      StoredIsPresentIff(states, r);
    }
  }

  // ---- a save that lands late

  function OneBranch(): Tables {
    Tables(map["r" := "ann"], [BranchRow("r", "main", None, "ann", true)], [], [], [])
  }

  function TwoBranches(): Tables {
    Tables(map["r" := "ann"],
           [BranchRow("r", "main", None, "ann", true), BranchRow("r", "side", None, "ann", false)], [], [], [])
  }

  function Twig(name: string, isDefault: bool): BranchState {
    BranchState(BranchRecord(name, "ann", isDefault, None), [])
  }

  function Bush(): Repo {
    Repo("main", map["main" := Twig("main", true), "side" := Twig("side", false)], map[], map[])
  }

  lemma FirstSave()
    ensures Replaces(Tables(map[], [], [], [], []), TwoBranches(), "r", Bush(), true)
  {
  }

  lemma SecondSave()
    ensures Replaces(TwoBranches(), OneBranch(), "r", NewRepo("main", "ann"), true)
  {
    assert NewRepo("main", "ann").branches == map["main" := Twig("main", true)];
  }

  lemma TwoCommits()
    ensures Step(map[], CreateRepo("r", "main", "ann")) == map["r" := NewRepo("main", "ann")]
    ensures Outcome(map[], CreateRepo("r", "main", "ann")).None?
    ensures var now, op := map["r" := NewRepo("main", "ann")], CreateBranch("r", "side", None, "ann");
            Step(now, op) == map["r" := Bush()] && Outcome(now, op).None?
  {
    assert NewRepo("main", "ann").branches == map["main" := Twig("main", true)];
  }

  /** The five states of a run in which the older of two saves lands last. */
  function Stale(k: nat): System {
    var m1: Repos, m2: Repos := map["r" := NewRepo("main", "ann")], map["r" := Bush()];
    match k
    case 0 => FRESH
    case 1 => System([map[], m1], [Save("r", 1)], map[], map["r" := 1], FRESH.tables)
    case 2 => System([map[], m1, m2], [Save("r", 1), Save("r", 2)], map[], map["r" := 2], FRESH.tables)
    case 3 => System([map[], m1, m2], [Save("r", 1)], map["r" := 2], map["r" := 2], TwoBranches())
    case _ => System([map[], m1, m2], [], map["r" := 1], map["r" := 2], OneBranch())
  }

  lemma StaleCommits()
    ensures Moves(Stale(0), Stale(1)) && Moves(Stale(1), Stale(2))
  {
    TwoCommits();
    assert Commits(Stale(0), Stale(1), CreateRepo("r", "main", "ann"));
    assert Commits(Stale(1), Stale(2), CreateBranch("r", "side", None, "ann"));
  }

  lemma NewerLands()
    ensures Moves(Stale(2), Stale(3))
  {
    FirstSave();
    assert Lands(Stale(2), Stale(3), 1, true);
  }

  lemma OlderLands()
    ensures Moves(Stale(3), Stale(4))
  {
    SecondSave();
    assert Lands(Stale(3), Stale(4), 0, true);
  }

  lemma LongerRun(front: seq<System>, s: System)
    requires SystemRun(front) && Moves(Last(front), s)
    ensures SystemRun(front + [s])
  {
    var states := front + [s];
    forall k | 0 < k < |states|
      ensures MovesAt(states, k)
    {
      if k < |front| {
        assert MovesAt(front, k);
      }
    }
  }

  lemma StaleMoves(k: nat)
    requires k < 4
    ensures Moves(Stale(k), Stale(k + 1))
  {
    if k < 2 {
      StaleCommits();
    } else if k == 2 {
      NewerLands();
    } else {
      OlderLands();
    }
  }

  lemma {:induction false} StaleRun(n: nat) returns (states: seq<System>)
    requires n <= 4
    ensures SystemRun(states) && Last(states) == Stale(n)
  {
    if n == 0 {
      states := [FRESH];
    } else {
      var front := StaleRun(n - 1);
      StaleMoves(n - 1);
      LongerRun(front, Stale(n));
      states := front + [Stale(n)];
    }
  }

  /** A save that lands late can overwrite a newer one, so what is stored need not be the latest. */
  lemma StoredMayBeStale() returns (states: seq<System>)
    ensures SystemRun(states)
    ensures var s := Last(states);
            && s.pending == [] && "r" in LoadedFrom(s.tables) && "r" in Present(s)
            && LoadedFrom(s.tables)["r"] != DropEmpty(Present(s)["r"])
  {
    states := StaleRun(4);
    StoredIsPresentIff(states, "r");
  }
}
