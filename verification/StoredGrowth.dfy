/** What a new manager may forget. Within one manager repositories only grow; across the start of a new one they
    do exactly when the newest save of every repository is the one that landed last. */
module StoredGrowth {
  import opened Prelude
  import opened Lineage
  import opened Versioning
  import opened VersionInvariant
  import opened VersionRuns
  import opened RepoRows
  import opened RepoTables
  import opened StoredStates
  import Observers

  /** The repository was saved, and its newest save is the one that landed last. */
  predicate IsStored(s: System, r: string) {
    r in s.landed && r in s.newest && s.landed[r] == s.newest[r]
  }

  predicate AllStored(s: System) {
    forall r {:trigger IsStored(s, r)} :: r in Present(s) ==> IsStored(s, r)
  }

  // ---- one start

  lemma SameShapes(a: Repo, b: Repo, c: Repo)
    requires SameShape(a, c) && SameShape(b, c)
    ensures SameShape(a, b)
  {
  }

  /** The present repository grows into what its clone is loaded as exactly when the clone is the newest. */
  lemma GrowsIntoCloneIff(s: System, save: Save)
    requires s.past != [] && SaveOk(s, save) && NewestOk(s, save.repoId)
    requires RepoOk(save.repoId, Last(s.past)[save.repoId])
    ensures RepoGrows(Last(s.past)[save.repoId], DropEmpty(s.past[save.at][save.repoId]))
            <==> save.at == s.newest[save.repoId]
  {
    var clone, now := s.past[save.at][save.repoId], Last(s.past)[save.repoId];
    if save.at == s.newest[save.repoId] {
      DropEmptyGrows(save.repoId, now);
    } else if RepoGrows(now, DropEmpty(clone)) {
      GrownBetween(clone, now, DropEmpty(clone));
      SameShapes(clone, now, DropEmpty(clone));
    }
  }

  lemma KeptIff(s: System, s': System, r: string)
    requires SystemOk(s) && Reboots(s, s') && r in Present(s)
    ensures RepoGrowsIn(Present(s), Present(s'), r) <==> IsStored(s, r)
  {
    assert StoreOk(s.past[|s.past| - 1]);
    if r in s.landed {
      LoadedIsLanded(s, r);
      assert SaveOk(s, Save(r, s.landed[r])) && NewestOk(s, r);
      GrowsIntoCloneIff(s, Save(r, s.landed[r]));
    }
  }

  lemma EachIsKept(s: System, next: Repos)
    requires forall r | r in Present(s) :: RepoGrowsIn(Present(s), next, r) <==> IsStored(s, r)
    ensures Grows(Present(s), next) <==> AllStored(s)
  {
    if AllStored(s) {
      forall r | r in Present(s)
        ensures RepoGrowsIn(Present(s), next, r)
      {
        assert IsStored(s, r);
      }
    }
    if Grows(Present(s), next) {
      forall r | r in Present(s)
        ensures IsStored(s, r)
      {
        assert RepoGrowsIn(Present(s), next, r);
      }
    }
  }

  lemma GrowsIffStored(s: System, s': System)
    requires SystemOk(s) && Reboots(s, s')
    ensures Grows(Present(s), Present(s')) <==> AllStored(s)
  {
    forall r | r in Present(s)
      ensures RepoGrowsIn(Present(s), Present(s'), r) <==> IsStored(s, r)
    {
      KeptIff(s, s', r);
    }
    EachIsKept(s, Present(s'));
  }

  /** The start of a new manager forgets nothing, and moves no head back, exactly when the newest save of every
      repository in memory is the one that landed last. */
  lemma NothingForgottenIff(states: seq<System>, s': System)
    requires SystemRun(states) && Reboots(Last(states), s')
    ensures Grows(Present(Last(states)), Present(s')) <==> AllStored(Last(states))
  {
    RunsStayOk(states, |states| - 1);
    GrowsIffStored(Last(states), s');
  }

  /** On one branch: after the start of a new manager its history is the part that the last landed clone holds, and
      its head is the old one exactly when that is all of it. */
  lemma HeadMovesBackIff(states: seq<System>, s': System, r: string, name: string)
    requires SystemRun(states) && Reboots(Last(states), s')
    requires r in Present(s') && name in Present(s')[r].branches
    ensures var before, after := Present(Last(states)), Present(s');
            && r in before && name in before[r].branches
            && after[r].branches[name].history <= before[r].branches[name].history
            && (after[r].branches[name].record.head == before[r].branches[name].record.head
                <==> after[r].branches[name].history == before[r].branches[name].history)
  {
    var s := Last(states);
    RunsStayOk(states, |states| - 1);
    LoadedIsLanded(s, r);
    assert StoreOk(s.past[|s.past| - 1]) && StoreOk(s.past[s.landed[r]]) && SaveOk(s, Save(r, s.landed[r]));
    var clone, now := s.past[s.landed[r]][r], Present(s)[r];
    assert BranchGrows(clone, now, name);
    SameHeadSameHistory(r, clone, now, name);
  }

  lemma SameHeadSameHistory(r: string, repo: Repo, repo': Repo, name: string)
    requires RepoOk(r, repo) && RepoOk(r, repo') && name in repo.branches && BranchGrows(repo, repo', name)
    ensures repo.branches[name].record.head == repo'.branches[name].record.head
            <==> repo.branches[name].history == repo'.branches[name].history
  {
    HeadIsKnown(r, repo, name);
    HeadIsKnown(r, repo', name);
    assert BranchOk(repo, name) && BranchOk(repo', name);
    var h, h' := repo.branches[name].history, repo'.branches[name].history;
    if h != [] && |h| < |h'| {
      NotLast(h', |h| - 1);
    }
  }

  // ---- whole runs

  ghost predicate RebootsAt(states: seq<System>, k: nat)
    requires 0 < k < |states|
  {
    Reboots(states[k - 1], states[k])
  }

  /** Whenever a new manager starts, everything in memory is stored. */
  ghost predicate StoredAtReboots(states: seq<System>) {
    forall k {:trigger RebootsAt(states, k)} :: 0 < k < |states| && RebootsAt(states, k) ==> AllStored(states[k - 1])
  }

  /** Every state has grown from every earlier one. */
  ghost predicate PastGrows(past: seq<Repos>) {
    forall i, j {:trigger past[i], past[j]} :: 0 <= i <= j < |past| ==> Grows(past[i], past[j])
  }

  lemma LongerPastGrows(past: seq<Repos>, next: Repos)
    requires past != [] && PastGrows(past) && Grows(Last(past), next)
    ensures PastGrows(past + [next])
  {
    forall i, j | 0 <= i <= j < |past + [next]|
      ensures Grows((past + [next])[i], (past + [next])[j])
    {
      if i == |past| {
        GrowsReflexive(next);
      } else if j == |past| {
        GrowsTransitive(past[i], Last(past), next);
      }
    }
  }

  lemma {:induction false} PastIsKept(states: seq<System>, j: nat, k: nat)
    requires SystemRun(states) && j <= k < |states|
    ensures states[j].past <= states[k].past
    decreases k
  {
    if j < k {
      PastIsKept(states, j, k - 1);
      assert MovesAt(states, k);
    }
  }

  lemma MoveKeepsGrowing(s: System, s': System)
    requires SystemOk(s) && Moves(s, s') && PastGrows(s.past) && (Reboots(s, s') ==> AllStored(s))
    ensures PastGrows(s'.past)
  {
    if op :| Commits(s, s', op) {
      CommitGrows(s, s', op);
      LongerPastGrows(s.past, Last(s'.past));
    } else if Reboots(s, s') {
      GrowsIffStored(s, s');
      LongerPastGrows(s.past, Last(s'.past));
    }
  }

  lemma {:induction false} StoredRunsGrow(states: seq<System>, k: nat)
    requires SystemRun(states) && StoredAtReboots(states) && k < |states|
    ensures PastGrows(states[k].past)
  {
    if k == 0 {
      GrowsReflexive(map[]);
    } else {
      StoredRunsGrow(states, k - 1);
      RunsStayOk(states, k - 1);
      assert MovesAt(states, k);
      assert Reboots(states[k - 1], states[k]) ==> RebootsAt(states, k);
      MoveKeepsGrowing(states[k - 1], states[k]);
    }
  }

  lemma GrowingRunsAreStored(states: seq<System>, k: nat)
    requires SystemRun(states) && PastGrows(Last(states).past) && 0 < k < |states| && RebootsAt(states, k)
    ensures AllStored(states[k - 1])
  {
    var s, s', past := states[k - 1], states[k], Last(states).past;
    RunsStayOk(states, k - 1);
    PastIsKept(states, k, |states| - 1);
    assert past[|s.past| - 1] == Present(s) && past[|s.past|] == Present(s');
    GrowsIffStored(s, s');
  }

  /** Over a run with any number of managers, every state has grown from every earlier one exactly when, whenever
      a new manager starts, the newest save of every repository is the one that landed last. */
  lemma RunsGrowIff(states: seq<System>)
    requires SystemRun(states)
    ensures PastGrows(Last(states).past) <==> StoredAtReboots(states)
  {
    if StoredAtReboots(states) {
      StoredRunsGrow(states, |states| - 1);
    }
    if PastGrows(Last(states).past) {
      forall k | 0 < k < |states| && RebootsAt(states, k)
        ensures AllStored(states[k - 1])
      {
        GrowingRunsAreStored(states, k);
      }
    }
  }

  /** In such a run a head that has left a changeset never returns to it, whichever managers came between. */
  lemma HeadsNeverReturnAcross(states: seq<System>, i: nat, j: nat, k: nat, r: string, name: string, x: Id)
    requires SystemRun(states) && StoredAtReboots(states) && i <= j <= k < |Last(states).past|
    requires var past := Last(states).past;
             r in past[i] && name in past[i][r].branches && past[i][r].branches[name].record.head == Some(x)
    ensures var past := Last(states).past;
            && r in past[j] && name in past[j][r].branches && r in past[k] && name in past[k][r].branches
            && (past[j][r].branches[name].record.head != Some(x) ==> past[k][r].branches[name].record.head != Some(x))
  {
    var past := Last(states).past;
    StoredRunsGrow(states, |states| - 1);
    assert Grows(past[i], past[j]) && Grows(past[j], past[k]);
    assert RepoGrowsIn(past[i], past[j], r) && RepoGrowsIn(past[j], past[k], r);
    assert BranchGrows(past[i][r], past[j][r], name) && BranchGrows(past[j][r], past[k][r], name);
    EveryStateIsOk(states, i);
    EveryStateIsOk(states, j);
    EveryStateIsOk(states, k);
    if past[j][r].branches[name].record.head != Some(x) {
      HeadLeftBehind(r, past[i][r], past[j][r], past[k][r], name, x);
    }
  }

  // ---- a run in which a head moves back

  function CommitX(): Op {
    Observers.Commit("x", ROOT, [])
  }

  function CommitY(): Op {
    Observers.Commit("y", "x", [])
  }

  /** The store after the first and after the second commit. */
  ghost function After(commits: nat): Repos {
    if commits == 0 then map[] else if commits == 1 then Step(map[], CommitX()) else Step(After(1), CommitY())
  }

  function FirstRecord(): Changeset {
    Changeset("x", "r", "main", None, Some(ROOT), Normal, None, "ann", "", Visible, None, None,
              Some(VisibleRef("main")), [])
  }

  /** What the first commit's save leaves in the tables. */
  function FirstRows(): Tables {
    Tables(map["r" := "ann"], [BranchRow("r", "main", Some("x"), "ann", true)], [ChangesetRowOf(FirstRecord())], [], [])
  }

  lemma FirstCommitted()
    ensures StoreOk(After(1)) && After(1) == map["r" := Repo("main",
              map["main" := BranchState(BranchRecord("main", "ann", true, Some("x")), ["x"])],
              map["x" := FirstRecord()], map["x" := map[]])]
  {
    StepKeepsOk(map[], CommitX());
    Observers.FirstCommit("x", []);
    var repo := After(1)["r"];
    assert repo.changesets["x"] == FirstRecord();
    assert repo.branches == map["main" := BranchState(BranchRecord("main", "ann", true, Some("x")), ["x"])];
    assert repo.changesets == map["x" := FirstRecord()] && repo.snapshots == map["x" := map[]];
    assert After(1) == map["r" := repo];
  }

  lemma SecondCommitted()
    ensures Legal(After(1), CommitY()) && Outcome(After(1), CommitY()).None?
    ensures "r" in After(2) && "main" in After(2)["r"].branches
    ensures After(2)["r"].branches["main"].record.head == Some("y")
  {
    FirstCommitted();
    Observers.NextCommit(After(1), "y", "x", []);
  }

  lemma FirstSaveLands()
    ensures "r" in After(1) && Replaces(FRESH.tables, FirstRows(), "r", After(1)["r"], true)
  {
    FirstCommitted();
  }

  /** The six states of a run: a commit and its save, a commit whose save is lost, and a new manager. */
  ghost function Forgetful(k: nat): System {
    var one, two := [After(0), After(1)], [After(0), After(1), After(2)];
    match k
    case 0 => FRESH
    case 1 => System(one, [Save("r", 1)], map[], map["r" := 1], FRESH.tables)
    case 2 => System(one, [], map["r" := 1], map["r" := 1], FirstRows())
    case 3 => System(two, [Save("r", 2)], map["r" := 1], map["r" := 2], FirstRows())
    case 4 => System(two, [], map["r" := 1], map["r" := 2], FirstRows())
    case _ => System(two + [LoadedFrom(FirstRows())], [], map["r" := 1], map["r" := 1], FirstRows())
  }

  lemma XIsCommitted()
    ensures Moves(Forgetful(0), Forgetful(1))
  {
    assert Outcome(map[], CommitX()).None?;
    assert Commits(Forgetful(0), Forgetful(1), CommitX());
  }

  lemma XIsSaved()
    ensures Moves(Forgetful(1), Forgetful(2))
  {
    FirstSaveLands();
    assert Lands(Forgetful(1), Forgetful(2), 0, true);
  }

  lemma YIsCommitted()
    ensures Moves(Forgetful(2), Forgetful(3))
  {
    SecondCommitted();
    assert Commits(Forgetful(2), Forgetful(3), CommitY());
  }

  lemma YIsLost()
    ensures Moves(Forgetful(3), Forgetful(4)) && Moves(Forgetful(4), Forgetful(5))
  {
    assert Loses(Forgetful(3), Forgetful(4), 0);
    assert Reboots(Forgetful(4), Forgetful(5));
  }

  lemma ForgetfulMoves(k: nat)
    requires k < 5
    ensures Moves(Forgetful(k), Forgetful(k + 1))
  {
    if k == 0 {
      XIsCommitted();
    } else if k == 1 {
      XIsSaved();
    } else if k == 2 {
      YIsCommitted();
    } else {
      YIsLost();
    }
  }

  lemma {:induction false} ForgetfulRun(n: nat) returns (states: seq<System>)
    requires n <= 5
    ensures SystemRun(states) && Last(states) == Forgetful(n)
  {
    if n == 0 {
      states := [FRESH];
    } else {
      var front := ForgetfulRun(n - 1);
      ForgetfulMoves(n - 1);
      LongerRun(front, Forgetful(n));
      states := front + [Forgetful(n)];
    }
  }

  function HeadIn(repos: Repos): Option<Id> {
    if "r" in repos && "main" in repos["r"].branches then repos["r"].branches["main"].record.head else None
  }

  /** A run in which a head that had moved from x to y is x again: the save of y was lost and a new manager
      started. */
  lemma HeadMayMoveBack() returns (states: seq<System>)
    ensures SystemRun(states)
    ensures var past := Last(states).past;
            |past| == 4 && HeadIn(past[1]) == Some("x") && HeadIn(past[2]) == Some("y") && HeadIn(past[3]) == Some("x")
  {
    states := ForgetfulRun(5);
    FirstCommitted();
    SecondCommitted();
    StoredWasReal(states);
    assert Last(states).past[1] == After(1) && Last(states).past[3] == LoadedFrom(FirstRows());
    assert LoadedFrom(FirstRows())["r"] == DropEmpty(After(1)["r"]);
  }
}
