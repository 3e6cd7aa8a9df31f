/** What a replay makes of a log whose events are out of order, or of which one was lost. */
module ReplayOrder {
  import opened Prelude
  import opened Lineage
  import opened Replay

  predicate ShowsId(e: Event, id: Id) {
    Shows(e.kind) && id in ShownId(e)
  }

  predicate MovesKey(e: Event, key: string) {
    Shows(e.kind) && key in MovedHead(e)
  }

  predicate NamesPath(e: Event, path: string) {
    ChangesLock(e.kind) && path in LockPath(e)
  }

  /** Event number k is the last one that moves this head. */
  predicate LastMove(log: seq<Event>, key: string, k: nat) {
    k < |log| && MovesKey(log[k], key) && forall j :: k < j < |log| ==> !MovesKey(log[j], key)
  }

  /** Event number k is the last one that takes or releases this path. */
  predicate LastNaming(log: seq<Event>, path: string, k: nat) {
    k < |log| && NamesPath(log[k], path) && forall j :: k < j < |log| ==> !NamesPath(log[j], path)
  }

  // ---- a replay read off its log

  ghost predicate SomeShows(log: seq<Event>, id: Id) {
    exists e :: e in log && ShowsId(e, id)
  }

  lemma {:induction false} VisibleIsShown(log: seq<Event>, id: Id)
    ensures id in ReplayFrom(NOTHING, log).visible <==> SomeShows(log, id)
  {
    if log != [] {
      var front := log[..|log| - 1];
      VisibleIsShown(front, id);
      if e :| e in log && ShowsId(e, id) {
        assert e in front || e == Last(log);
      }
      if e :| e in front && ShowsId(e, id) {
        assert e in log;
      }
      assert Last(log) in log;
    }
  }

  ghost predicate SomeMoves(log: seq<Event>, key: string) {
    exists e :: e in log && MovesKey(e, key)
  }

  lemma EarlierLastMove(log: seq<Event>, key: string, k: nat)
    requires log != [] && !MovesKey(Last(log), key)
    ensures LastMove(log, key, k) <==> LastMove(log[..|log| - 1], key, k)
  {
    var front := log[..|log| - 1];
    assert forall j :: 0 <= j < |front| ==> front[j] == log[j];
  }

  lemma SomeMovesStep(log: seq<Event>, key: string)
    requires log != []
    ensures SomeMoves(log, key) <==> SomeMoves(log[..|log| - 1], key) || MovesKey(Last(log), key)
  {
    var front := log[..|log| - 1];
    if e :| e in log && MovesKey(e, key) {
      assert e in front || e == Last(log);
    }
    if e :| e in front && MovesKey(e, key) {
      assert e in log;
    }
    assert Last(log) in log;
  }

  /** The last event that moves a head decides it. */
  lemma {:induction false} HeadIsLastMove(log: seq<Event>, key: string)
    ensures key in ReplayFrom(NOTHING, log).heads <==> SomeMoves(log, key)
    ensures forall k: nat :: LastMove(log, key, k) ==>
              key in ReplayFrom(NOTHING, log).heads && ReplayFrom(NOTHING, log).heads[key] == log[k].changesetId.value
  {
    if log != [] {
      HeadIsLastMove(log[..|log| - 1], key);
      SomeMovesStep(log, key);
      if !MovesKey(Last(log), key) {
        forall k: nat
          ensures LastMove(log, key, k) <==> LastMove(log[..|log| - 1], key, k)
        {
          EarlierLastMove(log, key, k);
        }
      }
    }
  }

  /** The last event that names a path decides its lock. */
  lemma {:induction false} LockIsLastNaming(log: seq<Event>, path: string)
    ensures forall k: nat :: LastNaming(log, path, k) ==>
              (path in ReplayFrom(NOTHING, log).locks <==> log[k].kind == LockAcquired)
  {
    if log != [] {
      var front := log[..|log| - 1];
      LockIsLastNaming(front, path);
      if !NamesPath(Last(log), path) {
        forall k: nat
          ensures LastNaming(log, path, k) <==> LastNaming(front, path, k)
        {
          assert k < |front| ==> log[k] == front[k];
        }
      }
    }
  }

  function HowMany(log: seq<Event>, kinds: set<EventType>): nat {
    if log == [] then 0 else HowMany(log[..|log| - 1], kinds) + if Last(log).kind in kinds then 1 else 0
  }

  /** The summary counts all events, and those of each kind; both ways of releasing count as one, and so do both ways
      of becoming visible without a draft. */
  lemma {:induction false} SummaryCounts(log: seq<Event>)
    ensures ReplayFrom(NOTHING, log).summary ==
            Summary(|log|, HowMany(log, {LockAcquired}), HowMany(log, {LockReleased, LockForceReleased}),
                    HowMany(log, {ChangesetVisible, RollbackVisible}), HowMany(log, {ChangesetApproved}),
                    HowMany(log, {ChangesetPromoted}))
  {
    if log != [] {
      SummaryCounts(log[..|log| - 1]);
    }
  }

  // ---- events out of order

  lemma SameEvents(log: seq<Event>, log': seq<Event>, e: Event)
    requires multiset(log) == multiset(log')
    ensures e in log <==> e in log'
  {
    assert e in log <==> e in multiset(log);
    assert e in log' <==> e in multiset(log');
  }

  /** The same events in another order: the visible set and the keys of the heads stay. */
  lemma ReorderedSets(log: seq<Event>, log': seq<Event>)
    requires multiset(log) == multiset(log')
    ensures ReplayFrom(NOTHING, log').visible == ReplayFrom(NOTHING, log).visible
    ensures ReplayFrom(NOTHING, log').heads.Keys == ReplayFrom(NOTHING, log).heads.Keys
  {
    forall e
      ensures e in log <==> e in log'
    {
      SameEvents(log, log', e);
    }
    forall id
      ensures id in ReplayFrom(NOTHING, log').visible <==> id in ReplayFrom(NOTHING, log).visible
    {
      assert SomeShows(log, id) <==> SomeShows(log', id);
      VisibleIsShown(log, id);
      VisibleIsShown(log', id);
    }
    forall key
      ensures key in ReplayFrom(NOTHING, log').heads <==> key in ReplayFrom(NOTHING, log).heads
    {
      assert SomeMoves(log, key) <==> SomeMoves(log', key);
      HeadIsLastMove(log, key);
      HeadIsLastMove(log', key);
    }
  }

  /** A head stays exactly when the event that moves it last names the same changeset as before. */
  lemma ReorderedHeadStaysIff(log: seq<Event>, log': seq<Event>, key: string, k: nat, k': nat)
    requires LastMove(log, key, k) && LastMove(log', key, k')
    ensures var heads, heads' := ReplayFrom(NOTHING, log).heads, ReplayFrom(NOTHING, log').heads;
            && key in heads && key in heads'
            && (heads'[key] == heads[key] <==> log'[k'].changesetId == log[k].changesetId)
  {
    HeadIsLastMove(log, key);
    HeadIsLastMove(log', key);
  }

  /** A lock stays exactly when the event that names its path last takes it in both orders, or in neither. */
  lemma ReorderedLockStaysIff(log: seq<Event>, log': seq<Event>, path: string, k: nat, k': nat)
    requires LastNaming(log, path, k) && LastNaming(log', path, k')
    ensures (path in ReplayFrom(NOTHING, log').locks <==> path in ReplayFrom(NOTHING, log).locks)
            <==> (log'[k'].kind == LockAcquired <==> log[k].kind == LockAcquired)
  {
    LockIsLastNaming(log, path);
    LockIsLastNaming(log', path);
  }

  // ---- a lost event

  lemma AfterOne(before: seq<Event>, e: Event)
    ensures ReplayFrom(NOTHING, before + [e]) == Apply(ReplayFrom(NOTHING, before), e)
  {
    assert (before + [e])[..|before|] == before;
  }

  /** What was shown in the middle is missed unless it is shown before or after. */
  lemma LostFromUnion<T(!new)>(a: set<T>, m: set<T>, b: set<T>)
    ensures a + b == a + m + b <==> forall x :: x in m ==> x in a + b
  {
    if a + b == a + m + b {
      forall x | x in m
        ensures x in a + b
      {
        assert x in a + m + b;
      }
    }
  }

  lemma LostFromMerge<K(!new), V(!new)>(a: map<K, V>, m: map<K, V>, b: map<K, V>)
    ensures a + b == a + m + b <==> forall key :: key in m ==> key in b || (key in a && a[key] == m[key])
  {
    if a + b == a + m + b {
      forall key | key in m && key !in b
        ensures key in a && a[key] == m[key]
      {
        assert key in a + m + b && (a + m + b)[key] == m[key];
      }
    }
  }

  lemma LostShown(before: seq<Event>, e: Event, after: seq<Event>)
    ensures ReplayFrom(NOTHING, before + after).visible == ReplayFrom(NOTHING, before + [e] + after).visible
            <==> forall id :: ShowsId(e, id) ==> SomeShows(before + after, id)
  {
    var a, b := ReplayFrom(NOTHING, before).visible, ReplayFrom(NOTHING, after).visible;
    var shown := if Shows(e.kind) then ShownId(e) else {};
    AfterOne(before, e);
    SplitReplayMerges(before, after);
    SplitReplayMerges(before + [e], after);
    LostFromUnion(a, shown, b);
    forall id
      ensures id in a + b <==> SomeShows(before + after, id)
    {
      VisibleIsShown(before + after, id);
    }
  }

  lemma LostMove(before: seq<Event>, e: Event, after: seq<Event>)
    ensures var a, b := ReplayFrom(NOTHING, before).heads, ReplayFrom(NOTHING, after).heads;
            ReplayFrom(NOTHING, before + after).heads == ReplayFrom(NOTHING, before + [e] + after).heads
            <==> forall key :: MovesKey(e, key) ==> key in b || (key in a && a[key] == MovedHead(e)[key])
  {
    var moved: map<string, Id> := if Shows(e.kind) then MovedHead(e) else map[];
    AfterOne(before, e);
    SplitReplayMerges(before, after);
    SplitReplayMerges(before + [e], after);
    LostFromMerge(ReplayFrom(NOTHING, before).heads, moved, ReplayFrom(NOTHING, after).heads);
  }

  /** What the later events do not name is as it was before them. */
  lemma LostFromRest<T(!new)>(part: set<T>, a: set<T>, a': set<T>, named: set<T>)
    requires part <= named
    ensures part + (a - named) == part + (a' - named) <==> forall x :: x in named || (x in a <==> x in a')
  {
    if part + (a - named) == part + (a' - named) {
      forall x | x !in named
        ensures x in a <==> x in a'
      {
        assert x in part + (a - named) <==> x in part + (a' - named);
      }
    }
  }

  lemma LockAfterOne(a: Accumulated, e: Event, path: string)
    ensures path in Apply(a, e).locks <==> if NamesPath(e, path) then e.kind == LockAcquired else path in a.locks
  {
  }

  lemma LostNaming(before: seq<Event>, e: Event, after: seq<Event>)
    ensures ReplayFrom(NOTHING, before + after).locks == ReplayFrom(NOTHING, before + [e] + after).locks
            <==> forall path :: NamesPath(e, path) ==>
                   path in LockPathsIn(after) || (path in ReplayFrom(NOTHING, before).locks <==> e.kind == LockAcquired)
  {
    var a, a' := ReplayFrom(NOTHING, before), ReplayFrom(NOTHING, before + [e]);
    LocksSplit(a, after);
    LocksSplit(a', after);
    ReplayConcat(NOTHING, before, after);
    ReplayConcat(NOTHING, before + [e], after);
    LostFromRest(ReplayFrom(NOTHING, after).locks, a.locks, a'.locks, LockPathsIn(after));
    AfterOne(before, e);
    forall path
      ensures (path in a.locks <==> path in a'.locks)
              <==> !NamesPath(e, path) || (path in a.locks <==> e.kind == LockAcquired)
    {
      LockAfterOne(a, e, path);
    }
  }

  /** One event is missing: the visible set stays exactly when another event shows the same changeset, the heads
      exactly when a later event moves the same head or the head was that changeset already, and the locks exactly
      when a later event names the same path or the path was locked, or free, already. */
  lemma LostEvent(before: seq<Event>, e: Event, after: seq<Event>)
    ensures var a, b := ReplayFrom(NOTHING, before), ReplayFrom(NOTHING, after);
            var full, lossy := ReplayFrom(NOTHING, before + [e] + after), ReplayFrom(NOTHING, before + after);
            && (lossy.visible == full.visible
                <==> forall id :: ShowsId(e, id) ==> SomeShows(before + after, id))
            && (lossy.heads == full.heads
                <==> forall key :: MovesKey(e, key) ==>
                       key in b.heads || (key in a.heads && a.heads[key] == MovedHead(e)[key]))
            && (lossy.locks == full.locks
                <==> forall path :: NamesPath(e, path) ==>
                       path in LockPathsIn(after) || (path in a.locks <==> e.kind == LockAcquired))
  {
    LostShown(before, e, after);
    LostMove(before, e, after);
    LostNaming(before, e, after);
  }

}
