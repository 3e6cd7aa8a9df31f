/** Replaying recorded events into a second copy of the state, and comparing it with the first. */
module Replay {
  import opened Prelude
  import opened Lineage

  /** The event types replay knows; every other type, such as CHANGESET_CREATED_DRAFT, is only counted. */
  datatype EventType =
    | LockAcquired
    | LockReleased
    | LockForceReleased
    | ChangesetVisible
    | RollbackVisible
    | ChangesetApproved
    | ChangesetPromoted
    | OtherEvent(name: string)

  /** What replay reads of a recorded event. */
  datatype Event = Event(
    kind: EventType,
    repoId: Option<string>,
    changesetId: Option<Id>,
    branch: Option<string>,
    filePath: Option<string>)

  datatype Summary = Summary(processed: nat, acquired: nat, released: nat, visible: nat, approved: nat, promoted: nat)

  datatype Accumulated = Accumulated(summary: Summary, locks: set<string>, visible: set<Id>, heads: map<string, Id>)

  const NOTHING := Accumulated(Summary(0, 0, 0, 0, 0, 0), {}, {}, map[])

  function HeadKey(repoId: string, branch: string): string {
    repoId + "::" + branch
  }

  /** The branch head an event moves, if it names a repository, a branch and a changeset. */
  function MovedHead(e: Event): map<string, Id> {
    if e.repoId.Some? && e.branch.Some? && e.changesetId.Some?
    then map[HeadKey(e.repoId.value, e.branch.value) := e.changesetId.value]
    else map[]
  }

  function ShownId(e: Event): set<Id> {
    if e.changesetId.Some? then {e.changesetId.value} else {}
  }

  function LockPath(e: Event): set<string> {
    if e.filePath.Some? then {e.filePath.value} else {}
  }

  function Count(s: Summary, k: EventType): Summary {
    var t := s.(processed := s.processed + 1);
    match k
    case LockAcquired => t.(acquired := t.acquired + 1)
    case LockReleased => t.(released := t.released + 1)
    case LockForceReleased => t.(released := t.released + 1)
    case ChangesetVisible => t.(visible := t.visible + 1)
    case RollbackVisible => t.(visible := t.visible + 1)
    case ChangesetApproved => t.(approved := t.approved + 1)
    case ChangesetPromoted => t.(promoted := t.promoted + 1)
    case OtherEvent(_) => t
  }

  predicate Shows(k: EventType) {
    k == ChangesetVisible || k == RollbackVisible || k == ChangesetPromoted
  }

  function Apply(a: Accumulated, e: Event): Accumulated {
    Accumulated(
      Count(a.summary, e.kind),
      if e.kind == LockAcquired then a.locks + LockPath(e)
      else if e.kind == LockReleased || e.kind == LockForceReleased then a.locks - LockPath(e)
      else a.locks,
      if Shows(e.kind) then a.visible + ShownId(e) else a.visible,
      if Shows(e.kind) then a.heads + MovedHead(e) else a.heads)
  }

  /** What one event does: a lock is taken or released under the path it names; a changeset it names is visible if it
      was shown, restored or promoted, and is then the head of the branch, if repository and branch are named too. */
  lemma EventDoes(a: Accumulated, e: Event)
    ensures Apply(a, e).locks ==
            match e.kind
            case LockAcquired => if e.filePath.Some? then a.locks + {e.filePath.value} else a.locks
            case LockReleased => if e.filePath.Some? then a.locks - {e.filePath.value} else a.locks
            case LockForceReleased => if e.filePath.Some? then a.locks - {e.filePath.value} else a.locks
            case _ => a.locks
    ensures var shown := e.kind in {ChangesetVisible, RollbackVisible, ChangesetPromoted} && e.changesetId.Some?;
            && Apply(a, e).visible == (if shown then a.visible + {e.changesetId.value} else a.visible)
            && Apply(a, e).heads ==
               (if shown && e.repoId.Some? && e.branch.Some?
                then a.heads[e.repoId.value + "::" + e.branch.value := e.changesetId.value] else a.heads)
  {
  }

  function ReplayFrom(a: Accumulated, events: seq<Event>): Accumulated {
    if events == [] then a else Apply(ReplayFrom(a, events[..|events| - 1]), Last(events))
  }

  class ReplayAccumulator {
    var summary: Summary
    var locks: set<string>
    var visible: set<Id>
    var heads: map<string, Id>

    ghost function View(): Accumulated
      reads this
    {
      Accumulated(summary, locks, visible, heads)
    }

    constructor ()
      ensures View() == NOTHING
    {
      summary, locks, visible, heads := Summary(0, 0, 0, 0, 0, 0), {}, {}, map[];
    }

    method UpdateBranchHead(e: Event)
      modifies this`heads
      ensures heads == old(heads) + MovedHead(e)
    {
      if e.repoId.None? || e.branch.None? || e.changesetId.None? {
        return;
      }
      heads := heads[HeadKey(e.repoId.value, e.branch.value) := e.changesetId.value];
    }

    method ApplyEvent(e: Event)
      modifies this
      ensures View() == Apply(old(View()), e)
    {
      summary := summary.(processed := summary.processed + 1);
      if e.kind == LockAcquired {
        summary := summary.(acquired := summary.acquired + 1);
        if e.filePath.Some? {
          locks := locks + {e.filePath.value};
        }
      } else if e.kind == LockReleased || e.kind == LockForceReleased {
        summary := summary.(released := summary.released + 1);
        if e.filePath.Some? {
          locks := locks - {e.filePath.value};
        }
      } else if e.kind == ChangesetVisible || e.kind == RollbackVisible {
        summary := summary.(visible := summary.visible + 1);
        if e.changesetId.Some? {
          visible := visible + {e.changesetId.value};
        }
        UpdateBranchHead(e);
      } else if e.kind == ChangesetApproved {
        summary := summary.(approved := summary.approved + 1);
      } else if e.kind == ChangesetPromoted {
        summary := summary.(promoted := summary.promoted + 1);
        if e.changesetId.Some? {
          visible := visible + {e.changesetId.value};
        }
        UpdateBranchHead(e);
      }
    }
  }

  // ---- comparing

  datatype Mismatch =
    | LocksDiffer
    | VisibleDiffer
    | HeadDiffers(key: string)
    | HeadMissingInReplay(key: string)
    | HeadMissingInStore(key: string)

  /** The state read from the tables: how many lock rows and visible changesets, and the heads. */
  datatype Current = Current(locks: nat, visible: nat, heads: map<string, Id>)

  ghost predicate IsMismatch(a: Accumulated, c: Current, m: Mismatch) {
    match m
    case LocksDiffer => |a.locks| != c.locks
    case VisibleDiffer => |a.visible| != c.visible
    case HeadDiffers(k) => k in c.heads && k in a.heads && a.heads[k] != c.heads[k]
    case HeadMissingInReplay(k) => k in c.heads && k !in a.heads
    case HeadMissingInStore(k) => k in a.heads && k !in c.heads
  }

  ghost predicate Consistent(a: Accumulated, c: Current) {
    |a.locks| == c.locks && |a.visible| == c.visible && a.heads == c.heads
  }

  /** The comparison finds nothing exactly when counts and heads agree. */
  lemma NoMismatchMeansConsistent(a: Accumulated, c: Current, mismatches: seq<Mismatch>)
    requires forall m :: m in mismatches <==> IsMismatch(a, c, m)
    ensures mismatches == [] <==> Consistent(a, c)
  {
    if mismatches == [] {
      assert !IsMismatch(a, c, LocksDiffer) && !IsMismatch(a, c, VisibleDiffer);
      forall k
        ensures k in a.heads <==> k in c.heads
        ensures k in a.heads ==> a.heads[k] == c.heads[k]
      {
        assert !IsMismatch(a, c, HeadDiffers(k)) && !IsMismatch(a, c, HeadMissingInReplay(k));
        assert !IsMismatch(a, c, HeadMissingInStore(k));
      }
    } else {
      SomeMember(mismatches);
    }
  }

  /** A full or incremental check: replay the events from nothing and list every difference. */
  method Verify(events: seq<Event>, c: Current) returns (mismatches: seq<Mismatch>)
    ensures forall m :: m in mismatches <==> IsMismatch(ReplayFrom(NOTHING, events), c, m)
    ensures mismatches == [] <==> Consistent(ReplayFrom(NOTHING, events), c)
  {
    var acc := new ReplayAccumulator();
    for k := 0 to |events|
      invariant fresh(acc) && acc.View() == ReplayFrom(NOTHING, events[..k])
    {
      assert events[..k + 1][..k] == events[..k];
      acc.ApplyEvent(events[k]);
    }
    assert events[..|events|] == events;
    mismatches := Compare(acc.locks, acc.visible, acc.heads, c);
    NoMismatchMeansConsistent(acc.View(), c, mismatches);
  }

  /** Among the stored heads `keys`, m names one that replay has differently or not at all. */
  ghost predicate WrongHead(replayed: map<string, Id>, stored: map<string, Id>, keys: set<string>, m: Mismatch)
    requires keys <= stored.Keys
  {
    match m
    case HeadDiffers(k) => k in keys && k in replayed && replayed[k] != stored[k]
    case HeadMissingInReplay(k) => k in keys && k !in replayed
    case _ => false
  }

  ghost predicate ExtraHead(replayed: map<string, Id>, stored: map<string, Id>, keys: set<string>, m: Mismatch) {
    m.HeadMissingInStore? && m.key in keys && m.key !in stored
  }

  method Compare(locks: set<string>, visible: set<Id>, heads: map<string, Id>, c: Current)
    returns (mismatches: seq<Mismatch>)
    ensures forall s, m :: m in mismatches <==> IsMismatch(Accumulated(s, locks, visible, heads), c, m)
  {
    mismatches := [];
    if |locks| != c.locks {
      mismatches := mismatches + [LocksDiffer];
    }
    if |visible| != c.visible {
      mismatches := mismatches + [VisibleDiffer];
    }
    ghost var counted := mismatches;
    var rest := c.heads.Keys;
    while rest != {}
      invariant rest <= c.heads.Keys
      invariant forall m :: m in mismatches <==> m in counted || WrongHead(heads, c.heads, c.heads.Keys - rest, m)
    {
      var key :| key in rest;
      if key !in heads {
        mismatches := mismatches + [HeadMissingInReplay(key)];
      } else if heads[key] != c.heads[key] {
        mismatches := mismatches + [HeadDiffers(key)];
      }
      rest := rest - {key};
    }
    ghost var compared := mismatches;
    rest := heads.Keys;
    while rest != {}
      invariant rest <= heads.Keys
      invariant forall m :: m in mismatches <==> m in compared || ExtraHead(heads, c.heads, heads.Keys - rest, m)
    {
      var key :| key in rest;
      if key !in c.heads {
        mismatches := mismatches + [HeadMissingInStore(key)];
      }
      rest := rest - {key};
    }
  }

  // ---- replay over a split log

  function Sum(a: Summary, b: Summary): Summary {
    Summary(a.processed + b.processed, a.acquired + b.acquired, a.released + b.released, a.visible + b.visible,
            a.approved + b.approved, a.promoted + b.promoted)
  }

  /** What replaying some events on top of `a` has in common with replaying them alone. */
  ghost predicate Merged(full: Accumulated, a: Accumulated, part: Accumulated) {
    && full.summary == Sum(a.summary, part.summary)
    && full.visible == a.visible + part.visible
    && full.heads == a.heads + part.heads
  }

  lemma MergedStaysMerged(full: Accumulated, a: Accumulated, part: Accumulated, e: Event)
    requires Merged(full, a, part)
    ensures Merged(Apply(full, e), a, Apply(part, e))
  {
  }

  lemma {:induction false} ReplayFromAny(a: Accumulated, events: seq<Event>)
    ensures Merged(ReplayFrom(a, events), a, ReplayFrom(NOTHING, events))
  {
    if events != [] {
      var front := events[..|events| - 1];
      ReplayFromAny(a, front);
      MergedStaysMerged(ReplayFrom(a, front), a, ReplayFrom(NOTHING, front), Last(events));
    }
  }

  lemma {:induction false} ReplayConcat(a: Accumulated, before: seq<Event>, after: seq<Event>)
    ensures ReplayFrom(a, before + after) == ReplayFrom(ReplayFrom(a, before), after)
  {
    if after == [] {
      assert before + after == before;
    } else {
      assert (before + after)[..|before + after| - 1] == before + after[..|after| - 1];
      ReplayConcat(a, before, after[..|after| - 1]);
    }
  }

  predicate ChangesLock(k: EventType) {
    k == LockAcquired || k == LockReleased || k == LockForceReleased
  }

  /** The paths that are locked or released by some event. */
  function LockPathsIn(events: seq<Event>): set<string> {
    if events == [] then {}
    else
      LockPathsIn(events[..|events| - 1]) + if ChangesLock(Last(events).kind) then LockPath(Last(events)) else {}
  }

  /** A path that no event names keeps its lock; for every other the later events decide alone. */
  lemma {:induction false} LocksSplit(a: Accumulated, events: seq<Event>)
    ensures ReplayFrom(NOTHING, events).locks <= LockPathsIn(events)
    ensures ReplayFrom(a, events).locks == ReplayFrom(NOTHING, events).locks + (a.locks - LockPathsIn(events))
  {
    if events != [] {
      LocksSplit(a, events[..|events| - 1]);
    }
  }

  /** Replaying a log in two parts: counters add up, visible sets unite, the later heads override the
      earlier ones, and a lock of the first part stays unless the second names its path. */
  lemma SplitReplayMerges(before: seq<Event>, after: seq<Event>)
    ensures Merged(ReplayFrom(NOTHING, before + after), ReplayFrom(NOTHING, before), ReplayFrom(NOTHING, after))
    ensures ReplayFrom(NOTHING, before + after).locks ==
            ReplayFrom(NOTHING, after).locks + (ReplayFrom(NOTHING, before).locks - LockPathsIn(after))
  {
    ReplayConcat(NOTHING, before, after);
    ReplayFromAny(ReplayFrom(NOTHING, before), after);
    LocksSplit(ReplayFrom(NOTHING, before), after);
  }

  /** A replay from a checkpoint starts from nothing, so it agrees with the full replay on a branch
      head exactly when an event after the checkpoint moved that head, or none ever did. */
  lemma CheckpointAgreesWhereTouched(before: seq<Event>, after: seq<Event>, key: string)
    ensures var full, part := ReplayFrom(NOTHING, before + after).heads, ReplayFrom(NOTHING, after).heads;
            (key in full <==> key in part) && (key in part ==> part[key] == full[key])
            <==> key in part || key !in ReplayFrom(NOTHING, before).heads
  {
    SplitReplayMerges(before, after);
  }
}
