/** The fixed-window rate limiter. Each call may read the clock up to three times: when it creates the
    bucket's window, when it checks the window's age, and when it restarts the window. */
module RateLimiters {
  import opened Prelude

  /** Clock readings are nanoseconds. */
  const MINUTE := 60_000_000_000

  datatype Window = Window(startedAt: int, used: nat)

  type Windows = map<string, Window>

  datatype Call = Call(bucket: string, created: int, checked: int, restarted: int)

  /** The window the call decides on, after creating or restarting it if need be. */
  function Current(ws: Windows, c: Call): Window {
    if c.bucket !in ws then Aged(Window(c.created, 0), c)
    else Aged(ws[c.bucket], c)
  }

  function Aged(w: Window, c: Call): Window {
    if c.checked - w.startedAt >= MINUTE then Window(c.restarted, 0) else w
  }

  predicate Admits(ws: Windows, c: Call, limit: nat) {
    limit == 0 || Current(ws, c).used < limit
  }

  function After(ws: Windows, c: Call, limit: nat): Windows {
    if limit == 0 then ws
    else
      var w := Current(ws, c);
      ws[c.bucket := if w.used < limit then w.(used := w.used + 1) else w]
  }

  class RateLimiter {
    const maxRequestsPerMinute: nat
    var buckets: Windows

    constructor (max: nat)
      ensures maxRequestsPerMinute == max && buckets == map[]
    {
      maxRequestsPerMinute, buckets := max, map[];
    }

    method Allow(bucket: string, created: int, checked: int, restarted: int) returns (r: bool)
      modifies this
      ensures r == Admits(old(buckets), Call(bucket, created, checked, restarted), maxRequestsPerMinute)
      ensures buckets == After(old(buckets), Call(bucket, created, checked, restarted), maxRequestsPerMinute)
    {
      if maxRequestsPerMinute == 0 {
        return true;
      }
      if bucket !in buckets {
        buckets := buckets[bucket := Window(created, 0)];
      }
      var window := buckets[bucket];
      if checked - window.startedAt >= MINUTE {
        window := Window(restarted, 0);
      }
      r := window.used < maxRequestsPerMinute;
      if r {
        window := window.(used := window.used + 1);
      }
      buckets := buckets[bucket := window];
    }
  }

  /** A call is refused exactly if there is a limit and its bucket's window is younger than 60 seconds and full. One
      that is admitted is counted, in that window or in one that it starts; no other bucket changes. */
  lemma CallAnswers(ws: Windows, c: Call, limit: nat)
    ensures limit == 0 ==> Admits(ws, c, limit) && After(ws, c, limit) == ws
    ensures limit > 0 ==>
              var start, used := if c.bucket in ws then ws[c.bucket].startedAt else c.created,
                                 if c.bucket in ws then ws[c.bucket].used else 0;
              var young := c.checked - start < 60 * 1_000_000_000;
              && (Admits(ws, c, limit) <==> !(young && used >= limit))
              && After(ws, c, limit) ==
                 (if young && used >= limit then ws
                  else ws[c.bucket := if young then Window(start, used + 1) else Window(c.restarted, 1)])
  {
  }

  // ---- runs

  /** Calls are serialised, and the clock never goes back, within a call or from one to the next. */
  ghost predicate Ordered(calls: seq<Call>) {
    && (forall k :: 0 <= k < |calls| ==> calls[k].created <= calls[k].checked <= calls[k].restarted)
    && (forall j, k :: 0 <= j < k < |calls| ==> calls[j].restarted <= calls[k].created)
  }

  function WindowsAfter(calls: seq<Call>, limit: nat): Windows {
    if calls == [] then map[]
    else After(WindowsAfter(calls[..|calls| - 1], limit), Last(calls), limit)
  }

  /** How many calls on the bucket were admitted with a check reading in the given set of times. */
  function Admitted(calls: seq<Call>, limit: nat, bucket: string, times: int -> bool): nat {
    if calls == [] then 0
    else
      var front, c := calls[..|calls| - 1], Last(calls);
      Admitted(front, limit, bucket, times)
      + if c.bucket == bucket && times(c.checked) && Admits(WindowsAfter(front, limit), c, limit) then 1 else 0
  }

  function Since(lo: int): int -> bool {
    t => lo <= t
  }

  function Between(lo: int, hi: int): int -> bool {
    t => lo <= t < hi
  }

  /** The closed minute that starts at a time. */
  function MinuteFrom(lo: int): int -> bool {
    t => lo <= t <= lo + 60 * 1_000_000_000
  }

  /** Whether a call starts a window: by creating it, or by finding the old one aged. */
  predicate Starts(ws: Windows, c: Call) {
    c.bucket !in ws || c.checked - ws[c.bucket].startedAt >= MINUTE
  }

  /** The check reading of the call that started the bucket's current window. */
  function FirstCheck(calls: seq<Call>, limit: nat, bucket: string): int {
    if calls == [] then 0
    else
      var front, c := calls[..|calls| - 1], Last(calls);
      if c.bucket == bucket && Starts(WindowsAfter(front, limit), c) then c.checked
      else FirstCheck(front, limit, bucket)
  }

  // ---- counting

  /** Two sets of times that together cover a third, as far as calls on the bucket go, admit as many. */
  lemma {:induction false} CoveredCountsLess(calls: seq<Call>, limit: nat, bucket: string,
                                             p: int -> bool, q: int -> bool, r: int -> bool)
    requires forall k {:trigger calls[k]} :: 0 <= k < |calls| && calls[k].bucket == bucket && p(calls[k].checked) ==>
               q(calls[k].checked) || r(calls[k].checked)
    ensures Admitted(calls, limit, bucket, p) <= Admitted(calls, limit, bucket, q) + Admitted(calls, limit, bucket, r)
  {
    if calls != [] {
      var front := calls[..|calls| - 1];
      assert forall k :: 0 <= k < |front| ==> front[k] == calls[k];
      assert Last(calls) == calls[|calls| - 1];
      CoveredCountsLess(front, limit, bucket, p, q, r);
    }
  }

  lemma {:induction false} NoneInTimes(calls: seq<Call>, limit: nat, bucket: string, p: int -> bool)
    requires forall k {:trigger calls[k]} :: 0 <= k < |calls| && calls[k].bucket == bucket ==> !p(calls[k].checked)
    ensures Admitted(calls, limit, bucket, p) == 0
  {
    if calls != [] {
      var front := calls[..|calls| - 1];
      assert forall k :: 0 <= k < |front| ==> front[k] == calls[k];
      assert Last(calls) == calls[|calls| - 1];
      NoneInTimes(front, limit, bucket, p);
    }
  }

  // ---- one window

  /** What the bucket's window says about the bucket's calls: `used` counts the admissions since the window's
      first call, every call came within a minute of its start, and the start is not before the first call
      unless no call came before. */
  ghost predicate WindowHolds(calls: seq<Call>, limit: nat, bucket: string) {
    var ws, f := WindowsAfter(calls, limit), FirstCheck(calls, limit, bucket);
    if bucket !in ws then forall k {:trigger calls[k]} :: 0 <= k < |calls| ==> calls[k].bucket != bucket
    else
      && ws[bucket].used == Admitted(calls, limit, bucket, Since(f)) && ws[bucket].used <= limit
      && (forall k {:trigger calls[k]} :: 0 <= k < |calls| && calls[k].bucket == bucket ==>
            calls[k].checked < ws[bucket].startedAt + MINUTE)
      && (f <= ws[bucket].startedAt
          || forall k {:trigger calls[k]} :: 0 <= k < |calls| && calls[k].bucket == bucket ==> f <= calls[k].checked)
      && (exists k :: 0 <= k < |calls| && calls[k].bucket == bucket && calls[k].checked == f)
  }

  lemma FrontIsOrdered(calls: seq<Call>)
    requires Ordered(calls) && calls != []
    ensures Ordered(calls[..|calls| - 1])
  {
  }

  lemma OtherBucketKeepsWindow(calls: seq<Call>, limit: nat, bucket: string)
    requires calls != [] && limit > 0 && Last(calls).bucket != bucket
    requires WindowHolds(calls[..|calls| - 1], limit, bucket)
    ensures WindowHolds(calls, limit, bucket)
  {
    var front := calls[..|calls| - 1];
    assert forall k :: 0 <= k < |front| ==> front[k] == calls[k];
    assert Last(calls) == calls[|calls| - 1];
    if bucket in WindowsAfter(front, limit) {
      var k :| 0 <= k < |front| && front[k].bucket == bucket && front[k].checked == FirstCheck(front, limit, bucket);
      assert calls[k] == front[k];
    }
  }

  lemma NewWindowHolds(calls: seq<Call>, limit: nat)
    requires Ordered(calls) && calls != [] && limit > 0
    requires WindowHolds(calls[..|calls| - 1], limit, Last(calls).bucket)
    requires Starts(WindowsAfter(calls[..|calls| - 1], limit), Last(calls))
    ensures WindowHolds(calls, limit, Last(calls).bucket)
  {
    var front, c := calls[..|calls| - 1], Last(calls);
    assert forall k :: 0 <= k < |front| ==> front[k] == calls[k];
    assert c == calls[|calls| - 1];
    NoneInTimes(front, limit, c.bucket, Since(c.checked));
  }

  lemma OldWindowHolds(calls: seq<Call>, limit: nat)
    requires Ordered(calls) && calls != [] && limit > 0
    requires WindowHolds(calls[..|calls| - 1], limit, Last(calls).bucket)
    requires !Starts(WindowsAfter(calls[..|calls| - 1], limit), Last(calls))
    ensures WindowHolds(calls, limit, Last(calls).bucket)
  {
    var front, c := calls[..|calls| - 1], Last(calls);
    assert forall k :: 0 <= k < |front| ==> front[k] == calls[k];
    assert c == calls[|calls| - 1];
    var k :| 0 <= k < |front| && front[k].bucket == c.bucket && front[k].checked == FirstCheck(front, limit, c.bucket);
    assert calls[k] == front[k];
  }

  lemma {:induction false} WindowsAlwaysHold(calls: seq<Call>, limit: nat, bucket: string)
    requires Ordered(calls) && limit > 0
    ensures WindowHolds(calls, limit, bucket)
  {
    if calls != [] {
      FrontIsOrdered(calls);
      WindowsAlwaysHold(calls[..|calls| - 1], limit, bucket);
      if Last(calls).bucket != bucket {
        OtherBucketKeepsWindow(calls, limit, bucket);
      } else if Starts(WindowsAfter(calls[..|calls| - 1], limit), Last(calls)) {
        NewWindowHolds(calls, limit);
      } else {
        OldWindowHolds(calls, limit);
      }
    }
  }

  /** At most `limit` calls are admitted per window, at every moment of every run. */
  lemma WindowAdmitsAtMostLimit(calls: seq<Call>, limit: nat, bucket: string)
    requires Ordered(calls) && limit > 0 && bucket in WindowsAfter(calls, limit)
    ensures Admitted(calls, limit, bucket, Since(FirstCheck(calls, limit, bucket))) <= limit
  {
    WindowsAlwaysHold(calls, limit, bucket);
  }

  /** A call is refused only in a window that is less than a minute old and has admitted `limit` calls. */
  lemma RefusedMeansFull(calls: seq<Call>, c: Call, limit: nat)
    requires Ordered(calls) && limit > 0 && !Admits(WindowsAfter(calls, limit), c, limit)
    ensures c.bucket in WindowsAfter(calls, limit)
    ensures c.checked < WindowsAfter(calls, limit)[c.bucket].startedAt + MINUTE
    ensures Admitted(calls, limit, c.bucket, Since(FirstCheck(calls, limit, c.bucket))) == limit
  {
    WindowsAlwaysHold(calls, limit, c.bucket);
  }

  // ---- any minute

  /** Before the current window, a minute that reaches it admitted at most `limit`. */
  lemma {:induction false} EarlierPartOfMinute(calls: seq<Call>, limit: nat, bucket: string, start: int)
    requires Ordered(calls) && limit > 0 && bucket in WindowsAfter(calls, limit)
    requires FirstCheck(calls, limit, bucket) <= start + MINUTE
    ensures Admitted(calls, limit, bucket, Between(start, FirstCheck(calls, limit, bucket))) <= limit
  {
    var front, c := calls[..|calls| - 1], Last(calls);
    FrontIsOrdered(calls);
    WindowsAlwaysHold(front, limit, bucket);
    var f, ws := FirstCheck(front, limit, bucket), WindowsAfter(front, limit);
    assert forall k :: 0 <= k < |front| ==> front[k] == calls[k];
    if c.bucket != bucket || !Starts(ws, c) {
      EarlierPartOfMinute(front, limit, bucket, start);
      if c.bucket == bucket {
        var k :| 0 <= k < |front| && front[k].bucket == bucket && front[k].checked == f;
        assert calls[k] == front[k] && c == calls[|calls| - 1];
      }
    } else if bucket in ws {
      CoveredCountsLess(front, limit, bucket, Between(start, c.checked), Since(f), Never());
      NoneInTimes(front, limit, bucket, Never());
    } else {
      NoneInTimes(front, limit, bucket, Between(start, c.checked));
    }
  }

  function Never(): int -> bool {
    t => false
  }

  /** In any run, any 60 seconds, ends included, admit at most twice the limit on a bucket. */
  lemma {:induction false} AnyMinuteAdmitsAtMostTwice(calls: seq<Call>, limit: nat, bucket: string, start: int)
    requires Ordered(calls) && limit > 0
    ensures Admitted(calls, limit, bucket, MinuteFrom(start)) <= 2 * limit
  {
    if calls != [] {
      var front, c := calls[..|calls| - 1], Last(calls);
      FrontIsOrdered(calls);
      AnyMinuteAdmitsAtMostTwice(front, limit, bucket, start);
      if c.bucket == bucket && start <= c.checked <= start + MINUTE {
        var f := FirstCheck(calls, limit, bucket);
        WindowsAlwaysHold(calls, limit, bucket);
        FirstCheckIsPast(calls, limit, bucket);
        EarlierPartOfMinute(calls, limit, bucket, start);
        CoveredCountsLess(calls, limit, bucket, MinuteFrom(start), Between(start, f), Since(f));
      }
    }
  }

  lemma FirstCheckIsPast(calls: seq<Call>, limit: nat, bucket: string)
    requires Ordered(calls) && calls != [] && WindowHolds(calls, limit, bucket) && bucket in WindowsAfter(calls, limit)
    ensures FirstCheck(calls, limit, bucket) <= Last(calls).checked
  {
    var k :| 0 <= k < |calls| && calls[k].bucket == bucket && calls[k].checked == FirstCheck(calls, limit, bucket);
    assert Last(calls) == calls[|calls| - 1];
  }

  function CallAt(t: int): Call {
    Call("b", t, t, t)
  }

  /** `limit` calls at time zero, then calls a minute later. */
  predicate IsBurst(calls: seq<Call>, limit: nat) {
    forall k :: 0 <= k < |calls| ==> calls[k] == CallAt(if k < limit then 0 else MINUTE)
  }

  function BurstWindows(limit: nat, n: nat): Windows {
    if n == 0 then map[]
    else if n <= limit then map["b" := Window(0, n)]
    else map["b" := Window(MINUTE, n - limit)]
  }

  lemma BurstStep(limit: nat, n: nat)
    requires 0 < limit && 0 < n <= 2 * limit
    ensures var ws, c := BurstWindows(limit, n - 1), CallAt(if n <= limit then 0 else MINUTE);
            Admits(ws, c, limit) && After(ws, c, limit) == BurstWindows(limit, n)
  {
  }

  lemma {:induction false} BurstIsAdmitted(calls: seq<Call>, limit: nat)
    requires 0 < limit && |calls| <= 2 * limit && IsBurst(calls, limit)
    ensures WindowsAfter(calls, limit) == BurstWindows(limit, |calls|)
    ensures Admitted(calls, limit, "b", MinuteFrom(0)) == |calls|
  {
    if calls != [] {
      BurstIsAdmitted(calls[..|calls| - 1], limit);
      BurstStep(limit, |calls|);
      assert Last(calls) == calls[|calls| - 1];
    }
  }

  /** For every limit, twice the limit can be admitted within one minute: a full window at its start and the
      next one at its end. */
  lemma TwiceTheLimitIsReached(limit: nat) returns (calls: seq<Call>)
    requires limit > 0
    ensures Ordered(calls) && Admitted(calls, limit, "b", MinuteFrom(0)) == 2 * limit
  {
    calls := seq(2 * limit, k => CallAt(if k < limit then 0 else MINUTE));
    BurstIsAdmitted(calls, limit);
  }

  // ---- buckets do not disturb each other

  function Only(calls: seq<Call>, bucket: string): seq<Call> {
    if calls == [] then []
    else Only(calls[..|calls| - 1], bucket) + if Last(calls).bucket == bucket then [Last(calls)] else []
  }

  /** A bucket's window, and so the next verdict on it, is what the bucket's own calls alone would make it. */
  lemma {:induction false} BucketsAreIndependent(calls: seq<Call>, limit: nat, bucket: string, next: Call)
    requires next.bucket == bucket
    ensures bucket in WindowsAfter(calls, limit) <==> bucket in WindowsAfter(Only(calls, bucket), limit)
    ensures bucket in WindowsAfter(calls, limit) ==>
              WindowsAfter(calls, limit)[bucket] == WindowsAfter(Only(calls, bucket), limit)[bucket]
    ensures Admits(WindowsAfter(calls, limit), next, limit)
         == Admits(WindowsAfter(Only(calls, bucket), limit), next, limit)
  {
    if calls != [] {
      var front, c := calls[..|calls| - 1], Last(calls);
      BucketsAreIndependent(front, limit, bucket, next);
      if c.bucket == bucket {
        var own := Only(calls, bucket);
        assert own[..|own| - 1] == Only(front, bucket) && Last(own) == c;
      } else {
        assert Only(calls, bucket) == Only(front, bucket);
      }
    }
  }
}
