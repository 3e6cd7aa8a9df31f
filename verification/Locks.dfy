/** File locks with leases, held in memory and, when there is a database, in a table as well. */
module Locks {
  import opened Prelude

  datatype FileLock = FileLock(path: string, owner: string, lockedAt: int, expires: Option<int>)

  type LockTable = map<string, FileLock>

  datatype LockError = HeldBy(owner: string) | NotLocked | NotOwner(owner: string) | LeaseExpired

  predicate Expired(lock: FileLock, now: int) {
    lock.expires.Some? && lock.expires.value <= now
  }

  /** A lease lasts at least thirty seconds. */
  function NextExpiry(lease: int, now: int): Option<int> {
    Some(now + Max(lease, 30))
  }

  /** How long a lease lasts, and whether locks are kept in a database. */
  datatype Settings = Settings(lease: int, persisted: bool)

  function Wanted(path: string, owner: string, conf: Settings, now: int): FileLock {
    FileLock(path, owner, now, NextExpiry(conf.lease, now))
  }

  // ---- effects and answers

  /** Whether a request takes a lock that exists: without a database only an expired one; the database also
      renews the owner's own and hands on one that has no expiry. */
  predicate Taken(lock: FileLock, owner: string, conf: Settings, now: int) {
    Expired(lock, now) || (conf.persisted && (lock.owner == owner || lock.expires.None?))
  }

  function AcquireEffect(t: LockTable, path: string, owner: string, conf: Settings, now: int): LockTable {
    if path in t && !Taken(t[path], owner, conf, now) then t else t[path := Wanted(path, owner, conf, now)]
  }

  function AcquireResult(t: LockTable, path: string, owner: string, conf: Settings, now: int)
    : Result<FileLock, LockError>
  {
    if path !in t || Taken(t[path], owner, conf, now) then Ok(Wanted(path, owner, conf, now))
    else if t[path].owner != owner then Err(HeldBy(t[path].owner))
    else Ok(t[path])
  }

  function RenewResult(t: LockTable, path: string, owner: string, conf: Settings, now: int)
    : Result<FileLock, LockError>
  {
    if path !in t then Err(NotLocked)
    else if t[path].owner != owner then Err(NotOwner(t[path].owner))
    else if Expired(t[path], now) then Err(LeaseExpired)
    else Ok(t[path].(expires := NextExpiry(conf.lease, now)))
  }

  /** Renewing an expired lock removes it. */
  function RenewEffect(t: LockTable, path: string, owner: string, conf: Settings, now: int): LockTable {
    var r := RenewResult(t, path, owner, conf, now);
    if r.Ok? then t[path := r.value]
    else if r.error == LeaseExpired then t - {path}
    else t
  }

  function UnlockResult(t: LockTable, path: string, owner: string): Result<(), LockError> {
    if path !in t then Err(NotLocked)
    else if t[path].owner != owner then Err(NotOwner(t[path].owner))
    else Ok(())
  }

  function UnlockEffect(t: LockTable, path: string, owner: string): LockTable {
    if UnlockResult(t, path, owner).Ok? then t - {path} else t
  }

  class LockManager {
    const conf: Settings
    var locks: LockTable
    /** The rows of the lock table, when there is a database. */
    var rows: LockTable

    /** Memory and table hold the same locks. */
    ghost predicate Valid()
      reads this
    {
      conf.persisted ==> rows == locks
    }

    /** With a database, the locks it holds are loaded. */
    constructor (conf: Settings, stored: LockTable)
      ensures Valid() && this.conf == conf && locks == if conf.persisted then stored else map[]
    {
      this.conf := conf;
      locks := if conf.persisted then stored else map[];
      rows := stored;
    }

    method TryLock(path: string, owner: string, now: int) returns (r: Result<FileLock, LockError>)
      requires Valid()
      modifies this
      ensures Valid() && locks == AcquireEffect(old(locks), path, owner, conf, now)
      ensures r == AcquireResult(old(locks), path, owner, conf, now)
    {
      var requested := FileLock(path, owner, now, NextExpiry(conf.lease, now));
      if conf.persisted {
        var effective := Upsert(requested, now);
        locks := locks[path := effective];
        if effective.owner != owner {
          return Err(HeldBy(effective.owner));
        }
        return Ok(effective);
      }
      if path in locks {
        var existing := locks[path];
        if Expired(existing, now) {
          locks := locks[path := requested];
          return Ok(requested);
        } else if existing.owner != owner {
          return Err(HeldBy(existing.owner));
        } else {
          return Ok(existing);
        }
      }
      locks := locks[path := requested];
      r := Ok(requested);
    }

    /** One statement: insert the row, or overwrite it if it is the owner's own, expired or without expiry;
        answer the row that is there then. */
    method Upsert(lock: FileLock, now: int) returns (effective: FileLock)
      modifies this`rows
      ensures rows == old(rows)[lock.path := effective]
      ensures effective ==
              if lock.path in old(rows) && !Expired(old(rows)[lock.path], now)
                 && old(rows)[lock.path].owner != lock.owner && old(rows)[lock.path].expires.Some?
              then old(rows)[lock.path] else lock
    {
      effective := lock;
      if lock.path in rows {
        var row := rows[lock.path];
        if !(row.owner == lock.owner || row.expires.None? || row.expires.value <= now) {
          effective := row;
        }
      }
      rows := rows[lock.path := effective];
    }

    method RenewLock(path: string, owner: string, now: int) returns (r: Result<FileLock, LockError>)
      requires Valid()
      modifies this
      ensures Valid() && locks == RenewEffect(old(locks), path, owner, conf, now)
      ensures r == RenewResult(old(locks), path, owner, conf, now)
    {
      if path !in locks {
        return Err(NotLocked);
      }
      var existing := locks[path];
      if existing.owner != owner {
        return Err(NotOwner(existing.owner));
      }
      if Expired(existing, now) {
        Delete(path);
        locks := locks - {path};
        return Err(LeaseExpired);
      }
      var renewed := existing.(expires := NextExpiry(conf.lease, now));
      if conf.persisted {
        rows := rows[path := renewed];
      }
      locks := locks[path := renewed];
      r := Ok(renewed);
    }

    method Delete(path: string)
      modifies this`rows
      ensures rows == if conf.persisted then old(rows) - {path} else old(rows)
    {
      if conf.persisted {
        rows := rows - {path};
      }
    }

    method Unlock(path: string, owner: string) returns (r: Result<(), LockError>)
      requires Valid()
      modifies this
      ensures Valid() && locks == UnlockEffect(old(locks), path, owner)
      ensures r == UnlockResult(old(locks), path, owner)
    {
      if path !in locks {
        return Err(NotLocked);
      }
      if locks[path].owner != owner {
        return Err(NotOwner(locks[path].owner));
      }
      Delete(path);
      locks := locks - {path};
      r := Ok(());
    }

    method ForceUnlock(path: string) returns (was: bool)
      requires Valid()
      modifies this
      ensures Valid() && locks == old(locks) - {path} && was == (path in old(locks))
    {
      Delete(path);
      was := path in locks;
      locks := locks - {path};
    }
  }

  // ---- exclusion over any run

  datatype LockOp =
    | Acquire(path: string, owner: string, now: int)
    | Renew(path: string, owner: string, now: int)
    | Unlock(path: string, owner: string, now: int)

  function LockStep(t: LockTable, op: LockOp, conf: Settings): LockTable {
    match op
    case Acquire(p, o, now) => AcquireEffect(t, p, o, conf, now)
    case Renew(p, o, now) => RenewEffect(t, p, o, conf, now)
    case Unlock(p, o, now) => UnlockEffect(t, p, o)
  }

  function LockRun(t: LockTable, ops: seq<LockOp>, conf: Settings): LockTable
    decreases |ops|
  {
    if ops == [] then t else LockRun(LockStep(t, ops[0], conf), ops[1..], conf)
  }

  /** Before its lease ends a lock cannot be taken, changed or removed by anyone but its owner. */
  lemma {:induction false} LeaseIsExclusive(t: LockTable, ops: seq<LockOp>, conf: Settings, path: string)
    requires path in t && (conf.persisted ==> t[path].expires.Some?)
    requires forall k :: 0 <= k < |ops| ==> !Expired(t[path], ops[k].now)
    requires forall k :: 0 <= k < |ops| ==> ops[k].path != path || ops[k].owner != t[path].owner
    ensures path in LockRun(t, ops, conf) && LockRun(t, ops, conf)[path] == t[path]
    decreases |ops|
  {
    if ops != [] {
      LeaseIsExclusive(LockStep(t, ops[0], conf), ops[1..], conf, path);
    }
  }

  /** Every lock that requests create or renew has an expiry. */
  lemma {:induction false} LeasesAlwaysExpire(t: LockTable, ops: seq<LockOp>, conf: Settings)
    requires forall p :: p in t ==> t[p].expires.Some?
    ensures forall p :: p in LockRun(t, ops, conf) ==> LockRun(t, ops, conf)[p].expires.Some?
    decreases |ops|
  {
    if ops != [] {
      LeasesAlwaysExpire(LockStep(t, ops[0], conf), ops[1..], conf);
    }
  }

  // ---- how long a lease lasts

  /** The clock value at which a lock that is taken or renewed at a time ends, unless it is renewed before. */
  function LeaseEnd(conf: Settings, now: int): int {
    now + if conf.lease < 30 then 30 else conf.lease
  }

  /** The lock ends at this time, or earlier. */
  predicate OverAt(lock: FileLock, now: int) {
    lock.expires.Some? && lock.expires.value <= now
  }

  /** The request takes the path, or extends the owner's live lock on it: with a database an own lock and one without
      expiry are taken anew. */
  predicate StartsLease(t: LockTable, op: LockOp, conf: Settings) {
    match op
    case Acquire(p, o, now) =>
      p !in t || OverAt(t[p], now) || (conf.persisted && (t[p].owner == o || t[p].expires.None?))
    case Renew(p, o, now) => p in t && t[p].owner == o && !OverAt(t[p], now)
    case Unlock(_, _, _) => false
  }

  /** What each request on a path is answered, and what it leaves there; other paths are not touched. */
  lemma RequestAnswers(t: LockTable, path: string, owner: string, conf: Settings, now: int)
    ensures AcquireResult(t, path, owner, conf, now) ==
            if StartsLease(t, Acquire(path, owner, now), conf)
            then Ok(FileLock(path, owner, now, Some(LeaseEnd(conf, now))))
            else if t[path].owner == owner then Ok(t[path]) else Err(HeldBy(t[path].owner))
    ensures LockStep(t, Acquire(path, owner, now), conf) ==
            if StartsLease(t, Acquire(path, owner, now), conf)
            then t[path := FileLock(path, owner, now, Some(LeaseEnd(conf, now)))] else t
    ensures RenewResult(t, path, owner, conf, now) ==
            if StartsLease(t, Renew(path, owner, now), conf)
            then Ok(t[path].(expires := Some(LeaseEnd(conf, now))))
            else Err(if path !in t then NotLocked else if t[path].owner != owner then NotOwner(t[path].owner)
                     else LeaseExpired)
    ensures LockStep(t, Renew(path, owner, now), conf) ==
            if StartsLease(t, Renew(path, owner, now), conf)
            then t[path := t[path].(expires := Some(LeaseEnd(conf, now)))]
            else if path in t && t[path].owner == owner then t - {path} else t
    ensures UnlockResult(t, path, owner) ==
            if path !in t then Err(NotLocked)
            else if t[path].owner != owner then Err(NotOwner(t[path].owner)) else Ok(())
    ensures LockStep(t, Unlock(path, owner, now), conf) ==
            if path in t && t[path].owner == owner then t - {path} else t
  {
  }

  /** The path is held under a lease that ends at a time. */
  predicate HeldUntil(t: LockTable, path: string, owner: string, end: int) {
    path in t && t[path].owner == owner && t[path].expires == Some(end)
  }

  lemma {:induction false} OthersWait(t: LockTable, ops: seq<LockOp>, conf: Settings, path: string, owner: string,
                                      end: int)
    requires HeldUntil(t, path, owner, end)
    requires forall k :: 0 <= k < |ops| ==> ops[k].now < end && (ops[k].path != path || ops[k].owner != owner)
    ensures HeldUntil(LockRun(t, ops, conf), path, owner, end)
    decreases |ops|
  {
    if ops != [] {
      RequestAnswers(t, ops[0].path, ops[0].owner, conf, ops[0].now);
      OthersWait(LockStep(t, ops[0], conf), ops[1..], conf, path, owner, end);
    }
  }

  /** A lease that is granted at a time, by taking the path or renewing the lock, lasts for the configured seconds,
      but at least thirty. Whatever others request before then, the lock is its owner's: they are refused, and the
      owner can renew it. From then on anyone is granted the path. */
  lemma LeaseLastsItsTime(t: LockTable, grant: LockOp, ops: seq<LockOp>, conf: Settings, other: string, now: int)
    requires StartsLease(t, grant, conf)
    requires forall k :: 0 <= k < |ops| ==> ops[k].now < LeaseEnd(conf, grant.now)
                                            && (ops[k].path != grant.path || ops[k].owner != grant.owner)
    ensures var after := LockRun(LockStep(t, grant, conf), ops, conf);
            && HeldUntil(after, grant.path, grant.owner, LeaseEnd(conf, grant.now))
            && (now < LeaseEnd(conf, grant.now) ==>
                  && RenewResult(after, grant.path, grant.owner, conf, now).Ok?
                  && (other != grant.owner ==>
                        AcquireResult(after, grant.path, other, conf, now) == Err(HeldBy(grant.owner))))
            && (now >= LeaseEnd(conf, grant.now) ==>
                  && RenewResult(after, grant.path, grant.owner, conf, now) == Err(LeaseExpired)
                  && AcquireResult(after, grant.path, other, conf, now) ==
                     Ok(FileLock(grant.path, other, now, Some(LeaseEnd(conf, now)))))
  {
    RequestAnswers(t, grant.path, grant.owner, conf, grant.now);
    OthersWait(LockStep(t, grant, conf), ops, conf, grant.path, grant.owner, LeaseEnd(conf, grant.now));
    var after := LockRun(LockStep(t, grant, conf), ops, conf);
    RequestAnswers(after, grant.path, grant.owner, conf, now);
    RequestAnswers(after, grant.path, other, conf, now);
  }
}
