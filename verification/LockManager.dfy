/** `LockManager` (`src/compiler/locking.rs`) and the proof that the unit-lock steps of the protocol
    are its operations. */
module LockManagers {
  import opened Units
  import opened Locking

  /** The operating system's lock table, shared by all processes. */
  class LockTable {
    var held: Held
  }

  datatype LockResult = Ok | StillWaiting | Missing

  /** One process's handles: for each unit the lock file that was opened. */
  class LockManager {
    const process: Process
    const table: LockTable
    var locks: map<UnitKey, nat>

    constructor (process: Process, table: LockTable)
      ensures this.process == process && this.table == table && locks == map[]
    {
      this.process, this.table, locks := process, table, map[];
    }

    /** The manager and the table are those of the process in the state. */
    ghost predicate Mirrors(s: State)
      reads this, table
    {
      table.held == s.held && locks == s.Of(process).handles
    }

    /** A registered handle is locked again; a new one is opened, without a lock on NFS. */
    method LockShared(key: UnitKey, gen: nat, onNfs: bool) returns (r: LockResult)
      modifies this`locks, table
      ensures key !in old(locks) ==>
        match ManagedOpen(old(table.held), process, old(locks), key, gen, onNfs)
        case None => r == StillWaiting && table.held == old(table.held) && locks == old(locks)
        case Some((held, handles)) => r == Ok && table.held == held && locks == handles
      ensures key in old(locks) ==> locks == old(locks) && r != Missing
    {
      if key in locks {
        r := Request(key, Shared);
        return;
      }
      var held := OpenLocked(table.held, process, UnitLock(key, gen), Shared, onNfs);
      if held.None? {
        return StillWaiting;
      }
      table.held := held.value;
      locks := locks[key := gen];
      r := Ok;
    }

    /** The operating system is asked for another lock on the handle. */
    method Request(key: UnitKey, mode: Mode) returns (r: LockResult)
      modifies table
      ensures match ManagedLock(old(table.held), process, locks, key, mode)
        case NotFound => r == Missing && table.held == old(table.held)
        case Waiting => r == StillWaiting && table.held == old(table.held)
        case Granted(held) => r == Ok && table.held == held
    {
      if key !in locks {
        return Missing;
      }
      var held := Acquire(table.held, process, UnitLock(key, locks[key]), mode);
      if held.None? {
        return StillWaiting;
      }
      table.held := held.value;
      r := Ok;
    }

    method Unlock(key: UnitKey)
      modifies table
      ensures table.held == ManagedUnlock(old(table.held), process, locks, key)
    {
      if key in locks {
        table.held := Release(table.held, process, UnitLock(key, locks[key]));
      }
    }

    method Lock(key: UnitKey) returns (r: LockResult)
      modifies table
      ensures match ManagedLock(old(table.held), process, locks, key, Exclusive)
        case NotFound => r == Missing && table.held == old(table.held)
        case Waiting => r == StillWaiting && table.held == old(table.held)
        case Granted(held) => r == Ok && table.held == held
    {
      r := Request(key, Exclusive);
    }

    /** Converting a lock drops the one there is before the other one is considered. */
    method DowngradeToShared(key: UnitKey) returns (r: LockResult)
      modifies table
      ensures var free := ManagedUnlock(old(table.held), process, locks, key);
        match ManagedLock(free, process, locks, key, Shared)
        case NotFound => r == Missing && table.held == free
        case Waiting => r == StillWaiting && table.held == free
        case Granted(held) => r == Ok && table.held == held
    {
      Unlock(key);
      r := Request(key, Shared);
    }
  }

  // ----- The protocol's steps are these operations -----

  /** A fine-grained build in a state of some run, about to do something with the unit. */
  ghost predicate AtUnit(sys: System, s: State, p: Process, u: UnitKey, phase: Phase, st: Status) {
    Inv(sys, s) && sys.config(p).fine && s.Of(p).phase == phase && s.Of(p).At(u) == st
  }

  /** The start of `compile`: the lock is taken exactly when the step is possible. */
  method PrepareUnit(sys: System, m: LockManager, ghost s: State, u: UnitKey, gen: nat) returns (r: LockResult)
    requires AtUnit(sys, s, m.process, u, Preparing, Untouched) && m.Mirrors(s) && gen == s.Gen(sys.dirOf(u))
    requires sys.config(m.process).role.Build? && sys.dirOf(u) in sys.config(m.process).dirs
    modifies m`locks, m.table
    ensures var t := Next(sys, s, Prepare(m.process, u));
      if r == Ok then t.Some? && m.Mirrors(t.value) else r == StillWaiting && t.None? && m.Mirrors(s)
  {
    assert ProcInv(sys, s.held, m.process, s.Of(m.process));
    r := m.LockShared(u, gen, sys.onNfs(sys.dirOf(u)));
  }

  /** A dirty job is enqueued: its shared lock is given up. */
  method EnqueueDirty(sys: System, m: LockManager, ghost s: State, u: UnitKey)
    requires AtUnit(sys, s, m.process, u, Preparing, Ready) && m.Mirrors(s) && !sys.runsScript(u)
    modifies m.table
    ensures var t := Next(sys, s, MarkDirty(m.process, u)); t.Some? && m.Mirrors(t.value)
  {
    m.Unlock(u);
  }

  /** The job asks for the exclusive lock before it runs; its handle is always there. */
  method LockForJob(sys: System, m: LockManager, ghost s: State, u: UnitKey) returns (r: LockResult)
    requires AtUnit(sys, s, m.process, u, Executing, Queued) && m.Mirrors(s)
    modifies m.table
    ensures r != Missing
    ensures var t := Next(sys, s, StartJob(m.process, u));
      if r == Ok then t.Some? && m.Mirrors(t.value) && t.value.Of(m.process).At(u).Running? else t.None? && m.Mirrors(s)
  {
    assert ProcInv(sys, s.held, m.process, s.Of(m.process));
    assert UnitInv(sys, s.held, m.process, s.Of(m.process), u, Queued);
    r := m.Lock(u);
  }

  lemma Finished(sys: System, s: State, p: Process, u: UnitKey)
    requires sys.config(p).fine && s.Of(p).phase.Executing? && s.Of(p).At(u).Running?
    ensures var t := Next(sys, s, FinishJob(p, u));
      t.Some? && t.value.held == ManagedUnlock(s.held, p, s.Of(p).handles, u) && t.value.Of(p) == s.Of(p).With(u, Finishing)
  {}

  lemma Shares(sys: System, s: State, p: Process, u: UnitKey)
    requires s.Of(p).phase.Executing? && s.Of(p).At(u).Finishing? && u in s.Of(p).handles
    ensures var t := Next(sys, s, ShareResult(p, u));
      match ManagedLock(s.held, p, s.Of(p).handles, u, Shared)
      case NotFound => false
      case Waiting => t.None?
      case Granted(held) => t.Some? && t.value.held == held && t.value.Of(p).handles == s.Of(p).handles
  {}

  /** After the job the lock becomes shared: in one go, or with a wait in between. */
  method ShareAfterJob(sys: System, m: LockManager, ghost s: State, u: UnitKey) returns (r: LockResult)
    requires AtUnit(sys, s, m.process, u, Executing, Running) && m.Mirrors(s)
    modifies m.table
    ensures r != Missing
    ensures var t := Next(sys, s, FinishJob(m.process, u));
      && t.Some?
      && var t' := Next(sys, t.value, ShareResult(m.process, u));
         if r == Ok then t'.Some? && m.Mirrors(t'.value) else t'.None? && m.Mirrors(t.value)
  {
    assert ProcInv(sys, s.held, m.process, s.Of(m.process));
    assert UnitInv(sys, s.held, m.process, s.Of(m.process), u, Running);
    Finished(sys, s, m.process, u);
    Shares(sys, Next(sys, s, FinishJob(m.process, u)).value, m.process, u);
    r := m.DowngradeToShared(u);
  }

  /** A job that waited asks again. */
  method ShareAgain(sys: System, m: LockManager, ghost s: State, u: UnitKey) returns (r: LockResult)
    requires AtUnit(sys, s, m.process, u, Executing, Finishing) && m.Mirrors(s)
    modifies m.table
    ensures r != Missing
    ensures var t := Next(sys, s, ShareResult(m.process, u));
      if r == Ok then t.Some? && m.Mirrors(t.value) else t.None? && m.Mirrors(s)
  {
    assert ProcInv(sys, s.held, m.process, s.Of(m.process));
    assert UnitInv(sys, s.held, m.process, s.Of(m.process), u, Finishing);
    assert ManagedUnlock(s.held, m.process, m.locks, u) == s.held;
    Shares(sys, s, m.process, u);
    r := m.DowngradeToShared(u);
  }
}
