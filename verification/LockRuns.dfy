/** When the build locks fail to protect a unit, exactly: runs that show it, and the converse. */
module LockRuns {
  import opened Units
  import opened Locking

  ghost predicate Reach(sys: System, s: State, t: State) {
    exists steps :: Run(sys, s, steps) == Some(t)
  }

  lemma {:induction false} RunConcat(sys: System, s: State, a: seq<Step>, b: seq<Step>, t: State)
    requires Run(sys, s, a) == Some(t)
    ensures Run(sys, s, a + b) == Run(sys, t, b)
  {
    if b == [] {
      assert a + b == a;
    } else {
      assert (a + b)[..|a + b| - 1] == a + b[..|b| - 1];
      RunConcat(sys, s, a, b[..|b| - 1], t);
    }
  }

  lemma ReachTrans(sys: System, r: State, s: State, t: State)
    requires Reach(sys, r, s) && Reach(sys, s, t)
    ensures Reach(sys, r, t)
  {
    var a :| Run(sys, r, a) == Some(s);
    var b :| Run(sys, s, b) == Some(t);
    RunConcat(sys, r, a, b, s);
    assert Run(sys, r, a + b) == Some(t);
  }

  lemma ReachStep(sys: System, r: State, s: State, step: Step, t: State)
    requires Reach(sys, r, s) && Next(sys, s, step) == Some(t)
    ensures Reach(sys, r, t)
  {
    var a :| Run(sys, r, a) == Some(s);
    assert (a + [step])[..|a|] == a;
    assert Run(sys, r, a + [step]) == Some(t);
  }

  /** From `s` to `t` only `q` did something, and it changed no files. */
  ghost predicate Aside(sys: System, s: State, t: State, q: Process) {
    && Reach(sys, s, t)
    && (forall r | r != q :: t.Of(r) == s.Of(r) && (r in t.procs <==> r in s.procs) && SameLocks(s.held, t.held, r))
    && t.writes == s.writes && t.gens == s.gens
  }

  lemma AsideSelf(sys: System, s: State, q: Process)
    ensures Aside(sys, s, s, q)
  {
    assert Run(sys, s, []) == Some(s);
  }

  predicate Silent(step: Step) {
    !step.Write? && !step.RunScript? && !step.Clean? && !step.Wipe?
  }

  lemma SilentKeepsFiles(sys: System, s: State, step: Step, t: State)
    requires Next(sys, s, step) == Some(t) && Silent(step)
    ensures t.writes == s.writes && t.gens == s.gens
  {
    if step.OpenDir? {
      OpenDirFrame(sys, s, step.p, step.dir);
    } else if step.Prepare? {
      PrepareFrame(sys, s, step.p, step.u);
    } else if step.Exit? {
      LeftFrame(s, step.p);
    } else if IsJobStep(step) {
      JobStepFrame(sys, s, step, t);
    }
  }

  lemma OthersStandStill(sys: System, s: State, step: Step, t: State, x: Process)
    requires Next(sys, s, step) == Some(t) && x != step.p
    ensures t.Of(x) == s.Of(x) && (x in t.procs <==> x in s.procs) && SameLocks(s.held, t.held, x)
  {
    StepIsOwn(sys, s, step, t);
    OwnChangeFrame(s.held, t.held, step.p, x);
  }

  lemma AsideStep(sys: System, r: State, s: State, step: Step, t: State)
    requires Aside(sys, r, s, step.p) && Next(sys, s, step) == Some(t) && Silent(step)
    ensures Aside(sys, r, t, step.p)
  {
    ReachStep(sys, r, s, step, t);
    SilentKeepsFiles(sys, s, step, t);
    forall x | x != step.p ensures t.Of(x) == s.Of(x) && (x in t.procs <==> x in s.procs) && SameLocks(s.held, t.held, x) {
      OthersStandStill(sys, s, step, t, x);
    }
  }

  // ----- The way to a job -----

  /** Nobody stands in the way of `q` opening the directory. */
  predicate MayOpen(sys: System, s: State, q: Process, d: Dir) {
    sys.onNfs(d) || Grantable(s.held, q, BuildLock(d, s.Gen(d)), sys.config(q).DirMode())
  }

  /** All that `q` holds: its directories, in its mode, and the unit, on the lock files that are there. */
  ghost predicate Footprint(sys: System, s: State, q: Process, u: UnitKey) {
    forall f | (q, f) in s.held :: OwnFile(sys, s, q, u, f)
  }

  ghost predicate OwnFile(sys: System, s: State, q: Process, u: UnitKey, f: File)
    requires (q, f) in s.held
  {
    match f
    case BuildLock(e, g) => g == s.Gen(e) && e in sys.config(q).dirs && !sys.onNfs(e) && s.held[(q, f)] == sys.config(q).DirMode()
    case UnitLock(k, g) => k == u && g == s.Gen(sys.dirOf(u)) && sys.config(q).fine
  }

  lemma GrantableAside(held: Held, held': Held, q: Process, f: File, mode: Mode)
    requires Grantable(held, q, f, mode) && forall r | r != q :: SameLocks(held, held', r)
    ensures Grantable(held', q, f, mode)
  {
    forall k | k in held' && k.1 == f && k.0 != q ensures mode.Shared? && held'[k].Shared? {
      assert SameLocks(held, held', k.0) && (k.0, f) in held;
    }
  }

  /** A process that is opening its directories and has `rest` still to open. */
  ghost predicate Entering(sys: System, s: State, q: Process, rest: set<Dir>) {
    var p := s.Of(q);
    && p.phase.Opening? && p.handles == map[] && p.status == map[]
    && p.entered.Keys + rest == sys.config(q).dirs && p.entered.Keys !! rest
  }

  lemma OpensOne(sys: System, r: State, s: State, q: Process, u: UnitKey, rest: set<Dir>, d: Dir) returns (t: State)
    requires Aside(sys, r, s, q) && Entering(sys, s, q, rest) && d in rest && !sys.config(q).role.CleanAll?
    requires MayOpen(sys, r, q, d) && Footprint(sys, s, q, u)
    ensures Aside(sys, r, t, q) && Entering(sys, t, q, rest - {d}) && Footprint(sys, t, q, u)
    ensures forall f: File | f.UnitLock? :: (q, f) in t.held <==> (q, f) in s.held
  {
    if !sys.onNfs(d) {
      GrantableAside(r.held, s.held, q, BuildLock(d, s.Gen(d)), sys.config(q).DirMode());
    }
    t := OpenDirStep(sys, s, q, d).value;
    AsideStep(sys, r, s, OpenDir(q, d), t);
    OpenedFootprint(sys, s, q, u, d);
  }

  lemma OpenedFootprint(sys: System, s: State, q: Process, u: UnitKey, d: Dir)
    requires OpenDirStep(sys, s, q, d).Some? && Footprint(sys, s, q, u)
    ensures var t := OpenDirStep(sys, s, q, d).value;
      && Footprint(sys, t, q, u) && t.Of(q) == s.Of(q).(entered := s.Of(q).entered[d := s.Gen(d)])
      && forall f: File | f.UnitLock? :: (q, f) in t.held <==> (q, f) in s.held
  {}

  lemma {:induction false} OpensRest(sys: System, r: State, s: State, q: Process, u: UnitKey, rest: set<Dir>) returns (t: State)
    requires Aside(sys, r, s, q) && Entering(sys, s, q, rest) && !sys.config(q).role.CleanAll? && Footprint(sys, s, q, u)
    requires forall d | d in rest :: MayOpen(sys, r, q, d)
    ensures Aside(sys, r, t, q) && Entering(sys, t, q, {}) && Footprint(sys, t, q, u)
    ensures forall f: File | f.UnitLock? :: (q, f) in t.held <==> (q, f) in s.held
    decreases rest
  {
    if rest == {} {
      t := s;
    } else {
      var d :| d in rest;
      var s1 := OpensOne(sys, r, s, q, u, rest, d);
      t := OpensRest(sys, r, s1, q, u, rest - {d});
    }
  }

  /** A process that has not started, with nobody in the way of its directories. */
  ghost predicate MayStart(sys: System, s: State, q: Process) {
    && q !in s.procs && (forall f :: (q, f) !in s.held) && !sys.config(q).role.CleanAll?
    && forall d | d in sys.config(q).dirs :: MayOpen(sys, s, q, d)
  }

  lemma Opens(sys: System, s: State, q: Process, u: UnitKey) returns (t: State)
    requires MayStart(sys, s, q)
    ensures Aside(sys, s, t, q) && t.Of(q).phase.Preparing? && t.Of(q).handles == map[] && t.Of(q).status == map[]
    ensures Footprint(sys, t, q, u) && forall f: File | f.UnitLock? :: (q, f) !in t.held
  {
    AsideSelf(sys, s, q);
    var s1 := OpensRest(sys, s, s, q, u, sys.config(q).dirs);
    t := s1.WithProc(q, s1.Of(q).(phase := Preparing));
    assert Next(sys, s1, StartPreparing(q)) == Some(t);
    AsideStep(sys, s, s1, StartPreparing(q), t);
  }

  /** A build in the middle of preparing, at a unit it has not looked at. */
  ghost predicate About(sys: System, s: State, q: Process, u: UnitKey) {
    && s.Of(q).phase.Preparing? && sys.config(q).role.Build? && sys.dirOf(u) in sys.config(q).dirs && u !in s.Of(q).status
    && Footprint(sys, s, q, u)
  }

  function LockOf(sys: System, s: State, u: UnitKey): File {
    UnitLock(u, s.Gen(sys.dirOf(u)))
  }

  lemma Prepares(sys: System, r: State, s: State, q: Process, u: UnitKey) returns (t: State)
    requires Aside(sys, r, s, q) && About(sys, s, q, u)
    requires sys.config(q).fine && !sys.onNfs(sys.dirOf(u)) ==> Grantable(s.held, q, LockOf(sys, s, u), Shared)
    ensures Aside(sys, r, t, q) && t.Of(q).phase.Preparing? && t.Of(q).At(u).Ready? && Footprint(sys, t, q, u)
    ensures sys.config(q).fine ==> u in t.Of(q).handles && t.Of(q).handles[u] == s.Gen(sys.dirOf(u))
    ensures sys.config(q).fine && !sys.onNfs(sys.dirOf(u)) ==> (q, LockOf(sys, s, u)) in t.held && t.held[(q, LockOf(sys, s, u))] == Shared
  {
    t := PrepareStep(sys, s, q, u).value;
    AsideStep(sys, r, s, Prepare(q, u), t);
  }

  lemma Executes(sys: System, r: State, s: State, q: Process, u: UnitKey) returns (t: State)
    requires Aside(sys, r, s, q) && s.Of(q).phase.Preparing? && Footprint(sys, s, q, u)
    ensures Aside(sys, r, t, q) && t.Of(q) == s.Of(q).(phase := Executing) && t.held == s.held && Footprint(sys, t, q, u)
  {
    t := s.WithProc(q, s.Of(q).(phase := Executing));
    assert Next(sys, s, StartExecuting(q)) == Some(t);
    AsideStep(sys, r, s, StartExecuting(q), t);
  }

  lemma Queues(sys: System, r: State, s: State, q: Process, u: UnitKey) returns (t: State)
    requires Aside(sys, r, s, q) && s.Of(q).phase.Preparing? && s.Of(q).At(u).Ready? && !sys.runsScript(u) && Footprint(sys, s, q, u)
    ensures Aside(sys, r, t, q) && t.Of(q) == s.Of(q).With(u, Queued) && Footprint(sys, t, q, u)
  {
    t := MarkDirtyStep(sys, s, q, u).value;
    AsideStep(sys, r, s, MarkDirty(q, u), t);
  }

  /** A build that has not started, with nobody in the way of compiling the unit. */
  ghost predicate MayCompile(sys: System, s: State, q: Process, u: UnitKey) {
    && MayStart(sys, s, q) && sys.dirOf(u) in sys.config(q).dirs && sys.config(q).role.Build? && !sys.runsScript(u)
    && (sys.config(q).fine ==> Grantable(s.held, q, LockOf(sys, s, u), Exclusive))
  }

  lemma GetsToQueue(sys: System, s: State, q: Process, u: UnitKey) returns (t: State)
    requires MayCompile(sys, s, q, u)
    ensures Aside(sys, s, t, q) && t.Of(q).phase.Executing? && t.Of(q).At(u).Queued? && Footprint(sys, t, q, u)
    ensures sys.config(q).fine ==> u in t.Of(q).handles && t.Of(q).handles[u] == s.Gen(sys.dirOf(u))
  {
    var s1 := Opens(sys, s, q, u);
    if sys.config(q).fine {
      GrantableAside(s.held, s1.held, q, LockOf(sys, s, u), Exclusive);
      assert Grantable(s1.held, q, LockOf(sys, s, u), Shared);
    }
    var s2 := Prepares(sys, s, s1, q, u);
    var s3 := Queues(sys, s, s2, q, u);
    t := Executes(sys, s, s3, q, u);
  }

  lemma StartsJob(sys: System, r: State, s: State, q: Process, u: UnitKey) returns (t: State)
    requires Aside(sys, r, s, q) && s.Of(q).phase.Executing? && s.Of(q).At(u).Queued? && Footprint(sys, s, q, u)
    requires sys.config(q).fine ==>
      u in s.Of(q).handles && s.Of(q).handles[u] == r.Gen(sys.dirOf(u)) && Grantable(r.held, q, LockOf(sys, r, u), Exclusive)
    ensures Aside(sys, r, t, q) && t.Of(q) == s.Of(q).With(u, Running) && Footprint(sys, t, q, u)
    ensures sys.config(q).fine ==> Grantable(t.held, q, LockOf(sys, r, u), Exclusive)
  {
    if sys.config(q).fine {
      GrantableAside(r.held, s.held, q, LockOf(sys, r, u), Exclusive);
    }
    t := StartJobStep(sys, s, q, u).value;
    AsideStep(sys, r, s, StartJob(q, u), t);
  }

  /** It can get to compiling the unit. */
  lemma GetsToJob(sys: System, s: State, q: Process, u: UnitKey) returns (t: State)
    requires MayCompile(sys, s, q, u)
    ensures Aside(sys, s, t, q) && t.Of(q).phase.Executing? && t.Of(q).At(u).Running? && Footprint(sys, t, q, u)
    ensures sys.config(q).fine ==>
      && u in t.Of(q).handles && t.Of(q).handles[u] == s.Gen(sys.dirOf(u))
      && Grantable(t.held, q, LockOf(sys, s, u), Exclusive)
  {
    var s1 := GetsToQueue(sys, s, q, u);
    t := StartsJob(sys, s, s1, q, u);
  }

  /** When the job is done the build keeps a shared lock. */
  lemma GetsToShare(sys: System, r: State, s: State, q: Process, u: UnitKey) returns (t: State)
    requires Aside(sys, r, s, q) && s.Of(q).phase.Executing? && s.Of(q).At(u).Running? && sys.config(q).fine && Footprint(sys, s, q, u)
    requires u in s.Of(q).handles && s.Of(q).handles[u] == s.Gen(sys.dirOf(u)) && Grantable(s.held, q, LockOf(sys, s, u), Exclusive)
    ensures Aside(sys, r, t, q) && t.Of(q).Active() && Footprint(sys, t, q, u)
    ensures (q, LockOf(sys, s, u)) in t.held && t.held[(q, LockOf(sys, s, u))].Shared?
  {
    var s1 := FinishesJob(sys, r, s, q, u);
    t := ShareResultStep(s1, q, u).value;
    AsideStep(sys, r, s1, ShareResult(q, u), t);
  }

  lemma FinishesJob(sys: System, r: State, s: State, q: Process, u: UnitKey) returns (t: State)
    requires Aside(sys, r, s, q) && s.Of(q).phase.Executing? && s.Of(q).At(u).Running? && sys.config(q).fine && Footprint(sys, s, q, u)
    ensures Aside(sys, r, t, q) && t.Of(q) == s.Of(q).With(u, Finishing) && Footprint(sys, t, q, u) && t.gens == s.gens
    ensures forall f, mode | Grantable(s.held, q, f, mode) :: Grantable(t.held, q, f, mode)
  {
    t := Unlocked(s, q, u).WithStatus(q, u, Finishing);
    AsideStep(sys, r, s, FinishJob(q, u), t);
  }

  // ----- Deleting directories -----

  /** Some `cargo clean` may delete the whole directory. */
  ghost predicate MayWipe(sys: System, d: Dir) {
    exists w :: Wiper(sys, w, d)
  }

  predicate Wiper(sys: System, w: Process, d: Dir) {
    sys.config(w).role.CleanAll? && d in sys.config(w).dirs
  }

  /** Without such a process no run deletes the directory. */
  lemma {:induction false} NobodyWipes(sys: System, s: State, steps: seq<Step>, d: Dir)
    requires Run(sys, s, steps).Some? && !MayWipe(sys, d)
    ensures NoWipe(steps, d)
  {
    if steps != [] {
      var init, step := steps[..|steps| - 1], steps[|steps| - 1];
      NobodyWipes(sys, s, init, d);
      assert !Wiper(sys, step.p, d);
      assert forall i | 0 <= i < |init| :: steps[i] == init[i];
    }
  }

  lemma SafeWithoutWiper(sys: System, s: State, d: Dir)
    requires Reach(sys, Initial, s) && !MayWipe(sys, d)
    ensures Inv(sys, s) && Unwiped(sys, s, d)
  {
    var steps :| Run(sys, Initial, steps) == Some(s);
    RunKeepsInv(sys, Initial, steps, s);
    NobodyWipes(sys, Initial, steps, d);
    RunUnwiped(sys, steps, s, d);
  }

  lemma ReachableInv(sys: System, s: State)
    requires Reach(sys, Initial, s)
    ensures Inv(sys, s)
  {
    var steps :| Run(sys, Initial, steps) == Some(s);
    RunKeepsInv(sys, Initial, steps, s);
  }

  /** The state after each of the directories was deleted once more. */
  ghost predicate WipedSince(s: State, t: State, dirs: set<Dir>) {
    && t.held == s.held && t.procs == s.procs && t.writes == s.writes
    && forall e :: t.Gen(e) == s.Gen(e) + if e in dirs then 1 else 0
  }

  lemma WipesOne(sys: System, s: State, p: Process, d: Dir) returns (t: State)
    requires Reach(sys, Initial, s) && (forall q | q != p :: q !in s.procs) && !sys.config(p).role.CleanAll? && MayWipe(sys, d)
    ensures Reach(sys, Initial, t) && t == s.(gens := s.gens[d := s.Gen(d) + 1])
  {
    var w :| Wiper(sys, w, d);
    assert s.Of(w) == NotStarted;
    t := s.(gens := s.gens[d := s.Gen(d) + 1]);
    ReachStep(sys, Initial, s, Wipe(w, d), t);
  }

  lemma {:induction false} WipesAll(sys: System, s: State, p: Process, dirs: set<Dir>) returns (t: State)
    requires Reach(sys, Initial, s) && (forall q | q != p :: q !in s.procs) && !sys.config(p).role.CleanAll?
    requires forall e | e in dirs :: MayWipe(sys, e)
    ensures Reach(sys, Initial, t) && WipedSince(s, t, dirs)
    decreases dirs
  {
    if dirs == {} {
      t := s;
    } else {
      var d :| d in dirs;
      var s1 := WipesAll(sys, s, p, dirs - {d});
      t := WipesOne(sys, s1, p, d);
    }
  }

  // ----- Two processes at once -----

  /** The two get past each other at the directory: no lock is taken, both take it shared, or
      somebody may take the lock file away in between. */
  ghost predicate Compatible(sys: System, p: Process, q: Process, e: Dir) {
    sys.onNfs(e) || (sys.config(p).DirMode().Shared? && sys.config(q).DirMode().Shared?) || MayWipe(sys, e)
  }

  /** The two can be at work at the same time. */
  ghost predicate Coexist(sys: System, p: Process, q: Process) {
    forall e | e in sys.config(p).dirs && e in sys.config(q).dirs :: Compatible(sys, p, q, e)
  }

  /** Conversely, two processes at work get past each other everywhere. */
  lemma ActiveCoexist(sys: System, s: State, p: Process, q: Process)
    requires Reach(sys, Initial, s) && p != q && s.Of(p).Active() && s.Of(q).Active()
    ensures Coexist(sys, p, q)
  {
    forall e | e in sys.config(p).dirs && e in sys.config(q).dirs ensures Compatible(sys, p, q, e) {
      if !MayWipe(sys, e) && !sys.onNfs(e) {
        SafeWithoutWiper(sys, s, e);
        DirsAreShared(sys, s, p, q, e);
      }
    }
  }

  /** Only `p` has done anything, and it holds no more than its footprint. */
  ghost predicate Alone(sys: System, s: State, p: Process, u: UnitKey) {
    Aside(sys, Initial, s, p) && Footprint(sys, s, p, u)
  }

  ghost function SharedAndWipeable(sys: System, p: Process, q: Process): set<Dir> {
    set e | e in sys.config(p).dirs && e in sys.config(q).dirs && MayWipe(sys, e)
  }

  lemma OnlyItsLocks(sys: System, s: State, p: Process, u: UnitKey)
    requires Alone(sys, s, p, u)
    ensures forall k | k in s.held :: k.0 == p && k.1.gen == 0 && OwnFile(sys, s, p, u, k.1)
  {
    forall k | k in s.held ensures k.0 == p && k.1.gen == 0 && OwnFile(sys, s, p, u, k.1) {
      assert k.0 != p ==> SameLocks(Initial.held, s.held, k.0);
      assert k == (k.0, k.1);
    }
  }

  /** With `p` at work, room can be made for a process that gets past it. */
  lemma MakesRoom(sys: System, s: State, p: Process, q: Process, u: UnitKey) returns (t: State)
    requires Alone(sys, s, p, u) && p != q && !sys.config(p).role.CleanAll? && !sys.config(q).role.CleanAll? && Coexist(sys, p, q)
    ensures Reach(sys, Initial, t) && WipedSince(s, t, SharedAndWipeable(sys, p, q)) && MayStart(sys, t, q)
  {
    t := WipesAll(sys, s, p, SharedAndWipeable(sys, p, q));
    OnlyItsLocks(sys, s, p, u);
    assert forall f :: (q, f) !in t.held;
    forall d | d in sys.config(q).dirs ensures MayOpen(sys, t, q, d) {
      RoomAt(sys, s, p, q, u, t, d);
    }
  }

  lemma RoomAt(sys: System, s: State, p: Process, q: Process, u: UnitKey, t: State, d: Dir)
    requires Alone(sys, s, p, u) && p != q && Coexist(sys, p, q) && d in sys.config(q).dirs
    requires WipedSince(s, t, SharedAndWipeable(sys, p, q))
    ensures MayOpen(sys, t, q, d)
  {
    OnlyItsLocks(sys, s, p, u);
    var f := BuildLock(d, t.Gen(d));
    if !sys.onNfs(d) && (p, f) in t.held {
      assert OwnFile(sys, s, p, u, f) && Compatible(sys, p, q, d);
    }
  }

  // ----- One at a time -----

  ghost predicate BothCompile(sys: System, p: Process, q: Process, u: UnitKey) {
    exists s :: Reach(sys, Initial, s) && s.Of(p).At(u).Running? && s.Of(q).At(u).Running?
  }

  lemma StartsFromInitial(sys: System, p: Process)
    requires !sys.config(p).role.CleanAll?
    ensures MayStart(sys, Initial, p)
  {
  }

  /** After a deletion the unit's lock file is a new one. */
  lemma NewLockIsFree(sys: System, s: State, p: Process, q: Process, u: UnitKey, t: State)
    requires Alone(sys, s, p, u) && WipedSince(s, t, SharedAndWipeable(sys, p, q))
    requires sys.dirOf(u) in sys.config(p).dirs && sys.dirOf(u) in sys.config(q).dirs
    requires sys.config(p).fine && sys.config(q).fine ==> MayWipe(sys, sys.dirOf(u))
    ensures sys.config(q).fine ==> Grantable(t.held, q, LockOf(sys, t, u), Exclusive)
  {
    OnlyItsLocks(sys, s, p, u);
  }

  lemma BothGetThere(sys: System, p: Process, q: Process, u: UnitKey)
    requires p != q && !sys.runsScript(u) && sys.config(p).role.Build? && sys.config(q).role.Build?
    requires sys.dirOf(u) in sys.config(p).dirs && sys.dirOf(u) in sys.config(q).dirs
    requires Coexist(sys, p, q) && (sys.config(p).fine && sys.config(q).fine ==> MayWipe(sys, sys.dirOf(u)))
    ensures BothCompile(sys, p, q, u)
  {
    StartsFromInitial(sys, p);
    var s := GetsToJob(sys, Initial, p, u);
    var s1 := MakesRoom(sys, s, p, q, u);
    NewLockIsFree(sys, s, p, q, u, s1);
    var t := GetsToJob(sys, s1, q, u);
    ReachTrans(sys, Initial, s1, t);
    assert t.Of(p) == s.Of(p);
  }

  /** Two builds, with whatever build directories, can compile the same unit at once exactly if they
      get past each other at every directory they share, and, where both lock finely, somebody may
      take the unit's lock file away. */
  lemma BothCompileExactly(sys: System, p: Process, q: Process, u: UnitKey)
    requires p != q && !sys.runsScript(u) && sys.config(p).role.Build? && sys.config(q).role.Build?
    requires sys.dirOf(u) in sys.config(p).dirs && sys.dirOf(u) in sys.config(q).dirs
    ensures BothCompile(sys, p, q, u)
       <==> Coexist(sys, p, q) && (sys.config(p).fine && sys.config(q).fine ==> MayWipe(sys, sys.dirOf(u)))
  {
    if Coexist(sys, p, q) && (sys.config(p).fine && sys.config(q).fine ==> MayWipe(sys, sys.dirOf(u))) {
      BothGetThere(sys, p, q, u);
    } else if s :| Reach(sys, Initial, s) && s.Of(p).At(u).Running? && s.Of(q).At(u).Running? {
      BothRunning(sys, s, p, q, u);
    }
  }

  lemma BothRunning(sys: System, s: State, p: Process, q: Process, u: UnitKey)
    requires Reach(sys, Initial, s) && p != q && s.Of(p).At(u).Running? && s.Of(q).At(u).Running?
    ensures Coexist(sys, p, q) && (sys.config(p).fine && sys.config(q).fine ==> MayWipe(sys, sys.dirOf(u)))
  {
    ReachableInv(sys, s);
    assert ProcInv(sys, s.held, p, s.Of(p)) && ProcInv(sys, s.held, q, s.Of(q));
    assert UnitInv(sys, s.held, p, s.Of(p), u, Running) && UnitInv(sys, s.held, q, s.Of(q), u, Running);
    ActiveCoexist(sys, s, p, q);
    if sys.config(p).fine && sys.config(q).fine && !MayWipe(sys, sys.dirOf(u)) {
      SafeWithoutWiper(sys, s, sys.dirOf(u));
      FineExclusion(sys, s, p, q, u);
    }
  }

  /** Builds of one directory: at once exactly if it is on NFS and one of them locks coarsely, or it
      may be deleted. */
  lemma OneDirectory(sys: System, p: Process, q: Process, u: UnitKey)
    requires p != q && !sys.runsScript(u) && sys.config(p).role.Build? && sys.config(q).role.Build?
    requires sys.config(p).dirs == sys.config(q).dirs == {sys.dirOf(u)}
    ensures BothCompile(sys, p, q, u)
       <==> (sys.onNfs(sys.dirOf(u)) && !(sys.config(p).fine && sys.config(q).fine)) || MayWipe(sys, sys.dirOf(u))
  {
    BothCompileExactly(sys, p, q, u);
    assert Coexist(sys, p, q) <==> Compatible(sys, p, q, sys.dirOf(u));
  }

  // ----- What a process can change beside another -----

  /** The step changes the unit's files. */
  ghost predicate Alters(sys: System, t: State, step: Step, u: UnitKey) {
    Next(sys, t, step).Some? && Version(sys, Next(sys, t, step).value, u) != Version(sys, t, u)
  }

  /** `q` can get to a point where it can change the unit, everyone else standing still. */
  ghost predicate CanChange(sys: System, s: State, q: Process, u: UnitKey) {
    exists t, step: Step :: Aside(sys, s, t, q) && step.p == q && Alters(sys, t, step, u)
  }

  lemma Wipes(sys: System, s: State, q: Process, u: UnitKey)
    requires q !in s.procs && Wiper(sys, q, sys.dirOf(u))
    ensures CanChange(sys, s, q, u)
  {
    AsideSelf(sys, s, q);
    assert Alters(sys, s, Wipe(q, sys.dirOf(u)), u);
  }

  lemma Cleans(sys: System, s: State, q: Process, u: UnitKey)
    requires MayStart(sys, s, q) && sys.dirOf(u) in sys.config(q).dirs && sys.config(q).role.CleanPackages?
    ensures CanChange(sys, s, q, u)
  {
    var s1 := Opens(sys, s, q, u);
    var t := Executes(sys, s, s1, q, u);
    assert Alters(sys, t, Clean(q, u), u);
  }

  lemma Compiles(sys: System, s: State, q: Process, u: UnitKey)
    requires MayCompile(sys, s, q, u)
    ensures CanChange(sys, s, q, u)
  {
    var t := GetsToJob(sys, s, q, u);
    assert Alters(sys, t, Write(q, u), u);
  }

  lemma RunsScript(sys: System, s: State, q: Process, u: UnitKey)
    requires MayStart(sys, s, q) && sys.dirOf(u) in sys.config(q).dirs && sys.config(q).role.Build? && sys.runsScript(u)
    requires sys.config(q).fine && !sys.onNfs(sys.dirOf(u)) ==> Grantable(s.held, q, LockOf(sys, s, u), Shared)
    ensures CanChange(sys, s, q, u)
  {
    var s1 := Opens(sys, s, q, u);
    if sys.config(q).fine && !sys.onNfs(sys.dirOf(u)) {
      GrantableAside(s.held, s1.held, q, LockOf(sys, s, u), Shared);
    }
    var s2 := Prepares(sys, s, s1, q, u);
    var t := Executes(sys, s, s2, q, u);
    assert Alters(sys, t, RunScript(q, u), u);
  }

  /** Whoever changes a unit uses its directory, and is at work there or deletes it. */
  lemma ChangerUsesDir(sys: System, s: State, step: Step, u: UnitKey)
    requires Inv(sys, s) && Alters(sys, s, step, u)
    ensures sys.dirOf(u) in sys.config(step.p).dirs && (s.Of(step.p).Active() || sys.config(step.p).role.CleanAll?)
  {
    var q := step.p;
    WhoChanges(sys, s, step, Next(sys, s, step).value, u);
    assert ProcInv(sys, s.held, q, s.Of(q));
    assert u in s.Of(q).status ==> UnitInv(sys, s.held, q, s.Of(q), u, s.Of(q).status[u]);
  }

  // ----- Readers -----

  /** The process holds a shared lock on a lock file of the unit. */
  ghost predicate HoldsShared(s: State, p: Process, u: UnitKey) {
    exists g: nat :: (p, UnitLock(u, g)) in s.held && s.held[(p, UnitLock(u, g))].Shared?
  }

  /** Another process changes the unit's files while `p` holds its shared lock. */
  ghost predicate ReaderDisturbed(sys: System, p: Process, u: UnitKey) {
    exists s, step: Step :: Reach(sys, Initial, s) && HoldsShared(s, p, u) && step.p != p && Alters(sys, s, step, u)
  }

  /** The processes a reader's shared lock does not keep away: those that delete the directory, and
      those that can be at work beside it and are no fine-grained builds, or run the script. */
  ghost predicate Unheeding(sys: System, p: Process, q: Process, u: UnitKey) {
    && sys.dirOf(u) in sys.config(q).dirs
    && (|| sys.config(q).role.CleanAll?
        || (Coexist(sys, p, q) && (sys.config(q).role.Build? && sys.config(q).fine ==> sys.runsScript(u))))
  }

  /** On NFS a script run never gets its shared lock. */
  ghost predicate CanRead(sys: System, u: UnitKey) {
    sys.onNfs(sys.dirOf(u)) ==> !sys.runsScript(u)
  }

  lemma ReaderFacts(sys: System, s: State, p: Process, u: UnitKey)
    requires Inv(sys, s) && HoldsShared(s, p, u)
    ensures s.Of(p).Active() && CanRead(sys, u)
    ensures !s.Of(p).At(u).Running? && sys.config(p).fine && sys.config(p).role.Build?
    ensures !StaysAway(s, p, u)
  {
    var g: nat :| (p, UnitLock(u, g)) in s.held && s.held[(p, UnitLock(u, g))].Shared?;
    assert ProcInv(sys, s.held, p, s.Of(p));
    assert u in s.Of(p).handles && s.Of(p).handles[u] == g;
    assert UnitInv(sys, s.held, p, s.Of(p), u, s.Of(p).status[u]);
    assert (p, UnitLock(u, g)).1.key == u;
  }

  /** What a fine-grained build changes beside a reader is the output of a script. */
  lemma FineDisturberRunsScript(sys: System, s: State, step: Step, p: Process, u: UnitKey)
    requires Inv(sys, s) && Unwiped(sys, s, sys.dirOf(u)) && HoldsShared(s, p, u) && step.p != p && Alters(sys, s, step, u)
    requires sys.config(step.p).role.Build? && sys.config(step.p).fine
    ensures sys.runsScript(u)
  {
    ReaderFacts(sys, s, p, u);
    WhoChanges(sys, s, step, Next(sys, s, step).value, u);
    if s.Of(step.p).At(u).Running? {
      FineExclusion(sys, s, step.p, p, u);
    }
  }

  lemma DisturberIsUnheeding(sys: System, s: State, step: Step, p: Process, u: UnitKey)
    requires Reach(sys, Initial, s) && HoldsShared(s, p, u) && step.p != p && Alters(sys, s, step, u)
    requires !MayWipe(sys, sys.dirOf(u))
    ensures Unheeding(sys, p, step.p, u)
  {
    var q := step.p;
    SafeWithoutWiper(sys, s, sys.dirOf(u));
    ReaderFacts(sys, s, p, u);
    ChangerUsesDir(sys, s, step, u);
    if !sys.config(q).role.CleanAll? {
      ActiveCoexist(sys, s, p, q);
      if sys.config(q).role.Build? && sys.config(q).fine {
        FineDisturberRunsScript(sys, s, step, p, u);
      }
    }
  }

  lemma NotDisturbed(sys: System, s: State, step: Step, p: Process, u: UnitKey)
    requires Reach(sys, Initial, s) && HoldsShared(s, p, u) && step.p != p && Alters(sys, s, step, u)
    ensures CanRead(sys, u) && exists q :: q != p && Unheeding(sys, p, q, u)
  {
    ReachableInv(sys, s);
    ReaderFacts(sys, s, p, u);
    if MayWipe(sys, sys.dirOf(u)) {
      var w :| Wiper(sys, w, sys.dirOf(u));
      assert w != p && Unheeding(sys, p, w, u);
    } else {
      DisturberIsUnheeding(sys, s, step, p, u);
    }
  }

  /** Off NFS a reader is one that has prepared the unit, on NFS one that has compiled it. */
  lemma BecomesReader(sys: System, p: Process, u: UnitKey) returns (s: State)
    requires sys.config(p).role.Build? && sys.config(p).fine && sys.dirOf(u) in sys.config(p).dirs && CanRead(sys, u)
    ensures Alone(sys, s, p, u) && (p, UnitLock(u, 0)) in s.held && s.held[(p, UnitLock(u, 0))].Shared?
  {
    StartsFromInitial(sys, p);
    if sys.onNfs(sys.dirOf(u)) {
      var s1 := GetsToJob(sys, Initial, p, u);
      s := GetsToShare(sys, Initial, s1, p, u);
    } else {
      var s1 := Opens(sys, Initial, p, u);
      assert forall k | k in s1.held && k.0 != p :: SameLocks(Initial.held, s1.held, k.0) && k == (k.0, k.1);
      s := Prepares(sys, Initial, s1, p, u);
    }
  }

  /** Beside a reader, an unheeding process can change the unit. */
  lemma UnheedingCanChange(sys: System, s: State, p: Process, q: Process, u: UnitKey) returns (t: State)
    requires p != q && Alone(sys, s, p, u) && !sys.config(p).role.CleanAll? && Unheeding(sys, p, q, u)
    requires (p, UnitLock(u, 0)) in s.held && s.held[(p, UnitLock(u, 0))].Shared?
    ensures Reach(sys, Initial, t) && t.held == s.held && CanChange(sys, t, q, u)
  {
    OnlyItsLocks(sys, s, p, u);
    if sys.config(q).role.CleanAll? {
      t := s;
      Wipes(sys, s, q, u);
    } else {
      t := MakesRoom(sys, s, p, q, u);
      if sys.config(q).role.CleanPackages? {
        Cleans(sys, t, q, u);
      } else if sys.runsScript(u) {
        RunsScript(sys, t, q, u);
      } else {
        Compiles(sys, t, q, u);
      }
    }
  }

  /** While a fine-grained build holds a unit's shared lock, some other process can change the
      unit's files exactly if the unit can be read at all and some process is unheeding. */
  lemma ReaderDisturbedExactly(sys: System, p: Process, u: UnitKey)
    requires sys.config(p).role.Build? && sys.config(p).fine && sys.dirOf(u) in sys.config(p).dirs
    ensures ReaderDisturbed(sys, p, u) <==> CanRead(sys, u) && exists q :: q != p && Unheeding(sys, p, q, u)
  {
    if CanRead(sys, u) && exists q :: q != p && Unheeding(sys, p, q, u) {
      var q :| q != p && Unheeding(sys, p, q, u);
      ReaderIsDisturbedBy(sys, p, q, u);
    } else if s, step: Step :| Reach(sys, Initial, s) && HoldsShared(s, p, u) && step.p != p && Alters(sys, s, step, u) {
      NotDisturbed(sys, s, step, p, u);
    }
  }

  lemma ReaderIsDisturbedBy(sys: System, p: Process, q: Process, u: UnitKey)
    requires sys.config(p).role.Build? && sys.config(p).fine && sys.dirOf(u) in sys.config(p).dirs
    requires CanRead(sys, u) && q != p && Unheeding(sys, p, q, u)
    ensures ReaderDisturbed(sys, p, u)
  {
    var s := BecomesReader(sys, p, u);
    var s1 := UnheedingCanChange(sys, s, p, q, u);
    var t, step: Step :| Aside(sys, s1, t, q) && step.p == q && Alters(sys, t, step, u);
    ReachTrans(sys, Initial, s1, t);
    assert SameLocks(s1.held, t.held, p);
    assert (p, UnitLock(u, 0)) in t.held && t.held[(p, UnitLock(u, 0))].Shared?;
  }

  /** Nor does the holder change the unit itself. */
  lemma HolderDoesNotChange(sys: System, s: State, step: Step, u: UnitKey)
    requires Inv(sys, s) && HoldsShared(s, step.p, u) && Alters(sys, s, step, u)
    ensures sys.runsScript(u)
  {
    ReaderFacts(sys, s, step.p, u);
    WhoChanges(sys, s, step, Next(sys, s, step).value, u);
  }

  lemma StableStep(sys: System, s: State, step: Step, p: Process, u: UnitKey)
    requires Reach(sys, Initial, s) && Next(sys, s, step).Some? && HoldsShared(s, p, u)
    requires !sys.runsScript(u) && forall q | q != p :: !Unheeding(sys, p, q, u)
    ensures !Alters(sys, s, step, u)
  {
    ReachableInv(sys, s);
    if Alters(sys, s, step, u) {
      if step.p == p {
        HolderDoesNotChange(sys, s, step, u);
      } else {
        NotDisturbed(sys, s, step, p, u);
      }
    }
  }

  /** So what a build reads under its shared lock stays as it is over any run in which it keeps the
      lock, as long as nobody is unheeding; script runs excepted. */
  lemma {:induction false} ReaderIsStable(sys: System, s: State, steps: seq<Step>, t: State, p: Process, u: UnitKey)
    requires Reach(sys, Initial, s) && Run(sys, s, steps) == Some(t)
    requires forall k, r | 0 <= k < |steps| && Run(sys, s, steps[..k]) == Some(r) :: HoldsShared(r, p, u)
    requires !sys.runsScript(u) && forall q | q != p :: !Unheeding(sys, p, q, u)
    ensures Version(sys, t, u) == Version(sys, s, u)
  {
    if steps != [] {
      var init := steps[..|steps| - 1];
      var r := Run(sys, s, init).value;
      assert forall k | 0 <= k < |init| :: init[..k] == steps[..k];
      ReaderIsStable(sys, s, init, r, p, u);
      ReachTrans(sys, Initial, s, r);
      StableStep(sys, r, steps[|steps| - 1], p, u);
    }
  }

  // ----- Coarse locking -----

  /** Another process changes the unit while a coarse build or a package clean is at work. */
  ghost predicate OwnerDisturbed(sys: System, p: Process, u: UnitKey) {
    exists s, step: Step :: Reach(sys, Initial, s) && s.Of(p).Active() && step.p != p && Alters(sys, s, step, u)
  }

  /** `q` deletes the directory, or uses it and can be at work beside `p`. */
  ghost predicate Intrudes(sys: System, p: Process, q: Process, d: Dir) {
    d in sys.config(q).dirs && (sys.config(q).role.CleanAll? || Coexist(sys, p, q))
  }

  lemma OwnerDisturbedBy(sys: System, s: State, step: Step, p: Process, u: UnitKey)
    requires Reach(sys, Initial, s) && s.Of(p).Active() && step.p != p && Alters(sys, s, step, u)
    ensures Intrudes(sys, p, step.p, sys.dirOf(u))
  {
    ReachableInv(sys, s);
    ChangerUsesDir(sys, s, step, u);
    if !sys.config(step.p).role.CleanAll? {
      ActiveCoexist(sys, s, p, step.p);
    }
  }

  lemma IntruderCanChange(sys: System, p: Process, q: Process, u: UnitKey)
    requires p != q && sys.config(p).DirMode().Exclusive? && !sys.config(p).role.CleanAll? && Intrudes(sys, p, q, sys.dirOf(u))
    ensures OwnerDisturbed(sys, p, u)
  {
    StartsFromInitial(sys, p);
    var s := Opens(sys, Initial, p, u);
    OnlyItsLocks(sys, s, p, u);
    var s1 := s;
    if sys.config(q).role.CleanAll? {
      Wipes(sys, s, q, u);
    } else {
      s1 := MakesRoom(sys, s, p, q, u);
      AnyoneCanChange(sys, s1, q, u);
    }
    var t, step: Step :| Aside(sys, s1, t, q) && step.p == q && Alters(sys, t, step, u);
    ReachTrans(sys, Initial, s1, t);
    assert t.Of(p) == s.Of(p);
  }

  /** Where no unit is locked, whoever can start can change the unit. */
  lemma AnyoneCanChange(sys: System, s: State, q: Process, u: UnitKey)
    requires MayStart(sys, s, q) && sys.dirOf(u) in sys.config(q).dirs && forall k | k in s.held :: k.1.BuildLock?
    ensures CanChange(sys, s, q, u)
  {
    if sys.config(q).role.CleanPackages? {
      Cleans(sys, s, q, u);
    } else if sys.runsScript(u) {
      RunsScript(sys, s, q, u);
    } else {
      Compiles(sys, s, q, u);
    }
  }

  /** While a coarse build or a package clean is at work, some other process can change one of its
      units exactly if one deletes the directory, or uses it and gets past the owner at every directory
      they share, which is to say on NFS or after a deletion. */
  lemma OwnerDisturbedExactly(sys: System, p: Process, u: UnitKey)
    requires sys.config(p).DirMode().Exclusive? && !sys.config(p).role.CleanAll? && sys.dirOf(u) in sys.config(p).dirs
    ensures OwnerDisturbed(sys, p, u) <==> exists q :: q != p && Intrudes(sys, p, q, sys.dirOf(u))
  {
    if q :| q != p && Intrudes(sys, p, q, sys.dirOf(u)) {
      IntruderCanChange(sys, p, q, u);
    } else if s, step: Step :| Reach(sys, Initial, s) && s.Of(p).Active() && step.p != p && Alters(sys, s, step, u) {
      OwnerDisturbedBy(sys, s, step, p, u);
    }
  }
}
