/** The two-level build locks (`src/compiler/layout.rs`, `locking.rs` and the lock wrapping in
    `compile`): any number of Cargo processes, coarse or fine-grained builds and both kinds of
    `cargo clean`, as interleaved steps. */
module Locking {
  import opened Units

  type Process = nat

  type Dir = nat

  type UnitKey = nat

  /** `gen` tells the lock files of a directory from those made after the directory was deleted. */
  datatype File = BuildLock(dir: Dir, gen: nat) | UnitLock(key: UnitKey, gen: nat)

  datatype Mode = Shared | Exclusive

  /** The locks the operating system has granted. */
  type Held = map<(Process, File), Mode>

  /** No other process stands in the way of `p` locking `f`. */
  predicate Grantable(held: Held, p: Process, f: File, mode: Mode) {
    forall q | q in held && q.1 == f && q.0 != p :: mode.Shared? && held[q].Shared?
  }

  /** A blocking request: `None` means that the caller still waits. */
  function Acquire(held: Held, p: Process, f: File, mode: Mode): Option<Held> {
    if Grantable(held, p, f, mode) then Some(held[(p, f) := mode]) else None
  }

  function Release(held: Held, p: Process, f: File): Held {
    held - {(p, f)}
  }

  /** Locks of different processes on one file are all shared. */
  ghost predicate Coherent(held: Held) {
    forall a, b | a in held && b in held && a.1 == b.1 && a.0 != b.0 :: held[a].Shared? && held[b].Shared?
  }

  // ----- Processes -----

  /** `cargo clean -p` takes the locks of the build directories exclusively; a `cargo clean` of a
      whole directory takes none and deletes the lock files with everything else. */
  datatype Role = Build | CleanPackages | CleanAll

  /** How one Cargo was started: `fine` is `-Zfine-grain-locking`. */
  datatype Config = Config(fine: bool, role: Role, dirs: set<Dir>)
  {
    /** `Layout::new`. */
    function DirMode(): Mode { if fine && role.Build? then Shared else Exclusive }
  }

  datatype System = System(
    config: Process -> Config,
    dirOf: UnitKey -> Dir,
    onNfs: Dir -> bool,
    runsScript: UnitKey -> bool)

  datatype Phase = Opening | Preparing | Executing | Exited

  /** Where a process stands with one unit. `Ready`: a fresh unit or a script run; `Queued`: a dirty
      rustc or rustdoc job; `Finishing`: done, giving the exclusive lock back for a shared one. */
  datatype Status = Untouched | Ready | Queued | Running | Finishing | Done | Failed

  /** `entered` and `handles` say which generation of a directory's lock file, and of a unit's in
      the `LockManager`, was opened. */
  datatype Proc = Proc(phase: Phase, entered: map<Dir, nat>, handles: map<UnitKey, nat>, status: map<UnitKey, Status>)
  {
    function At(u: UnitKey): Status { if u in status then status[u] else Untouched }

    predicate Active() { phase.Preparing? || phase.Executing? }

    function With(u: UnitKey, st: Status): Proc { this.(status := status[u := st]) }
  }

  const NotStarted := Proc(Opening, map[], map[], map[])

  /** `writes` counts the changes to each unit's files, `gens` the deletions of each directory. */
  datatype State = State(held: Held, procs: map<Process, Proc>, writes: map<UnitKey, nat>, gens: map<Dir, nat>)
  {
    function Of(p: Process): Proc { if p in procs then procs[p] else NotStarted }

    function Gen(d: Dir): nat { if d in gens then gens[d] else 0 }

    function Writes(u: UnitKey): nat { if u in writes then writes[u] else 0 }

    function WithProc(p: Process, proc: Proc): State { this.(procs := procs[p := proc]) }

    function WithStatus(p: Process, u: UnitKey, st: Status): State { WithProc(p, Of(p).With(u, st)) }

    function Touched(u: UnitKey): State { this.(writes := writes[u := Writes(u) + 1]) }
  }

  /** Changes with every change to the files of the unit. */
  function Version(sys: System, s: State, u: UnitKey): (nat, nat) {
    (s.Writes(u), s.Gen(sys.dirOf(u)))
  }

  const Initial := State(map[], map[], map[], map[])

  datatype Step =
    | OpenDir(p: Process, dir: Dir)
    | StartPreparing(p: Process)
    | Prepare(p: Process, u: UnitKey)
    | MarkDirty(p: Process, u: UnitKey)
    | StartExecuting(p: Process)
    | StartJob(p: Process, u: UnitKey)
    | Write(p: Process, u: UnitKey)
    | FinishJob(p: Process, u: UnitKey)
    | FailJob(p: Process, u: UnitKey)
    | ShareResult(p: Process, u: UnitKey)
    | RunScript(p: Process, u: UnitKey)
    | Clean(p: Process, u: UnitKey)
    | Wipe(p: Process, dir: Dir)
    | Exit(p: Process)

  /** Opening a lock file through `Filesystem` skips the lock on NFS. */
  function OpenLocked(held: Held, p: Process, f: File, mode: Mode, onNfs: bool): Option<Held> {
    if onNfs then Some(held) else Acquire(held, p, f, mode)
  }

  /** `LockManager::lock_shared` for a unit seen for the first time: the handle is registered. */
  function ManagedOpen(held: Held, p: Process, handles: map<UnitKey, nat>, u: UnitKey, gen: nat, onNfs: bool):
      Option<(Held, map<UnitKey, nat>)>
  {
    match OpenLocked(held, p, UnitLock(u, gen), Shared, onNfs)
    case None => None
    case Some(h) => Some((h, handles[u := gen]))
  }

  /** `LockManager::unlock`: an unknown key is not an error. */
  function ManagedUnlock(held: Held, p: Process, handles: map<UnitKey, nat>, u: UnitKey): Held {
    if u in handles then Release(held, p, UnitLock(u, handles[u])) else held
  }

  datatype Relocked = Granted(held: Held) | Waiting | NotFound

  /** The request of `LockManager::lock` and `downgrade_to_shared` on a registered handle. It goes
      to the operating system on NFS too. */
  function ManagedLock(held: Held, p: Process, handles: map<UnitKey, nat>, u: UnitKey, mode: Mode): Relocked {
    if u !in handles then NotFound
    else
      match Acquire(held, p, UnitLock(u, handles[u]), mode)
      case None => Waiting
      case Some(h) => Granted(h)
  }

  /** A unit lock is requested and, once granted, the unit goes on to `st`. */
  function Relock(s: State, p: Process, u: UnitKey, mode: Mode, st: Status): Option<State> {
    match ManagedLock(s.held, p, s.Of(p).handles, u, mode)
    case NotFound => Some(s.WithStatus(p, u, Failed))
    case Waiting => None
    case Granted(held) => Some(s.(held := held).WithStatus(p, u, st))
  }

  function Unlocked(s: State, p: Process, u: UnitKey): State {
    s.(held := ManagedUnlock(s.held, p, s.Of(p).handles, u))
  }

  // ----- Steps; `None`: not possible in this state, or the process still waits -----

  /** `Layout::new` for one directory. */
  function OpenDirStep(sys: System, s: State, p: Process, dir: Dir): Option<State> {
    var proc, cfg := s.Of(p), sys.config(p);
    if cfg.role.CleanAll? || !proc.phase.Opening? || dir !in cfg.dirs || dir in proc.entered then None
    else
      match OpenLocked(s.held, p, BuildLock(dir, s.Gen(dir)), cfg.DirMode(), sys.onNfs(dir))
      case None => None
      case Some(held) => Some(s.(held := held).WithProc(p, proc.(entered := proc.entered[dir := s.Gen(dir)])))
  }

  /** The first lines of `compile`. */
  function PrepareStep(sys: System, s: State, p: Process, u: UnitKey): Option<State> {
    var proc, cfg := s.Of(p), sys.config(p);
    if !proc.phase.Preparing? || !cfg.role.Build? || sys.dirOf(u) !in cfg.dirs || !proc.At(u).Untouched? then None
    else if !cfg.fine then Some(s.WithStatus(p, u, Ready))
    else
      match ManagedOpen(s.held, p, proc.handles, u, s.Gen(sys.dirOf(u)), sys.onNfs(sys.dirOf(u)))
      case None => None
      case Some((held, handles)) => Some(s.(held := held).WithProc(p, proc.(handles := handles).With(u, Ready)))
  }

  /** A dirty rustc or rustdoc job is enqueued, and its shared lock given up meanwhile. */
  function MarkDirtyStep(sys: System, s: State, p: Process, u: UnitKey): Option<State> {
    var proc := s.Of(p);
    if !proc.phase.Preparing? || !proc.At(u).Ready? || sys.runsScript(u) then None
    else Some((if sys.config(p).fine then Unlocked(s, p, u) else s).WithStatus(p, u, Queued))
  }

  /** `prebuild_lock_exclusive`. */
  function StartJobStep(sys: System, s: State, p: Process, u: UnitKey): Option<State> {
    var proc := s.Of(p);
    if !proc.phase.Executing? || !proc.At(u).Queued? then None
    else if sys.config(p).fine then Relock(s, p, u, Exclusive, Running)
    else Some(s.WithStatus(p, u, Running))
  }

  /** First half of `downgrade_lock_to_shared`: the operating system drops the exclusive lock
      before it considers the shared one. */
  function FinishJobStep(sys: System, s: State, p: Process, u: UnitKey): Option<State> {
    var proc := s.Of(p);
    if !proc.phase.Executing? || !proc.At(u).Running? then None
    else if sys.config(p).fine then Some(Unlocked(s, p, u).WithStatus(p, u, Finishing))
    else Some(s.WithStatus(p, u, Done))
  }

  /** Second half of `downgrade_lock_to_shared`. */
  function ShareResultStep(s: State, p: Process, u: UnitKey): Option<State> {
    if s.Of(p).phase.Executing? && s.Of(p).At(u).Finishing? then Relock(s, p, u, Shared, Done) else None
  }

  /** Leaving gives up every lock. */
  function Left(s: State, p: Process): State {
    s.(held := map k | k in s.held && k.0 != p :: s.held[k]).WithProc(p, NotStarted.(phase := Exited))
  }

  /** The steps that touch no lock. */
  function PlainStep(sys: System, s: State, step: Step): Option<State> {
    var p := step.p;
    var proc := s.Of(p);
    var cfg := sys.config(p);
    match step
    case StartPreparing(_) =>
      if !cfg.role.CleanAll? && proc.phase.Opening? && proc.entered.Keys == cfg.dirs
      then Some(s.WithProc(p, proc.(phase := Preparing))) else None
    case StartExecuting(_) =>
      if proc.phase.Preparing? then Some(s.WithProc(p, proc.(phase := Executing))) else None
    case Write(_, u) =>
      if proc.phase.Executing? && proc.At(u).Running? then Some(s.Touched(u)) else None
    case FailJob(_, u) =>
      if proc.phase.Executing? && proc.At(u).Running? then Some(s.WithStatus(p, u, Failed)) else None
    case RunScript(_, u) =>
      if proc.phase.Executing? && proc.At(u).Ready? && sys.runsScript(u) then Some(s.Touched(u)) else None
    case Clean(_, u) =>
      if proc.phase.Executing? && cfg.role.CleanPackages? && sys.dirOf(u) in cfg.dirs then Some(s.Touched(u)) else None
    case Wipe(_, dir) =>
      if cfg.role.CleanAll? && proc.phase.Opening? && dir in cfg.dirs
      then Some(s.(gens := s.gens[dir := s.Gen(dir) + 1])) else None
    case _ => None
  }

  function Next(sys: System, s: State, step: Step): Option<State> {
    match step
    case OpenDir(p, dir) => OpenDirStep(sys, s, p, dir)
    case Prepare(p, u) => PrepareStep(sys, s, p, u)
    case MarkDirty(p, u) => MarkDirtyStep(sys, s, p, u)
    case StartJob(p, u) => StartJobStep(sys, s, p, u)
    case FinishJob(p, u) => FinishJobStep(sys, s, p, u)
    case ShareResult(p, u) => ShareResultStep(s, p, u)
    case Exit(p) => Some(Left(s, p))
    case _ => PlainStep(sys, s, step)
  }

  function Run(sys: System, s: State, steps: seq<Step>): Option<State> {
    if steps == [] then Some(s)
    else
      match Run(sys, s, steps[..|steps| - 1])
      case None => None
      case Some(t) => Next(sys, t, steps[|steps| - 1])
  }

  // ----- What every step keeps -----

  /** What holds of one process, given its own locks. */
  ghost predicate ProcInv(sys: System, held: Held, p: Process, proc: Proc) {
    var cfg := sys.config(p);
    && (proc.Active() ==> proc.entered.Keys == cfg.dirs && !cfg.role.CleanAll?)
    && (forall d | d in proc.entered && !sys.onNfs(d) ::
          (p, BuildLock(d, proc.entered[d])) in held && held[(p, BuildLock(d, proc.entered[d]))] == cfg.DirMode())
    && (forall f: File | f.UnitLock? && (p, f) in held :: f.key in proc.handles && proc.handles[f.key] == f.gen)
    && (forall u | u in proc.handles :: cfg.fine && u in proc.status && !proc.status[u].Untouched?)
    && (forall u | u in proc.status :: UnitInv(sys, held, p, proc, u, proc.status[u]))
  }

  /** What holds of one process at one unit. */
  ghost predicate UnitInv(sys: System, held: Held, p: Process, proc: Proc, u: UnitKey, st: Status) {
    !st.Untouched? ==>
      && MayTouch(sys, p, proc, u)
      && (sys.config(p).fine ==> u in proc.handles)
      && (sys.config(p).fine && (st.Running? || st.Failed?) ==>
            (p, UnitLock(u, proc.handles[u])) in held && held[(p, UnitLock(u, proc.handles[u]))].Exclusive?)
      && (sys.config(p).fine && (st.Done? || (st.Ready? && !sys.onNfs(sys.dirOf(u)))) ==>
            (p, UnitLock(u, proc.handles[u])) in held && held[(p, UnitLock(u, proc.handles[u]))].Shared?)
      && (st.Finishing? ==> sys.config(p).fine)
      && (sys.runsScript(u) ==> st.Ready?)
      && ((st.Ready? && sys.onNfs(sys.dirOf(u))) || st.Queued? || st.Finishing? ==> forall g: nat :: (p, UnitLock(u, g)) !in held)
  }

  predicate MayTouch(sys: System, p: Process, proc: Proc, u: UnitKey) {
    proc.Active() && sys.config(p).role.Build? && sys.dirOf(u) in sys.config(p).dirs
  }

  ghost predicate Inv(sys: System, s: State) {
    && Coherent(s.held)
    && forall p: Process :: ProcInv(sys, s.held, p, s.Of(p))
  }

  /** The two tables agree on the locks of `q`. */
  ghost predicate SameLocks(held: Held, held': Held, q: Process) {
    forall f :: ((q, f) in held <==> (q, f) in held') && ((q, f) in held ==> held'[(q, f)] == held[(q, f)])
  }

  lemma OthersKeepInv(sys: System, held: Held, held': Held, q: Process, proc: Proc)
    requires ProcInv(sys, held, q, proc) && SameLocks(held, held', q)
    ensures ProcInv(sys, held', q, proc)
  {}

  /** What one process may do to the table: leave it, drop locks of its own, or be granted one. */
  ghost predicate OwnChange(held: Held, held': Held, p: Process) {
    || held' == held
    || (held'.Keys <= held.Keys && (forall k | k in held' :: held'[k] == held[k]) && forall k | k in held && k.0 != p :: k in held')
    || exists f: File, mode :: Grantable(held, p, f, mode) && held' == held[(p, f) := mode]
  }

  lemma OpenedIsOwn(held: Held, p: Process, f: File, mode: Mode, onNfs: bool)
    requires OpenLocked(held, p, f, mode, onNfs).Some?
    ensures OwnChange(held, OpenLocked(held, p, f, mode, onNfs).value, p)
  {
    assert onNfs || (Grantable(held, p, f, mode) && OpenLocked(held, p, f, mode, onNfs).value == held[(p, f) := mode]);
  }

  lemma RelockIsOwn(s: State, p: Process, u: UnitKey, mode: Mode, st: Status)
    requires Relock(s, p, u, mode, st).Some?
    ensures OwnChange(s.held, Relock(s, p, u, mode, st).value.held, p)
  {
    if u in s.Of(p).handles {
      var f := UnitLock(u, s.Of(p).handles[u]);
      assert Grantable(s.held, p, f, mode) && Relock(s, p, u, mode, st).value.held == s.held[(p, f) := mode];
    }
  }

  /** A step changes no record but that of its process, and of files and directories nothing
      unless it is one of those without locks. */
  ghost predicate OwnRecord(s: State, t: State, p: Process) {
    && (t.procs == s.procs || t.procs == s.procs[p := t.Of(p)])
    && t.writes == s.writes && t.gens == s.gens
  }

  lemma PlainFrame(sys: System, s: State, step: Step, t: State)
    requires PlainStep(sys, s, step) == Some(t)
    ensures t.held == s.held && (t.procs == s.procs || t.procs == s.procs[step.p := t.Of(step.p)])
    ensures t.Of(step.p).entered == s.Of(step.p).entered && t.Of(step.p).handles == s.Of(step.p).handles
  {}

  lemma OpenDirFrame(sys: System, s: State, p: Process, dir: Dir)
    requires OpenDirStep(sys, s, p, dir).Some?
    ensures var t := OpenDirStep(sys, s, p, dir).value;
      OwnRecord(s, t, p) && t.Of(p).entered == s.Of(p).entered[dir := s.Gen(dir)] && t.Of(p).handles == s.Of(p).handles
    ensures OwnChange(s.held, OpenDirStep(sys, s, p, dir).value.held, p)
  {
    OpenedIsOwn(s.held, p, BuildLock(dir, s.Gen(dir)), sys.config(p).DirMode(), sys.onNfs(dir));
  }

  lemma PrepareFrame(sys: System, s: State, p: Process, u: UnitKey)
    requires PrepareStep(sys, s, p, u).Some?
    ensures var t := PrepareStep(sys, s, p, u).value;
      && OwnRecord(s, t, p) && t.Of(p).entered == s.Of(p).entered
      && t.Of(p).handles == if sys.config(p).fine then s.Of(p).handles[u := s.Gen(sys.dirOf(u))] else s.Of(p).handles
    ensures OwnChange(s.held, PrepareStep(sys, s, p, u).value.held, p)
  {
    if sys.config(p).fine {
      OpenedIsOwn(s.held, p, UnitLock(u, s.Gen(sys.dirOf(u))), Shared, sys.onNfs(sys.dirOf(u)));
    }
  }

  /** The steps of jobs change the status of the unit and perhaps its lock. */
  ghost predicate JobFrame(s: State, t: State, p: Process) {
    OwnRecord(s, t, p) && t.Of(p).entered == s.Of(p).entered && t.Of(p).handles == s.Of(p).handles && OwnChange(s.held, t.held, p)
  }

  lemma StatusFrame(s: State, held: Held, p: Process, u: UnitKey, st: Status)
    requires OwnChange(s.held, held, p)
    ensures JobFrame(s, s.(held := held).WithStatus(p, u, st), p)
  {}

  lemma UnlockedFrame(s: State, p: Process, u: UnitKey, st: Status)
    ensures JobFrame(s, Unlocked(s, p, u).WithStatus(p, u, st), p)
  {
    StatusFrame(s, Unlocked(s, p, u).held, p, u, st);
  }

  lemma RelockFrame(s: State, p: Process, u: UnitKey, mode: Mode, st: Status)
    requires Relock(s, p, u, mode, st).Some?
    ensures JobFrame(s, Relock(s, p, u, mode, st).value, p)
  {
    RelockIsOwn(s, p, u, mode, st);
    match ManagedLock(s.held, p, s.Of(p).handles, u, mode)
    case NotFound => StatusFrame(s, s.held, p, u, Failed);
    case Granted(held) => StatusFrame(s, held, p, u, st);
  }

  predicate IsJobStep(step: Step) {
    step.MarkDirty? || step.StartJob? || step.FinishJob? || step.ShareResult?
  }

  lemma JobStepFrame(sys: System, s: State, step: Step, t: State)
    requires IsJobStep(step) && Next(sys, s, step) == Some(t)
    ensures JobFrame(s, t, step.p)
  {
    var p, u := step.p, step.u;
    if step.ShareResult? {
      RelockFrame(s, p, u, Shared, Done);
    } else if sys.config(p).fine {
      FineJobFrame(sys, s, step, t);
    } else {
      CoarseJobFrame(sys, s, step, t);
    }
  }

  lemma CoarseJobFrame(sys: System, s: State, step: Step, t: State)
    requires IsJobStep(step) && !step.ShareResult? && !sys.config(step.p).fine && Next(sys, s, step) == Some(t)
    ensures JobFrame(s, t, step.p)
  {
    StatusFrame(s, s.held, step.p, step.u, if step.MarkDirty? then Queued else if step.StartJob? then Running else Done);
  }

  lemma FineJobFrame(sys: System, s: State, step: Step, t: State)
    requires IsJobStep(step) && !step.ShareResult? && sys.config(step.p).fine && Next(sys, s, step) == Some(t)
    ensures JobFrame(s, t, step.p)
  {
    if step.StartJob? {
      RelockFrame(s, step.p, step.u, Exclusive, Running);
    } else {
      UnlockedFrame(s, step.p, step.u, if step.MarkDirty? then Queued else Finishing);
    }
  }

  lemma LeftFrame(s: State, p: Process)
    ensures OwnChange(s.held, Left(s, p).held, p) && OwnRecord(s, Left(s, p), p)
  {}

  lemma StepIsOwn(sys: System, s: State, step: Step, t: State)
    requires Next(sys, s, step) == Some(t)
    ensures OwnChange(s.held, t.held, step.p) && (t.procs == s.procs || t.procs == s.procs[step.p := t.Of(step.p)])
  {
    if step.OpenDir? {
      OpenDirFrame(sys, s, step.p, step.dir);
    } else if step.Prepare? {
      PrepareFrame(sys, s, step.p, step.u);
    } else if step.Exit? {
      LeftFrame(s, step.p);
    } else if IsJobStep(step) {
      JobStepFrame(sys, s, step, t);
    } else {
      PlainFrame(sys, s, step, t);
    }
  }

  lemma OwnChangeFrame(held: Held, held': Held, p: Process, q: Process)
    requires OwnChange(held, held', p) && q != p
    ensures SameLocks(held, held', q)
  {}

  lemma OwnChangeKeeps(held: Held, held': Held, p: Process)
    requires Coherent(held) && OwnChange(held, held', p)
    ensures Coherent(held')
  {
    if f: File, mode :| Grantable(held, p, f, mode) && held' == held[(p, f) := mode] {
      forall a, b | a in held' && b in held' && a.1 == b.1 && a.0 != b.0 ensures held'[a].Shared? && held'[b].Shared? {
        assert a != (p, f) ==> a in held;
        assert b != (p, f) ==> b in held;
      }
    }
  }

  lemma OpenDirInv(sys: System, s: State, p: Process, dir: Dir)
    requires ProcInv(sys, s.held, p, s.Of(p)) && OpenDirStep(sys, s, p, dir).Some?
    ensures var t := OpenDirStep(sys, s, p, dir).value; ProcInv(sys, t.held, p, t.Of(p))
  {
    EnteredInv(sys, s.held, OpenDirStep(sys, s, p, dir).value.held, p, s.Of(p), dir, s.Gen(dir));
  }

  lemma EnteredInv(sys: System, held: Held, held': Held, p: Process, proc: Proc, dir: Dir, gen: nat)
    requires ProcInv(sys, held, p, proc) && proc.phase.Opening? && dir !in proc.entered
    requires OpenLocked(held, p, BuildLock(dir, gen), sys.config(p).DirMode(), sys.onNfs(dir)) == Some(held')
    ensures ProcInv(sys, held', p, proc.(entered := proc.entered[dir := gen]))
  {
    OpenedOthers(held, held', p, BuildLock(dir, gen), sys.config(p).DirMode(), sys.onNfs(dir));
  }

  lemma PrepareInv(sys: System, s: State, p: Process, u: UnitKey)
    requires ProcInv(sys, s.held, p, s.Of(p)) && PrepareStep(sys, s, p, u).Some?
    ensures var t := PrepareStep(sys, s, p, u).value; ProcInv(sys, t.held, p, t.Of(p))
  {
    var t := PrepareStep(sys, s, p, u).value;
    if sys.config(p).fine {
      PreparedInv(sys, s.held, t.held, p, s.Of(p), u, s.Gen(sys.dirOf(u)));
    } else {
      ReadyInv(sys, s.held, p, s.Of(p), u);
    }
  }

  lemma ReadyInv(sys: System, held: Held, p: Process, proc: Proc, u: UnitKey)
    requires ProcInv(sys, held, p, proc) && MayTouch(sys, p, proc, u) && proc.At(u).Untouched? && !sys.config(p).fine
    ensures ProcInv(sys, held, p, proc.With(u, Ready))
  {
    forall v | v in proc.status && v != u ensures UnitInv(sys, held, p, proc.With(u, Ready), v, proc.status[v]) {
      OtherUnit(sys, held, held, p, proc, proc.With(u, Ready), u, v, proc.status[v]);
    }
  }

  lemma OpenedOthers(held: Held, held': Held, p: Process, f: File, mode: Mode, onNfs: bool)
    requires OpenLocked(held, p, f, mode, onNfs) == Some(held')
    ensures forall g | g != f :: ((p, g) in held <==> (p, g) in held') && ((p, g) in held ==> held'[(p, g)] == held[(p, g)])
  {}

  lemma PreparedInv(sys: System, held: Held, held': Held, p: Process, proc: Proc, u: UnitKey, gen: nat)
    requires ProcInv(sys, held, p, proc) && MayTouch(sys, p, proc, u) && proc.At(u).Untouched? && sys.config(p).fine
    requires OpenLocked(held, p, UnitLock(u, gen), Shared, sys.onNfs(sys.dirOf(u))) == Some(held')
    ensures ProcInv(sys, held', p, proc.(handles := proc.handles[u := gen]).With(u, Ready))
  {
    OpenedOthers(held, held', p, UnitLock(u, gen), Shared, sys.onNfs(sys.dirOf(u)));
    assert u !in proc.handles;
    PreparedUnits(sys, held, held', p, proc, u, gen);
  }

  lemma PreparedUnits(sys: System, held: Held, held': Held, p: Process, proc: Proc, u: UnitKey, gen: nat)
    requires ProcInv(sys, held, p, proc) && MayTouch(sys, p, proc, u) && u !in proc.handles
    requires OpenLocked(held, p, UnitLock(u, gen), Shared, sys.onNfs(sys.dirOf(u))) == Some(held')
    ensures var proc' := proc.(handles := proc.handles[u := gen]).With(u, Ready);
      forall v | v in proc'.status :: UnitInv(sys, held', p, proc', v, proc'.status[v])
  {
    var proc' := proc.(handles := proc.handles[u := gen]).With(u, Ready);
    OpenedOthers(held, held', p, UnitLock(u, gen), Shared, sys.onNfs(sys.dirOf(u)));
    forall v | v in proc'.status ensures UnitInv(sys, held', p, proc', v, proc'.status[v]) {
      if v != u {
        PreparedOther(sys, held, held', p, proc, u, gen, v, proc.status[v]);
      }
    }
  }

  lemma PreparedOther(sys: System, held: Held, held': Held, p: Process, proc: Proc, u: UnitKey, gen: nat, v: UnitKey, st: Status)
    requires v != u && UnitInv(sys, held, p, proc, v, st)
    requires forall g | g != UnitLock(u, gen) :: ((p, g) in held <==> (p, g) in held') && ((p, g) in held ==> held'[(p, g)] == held[(p, g)])
    ensures UnitInv(sys, held', p, proc.(handles := proc.handles[u := gen]).With(u, Ready), v, st)
  {}

  /** Giving up or changing the lock of `u` does not bear on any other unit. */
  lemma OtherUnit(sys: System, held: Held, held': Held, p: Process, proc: Proc, proc': Proc, u: UnitKey, v: UnitKey, st: Status)
    requires UnitInv(sys, held, p, proc, v, st) && v != u && proc'.handles == proc.handles && proc'.phase == proc.phase
    requires forall g :: (p, UnitLock(v, g)) in held <==> (p, UnitLock(v, g)) in held'
    requires forall g :: (p, UnitLock(v, g)) in held ==> held'[(p, UnitLock(v, g))] == held[(p, UnitLock(v, g))]
    ensures UnitInv(sys, held', p, proc', v, st)
  {}

  lemma UnlockedInv(sys: System, s: State, p: Process, u: UnitKey, st: Status)
    requires ProcInv(sys, s.held, p, s.Of(p)) && u in s.Of(p).status && !s.Of(p).status[u].Untouched?
    requires sys.config(p).fine && (st.Queued? || st.Finishing?) && !sys.runsScript(u)
    ensures var t := Unlocked(s, p, u).WithStatus(p, u, st); ProcInv(sys, t.held, p, t.Of(p))
  {
    var t := Unlocked(s, p, u).WithStatus(p, u, st);
    var proc, proc' := s.Of(p), t.Of(p);
    assert UnitInv(sys, s.held, p, proc, u, proc.status[u]);
    forall v | v in proc'.status ensures UnitInv(sys, t.held, p, proc', v, proc'.status[v]) {
      if v != u {
        OtherUnit(sys, s.held, t.held, p, proc, proc', u, v, proc.status[v]);
      }
    }
  }

  lemma RelockInv(sys: System, s: State, p: Process, u: UnitKey, mode: Mode, st: Status)
    requires ProcInv(sys, s.held, p, s.Of(p)) && u in s.Of(p).status && !s.Of(p).status[u].Untouched?
    requires sys.config(p).fine && ((mode.Exclusive? && st.Running?) || (mode.Shared? && st.Done?)) && !sys.runsScript(u)
    requires Relock(s, p, u, mode, st).Some?
    ensures var t := Relock(s, p, u, mode, st).value; ProcInv(sys, t.held, p, t.Of(p))
  {
    var t := Relock(s, p, u, mode, st).value;
    var proc, proc' := s.Of(p), t.Of(p);
    assert UnitInv(sys, s.held, p, proc, u, proc.status[u]);
    forall v | v in proc'.status ensures UnitInv(sys, t.held, p, proc', v, proc'.status[v]) {
      if v != u {
        OtherUnit(sys, s.held, t.held, p, proc, proc', u, v, proc.status[v]);
      }
    }
  }

  lemma StatusInv(sys: System, s: State, p: Process, u: UnitKey, st: Status)
    requires ProcInv(sys, s.held, p, s.Of(p)) && u in s.Of(p).status && !s.Of(p).status[u].Untouched?
    requires sys.config(p).fine ==> s.Of(p).status[u].Running? && st.Failed?
    requires !st.Finishing? && !st.Ready? && !sys.runsScript(u)
    ensures var t := s.WithStatus(p, u, st); ProcInv(sys, t.held, p, t.Of(p))
  {
    var proc, proc' := s.Of(p), s.WithStatus(p, u, st).Of(p);
    assert UnitInv(sys, s.held, p, proc, u, proc.status[u]);
    forall v | v in proc'.status ensures UnitInv(sys, s.held, p, proc', v, proc'.status[v]) {
      if v != u {
        OtherUnit(sys, s.held, s.held, p, proc, proc', u, v, proc.status[v]);
      }
    }
  }

  lemma PlainInv(sys: System, s: State, step: Step, t: State)
    requires ProcInv(sys, s.held, step.p, s.Of(step.p)) && PlainStep(sys, s, step) == Some(t)
    ensures ProcInv(sys, t.held, step.p, t.Of(step.p))
  {
    var p := step.p;
    if step.FailJob? {
      assert UnitInv(sys, s.held, p, s.Of(p), step.u, Running);
      StatusInv(sys, s, p, step.u, Failed);
    } else if step.StartPreparing? || step.StartExecuting? {
      PhaseInv(sys, s.held, p, s.Of(p), t.Of(p).phase);
    } else {
      assert t.Of(p) == s.Of(p);
    }
  }

  lemma PhaseInv(sys: System, held: Held, p: Process, proc: Proc, phase: Phase)
    requires ProcInv(sys, held, p, proc) && (phase.Preparing? || phase.Executing?)
    requires proc.entered.Keys == sys.config(p).dirs && !sys.config(p).role.CleanAll?
    ensures ProcInv(sys, held, p, proc.(phase := phase))
  {}

  lemma JobStepInv(sys: System, s: State, step: Step, t: State)
    requires ProcInv(sys, s.held, step.p, s.Of(step.p)) && IsJobStep(step) && Next(sys, s, step) == Some(t)
    ensures ProcInv(sys, t.held, step.p, t.Of(step.p))
  {
    var p, u := step.p, step.u;
    assert UnitInv(sys, s.held, p, s.Of(p), u, s.Of(p).status[u]);
    if step.ShareResult? {
      RelockInv(sys, s, p, u, Shared, Done);
    } else if !sys.config(p).fine {
      StatusInv(sys, s, p, u, t.Of(p).At(u));
    } else if step.StartJob? {
      RelockInv(sys, s, p, u, Exclusive, Running);
    } else {
      UnlockedInv(sys, s, p, u, if step.MarkDirty? then Queued else Finishing);
    }
  }

  lemma StepOwnInv(sys: System, s: State, step: Step, t: State)
    requires ProcInv(sys, s.held, step.p, s.Of(step.p)) && Next(sys, s, step) == Some(t)
    ensures ProcInv(sys, t.held, step.p, t.Of(step.p))
  {
    var p := step.p;
    if step.OpenDir? {
      OpenDirInv(sys, s, p, step.dir);
    } else if step.Prepare? {
      PrepareInv(sys, s, p, step.u);
    } else if IsJobStep(step) {
      JobStepInv(sys, s, step, t);
    } else if !step.Exit? {
      PlainInv(sys, s, step, t);
    }
  }

  lemma StepKeepsInv(sys: System, s: State, step: Step, t: State)
    requires Inv(sys, s) && Next(sys, s, step) == Some(t)
    ensures Inv(sys, t)
  {
    StepIsOwn(sys, s, step, t);
    OwnChangeKeeps(s.held, t.held, step.p);
    forall q: Process ensures ProcInv(sys, t.held, q, t.Of(q)) {
      if q == step.p {
        StepOwnInv(sys, s, step, t);
      } else {
        OwnChangeFrame(s.held, t.held, step.p, q);
        assert t.Of(q) == s.Of(q);
        OthersKeepInv(sys, s.held, t.held, q, s.Of(q));
      }
    }
  }

  lemma {:induction false} RunKeepsInv(sys: System, s: State, steps: seq<Step>, t: State)
    requires Inv(sys, s) && Run(sys, s, steps) == Some(t)
    ensures Inv(sys, t)
  {
    if steps != [] {
      var r := Run(sys, s, steps[..|steps| - 1]).value;
      RunKeepsInv(sys, s, steps[..|steps| - 1], r);
      StepKeepsInv(sys, r, steps[|steps| - 1], t);
    }
  }

  /** In every run, the lock a fine-grained build has on a unit's file is told by what it is doing with the unit: shared
      while it is prepared and once it is done, none while the job waits or the lock is being given back, exclusive while
      the job runs and after it has failed. */
  lemma LockByStatus(sys: System, steps: seq<Step>, t: State, p: Process, u: UnitKey)
    requires Run(sys, Initial, steps) == Some(t) && sys.config(p).fine && !t.Of(p).At(u).Untouched?
    ensures u in t.Of(p).handles
    ensures var lock := (p, UnitLock(u, t.Of(p).handles[u]));
      match t.Of(p).At(u)
      case Ready => if sys.onNfs(sys.dirOf(u)) then lock !in t.held else lock in t.held && t.held[lock].Shared?
      case Queued => lock !in t.held
      case Running => lock in t.held && t.held[lock].Exclusive?
      case Finishing => lock !in t.held
      case Done => lock in t.held && t.held[lock].Shared?
      case Failed => lock in t.held && t.held[lock].Exclusive?
      case Untouched => true
    ensures forall g: nat | (p, UnitLock(u, g)) in t.held :: g == t.Of(p).handles[u]
  {
    RunKeepsInv(sys, Initial, steps, t);
    assert ProcInv(sys, t.held, p, t.Of(p));
    assert UnitInv(sys, t.held, p, t.Of(p), u, t.Of(p).status[u]);
  }

  /** A process that has left does nothing any more. */
  lemma OverAfterExit(sys: System, s: State, step: Step)
    requires s.Of(step.p).phase.Exited? && !step.Exit?
    ensures Next(sys, s, step).None?
  {}

  // ----- Directories that are not deleted -----

  /** The lock files of the directory that the process opened are the first ones. */
  ghost predicate OpenedFirst(sys: System, proc: Proc, d: Dir) {
    && (d in proc.entered ==> proc.entered[d] == 0)
    && (forall u | u in proc.handles && sys.dirOf(u) == d :: proc.handles[u] == 0)
  }

  /** The directory was never deleted, and all its opened lock files are the ones that are there. */
  ghost predicate Unwiped(sys: System, s: State, d: Dir) {
    s.Gen(d) == 0 && forall p: Process :: OpenedFirst(sys, s.Of(p), d)
  }

  lemma OwnOpenedFirst(sys: System, s: State, step: Step, t: State, d: Dir)
    requires OpenedFirst(sys, s.Of(step.p), d) && s.Gen(d) == 0 && Next(sys, s, step) == Some(t)
    requires !(step.Wipe? && step.dir == d)
    ensures OpenedFirst(sys, t.Of(step.p), d) && t.Gen(d) == 0
  {
    if step.OpenDir? {
      OpenDirFrame(sys, s, step.p, step.dir);
    } else if step.Prepare? {
      PrepareFrame(sys, s, step.p, step.u);
    } else if IsJobStep(step) {
      JobStepFrame(sys, s, step, t);
    } else if !step.Exit? {
      PlainFrame(sys, s, step, t);
    }
  }

  lemma StepUnwiped(sys: System, s: State, step: Step, t: State, d: Dir)
    requires Unwiped(sys, s, d) && Next(sys, s, step) == Some(t) && !(step.Wipe? && step.dir == d)
    ensures Unwiped(sys, t, d)
  {
    StepIsOwn(sys, s, step, t);
    OwnOpenedFirst(sys, s, step, t, d);
    forall q ensures OpenedFirst(sys, t.Of(q), d) {
      assert q == step.p || t.Of(q) == s.Of(q);
    }
  }

  /** No `cargo clean` deletes the whole directory during the run. */
  predicate NoWipe(steps: seq<Step>, d: Dir) {
    forall i | 0 <= i < |steps| :: !(steps[i].Wipe? && steps[i].dir == d)
  }

  lemma {:induction false} RunUnwiped(sys: System, steps: seq<Step>, t: State, d: Dir)
    requires Run(sys, Initial, steps) == Some(t) && NoWipe(steps, d)
    ensures Unwiped(sys, t, d)
  {
    if steps != [] {
      var init := steps[..|steps| - 1];
      RunUnwiped(sys, init, Run(sys, Initial, init).value, d);
      StepUnwiped(sys, Run(sys, Initial, init).value, steps[|steps| - 1], t, d);
    }
  }

  // ----- Exclusion -----

  /** `q` neither compiles `u` nor holds its lock. */
  predicate StaysAway(s: State, q: Process, u: UnitKey) {
    && !s.Of(q).At(u).Running?
    && forall f | f in s.held && f.0 == q :: !(f.1.UnitLock? && f.1.key == u)
  }

  /** `q` is a `cargo clean -p` at work in the directory. */
  predicate Cleaning(sys: System, s: State, q: Process, d: Dir) {
    s.Of(q).Active() && sys.config(q).role.CleanPackages? && d in sys.config(q).dirs
  }

  /** Off NFS, two processes at work in one directory are both fine-grained builds. */
  lemma DirsAreShared(sys: System, s: State, p: Process, q: Process, d: Dir)
    requires Inv(sys, s) && Unwiped(sys, s, d) && p != q && !sys.onNfs(d)
    requires s.Of(p).Active() && s.Of(q).Active() && d in sys.config(p).dirs && d in sys.config(q).dirs
    ensures sys.config(p).DirMode().Shared? && sys.config(q).DirMode().Shared?
  {
    assert ProcInv(sys, s.held, p, s.Of(p)) && ProcInv(sys, s.held, q, s.Of(q));
    assert OpenedFirst(sys, s.Of(p), d) && OpenedFirst(sys, s.Of(q), d);
    assert (p, BuildLock(d, 0)) in s.held && (q, BuildLock(d, 0)) in s.held;
  }

  /** Of two fine-grained builds, one that compiles `u` has its lock to itself, on NFS too. */
  lemma FineExclusion(sys: System, s: State, p: Process, q: Process, u: UnitKey)
    requires Inv(sys, s) && Unwiped(sys, s, sys.dirOf(u)) && p != q
    requires s.Of(p).At(u).Running? && sys.config(p).fine && sys.config(q).fine
    ensures StaysAway(s, q, u)
  {
    var pp, qq := s.Of(p), s.Of(q);
    assert ProcInv(sys, s.held, p, pp) && ProcInv(sys, s.held, q, qq);
    assert UnitInv(sys, s.held, p, pp, u, Running);
    assert OpenedFirst(sys, pp, sys.dirOf(u)) && OpenedFirst(sys, qq, sys.dirOf(u));
    assert s.held[(p, UnitLock(u, 0))].Exclusive?;
    assert (q, UnitLock(u, 0)) !in s.held;
    LockOrAway(sys, s, q, u);
  }

  /** A fine-grained build that has to do with the unit beyond preparing it holds its lock. */
  lemma LockOrAway(sys: System, s: State, q: Process, u: UnitKey)
    requires ProcInv(sys, s.held, q, s.Of(q)) && OpenedFirst(sys, s.Of(q), sys.dirOf(u)) && sys.config(q).fine
    requires (q, UnitLock(u, 0)) !in s.held
    ensures StaysAway(s, q, u)
  {
    var qq := s.Of(q);
    assert u in qq.status ==> UnitInv(sys, s.held, q, qq, u, qq.status[u]);
    assert forall f | f in s.held && f.0 == q :: (q, f.1) in s.held;
  }

  /** While `p` compiles `u`, no other process compiles it or holds its lock, off NFS or between
      fine-grained builds; and off NFS none cleans its package. */
  lemma Exclusion(sys: System, s: State, p: Process, q: Process, u: UnitKey)
    requires Inv(sys, s) && Unwiped(sys, s, sys.dirOf(u)) && p != q && s.Of(p).At(u).Running?
    ensures !sys.onNfs(sys.dirOf(u)) || (sys.config(p).fine && sys.config(q).fine) ==> StaysAway(s, q, u)
    ensures !sys.onNfs(sys.dirOf(u)) ==> !Cleaning(sys, s, q, sys.dirOf(u))
  {
    var d, pp, qq := sys.dirOf(u), s.Of(p), s.Of(q);
    assert ProcInv(sys, s.held, p, pp) && ProcInv(sys, s.held, q, qq);
    assert UnitInv(sys, s.held, p, pp, u, Running);
    if !sys.onNfs(d) && qq.Active() && d in sys.config(q).dirs {
      DirsAreShared(sys, s, p, q, d);
    }
    if sys.config(p).fine && sys.config(q).fine {
      FineExclusion(sys, s, p, q, u);
    } else if !sys.onNfs(d) {
      AwayFromDir(sys, s, q, u);
    }
  }

  /** A process that is not at work in the directory has nothing to do with its units. */
  lemma AwayFromDir(sys: System, s: State, q: Process, u: UnitKey)
    requires ProcInv(sys, s.held, q, s.Of(q)) && !(s.Of(q).Active() && sys.dirOf(u) in sys.config(q).dirs)
    ensures StaysAway(s, q, u)
  {
    var qq := s.Of(q);
    assert u in qq.status ==> UnitInv(sys, s.held, q, qq, u, qq.status[u]);
    assert forall f | f in s.held && f.0 == q :: (q, f.1) in s.held;
  }

  /** Safety over every interleaving of any number of processes in which nobody deletes the
      whole directory. */
  lemma ExclusionInEveryRun(sys: System, steps: seq<Step>, s: State, p: Process, q: Process, u: UnitKey)
    requires Run(sys, Initial, steps) == Some(s) && NoWipe(steps, sys.dirOf(u))
    requires p != q && s.Of(p).At(u).Running?
    ensures !sys.onNfs(sys.dirOf(u)) || (sys.config(p).fine && sys.config(q).fine) ==> StaysAway(s, q, u)
    ensures !sys.onNfs(sys.dirOf(u)) ==> !Cleaning(sys, s, q, sys.dirOf(u))
  {
    RunKeepsInv(sys, Initial, steps, s);
    RunUnwiped(sys, steps, s, sys.dirOf(u));
    Exclusion(sys, s, p, q, u);
  }

  // ----- The handles are always there -----

  /** In every run, deletions included, a job that asks the manager for its lock finds its handle:
      the error about a lock that is not in the manager is never reported. */
  lemma LockIsFound(sys: System, steps: seq<Step>, s: State, p: Process, u: UnitKey)
    requires Run(sys, Initial, steps) == Some(s) && sys.config(p).fine
    requires s.Of(p).At(u).Queued? || s.Of(p).At(u).Finishing?
    ensures u in s.Of(p).handles
    ensures forall mode :: !ManagedLock(s.held, p, s.Of(p).handles, u, mode).NotFound?
  {
    RunKeepsInv(sys, Initial, steps, s);
    assert ProcInv(sys, s.held, p, s.Of(p));
    assert UnitInv(sys, s.held, p, s.Of(p), u, s.Of(p).status[u]);
  }

  // ----- Who changes what -----

  /** Only a running job, a script run and the two kinds of clean change a unit's files. */
  lemma WhoChanges(sys: System, s: State, step: Step, t: State, u: UnitKey)
    requires Next(sys, s, step) == Some(t) && Version(sys, t, u) != Version(sys, s, u)
    ensures Changes(sys, s, step, u)
  {
    if step.OpenDir? {
      OpenDirFrame(sys, s, step.p, step.dir);
    } else if step.Prepare? {
      PrepareFrame(sys, s, step.p, step.u);
    } else if step.Exit? {
      LeftFrame(s, step.p);
    } else if IsJobStep(step) {
      JobStepFrame(sys, s, step, t);
    } else {
      PlainChanges(sys, s, step, t, u);
    }
  }

  lemma PlainChanges(sys: System, s: State, step: Step, t: State, u: UnitKey)
    requires PlainStep(sys, s, step) == Some(t) && Version(sys, t, u) != Version(sys, s, u)
    ensures Changes(sys, s, step, u)
  {}

  ghost predicate Changes(sys: System, s: State, step: Step, u: UnitKey) {
    var q := step.p;
    || (step == Write(q, u) && s.Of(q).phase.Executing? && s.Of(q).At(u).Running?)
    || (step == RunScript(q, u) && s.Of(q).phase.Executing? && s.Of(q).At(u).Ready? && sys.runsScript(u))
    || (step == Clean(q, u) && Cleaning(sys, s, q, sys.dirOf(u)))
    || (step == Wipe(q, sys.dirOf(u)) && sys.config(q).role.CleanAll? && sys.dirOf(u) in sys.config(q).dirs)
  }
}
