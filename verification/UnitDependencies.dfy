/** The direct dependencies of a unit (`src/compiler/unit_dependencies.rs`, `compute_deps` and
    its helpers), and the order every edge it creates goes down. */
module UnitDependencies {
  import opened Units

  /** The purpose a unit is built for (`UnitFor`); only passed along here. */
  type UnitFor = nat

  datatype Purpose = ForRoot | ForDependency | ForCustomBuild | ForArtifact | ForNormal

  datatype DepKind = NormalDep | DevelopmentDep | BuildDep

  datatype ArtifactKind = AllBinaries | SelectedBinary(name: string) | CdylibArtifact | StaticlibArtifact

  datatype Artifact = Artifact(kinds: seq<ArtifactKind>, isLib: bool)

  datatype Dependency = Dependency(kind: DepKind, artifact: Option<Artifact>)
  {
    predicate IsTransitive() { !kind.DevelopmentDep? }

    predicate IsBuild() { kind.BuildDep? }
  }

  /** One entry of `Resolve::deps`: a package and the manifest entries that name it. */
  datatype Resolved = Resolved(pkg: Package, deps: seq<Dependency>)

  datatype UnitDep = UnitDep(unit: Unit, unitFor: UnitFor, depName: Option<string>)

  /** What `compute_deps` reads but does not decide: the two resolves, platform and feature
      activation, profiles, flags and the failures of the helpers it calls. */
  datatype World = World(
    resolve: (bool, PackageId) -> seq<Resolved>,
    depName: (bool, PackageId, PackageId) -> Option<string>,
    active: (Unit, UnitFor, Dependency) -> bool,
    identity: (Package, Target, UnitFor, CompileKind, CompileMode) -> (ProfileLto, nat),
    linksOverridden: (CompileKind, Package) -> bool,
    unitFor: (Unit, UnitFor, Target, Purpose) -> UnitFor,
    artifactKind: (Unit, Dependency) -> CompileKind,
    binSelected: (Unit, Target) -> bool,
    isMember: Package -> bool,
    fails: (Unit, UnitFor) -> bool,
    dualProcMacros: bool,
    documentDeps: bool,
    scrapeUnits: seq<Unit>)

  // ----- Helpers of compute_deps -----

  /** `UnitInterner::intern` never keeps the dylib half of a standard library crate. */
  function InternedTarget(target: Target, isStd: bool): Target {
    if isStd && target.IsLib() && Dylib in target.kind.crateTypes
    then target.(kind := LibTarget([Rlib]))
    else target
  }

  /** `new_unit_dep`. A dependency inside a package has no name in its manifest. */
  function NewUnitDep(w: World, parent: Package, pkg: Package, target: Target, unitFor: UnitFor, kind: CompileKind,
                      mode: CompileMode, artifact: bool, isStd: bool): UnitDep
  {
    var (lto, variant) := w.identity(pkg, target, unitFor, kind, mode);
    UnitDep(Unit(pkg, InternedTarget(target, isStd), lto, kind, mode, w.linksOverridden(kind, pkg),
                 artifact, isStd, variant), unitFor, if parent.id == pkg.id then None else w.depName(isStd, parent.id, pkg.id))
  }

  /** `CompileKind::for_target`: host units stay on the host. */
  function KindFor(kind: CompileKind, target: Target): CompileKind {
    if target.forHost then Host else kind
  }

  function CheckOrBuildMode(mode: CompileMode, target: Target): CompileMode {
    match mode
    case Check(_) => if target.forHost then Build else Check(false)
    case Doc => if target.forHost then Build else Check(false)
    case Docscrape => if target.forHost then Build else Check(false)
    case _ => Build
  }

  /** Whether a dev-dependency applies to the unit. */
  predicate UsesDevDeps(unit: Unit) {
    unit.target.IsTest() || unit.target.IsExample() || unit.mode.IsAnyTest()
  }

  predicate DepUsed(w: World, unit: Unit, unitFor: UnitFor, dep: Dependency) {
    && unit.target.IsCustomBuild() == dep.IsBuild()
    && (dep.IsTransitive() || UsesDevDeps(unit))
    && w.active(unit, unitFor, dep)
  }

  function UsedDeps(w: World, unit: Unit, unitFor: UnitFor, deps: seq<Dependency>): (r: seq<Dependency>)
    ensures forall d | d in r :: d in deps && DepUsed(w, unit, unitFor, d)
  {
    if deps == [] then []
    else if DepUsed(w, unit, unitFor, deps[0]) then [deps[0]] + UsedDeps(w, unit, unitFor, deps[1..])
    else UsedDeps(w, unit, unitFor, deps[1..])
  }

  function FirstLib(targets: seq<Target>): (r: Option<Target>)
    ensures r.Some? ==> r.value in targets && r.value.IsLib()
  {
    if targets == [] then None
    else if targets[0].IsLib() then Some(targets[0])
    else FirstLib(targets[1..])
  }

  function FirstLinkable(targets: seq<Target>): (r: Option<Target>)
    ensures r.Some? ==> r.value in targets && r.value.IsLib()
  {
    if targets == [] then None
    else if targets[0].IsLinkable() then Some(targets[0])
    else FirstLinkable(targets[1..])
  }

  function FirstDocumentedLib(targets: seq<Target>): (r: Option<Target>)
    ensures r.Some? ==> r.value in targets && r.value.IsLib()
  {
    if targets == [] then None
    else if targets[0].IsLinkable() && targets[0].documented then Some(targets[0])
    else FirstDocumentedLib(targets[1..])
  }

  /** The targets one artifact kind selects; libraries are split into single crate types. */
  function MatchArtifact(kind: ArtifactKind, targets: seq<Target>): (r: seq<Target>)
    ensures forall t | t in r :: t.IsBin() || (t.IsLib() && !t.IsLinkable())
  {
    if targets == [] then []
    else
      var t := targets[0];
      var rest := MatchArtifact(kind, targets[1..]);
      match kind
      case AllBinaries => if t.IsBin() then [t] + rest else rest
      case SelectedBinary(name) => if t.IsBin() && t.name == name then [t] + rest else rest
      case CdylibArtifact =>
        if t.IsLib() && Cdylib in t.kind.crateTypes then [t.(kind := LibTarget([Cdylib]))] + rest else rest
      case StaticlibArtifact =>
        if t.IsLib() && Staticlib in t.kind.crateTypes then [t.(kind := LibTarget([Staticlib]))] + rest else rest
  }

  function MatchArtifacts(kinds: seq<ArtifactKind>, targets: seq<Target>): (r: seq<Target>)
    ensures forall t | t in r :: t.IsBin() || (t.IsLib() && !t.IsLinkable())
  {
    if kinds == [] then [] else MatchArtifact(kinds[0], targets) + MatchArtifacts(kinds[1..], targets)
  }

  function UnitDepsFor(w: World, parent: Package, pkg: Package, targets: seq<Target>, unitFor: UnitFor, kind: CompileKind,
                       mode: CompileMode, artifact: bool, isStd: bool): (r: seq<UnitDep>)
    ensures forall d | d in r :: exists t | t in targets :: d == NewUnitDep(w, parent, pkg, t, unitFor, kind, mode, artifact, isStd)
  {
    if targets == [] then []
    else [NewUnitDep(w, parent, pkg, targets[0], unitFor, kind, mode, artifact, isStd)]
         + UnitDepsFor(w, parent, pkg, targets[1..], unitFor, kind, mode, artifact, isStd)
  }

  /** Units for the artifacts that `deps` ask of `pkg`. */
  function ArtifactDeps(w: World, unit: Unit, unitFor: UnitFor, isStd: bool, pkg: Package, deps: seq<Dependency>): (r: seq<UnitDep>)
    ensures forall d | d in r :: BuiltArtifact(d.unit, pkg, isStd)
  {
    if deps == [] then []
    else
      (match deps[0].artifact
       case None => []
       case Some(artifact) =>
         var targets := MatchArtifacts(artifact.kinds, pkg.targets);
         UnitDepsFor(w, unit.pkg, pkg, targets, unitFor, w.artifactKind(unit, deps[0]), Build, true, isStd))
      + ArtifactDeps(w, unit, unitFor, isStd, pkg, deps[1..])
  }

  predicate BuiltArtifact(d: Unit, pkg: Package, isStd: bool) {
    && d.pkg == pkg && d.isStd == isStd && d.mode == Build
    && (d.target.IsBin() || (d.target.IsLib() && !d.target.IsLinkable()))
  }

  /** The library units for one resolved package. */
  function LibDeps(w: World, unit: Unit, unitFor: UnitFor, isStd: bool, pkg: Package, used: seq<Dependency>): (r: seq<UnitDep>)
    ensures forall d | d in r :: BuiltLib(d.unit, unit, pkg, isStd)
  {
    if !exists d | d in used :: d.artifact.None? || d.artifact.value.isLib then []
    else
      match FirstLib(pkg.targets)
      case None => []
      case Some(lib) =>
        var mode := CheckOrBuildMode(unit.mode, lib);
        var depFor := w.unitFor(unit, unitFor, lib, ForDependency);
        if w.dualProcMacros && lib.procMacro && unit.kind != Host && !unit.mode.Doc?
        then [NewUnitDep(w, unit.pkg, pkg, lib, depFor, unit.kind, mode, false, isStd),
              NewUnitDep(w, unit.pkg, pkg, lib, depFor, Host, mode, false, isStd)]
        else [NewUnitDep(w, unit.pkg, pkg, lib, depFor, KindFor(unit.kind, lib), mode, false, isStd)]
  }

  predicate BuiltLib(d: Unit, parent: Unit, pkg: Package, isStd: bool) {
    && d.pkg == pkg && d.isStd == isStd && d.target.IsLib()
    && (d.mode == Build || d.mode == Check(false))
    && (parent.mode == Build || parent.mode == RunCustomBuild ==> d.mode == Build)
  }

  /** Everything `compute_deps` adds for the resolved packages, in order. */
  function ResolvedDeps(w: World, unit: Unit, unitFor: UnitFor, isStd: bool, entries: seq<Resolved>): seq<UnitDep> {
    if entries == [] then []
    else
      var used := UsedDeps(w, unit, unitFor, entries[0].deps);
      (if used == [] then [] else
         (if unit.target.IsCustomBuild() then [] else
            ArtifactDeps(w, unit, w.unitFor(unit, unitFor, unit.target, ForArtifact), isStd, entries[0].pkg, used))
         + LibDeps(w, unit, unitFor, isStd, entries[0].pkg, used)
         + DocDeps(w, unit, unitFor, isStd, entries[0].pkg, used))
      + ResolvedDeps(w, unit, unitFor, isStd, entries[1..])
  }

  /** Documenting a unit also documents its dependencies when asked to. */
  function DocDeps(w: World, unit: Unit, unitFor: UnitFor, isStd: bool, pkg: Package, used: seq<Dependency>): (r: seq<UnitDep>)
    ensures forall d | d in r :: unit.mode.Doc? && d.unit.mode.Doc? && d.unit.pkg == pkg && d.unit.target.IsLib() && d.unit.isStd == isStd
  {
    if !unit.mode.Doc? || !w.documentDeps || LibDeps(w, unit, unitFor, isStd, pkg, used) == [] then []
    else
      match FirstLib(pkg.targets)
      case None => []
      case Some(lib) =>
        if lib.documented
        then [NewUnitDep(w, unit.pkg, pkg, lib, w.unitFor(unit, unitFor, lib, ForDependency), KindFor(unit.kind, lib), Doc, false, isStd)]
        else []
  }

  /** The edges `compute_deps` records as due to dev-dependencies alone. */
  function DevEdges(w: World, unit: Unit, unitFor: UnitFor, isStd: bool, entries: seq<Resolved>): (r: set<(Unit, Unit)>)
    ensures forall e | e in r :: e.0 == unit
  {
    if entries == [] then {}
    else
      var used := UsedDeps(w, unit, unitFor, entries[0].deps);
      (if used != [] && (forall d | d in used :: !d.IsTransitive())
       then set d | d in LibDeps(w, unit, unitFor, isStd, entries[0].pkg, used) :: (unit, d.unit)
       else {})
      + DevEdges(w, unit, unitFor, isStd, entries[1..])
  }

  /** The run of each build script of the unit's package. */
  function BuildScriptDeps(w: World, unit: Unit, unitFor: UnitFor, isStd: bool, targets: seq<Target>): (r: seq<UnitDep>)
    ensures forall d | d in r :: d.unit.IsRunCustomBuild() && d.unit.pkg == unit.pkg && d.unit.target.IsCustomBuild() && d.unit.isStd == isStd
  {
    if targets == [] then []
    else
      (if targets[0].IsCustomBuild()
       then [NewUnitDep(w, unit.pkg, unit.pkg, targets[0], w.unitFor(unit, unitFor, targets[0], ForCustomBuild), unit.kind, RunCustomBuild, false, isStd)]
       else [])
      + BuildScriptDeps(w, unit, unitFor, isStd, targets[1..])
  }

  /** `maybe_lib`: the library of the unit's own package. */
  function OwnLib(w: World, unit: Unit, unitFor: UnitFor, isStd: bool): (r: seq<UnitDep>)
    ensures forall d | d in r :: BuiltLib(d.unit, unit, unit.pkg, isStd)
  {
    match FirstLinkable(unit.pkg.targets)
    case None => []
    case Some(lib) =>
      [NewUnitDep(w, unit.pkg, unit.pkg, lib, w.unitFor(unit, unitFor, lib, ForDependency), KindFor(unit.kind, lib),
                  CheckOrBuildMode(unit.mode, lib), false, isStd)]
  }

  /** The binaries an integration test or benchmark needs. */
  function OwnBins(w: World, unit: Unit, unitFor: UnitFor, isStd: bool, targets: seq<Target>): (r: seq<UnitDep>)
    ensures forall d | d in r :: d.unit.pkg == unit.pkg && d.unit.target.IsBin() && d.unit.mode == Build && d.unit.isStd == isStd
  {
    if targets == [] then []
    else
      (if targets[0].IsBin() && w.binSelected(unit, targets[0])
       then [NewUnitDep(w, unit.pkg, unit.pkg, targets[0], w.unitFor(unit, unitFor, targets[0], ForNormal), KindFor(unit.kind, targets[0]), Build, false, isStd)]
       else [])
      + OwnBins(w, unit, unitFor, isStd, targets[1..])
  }

  /** `compute_deps` for everything that is neither documented nor a script run. */
  function RegularDeps(w: World, unit: Unit, unitFor: UnitFor, isStd: bool): seq<UnitDep> {
    var resolved := ResolvedDeps(w, unit, unitFor, isStd, w.resolve(isStd, unit.pkg.id));
    if unit.target.IsCustomBuild() then resolved
    else
      var withScript := resolved + BuildScriptDeps(w, unit, unitFor, isStd, unit.pkg.targets);
      if unit.target.IsLib() && unit.mode != Doctest then withScript
      else
        withScript + OwnLib(w, unit, unitFor, isStd)
        + (if !unit.mode.Check? && unit.mode.IsAnyTest() && (unit.target.IsTest() || unit.target.IsBench())
           then OwnBins(w, unit, unitFor, isStd, unit.pkg.targets)
           else [])
  }

  /** Artifacts requested by the build-dependencies of a script. */
  function ScriptArtifacts(w: World, unit: Unit, unitFor: UnitFor, isStd: bool, entries: seq<Resolved>): seq<UnitDep> {
    if entries == [] then []
    else
      ArtifactDeps(w, unit, w.unitFor(unit, unitFor, unit.target, ForArtifact), isStd, entries[0].pkg,
                   UsedDeps(w, unit, unitFor, entries[0].deps))
      + ScriptArtifacts(w, unit, unitFor, isStd, entries[1..])
  }

  /** `compute_deps_custom_build`: compile the script, and build the artifacts it uses. */
  function CustomBuildDeps(w: World, unit: Unit, unitFor: UnitFor, isStd: bool): seq<UnitDep> {
    if unit.pkg.links.Some? && unit.linksOverridden then []
    else
      var scriptFor := w.unitFor(unit, unitFor, unit.target, ForCustomBuild);
      [NewUnitDep(w, unit.pkg, unit.pkg, unit.target, scriptFor, Host, Build, false, isStd)]
      + ScriptArtifacts(w, unit, scriptFor, isStd, w.resolve(isStd, unit.pkg.id))
  }

  /** `compute_deps_doc`, before the units scraped for examples. */
  function DocumentedDeps(w: World, unit: Unit, unitFor: UnitFor, isStd: bool): seq<UnitDep> {
    ResolvedDeps(w, unit, unitFor, isStd, w.resolve(isStd, unit.pkg.id))
    + BuildScriptDeps(w, unit, unitFor, isStd, unit.pkg.targets)
    + (if unit.target.IsBin() || unit.target.IsExample()
       then
         OwnLib(w, unit, unitFor, isStd)
         + (match FirstDocumentedLib(unit.pkg.targets)
            case None => []
            case Some(lib) =>
              [NewUnitDep(w, unit.pkg, unit.pkg, lib, w.unitFor(unit, unitFor, lib, ForDependency), KindFor(unit.kind, lib), Doc, false, isStd)])
       else [])
  }

  predicate NeedsDocScrape(w: World, unit: Unit) {
    && w.isMember(unit.pkg)
    && !(unit.target.forHost || exists t | t in unit.pkg.targets :: t.procMacro)
  }

  function ScrapeDeps(w: World, isStd: bool, units: seq<Unit>): (r: seq<UnitDep>)
    ensures forall d | d in r :: exists s | s in units :: d.unit.mode == s.mode && d.unit.isStd == isStd
  {
    if units == [] then []
    else
      var unitFor := w.unitFor(units[0], 0, units[0].target, ForNormal);
      [NewUnitDep(w, units[0].pkg, units[0].pkg, units[0].target, unitFor, units[0].kind, units[0].mode, false, isStd)]
      + ScrapeDeps(w, isStd, units[1..])
  }

  /** The whole of `compute_deps`. */
  function ComputeDeps(w: World, unit: Unit, unitFor: UnitFor, isStd: bool): seq<UnitDep> {
    if unit.IsRunCustomBuild() then CustomBuildDeps(w, unit, unitFor, isStd)
    else if unit.mode.Doc? then
      DocumentedDeps(w, unit, unitFor, isStd)
      + (if NeedsDocScrape(w, unit) then ScrapeDeps(w, isStd, w.scrapeUnits) else [])
    else RegularDeps(w, unit, unitFor, isStd)
  }

  /** The dev edges the call records; the documentation branch records none. */
  function RecordedDevEdges(w: World, unit: Unit, unitFor: UnitFor, isStd: bool): set<(Unit, Unit)> {
    if unit.IsRunCustomBuild() || unit.mode.Doc? then {}
    else DevEdges(w, unit, unitFor, isStd, w.resolve(isStd, unit.pkg.id))
  }

  // ----- The order that edges go down -----

  /** `from` names `to` through a dependency that is not a dev-dependency. */
  ghost predicate NonDev(w: World, isStd: bool, from: PackageId, to: PackageId) {
    exists e | e in w.resolve(isStd, from) :: e.pkg.id == to && exists d | d in e.deps :: d.IsTransitive()
  }

  /** Units on the building side: dev-dependencies never enter here. */
  predicate Core(u: Unit) {
    && (u.mode == Build || u.mode == Check(false) || u.mode == RunCustomBuild)
    && !u.target.IsTest() && !u.target.IsExample()
  }

  function Tier(u: Unit): nat {
    if u.mode.Doc? then (if u.target.IsLib() then 2 else 3)
    else if Core(u) then 0 else 1
  }

  /** The order inside one package: executables, library, script run, script. */
  function Layer(u: Unit): nat {
    if u.IsRunCustomBuild() then 1
    else if u.target.IsCustomBuild() then 0
    else if u.target.IsLib() then 2 else 3
  }

  /** The edge goes down: to a lower tier, or to a package below, or inside the package. */
  ghost predicate Descends(w: World, u: Unit, d: Unit) {
    || Tier(d) < Tier(u)
    || (Tier(d) == Tier(u) && NonDev(w, u.isStd, u.pkg.id, d.pkg.id))
    || (Tier(d) == Tier(u) && d.pkg.id == u.pkg.id && Layer(d) < Layer(u))
  }

  /** A dependency through dev-dependencies that `compute_deps_doc` leaves unrecorded. */
  predicate UnrecordedDevParent(u: Unit) {
    u.mode.Doc? && (u.target.IsTest() || u.target.IsExample())
  }

  /** What is known of an edge created by `compute_deps`; `recorded` tells whether it is
      among the recorded dev edges. */
  ghost predicate EdgeFacts(w: World, u: Unit, d: Unit, recorded: bool) {
    && d.isStd == u.isStd
    && (d.mode.Doc? ==> u.mode.Doc? && d.target.IsLib())
    && Descends(w, u, d)
    && (d.IsRunCustomBuild() ==> d.pkg == u.pkg && !u.IsRunCustomBuild() && d.target.IsCustomBuild())
    && (d.target.IsLinkable() && d.pkg.id != u.pkg.id && !d.mode.Docscrape? ==>
          NonDev(w, u.isStd, u.pkg.id, d.pkg.id) || recorded || UnrecordedDevParent(u))
  }

  /** A unit as Cargo makes them: only build scripts are run as scripts. */
  predicate WellFormed(u: Unit) {
    u.IsRunCustomBuild() ==> u.target.IsCustomBuild()
  }

  ghost predicate WellFormedWorld(w: World) {
    forall s | s in w.scrapeUnits :: s.mode.Docscrape? && !s.isStd
  }

  /** A unit made for a resolved package: its library, an artifact, or its documentation. */
  predicate MadeFor(d: Unit, u: Unit, pkg: Package) {
    || BuiltLib(d, u, pkg, u.isStd)
    || BuiltArtifact(d, pkg, u.isStd)
    || (u.mode.Doc? && d.mode.Doc? && d.pkg == pkg && d.target.IsLib() && d.isStd == u.isStd)
  }

  lemma MadeForTier(d: Unit, u: Unit, pkg: Package)
    requires MadeFor(d, u, pkg)
    ensures Tier(d) <= Tier(u)
    ensures UsesDevDeps(u) ==> Tier(d) < Tier(u)
  {}

  lemma EntryFacts(w: World, u: Unit, unitFor: UnitFor, e: Resolved, d: Unit)
    requires !u.IsRunCustomBuild() && e in w.resolve(u.isStd, u.pkg.id)
    requires UsedDeps(w, u, unitFor, e.deps) != [] && MadeFor(d, u, e.pkg)
    ensures EdgeFacts(w, u, d, !u.mode.Doc? && (forall x | x in UsedDeps(w, u, unitFor, e.deps) :: !x.IsTransitive()))
  {
    MadeForTier(d, u, e.pkg);
    var used := UsedDeps(w, u, unitFor, e.deps);
    if x :| x in used && x.IsTransitive() {
      assert NonDev(w, u.isStd, u.pkg.id, d.pkg.id);
    } else {
      assert used[0] in used;
      assert UsesDevDeps(u);
    }
  }

  lemma {:induction false} ResolvedFacts(w: World, u: Unit, unitFor: UnitFor, entries: seq<Resolved>, d: UnitDep)
    requires !u.IsRunCustomBuild()
    requires forall e | e in entries :: e in w.resolve(u.isStd, u.pkg.id)
    requires d in ResolvedDeps(w, u, unitFor, u.isStd, entries)
    ensures EdgeFacts(w, u, d.unit, !u.mode.Doc? && (u, d.unit) in DevEdges(w, u, unitFor, u.isStd, entries))
  {
    if d in ResolvedDeps(w, u, unitFor, u.isStd, entries[1..]) {
      ResolvedFacts(w, u, unitFor, entries[1..], d);
    } else {
      var e := entries[0];
      var used := UsedDeps(w, u, unitFor, e.deps);
      EntryFacts(w, u, unitFor, e, d.unit);
    }
  }

  lemma ArtifactFacts(w: World, u: Unit, unitFor: UnitFor, e: Resolved, d: Unit)
    requires u.IsRunCustomBuild() && u.target.IsCustomBuild() && e in w.resolve(u.isStd, u.pkg.id)
    requires UsedDeps(w, u, unitFor, e.deps) != [] && BuiltArtifact(d, e.pkg, u.isStd)
    ensures EdgeFacts(w, u, d, false)
  {
    var used := UsedDeps(w, u, unitFor, e.deps);
    assert used[0] in used;
    assert NonDev(w, u.isStd, u.pkg.id, d.pkg.id);
  }

  lemma {:induction false} ScriptArtifactFacts(w: World, u: Unit, unitFor: UnitFor, entries: seq<Resolved>, d: UnitDep)
    requires u.IsRunCustomBuild() && u.target.IsCustomBuild()
    requires forall e | e in entries :: e in w.resolve(u.isStd, u.pkg.id)
    requires d in ScriptArtifacts(w, u, unitFor, u.isStd, entries)
    ensures EdgeFacts(w, u, d.unit, false)
  {
    if d in ScriptArtifacts(w, u, unitFor, u.isStd, entries[1..]) {
      ScriptArtifactFacts(w, u, unitFor, entries[1..], d);
    } else {
      ArtifactFacts(w, u, unitFor, entries[0], d.unit);
    }
  }

  /** Edges inside the package: script runs, the library, binaries and its documentation. */
  lemma OwnPackageFacts(w: World, u: Unit, unitFor: UnitFor, d: UnitDep)
    requires u.mode.Doc? || (!u.IsRunCustomBuild() && !u.target.IsCustomBuild())
    requires || d in BuildScriptDeps(w, u, unitFor, u.isStd, u.pkg.targets)
             || ((!u.target.IsLib() || u.mode.Doctest?) && d in OwnLib(w, u, unitFor, u.isStd))
             || (u.mode.IsAnyTest() && d in OwnBins(w, u, unitFor, u.isStd, u.pkg.targets))
             || (u.mode.Doc? && !u.target.IsLib() && d.unit.mode.Doc? && d.unit.target.IsLib()
                 && d.unit.pkg == u.pkg && d.unit.isStd == u.isStd)
    ensures EdgeFacts(w, u, d.unit, false)
  {}

  /** Every edge that `compute_deps` creates goes down, stays in its build of the standard
      library, reaches script runs from their own package only, and skips the non-dev package
      order only where the edge is recorded, or in documentation of tests and examples. */
  lemma ComputedEdgeFacts(w: World, u: Unit, unitFor: UnitFor, d: UnitDep)
    requires WellFormedWorld(w) && WellFormed(u)
    requires d in ComputeDeps(w, u, unitFor, u.isStd)
    ensures EdgeFacts(w, u, d.unit, (u, d.unit) in RecordedDevEdges(w, u, unitFor, u.isStd))
  {
    if u.IsRunCustomBuild() {
      CustomBuildFacts(w, u, unitFor, d);
    } else if d in ResolvedDeps(w, u, unitFor, u.isStd, w.resolve(u.isStd, u.pkg.id)) {
      ResolvedFacts(w, u, unitFor, w.resolve(u.isStd, u.pkg.id), d);
    } else if u.mode.Doc? {
      DocumentationFacts(w, u, unitFor, d);
    } else {
      OwnPackageFacts(w, u, unitFor, d);
    }
  }

  lemma CustomBuildFacts(w: World, u: Unit, unitFor: UnitFor, d: UnitDep)
    requires u.IsRunCustomBuild() && u.target.IsCustomBuild() && d in CustomBuildDeps(w, u, unitFor, u.isStd)
    ensures EdgeFacts(w, u, d.unit, false)
  {
    var scriptFor := w.unitFor(u, unitFor, u.target, ForCustomBuild);
    if d in ScriptArtifacts(w, u, scriptFor, u.isStd, w.resolve(u.isStd, u.pkg.id)) {
      ScriptArtifactFacts(w, u, scriptFor, w.resolve(u.isStd, u.pkg.id), d);
    }
  }

  lemma ScrapeFacts(w: World, u: Unit, d: UnitDep)
    requires WellFormedWorld(w) && u.mode.Doc? && NeedsDocScrape(w, u) && d in ScrapeDeps(w, u.isStd, w.scrapeUnits)
    ensures EdgeFacts(w, u, d.unit, false)
  {
    assert d.unit.mode.Docscrape?;
  }

  lemma DocumentationFacts(w: World, u: Unit, unitFor: UnitFor, d: UnitDep)
    requires WellFormedWorld(w) && u.mode.Doc? && d in ComputeDeps(w, u, unitFor, u.isStd)
    requires d !in ResolvedDeps(w, u, unitFor, u.isStd, w.resolve(u.isStd, u.pkg.id))
    ensures EdgeFacts(w, u, d.unit, false)
  {
    if d in DocumentedDeps(w, u, unitFor, u.isStd) {
      OwnPackageFacts(w, u, unitFor, d);
    } else {
      ScrapeFacts(w, u, d);
    }
  }
}
