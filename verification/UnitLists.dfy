/** What a unit depends on, clause by clause: the lists that `compute_deps` makes, described by the
    manifest and the resolve instead of by the passes that collect them. */
module UnitLists {
  import opened Units
  import opened UnitDependencies

  // ----- The words of the description -----

  /** A library that other crates can be linked with. */
  predicate CanBeLinked(t: Target) {
    t.kind.LibTarget? && exists k | k in t.kind.crateTypes :: k in {Lib, Rlib, Dylib, ProcMacro}
  }

  predicate IsLibrary(t: Target) { t.kind.LibTarget? }

  predicate LinkedAndDocumented(t: Target) { CanBeLinked(t) && t.documented }

  /** The first of the targets that is wanted. */
  ghost predicate FirstOf(targets: seq<Target>, wanted: Target -> bool, t: Target) {
    exists i | 0 <= i < |targets| :: targets[i] == t && wanted(t) && forall j | 0 <= j < i :: !wanted(targets[j])
  }

  /** Examples, tests and whatever is compiled as a test see dev-dependencies. */
  predicate SeesDevDependencies(u: Unit) {
    || u.target.kind.TestTarget? || u.target.kind.ExampleBin? || u.target.kind.ExampleLib?
    || u.mode == Test || u.mode == Doctest || u.mode == Check(true)
  }

  /** Build scripts have build-dependencies and nothing else has. */
  predicate Applies(w: World, u: Unit, f: UnitFor, dep: Dependency) {
    && w.active(u, f, dep)
    && match dep.kind
       case BuildDep => u.target.kind.CustomBuild?
       case NormalDep => !u.target.kind.CustomBuild?
       case DevelopmentDep => !u.target.kind.CustomBuild? && SeesDevDependencies(u)
  }

  /** Dependencies of what is checked, documented or scraped are checked, those for the host built. */
  function DependencyMode(u: Unit, lib: Target): CompileMode {
    if (u.mode.Check? || u.mode == Doc || u.mode == Docscrape) && !lib.forHost then Check(false) else Build
  }

  function DependencyKind(u: Unit, target: Target): CompileKind {
    if target.forHost then Host else u.kind
  }

  /** `d` is the unit of that target, for that purpose, as a dependency from package `from`. */
  ghost predicate Made(w: World, isStd: bool, from: Package, d: UnitDep, pkg: Package, target: Target, f: UnitFor, kind: CompileKind,
                       mode: CompileMode, artifact: bool)
  {
    var u := d.unit;
    && u.pkg == pkg && u.kind == kind && u.mode == mode && u.artifact == artifact && u.isStd == isStd
    && u.linksOverridden == w.linksOverridden(kind, pkg)
    && u.lto == w.identity(pkg, target, f, kind, mode).0 && u.variant == w.identity(pkg, target, f, kind, mode).1
    && d.unitFor == f
    && (from.id == pkg.id ==> d.depName == None) && (from.id != pkg.id ==> d.depName == w.depName(isStd, from.id, pkg.id))
    && (isStd && target.kind.LibTarget? && Dylib in target.kind.crateTypes ==> u.target == target.(kind := LibTarget([Rlib])))
    && (!(isStd && target.kind.LibTarget? && Dylib in target.kind.crateTypes) ==> u.target == target)
  }

  // ----- The clauses -----

  /** The library of a resolved package that some dependency names, other than for its artifacts alone. */
  ghost predicate LibraryOf(w: World, u: Unit, f: UnitFor, e: Resolved, lib: Target) {
    && FirstOf(e.pkg.targets, IsLibrary, lib)
    && exists dep | dep in e.deps :: Applies(w, u, f, dep) && (dep.artifact.None? || dep.artifact.value.isLib)
  }

  /** A proc macro may be wanted for the target as well as for the host. */
  predicate KindOfLibrary(w: World, u: Unit, lib: Target, kind: CompileKind) {
    if w.dualProcMacros && lib.procMacro && u.kind != Host && u.mode != Doc then kind == u.kind || kind == Host
    else kind == DependencyKind(u, lib)
  }

  ghost predicate BuildsLibrary(w: World, u: Unit, f: UnitFor, d: UnitDep, e: Resolved, lib: Target) {
    && LibraryOf(w, u, f, e, lib) && KindOfLibrary(w, u, lib, d.unit.kind)
    && Made(w, u.isStd, u.pkg, d, e.pkg, lib, w.unitFor(u, f, lib, ForDependency), d.unit.kind, DependencyMode(u, lib), false)
  }

  ghost predicate DocumentsLibrary(w: World, u: Unit, f: UnitFor, d: UnitDep, e: Resolved, lib: Target) {
    && u.mode == Doc && w.documentDeps && lib.documented && LibraryOf(w, u, f, e, lib)
    && Made(w, u.isStd, u.pkg, d, e.pkg, lib, w.unitFor(u, f, lib, ForDependency), DependencyKind(u, lib), Doc, false)
  }

  /** An artifact kind selects target `t`, to be built as `made`. */
  predicate Selects(kind: ArtifactKind, t: Target, made: Target) {
    match kind
    case AllBinaries => t.kind.BinTarget? && made == t
    case SelectedBinary(name) => t.kind.BinTarget? && t.name == name && made == t
    case CdylibArtifact => t.kind.LibTarget? && Cdylib in t.kind.crateTypes && made == t.(kind := LibTarget([Cdylib]))
    case StaticlibArtifact => t.kind.LibTarget? && Staticlib in t.kind.crateTypes && made == t.(kind := LibTarget([Staticlib]))
  }

  ghost predicate Selected(kinds: seq<ArtifactKind>, targets: seq<Target>, made: Target) {
    exists k, t | k in kinds && t in targets :: Selects(k, t, made)
  }

  ghost predicate BuildsArtifact(w: World, u: Unit, f: UnitFor, d: UnitDep, e: Resolved, dep: Dependency, made: Target) {
    && Applies(w, u, f, dep) && dep.artifact.Some? && Selected(dep.artifact.value.kinds, e.pkg.targets, made)
    && Made(w, u.isStd, u.pkg, d, e.pkg, made, w.unitFor(u, f, u.target, ForArtifact), w.artifactKind(u, dep), Build, true)
  }

  ghost predicate FromResolve(w: World, u: Unit, f: UnitFor, d: UnitDep) {
    exists e | e in w.resolve(u.isStd, u.pkg.id) :: FromEntry(w, u, f, d, e)
  }

  ghost predicate FromEntry(w: World, u: Unit, f: UnitFor, d: UnitDep, e: Resolved) {
    || (exists lib :: BuildsLibrary(w, u, f, d, e, lib) || DocumentsLibrary(w, u, f, d, e, lib))
    || (!u.target.kind.CustomBuild? && ArtifactFromEntry(w, u, f, d, e))
  }

  ghost predicate ArtifactFromEntry(w: World, u: Unit, f: UnitFor, d: UnitDep, e: Resolved) {
    exists dep, made | dep in e.deps :: BuildsArtifact(w, u, f, d, e, dep, made)
  }

  ghost predicate RunOf(w: World, u: Unit, f: UnitFor, d: UnitDep, t: Target) {
    t.kind.CustomBuild? && Made(w, u.isStd, u.pkg, d, u.pkg, t, w.unitFor(u, f, t, ForCustomBuild), u.kind, RunCustomBuild, false)
  }

  ghost predicate RunsScript(w: World, u: Unit, f: UnitFor, d: UnitDep) {
    exists t | t in u.pkg.targets :: RunOf(w, u, f, d, t)
  }

  ghost predicate BuildsOwnLibrary(w: World, u: Unit, f: UnitFor, d: UnitDep) {
    exists t | FirstOf(u.pkg.targets, CanBeLinked, t) ::
      Made(w, u.isStd, u.pkg, d, u.pkg, t, w.unitFor(u, f, t, ForDependency), DependencyKind(u, t), DependencyMode(u, t), false)
  }

  ghost predicate DocumentsOwnLibrary(w: World, u: Unit, f: UnitFor, d: UnitDep) {
    exists t | FirstOf(u.pkg.targets, LinkedAndDocumented, t) ::
      Made(w, u.isStd, u.pkg, d, u.pkg, t, w.unitFor(u, f, t, ForDependency), DependencyKind(u, t), Doc, false)
  }

  ghost predicate BinaryOf(w: World, u: Unit, f: UnitFor, d: UnitDep, t: Target) {
    && t.kind.BinTarget? && w.binSelected(u, t)
    && Made(w, u.isStd, u.pkg, d, u.pkg, t, w.unitFor(u, f, t, ForNormal), DependencyKind(u, t), Build, false)
  }

  ghost predicate BuildsBinary(w: World, u: Unit, f: UnitFor, d: UnitDep) {
    exists t | t in u.pkg.targets :: BinaryOf(w, u, f, d, t)
  }

  ghost predicate ScrapeOf(w: World, u: Unit, d: UnitDep, s: Unit) {
    Made(w, u.isStd, s.pkg, d, s.pkg, s.target, w.unitFor(s, 0, s.target, ForNormal), s.kind, s.mode, false)
  }

  ghost predicate Scrapes(w: World, u: Unit, d: UnitDep) {
    exists s | s in w.scrapeUnits :: ScrapeOf(w, u, d, s)
  }

  /** Integration tests and benchmarks that are compiled, not only checked, run the binaries. */
  predicate RunsBinaries(u: Unit) {
    (u.target.kind.TestTarget? || u.target.kind.BenchTarget?) && (u.mode == Test || u.mode == Doctest)
  }

  /** The dependencies of a unit that is compiled, checked, tested or scraped. */
  ghost predicate CompileNeeds(w: World, u: Unit, f: UnitFor, d: UnitDep) {
    || FromResolve(w, u, f, d)
    || (!u.target.kind.CustomBuild? && RunsScript(w, u, f, d))
    || (!u.target.kind.CustomBuild? && (!u.target.kind.LibTarget? || u.mode == Doctest) && BuildsOwnLibrary(w, u, f, d))
    || (RunsBinaries(u) && BuildsBinary(w, u, f, d))
  }

  /** Those of a unit that is documented. */
  ghost predicate DocumentNeeds(w: World, u: Unit, f: UnitFor, d: UnitDep) {
    || FromResolve(w, u, f, d)
    || RunsScript(w, u, f, d)
    || ((u.target.kind.BinTarget? || u.target.kind.ExampleBin? || u.target.kind.ExampleLib?)
        && (BuildsOwnLibrary(w, u, f, d) || DocumentsOwnLibrary(w, u, f, d)))
    || (w.isMember(u.pkg) && !u.target.forHost && (forall t | t in u.pkg.targets :: !t.procMacro) && Scrapes(w, u, d))
  }

  /** Those of a script run: the compiled script and the artifacts it is given, unless it is overridden. */
  ghost predicate RunNeeds(w: World, u: Unit, f: UnitFor, d: UnitDep) {
    var scriptFor := w.unitFor(u, f, u.target, ForCustomBuild);
    && !(u.pkg.links.Some? && u.linksOverridden)
    && (|| Made(w, u.isStd, u.pkg, d, u.pkg, u.target, scriptFor, Host, Build, false)
        || exists e | e in w.resolve(u.isStd, u.pkg.id) :: ArtifactFromEntry(w, u, scriptFor, d, e))
  }

  ghost predicate Needs(w: World, u: Unit, f: UnitFor, d: UnitDep) {
    if u.mode == RunCustomBuild then RunNeeds(w, u, f, d)
    else if u.mode == Doc then DocumentNeeds(w, u, f, d)
    else CompileNeeds(w, u, f, d)
  }

  // ----- The passes collect exactly that -----

  lemma LinkableIsCanBeLinked(t: Target)
    ensures t.IsLinkable() <==> CanBeLinked(t)
  {}

  lemma MadeIsNew(w: World, isStd: bool, from: Package, d: UnitDep, pkg: Package, target: Target, f: UnitFor, kind: CompileKind,
                  mode: CompileMode, artifact: bool)
    ensures Made(w, isStd, from, d, pkg, target, f, kind, mode, artifact)
       <==> d == NewUnitDep(w, from, pkg, target, f, kind, mode, artifact, isStd)
  {}

  lemma AppliesIsUsed(w: World, u: Unit, f: UnitFor, dep: Dependency)
    ensures DepUsed(w, u, f, dep) <==> Applies(w, u, f, dep)
  {}

  lemma {:induction false} UsedExactly(w: World, u: Unit, f: UnitFor, deps: seq<Dependency>, dep: Dependency)
    ensures dep in UsedDeps(w, u, f, deps) <==> dep in deps && Applies(w, u, f, dep)
  {
    if deps != [] {
      AppliesIsUsed(w, u, f, deps[0]);
      UsedExactly(w, u, f, deps[1..], dep);
    }
  }

  lemma FirstOfStep(targets: seq<Target>, wanted: Target -> bool, t: Target)
    requires targets != []
    ensures FirstOf(targets, wanted, t) <==> if wanted(targets[0]) then t == targets[0] else FirstOf(targets[1..], wanted, t)
  {
    var rest := targets[1..];
    if wanted(targets[0]) {
      assert FirstOf(targets, wanted, targets[0]);
    } else {
      if i :| 0 <= i < |targets| && targets[i] == t && wanted(t) && forall j | 0 <= j < i :: !wanted(targets[j]) {
        assert rest[i - 1] == t && forall j | 0 <= j < i - 1 :: rest[j] == targets[j + 1];
      }
      if i :| 0 <= i < |rest| && rest[i] == t && wanted(t) && forall j | 0 <= j < i :: !wanted(rest[j]) {
        assert targets[i + 1] == t && forall j | 0 < j < i + 1 :: targets[j] == rest[j - 1];
      }
    }
  }

  lemma {:induction false} FirstLibExactly(targets: seq<Target>, t: Target)
    ensures FirstLib(targets) == Some(t) <==> FirstOf(targets, IsLibrary, t)
  {
    if targets != [] {
      FirstOfStep(targets, IsLibrary, t);
      FirstLibExactly(targets[1..], t);
    }
  }

  lemma {:induction false} FirstLinkableExactly(targets: seq<Target>, t: Target)
    ensures FirstLinkable(targets) == Some(t) <==> FirstOf(targets, CanBeLinked, t)
  {
    if targets != [] {
      FirstOfStep(targets, CanBeLinked, t);
      LinkableIsCanBeLinked(targets[0]);
      FirstLinkableExactly(targets[1..], t);
    }
  }

  lemma {:induction false} FirstDocumentedExactly(targets: seq<Target>, t: Target)
    ensures FirstDocumentedLib(targets) == Some(t) <==> FirstOf(targets, LinkedAndDocumented, t)
  {
    if targets != [] {
      FirstOfStep(targets, LinkedAndDocumented, t);
      LinkableIsCanBeLinked(targets[0]);
      FirstDocumentedExactly(targets[1..], t);
    }
  }

  lemma {:induction false} MatchExactly(kind: ArtifactKind, targets: seq<Target>, made: Target)
    ensures made in MatchArtifact(kind, targets) <==> exists t | t in targets :: Selects(kind, t, made)
  {
    if targets != [] {
      MatchExactly(kind, targets[1..], made);
      assert made in MatchArtifact(kind, targets) <==> Selects(kind, targets[0], made) || made in MatchArtifact(kind, targets[1..]);
      assert targets[0] in targets && forall t | t in targets[1..] :: t in targets;
    }
  }

  lemma {:induction false} MatchesExactly(kinds: seq<ArtifactKind>, targets: seq<Target>, made: Target)
    ensures made in MatchArtifacts(kinds, targets) <==> Selected(kinds, targets, made)
  {
    if kinds != [] {
      MatchExactly(kinds[0], targets, made);
      MatchesExactly(kinds[1..], targets, made);
      assert kinds == [kinds[0]] + kinds[1..];
    }
  }

  lemma {:induction false} UnitsFor(w: World, parent: Package, pkg: Package, targets: seq<Target>, f: UnitFor, kind: CompileKind,
                                    mode: CompileMode, artifact: bool, isStd: bool, d: UnitDep)
    ensures d in UnitDepsFor(w, parent, pkg, targets, f, kind, mode, artifact, isStd)
       <==> exists t | t in targets :: Made(w, isStd, parent, d, pkg, t, f, kind, mode, artifact)
  {
    if targets != [] {
      UnitsFor(w, parent, pkg, targets[1..], f, kind, mode, artifact, isStd, d);
      MadeIsNew(w, isStd, parent, d, pkg, targets[0], f, kind, mode, artifact);
      assert targets == [targets[0]] + targets[1..];
    }
  }

  /** The artifacts of one dependency. */
  ghost predicate ArtifactMade(w: World, u: Unit, artFor: UnitFor, d: UnitDep, pkg: Package, dep: Dependency, made: Target) {
    && dep.artifact.Some? && Selected(dep.artifact.value.kinds, pkg.targets, made)
    && Made(w, u.isStd, u.pkg, d, pkg, made, artFor, w.artifactKind(u, dep), Build, true)
  }

  lemma ArtifactsOfOne(w: World, u: Unit, artFor: UnitFor, pkg: Package, dep: Dependency, d: UnitDep)
    requires dep.artifact.Some?
    ensures d in UnitDepsFor(w, u.pkg, pkg, MatchArtifacts(dep.artifact.value.kinds, pkg.targets), artFor, w.artifactKind(u, dep), Build, true, u.isStd)
       <==> exists made :: ArtifactMade(w, u, artFor, d, pkg, dep, made)
  {
    var targets := MatchArtifacts(dep.artifact.value.kinds, pkg.targets);
    UnitsFor(w, u.pkg, pkg, targets, artFor, w.artifactKind(u, dep), Build, true, u.isStd, d);
    forall made ensures made in targets <==> Selected(dep.artifact.value.kinds, pkg.targets, made) {
      MatchesExactly(dep.artifact.value.kinds, pkg.targets, made);
    }
    forall t | t in targets ensures Made(w, u.isStd, u.pkg, d, pkg, t, artFor, w.artifactKind(u, dep), Build, true)
      <==> ArtifactMade(w, u, artFor, d, pkg, dep, t) {}
  }

  lemma {:induction false} ArtifactsExactly(w: World, u: Unit, artFor: UnitFor, pkg: Package, deps: seq<Dependency>, d: UnitDep)
    ensures d in ArtifactDeps(w, u, artFor, u.isStd, pkg, deps)
       <==> exists dep, made | dep in deps :: ArtifactMade(w, u, artFor, d, pkg, dep, made)
  {
    if deps != [] {
      ArtifactsExactly(w, u, artFor, pkg, deps[1..], d);
      if deps[0].artifact.Some? {
        ArtifactsOfOne(w, u, artFor, pkg, deps[0], d);
      }
      assert deps == [deps[0]] + deps[1..];
    }
  }

  lemma LibrariesExactly(w: World, u: Unit, f: UnitFor, e: Resolved, d: UnitDep)
    ensures d in LibDeps(w, u, f, u.isStd, e.pkg, UsedDeps(w, u, f, e.deps)) <==> exists lib :: BuildsLibrary(w, u, f, d, e, lib)
  {
    forall dep ensures dep in UsedDeps(w, u, f, e.deps) <==> dep in e.deps && Applies(w, u, f, dep) {
      UsedExactly(w, u, f, e.deps, dep);
    }
    forall lib ensures FirstLib(e.pkg.targets) == Some(lib) <==> FirstOf(e.pkg.targets, IsLibrary, lib) {
      FirstLibExactly(e.pkg.targets, lib);
    }
    var used := UsedDeps(w, u, f, e.deps);
    match FirstLib(e.pkg.targets)
    case None =>
      assert forall lib :: !FirstOf(e.pkg.targets, IsLibrary, lib);
    case Some(lib) =>
      assert (exists x | x in used :: x.artifact.None? || x.artifact.value.isLib) <==> LibraryOf(w, u, f, e, lib);
      if LibraryOf(w, u, f, e, lib) {
        LibraryExactly(w, u, f, e, lib, used, d);
      }
      assert forall other | BuildsLibrary(w, u, f, d, e, other) :: other == lib;
  }

  /** The units of one library. */
  lemma LibraryExactly(w: World, u: Unit, f: UnitFor, e: Resolved, lib: Target, used: seq<Dependency>, d: UnitDep)
    requires FirstLib(e.pkg.targets) == Some(lib) && LibraryOf(w, u, f, e, lib)
    requires exists x | x in used :: x.artifact.None? || x.artifact.value.isLib
    ensures d in LibDeps(w, u, f, u.isStd, e.pkg, used) <==> BuildsLibrary(w, u, f, d, e, lib)
  {
    var depFor, mode := w.unitFor(u, f, lib, ForDependency), DependencyMode(u, lib);
    assert mode == CheckOrBuildMode(u.mode, lib) && DependencyKind(u, lib) == KindFor(u.kind, lib);
    MadeIsNew(w, u.isStd, u.pkg, d, e.pkg, lib, depFor, d.unit.kind, mode, false);
    MadeIsNew(w, u.isStd, u.pkg, d, e.pkg, lib, depFor, u.kind, mode, false);
    MadeIsNew(w, u.isStd, u.pkg, d, e.pkg, lib, depFor, Host, mode, false);
  }

  lemma DocumentationExactly(w: World, u: Unit, f: UnitFor, e: Resolved, d: UnitDep)
    ensures d in DocDeps(w, u, f, u.isStd, e.pkg, UsedDeps(w, u, f, e.deps)) <==> exists lib :: DocumentsLibrary(w, u, f, d, e, lib)
  {
    var used := UsedDeps(w, u, f, e.deps);
    forall dep ensures dep in used <==> dep in e.deps && Applies(w, u, f, dep) {
      UsedExactly(w, u, f, e.deps, dep);
    }
    forall lib ensures FirstLib(e.pkg.targets) == Some(lib) <==> FirstOf(e.pkg.targets, IsLibrary, lib) {
      FirstLibExactly(e.pkg.targets, lib);
    }
    match FirstLib(e.pkg.targets)
    case None =>
      assert forall lib :: !FirstOf(e.pkg.targets, IsLibrary, lib);
    case Some(lib) =>
      assert LibDeps(w, u, f, u.isStd, e.pkg, used) != [] <==> LibraryOf(w, u, f, e, lib);
      MadeIsNew(w, u.isStd, u.pkg, d, e.pkg, lib, w.unitFor(u, f, lib, ForDependency), DependencyKind(u, lib), Doc, false);
      assert d in DocDeps(w, u, f, u.isStd, e.pkg, used) <==> DocumentsLibrary(w, u, f, d, e, lib);
      assert forall other | DocumentsLibrary(w, u, f, d, e, other) :: other == lib;
  }

  lemma ArtifactsOfEntry(w: World, u: Unit, f: UnitFor, e: Resolved, d: UnitDep)
    ensures d in ArtifactDeps(w, u, w.unitFor(u, f, u.target, ForArtifact), u.isStd, e.pkg, UsedDeps(w, u, f, e.deps))
       <==> ArtifactFromEntry(w, u, f, d, e)
  {
    var artFor, used := w.unitFor(u, f, u.target, ForArtifact), UsedDeps(w, u, f, e.deps);
    ArtifactsExactly(w, u, artFor, e.pkg, used, d);
    forall dep ensures dep in used <==> dep in e.deps && Applies(w, u, f, dep) {
      UsedExactly(w, u, f, e.deps, dep);
    }
    if dep, made :| dep in used && ArtifactMade(w, u, artFor, d, e.pkg, dep, made) {
      assert BuildsArtifact(w, u, f, d, e, dep, made);
    }
    if dep, made :| dep in e.deps && BuildsArtifact(w, u, f, d, e, dep, made) {
      assert ArtifactMade(w, u, artFor, d, e.pkg, dep, made);
    }
  }

  /** What one resolved package adds. */
  function OfEntry(w: World, u: Unit, f: UnitFor, e: Resolved): seq<UnitDep> {
    var used := UsedDeps(w, u, f, e.deps);
    if used == [] then [] else
      (if u.target.IsCustomBuild() then [] else ArtifactDeps(w, u, w.unitFor(u, f, u.target, ForArtifact), u.isStd, e.pkg, used))
      + LibDeps(w, u, f, u.isStd, e.pkg, used)
      + DocDeps(w, u, f, u.isStd, e.pkg, used)
  }

  lemma EntryExactly(w: World, u: Unit, f: UnitFor, e: Resolved, d: UnitDep)
    ensures d in OfEntry(w, u, f, e) <==> FromEntry(w, u, f, d, e)
  {
    LibrariesExactly(w, u, f, e, d);
    DocumentationExactly(w, u, f, e, d);
    ArtifactsOfEntry(w, u, f, e, d);
    assert UsedDeps(w, u, f, e.deps) == [] ==> d !in LibDeps(w, u, f, u.isStd, e.pkg, []) && d !in DocDeps(w, u, f, u.isStd, e.pkg, []);
  }

  lemma {:induction false} EntriesExactly(w: World, u: Unit, f: UnitFor, entries: seq<Resolved>, d: UnitDep)
    ensures d in ResolvedDeps(w, u, f, u.isStd, entries) <==> exists e | e in entries :: FromEntry(w, u, f, d, e)
  {
    if entries != [] {
      EntriesExactly(w, u, f, entries[1..], d);
      EntryExactly(w, u, f, entries[0], d);
      assert ResolvedDeps(w, u, f, u.isStd, entries) == OfEntry(w, u, f, entries[0]) + ResolvedDeps(w, u, f, u.isStd, entries[1..]);
      assert entries == [entries[0]] + entries[1..];
    }
  }

  lemma {:induction false} ScriptArtifactsExactly(w: World, u: Unit, f: UnitFor, entries: seq<Resolved>, d: UnitDep)
    ensures d in ScriptArtifacts(w, u, f, u.isStd, entries) <==> exists e | e in entries :: ArtifactFromEntry(w, u, f, d, e)
  {
    if entries != [] {
      ScriptArtifactsExactly(w, u, f, entries[1..], d);
      ArtifactsOfEntry(w, u, f, entries[0], d);
      assert entries == [entries[0]] + entries[1..];
    }
  }

  lemma {:induction false} ScriptsExactly(w: World, u: Unit, f: UnitFor, targets: seq<Target>, d: UnitDep)
    ensures d in BuildScriptDeps(w, u, f, u.isStd, targets) <==> exists t | t in targets :: RunOf(w, u, f, d, t)
  {
    if targets != [] {
      ScriptsExactly(w, u, f, targets[1..], d);
      MadeIsNew(w, u.isStd, u.pkg, d, u.pkg, targets[0], w.unitFor(u, f, targets[0], ForCustomBuild), u.kind, RunCustomBuild, false);
      assert d in BuildScriptDeps(w, u, f, u.isStd, targets) <==> RunOf(w, u, f, d, targets[0]) || d in BuildScriptDeps(w, u, f, u.isStd, targets[1..]);
      assert targets[0] in targets && forall t | t in targets[1..] :: t in targets;
    }
  }

  lemma {:induction false} BinariesExactly(w: World, u: Unit, f: UnitFor, targets: seq<Target>, d: UnitDep)
    ensures d in OwnBins(w, u, f, u.isStd, targets) <==> exists t | t in targets :: BinaryOf(w, u, f, d, t)
  {
    if targets != [] {
      BinariesExactly(w, u, f, targets[1..], d);
      MadeIsNew(w, u.isStd, u.pkg, d, u.pkg, targets[0], w.unitFor(u, f, targets[0], ForNormal), DependencyKind(u, targets[0]), Build, false);
      assert d in OwnBins(w, u, f, u.isStd, targets) <==> BinaryOf(w, u, f, d, targets[0]) || d in OwnBins(w, u, f, u.isStd, targets[1..]);
      assert targets[0] in targets && forall t | t in targets[1..] :: t in targets;
    }
  }

  lemma OwnLibraryExactly(w: World, u: Unit, f: UnitFor, d: UnitDep)
    ensures d in OwnLib(w, u, f, u.isStd) <==> BuildsOwnLibrary(w, u, f, d)
  {
    forall t ensures FirstLinkable(u.pkg.targets) == Some(t) <==> FirstOf(u.pkg.targets, CanBeLinked, t) {
      FirstLinkableExactly(u.pkg.targets, t);
    }
    if t :| FirstLinkable(u.pkg.targets) == Some(t) {
      MadeIsNew(w, u.isStd, u.pkg, d, u.pkg, t, w.unitFor(u, f, t, ForDependency), DependencyKind(u, t), DependencyMode(u, t), false);
    }
  }

  lemma {:induction false} ScrapesExactly(w: World, u: Unit, units: seq<Unit>, d: UnitDep)
    ensures d in ScrapeDeps(w, u.isStd, units) <==> exists s | s in units :: ScrapeOf(w, u, d, s)
  {
    if units != [] {
      var s := units[0];
      ScrapesExactly(w, u, units[1..], d);
      MadeIsNew(w, u.isStd, s.pkg, d, s.pkg, s.target, w.unitFor(s, 0, s.target, ForNormal), s.kind, s.mode, false);
      assert d in ScrapeDeps(w, u.isStd, units) <==> ScrapeOf(w, u, d, s) || d in ScrapeDeps(w, u.isStd, units[1..]);
      assert s in units && forall x | x in units[1..] :: x in units;
    }
  }

  lemma CompileExactly(w: World, u: Unit, f: UnitFor, d: UnitDep)
    ensures d in RegularDeps(w, u, f, u.isStd) <==> CompileNeeds(w, u, f, d)
  {
    EntriesExactly(w, u, f, w.resolve(u.isStd, u.pkg.id), d);
    ScriptsExactly(w, u, f, u.pkg.targets, d);
    BinariesExactly(w, u, f, u.pkg.targets, d);
    OwnLibraryExactly(w, u, f, d);
  }

  lemma DocumentExactly(w: World, u: Unit, f: UnitFor, d: UnitDep)
    requires u.mode == Doc
    ensures d in ComputeDeps(w, u, f, u.isStd) <==> DocumentNeeds(w, u, f, d)
  {
    EntriesExactly(w, u, f, w.resolve(u.isStd, u.pkg.id), d);
    ScriptsExactly(w, u, f, u.pkg.targets, d);
    OwnLibraryExactly(w, u, f, d);
    OwnDocumentationExactly(w, u, f, d);
    ScrapesExactly(w, u, w.scrapeUnits, d);
  }

  lemma OwnDocumentationExactly(w: World, u: Unit, f: UnitFor, d: UnitDep)
    ensures DocumentsOwnLibrary(w, u, f, d) <==>
      && FirstDocumentedLib(u.pkg.targets).Some?
      && var lib := FirstDocumentedLib(u.pkg.targets).value;
         d == NewUnitDep(w, u.pkg, u.pkg, lib, w.unitFor(u, f, lib, ForDependency), KindFor(u.kind, lib), Doc, false, u.isStd)
  {
    forall t ensures FirstDocumentedLib(u.pkg.targets) == Some(t) <==> FirstOf(u.pkg.targets, LinkedAndDocumented, t) {
      FirstDocumentedExactly(u.pkg.targets, t);
    }
    if t :| FirstDocumentedLib(u.pkg.targets) == Some(t) {
      MadeIsNew(w, u.isStd, u.pkg, d, u.pkg, t, w.unitFor(u, f, t, ForDependency), DependencyKind(u, t), Doc, false);
    }
  }

  lemma RunExactly(w: World, u: Unit, f: UnitFor, d: UnitDep)
    requires u.mode == RunCustomBuild
    ensures d in ComputeDeps(w, u, f, u.isStd) <==> RunNeeds(w, u, f, d)
  {
    var scriptFor := w.unitFor(u, f, u.target, ForCustomBuild);
    ScriptArtifactsExactly(w, u, scriptFor, w.resolve(u.isStd, u.pkg.id), d);
    MadeIsNew(w, u.isStd, u.pkg, d, u.pkg, u.target, scriptFor, Host, Build, false);
  }

  /** The list made for a unit holds exactly what the unit needs. */
  lemma ListExactly(w: World, u: Unit, f: UnitFor, d: UnitDep)
    ensures d in ComputeDeps(w, u, f, u.isStd) <==> Needs(w, u, f, d)
  {
    if u.mode == RunCustomBuild {
      RunExactly(w, u, f, d);
    } else if u.mode == Doc {
      DocumentExactly(w, u, f, d);
    } else {
      CompileExactly(w, u, f, d);
    }
  }

  // ----- The recorded dev edges -----

  /** The unit is the library of a package to which only dev-dependencies lead. */
  ghost predicate DevEntry(w: World, u: Unit, f: UnitFor, x: Unit, e: Resolved) {
    && (forall dep | dep in e.deps && Applies(w, u, f, dep) :: dep.kind == DevelopmentDep)
    && exists d: UnitDep, lib :: d.unit == x && BuildsLibrary(w, u, f, d, e, lib)
  }

  ghost predicate DevOnly(w: World, u: Unit, f: UnitFor, x: Unit) {
    u.mode != RunCustomBuild && u.mode != Doc && exists e | e in w.resolve(u.isStd, u.pkg.id) :: DevEntry(w, u, f, x, e)
  }

  function DevOfEntry(w: World, u: Unit, f: UnitFor, e: Resolved): set<(Unit, Unit)> {
    var used := UsedDeps(w, u, f, e.deps);
    if used != [] && (forall d | d in used :: !d.IsTransitive())
    then set d | d in LibDeps(w, u, f, u.isStd, e.pkg, used) :: (u, d.unit)
    else {}
  }

  lemma DevEntryExactly(w: World, u: Unit, f: UnitFor, e: Resolved, x: Unit)
    ensures (u, x) in DevOfEntry(w, u, f, e) <==> DevEntry(w, u, f, x, e)
  {
    var used := UsedDeps(w, u, f, e.deps);
    forall dep ensures dep in used <==> dep in e.deps && Applies(w, u, f, dep) {
      UsedExactly(w, u, f, e.deps, dep);
    }
    forall d ensures d in LibDeps(w, u, f, u.isStd, e.pkg, used) <==> exists lib :: BuildsLibrary(w, u, f, d, e, lib) {
      LibrariesExactly(w, u, f, e, d);
    }
    assert used == [] ==> LibDeps(w, u, f, u.isStd, e.pkg, used) == [];
  }

  lemma {:induction false} DevEdgesExactly(w: World, u: Unit, f: UnitFor, entries: seq<Resolved>, x: Unit)
    ensures (u, x) in DevEdges(w, u, f, u.isStd, entries) <==> exists e | e in entries :: DevEntry(w, u, f, x, e)
  {
    if entries != [] {
      DevEdgesExactly(w, u, f, entries[1..], x);
      DevEntryExactly(w, u, f, entries[0], x);
      assert DevEdges(w, u, f, u.isStd, entries) == DevOfEntry(w, u, f, entries[0]) + DevEdges(w, u, f, u.isStd, entries[1..]);
      assert entries[0] in entries && forall e | e in entries[1..] :: e in entries;
    }
  }

  /** Exactly the edges due to dev-dependencies alone are recorded, outside documentation. */
  lemma RecordedExactly(w: World, u: Unit, f: UnitFor, x: Unit)
    ensures (u, x) in RecordedDevEdges(w, u, f, u.isStd) <==> DevOnly(w, u, f, x)
  {
    DevEdgesExactly(w, u, f, w.resolve(u.isStd, u.pkg.id), x);
  }
}
