/** A workspace whose unit graph is cyclic although its packages are not: documenting an example whose
    dev-dependency depends back on the package. */
module DocCycle {
  import opened Units
  import opened Graphs
  import opened UnitDependencies
  import opened UnitGraphs
  import opened ScriptLinks
  import opened BuildUnitGraph

  function LibraryOf(links: string): Target {
    Target(links, LibTarget([Lib]), false, false, true)
  }

  function ScriptOf(links: string): Target {
    Target(links, CustomBuild, true, false, false)
  }

  const Foo := Package(0, "foo", Some("foo"), [LibraryOf("foo"), ScriptOf("foo"), Target("demo", ExampleBin, false, false, true)])
  const Bar := Package(1, "bar", Some("bar"), [LibraryOf("bar"), ScriptOf("bar")])

  function UnitOf(pkg: Package, target: Target, mode: CompileMode): Unit {
    Unit(pkg, target, LtoBool(false), Host, mode, false, false, false, 0)
  }

  function Plain(unit: Unit): UnitDep { UnitDep(unit, 0, None) }

  /** `bar` depends on `foo`; `foo` has `bar` as a dev-dependency; both link a library. */
  const DocWorld := World(
    (isStd: bool, p: PackageId) =>
      if isStd then []
      else if p == 0 then [Resolved(Bar, [Dependency(DevelopmentDep, None)])]
      else if p == 1 then [Resolved(Foo, [Dependency(NormalDep, None)])]
      else [],
    (isStd: bool, from: PackageId, to: PackageId) => None,
    (u: Unit, f: UnitFor, d: Dependency) => true,
    (p: Package, t: Target, f: UnitFor, k: CompileKind, m: CompileMode) => (LtoBool(false), 0),
    (k: CompileKind, p: Package) => false,
    (u: Unit, f: UnitFor, t: Target, p: Purpose) => 0,
    (u: Unit, d: Dependency) => Host,
    (u: Unit, t: Target) => true,
    (p: Package) => false,
    (u: Unit, f: UnitFor) => false,
    false, false, [])

  const DocDemo := UnitOf(Foo, Foo.targets[2], Doc)
  const DocFoo := UnitOf(Foo, Foo.targets[0], Doc)
  const CheckFoo := UnitOf(Foo, Foo.targets[0], Check(false))
  const CheckBar := UnitOf(Bar, Bar.targets[0], Check(false))
  const RunFoo := UnitOf(Foo, Foo.targets[1], RunCustomBuild)
  const RunBar := UnitOf(Bar, Bar.targets[1], RunCustomBuild)
  const ScriptFoo := UnitOf(Foo, Foo.targets[1], Build)
  const ScriptBar := UnitOf(Bar, Bar.targets[1], Build)

  lemma ScriptRuns(u: Unit, f: UnitFor, lib: Target, script: Target, rest: seq<Target>)
    requires u.pkg.targets == [lib, script] + rest && |rest| <= 1
    requires !lib.IsCustomBuild() && script.IsCustomBuild() && (forall t | t in rest :: !t.IsCustomBuild())
    ensures BuildScriptDeps(DocWorld, u, f, false, u.pkg.targets)
         == [NewUnitDep(DocWorld, u.pkg, u.pkg, script, 0, u.kind, RunCustomBuild, false, false)]
  {
    assert u.pkg.targets[1..] == [script] + rest;
    assert ([script] + rest)[1..] == rest;
    assert rest == [] || rest[1..] == [];
    assert BuildScriptDeps(DocWorld, u, f, false, rest) == [];
  }

  lemma NothingResolved(f: UnitFor)
    ensures ResolvedDeps(DocWorld, CheckFoo, f, false, DocWorld.resolve(false, 0)) == []
  {
    var entries := DocWorld.resolve(false, 0);
    assert entries[1..] == [];
    assert UsedDeps(DocWorld, CheckFoo, f, entries[0].deps) == [];
  }

  lemma ResolvedForBar(f: UnitFor)
    ensures ResolvedDeps(DocWorld, CheckBar, f, false, DocWorld.resolve(false, 1)) == [Plain(CheckFoo)]
    ensures DevEdges(DocWorld, CheckBar, f, false, DocWorld.resolve(false, 1)) == {}
  {
    var d := Dependency(NormalDep, None);
    assert DocWorld.resolve(false, 1)[1..] == [] && d in [d];
    assert UsedDeps(DocWorld, CheckBar, f, [d]) == [d];
    assert LibDeps(DocWorld, CheckBar, f, false, Foo, [d]) == [Plain(CheckFoo)];
    assert ArtifactDeps(DocWorld, CheckBar, f, false, Foo, [d]) == [];
  }

  lemma ResolvedForDemo(f: UnitFor)
    ensures ResolvedDeps(DocWorld, DocDemo, f, false, DocWorld.resolve(false, 0)) == [Plain(CheckBar)]
  {
    var d := Dependency(DevelopmentDep, None);
    assert DocWorld.resolve(false, 0)[1..] == [] && d in [d];
    assert UsedDeps(DocWorld, DocDemo, f, [d]) == [d];
    assert LibDeps(DocWorld, DocDemo, f, false, Bar, [d]) == [Plain(CheckBar)];
    assert ArtifactDeps(DocWorld, DocDemo, f, false, Bar, [d]) == [];
  }

  lemma DemoDeps(f: UnitFor)
    ensures ComputeDeps(DocWorld, DocDemo, f, false) == [Plain(CheckBar), Plain(RunFoo), Plain(CheckFoo), Plain(DocFoo)]
  {
    DocumentedForDemo(f);
    assert !NeedsDocScrape(DocWorld, DocDemo);
  }

  lemma DocumentedForDemo(f: UnitFor)
    ensures DocumentedDeps(DocWorld, DocDemo, f, false) == [Plain(CheckBar), Plain(RunFoo), Plain(CheckFoo), Plain(DocFoo)]
  {
    ResolvedForDemo(f);
    ScriptsForDemo(f);
    OwnLibForDemo(f);
    DocLibForDemo();
  }

  lemma DocLibForDemo()
    ensures FirstDocumentedLib(DocDemo.pkg.targets) == Some(Foo.targets[0])
    ensures NewUnitDep(DocWorld, DocDemo.pkg, DocDemo.pkg, Foo.targets[0], 0, KindFor(DocDemo.kind, Foo.targets[0]), Doc, false, false) == Plain(DocFoo)
  {
    assert Lib in Foo.targets[0].kind.crateTypes && Foo.targets[0].IsLinkable();
  }

  lemma ScriptsForDemo(f: UnitFor)
    ensures BuildScriptDeps(DocWorld, DocDemo, f, false, DocDemo.pkg.targets) == [Plain(RunFoo)]
  {
    ScriptRuns(DocDemo, f, Foo.targets[0], Foo.targets[1], [Foo.targets[2]]);
  }

  lemma OwnLibForDemo(f: UnitFor)
    ensures OwnLib(DocWorld, DocDemo, f, false) == [Plain(CheckFoo)]
  {
    assert Lib in Foo.targets[0].kind.crateTypes && Foo.targets[0].IsLinkable();
  }

  lemma BarDeps(f: UnitFor)
    ensures ComputeDeps(DocWorld, CheckBar, f, false) == [Plain(CheckFoo), Plain(RunBar)]
  {
    ResolvedForBar(f);
    ScriptRuns(CheckBar, f, Bar.targets[0], Bar.targets[1], []);
  }

  lemma FooDeps(f: UnitFor)
    ensures ComputeDeps(DocWorld, CheckFoo, f, false) == [Plain(RunFoo)]
  {
    NothingResolved(f);
    ScriptRuns(CheckFoo, f, Foo.targets[0], Foo.targets[1], [Foo.targets[2]]);
  }

  lemma DemoPackagesAcyclic()
    ensures PackagesAcyclic(DocWorld)
  {
    var order := (isStd: bool, p: PackageId) => if p == 1 then 1 else 0;
    forall isStd: bool, p, q | NonDev(DocWorld, isStd, p, q) ensures order(isStd, q) < order(isStd, p) {
      var e :| e in DocWorld.resolve(isStd, p) && e.pkg.id == q && exists d | d in e.deps :: d.IsTransitive();
    }
    assert PackageOrder(DocWorld, order);
  }

  predicate Has(g: UnitGraph, u: Unit, d: Unit) {
    u in g && exists x | x in g[u] :: x.unit == d
  }

  /** `run` will wait for the script of `other`, whose only script run is `otherRun`. */
  predicate WillWait(g: UnitGraph, dev: set<(Unit, Unit)>, parent: Unit, run: Unit, other: Unit, otherRun: Unit) {
    && run.IsRunCustomBuild() && Has(g, parent, run) && Has(g, parent, other)
    && other.pkg.id != run.pkg.id && other.target.IsLinkable() && other.pkg.links.Some? && !other.mode.Docscrape?
    && (parent, other) !in dev
    && Has(g, other, otherRun) && otherRun.IsRunCustomBuild()
    && (forall x | x in g[other] && x.unit.IsRunCustomBuild() :: x.unit == otherRun)
  }

  lemma WaitsInLinkedGraph(g: UnitGraph, dev: set<(Unit, Unit)>, g': UnitGraph, parent: Unit, run: Unit, other: Unit, otherRun: Unit)
    requires ClosedGraph(g) && Connected(g, dev, false, g')
    requires WillWait(g, dev, parent, run, other, otherRun)
    ensures Edge(EdgesOf(g'), run, otherRun)
  {
    var i :| 0 <= i < |g[parent]| && g[parent][i].unit == other;
    var r :| r in g[parent] && r.unit == run;
    assert DepsPresent(g, parent);
    assert SiblingKept(g, dev, false, run, parent, g[parent][i]);
    var x := Relabelled(FirstScriptRun(g[other]).value, g[parent][i]);
    assert x in ScriptDeps(g, dev, false, run) && x.unit == otherRun;
    assert x in g'[run][|g[run]|..];
    var k :| 0 <= k < |g'[run]| && g'[run][k] == x;
    assert EdgesOf(g')[run][k] == otherRun;
  }

  /** Siblings kept in both directions make two scripts wait for each other. */
  lemma MutualWaitIsCycle(g: UnitGraph, dev: set<(Unit, Unit)>, g': UnitGraph, p: Unit, q: Unit, runA: Unit, runB: Unit, a: Unit, b: Unit)
    requires ClosedGraph(g) && Connected(g, dev, false, g')
    requires WillWait(g, dev, p, runA, b, runB) && WillWait(g, dev, q, runB, a, runA)
    ensures !Acyclic(EdgesOf(g'))
  {
    WaitsInLinkedGraph(g, dev, g', p, runA, b, runB);
    WaitsInLinkedGraph(g, dev, g', q, runB, a, runA);
    ThereAndBack(EdgesOf(g'), runA, runB);
  }

  lemma ThereAndBack(g: Graph<Unit>, u: Unit, v: Unit)
    requires Edge(g, u, v) && Edge(g, v, u)
    ensures !Acyclic(g)
  {
    var c := [u, v, u];
    assert IsPath(g, c) && c[0] == c[|c| - 1];
  }

  lemma NoDevEdges(f: UnitFor)
    ensures RecordedDevEdges(DocWorld, DocDemo, f, false) == {} && RecordedDevEdges(DocWorld, CheckBar, f, false) == {}
  {
    ResolvedForBar(f);
  }

  /** A package whose only dependency does not apply to the unit adds nothing. */
  lemma Unused(u: Unit, f: UnitFor, pkg: Package, dep: Dependency)
    requires !DepUsed(DocWorld, u, f, dep)
    ensures ResolvedDeps(DocWorld, u, f, false, [Resolved(pkg, [dep])]) == []
    ensures ScriptArtifacts(DocWorld, u, f, false, [Resolved(pkg, [dep])]) == []
  {
    var entries := [Resolved(pkg, [dep])];
    assert entries[1..] == [] && [dep][1..] == [];
    assert UsedDeps(DocWorld, u, f, entries[0].deps) == [];
    assert ScriptArtifacts(DocWorld, u, f, false, entries[1..]) == [];
    assert ArtifactDeps(DocWorld, u, 0, false, pkg, []) == [];
  }

  const OnBar := Dependency(DevelopmentDep, None)
  const OnFoo := Dependency(NormalDep, None)

  /** Documenting the library itself needs its script only. */
  lemma DocFooDeps(f: UnitFor)
    ensures ComputeDeps(DocWorld, DocFoo, f, false) == [Plain(RunFoo)]
  {
    Unused(DocFoo, f, Bar, OnBar);
    ScriptRuns(DocFoo, f, Foo.targets[0], Foo.targets[1], [Foo.targets[2]]);
  }

  lemma RunDeps(f: UnitFor)
    ensures ComputeDeps(DocWorld, RunFoo, f, false) == [Plain(ScriptFoo)]
    ensures ComputeDeps(DocWorld, RunBar, f, false) == [Plain(ScriptBar)]
  {
    Unused(RunFoo, 0, Bar, OnBar);
    Unused(RunBar, 0, Foo, OnFoo);
  }

  /** The one dependency of each package is not a build dependency. */
  lemma ScriptDepsOf(f: UnitFor)
    ensures ComputeDeps(DocWorld, ScriptFoo, f, false) == [] && ComputeDeps(DocWorld, ScriptBar, f, false) == []
  {
    Unused(ScriptFoo, f, Bar, OnBar);
    Unused(ScriptBar, f, Foo, OnFoo);
  }

  function DocUnit(i: nat): Unit {
    match i
    case 0 => DocDemo
    case 1 => DocFoo
    case 2 => CheckFoo
    case 3 => CheckBar
    case 4 => RunFoo
    case 5 => RunBar
    case 6 => ScriptFoo
    case _ => ScriptBar
  }

  ghost function DocUnits(): set<Unit> {
    set i: nat | i < 8 :: DocUnit(i)
  }

  ghost predicate StaysAmong(deps: seq<UnitDep>) {
    forall d | d in deps :: d.unit in DocUnits()
  }

  lemma SomeAmong(a: nat, b: nat, c: nat, e: nat)
    requires a < 8 && b < 8 && c < 8 && e < 8
    ensures StaysAmong([Plain(DocUnit(a))])
    ensures StaysAmong([Plain(DocUnit(a)), Plain(DocUnit(b))])
    ensures StaysAmong([Plain(DocUnit(a)), Plain(DocUnit(b)), Plain(DocUnit(c)), Plain(DocUnit(e))])
  {
  }

  lemma DemoStays(f: UnitFor)
    ensures StaysAmong(ComputeDeps(DocWorld, DocDemo, f, false))
  {
    DemoDeps(f);
    SomeAmong(3, 4, 2, 1);
  }

  lemma BarStays(f: UnitFor)
    ensures StaysAmong(ComputeDeps(DocWorld, CheckBar, f, false))
  {
    BarDeps(f);
    SomeAmong(2, 5, 0, 0);
  }

  lemma OthersStay(i: nat, f: UnitFor)
    requires i < 8 && i != 0 && i != 3
    ensures StaysAmong(ComputeDeps(DocWorld, DocUnit(i), f, false))
  {
    if i == 1 {
      DocFooDeps(f);
      SomeAmong(4, 0, 0, 0);
    } else if i == 2 {
      FooDeps(f);
      SomeAmong(4, 0, 0, 0);
    } else if i == 4 || i == 5 {
      RunDeps(f);
      SomeAmong(6, 0, 0, 0);
      SomeAmong(7, 0, 0, 0);
    } else {
      ScriptDepsOf(f);
    }
  }

  lemma DocUnitPlain(i: nat)
    ensures WellFormed(DocUnit(i)) && !DocUnit(i).isStd
  {
  }

  lemma DocUniverse()
    ensures Universe(DocWorld, DocUnits())
  {
    forall u | u in DocUnits() ensures WellFormed(u) && !u.isStd {
      var i: nat :| i < 8 && u == DocUnit(i);
      DocUnitPlain(i);
    }
    forall u, f: UnitFor, d: UnitDep | u in DocUnits() && d in ComputeDeps(DocWorld, u, f, u.isStd) ensures d.unit in DocUnits() {
      var i: nat :| i < 8 && u == DocUnit(i);
      DocUnitPlain(i);
      AnyStays(i, f);
    }
  }

  lemma AnyStays(i: nat, f: UnitFor)
    requires i < 8
    ensures StaysAmong(ComputeDeps(DocWorld, DocUnit(i), f, false))
  {
    if i == 0 {
      DemoStays(f);
    } else if i == 3 {
      BarStays(f);
    } else {
      OthersStay(i, f);
    }
  }

  /** The workspace is one the construction accepts. */
  lemma DocInputs()
    ensures Inputs(DocWorld, DocUnits(), [DocDemo], map[]) && NothingFails(RulesOf(DocWorld))
  {
    DocUniverse();
    assert DocUnit(0) in DocUnits();
  }

  /** What the traversal computed for a unit. */
  lemma ComputedFor(g: UnitGraph, dev: set<(Unit, Unit)>, u: Unit) returns (f: UnitFor)
    requires Inputs(DocWorld, DocUnits(), [DocDemo], map[]) && Unlinked(DocWorld, DocUnits(), [DocDemo], map[], g, dev) && u in g
    ensures g[u] == ComputeDeps(DocWorld, u, f, u.isStd)
  {
    var rules := RulesOf(DocWorld);
    assert Listed(DocWorld, map[], dev, u, g[u]);
    assert MadeBy(rules, dev, u, g[u]);
    f :| g[u] == rules.deps(u, f) && rules.dev(u, f) <= dev;
  }

  lemma NotRecorded(dev: set<(Unit, Unit)>)
    requires DevFrom(RulesOf(DocWorld), dev)
    ensures (DocDemo, CheckBar) !in dev && (CheckBar, CheckFoo) !in dev
  {
    forall f: UnitFor ensures RecordedDevEdges(DocWorld, DocDemo, f, false) == {} && RecordedDevEdges(DocWorld, CheckBar, f, false) == {} {
      NoDevEdges(f);
    }
    assert forall e: (Unit, Unit), f: UnitFor | e.0 == DocDemo || e.0 == CheckBar :: e !in RulesOf(DocWorld).dev(e.0, f);
  }

  /** Whatever graph the construction makes of it, the two scripts wait for each other. */
  lemma DocumentedExampleCycle(g: UnitGraph, dev: set<(Unit, Unit)>, g': UnitGraph)
    requires Inputs(DocWorld, DocUnits(), [DocDemo], map[]) && Unlinked(DocWorld, DocUnits(), [DocDemo], map[], g, dev)
    requires Connected(g, dev, false, g')
    ensures !Acyclic(EdgesOf(g'))
  {
    NotRecorded(dev);
    DemoInGraph(g, dev);
    BarInGraph(g, dev);
    DemoWaits(g, dev);
    MutualWaitIsCycle(g, dev, g', DocDemo, CheckBar, RunFoo, RunBar, CheckFoo, CheckBar);
  }

  lemma DemoInGraph(g: UnitGraph, dev: set<(Unit, Unit)>)
    requires Inputs(DocWorld, DocUnits(), [DocDemo], map[]) && Unlinked(DocWorld, DocUnits(), [DocDemo], map[], g, dev)
    ensures DocDemo in g && g[DocDemo] == [Plain(CheckBar), Plain(RunFoo), Plain(CheckFoo), Plain(DocFoo)]
    ensures CheckBar in g && CheckFoo in g
  {
    assert [DocDemo][0] in g;
    var f := ComputedFor(g, dev, DocDemo);
    DemoDeps(f);
    assert DepsPresent(g, DocDemo);
    FirstAndThird(g, g[DocDemo]);
  }

  lemma FirstAndThird(g: UnitGraph, deps: seq<UnitDep>)
    requires (forall i | 0 <= i < |deps| :: deps[i].unit in g) && |deps| > 2
    ensures deps[0].unit in g && deps[2].unit in g
  {}

  lemma BarInGraph(g: UnitGraph, dev: set<(Unit, Unit)>)
    requires Inputs(DocWorld, DocUnits(), [DocDemo], map[]) && Unlinked(DocWorld, DocUnits(), [DocDemo], map[], g, dev)
    requires CheckBar in g && CheckFoo in g
    ensures g[CheckBar] == [Plain(CheckFoo), Plain(RunBar)] && g[CheckFoo] == [Plain(RunFoo)]
  {
    var f := ComputedFor(g, dev, CheckBar);
    BarDeps(f);
    f := ComputedFor(g, dev, CheckFoo);
    FooDeps(f);
  }

  /** Documenting the example: the packages' non-dev dependencies are acyclic, the construction
      succeeds, and the graph it returns has a cycle. */
  method DocumentExample() returns (r: Option<UnitGraph>)
    ensures PackagesAcyclic(DocWorld)
    ensures r.Some? && ClosedGraph(r.value) && DocDemo in r.value && !Acyclic(EdgesOf(r.value))
  {
    DemoPackagesAcyclic();
    DocInputs();
    ghost var before, dev;
    r, before, dev := BuildUnitDependencies(DocWorld, DocUnits(), [DocDemo], map[], false);
    DocumentedExampleCycle(before, dev, r.value);
    assert [DocDemo][0] in r.value;
  }

  lemma DemoWaits(g: UnitGraph, dev: set<(Unit, Unit)>)
    requires DocDemo in g && g[DocDemo] == [Plain(CheckBar), Plain(RunFoo), Plain(CheckFoo), Plain(DocFoo)]
    requires CheckBar in g && g[CheckBar] == [Plain(CheckFoo), Plain(RunBar)]
    requires CheckFoo in g && g[CheckFoo] == [Plain(RunFoo)]
    requires (DocDemo, CheckBar) !in dev && (CheckBar, CheckFoo) !in dev
    ensures WillWait(g, dev, DocDemo, RunFoo, CheckBar, RunBar)
    ensures WillWait(g, dev, CheckBar, RunBar, CheckFoo, RunFoo)
  {
    assert Lib in [Lib];
    assert g[DocDemo][1] in g[DocDemo] && g[DocDemo][0] in g[DocDemo];
    assert g[CheckBar][0] in g[CheckBar] && g[CheckBar][1] in g[CheckBar];
    assert g[CheckFoo][0] in g[CheckFoo];
  }
}
