/** From the packages to the job queue: the unit graph is built, and every analysis that runs on it
    finds what it relies on. */
module BuildPlan {
  import opened Units
  import opened Graphs
  import Sorting
  import opened UnitDependencies
  import opened UnitGraphs
  import opened ScriptLinks
  import opened BuildUnitGraph
  import opened BuildScriptMap
  import opened BuildRun
  import opened LtoPropagation
  import LtoSolution
  import opened JobOrder
  import opened LinkSets
  import opened DependencyQueues

  // ----- The script run is always there -----

  ghost predicate OwnRun(u: Unit, d: UnitDep) {
    d.unit.IsRunCustomBuild() && d.unit.pkg == u.pkg
  }

  lemma {:induction false} ScriptOfTarget(w: World, u: Unit, f: UnitFor, isStd: bool, targets: seq<Target>) returns (d: UnitDep)
    requires exists t | t in targets :: t.IsCustomBuild()
    ensures d in BuildScriptDeps(w, u, f, isStd, targets) && OwnRun(u, d)
  {
    if targets[0].IsCustomBuild() {
      d := BuildScriptDeps(w, u, f, isStd, targets)[0];
    } else {
      assert exists t | t in targets[1..] :: t.IsCustomBuild() by {
        var t :| t in targets && t.IsCustomBuild();
        assert t in targets[1..];
      }
      d := ScriptOfTarget(w, u, f, isStd, targets[1..]);
    }
  }

  /** Whatever is computed for a unit of a package with a build script has a run of that script. */
  lemma ComputedHasScript(w: World, u: Unit, f: UnitFor) returns (d: UnitDep)
    requires WellFormed(u) && !u.target.IsCustomBuild() && u.pkg.HasCustomBuild()
    ensures d in ComputeDeps(w, u, f, u.isStd) && OwnRun(u, d)
  {
    d := ScriptOfTarget(w, u, f, u.isStd, u.pkg.targets);
  }

  lemma ListedHasScript(w: World, stdRoots: StdRoots, dev: set<(Unit, Unit)>, u: Unit, deps: seq<UnitDep>) returns (d: UnitDep)
    requires stdRoots != map[] && NeedsStd(u) ==> u.kind in stdRoots
    requires Listed(w, stdRoots, dev, u, deps) && WellFormed(u) && !u.target.IsCustomBuild() && u.pkg.HasCustomBuild()
    ensures d in deps && OwnRun(u, d)
  {
    var rules := RulesOf(w);
    var own :| MadeBy(rules, dev, u, own) && deps == if stdRoots != map[] && !u.isStd then WithStd(w, stdRoots, u, own) else own;
    var f: UnitFor :| own == rules.deps(u, f) && rules.dev(u, f) <= dev;
    d := ComputedHasScript(w, u, f);
    assert d in own;
  }

  lemma FinishedHasScript(w: World, all: set<Unit>, roots: seq<Unit>, stdRoots: StdRoots, g: UnitGraph, dev: set<(Unit, Unit)>,
                          anyMetadata: bool, g': UnitGraph, u: Unit) returns (d: UnitDep)
    requires Inputs(w, all, roots, stdRoots) && Unlinked(w, all, roots, stdRoots, g, dev) && Connected(g, dev, anyMetadata, g')
    requires u in g' && !u.target.IsCustomBuild() && u.pkg.HasCustomBuild()
    ensures d in g'[u] && OwnRun(u, d)
  {
    d := ListedHasScript(w, stdRoots, dev, u, g[u]);
    assert WellFormed(u);
    ExtensionKeeps(g[u], {}, g'[u], d);
  }

  lemma ExtensionKeeps(deps: seq<UnitDep>, added: set<UnitDep>, extended: seq<UnitDep>, d: UnitDep)
    requires ExtendedBy(deps, added, extended) && d in deps
    ensures d in extended
  {
    assert extended == deps + extended[|deps|..];
  }

  lemma DependencyIsEdge(g: UnitGraph, u: Unit, d: UnitDep)
    requires u in g && d in g[u]
    ensures d.unit in EdgesOf(g)[u]
  {
    var i :| 0 <= i < |g[u]| && g[u][i] == d;
    assert EdgesOf(g)[u][i] == d.unit;
  }

  lemma {:induction false} RunIsListed(c: Context, pkg: PackageId, deps: seq<Unit>, run: Unit)
    requires run in deps && run.IsRunCustomBuild() && run.pkg.id == pkg
    ensures ScriptRunsOf(c, pkg, deps) != []
  {
    if deps[0] != run {
      assert run in deps[1..];
      RunIsListed(c, pkg, deps[1..], run);
    }
  }

  /** The panic about a missing script run cannot be reached on a graph that was built. */
  lemma ScriptRunsAlwaysPresent(w: World, all: set<Unit>, roots: seq<Unit>, stdRoots: StdRoots, g: UnitGraph, dev: set<(Unit, Unit)>,
                                anyMetadata: bool, g': UnitGraph, metadata: Unit -> UnitHash)
    requires Inputs(w, all, roots, stdRoots) && Unlinked(w, all, roots, stdRoots, g, dev) && Connected(g, dev, anyMetadata, g')
    ensures ScriptRunsPresent(Context(EdgesOf(g'), metadata))
  {
    var c := Context(EdgesOf(g'), metadata);
    forall u ensures !Lacks(c, u) {
      if u in g' && !u.target.IsCustomBuild() && u.pkg.HasCustomBuild() {
        var d := FinishedHasScript(w, all, roots, stdRoots, g, dev, anyMetadata, g', u);
        DependencyIsEdge(g', u, d);
        RunIsListed(c, u.pkg.id, c.graph[u], d.unit);
      }
    }
  }

  // ----- The whole plan -----

  datatype Plan = Plan(graph: Graph<Unit>, lto: LtoMap, scripts: Visited, outputs: Outputs, queue: seq<Unit>)

  /** Script runs have metadata of their own. */
  ghost predicate Injective(metadata: Unit -> UnitHash) {
    forall u: Unit, v: Unit | u.IsRunCustomBuild() && v.IsRunCustomBuild() && u != v :: metadata(u) != metadata(v)
  }

  /** What the plan holds: a closed, acyclic graph; the least LTO map, defined on the units in reach;
      the specified link sets of the same units; the overrides; only build scripts to be run as
      scripts; and each unit to compile once. */
  ghost predicate Sound(p: Plan, roots: seq<Unit>, metadata: Unit -> UnitHash, overrides: Unit -> BuildOutput, skips: Skips) {
    var c := Context(p.graph, metadata);
    && Closed(p.graph) && Acyclic(p.graph) && (forall r | r in roots :: r in p.graph)
    && LeastSolution(p.graph, roots, p.lto)
    && (forall u :: u in p.lto <==> ReachableFrom(p.graph, roots, u))
    && p.scripts.Keys <= p.graph.Keys
    && (forall u :: u in p.scripts <==> ReachableFrom(p.graph, roots, u))
    && (forall u | u in p.scripts :: Entry(c, u, p.scripts[u]))
    && Filled(c, overrides, map[], map[], p.scripts, p.outputs)
    && RunsAreScripts(p.graph)
    && Sorting.NoRepeats(p.queue) && (forall u :: u in p.queue <==> ReachableFrom(p.graph, roots, u) && !skips(u))
  }

  /** `Cyclic`: the unit graph has a cycle, where `build` recurses without end once it gets there. */
  datatype Outcome = Failed | Cyclic | Panicked | Planned(plan: Plan)

  /** Takes away what depends on nothing that is left, until nothing does. */
  method IsAcyclic(g: Graph<Unit>) returns (r: bool)
    requires Closed(g)
    ensures r <==> Acyclic(g)
  {
    var rest := g.Keys;
    ghost var rank: map<Unit, nat> := map[];
    ghost var n := 0;
    while !NoneLast(g, rest)
      invariant rest <= g.Keys && rank.Keys == g.Keys - rest && (forall u | u in rank :: rank[u] < n)
      invariant forall u, i | u in rank && 0 <= i < |g[u]| :: g[u][i] in rank && rank[g[u][i]] < rank[u]
      decreases rest
    {
      var s :| s in rest && Last(g, rest, s);
      forall i | 0 <= i < |g[s]| ensures g[s][i] in rank {
        assert g[s][i] in g[s];
      }
      rank, n := rank[s := n], n + 1;
      rest := rest - {s};
    }
    r := rest == {};
    if r {
      RankedIsAcyclic(g, rank);
    } else {
      NobodyIsLast(g, rest);
    }
  }

  predicate Last(g: Graph<Unit>, rest: set<Unit>, s: Unit) {
    s in g && forall d | d in g[s] :: d !in rest
  }

  predicate NoneLast(g: Graph<Unit>, rest: set<Unit>) {
    forall s {:trigger Last(g, rest, s)} | s in rest :: !Last(g, rest, s)
  }

  lemma NobodyIsLast(g: Graph<Unit>, rest: set<Unit>)
    requires rest <= g.Keys && rest != {} && NoneLast(g, rest)
    ensures !Acyclic(g)
  {
    forall s | s in rest ensures HasSuccessorIn(g, rest, s) {
      assert !Last(g, rest, s);
      var d :| d in g[s] && d in rest;
      assert Edge(g, s, d);
    }
    NoSinkMeansCycle(g, rest);
  }

  lemma BuiltIsPlannable(w: World, all: set<Unit>, roots: seq<Unit>, stdRoots: StdRoots, g: UnitGraph, dev: set<(Unit, Unit)>,
                         anyMetadata: bool, g': UnitGraph, metadata: Unit -> UnitHash)
    requires Inputs(w, all, roots, stdRoots) && Unlinked(w, all, roots, stdRoots, g, dev) && Connected(g, dev, anyMetadata, g')
    ensures RunsAreScripts(EdgesOf(g')) && ScriptRunsPresent(Context(EdgesOf(g'), metadata))
  {
    ScriptRunsAlwaysPresent(w, all, roots, stdRoots, g, dev, anyMetadata, g', metadata);
    assert forall u | u in g' :: WellFormed(u);
  }

  /** Planning a build of any packages and roots. It fails only if a helper of `compute_deps` does, never
      panics, and otherwise plans soundly unless the unit graph is cyclic. If the packages are
      acyclic, that is exactly when some script run waits for itself, and never happens if no
      root is a test or an example to be documented and metadata from any script is off. */
  method PlanBuild(w: World, ghost all: set<Unit>, roots: seq<Unit>, stdRoots: StdRoots, anyMetadata: bool, metadata: Unit -> UnitHash,
                   overrides: Unit -> BuildOutput, skips: Skips)
      returns (r: Outcome, ghost before: UnitGraph, ghost dev: set<(Unit, Unit)>)
    requires Inputs(w, all, roots, stdRoots) && Injective(metadata)
    ensures r.Failed? ==> !NothingFails(RulesOf(w))
    ensures !r.Panicked?
    ensures r.Planned? ==> Sound(r.plan, roots, metadata, overrides, skips)
    ensures !r.Failed? && roots != [] ==> Unlinked(w, all, roots, stdRoots, before, dev)
    ensures !r.Failed? && roots != [] && PackagesAcyclic(w) ==> (r.Cyclic? <==> WaitsForItself(w, before, dev, anyMetadata))
    ensures PackagesAcyclic(w) && !anyMetadata && NoneDocumented(roots) ==> !r.Cyclic?
  {
    var built;
    built, before, dev := BuildUnitDependencies(w, all, roots, stdRoots, anyMetadata);
    if built.None? {
      r := Failed;
      return;
    }
    var graph := EdgesOf(built.value);
    ClosedGraphIsClosed(built.value);
    var acyclic := IsAcyclic(graph);
    if !acyclic {
      r := Cyclic;
      return;
    }
    if roots != [] {
      BuiltIsPlannable(w, all, roots, stdRoots, before, dev, anyMetadata, built.value, metadata);
    }
    r := PlanOn(graph, roots, metadata, overrides, skips);
  }

  /** The passes over a graph that was built. */
  method PlanOn(graph: Graph<Unit>, roots: seq<Unit>, metadata: Unit -> UnitHash, overrides: Unit -> BuildOutput, skips: Skips) returns (r: Outcome)
    requires Closed(graph) && Acyclic(graph) && RunsAreScripts(graph) && Injective(metadata)
    requires forall i | 0 <= i < |roots| :: roots[i] in graph
    requires ScriptRunsPresent(Context(graph, metadata))
    ensures r.Planned? && Sound(r.plan, roots, metadata, overrides, skips)
  {
    var lto := Generate(graph, roots);
    LtoSolution.LeastDomain(graph, roots, lto);
    var scripts, outputs, panicked := BuildMap(Context(graph, metadata), overrides, roots);
    if panicked {
      return Panicked;
    }
    var queue := Enqueue(graph, skips, roots);
    r := Planned(Plan(graph, lto, scripts, outputs, queue));
  }

  /** Then, in whatever order the jobs of the plan finish, no output meets an occupied key. */
  lemma PlanRuns(p: Plan, roots: seq<Unit>, metadata: Unit -> UnitHash, overrides: Unit -> BuildOutput, skips: Skips, run: seq<Finished>)
    requires Sound(p, roots, metadata, overrides, skips) && Injective(metadata)
    requires (forall i | 0 <= i < |run| :: run[i].unit in p.queue) && forall i, j | 0 <= i < j < |run| :: run[i].unit != run[j].unit
    ensures Execute(Context(p.graph, metadata), p.outputs, p.outputs, run).Some?
  {
    var c := Context(p.graph, metadata);
    forall i | 0 <= i < |run| ensures run[i].unit in p.graph {
      assert run[i].unit in p.scripts;
    }
    NeverOccupied(c, p.outputs, run);
  }

  /** And in any run of the job queue over the plan, a job that starts finds the output of every script it
      links, unless the script run, which has ended by then, stored none. */
  lemma PlanLinks(p: Plan, roots: seq<Unit>, metadata: Unit -> UnitHash, overrides: Unit -> BuildOutput, skips: Skips,
                  waits: Waits<Unit, JobOrder.Artifact>, history: History, stored: Stored, i: nat)
    requires Sound(p, roots, metadata, overrides, skips) && Injective(metadata)
    requires JobWaits(p.graph, waits) && (forall u :: u in waits <==> u in p.queue) && Orderly(waits, history)
    requires i < |history| && history[i].Dequeued?
    ensures history[i].node in p.scripts
    ensures var c, table := Context(p.graph, metadata), TableAt(Context(p.graph, metadata), p.outputs, stored, history, i);
      && table.Some?
      && ((forall k | k in p.scripts[history[i].node].toLink :: k.1 in table.value)
          <==> forall s | LinkedRun(c, history[i].node, s) :: OutputOf(c, p.outputs, stored, s).Some?)
  {
    var c, u := Context(p.graph, metadata), history[i].node;
    assert OrderlyAt(waits, history, i);
    assert u in p.scripts && Entry(c, u, p.scripts[u]);
    LinkedOutputsExactly(c, p.outputs, stored, waits, history, i, p.scripts[u]);
  }
}
