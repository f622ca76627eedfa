/** `build_unit_dependencies` as a whole, and the documentation cycle it lets through. */
module BuildUnitGraph {
  import opened Units
  import opened Graphs
  import opened UnitDependencies
  import opened UnitGraphs
  import opened ScriptLinks
  import opened UnitLists
  import Sorting

  /** The inputs of one call. `all` bounds the units it can meet. */
  ghost predicate Inputs(w: World, all: set<Unit>, roots: seq<Unit>, stdRoots: StdRoots) {
    && WellFormedWorld(w) && Universe(w, all)
    && (forall i | 0 <= i < |roots| :: roots[i] in all && !roots[i].isStd)
    && StdRootsMade(stdRoots)
    && (forall k, i | k in stdRoots && 0 <= i < |stdRoots[k]| :: stdRoots[k][i] in all)
    && (stdRoots != map[] ==> forall u | u in all && NeedsStd(u) :: u.kind in stdRoots)
  }

  ghost predicate PackagesAcyclic(w: World) {
    exists order :: PackageOrder(w, order)
  }

  /** The graph before scripts are linked: closed, holding the roots, and every unit with exactly
      the dependencies computed for it and the standard library where it is due; exactly the dev
      edges of those computations are recorded. */
  ghost predicate Unlinked(w: World, all: set<Unit>, roots: seq<Unit>, stdRoots: StdRoots, g: UnitGraph, dev: set<(Unit, Unit)>)
    requires Inputs(w, all, roots, stdRoots)
  {
    && g.Keys <= all
    && ClosedGraph(g) && KnownGraph(w, g, dev)
    && (forall i | 0 <= i < |roots| :: roots[i] in g)
    && (forall u | u in g :: Listed(w, stdRoots, dev, u, g[u]))
    && DevFrom(RulesOf(w), dev)
  }

  /** A root of the standard library that the unit is given. */
  ghost predicate StdDependency(w: World, stdRoots: StdRoots, u: Unit, d: UnitDep) {
    && !u.isStd && u.kind != Host && u.mode != RunCustomBuild && u.kind in stdRoots
    && exists r | r in stdRoots[u.kind] :: d == UnitDep(r, w.unitFor(r, 0, r.target, ForNormal), None)
  }

  // ----- What a unit was visited for -----

  /** From one unit and purpose to the next: along a dependency, or from a documented unit to one that is scraped. */
  ghost predicate NextVisit(w: World, a: Visit, b: Visit) {
    || (exists d :: Needs(w, a.0, a.1, d) && d.unit == b.0 && d.unitFor == b.1)
    || (&& a.0.mode == Doc && w.isMember(a.0.pkg) && !a.0.target.forHost && (forall t | t in a.0.pkg.targets :: !t.procMacro)
        && b.0 in w.scrapeUnits && b.1 == w.unitFor(b.0, 0, b.0.target, ForNormal))
  }

  /** A root, with the purpose of a root. */
  ghost predicate FirstVisit(w: World, roots: seq<Unit>, stdRoots: StdRoots, isStd: bool, v: Visit) {
    && v.1 == w.unitFor(v.0, 0, v.0.target, ForRoot)
    && if isStd then exists k | k in stdRoots :: v.0 in stdRoots[k] else v.0 in roots
  }

  ghost predicate VisitedFor(w: World, roots: seq<Unit>, stdRoots: StdRoots, u: Unit, f: UnitFor) {
    exists p: seq<Visit> :: Visits(w, roots, stdRoots, u, f, p)
  }

  ghost predicate Visits(w: World, roots: seq<Unit>, stdRoots: StdRoots, u: Unit, f: UnitFor, p: seq<Visit>) {
    && p != [] && FirstVisit(w, roots, stdRoots, u.isStd, p[0]) && p[|p| - 1] == (u, f)
    && forall i | 0 < i < |p| :: NextVisit(w, p[i - 1], p[i])
  }

  lemma StepIsNext(w: World, a: Visit, b: Visit)
    requires VisitStep(w, RulesOf(w), a, b)
    ensures NextVisit(w, a, b)
  {
    var deps := RulesOf(w).deps(a.0, a.1);
    if d :| d in deps && d.unit == b.0 && d.unitFor == b.1 {
      ListExactly(w, a.0, a.1, d);
    }
  }

  lemma LeadsIsVisited(w: World, roots: seq<Unit>, stdRoots: StdRoots, list: seq<UnitDep>, u: Unit, f: UnitFor)
    requires LeadsFrom(w, RulesOf(w), list, (u, f))
    requires forall v | StartsIn(list, v) :: FirstVisit(w, roots, stdRoots, u.isStd, v)
    ensures VisitedFor(w, roots, stdRoots, u, f)
  {
    var p :| VisitPath(w, RulesOf(w), p) && StartsIn(list, p[0]) && p[|p| - 1] == (u, f);
    forall i | 0 < i < |p| ensures NextVisit(w, p[i - 1], p[i]) {
      StepIsNext(w, p[i - 1], p[i]);
    }
    assert Visits(w, roots, stdRoots, u, f, p);
  }

  lemma RootsAreFirst(w: World, units: seq<Unit>, v: Visit)
    requires StartsIn(WithPurpose(w, units, ForRoot), v)
    ensures v.0 in units && v.1 == w.unitFor(v.0, 0, v.0.target, ForRoot)
  {
    var list := WithPurpose(w, units, ForRoot);
    var d :| d in list && d.unit == v.0 && d.unitFor == v.1;
    var i :| 0 <= i < |list| && list[i] == d;
  }

  /** The purpose a list was computed for is one that the unit is visited for. */
  lemma TracedIsVisited(w: World, roots: seq<Unit>, stdRoots: StdRoots, dev: set<(Unit, Unit)>, u: Unit, own: seq<UnitDep>) returns (f: UnitFor)
    requires FromVisits(w, roots, stdRoots, dev, u, own)
    ensures VisitedFor(w, roots, stdRoots, u, f) && own == RulesOf(w).deps(u, f) && RulesOf(w).dev(u, f) <= dev
  {
    var rules, units := RulesOf(w), roots;
    if u.isStd {
      var k :| k in stdRoots && Traced(w, rules, WithPurpose(w, stdRoots[k], ForRoot), dev, u, own);
      units := stdRoots[k];
    }
    var list := WithPurpose(w, units, ForRoot);
    f :| LeadsFrom(w, rules, list, (u, f)) && own == rules.deps(u, f) && rules.dev(u, f) <= dev;
    forall v | StartsIn(list, v) ensures FirstVisit(w, roots, stdRoots, u.isStd, v) {
      RootsAreFirst(w, units, v);
    }
    LeadsIsVisited(w, roots, stdRoots, list, u, f);
  }

  /** The list has what the unit needs for a purpose it is visited for and the standard library where it is due, and
      nothing else; and what it needs as a dev-dependency alone is recorded. */
  ghost predicate HasWhatIsNeeded(w: World, roots: seq<Unit>, stdRoots: StdRoots, dev: set<(Unit, Unit)>, u: Unit, list: seq<UnitDep>) {
    exists f: UnitFor :: VisitedFor(w, roots, stdRoots, u, f) && NeededFor(w, stdRoots, dev, u, f, list)
  }

  ghost predicate NeededFor(w: World, stdRoots: StdRoots, dev: set<(Unit, Unit)>, u: Unit, f: UnitFor, list: seq<UnitDep>) {
    && (forall d :: d in list <==> Needs(w, u, f, d) || StdDependency(w, stdRoots, u, d))
    && (forall x | DevOnly(w, u, f, x) :: (u, x) in dev)
    && (u.mode != RunCustomBuild ==> forall s :: FirstRunOf(list, s) <==> RunsFirstScript(w, u, f, s))
  }

  // ----- Of several scripts, the first -----

  predicate IsScript(t: Target) { t.kind.CustomBuild? }

  ghost predicate RunsFirstScript(w: World, u: Unit, f: UnitFor, s: UnitDep) {
    && (u.mode == Doc || !u.target.kind.CustomBuild?)
    && RunsFirstOf(w, u, f, u.pkg.targets, s)
  }

  ghost predicate NoRuns(deps: seq<UnitDep>) {
    forall i | 0 <= i < |deps| :: deps[i].unit.mode != RunCustomBuild
  }

  lemma FirstRunAround(front: seq<UnitDep>, runs: seq<UnitDep>, back: seq<UnitDep>, s: UnitDep)
    requires NoRuns(front) && NoRuns(back) && forall i | 0 <= i < |runs| :: runs[i].unit.mode == RunCustomBuild
    ensures FirstRunOf(front + runs + back, s) <==> runs != [] && s == runs[0]
  {
    var all := front + runs + back;
    assert forall i | 0 <= i < |all| :: all[i] == if i < |front| then front[i] else if i < |front| + |runs| then runs[i - |front|] else back[i - |front| - |runs|];
    if runs != [] {
      assert all[|front|] == runs[0];
    }
  }

  ghost predicate RunsFirstOf(w: World, u: Unit, f: UnitFor, targets: seq<Target>, s: UnitDep) {
    exists t | FirstOf(targets, IsScript, t) :: RunOf(w, u, f, s, t)
  }

  lemma RunsFirstStep(w: World, u: Unit, f: UnitFor, targets: seq<Target>, s: UnitDep)
    requires targets != []
    ensures RunsFirstOf(w, u, f, targets, s) <==>
      if IsScript(targets[0]) then RunOf(w, u, f, s, targets[0]) else RunsFirstOf(w, u, f, targets[1..], s)
  {
    FirstOfStep(targets, IsScript, targets[0]);
    if t :| FirstOf(targets, IsScript, t) && RunOf(w, u, f, s, t) {
      FirstOfStep(targets, IsScript, t);
    }
    if t :| FirstOf(targets[1..], IsScript, t) && RunOf(w, u, f, s, t) {
      FirstOfStep(targets, IsScript, t);
    }
  }

  lemma {:induction false} FirstOfRuns(w: World, u: Unit, f: UnitFor, targets: seq<Target>, s: UnitDep)
    ensures var runs := BuildScriptDeps(w, u, f, u.isStd, targets);
      (runs != [] && s == runs[0]) <==> RunsFirstOf(w, u, f, targets, s)
  {
    if targets != [] {
      FirstOfRuns(w, u, f, targets[1..], s);
      RunsFirstStep(w, u, f, targets, s);
      MadeIsNew(w, u.isStd, u.pkg, s, u.pkg, targets[0], w.unitFor(u, f, targets[0], ForCustomBuild), u.kind, RunCustomBuild, false);
    }
  }

  lemma ResolvedHaveNoRuns(w: World, u: Unit, f: UnitFor, entries: seq<Resolved>)
    ensures NoRuns(ResolvedDeps(w, u, f, u.isStd, entries))
  {
    forall d | d in ResolvedDeps(w, u, f, u.isStd, entries) ensures d.unit.mode != RunCustomBuild {
      EntriesExactly(w, u, f, entries, d);
    }
  }

  /** The runs of the unit's own scripts, where its list has them. */
  function OwnRuns(w: World, u: Unit, f: UnitFor): (r: seq<UnitDep>)
    ensures forall i | 0 <= i < |r| :: r[i].unit.mode == RunCustomBuild
  {
    if u.mode != Doc && u.target.IsCustomBuild() then [] else
      var runs := BuildScriptDeps(w, u, f, u.isStd, u.pkg.targets);
      assert forall i | 0 <= i < |runs| :: runs[i] in runs;
      runs
  }

  lemma RegularShape(w: World, u: Unit, f: UnitFor) returns (back: seq<UnitDep>)
    requires u.mode != RunCustomBuild && u.mode != Doc
    ensures ComputeDeps(w, u, f, u.isStd) == ResolvedDeps(w, u, f, u.isStd, w.resolve(u.isStd, u.pkg.id)) + OwnRuns(w, u, f) + back
    ensures forall d | d in back :: d.unit.mode != RunCustomBuild
  {
    var start := ResolvedDeps(w, u, f, u.isStd, w.resolve(u.isStd, u.pkg.id)) + OwnRuns(w, u, f);
    if u.target.IsCustomBuild() || (u.target.IsLib() && u.mode != Doctest) {
      back := [];
    } else {
      var lib := OwnLib(w, u, f, u.isStd);
      var bins := if !u.mode.Check? && u.mode.IsAnyTest() && (u.target.IsTest() || u.target.IsBench())
                  then OwnBins(w, u, f, u.isStd, u.pkg.targets) else [];
      back := lib + bins;
      Sorting.Assoc(start, lib, bins);
    }
  }

  lemma OwnDocumentedShape(w: World, u: Unit, f: UnitFor) returns (own: seq<UnitDep>)
    requires u.mode == Doc
    ensures DocumentedDeps(w, u, f, u.isStd) == ResolvedDeps(w, u, f, u.isStd, w.resolve(u.isStd, u.pkg.id)) + OwnRuns(w, u, f) + own
    ensures forall d | d in own :: d.unit.mode != RunCustomBuild
  {
    if u.target.IsBin() || u.target.IsExample() {
      var lib := FirstDocumentedLib(u.pkg.targets);
      var docs := if lib.None? then [] else
        [NewUnitDep(w, u.pkg, u.pkg, lib.value, w.unitFor(u, f, lib.value, ForDependency), KindFor(u.kind, lib.value), Doc, false, u.isStd)];
      own := OwnLib(w, u, f, u.isStd) + docs;
    } else {
      own := [];
    }
  }

  lemma DocumentedShape(w: World, u: Unit, f: UnitFor) returns (back: seq<UnitDep>)
    requires WellFormedWorld(w) && u.mode == Doc
    ensures ComputeDeps(w, u, f, u.isStd) == ResolvedDeps(w, u, f, u.isStd, w.resolve(u.isStd, u.pkg.id)) + OwnRuns(w, u, f) + back
    ensures forall d | d in back :: d.unit.mode != RunCustomBuild
  {
    var own := OwnDocumentedShape(w, u, f);
    var scraped := if NeedsDocScrape(w, u) then ScrapeDeps(w, u.isStd, w.scrapeUnits) else [];
    back := own + scraped;
    Sorting.Assoc(ResolvedDeps(w, u, f, u.isStd, w.resolve(u.isStd, u.pkg.id)) + OwnRuns(w, u, f), own, scraped);
  }

  /** The first script run in a unit's list is that of the first script among its package's targets, with the
      standard library behind it or not. */
  lemma FirstScriptExactly(w: World, u: Unit, f: UnitFor, more: seq<UnitDep>, s: UnitDep)
    requires WellFormedWorld(w) && u.mode != RunCustomBuild && NoRuns(more)
    ensures FirstRunOf(ComputeDeps(w, u, f, u.isStd) + more, s) <==> RunsFirstScript(w, u, f, s)
  {
    var resolved := ResolvedDeps(w, u, f, u.isStd, w.resolve(u.isStd, u.pkg.id));
    var back;
    if u.mode == Doc {
      back := DocumentedShape(w, u, f);
    } else {
      back := RegularShape(w, u, f);
    }
    ResolvedHaveNoRuns(w, u, f, w.resolve(u.isStd, u.pkg.id));
    FirstOfRuns(w, u, f, u.pkg.targets, s);
    FirstRunAround(resolved, OwnRuns(w, u, f), back + more, s);
    Sorting.Assoc(resolved + OwnRuns(w, u, f), back, more);
  }

  lemma TracedIsNeeded(w: World, roots: seq<Unit>, stdRoots: StdRoots, dev: set<(Unit, Unit)>, u: Unit, list: seq<UnitDep>)
    requires stdRoots != map[] && NeedsStd(u) ==> u.kind in stdRoots
    requires TracedIn(w, roots, stdRoots, dev, u, list) && WellFormedWorld(w) && StdRootsMade(stdRoots)
    ensures HasWhatIsNeeded(w, roots, stdRoots, dev, u, list)
  {
    var own :| FromVisits(w, roots, stdRoots, dev, u, own) && list == if stdRoots != map[] && !u.isStd then WithStd(w, stdRoots, u, own) else own;
    var f := TracedIsVisited(w, roots, stdRoots, dev, u, own);
    ComputedIsNeeded(w, stdRoots, dev, u, f, own, list);
  }

  lemma ComputedIsNeeded(w: World, stdRoots: StdRoots, dev: set<(Unit, Unit)>, u: Unit, f: UnitFor, own: seq<UnitDep>, list: seq<UnitDep>)
    requires (stdRoots != map[] && NeedsStd(u) ==> u.kind in stdRoots) && WellFormedWorld(w) && StdRootsMade(stdRoots)
    requires own == RulesOf(w).deps(u, f) && RulesOf(w).dev(u, f) <= dev
    requires list == if stdRoots != map[] && !u.isStd then WithStd(w, stdRoots, u, own) else own
    ensures NeededFor(w, stdRoots, dev, u, f, list)
  {
    forall d ensures d in own <==> Needs(w, u, f, d) {
      ListExactly(w, u, f, d);
    }
    forall d ensures d in list <==> d in own || StdDependency(w, stdRoots, u, d) {
      StdExactly(w, stdRoots, u, own, d);
    }
    forall x | DevOnly(w, u, f, x) ensures (u, x) in dev {
      RecordedExactly(w, u, f, x);
    }
    if u.mode != RunCustomBuild {
      var more := list[|own|..];
      assert NoRuns(more) && list == own + more;
      forall s ensures FirstRunOf(list, s) <==> RunsFirstScript(w, u, f, s) {
        FirstScriptExactly(w, u, f, more, s);
      }
    }
  }

  lemma StdExactly(w: World, stdRoots: StdRoots, u: Unit, own: seq<UnitDep>, d: UnitDep)
    requires stdRoots != map[] && NeedsStd(u) ==> u.kind in stdRoots
    ensures d in (if stdRoots != map[] && !u.isStd then WithStd(w, stdRoots, u, own) else own) <==> d in own || StdDependency(w, stdRoots, u, d)
  {
    if stdRoots != map[] && !u.isStd && NeedsStd(u) {
      var std := stdRoots[u.kind];
      var more := WithPurpose(w, std, ForNormal);
      assert forall i | 0 <= i < |std| :: more[i] == UnitDep(std[i], w.unitFor(std[i], 0, std[i].target, ForNormal), None);
      if d in more {
        var i :| 0 <= i < |more| && more[i] == d;
        assert std[i] in std;
      }
      if StdDependency(w, stdRoots, u, d) {
        var r :| r in std && d == UnitDep(r, w.unitFor(r, 0, r.target, ForNormal), None);
        var i :| 0 <= i < |std| && std[i] == r;
        assert more[i] == d;
      }
    }
  }

  /** Dev edges are recorded for no other reason. */
  lemma RecordedIsDevOnly(w: World, dev: set<(Unit, Unit)>)
    requires DevFrom(RulesOf(w), dev)
    ensures forall u, x | (u, x) in dev :: exists f: UnitFor :: DevOnly(w, u, f, x)
  {
    forall u, x | (u, x) in dev ensures exists f: UnitFor :: DevOnly(w, u, f, x) {
      var e := (u, x);
      var f: UnitFor :| e in RulesOf(w).dev(e.0, f);
      RecordedExactly(w, u, f, x);
    }
  }

  ghost predicate Present(units: seq<Unit>, g: UnitGraph) {
    forall i | 0 <= i < |units| :: units[i] in g
  }

  lemma AttachedIsUnlinked(w: World, all: set<Unit>, roots: seq<Unit>, stdRoots: StdRoots, user: UnitGraph, std: UnitGraph, g: UnitGraph,
                           dev: set<(Unit, Unit)>)
    requires Inputs(w, all, roots, stdRoots) && stdRoots != map[] && user.Keys <= all && std.Keys <= all
    requires ClosedGraph(user) && ClosedGraph(std) && Present(roots, user) && (forall k | k in stdRoots :: Present(stdRoots[k], std))
    requires BuiltFrom(RulesOf(w), false, user, dev) && BuiltFrom(RulesOf(w), true, std, dev) && DevFrom(RulesOf(w), dev)
    requires Attached(w, user, stdRoots, std, g)
    ensures Unlinked(w, all, roots, stdRoots, g, dev)
  {
    StdIsDisjoint(RulesOf(w), user, std, dev);
    assert forall k, i | k in stdRoots && 0 <= i < |stdRoots[k]| :: stdRoots[k][i] in std by {
      assert forall k | k in stdRoots :: Present(stdRoots[k], std);
    }
    AttachedClosed(w, user, stdRoots, std, g);
    AttachedKnown(w, user, stdRoots, std, g, dev);
    AttachedListed(w, user, stdRoots, std, g, dev);
  }

  /** Every list was computed on a visit that the roots lead to. */
  ghost predicate AllTracedIn(w: World, roots: seq<Unit>, stdRoots: StdRoots, g: UnitGraph, dev: set<(Unit, Unit)>) {
    forall u | u in g :: (stdRoots != map[] && NeedsStd(u) ==> u.kind in stdRoots) && TracedIn(w, roots, stdRoots, dev, u, g[u])
  }

  lemma AttachedIsTraced(w: World, all: set<Unit>, roots: seq<Unit>, stdRoots: StdRoots, user: UnitGraph, std: UnitGraph, g: UnitGraph,
                         stdDev: set<(Unit, Unit)>, dev: set<(Unit, Unit)>)
    requires Inputs(w, all, roots, stdRoots) && stdRoots != map[] && user.Keys <= all && std.Keys <= all
    requires BuiltFrom(RulesOf(w), false, user, dev) && BuiltFrom(RulesOf(w), true, std, stdDev) && stdDev <= dev
    requires AllTraced(w, RulesOf(w), WithPurpose(w, roots, ForRoot), dev, map[], user) && AllStdTraced(w, RulesOf(w), stdRoots, stdDev, std)
    requires Attached(w, user, stdRoots, std, g)
    ensures AllTracedIn(w, roots, stdRoots, g, dev)
  {
    StdTracedLater(w, RulesOf(w), stdRoots, stdDev, dev, std);
    AttachedTraced(w, roots, user, stdRoots, std, g, dev);
  }

  lemma BuiltIsTraced(w: World, roots: seq<Unit>, user: UnitGraph, dev: set<(Unit, Unit)>)
    requires BuiltFrom(RulesOf(w), false, user, dev) && AllTraced(w, RulesOf(w), WithPurpose(w, roots, ForRoot), dev, map[], user)
    ensures AllTracedIn(w, roots, map[], user, dev)
  {
    assert forall u | u in user :: FromVisits(w, roots, map[], dev, u, user[u]);
  }

  /** The standard library is built first, apart, and attached at the end. */
  method TraverseWithStd(w: World, ghost all: set<Unit>, roots: seq<Unit>, stdRoots: StdRoots)
      returns (r: Option<UnitGraph>, dev: set<(Unit, Unit)>)
    requires Inputs(w, all, roots, stdRoots) && stdRoots != map[]
    ensures r.Some? ==> Unlinked(w, all, roots, stdRoots, r.value, dev) && AllTracedIn(w, roots, stdRoots, r.value, dev)
    ensures NothingFails(RulesOf(w)) ==> r.Some?
  {
    var state := new State(w, all);
    var std := state.CalcDepsOfStd(stdRoots);
    if std.None? {
      return None, {};
    }
    ghost var stdDev := state.devDependencyEdges;
    var ok := state.DepsOfRoots(roots);
    if !ok {
      return None, {};
    }
    ghost var user := state.unitDependencies;
    assert BuiltFrom(RulesOf(w), true, std.value, state.devDependencyEdges);
    var collided := state.AttachStdDeps(stdRoots, std.value);
    AttachedIsUnlinked(w, all, roots, stdRoots, user, std.value, state.unitDependencies, state.devDependencyEdges);
    AttachedIsTraced(w, all, roots, stdRoots, user, std.value, state.unitDependencies, stdDev, state.devDependencyEdges);
    r, dev := Some(state.unitDependencies), state.devDependencyEdges;
  }

  method TraverseAndAttach(w: World, ghost all: set<Unit>, roots: seq<Unit>, stdRoots: StdRoots)
      returns (r: Option<UnitGraph>, dev: set<(Unit, Unit)>)
    requires Inputs(w, all, roots, stdRoots)
    ensures r.Some? ==> Unlinked(w, all, roots, stdRoots, r.value, dev) && AllTracedIn(w, roots, stdRoots, r.value, dev)
    ensures NothingFails(RulesOf(w)) ==> r.Some?
  {
    if stdRoots != map[] {
      r, dev := TraverseWithStd(w, all, roots, stdRoots);
      return;
    }
    var state := new State(w, all);
    var ok := state.DepsOfRoots(roots);
    if !ok {
      return None, {};
    }
    BuiltIsKnown(w, false, state.unitDependencies, state.devDependencyEdges);
    BuiltIsTraced(w, roots, state.unitDependencies, state.devDependencyEdges);
    r, dev := Some(state.unitDependencies), state.devDependencyEdges;
  }

  /** Every list has exactly what its unit needs, and exactly the edges due to dev-dependencies alone are recorded. */
  ghost predicate AsNeeded(w: World, roots: seq<Unit>, stdRoots: StdRoots, g: UnitGraph, dev: set<(Unit, Unit)>) {
    && (forall u | u in g :: HasWhatIsNeeded(w, roots, stdRoots, dev, u, g[u]))
    && forall u, x | (u, x) in dev :: exists f: UnitFor :: DevOnly(w, u, f, x)
  }

  lemma TracedIsAsNeeded(w: World, roots: seq<Unit>, stdRoots: StdRoots, g: UnitGraph, dev: set<(Unit, Unit)>)
    requires WellFormedWorld(w) && StdRootsMade(stdRoots) && AllTracedIn(w, roots, stdRoots, g, dev) && DevFrom(RulesOf(w), dev)
    ensures AsNeeded(w, roots, stdRoots, g, dev)
  {
    forall u | u in g ensures HasWhatIsNeeded(w, roots, stdRoots, dev, u, g[u]) {
      TracedIsNeeded(w, roots, stdRoots, dev, u, g[u]);
    }
    RecordedIsDevOnly(w, dev);
  }

  /** No root is a test or an example to be documented. */
  predicate NoneDocumented(roots: seq<Unit>) {
    forall i | 0 <= i < |roots| :: !UnrecordedDevParent(roots[i])
  }

  /** Then no such unit is met. */
  lemma UndocumentedInputs(w: World, all: set<Unit>, roots: seq<Unit>, stdRoots: StdRoots)
    requires Inputs(w, all, roots, stdRoots) && NoneDocumented(roots)
    ensures Inputs(w, Undocumented(all), roots, stdRoots)
  {
    UndocumentedUniverse(w, all);
  }

  /** Every graph returned is closed, holds the roots, and has for each unit exactly what it needs and, for
      script runs, the script runs they wait for. If the packages' non-dev dependencies are acyclic, it is acyclic exactly if in
      the graph before linking no script run waits for itself; and it is acyclic whenever no root is a test or an example to
      be documented and metadata from any script is off. */
  method BuildUnitDependencies(w: World, ghost all: set<Unit>, roots: seq<Unit>, stdRoots: StdRoots, anyMetadata: bool)
      returns (r: Option<UnitGraph>, ghost before: UnitGraph, ghost dev: set<(Unit, Unit)>)
    requires Inputs(w, all, roots, stdRoots)
    ensures r.Some? ==> ClosedGraph(r.value)
    ensures r.Some? && roots != [] ==> forall i | 0 <= i < |roots| :: roots[i] in r.value
    ensures r.Some? && roots == [] ==> r.value == map[]
    ensures r.Some? && roots != [] ==>
      Unlinked(w, all, roots, stdRoots, before, dev) && Connected(before, dev, anyMetadata, r.value)
    ensures r.Some? && roots != [] ==> AsNeeded(w, roots, stdRoots, before, dev) && ScriptsLinked(before, dev, anyMetadata, r.value)
    ensures NothingFails(RulesOf(w)) ==> r.Some?
    ensures r.Some? && roots != [] && PackagesAcyclic(w) ==>
      (Acyclic(EdgesOf(r.value)) <==> !WaitsForItself(w, before, dev, anyMetadata))
    ensures r.Some? && PackagesAcyclic(w) && !anyMetadata && NoneDocumented(roots) ==> Acyclic(EdgesOf(r.value))
  {
    before, dev := map[], {};
    if roots == [] {
      RankedIsAcyclic(EdgesOf(map[]), map[]);
      return Some(map[]), map[], {};
    }
    ghost var used := all;
    if NoneDocumented(roots) {
      UndocumentedInputs(w, all, roots, stdRoots);
      used := Undocumented(all);
    }
    var g, d := TraverseAndAttach(w, used, roots, stdRoots);
    if g.None? {
      return None, map[], {};
    }
    before, dev := g.value, d;
    TracedIsAsNeeded(w, roots, stdRoots, g.value, d);
    var linked := ConnectRunCustomBuildDeps(g.value, d, anyMetadata);
    ConnectedIsClosed(g.value, d, anyMetadata, linked);
    FinishedIsAcyclicExactly(w, used, roots, stdRoots, g.value, d, anyMetadata, linked);
    r := Some(linked);
  }

  lemma FinishedIsAcyclicExactly(w: World, all: set<Unit>, roots: seq<Unit>, stdRoots: StdRoots, g: UnitGraph, dev: set<(Unit, Unit)>,
                                 anyMetadata: bool, g': UnitGraph)
    requires Inputs(w, all, roots, stdRoots) && Unlinked(w, all, roots, stdRoots, g, dev) && Connected(g, dev, anyMetadata, g')
    ensures PackagesAcyclic(w) ==> (Acyclic(EdgesOf(g')) <==> !WaitsForItself(w, g, dev, anyMetadata))
    ensures PackagesAcyclic(w) && !anyMetadata && (forall u | u in all :: !UnrecordedDevParent(u)) ==> Acyclic(EdgesOf(g'))
  {
    if PackagesAcyclic(w) {
      var order :| PackageOrder(w, order);
      AcyclicExactly(w, order, g, dev, anyMetadata, g');
      if !anyMetadata && (forall u | u in all :: !UnrecordedDevParent(u)) {
        assert NoDevDocumented(w, g, dev);
        FinishedGraphIsAcyclic(w, order, g, dev, g');
      }
    }
  }
}
