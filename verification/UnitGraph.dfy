/** Construction of the unit graph (`src/compiler/unit_dependencies.rs`): the memoised closure
    over `compute_deps`, attaching the standard library, and linking build-script runs. */
module UnitGraphs {
  import opened Units
  import opened Graphs
  import opened UnitDependencies

  type UnitGraph = map<Unit, seq<UnitDep>>

  /** The plain dependency graph, without the labels on the edges. */
  function EdgesOf(g: UnitGraph): Graph<Unit> {
    map u | u in g :: seq(|g[u]|, i requires 0 <= i < |g[u]| => g[u][i].unit)
  }

  ghost predicate DepsPresent(g: UnitGraph, u: Unit)
    requires u in g
  {
    forall i | 0 <= i < |g[u]| :: g[u][i].unit in g
  }

  ghost predicate ClosedGraph(g: UnitGraph) {
    forall u | u in g :: DepsPresent(g, u)
  }

  lemma ClosedGraphIsClosed(g: UnitGraph)
    requires ClosedGraph(g)
    ensures Closed(EdgesOf(g))
  {}

  // ----- Traversal -----

  /** Entries are only ever added. */
  ghost predicate Grown(before: UnitGraph, after: UnitGraph) {
    forall u | u in before :: u in after && after[u] == before[u]
  }

  /** What was added since `before` has its dependencies in the graph. */
  ghost predicate AddedClosed(before: UnitGraph, after: UnitGraph) {
    forall u | u in after && u !in before :: DepsPresent(after, u)
  }

  /** `compute_deps` as the traversal sees it: the dependencies of a unit, the dev edges it records,
      and whether one of its helpers reports an error. */
  datatype Rules = Rules(
    deps: (Unit, UnitFor) -> seq<UnitDep>,
    dev: (Unit, UnitFor) -> set<(Unit, Unit)>,
    fails: (Unit, UnitFor) -> bool)

  function RulesOf(w: World): Rules {
    Rules((u: Unit, unitFor: UnitFor) => ComputeDeps(w, u, unitFor, u.isStd),
          (u: Unit, unitFor: UnitFor) => RecordedDevEdges(w, u, unitFor, u.isStd),
          w.fails)
  }

  /** `deps` is what `compute_deps` gives for the unit on some visit, with its dev edges recorded. */
  ghost predicate MadeBy(rules: Rules, dev: set<(Unit, Unit)>, u: Unit, deps: seq<UnitDep>) {
    exists unitFor: UnitFor :: deps == rules.deps(u, unitFor) && rules.dev(u, unitFor) <= dev
  }

  /** Every entry was made by `compute_deps`, and its dev edges are recorded. */
  ghost predicate BuiltFrom(rules: Rules, isStd: bool, g: UnitGraph, dev: set<(Unit, Unit)>) {
    forall u | u in g :: u.isStd == isStd && MadeBy(rules, dev, u, g[u])
  }

  /** Nothing else is recorded as a dev edge. */
  ghost predicate DevFrom(rules: Rules, dev: set<(Unit, Unit)>) {
    forall e | e in dev :: exists unitFor: UnitFor :: e in rules.dev(e.0, unitFor)
  }

  /** A finite set of units that `compute_deps` does not leave. */
  ghost predicate Universe(w: World, all: set<Unit>) {
    && (forall s | s in w.scrapeUnits :: s in all)
    && (forall u | u in all :: WellFormed(u))
    && forall u, unitFor: UnitFor, d: UnitDep | u in all && d in ComputeDeps(w, u, unitFor, u.isStd) :: d.unit in all
  }

  /** The traversal stays in the set, in the same build, and does not start documenting. */
  ghost predicate StaysIn(rules: Rules, all: set<Unit>) {
    forall u, unitFor: UnitFor, d: UnitDep | u in all && d in rules.deps(u, unitFor) ::
      d.unit in all && d.unit.isStd == u.isStd && (d.unit.mode.Doc? ==> u.mode.Doc?)
  }

  /** What is left of the set without the tests and examples that are documented. */
  ghost function Undocumented(all: set<Unit>): set<Unit> {
    set u | u in all && !UnrecordedDevParent(u)
  }

  /** Such units are never dependencies: of what a unit depends on only libraries are documented. */
  lemma UndocumentedUniverse(w: World, all: set<Unit>)
    requires WellFormedWorld(w) && Universe(w, all)
    ensures Universe(w, Undocumented(all))
  {
    forall u, unitFor: UnitFor, d: UnitDep | u in Undocumented(all) && d in ComputeDeps(w, u, unitFor, u.isStd)
      ensures d.unit in Undocumented(all) {
      ComputedEdgeFacts(w, u, unitFor, d);
    }
  }

  lemma RulesStayIn(w: World, all: set<Unit>)
    requires WellFormedWorld(w) && Universe(w, all)
    ensures StaysIn(RulesOf(w), all)
  {
    var rules := RulesOf(w);
    forall u, unitFor: UnitFor, d: UnitDep | u in all && d in rules.deps(u, unitFor)
      ensures d.unit in all && d.unit.isStd == u.isStd && (d.unit.mode.Doc? ==> u.mode.Doc?) {
      ComputedEdgeFacts(w, u, unitFor, d);
    }
  }

  /** What is known of the edges of a list made by `compute_deps`. */
  lemma MadeFacts(w: World, dev: set<(Unit, Unit)>, u: Unit, deps: seq<UnitDep>)
    requires WellFormedWorld(w) && WellFormed(u) && MadeBy(RulesOf(w), dev, u, deps)
    ensures forall i | 0 <= i < |deps| :: EdgeFacts(w, u, deps[i].unit, (u, deps[i].unit) in dev)
  {
    var rules := RulesOf(w);
    var unitFor: UnitFor :| deps == rules.deps(u, unitFor) && rules.dev(u, unitFor) <= dev;
    forall i | 0 <= i < |deps| ensures EdgeFacts(w, u, deps[i].unit, (u, deps[i].unit) in dev) {
      ComputedEdgeFacts(w, u, unitFor, deps[i]);
    }
  }

  lemma BuiltFromInsert(rules: Rules, g: UnitGraph, dev: set<(Unit, Unit)>, u: Unit, unitFor: UnitFor)
    requires BuiltFrom(rules, u.isStd, g, dev) && DevFrom(rules, dev) && forall e | e in rules.dev(u, unitFor) :: e.0 == u
    ensures BuiltFrom(rules, u.isStd, g[u := rules.deps(u, unitFor)], dev + rules.dev(u, unitFor))
    ensures DevFrom(rules, dev + rules.dev(u, unitFor))
  {
    var dev' := dev + rules.dev(u, unitFor);
    assert rules.dev(u, unitFor) <= dev';
    forall x | x in g && x != u ensures MadeBy(rules, dev', x, g[x]) {
      assert MadeBy(rules, dev, x, g[x]);
      var f: UnitFor :| g[x] == rules.deps(x, f) && rules.dev(x, f) <= dev;
      assert rules.dev(x, f) <= dev';
    }
  }

  /** Dev edges start at the unit they are recorded for. */
  ghost predicate DevFromUnit(rules: Rules) {
    forall u, unitFor: UnitFor, e | e in rules.dev(u, unitFor) :: e.0 == u
  }

  /** No helper of `compute_deps` reports an error. */
  ghost predicate NothingFails(rules: Rules) {
    forall u, unitFor: UnitFor :: !rules.fails(u, unitFor)
  }

  lemma AddedClosedTrans(a: UnitGraph, b: UnitGraph, c: UnitGraph)
    requires Grown(b, c) && AddedClosed(b, c) && AddedClosed(a, b)
    ensures AddedClosed(a, c)
  {
    forall u | u in c && u !in a ensures DepsPresent(c, u) {
      if u in b {
        assert DepsPresent(b, u);
      }
    }
  }

  function WithPurpose(w: World, units: seq<Unit>, purpose: Purpose): (r: seq<UnitDep>)
    ensures |r| == |units| && forall i | 0 <= i < |r| :: r[i].unit == units[i]
  {
    seq(|units|, i requires 0 <= i < |units| => UnitDep(units[i], w.unitFor(units[i], 0, units[i].target, purpose), None))
  }

  lemma GrownByInsert(all: set<Unit>, a: UnitGraph, before: UnitGraph, unit: Unit, deps: seq<UnitDep>)
    requires unit in all && unit !in a && Grown(a, before)
    ensures Grown(a, before[unit := deps])
    ensures all - before[unit := deps].Keys < all - a.Keys
  {
    assert unit in all - a.Keys && unit !in all - before[unit := deps].Keys;
  }

  lemma GrownTransitive(a: UnitGraph, b: UnitGraph, c: UnitGraph)
    requires Grown(a, b) && Grown(b, c)
    ensures Grown(a, c)
  {
  }

  ghost predicate FirstPresent(list: seq<UnitDep>, n: nat, g: UnitGraph) {
    n <= |list| && forall j | 0 <= j < n :: list[j].unit in g
  }

  lemma NextPresent(list: seq<UnitDep>, n: nat, g: UnitGraph, g': UnitGraph)
    requires n < |list| && FirstPresent(list, n, g) && Grown(g, g') && list[n].unit in g'
    ensures FirstPresent(list, n + 1, g')
  {}

  lemma TraversalDone(a: UnitGraph, before: UnitGraph, unit: Unit, deps: seq<UnitDep>, after: UnitGraph)
    requires unit !in a && Grown(a, before) && AddedClosed(a, before)
    requires Grown(before[unit := deps], after) && AddedClosed(before[unit := deps], after)
    requires forall j | 0 <= j < |deps| :: deps[j].unit in after
    ensures AddedClosed(a, after)
  {
    forall u | u in after && u !in a ensures DepsPresent(after, u) {
      if u in before && u != unit {
        assert DepsPresent(before, u);
      }
    }
  }

  // ----- How the traversal gets to a unit -----

  /** A unit and the purpose it is visited for. */
  type Visit = (Unit, UnitFor)

  /** One visit leads to another: to a dependency, with the purpose it was given, or, if the unit is documented, to
      one that is scraped for it. */
  ghost predicate VisitStep(w: World, rules: Rules, a: Visit, b: Visit) {
    || (exists d | d in rules.deps(a.0, a.1) :: d.unit == b.0 && d.unitFor == b.1)
    || (a.0.mode.Doc? && NeedsDocScrape(w, a.0) && b.0 in w.scrapeUnits && b.1 == w.unitFor(b.0, 0, b.0.target, ForNormal))
  }

  ghost predicate VisitPath(w: World, rules: Rules, p: seq<Visit>) {
    p != [] && forall i | 0 < i < |p| :: VisitStep(w, rules, p[i - 1], p[i])
  }

  ghost predicate StartsIn(list: seq<UnitDep>, v: Visit) {
    exists d | d in list :: d.unit == v.0 && d.unitFor == v.1
  }

  ghost predicate LeadsFrom(w: World, rules: Rules, list: seq<UnitDep>, v: Visit) {
    exists p :: VisitPath(w, rules, p) && StartsIn(list, p[0]) && p[|p| - 1] == v
  }

  /** The list was computed on a visit that the visits in `list` lead to. */
  ghost predicate Traced(w: World, rules: Rules, list: seq<UnitDep>, dev: set<(Unit, Unit)>, u: Unit, deps: seq<UnitDep>) {
    exists f: UnitFor :: LeadsFrom(w, rules, list, (u, f)) && deps == rules.deps(u, f) && rules.dev(u, f) <= dev
  }

  ghost predicate AllTraced(w: World, rules: Rules, list: seq<UnitDep>, dev: set<(Unit, Unit)>, before: UnitGraph, after: UnitGraph) {
    forall u | u in after && u !in before :: Traced(w, rules, list, dev, u, after[u])
  }

  lemma TracedLater(w: World, rules: Rules, list: seq<UnitDep>, dev: set<(Unit, Unit)>, dev': set<(Unit, Unit)>, u: Unit, deps: seq<UnitDep>)
    requires Traced(w, rules, list, dev, u, deps) && dev <= dev'
    ensures Traced(w, rules, list, dev', u, deps)
  {
    var f: UnitFor :| LeadsFrom(w, rules, list, (u, f)) && deps == rules.deps(u, f) && rules.dev(u, f) <= dev;
    assert rules.dev(u, f) <= dev';
  }

  lemma AllTracedTrans(w: World, rules: Rules, list: seq<UnitDep>, dev: set<(Unit, Unit)>, dev': set<(Unit, Unit)>,
                       a: UnitGraph, b: UnitGraph, c: UnitGraph)
    requires AllTraced(w, rules, list, dev, a, b) && AllTraced(w, rules, list, dev', b, c) && Grown(b, c) && dev <= dev'
    ensures AllTraced(w, rules, list, dev', a, c)
  {
    forall u | u in c && u !in a ensures Traced(w, rules, list, dev', u, c[u]) {
      if u in b {
        TracedLater(w, rules, list, dev, dev', u, b[u]);
      }
    }
  }

  /** Every start of `inner` is a start of `outer`, or the next step after one. */
  ghost predicate OneStepFrom(w: World, rules: Rules, outer: seq<UnitDep>, inner: seq<UnitDep>) {
    forall d | d in inner :: StartsIn(outer, (d.unit, d.unitFor)) || exists a :: StartsIn(outer, a) && VisitStep(w, rules, a, (d.unit, d.unitFor))
  }

  lemma LeadsOn(w: World, rules: Rules, outer: seq<UnitDep>, inner: seq<UnitDep>, v: Visit)
    requires OneStepFrom(w, rules, outer, inner) && LeadsFrom(w, rules, inner, v)
    ensures LeadsFrom(w, rules, outer, v)
  {
    var p: seq<Visit> :| VisitPath(w, rules, p) && StartsIn(inner, p[0]) && p[|p| - 1] == v;
    if !StartsIn(outer, p[0]) {
      var d: UnitDep :| d in inner && d.unit == p[0].0 && d.unitFor == p[0].1;
      var a: Visit :| StartsIn(outer, a) && VisitStep(w, rules, a, (d.unit, d.unitFor));
      var q := [a] + p;
      assert forall i | 0 < i < |q| :: q[i] == p[i - 1];
      assert VisitPath(w, rules, q);
    }
  }

  lemma AllTracedFrom(w: World, rules: Rules, outer: seq<UnitDep>, inner: seq<UnitDep>, dev: set<(Unit, Unit)>, before: UnitGraph, after: UnitGraph)
    requires OneStepFrom(w, rules, outer, inner) && AllTraced(w, rules, inner, dev, before, after)
    ensures AllTraced(w, rules, outer, dev, before, after)
  {
    forall u | u in after && u !in before ensures Traced(w, rules, outer, dev, u, after[u]) {
      var f: UnitFor :| LeadsFrom(w, rules, inner, (u, f)) && after[u] == rules.deps(u, f) && rules.dev(u, f) <= dev;
      LeadsOn(w, rules, outer, inner, (u, f));
    }
  }

  lemma TracedHere(w: World, rules: Rules, unit: Unit, unitFor: UnitFor, dev: set<(Unit, Unit)>)
    requires rules.dev(unit, unitFor) <= dev
    ensures Traced(w, rules, [UnitDep(unit, unitFor, None)], dev, unit, rules.deps(unit, unitFor))
  {
    var list := [UnitDep(unit, unitFor, None)];
    var p := [(unit, unitFor)];
    assert list[0] in list && StartsIn(list, p[0]);
    assert VisitPath(w, rules, p) && p[|p| - 1] == (unit, unitFor);
    assert LeadsFrom(w, rules, list, (unit, unitFor));
  }

  lemma DepsAreNext(w: World, rules: Rules, unit: Unit, unitFor: UnitFor)
    ensures OneStepFrom(w, rules, [UnitDep(unit, unitFor, None)], rules.deps(unit, unitFor))
  {
    var list := [UnitDep(unit, unitFor, None)];
    assert list[0] in list && StartsIn(list, (unit, unitFor));
  }

  lemma ScrapedAreNext(w: World, rules: Rules, unit: Unit, unitFor: UnitFor)
    requires unit.mode.Doc? && NeedsDocScrape(w, unit)
    ensures OneStepFrom(w, rules, [UnitDep(unit, unitFor, None)], WithPurpose(w, w.scrapeUnits, ForNormal))
  {
    var list, next := [UnitDep(unit, unitFor, None)], WithPurpose(w, w.scrapeUnits, ForNormal);
    assert list[0] in list && StartsIn(list, (unit, unitFor));
    forall d | d in next ensures VisitStep(w, rules, (unit, unitFor), (d.unit, d.unitFor)) {
      var i :| 0 <= i < |next| && next[i] == d;
    }
  }

  /** A visit with everything it leads to. */
  lemma TracedVisit(w: World, rules: Rules, unit: Unit, unitFor: UnitFor, dev: set<(Unit, Unit)>, dev': set<(Unit, Unit)>,
                    a: UnitGraph, before: UnitGraph, after: UnitGraph)
    requires AllTraced(w, rules, [UnitDep(unit, unitFor, None)], dev, a, before)
    requires dev <= dev' && rules.dev(unit, unitFor) <= dev' && Grown(before[unit := rules.deps(unit, unitFor)], after)
    requires AllTraced(w, rules, rules.deps(unit, unitFor), dev', before[unit := rules.deps(unit, unitFor)], after)
    ensures AllTraced(w, rules, [UnitDep(unit, unitFor, None)], dev', a, after)
  {
    var here, deps := [UnitDep(unit, unitFor, None)], rules.deps(unit, unitFor);
    TracedHere(w, rules, unit, unitFor, dev');
    DepsAreNext(w, rules, unit, unitFor);
    AllTracedFrom(w, rules, here, deps, dev', before[unit := deps], after);
    forall u | u in after && u !in a ensures Traced(w, rules, here, dev', u, after[u]) {
      if u in before[unit := deps] {
        assert after[u] == before[unit := deps][u];
        if u in before && u != unit {
          TracedLater(w, rules, here, dev, dev', u, before[u]);
        }
      }
    }
  }

  lemma OneOfList(w: World, rules: Rules, list: seq<UnitDep>, i: nat)
    requires i < |list|
    ensures OneStepFrom(w, rules, list, [UnitDep(list[i].unit, list[i].unitFor, None)])
  {
    assert list[i] in list;
  }

  // ----- Attaching the standard library -----

  predicate NeedsStd(u: Unit) {
    u.kind != Host && !u.IsRunCustomBuild()
  }

  type StdRoots = map<CompileKind, seq<Unit>>

  /** `attach_std_deps` on one unit's list. */
  function WithStd(w: World, stdRoots: StdRoots, u: Unit, deps: seq<UnitDep>): seq<UnitDep>
    requires NeedsStd(u) ==> u.kind in stdRoots
  {
    if NeedsStd(u) then deps + WithPurpose(w, stdRoots[u.kind], ForNormal) else deps
  }

  /** The roots `standard_lib::generate_std_roots` makes. */
  ghost predicate StdRootsMade(stdRoots: StdRoots) {
    forall k, i | k in stdRoots && 0 <= i < |stdRoots[k]| ::
      stdRoots[k][i].isStd && stdRoots[k][i].mode == Build && stdRoots[k][i].target.IsLib()
  }

  /** A user unit's edge to a root of the standard library. */
  predicate StdEdge(u: Unit, d: Unit) {
    !u.isStd && d.isStd && d.mode == Build && d.target.IsLib()
  }

  ghost predicate EdgesKnown(w: World, g: UnitGraph, dev: set<(Unit, Unit)>, u: Unit)
    requires u in g
  {
    forall i | 0 <= i < |g[u]| ::
      EdgeFacts(w, u, g[u][i].unit, (u, g[u][i].unit) in dev) || StdEdge(u, g[u][i].unit)
  }

  /** Every edge of the graph came from `compute_deps` or leads to the standard library. */
  ghost predicate KnownGraph(w: World, g: UnitGraph, dev: set<(Unit, Unit)>) {
    forall u | u in g :: EdgesKnown(w, g, dev, u)
  }

  /** Where some unit was given the standard library, its own graph is added. */
  ghost predicate Attached(w: World, user: UnitGraph, stdRoots: StdRoots, std: UnitGraph, g: UnitGraph)
    requires forall u | u in user && NeedsStd(u) :: u.kind in stdRoots
  {
    && (forall u | u in user :: u in g && g[u] == WithStd(w, stdRoots, u, user[u]))
    && if exists u | u in user :: NeedsStd(u)
       then g.Keys == user.Keys + std.Keys && (forall u | u in std :: g[u] == std[u])
       else g.Keys == user.Keys
  }

  /** The unit's list: what `compute_deps` gave, and behind it the standard library where it is due. */
  ghost predicate Listed(w: World, stdRoots: StdRoots, dev: set<(Unit, Unit)>, u: Unit, list: seq<UnitDep>)
    requires stdRoots != map[] && NeedsStd(u) ==> u.kind in stdRoots
  {
    exists deps :: MadeBy(RulesOf(w), dev, u, deps) && list == if stdRoots != map[] && !u.isStd then WithStd(w, stdRoots, u, deps) else deps
  }

  /** The list was computed on a visit that the roots of the standard library lead to. */
  ghost predicate StdTraced(w: World, rules: Rules, stdRoots: StdRoots, dev: set<(Unit, Unit)>, u: Unit, deps: seq<UnitDep>) {
    exists k | k in stdRoots :: Traced(w, rules, WithPurpose(w, stdRoots[k], ForRoot), dev, u, deps)
  }

  ghost predicate AllStdTraced(w: World, rules: Rules, stdRoots: StdRoots, dev: set<(Unit, Unit)>, g: UnitGraph) {
    forall u | u in g :: StdTraced(w, rules, stdRoots, dev, u, g[u])
  }

  lemma StdTracedLater(w: World, rules: Rules, stdRoots: StdRoots, dev: set<(Unit, Unit)>, dev': set<(Unit, Unit)>, g: UnitGraph)
    requires AllStdTraced(w, rules, stdRoots, dev, g) && dev <= dev'
    ensures AllStdTraced(w, rules, stdRoots, dev', g)
  {
    forall u | u in g ensures StdTraced(w, rules, stdRoots, dev', u, g[u]) {
      var k :| k in stdRoots && Traced(w, rules, WithPurpose(w, stdRoots[k], ForRoot), dev, u, g[u]);
      TracedLater(w, rules, WithPurpose(w, stdRoots[k], ForRoot), dev, dev', u, g[u]);
    }
  }

  lemma MoreStdTraced(w: World, rules: Rules, stdRoots: StdRoots, k: CompileKind, dev: set<(Unit, Unit)>, dev': set<(Unit, Unit)>, g: UnitGraph, g': UnitGraph)
    requires k in stdRoots && AllStdTraced(w, rules, stdRoots, dev, g) && dev <= dev' && Grown(g, g')
    requires AllTraced(w, rules, WithPurpose(w, stdRoots[k], ForRoot), dev', g, g')
    ensures AllStdTraced(w, rules, stdRoots, dev', g')
  {
    StdTracedLater(w, rules, stdRoots, dev, dev', g);
    forall u | u in g' ensures StdTraced(w, rules, stdRoots, dev', u, g'[u]) {
      if u !in g {
        assert Traced(w, rules, WithPurpose(w, stdRoots[k], ForRoot), dev', u, g'[u]);
      }
    }
  }

  /** How the traversals got to a unit: from the roots, or from those of the standard library. */
  ghost predicate FromVisits(w: World, roots: seq<Unit>, stdRoots: StdRoots, dev: set<(Unit, Unit)>, u: Unit, deps: seq<UnitDep>) {
    if u.isStd then StdTraced(w, RulesOf(w), stdRoots, dev, u, deps)
    else Traced(w, RulesOf(w), WithPurpose(w, roots, ForRoot), dev, u, deps)
  }

  ghost predicate TracedIn(w: World, roots: seq<Unit>, stdRoots: StdRoots, dev: set<(Unit, Unit)>, u: Unit, list: seq<UnitDep>)
    requires stdRoots != map[] && NeedsStd(u) ==> u.kind in stdRoots
  {
    exists own :: FromVisits(w, roots, stdRoots, dev, u, own) && list == if stdRoots != map[] && !u.isStd then WithStd(w, stdRoots, u, own) else own
  }

  lemma AttachedTraced(w: World, roots: seq<Unit>, user: UnitGraph, stdRoots: StdRoots, std: UnitGraph, g: UnitGraph, dev: set<(Unit, Unit)>)
    requires stdRoots != map[] && (forall u | u in g && NeedsStd(u) :: u.kind in stdRoots)
    requires forall u | u in user && NeedsStd(u) :: u.kind in stdRoots
    requires Attached(w, user, stdRoots, std, g)
    requires (forall u | u in user :: !u.isStd) && forall u | u in std :: u.isStd
    requires AllTraced(w, RulesOf(w), WithPurpose(w, roots, ForRoot), dev, map[], user) && AllStdTraced(w, RulesOf(w), stdRoots, dev, std)
    ensures forall u | u in g :: TracedIn(w, roots, stdRoots, dev, u, g[u])
  {
    forall u | u in g ensures TracedIn(w, roots, stdRoots, dev, u, g[u]) {
      if u in user {
        assert FromVisits(w, roots, stdRoots, dev, u, user[u]);
      } else {
        assert FromVisits(w, roots, stdRoots, dev, u, std[u]);
      }
    }
  }

  /** Units of the two builds are told apart by `is_std`, which is part of their identity. */
  lemma StdIsDisjoint(rules: Rules, user: UnitGraph, std: UnitGraph, dev: set<(Unit, Unit)>)
    requires BuiltFrom(rules, false, user, dev) && BuiltFrom(rules, true, std, dev)
    ensures user.Keys !! std.Keys
  {}

  lemma AttachedClosed(w: World, user: UnitGraph, stdRoots: StdRoots, std: UnitGraph, g: UnitGraph)
    requires forall u | u in user && NeedsStd(u) :: u.kind in stdRoots
    requires Attached(w, user, stdRoots, std, g) && user.Keys !! std.Keys
    requires ClosedGraph(user) && ClosedGraph(std)
    requires forall k, i | k in stdRoots && 0 <= i < |stdRoots[k]| :: stdRoots[k][i] in std
    ensures ClosedGraph(g)
  {
    forall u | u in g ensures DepsPresent(g, u) {
      if u in user {
        assert DepsPresent(user, u);
      } else {
        assert DepsPresent(std, u);
      }
    }
  }

  lemma AttachedListed(w: World, user: UnitGraph, stdRoots: StdRoots, std: UnitGraph, g: UnitGraph, dev: set<(Unit, Unit)>)
    requires stdRoots != map[] && (forall u | u in g && NeedsStd(u) :: u.kind in stdRoots)
    requires forall u | u in user && NeedsStd(u) :: u.kind in stdRoots
    requires Attached(w, user, stdRoots, std, g)
    requires BuiltFrom(RulesOf(w), false, user, dev) && BuiltFrom(RulesOf(w), true, std, dev)
    ensures forall u | u in g :: Listed(w, stdRoots, dev, u, g[u])
  {
    forall u | u in g ensures Listed(w, stdRoots, dev, u, g[u]) {
      if u in user {
        assert MadeBy(RulesOf(w), dev, u, user[u]) && !u.isStd;
      } else {
        assert MadeBy(RulesOf(w), dev, u, std[u]) && u.isStd;
      }
    }
  }

  lemma AttachedKnown(w: World, user: UnitGraph, stdRoots: StdRoots, std: UnitGraph, g: UnitGraph, dev: set<(Unit, Unit)>)
    requires WellFormedWorld(w) && (forall u | u in g :: WellFormed(u))
    requires forall u | u in user && NeedsStd(u) :: u.kind in stdRoots
    requires Attached(w, user, stdRoots, std, g) && StdRootsMade(stdRoots)
    requires BuiltFrom(RulesOf(w), false, user, dev) && BuiltFrom(RulesOf(w), true, std, dev)
    ensures KnownGraph(w, g, dev)
  {
    forall u | u in g ensures EdgesKnown(w, g, dev, u) {
      if u in user {
        MadeFacts(w, dev, u, user[u]);
        StdEdgesKnown(w, stdRoots, dev, u, user[u], g);
      } else {
        MadeFacts(w, dev, u, std[u]);
      }
    }
  }

  lemma StdEdgesKnown(w: World, stdRoots: StdRoots, dev: set<(Unit, Unit)>, u: Unit, deps: seq<UnitDep>, g: UnitGraph)
    requires u in g && !u.isStd && StdRootsMade(stdRoots) && (NeedsStd(u) ==> u.kind in stdRoots)
    requires g[u] == WithStd(w, stdRoots, u, deps)
    requires forall i | 0 <= i < |deps| :: EdgeFacts(w, u, deps[i].unit, (u, deps[i].unit) in dev)
    ensures EdgesKnown(w, g, dev, u)
  {
    forall i | 0 <= i < |g[u]| ensures EdgeFacts(w, u, g[u][i].unit, (u, g[u][i].unit) in dev) || StdEdge(u, g[u][i].unit) {
      if i >= |deps| {
        assert g[u][i].unit == stdRoots[u.kind][i - |deps|];
      }
    }
  }

  lemma BuiltIsKnown(w: World, isStd: bool, g: UnitGraph, dev: set<(Unit, Unit)>)
    requires WellFormedWorld(w) && (forall u | u in g :: WellFormed(u)) && BuiltFrom(RulesOf(w), isStd, g, dev)
    ensures KnownGraph(w, g, dev)
  {
    forall u | u in g ensures EdgesKnown(w, g, dev, u) {
      MadeFacts(w, dev, u, g[u]);
    }
  }

  class State {
    const world: World
    const rules: Rules
    ghost const all: set<Unit>
    var isStd: bool
    var unitDependencies: UnitGraph
    var devDependencyEdges: set<(Unit, Unit)>

    ghost predicate Valid()
      reads this
    {
      && (forall s | s in world.scrapeUnits :: s in all && s.mode.Docscrape? && !s.isStd)
      && StaysIn(rules, all) && DevFromUnit(rules)
      && unitDependencies.Keys <= all
      && BuiltFrom(rules, isStd, unitDependencies, devDependencyEdges) && DevFrom(rules, devDependencyEdges)
    }

    constructor (world: World, ghost all: set<Unit>)
      requires WellFormedWorld(world) && Universe(world, all)
      ensures Valid() && this.world == world && this.rules == RulesOf(world) && this.all == all
      ensures !isStd && unitDependencies == map[]
    {
      this.world := world;
      this.rules := RulesOf(world);
      this.all := all;
      isStd, unitDependencies, devDependencyEdges := false, map[], {};
      new;
      RulesStayIn(world, all);
    }

    method DepsOf(unit: Unit, unitFor: UnitFor) returns (ok: bool)
      requires Valid() && Admissible(unit)
      modifies this`unitDependencies, this`devDependencyEdges
      ensures Valid() && Grown(old(unitDependencies), unitDependencies)
      ensures old(devDependencyEdges) <= devDependencyEdges
      ensures AllTraced(world, rules, [UnitDep(unit, unitFor, None)], devDependencyEdges, old(unitDependencies), unitDependencies)
      ensures ok ==> unit in unitDependencies && AddedClosed(old(unitDependencies), unitDependencies)
      ensures NothingFails(rules) ==> ok
      decreases all - unitDependencies.Keys, if unit.mode.Doc? then 1 else 0, 0
    {
      if unit in unitDependencies {
        return true;
      }
      if rules.fails(unit, unitFor) {
        return false;
      }
      if unit.mode.Doc? && NeedsDocScrape(world, unit) {
        ok := DepsOfScraped(unit, unitFor);
        if !ok {
          return false;
        }
      }
      ghost var before, dev := unitDependencies, devDependencyEdges;
      var deps := Insert(unit, unitFor);
      GrownByInsert(all, old(unitDependencies), before, unit, deps);
      ok := DepsOfEach(deps);
      TracedVisit(world, rules, unit, unitFor, dev, devDependencyEdges, old(unitDependencies), before, unitDependencies);
      GrownTransitive(old(unitDependencies), before[unit := deps], unitDependencies);
      if ok {
        TraversalDone(old(unitDependencies), before, unit, deps, unitDependencies);
      }
    }

    /** The units scraped for a documented one are visited before it. */
    method DepsOfScraped(unit: Unit, ghost unitFor: UnitFor) returns (ok: bool)
      requires Valid() && Admissible(unit) && unit.mode.Doc? && NeedsDocScrape(world, unit)
      modifies this`unitDependencies, this`devDependencyEdges
      ensures Valid() && Grown(old(unitDependencies), unitDependencies)
      ensures old(devDependencyEdges) <= devDependencyEdges
      ensures AllTraced(world, rules, [UnitDep(unit, unitFor, None)], devDependencyEdges, old(unitDependencies), unitDependencies)
      ensures ok ==> AddedClosed(old(unitDependencies), unitDependencies)
      ensures NothingFails(rules) ==> ok
      decreases all - unitDependencies.Keys, 0, 2
    {
      var list := WithPurpose(world, world.scrapeUnits, ForNormal);
      ok := DepsOfEach(list);
      ScrapedAreNext(world, rules, unit, unitFor);
      AllTracedFrom(world, rules, [UnitDep(unit, unitFor, None)], list, devDependencyEdges, old(unitDependencies), unitDependencies);
    }

    method Insert(unit: Unit, unitFor: UnitFor) returns (deps: seq<UnitDep>)
      requires Valid() && Admissible(unit)
      modifies this`unitDependencies, this`devDependencyEdges
      ensures Valid() && deps == rules.deps(unit, unitFor) && unitDependencies == old(unitDependencies)[unit := deps]
      ensures old(devDependencyEdges) <= devDependencyEdges && rules.dev(unit, unitFor) <= devDependencyEdges
    {
      BuiltFromInsert(rules, unitDependencies, devDependencyEdges, unit, unitFor);
      deps := rules.deps(unit, unitFor);
      devDependencyEdges := devDependencyEdges + rules.dev(unit, unitFor);
      unitDependencies := unitDependencies[unit := deps];
    }

    /** Units the current traversal may meet. */
    ghost predicate Admissible(unit: Unit)
      reads this`isStd
    {
      unit in all && unit.isStd == isStd && (isStd ==> !unit.mode.Doc?)
    }

    /** Visits a list of units in order, stopping at the first failure. */
    method DepsOfEach(list: seq<UnitDep>) returns (ok: bool)
      requires Valid() && (forall i | 0 <= i < |list| :: Admissible(list[i].unit))
      modifies this`unitDependencies, this`devDependencyEdges
      ensures Valid() && Grown(old(unitDependencies), unitDependencies)
      ensures old(devDependencyEdges) <= devDependencyEdges
      ensures AllTraced(world, rules, list, devDependencyEdges, old(unitDependencies), unitDependencies)
      ensures ok ==> AddedClosed(old(unitDependencies), unitDependencies)
      ensures ok ==> forall i | 0 <= i < |list| :: list[i].unit in unitDependencies
      ensures NothingFails(rules) ==> ok
      decreases all - unitDependencies.Keys, if exists d | d in list :: d.unit.mode.Doc? then 1 else 0, 1
    {
      for i := 0 to |list|
        invariant Valid() && Grown(old(unitDependencies), unitDependencies)
        invariant old(devDependencyEdges) <= devDependencyEdges
        invariant AddedClosed(old(unitDependencies), unitDependencies)
        invariant AllTraced(world, rules, list, devDependencyEdges, old(unitDependencies), unitDependencies)
        invariant FirstPresent(list, i, unitDependencies)
      {
        ghost var mid, dev := unitDependencies, devDependencyEdges;
        assert list[i] in list;
        ok := DepsOf(list[i].unit, list[i].unitFor);
        OneOfList(world, rules, list, i);
        AllTracedFrom(world, rules, list, [UnitDep(list[i].unit, list[i].unitFor, None)], devDependencyEdges, mid, unitDependencies);
        AllTracedTrans(world, rules, list, dev, devDependencyEdges, old(unitDependencies), mid, unitDependencies);
        GrownTransitive(old(unitDependencies), mid, unitDependencies);
        if !ok {
          return false;
        }
        AddedClosedTrans(old(unitDependencies), mid, unitDependencies);
        NextPresent(list, i, mid, unitDependencies);
      }
      ok := true;
    }

    method DepsOfRoots(roots: seq<Unit>) returns (ok: bool)
      requires Valid() && (forall i | 0 <= i < |roots| :: Admissible(roots[i]))
      modifies this`unitDependencies, this`devDependencyEdges
      ensures Valid() && Grown(old(unitDependencies), unitDependencies)
      ensures old(devDependencyEdges) <= devDependencyEdges
      ensures AllTraced(world, rules, WithPurpose(world, roots, ForRoot), devDependencyEdges, old(unitDependencies), unitDependencies)
      ensures ok ==> AddedClosed(old(unitDependencies), unitDependencies)
      ensures ok ==> forall i | 0 <= i < |roots| :: roots[i] in unitDependencies
      ensures NothingFails(rules) ==> ok
    {
      var list := WithPurpose(world, roots, ForRoot);
      ok := DepsOfEach(list);
      assert forall i | 0 <= i < |roots| :: list[i].unit == roots[i];
    }

    /** The graph of the standard library on its own; the state is left empty again. */
    method CalcDepsOfStd(stdRoots: StdRoots) returns (r: Option<UnitGraph>)
      requires Valid() && unitDependencies == map[] && !isStd
      requires StdRootsMade(stdRoots) && (forall k, i | k in stdRoots && 0 <= i < |stdRoots[k]| :: stdRoots[k][i] in all)
      modifies this
      ensures r.Some? ==> Valid() && unitDependencies == map[] && !isStd
      ensures r.Some? ==> r.value.Keys <= all && ClosedGraph(r.value) && BuiltFrom(rules, true, r.value, devDependencyEdges)
      ensures r.Some? ==> AllStdTraced(world, rules, stdRoots, devDependencyEdges, r.value)
      ensures r.Some? ==> forall k, i | k in stdRoots && 0 <= i < |stdRoots[k]| :: stdRoots[k][i] in r.value
      ensures NothingFails(rules) ==> r.Some?
    {
      isStd := true;
      var kinds := stdRoots.Keys;
      while kinds != {}
        invariant Valid() && isStd && kinds <= stdRoots.Keys
        invariant ClosedGraph(unitDependencies)
        invariant AllStdTraced(world, rules, stdRoots, devDependencyEdges, unitDependencies)
        invariant forall k, i | k in stdRoots && k !in kinds && 0 <= i < |stdRoots[k]| :: stdRoots[k][i] in unitDependencies
      {
        var k :| k in kinds;
        ghost var before, dev := unitDependencies, devDependencyEdges;
        var ok := DepsOfRoots(stdRoots[k]);
        MoreStdTraced(world, rules, stdRoots, k, dev, devDependencyEdges, before, unitDependencies);
        if !ok {
          return None;
        }
        kinds := kinds - {k};
      }
      r := Some(unitDependencies);
      isStd := false;
      unitDependencies := map[];
    }

    /** First loop of `attach_std_deps`: every target unit depends on the standard library. */
    method ExtendWithStdRoots(stdRoots: StdRoots) returns (found: bool)
      requires forall u | u in unitDependencies && NeedsStd(u) :: u.kind in stdRoots
      modifies this`unitDependencies
      ensures unitDependencies.Keys == old(unitDependencies).Keys
      ensures forall u | u in unitDependencies :: unitDependencies[u] == WithStd(world, stdRoots, u, old(unitDependencies)[u])
      ensures found <==> exists u | u in unitDependencies :: NeedsStd(u)
    {
      ghost var user := unitDependencies;
      found := false;
      var rest := unitDependencies.Keys;
      while rest != {}
        invariant rest <= user.Keys == unitDependencies.Keys
        invariant forall u | u in rest :: unitDependencies[u] == user[u]
        invariant forall u | u in user && u !in rest :: unitDependencies[u] == WithStd(world, stdRoots, u, user[u])
        invariant found <==> exists u | u in user && u !in rest :: NeedsStd(u)
      {
        var u :| u in rest;
        if NeedsStd(u) {
          unitDependencies := unitDependencies[u := unitDependencies[u] + WithPurpose(world, stdRoots[u.kind], ForNormal)];
          found := true;
        }
        rest := rest - {u};
      }
    }

    /** Second loop of `attach_std_deps`; `collided` tells whether the panic was reached. */
    method InsertStdUnits(std: UnitGraph) returns (collided: bool)
      modifies this`unitDependencies
      ensures unitDependencies == old(unitDependencies) + std
      ensures collided <==> old(unitDependencies).Keys * std.Keys != {}
    {
      ghost var user := unitDependencies;
      collided := false;
      var units := std.Keys;
      while units != {}
        invariant units <= std.Keys
        invariant unitDependencies.Keys == user.Keys + (std.Keys - units)
        invariant forall u | u in unitDependencies :: unitDependencies[u] == if u in std && u !in units then std[u] else user[u]
        invariant collided <==> user.Keys * (std.Keys - units) != {}
      {
        var u :| u in units;
        collided := collided || u in unitDependencies;
        assert std.Keys - (units - {u}) == std.Keys - units + {u};
        unitDependencies := unitDependencies[u := std[u]];
        units := units - {u};
      }
      assert unitDependencies == user + std;
    }

    /** The panic on a collision is never reached. */
    method AttachStdDeps(stdRoots: StdRoots, std: UnitGraph) returns (collided: bool)
      requires Valid() && !isStd && BuiltFrom(rules, true, std, devDependencyEdges)
      requires forall u | u in unitDependencies && NeedsStd(u) :: u.kind in stdRoots
      modifies this`unitDependencies
      ensures !collided
      ensures Attached(world, old(unitDependencies), stdRoots, std, unitDependencies)
    {
      StdIsDisjoint(rules, unitDependencies, std, devDependencyEdges);
      var found := ExtendWithStdRoots(stdRoots);
      collided := false;
      if found {
        collided := InsertStdUnits(std);
      }
    }
  }
}
