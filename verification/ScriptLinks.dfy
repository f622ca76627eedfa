/** `connect_run_custom_build_deps` (`src/compiler/unit_dependencies.rs`): a build-script run
    waits for the script runs of the `links` packages its own package depends on. The finished
    unit graph is closed, and acyclic whenever the packages' non-dev order is. */
module ScriptLinks {
  import opened Units
  import opened Graphs
  import opened UnitDependencies
  import opened UnitGraphs
  import UnitLists
  import Sorting

  /** `other` is a sibling of the script run `run` below `parent` that the filters keep. */
  predicate SiblingKept(g: UnitGraph, dev: set<(Unit, Unit)>, anyMetadata: bool, run: Unit, parent: Unit, other: UnitDep)
    requires parent in g
  {
    && (exists d | d in g[parent] :: d.unit == run)
    && other in g[parent]
    && other.unit.pkg.id != run.pkg.id
    && (anyMetadata || (other.unit.target.IsLinkable() && other.unit.pkg.links.Some?))
    && !other.unit.mode.Docscrape?
    && (parent, other.unit) !in dev
  }

  function FirstScriptRun(deps: seq<UnitDep>): (r: Option<UnitDep>)
    ensures r.Some? ==> r.value in deps && r.value.unit.IsRunCustomBuild()
    ensures r.None? ==> forall d | d in deps :: !d.unit.IsRunCustomBuild()
  {
    if deps == [] then None
    else if deps[0].unit.IsRunCustomBuild() then Some(deps[0])
    else FirstScriptRun(deps[1..])
  }

  function Relabelled(run: UnitDep, other: UnitDep): UnitDep {
    run.(depName := if other.depName.Some? then other.depName else Some(other.unit.pkg.name))
  }

  /** The dependencies to add to the script run `run`. */
  function ScriptDeps(g: UnitGraph, dev: set<(Unit, Unit)>, anyMetadata: bool, run: Unit): set<UnitDep>
    requires ClosedGraph(g)
  {
    set p, i | p in g && 0 <= i < |g[p]| && SiblingKept(g, dev, anyMetadata, run, p, g[p][i])
               && FirstScriptRun(g[g[p][i].unit]).Some?
      :: Relabelled(FirstScriptRun(g[g[p][i].unit]).value, g[p][i])
  }

  /** `extended` is `deps` followed by the members of `added` in some order. */
  ghost predicate ExtendedBy(deps: seq<UnitDep>, added: set<UnitDep>, extended: seq<UnitDep>) {
    && |extended| == |deps| + |added|
    && extended[..|deps|] == deps
    && forall d :: d in extended[|deps|..] <==> d in added
  }

  ghost predicate Connected(g: UnitGraph, dev: set<(Unit, Unit)>, anyMetadata: bool, g': UnitGraph)
    requires ClosedGraph(g)
  {
    && g'.Keys == g.Keys
    && forall u | u in g ::
         ExtendedBy(g[u], if u.IsRunCustomBuild() then ScriptDeps(g, dev, anyMetadata, u) else {}, g'[u])
  }

  // ----- Which script runs are waited for -----

  /** The first script run of a list. */
  ghost predicate FirstRunOf(deps: seq<UnitDep>, s: UnitDep) {
    exists i | 0 <= i < |deps| ::
      deps[i] == s && s.unit.mode == RunCustomBuild && forall j | 0 <= j < i :: deps[j].unit.mode != RunCustomBuild
  }

  /** Some unit `p` depends on the script run `run` and, other than as a dev-dependency, on `other`, which
      belongs to another package and is a library of a package that links a native library, or
      anything at all if metadata comes from any script; `s` is the first script run of `other`. */
  ghost predicate WaitsThrough(g: UnitGraph, dev: set<(Unit, Unit)>, anyMetadata: bool, run: Unit, p: Unit, other: UnitDep, s: UnitDep) {
    && p in g && (exists d | d in g[p] :: d.unit == run) && other in g[p] && (p, other.unit) !in dev
    && other.unit.pkg.id != run.pkg.id && other.unit.mode != Docscrape
    && (anyMetadata || (UnitLists.CanBeLinked(other.unit.target) && other.unit.pkg.links != None))
    && other.unit in g && FirstRunOf(g[other.unit], s)
  }

  /** The new dependency is the script run under the name the sibling has in the manifest, or its package's. */
  ghost predicate WaitsFor(g: UnitGraph, dev: set<(Unit, Unit)>, anyMetadata: bool, run: Unit, x: UnitDep) {
    exists p, other, s :: WaitsThrough(g, dev, anyMetadata, run, p, other, s) && NamedAfter(x, s, other)
  }

  predicate NamedAfter(x: UnitDep, s: UnitDep, other: UnitDep) {
    && x.unit == s.unit && x.unitFor == s.unitFor
    && x.depName == Some(if other.depName.Some? then other.depName.value else other.unit.pkg.name)
  }

  /** Script runs get exactly those dependencies, each once, behind what they had; nothing else changes. */
  ghost predicate ScriptsLinked(g: UnitGraph, dev: set<(Unit, Unit)>, anyMetadata: bool, g': UnitGraph) {
    && g'.Keys == g.Keys
    && (forall u | u in g && u.mode != RunCustomBuild :: g'[u] == g[u])
    && forall u | u in g && u.mode == RunCustomBuild :: NewlyWaitsFor(g, dev, anyMetadata, u, g'[u])
  }

  ghost predicate NewlyWaitsFor(g: UnitGraph, dev: set<(Unit, Unit)>, anyMetadata: bool, u: Unit, deps: seq<UnitDep>)
    requires u in g
  {
    && g[u] <= deps && Sorting.NoRepeats(deps[|g[u]|..])
    && forall x :: x in deps[|g[u]|..] <==> WaitsFor(g, dev, anyMetadata, u, x)
  }

  lemma {:induction false} FirstRunExactly(deps: seq<UnitDep>, s: UnitDep)
    ensures FirstScriptRun(deps) == Some(s) <==> FirstRunOf(deps, s)
  {
    if deps != [] {
      FirstRunExactly(deps[1..], s);
      FirstRunStep(deps, s);
    }
  }

  lemma FirstRunStep(deps: seq<UnitDep>, s: UnitDep)
    requires deps != []
    ensures FirstRunOf(deps, s) <==> if deps[0].unit.mode == RunCustomBuild then s == deps[0] else FirstRunOf(deps[1..], s)
  {
    var rest := deps[1..];
    if deps[0].unit.mode == RunCustomBuild {
      assert FirstRunOf(deps, deps[0]);
    } else {
      if i :| 0 <= i < |deps| && deps[i] == s && s.unit.mode == RunCustomBuild && forall j | 0 <= j < i :: deps[j].unit.mode != RunCustomBuild {
        assert rest[i - 1] == s && forall j | 0 <= j < i - 1 :: rest[j] == deps[j + 1];
      }
      if i :| 0 <= i < |rest| && rest[i] == s && s.unit.mode == RunCustomBuild && forall j | 0 <= j < i :: rest[j].unit.mode != RunCustomBuild {
        assert deps[i + 1] == s && forall j | 0 < j < i + 1 :: deps[j] == rest[j - 1];
      }
    }
  }

  lemma KeptIsWaitsThrough(g: UnitGraph, dev: set<(Unit, Unit)>, anyMetadata: bool, run: Unit, p: Unit, other: UnitDep, s: UnitDep)
    requires ClosedGraph(g)
    ensures WaitsThrough(g, dev, anyMetadata, run, p, other, s) <==>
      p in g && SiblingKept(g, dev, anyMetadata, run, p, other) && other.unit in g && FirstScriptRun(g[other.unit]) == Some(s)
  {
    UnitLists.LinkableIsCanBeLinked(other.unit.target);
    if other.unit in g {
      FirstRunExactly(g[other.unit], s);
    }
  }

  lemma ScriptDepsExactly(g: UnitGraph, dev: set<(Unit, Unit)>, anyMetadata: bool, run: Unit, x: UnitDep)
    requires ClosedGraph(g)
    ensures x in ScriptDeps(g, dev, anyMetadata, run) <==> WaitsFor(g, dev, anyMetadata, run, x)
  {
    if x in ScriptDeps(g, dev, anyMetadata, run) {
      var p, i :| p in g && 0 <= i < |g[p]| && SiblingKept(g, dev, anyMetadata, run, p, g[p][i])
                  && FirstScriptRun(g[g[p][i].unit]).Some? && x == Relabelled(FirstScriptRun(g[g[p][i].unit]).value, g[p][i]);
      assert DepsPresent(g, p);
      KeptIsWaitsThrough(g, dev, anyMetadata, run, p, g[p][i], FirstScriptRun(g[g[p][i].unit]).value);
    }
    if p, other, s :| WaitsThrough(g, dev, anyMetadata, run, p, other, s) && NamedAfter(x, s, other) {
      KeptIsWaitsThrough(g, dev, anyMetadata, run, p, other, s);
      var i :| 0 <= i < |g[p]| && g[p][i] == other;
      assert x == Relabelled(s, g[p][i]);
    }
  }

  lemma {:induction false} NoneTwice(list: seq<UnitDep>, s: set<UnitDep>)
    requires |list| == |s| && forall d :: d in list <==> d in s
    ensures Sorting.NoRepeats(list)
  {
    if list != [] {
      var init, last := list[..|list| - 1], list[|list| - 1];
      var rest := set d | d in init;
      assert list == init + [last];
      SetOfList(init);
      assert s == rest + {last};
      assert last in rest ==> rest + {last} == rest;
      NoneTwice(init, rest);
    }
  }

  lemma {:induction false} SetOfList(list: seq<UnitDep>)
    ensures |set d | d in list| <= |list|
  {
    if list != [] {
      var init, last := list[..|list| - 1], list[|list| - 1];
      SetOfList(init);
      assert (set d | d in list) == (set d | d in init) + {last};
    }
  }

  lemma ConnectedIsLinked(g: UnitGraph, dev: set<(Unit, Unit)>, anyMetadata: bool, g': UnitGraph)
    requires ClosedGraph(g) && Connected(g, dev, anyMetadata, g')
    ensures ScriptsLinked(g, dev, anyMetadata, g')
  {
    forall u | u in g ensures if u.mode == RunCustomBuild then NewlyWaitsFor(g, dev, anyMetadata, u, g'[u]) else g'[u] == g[u] {
      var added := if u.IsRunCustomBuild() then ScriptDeps(g, dev, anyMetadata, u) else {};
      assert g'[u] == g[u] + g'[u][|g[u]|..];
      if u.mode == RunCustomBuild {
        NoneTwice(g'[u][|g[u]|..], added);
        forall x ensures x in added <==> WaitsFor(g, dev, anyMetadata, u, x) {
          ScriptDepsExactly(g, dev, anyMetadata, u, x);
        }
      }
    }
  }

  method Enumerate(s: set<UnitDep>) returns (r: seq<UnitDep>)
    ensures |r| == |s| && forall d :: d in r <==> d in s
  {
    r := [];
    var rest := s;
    while rest != {}
      invariant rest <= s && |r| + |rest| == |s|
      invariant forall d :: d in r <==> d in s && d !in rest
    {
      var d :| d in rest;
      r := r + [d];
      rest := rest - {d};
    }
  }

  lemma ExtendedByList(deps: seq<UnitDep>, added: set<UnitDep>, toAdd: seq<UnitDep>)
    requires |toAdd| == |added| && forall d :: d in toAdd <==> d in added
    ensures ExtendedBy(deps, added, deps + toAdd)
  {
    assert (deps + toAdd)[|deps|..] == toAdd;
  }

  /** All additions are computed from the graph as it was before any of them is made. */
  method ConnectRunCustomBuildDeps(g: UnitGraph, dev: set<(Unit, Unit)>, anyMetadata: bool) returns (g': UnitGraph)
    requires ClosedGraph(g)
    ensures Connected(g, dev, anyMetadata, g') && ScriptsLinked(g, dev, anyMetadata, g')
  {
    g' := AddScriptDeps(g, dev, anyMetadata);
    ConnectedIsLinked(g, dev, anyMetadata, g');
  }

  method AddScriptDeps(g: UnitGraph, dev: set<(Unit, Unit)>, anyMetadata: bool) returns (g': UnitGraph)
    requires ClosedGraph(g)
    ensures Connected(g, dev, anyMetadata, g')
  {
    g' := g;
    var runs := set u | u in g && u.IsRunCustomBuild();
    while runs != {}
      invariant runs <= g.Keys == g'.Keys && (forall u | u in runs :: u.IsRunCustomBuild())
      invariant forall u | u in g && (u in runs || !u.IsRunCustomBuild()) :: g'[u] == g[u]
      invariant forall u | u in g && u !in runs ::
        ExtendedBy(g[u], if u.IsRunCustomBuild() then ScriptDeps(g, dev, anyMetadata, u) else {}, g'[u])
    {
      var u :| u in runs;
      var toAdd := Enumerate(ScriptDeps(g, dev, anyMetadata, u));
      ExtendedByList(g[u], ScriptDeps(g, dev, anyMetadata, u), toAdd);
      g' := g'[u := g'[u] + toAdd];
      runs := runs - {u};
    }
  }

  // ----- The finished graph -----

  /** Where a member of `ScriptDeps` comes from. */
  lemma ScriptDepOrigin(g: UnitGraph, dev: set<(Unit, Unit)>, anyMetadata: bool, u: Unit, x: UnitDep)
      returns (p: Unit, other: UnitDep)
    requires ClosedGraph(g) && x in ScriptDeps(g, dev, anyMetadata, u)
    ensures p in g && SiblingKept(g, dev, anyMetadata, u, p, other) && other.unit in g
    ensures FirstScriptRun(g[other.unit]).Some? && x.unit == FirstScriptRun(g[other.unit]).value.unit
    ensures x.unit.IsRunCustomBuild() && exists d | d in g[other.unit] :: d.unit == x.unit
  {
    var q, k :| q in g && 0 <= k < |g[q]| && SiblingKept(g, dev, anyMetadata, u, q, g[q][k])
                && FirstScriptRun(g[g[q][k].unit]).Some?
                && x == Relabelled(FirstScriptRun(g[g[q][k].unit]).value, g[q][k]);
    p, other := q, g[q][k];
  }

  /** A new edge leads from one script run of the graph to another. */
  lemma AddedEdge(g: UnitGraph, dev: set<(Unit, Unit)>, anyMetadata: bool, g': UnitGraph, u: Unit, i: nat)
    requires ClosedGraph(g) && Connected(g, dev, anyMetadata, g') && u in g && |g[u]| <= i < |g'[u]|
    ensures u.IsRunCustomBuild() && g'[u][i] in ScriptDeps(g, dev, anyMetadata, u)
  {
    assert g'[u][i] == g'[u][|g[u]|..][i - |g[u]|];
    assert g'[u][i] in g'[u][|g[u]|..];
  }

  lemma ConnectedIsClosed(g: UnitGraph, dev: set<(Unit, Unit)>, anyMetadata: bool, g': UnitGraph)
    requires ClosedGraph(g) && Connected(g, dev, anyMetadata, g')
    ensures ClosedGraph(g')
  {
    forall u, i | u in g' && 0 <= i < |g'[u]| ensures g'[u][i].unit in g' {
      assert DepsPresent(g, u);
      if i < |g[u]| {
        assert g'[u][i] == g'[u][..|g[u]|][i];
      } else {
        AddedEdge(g, dev, anyMetadata, g', u, i);
        var p, other := ScriptDepOrigin(g, dev, anyMetadata, u, g'[u][i]);
        assert DepsPresent(g, other.unit);
      }
    }
  }

  /** The non-dev dependencies of each resolve go down in `order`. */
  ghost predicate PackageOrder(w: World, order: (bool, PackageId) -> nat) {
    forall isStd: bool, p, q | NonDev(w, isStd, p, q) :: order(isStd, q) < order(isStd, p)
  }

  /** `d` is a non-dev dependency of `u`'s package, or belongs to the standard library. */
  ghost predicate FollowsNormal(w: World, u: Unit, d: Unit) {
    if d.isStd == u.isStd then NonDev(w, u.isStd, u.pkg.id, d.pkg.id) else d.isStd
  }

  /** A documented test or example whose package runs a script has a `links` dependency that
      runs one too and that is a dev-dependency only. */
  ghost predicate DevDocumented(w: World, g: UnitGraph, dev: set<(Unit, Unit)>, run: Unit, p: Unit, other: UnitDep) {
    && p in g && UnrecordedDevParent(p)
    && run in g && run.IsRunCustomBuild() && SiblingKept(g, dev, false, run, p, other)
    && other.unit in g && FirstScriptRun(g[other.unit]).Some?
    && !FollowsNormal(w, p, other.unit)
  }

  ghost predicate NoDevDocumented(w: World, g: UnitGraph, dev: set<(Unit, Unit)>) {
    forall run, p, other :: !DevDocumented(w, g, dev, run, p, other)
  }

  /** What an edge of the finished graph goes down in: tier, user before std, package, layer. */
  ghost predicate GoesDown(order: (bool, PackageId) -> nat, u: Unit, d: Unit) {
    || Tier(d) < Tier(u)
    || (Tier(d) == Tier(u) && d.isStd && !u.isStd)
    || (Tier(d) == Tier(u) && d.isStd == u.isStd && order(d.isStd, d.pkg.id) < order(u.isStd, u.pkg.id))
    || (Tier(d) == Tier(u) && d.isStd == u.isStd && d.pkg.id == u.pkg.id && Layer(d) < Layer(u))
  }

  lemma ScriptDepIsNormal(w: World, g: UnitGraph, dev: set<(Unit, Unit)>, run: Unit, x: UnitDep)
    requires ClosedGraph(g) && KnownGraph(w, g, dev) && NoDevDocumented(w, g, dev)
    requires run in g && run.IsRunCustomBuild() && x in ScriptDeps(g, dev, false, run)
    ensures FollowsNormal(w, run, x.unit)
  {
    var p, other := ScriptDepOrigin(g, dev, false, run, x);
    SiblingFacts(w, g, dev, false, run, p, other, x.unit);
    assert !DevDocumented(w, g, dev, run, p, other);
    var d :| d in g[other.unit] && d.unit == x.unit;
    assert FirstScriptRun(g[other.unit]).Some?;
  }

  /** Script runs belong to the packages of the sibling units they were reached through. */
  lemma SiblingFacts(w: World, g: UnitGraph, dev: set<(Unit, Unit)>, anyMetadata: bool, run: Unit, p: Unit, other: UnitDep, x: Unit)
    requires KnownGraph(w, g, dev) && run.IsRunCustomBuild() && x.IsRunCustomBuild()
    requires p in g && other.unit in g && SiblingKept(g, dev, anyMetadata, run, p, other)
    requires exists d | d in g[other.unit] :: d.unit == x
    ensures run.pkg == p.pkg && run.isStd == p.isStd && x.pkg == other.unit.pkg && x.isStd == other.unit.isStd
    ensures !anyMetadata ==> FollowsNormal(w, p, other.unit) || UnrecordedDevParent(p)
  {
    assert EdgesKnown(w, g, dev, p) && EdgesKnown(w, g, dev, other.unit);
    var r :| r in g[p] && r.unit == run;
    var d :| d in g[other.unit] && d.unit == x;
    assert EdgeFacts(w, p, run, (p, run) in dev);
    assert EdgeFacts(w, other.unit, x, (other.unit, x) in dev);
    assert EdgeFacts(w, p, other.unit, (p, other.unit) in dev) || StdEdge(p, other.unit);
  }

  /** Script runs are linked through normal dependencies only, exactly when no dev-only `links`
      dependency is reached by documenting a test or an example. */
  lemma LinksAreNormal(w: World, g: UnitGraph, dev: set<(Unit, Unit)>)
    requires ClosedGraph(g) && KnownGraph(w, g, dev)
    ensures (forall run, x | run in g && run.IsRunCustomBuild() && x in ScriptDeps(g, dev, false, run) :: FollowsNormal(w, run, x.unit))
       <==> NoDevDocumented(w, g, dev)
  {
    if NoDevDocumented(w, g, dev) {
      forall run, x | run in g && run.IsRunCustomBuild() && x in ScriptDeps(g, dev, false, run) ensures FollowsNormal(w, run, x.unit) {
        ScriptDepIsNormal(w, g, dev, run, x);
      }
    } else {
      var run, p, other :| DevDocumented(w, g, dev, run, p, other);
      var i :| 0 <= i < |g[p]| && g[p][i] == other;
      var x := Relabelled(FirstScriptRun(g[other.unit]).value, other);
      assert x in ScriptDeps(g, dev, false, run);
      SiblingFacts(w, g, dev, false, run, p, other, x.unit);
      assert !FollowsNormal(w, run, x.unit);
    }
  }

  lemma NormalScriptGoesDown(w: World, order: (bool, PackageId) -> nat, u: Unit, d: Unit)
    requires PackageOrder(w, order) && FollowsNormal(w, u, d)
    requires u.IsRunCustomBuild() && d.IsRunCustomBuild() && WellFormed(u) && WellFormed(d)
    ensures GoesDown(order, u, d)
  {}

  lemma KnownEdgeGoesDown(w: World, order: (bool, PackageId) -> nat, u: Unit, d: Unit, recorded: bool)
    requires PackageOrder(w, order) && (EdgeFacts(w, u, d, recorded) || StdEdge(u, d))
    ensures GoesDown(order, u, d)
  {}

  /** A lexicographic pair packed into one number. */
  function Pack(a: nat, b: nat, k: nat): nat { a * k + b }

  lemma PackLess(a: nat, b: nat, a': nat, b': nat, k: nat)
    requires b < k && b' < k && (a < a' || (a == a' && b < b'))
    ensures Pack(a, b, k) < Pack(a', b', k)
  {
    if a < a' {
      MulGap(a, a', k);
    }
  }

  lemma {:induction false} MulGap(a: nat, a': nat, k: nat)
    requires a < a'
    ensures a * k + k <= a' * k
  {
    if a + 1 < a' {
      MulGap(a, a' - 1, k);
    }
  }

  function RankOf(order: (bool, PackageId) -> nat, k: nat, u: Unit): nat {
    Pack(Pack(Tier(u), if u.isStd then 0 else 1, 2), Pack(order(u.isStd, u.pkg.id), Layer(u), 4), k)
  }

  lemma GoesDownInRank(order: (bool, PackageId) -> nat, k: nat, u: Unit, d: Unit)
    requires GoesDown(order, u, d)
    requires Pack(order(u.isStd, u.pkg.id), Layer(u), 4) < k && Pack(order(d.isStd, d.pkg.id), Layer(d), 4) < k
    ensures RankOf(order, k, d) < RankOf(order, k, u)
  {
    PackLess(Pack(Tier(d), if d.isStd then 0 else 1, 2), Pack(order(d.isStd, d.pkg.id), Layer(d), 4),
             Pack(Tier(u), if u.isStd then 0 else 1, 2), Pack(order(u.isStd, u.pkg.id), Layer(u), 4), k);
  }

  /** A rank in which every step down in the order goes down. */
  lemma RankForOrder(order: (bool, PackageId) -> nat, g: UnitGraph) returns (rank: map<Unit, nat>)
    ensures rank.Keys == g.Keys
    ensures forall u, d | u in g && d in g && GoesDown(order, u, d) :: rank[d] < rank[u]
  {
    var low := map u | u in g :: Pack(order(u.isStd, u.pkg.id), Layer(u), 4);
    var top := RankIsBounded(g.Keys, low);
    rank := map u | u in g :: RankOf(order, top + 1, u);
    forall u, d | u in g && d in g && GoesDown(order, u, d) ensures rank[d] < rank[u] {
      GoesDownInRank(order, top + 1, u, d);
    }
  }

  // ----- Exactly when the finished graph is acyclic -----

  /** A script run waits for one whose package its own does not depend on. */
  ghost predicate OddLink(w: World, g: UnitGraph, dev: set<(Unit, Unit)>, anyMetadata: bool, run: Unit, p: Unit, other: UnitDep) {
    && p in g && run in g && run.IsRunCustomBuild() && SiblingKept(g, dev, anyMetadata, run, p, other)
    && other.unit in g && FirstScriptRun(g[other.unit]).Some?
    && !FollowsNormal(w, p, other.unit)
  }

  /** The edges such links make. */
  ghost function OddEdges(w: World, g: UnitGraph, dev: set<(Unit, Unit)>, anyMetadata: bool): iset<(Unit, Unit)> {
    iset run, p, other | OddLink(w, g, dev, anyMetadata, run, p, other) :: (run, FirstScriptRun(g[other.unit]).value.unit)
  }

  /** A dependency of the graph, or one that is to be added to a script run. */
  ghost predicate LinkStep(g: UnitGraph, dev: set<(Unit, Unit)>, anyMetadata: bool, u: Unit, d: Unit)
    requires ClosedGraph(g)
  {
    && u in g
    && (|| (exists x | x in g[u] :: x.unit == d)
        || (u.IsRunCustomBuild() && exists x | x in ScriptDeps(g, dev, anyMetadata, u) :: x.unit == d))
  }

  ghost predicate LinkWalk(g: UnitGraph, dev: set<(Unit, Unit)>, anyMetadata: bool, p: seq<Unit>, u: Unit, v: Unit)
    requires ClosedGraph(g)
  {
    && p != [] && p[0] == u && p[|p| - 1] == v
    && forall i | 0 <= i < |p| - 1 :: LinkStep(g, dev, anyMetadata, p[i], p[i + 1])
  }

  ghost predicate LeadsTo(g: UnitGraph, dev: set<(Unit, Unit)>, anyMetadata: bool, u: Unit, v: Unit)
    requires ClosedGraph(g)
  {
    exists p :: LinkWalk(g, dev, anyMetadata, p, u, v)
  }

  /** In the graph before linking: the script that is waited for leads back to the one that waits. */
  ghost predicate WaitsForItself(w: World, g: UnitGraph, dev: set<(Unit, Unit)>, anyMetadata: bool)
    requires ClosedGraph(g)
  {
    exists run, p, other ::
      OddLink(w, g, dev, anyMetadata, run, p, other) && LeadsTo(g, dev, anyMetadata, FirstScriptRun(g[other.unit]).value.unit, run)
  }

  /** Linking makes edges of exactly those steps. */
  lemma EdgeIsLinkStep(g: UnitGraph, dev: set<(Unit, Unit)>, anyMetadata: bool, g': UnitGraph, u: Unit, d: Unit)
    requires ClosedGraph(g) && Connected(g, dev, anyMetadata, g')
    ensures Edge(EdgesOf(g'), u, d) <==> LinkStep(g, dev, anyMetadata, u, d)
  {
    if u in g {
      var own, added := g[u], if u.IsRunCustomBuild() then ScriptDeps(g, dev, anyMetadata, u) else {};
      EdgeOfExtended(g', u, own, added, d);
    }
  }

  lemma EdgeOfExtended(g': UnitGraph, u: Unit, own: seq<UnitDep>, added: set<UnitDep>, d: Unit)
    requires u in g' && ExtendedBy(own, added, g'[u])
    ensures Edge(EdgesOf(g'), u, d) <==> (exists x | x in own :: x.unit == d) || exists x | x in added :: x.unit == d
  {
    var deps, e := g'[u], EdgesOf(g')[u];
    assert deps == own + deps[|own|..];
    assert forall x :: x in deps <==> x in own || x in added;
    assert forall i | 0 <= i < |deps| :: e[i] == deps[i].unit && deps[i] in deps;
    forall x | x in deps ensures x.unit in e {
      var i :| 0 <= i < |deps| && deps[i] == x;
      assert e[i] == x.unit;
    }
  }

  lemma ReachesIsLeadsTo(g: UnitGraph, dev: set<(Unit, Unit)>, anyMetadata: bool, g': UnitGraph, u: Unit, v: Unit)
    requires ClosedGraph(g) && Connected(g, dev, anyMetadata, g')
    ensures Reaches(EdgesOf(g'), u, v) <==> LeadsTo(g, dev, anyMetadata, u, v)
  {
    forall x, y ensures Edge(EdgesOf(g'), x, y) <==> LinkStep(g, dev, anyMetadata, x, y) {
      EdgeIsLinkStep(g, dev, anyMetadata, g', x, y);
    }
    forall p ensures PathBetween(EdgesOf(g'), p, u, v) <==> LinkWalk(g, dev, anyMetadata, p, u, v) {
    }
  }

  /** With the sibling filters in force, odd links come from documented tests and examples only. */
  lemma OddIsDevDocumented(w: World, g: UnitGraph, dev: set<(Unit, Unit)>, run: Unit, p: Unit, other: UnitDep)
    requires KnownGraph(w, g, dev) && OddLink(w, g, dev, false, run, p, other)
    ensures DevDocumented(w, g, dev, run, p, other)
  {
    var x := FirstScriptRun(g[other.unit]).value;
    SiblingFacts(w, g, dev, false, run, p, other, x.unit);
  }

  lemma OddEdgeIsEdge(w: World, g: UnitGraph, dev: set<(Unit, Unit)>, anyMetadata: bool, g': UnitGraph, run: Unit, p: Unit, other: UnitDep)
    requires ClosedGraph(g) && Connected(g, dev, anyMetadata, g') && OddLink(w, g, dev, anyMetadata, run, p, other)
    ensures Edge(EdgesOf(g'), run, FirstScriptRun(g[other.unit]).value.unit)
  {
    var i :| 0 <= i < |g[p]| && g[p][i] == other;
    var x := Relabelled(FirstScriptRun(g[other.unit]).value, other);
    assert x in ScriptDeps(g, dev, anyMetadata, run);
    assert x in g'[run][|g[run]|..];
    var k :| 0 <= k < |g'[run]| && g'[run][k] == x;
    assert EdgesOf(g')[run][k] == x.unit;
  }

  /** An edge of the finished graph goes down, or is odd. */
  lemma EdgeGoesDownOrIsOdd(w: World, order: (bool, PackageId) -> nat, g: UnitGraph, dev: set<(Unit, Unit)>, anyMetadata: bool, g': UnitGraph,
                            u: Unit, i: nat)
    requires PackageOrder(w, order) && KnownGraph(w, g, dev) && ClosedGraph(g) && Connected(g, dev, anyMetadata, g')
    requires (forall x | x in g :: WellFormed(x)) && u in g' && i < |g'[u]|
    ensures GoesDown(order, u, g'[u][i].unit) || (u, g'[u][i].unit) in OddEdges(w, g, dev, anyMetadata)
  {
    var x := g'[u][i];
    if i < |g[u]| {
      assert x == g'[u][..|g[u]|][i];
      assert EdgesKnown(w, g, dev, u);
      KnownEdgeGoesDown(w, order, u, x.unit, (u, x.unit) in dev);
    } else {
      AddedEdge(g, dev, anyMetadata, g', u, i);
      AddedGoesDownOrIsOdd(w, order, g, dev, anyMetadata, u, x);
    }
  }

  lemma AddedGoesDownOrIsOdd(w: World, order: (bool, PackageId) -> nat, g: UnitGraph, dev: set<(Unit, Unit)>, anyMetadata: bool, run: Unit, x: UnitDep)
    requires PackageOrder(w, order) && KnownGraph(w, g, dev) && ClosedGraph(g) && (forall u | u in g :: WellFormed(u))
    requires run in g && run.IsRunCustomBuild() && x in ScriptDeps(g, dev, anyMetadata, run)
    ensures GoesDown(order, run, x.unit) || (run, x.unit) in OddEdges(w, g, dev, anyMetadata)
  {
    var p, other := ScriptDepOrigin(g, dev, anyMetadata, run, x);
    SiblingFacts(w, g, dev, anyMetadata, run, p, other, x.unit);
    assert DepsPresent(g, other.unit);
    if FollowsNormal(w, p, other.unit) {
      NormalScriptGoesDown(w, order, run, x.unit);
    } else {
      assert OddLink(w, g, dev, anyMetadata, run, p, other);
      assert (run, FirstScriptRun(g[other.unit]).value.unit) in OddEdges(w, g, dev, anyMetadata);
    }
  }

  lemma RankUpToOdd(w: World, order: (bool, PackageId) -> nat, g: UnitGraph, dev: set<(Unit, Unit)>, anyMetadata: bool, g': UnitGraph)
      returns (rank: map<Unit, nat>)
    requires PackageOrder(w, order) && KnownGraph(w, g, dev)
    requires ClosedGraph(g) && Connected(g, dev, anyMetadata, g') && (forall u | u in g :: WellFormed(u))
    ensures Closed(EdgesOf(g')) && rank.Keys == g'.Keys
    ensures forall u, d | Edge(EdgesOf(g'), u, d) && (u, d) !in OddEdges(w, g, dev, anyMetadata) :: rank[d] < rank[u]
  {
    ConnectedIsClosed(g, dev, anyMetadata, g');
    ClosedGraphIsClosed(g');
    rank := RankForOrder(order, g');
    var e := EdgesOf(g');
    forall u, d | Edge(e, u, d) && (u, d) !in OddEdges(w, g, dev, anyMetadata) ensures rank[d] < rank[u] {
      var i :| 0 <= i < |e[u]| && e[u][i] == d;
      EdgeGoesDownOrIsOdd(w, order, g, dev, anyMetadata, g', u, i);
    }
  }

  /** If the packages' non-dev dependencies are acyclic, the finished graph is acyclic exactly if no
      script run waits, against the package order, for one that leads back to it. */
  lemma AcyclicExactly(w: World, order: (bool, PackageId) -> nat, g: UnitGraph, dev: set<(Unit, Unit)>, anyMetadata: bool, g': UnitGraph)
    requires PackageOrder(w, order) && KnownGraph(w, g, dev)
    requires ClosedGraph(g) && Connected(g, dev, anyMetadata, g') && (forall u | u in g :: WellFormed(u))
    ensures Acyclic(EdgesOf(g')) <==> !WaitsForItself(w, g, dev, anyMetadata)
  {
    var rank := RankUpToOdd(w, order, g, dev, anyMetadata, g');
    var e, odd := EdgesOf(g'), OddEdges(w, g, dev, anyMetadata);
    AcyclicUpTo(e, rank, odd);
    forall run, p, other | OddLink(w, g, dev, anyMetadata, run, p, other)
      ensures var x := FirstScriptRun(g[other.unit]).value.unit;
        Edge(e, run, x) && (run, x) in odd && (Reaches(e, x, run) <==> LeadsTo(g, dev, anyMetadata, x, run)) {
      OddEdgeIsEdge(w, g, dev, anyMetadata, g', run, p, other);
      ReachesIsLeadsTo(g, dev, anyMetadata, g', FirstScriptRun(g[other.unit]).value.unit, run);
    }
  }

  /** With metadata from any script off and no dev-only `links` dependency documented, nothing
      waits for itself. */
  lemma FinishedGraphIsAcyclic(w: World, order: (bool, PackageId) -> nat, g: UnitGraph, dev: set<(Unit, Unit)>, g': UnitGraph)
    requires PackageOrder(w, order) && NoDevDocumented(w, g, dev) && KnownGraph(w, g, dev)
    requires ClosedGraph(g) && Connected(g, dev, false, g') && (forall u | u in g :: WellFormed(u))
    ensures Acyclic(EdgesOf(g'))
  {
    AcyclicExactly(w, order, g, dev, false, g');
    if run, p, other :| OddLink(w, g, dev, false, run, p, other) {
      OddIsDevDocumented(w, g, dev, run, p, other);
    }
  }
}
