/** `build_map` (`src/compiler/custom_build.rs`): for every unit, the ordered list of the
    build-script outputs it links against, computed by one memoised traversal. */
module BuildScriptMap {
  import opened Units
  import opened Graphs
  import Sorting
  import DirectiveLines

  type UnitHash = nat

  type ScriptKey = (PackageId, UnitHash)

  datatype BuildScripts = BuildScripts(toLink: seq<ScriptKey>, seenToLink: set<ScriptKey>, plugins: set<ScriptKey>)

  const NoScripts := BuildScripts([], {}, {})

  /** `add_to_link`: push only what has not been seen. */
  function AddToLink(b: BuildScripts, key: ScriptKey): BuildScripts {
    if key in b.seenToLink then b
    else b.(toLink := b.toLink + [key], seenToLink := b.seenToLink + {key})
  }

  // ----- First occurrences -----

  /** `s` without repetitions, each element where it first occurs. */
  function FirstOccurrences<T(==,!new)>(s: seq<T>): (r: seq<T>)
    ensures forall x :: x in r <==> x in s
  {
    if s == [] then []
    else
      var init, last := s[..|s| - 1], s[|s| - 1];
      assert s == init + [last];
      if last in init then FirstOccurrences(init) else FirstOccurrences(init) + [last]
  }

  lemma {:induction false} FirstOccurrencesDistinct<T(!new)>(s: seq<T>)
    ensures Sorting.NoRepeats(FirstOccurrences(s))
  {
    if s != [] {
      FirstOccurrencesDistinct(s[..|s| - 1]);
      var r := FirstOccurrences(s[..|s| - 1]);
      assert s[|s| - 1] !in s[..|s| - 1] ==> forall i | 0 <= i < |r| :: r[i] in r && r[i] != s[|s| - 1];
    }
  }

  lemma FirstOccurrencesSnoc<T(!new)>(s: seq<T>, x: T)
    ensures FirstOccurrences(s + [x]) == if x in s then FirstOccurrences(s) else FirstOccurrences(s) + [x]
  {
    assert (s + [x])[..|s + [x]| - 1] == s;
  }

  /** De-duplicating a part first does not matter. */
  lemma {:induction false} FirstOccurrencesNested<T(!new)>(a: seq<T>, b: seq<T>)
    ensures FirstOccurrences(a + FirstOccurrences(b)) == FirstOccurrences(a + b)
  {
    if b != [] {
      var init, last := b[..|b| - 1], b[|b| - 1];
      assert b == init + [last];
      FirstOccurrencesNested(a, init);
      FirstOccurrencesSnoc(a + init, last);
      assert a + b == a + init + [last];
      if last !in init {
        FirstOccurrencesSnoc(a + FirstOccurrences(init), last);
        assert a + FirstOccurrences(b) == a + FirstOccurrences(init) + [last];
      }
    }
  }

  /** The list built so far is the first occurrences of everything pushed so far. */
  ghost predicate Collects(b: BuildScripts, pushed: seq<ScriptKey>) {
    && b.toLink == FirstOccurrences(pushed)
    && b.seenToLink == set k | k in pushed
  }

  lemma AddToLinkCollects(b: BuildScripts, pushed: seq<ScriptKey>, key: ScriptKey)
    requires Collects(b, pushed)
    ensures Collects(AddToLink(b, key), pushed + [key])
  {
    FirstOccurrencesSnoc(pushed, key);
  }

  // ----- What each unit links, without memoisation -----

  /** The inputs of the pass: the unit graph and the metadata hash of each script run. */
  datatype Context = Context(graph: Graph<Unit>, metadata: Unit -> UnitHash)

  function ScriptRunsOf(c: Context, pkg: PackageId, deps: seq<Unit>): seq<ScriptKey> {
    if deps == [] then []
    else
      (if deps[0].IsRunCustomBuild() && deps[0].pkg.id == pkg then [(pkg, c.metadata(deps[0]))] else [])
      + ScriptRunsOf(c, pkg, deps[1..])
  }

  /** The scripts of the unit's own package. */
  function OwnScripts(c: Context, u: Unit): seq<ScriptKey>
    requires u in c.graph
  {
    if !u.target.IsCustomBuild() && u.pkg.HasCustomBuild() then ScriptRunsOf(c, u.pkg.id, c.graph[u]) else []
  }

  function SortedDeps(c: Context, u: Unit): seq<Unit>
    requires u in c.graph
  {
    Sorting.SortBy(c.graph[u], (d: Unit) => d.pkg.id)
  }

  lemma SortedDepsMembers(c: Context, u: Unit)
    requires u in c.graph
    ensures forall d :: d in SortedDeps(c, u) <==> Edge(c.graph, u, d)
  {
    Sorting.SortKeepsMembers(c.graph[u], (d: Unit) => d.pkg.id);
  }

  predicate Links(d: Unit) {
    !d.target.forHost && d.target.IsLinkable()
  }

  /** Every unit strictly above its sorted dependencies. */
  ghost predicate Below(c: Context, rank: map<Unit, nat>, top: nat, deps: seq<Unit>) {
    forall i | 0 <= i < |deps| :: deps[i] in c.graph && deps[i] in rank && rank[deps[i]] < top
  }

  /** Own scripts, then those of each linked dependency in turn, with all repetitions. */
  ghost function Preorder(c: Context, rank: map<Unit, nat>, u: Unit): seq<ScriptKey>
    requires Closed(c.graph) && Ranked(c.graph, rank) && u in c.graph
    decreases rank[u], 1, 0
  {
    SortedBelow(c, rank, u);
    OwnScripts(c, u) + PreorderOfDeps(c, rank, rank[u], SortedDeps(c, u))
  }

  ghost function PreorderOfDeps(c: Context, rank: map<Unit, nat>, top: nat, deps: seq<Unit>): seq<ScriptKey>
    requires Closed(c.graph) && Ranked(c.graph, rank) && Below(c, rank, top, deps)
    decreases top, 0, |deps|
  {
    if deps == [] then []
    else
      var d := deps[|deps| - 1];
      PreorderOfDeps(c, rank, top, deps[..|deps| - 1]) + (if Links(d) then Preorder(c, rank, d) else [])
  }

  /** Scripts behind host-only dependencies. */
  ghost function PluginsOf(c: Context, rank: map<Unit, nat>, deps: seq<Unit>): set<ScriptKey>
    requires Closed(c.graph) && Ranked(c.graph, rank) && (forall i | 0 <= i < |deps| :: deps[i] in c.graph)
  {
    if deps == [] then {}
    else
      var d := deps[|deps| - 1];
      PluginsOf(c, rank, deps[..|deps| - 1]) + (if d.target.forHost then set k | k in Preorder(c, rank, d) else {})
  }

  lemma SortedBelow(c: Context, rank: map<Unit, nat>, u: Unit)
    requires Closed(c.graph) && Ranked(c.graph, rank) && u in c.graph
    ensures Below(c, rank, rank[u], SortedDeps(c, u))
  {
    SortedDepsMembers(c, u);
    var deps := SortedDeps(c, u);
    forall i | 0 <= i < |deps| ensures deps[i] in c.graph && deps[i] in rank && rank[deps[i]] < rank[u] {
      assert deps[i] in deps;
      var j :| 0 <= j < |c.graph[u]| && c.graph[u][j] == deps[i];
    }
  }

  /** The specification of one entry of the map. */
  ghost predicate Specified(c: Context, rank: map<Unit, nat>, u: Unit, b: BuildScripts)
    requires Closed(c.graph) && Ranked(c.graph, rank) && u in c.graph
  {
    SortedBelow(c, rank, u);
    && Collects(b, Preorder(c, rank, u))
    && b.plugins == PluginsOf(c, rank, SortedDeps(c, u))
  }

  // ----- The memoised traversal -----

  type BuildOutput = DirectiveLines.BuildOutput

  predicate Overridden(u: Unit) {
    u.IsRunCustomBuild() && u.pkg.links.Some? && u.linksOverridden
  }

  /** A unit of a package with a build script that depends on no run of it: `build` panics there. */
  predicate Lacks(c: Context, u: Unit) {
    u in c.graph && !u.target.IsCustomBuild() && u.pkg.HasCustomBuild() && OwnScripts(c, u) == []
  }

  ghost predicate ScriptRunsPresent(c: Context) {
    forall u :: !Lacks(c, u)
  }

  /** Distinct script runs have distinct metadata. */
  ghost predicate DistinctMetadata(c: Context) {
    forall u, v | u in c.graph && v in c.graph && u.IsRunCustomBuild() && v.IsRunCustomBuild() && u != v ::
      c.metadata(u) != c.metadata(v)
  }

  lemma CollectsNested(b: BuildScripts, pushed: seq<ScriptKey>, part: seq<ScriptKey>)
    requires Collects(b, pushed + FirstOccurrences(part))
    ensures Collects(b, pushed + part)
  {
    FirstOccurrencesNested(pushed, part);
  }

  /** A vector of keys pushed one after the other. */
  method AddAllToLink(b: BuildScripts, keys: seq<ScriptKey>, ghost pushed: seq<ScriptKey>) returns (r: BuildScripts)
    requires Collects(b, pushed)
    ensures Collects(r, pushed + keys) && r.plugins == b.plugins
  {
    r := b;
    assert pushed + keys[..0] == pushed;
    for i := 0 to |keys|
      invariant Collects(r, pushed + keys[..i]) && r.plugins == b.plugins
    {
      AddToLinkCollects(r, pushed + keys[..i], keys[i]);
      r := AddToLink(r, keys[i]);
      assert pushed + keys[..i + 1] == pushed + keys[..i] + [keys[i]];
    }
    assert keys[..|keys|] == keys;
  }

  /** What a visited dependency contributes: nothing, its links, or plugins. */
  method Absorb(b: BuildScripts, d: Unit, scripts: BuildScripts, ghost pushed: seq<ScriptKey>, ghost part: seq<ScriptKey>)
      returns (r: BuildScripts)
    requires Collects(b, pushed) && Collects(scripts, part)
    ensures Collects(r, pushed + if Links(d) then part else [])
    ensures r.plugins == b.plugins + if d.target.forHost then set k | k in part else {}
  {
    r := b;
    assert pushed + [] == pushed;
    if d.target.forHost {
      r := b.(plugins := b.plugins + set k | k in scripts.toLink);
    } else if d.target.IsLinkable() {
      r := AddAllToLink(b, scripts.toLink, pushed);
      CollectsNested(r, pushed, part);
    }
  }

  type Visited = map<Unit, BuildScripts>

  type Outputs = map<UnitHash, BuildOutput>

  /** No override up to rank `top` that is still to be visited has its output in the table. */
  ghost predicate VacantBelow(c: Context, rank: map<Unit, nat>, top: nat, out: Visited, outputs: Outputs)
    requires Ranked(c.graph, rank)
  {
    forall u | u in c.graph && Overridden(u) && u !in out && rank[u] <= top :: c.metadata(u) !in outputs
  }

  /** Between two moments the table gained exactly the overrides of the units visited. */
  ghost predicate Filled(c: Context, overrides: Unit -> BuildOutput, out: Visited, outputs: Outputs, out': Visited, outputs': Outputs) {
    && (forall h | h in outputs :: h in outputs' && outputs'[h] == outputs[h])
    && (forall u | u in out' && u !in out && Overridden(u) :: c.metadata(u) in outputs' && outputs'[c.metadata(u)] == overrides(u))
    && (forall h | h in outputs' && h !in outputs ::
          exists u | u in out' && u !in out :: Overridden(u) && h == c.metadata(u))
  }

  /** Between two moments a unit that lacks its script run was visited exactly if the flag went up. */
  ghost predicate Flagged(c: Context, out: Visited, flag: bool, out': Visited, flag': bool) {
    flag' <==> flag || exists u | u in out' && u !in out :: Lacks(c, u)
  }

  /** What has been visited is part of the graph and has its dependencies visited too. */
  ghost predicate VisitedClosed(c: Context, out: Visited) {
    && out.Keys <= c.graph.Keys
    && forall u, d | u in out && Edge(c.graph, u, d) :: d in out
  }

  ghost predicate Kept(out: Visited, out': Visited) {
    forall u | u in out :: u in out' && out'[u] == out[u]
  }

  lemma FilledTrans(c: Context, overrides: Unit -> BuildOutput, o1: Visited, t1: Outputs, o2: Visited, t2: Outputs, o3: Visited, t3: Outputs)
    requires Kept(o1, o2) && Kept(o2, o3)
    requires Filled(c, overrides, o1, t1, o2, t2) && Filled(c, overrides, o2, t2, o3, t3)
    ensures Filled(c, overrides, o1, t1, o3, t3)
  {
    forall h | h in t3 && h !in t1 ensures exists u | u in o3 && u !in o1 :: Overridden(u) && h == c.metadata(u) {
      if h in t2 {
        var u :| u in o2 && u !in o1 && Overridden(u) && h == c.metadata(u);
      } else {
        var u :| u in o3 && u !in o2 && Overridden(u) && h == c.metadata(u);
      }
    }
  }

  lemma FlaggedTrans(c: Context, o1: Visited, f1: bool, o2: Visited, f2: bool, o3: Visited, f3: bool)
    requires Kept(o1, o2) && Kept(o2, o3) && Flagged(c, o1, f1, o2, f2) && Flagged(c, o2, f2, o3, f3)
    ensures Flagged(c, o1, f1, o3, f3)
  {
    if u :| u in o3 && u !in o1 && Lacks(c, u) {
      assert u in o2 || u !in o2;
    }
  }

  lemma AdvancedTrans(c: Context, overrides: Unit -> BuildOutput, o1: Visited, t1: Outputs, f1: bool, o2: Visited, t2: Outputs, f2: bool,
                      o3: Visited, t3: Outputs, f3: bool)
    requires Kept(o1, o2) && Filled(c, overrides, o1, t1, o2, t2) && Flagged(c, o1, f1, o2, f2)
    requires Kept(o2, o3) && Filled(c, overrides, o2, t2, o3, t3) && Flagged(c, o2, f2, o3, f3)
    ensures Kept(o1, o3) && Filled(c, overrides, o1, t1, o3, t3) && Flagged(c, o1, f1, o3, f3)
  {
    FilledTrans(c, overrides, o1, t1, o2, t2, o3, t3);
    FlaggedTrans(c, o1, f1, o2, f2, o3, f3);
  }

  lemma FlaggedDone(c: Context, unit: Unit, r: BuildScripts, out: Visited, flag: bool, out': Visited, flag': bool)
    requires unit !in out && unit !in out' && Flagged(c, out, flag || Lacks(c, unit), out', flag')
    ensures Flagged(c, out, flag, out'[unit := r], flag')
  {
    assert unit in out'[unit := r] && forall u | u in out' :: u in out'[unit := r];
  }

  /** Visiting what lies strictly below keeps the overrides still to come vacant. */
  lemma StillVacant(c: Context, overrides: Unit -> BuildOutput, rank: map<Unit, nat>, unit: Unit, d: Unit,
                    out: Visited, outputs: Outputs, started: Outputs, out': Visited, outputs': Outputs)
    requires Ranked(c.graph, rank) && DistinctMetadata(c) && unit in c.graph && d in c.graph && rank[d] < rank[unit]
    requires VacantBelow(c, rank, rank[unit], out, outputs) && Kept(out, out') && out'.Keys <= c.graph.Keys
    requires started == if Overridden(unit) then outputs[c.metadata(unit) := overrides(unit)] else outputs
    requires Filled(c, overrides, out, started, out', outputs')
    ensures VacantBelow(c, rank, rank[d], out', outputs')
  {
    forall u | u in c.graph && Overridden(u) && u !in out' && rank[u] <= rank[d] ensures c.metadata(u) !in outputs' {
      assert c.metadata(u) !in outputs && u != unit;
      assert c.metadata(u) !in started;
    }
  }

  /** Recording the finished unit accounts for its own override. */
  lemma FilledDone(c: Context, overrides: Unit -> BuildOutput, unit: Unit, r: BuildScripts,
                   out: Visited, outputs: Outputs, started: Outputs, out': Visited, outputs': Outputs)
    requires unit !in out && unit !in out'
    requires Overridden(unit) ==> c.metadata(unit) !in outputs
    requires started == if Overridden(unit) then outputs[c.metadata(unit) := overrides(unit)] else outputs
    requires Filled(c, overrides, out, started, out', outputs')
    ensures Filled(c, overrides, out, outputs, out'[unit := r], outputs')
  {
    forall h | h in outputs' && h !in outputs ensures exists u | u in out'[unit := r] && u !in out :: Overridden(u) && h == c.metadata(u) {
      if h in started {
        assert unit in out'[unit := r];
      } else {
        var u :| u in out' && u !in out && Overridden(u) && h == c.metadata(u);
        assert u in out'[unit := r];
      }
    }
  }

  lemma DepsStep(c: Context, rank: map<Unit, nat>, top: nat, deps: seq<Unit>, i: nat, own: seq<ScriptKey>)
    requires Closed(c.graph) && Ranked(c.graph, rank) && Below(c, rank, top, deps) && i < |deps|
    ensures own + PreorderOfDeps(c, rank, top, deps[..i + 1])
         == own + PreorderOfDeps(c, rank, top, deps[..i]) + if Links(deps[i]) then Preorder(c, rank, deps[i]) else []
    ensures PluginsOf(c, rank, deps[..i + 1])
         == PluginsOf(c, rank, deps[..i]) + if deps[i].target.forHost then set k | k in Preorder(c, rank, deps[i]) else {}
  {
    assert deps[..i + 1][..i] == deps[..i];
  }

  /** `r` holds the unit's own scripts and those of its first `i` dependencies. */
  ghost predicate Absorbed(c: Context, rank: map<Unit, nat>, top: nat, own: seq<ScriptKey>, deps: seq<Unit>, i: nat, r: BuildScripts)
    requires Closed(c.graph) && Ranked(c.graph, rank) && Below(c, rank, top, deps) && i <= |deps|
  {
    && Collects(r, own + PreorderOfDeps(c, rank, top, deps[..i]))
    && r.plugins == PluginsOf(c, rank, deps[..i])
  }

  /** One more dependency absorbed. */
  lemma AbsorbedNext(c: Context, rank: map<Unit, nat>, top: nat, own: seq<ScriptKey>, deps: seq<Unit>, i: nat, b: BuildScripts, r: BuildScripts)
    requires Closed(c.graph) && Ranked(c.graph, rank) && Below(c, rank, top, deps) && i < |deps|
    requires Absorbed(c, rank, top, own, deps, i, b)
    requires Collects(r, own + PreorderOfDeps(c, rank, top, deps[..i]) + if Links(deps[i]) then Preorder(c, rank, deps[i]) else [])
    requires r.plugins == b.plugins + if deps[i].target.forHost then set k | k in Preorder(c, rank, deps[i]) else {}
    ensures Absorbed(c, rank, top, own, deps, i + 1, r)
  {
    DepsStep(c, rank, top, deps, i, own);
  }

  method AbsorbDep(c: Context, ghost rank: map<Unit, nat>, ghost top: nat, ghost own: seq<ScriptKey>, deps: seq<Unit>, i: nat,
                   b: BuildScripts, scripts: BuildScripts) returns (r: BuildScripts)
    requires Closed(c.graph) && Ranked(c.graph, rank) && Below(c, rank, top, deps) && i < |deps|
    requires Absorbed(c, rank, top, own, deps, i, b) && Collects(scripts, Preorder(c, rank, deps[i]))
    ensures Absorbed(c, rank, top, own, deps, i + 1, r)
  {
    r := Absorb(b, deps[i], scripts, own + PreorderOfDeps(c, rank, top, deps[..i]), Preorder(c, rank, deps[i]));
    AbsorbedNext(c, rank, top, own, deps, i, b, r);
  }

  lemma AbsorbedNone(c: Context, rank: map<Unit, nat>, top: nat, own: seq<ScriptKey>, deps: seq<Unit>, r: BuildScripts)
    requires Closed(c.graph) && Ranked(c.graph, rank) && Below(c, rank, top, deps)
    requires Collects(r, [] + own) && r.plugins == {}
    ensures Absorbed(c, rank, top, own, deps, 0, r)
  {
    assert [] + own == own == own + PreorderOfDeps(c, rank, top, deps[..0]);
  }

  ghost predicate FirstVisited(units: seq<Unit>, n: nat, out: Visited) {
    n <= |units| && forall j | 0 <= j < n :: units[j] in out
  }

  lemma FirstKept(units: seq<Unit>, n: nat, out: Visited, out': Visited)
    requires n < |units| && FirstVisited(units, n, out) && Kept(out, out') && units[n] in out'
    ensures FirstVisited(units, n + 1, out')
  {}

  /** Everything visited since `before` is reached from `unit`. */
  ghost predicate ReachedSince(c: Context, unit: Unit, before: Visited, after: Visited) {
    forall u | u in after && u !in before :: Reaches(c.graph, unit, u)
  }

  /** What is reached from a dependency is reached from the unit, and is not the unit. */
  lemma ReachedThroughEdge(c: Context, rank: map<Unit, nat>, unit: Unit, d: Unit, u: Unit)
    requires Ranked(c.graph, rank) && Edge(c.graph, unit, d) && Reaches(c.graph, d, u)
    ensures u != unit && Reaches(c.graph, unit, u)
  {
    var p :| PathBetween(c.graph, p, d, u);
    var q := [unit] + p;
    assert IsPath(c.graph, q) by {
      forall i | 0 <= i < |q| - 1 ensures Edge(c.graph, q[i], q[i + 1]) {
        assert i == 0 || Edge(c.graph, p[i - 1], p[i - 1 + 1]);
      }
    }
    assert PathBetween(c.graph, q, unit, u);
    RankFallsAlong(c.graph, rank, q);
  }

  lemma ReachedThrough(c: Context, rank: map<Unit, nat>, unit: Unit, d: Unit, out0: Visited, out1: Visited, out2: Visited)
    requires Ranked(c.graph, rank) && Edge(c.graph, unit, d)
    requires ReachedSince(c, unit, out0, out1) && ReachedSince(c, d, out1, out2) && unit !in out1
    ensures ReachedSince(c, unit, out0, out2) && unit !in out2
  {
    forall u | u in out2 && u !in out1 ensures u != unit && Reaches(c.graph, unit, u) {
      ReachedThroughEdge(c, rank, unit, d, u);
    }
  }

  /** Everything visited has its specified entry. */
  ghost predicate AllSpecified(c: Context, rank: map<Unit, nat>, out: Visited)
    requires Closed(c.graph) && Ranked(c.graph, rank) && out.Keys <= c.graph.Keys
  {
    forall u | u in out :: Specified(c, rank, u, out[u])
  }

  lemma SpecifiedInsert(c: Context, rank: map<Unit, nat>, unit: Unit, r: BuildScripts, out: Visited)
    requires Closed(c.graph) && Ranked(c.graph, rank) && out.Keys <= c.graph.Keys && AllSpecified(c, rank, out)
    requires unit in c.graph && Specified(c, rank, unit, r)
    ensures AllSpecified(c, rank, out[unit := r])
  {}

  lemma VisitedInsert(c: Context, unit: Unit, r: BuildScripts, out0: Visited, out: Visited)
    requires VisitedClosed(c, out) && unit in c.graph && (forall d | Edge(c.graph, unit, d) :: d in out)
    requires ReachedSince(c, unit, out0, out)
    ensures VisitedClosed(c, out[unit := r]) && ReachedSince(c, unit, out0, out[unit := r])
  {
    ReachesSelf(c.graph, unit);
  }

  class ScriptMap {
    const c: Context
    const overrides: Unit -> BuildOutput
    ghost const rank: map<Unit, nat>
    var out: Visited
    var outputs: Outputs
    /** Whether a unit was met that lacks its script run. The source stops there; the traversal is
        followed to its end, so that the flag says exactly whether such a unit is in reach. */
    var panicked: bool

    ghost predicate Valid()
      reads this
    {
      && Closed(c.graph) && Ranked(c.graph, rank) && DistinctMetadata(c)
      && VisitedClosed(c, out) && AllSpecified(c, rank, out)
    }

    constructor (c: Context, overrides: Unit -> BuildOutput, ghost rank: map<Unit, nat>)
      requires Closed(c.graph) && Ranked(c.graph, rank) && DistinctMetadata(c)
      ensures Valid() && this.c == c && this.overrides == overrides && this.rank == rank
      ensures out == map[] && outputs == map[] && !panicked
    {
      this.c, this.overrides, this.rank := c, overrides, rank;
      out, outputs, panicked := map[], map[], false;
    }

    /** `BuildScriptOutputs::insert`: an occupied key is a panic. */
    method InsertOutput(metadata: UnitHash, output: BuildOutput)
      requires metadata !in outputs
      modifies this`outputs
      ensures outputs == old(outputs)[metadata := output]
    {
      outputs := outputs[metadata := output];
    }

    /** The pre-filled output of an overridden script, and the lookup of the package's script runs. */
    method Start(unit: Unit)
      requires Valid() && unit in c.graph && unit !in out && VacantBelow(c, rank, rank[unit], out, outputs)
      modifies this`outputs, this`panicked
      ensures Valid() && panicked == (old(panicked) || Lacks(c, unit))
      ensures outputs == if Overridden(unit) then old(outputs)[c.metadata(unit) := overrides(unit)] else old(outputs)
    {
      if Overridden(unit) {
        InsertOutput(c.metadata(unit), overrides(unit));
      }
      panicked := panicked || Lacks(c, unit);
    }

    method Build(unit: Unit) returns (r: BuildScripts)
      requires Valid() && unit in c.graph && VacantBelow(c, rank, rank[unit], out, outputs)
      modifies this`out, this`outputs, this`panicked
      ensures Valid() && unit in out && r == out[unit] && Kept(old(out), out)
      ensures Filled(c, overrides, old(out), old(outputs), out, outputs) && Flagged(c, old(out), old(panicked), out, panicked)
      ensures ReachedSince(c, unit, old(out), out)
      decreases rank[unit], 1, 0
    {
      if unit in out {
        return out[unit];
      }
      Start(unit);
      ghost var started := outputs;
      r := BuildDeps(unit, old(out), old(outputs), started, panicked);
      Record(unit, r, old(out), old(outputs), started, old(panicked));
    }

    /** The entry is vacant: the panic about cyclic dependencies is never reached. */
    method Record(unit: Unit, r: BuildScripts, ghost out0: Visited, ghost outputs0: Outputs, ghost started: Outputs, ghost flag: bool)
      requires Valid() && unit in c.graph && unit !in out && unit !in out0 && Specified(c, rank, unit, r)
      requires (Overridden(unit) ==> c.metadata(unit) !in outputs0) && forall d | Edge(c.graph, unit, d) :: d in out
      requires started == if Overridden(unit) then outputs0[c.metadata(unit) := overrides(unit)] else outputs0
      requires Progressed(unit, out0, started, flag || Lacks(c, unit))
      modifies this`out
      ensures Valid() && out == old(out)[unit := r] && Kept(out0, out)
      ensures Filled(c, overrides, out0, outputs0, out, outputs) && Flagged(c, out0, flag, out, panicked)
      ensures ReachedSince(c, unit, out0, out)
    {
      FilledDone(c, overrides, unit, r, out0, outputs0, started, out, outputs);
      FlaggedDone(c, unit, r, out0, flag, out, panicked);
      VisitedInsert(c, unit, r, out0, out);
      SpecifiedInsert(c, rank, unit, r, out);
      out := out[unit := r];
    }

    /** Since `unit` was started, units below it were visited and their overrides filled in. */
    ghost predicate Progressed(unit: Unit, out0: Visited, started: Outputs, flag: bool)
      reads this
    {
      && Kept(out0, out)
      && Filled(c, overrides, out0, started, out, outputs) && Flagged(c, out0, flag, out, panicked)
      && ReachedSince(c, unit, out0, out) && unit !in out
    }

    /** The scripts of `unit`, visiting its dependencies in package order. */
    method BuildDeps(unit: Unit, ghost out0: Visited, ghost outputs0: Outputs, ghost started: Outputs, ghost flag: bool)
        returns (r: BuildScripts)
      requires Valid() && unit in c.graph && out == out0 && outputs == started && panicked == flag && unit !in out0
      requires VacantBelow(c, rank, rank[unit], out0, outputs0)
      requires started == if Overridden(unit) then outputs0[c.metadata(unit) := overrides(unit)] else outputs0
      modifies this`out, this`outputs, this`panicked
      ensures Valid() && Specified(c, rank, unit, r) && Progressed(unit, out0, started, flag)
      ensures forall d | Edge(c.graph, unit, d) :: d in out
      decreases rank[unit], 0, 2
    {
      SortedBelow(c, rank, unit);
      var own := OwnScripts(c, unit);
      r := AddAllToLink(NoScripts, own, []);
      var deps := SortedDeps(c, unit);
      AbsorbedNone(c, rank, rank[unit], own, deps, r);
      SortedDepsMembers(c, unit);
      for i := 0 to |deps|
        invariant Valid() && Progressed(unit, out0, started, flag)
        invariant Absorbed(c, rank, rank[unit], own, deps, i, r)
        invariant FirstVisited(deps, i, out)
      {
        r := VisitDep(unit, own, deps, i, r, out0, outputs0, started, flag);
      }
      assert deps[..|deps|] == deps;
      forall d | Edge(c.graph, unit, d) ensures d in out {
        assert d in deps;
      }
    }

    /** One turn of the loop over the dependencies. */
    method VisitDep(unit: Unit, ghost own: seq<ScriptKey>, deps: seq<Unit>, i: nat, b: BuildScripts,
                    ghost out0: Visited, ghost outputs0: Outputs, ghost started: Outputs, ghost flag: bool) returns (r: BuildScripts)
      requires Valid() && unit in c.graph && Below(c, rank, rank[unit], deps) && i < |deps|
      requires VacantBelow(c, rank, rank[unit], out0, outputs0)
      requires started == if Overridden(unit) then outputs0[c.metadata(unit) := overrides(unit)] else outputs0
      requires Progressed(unit, out0, started, flag) && Absorbed(c, rank, rank[unit], own, deps, i, b)
      requires FirstVisited(deps, i, out) && Edge(c.graph, unit, deps[i])
      modifies this`out, this`outputs, this`panicked
      ensures Valid() && Progressed(unit, out0, started, flag) && Absorbed(c, rank, rank[unit], own, deps, i + 1, r)
      ensures FirstVisited(deps, i + 1, out)
      decreases rank[unit], 0, 1
    {
      ghost var out1 := out;
      var scripts := Descend(unit, deps[i], out0, outputs0, started, flag);
      FirstKept(deps, i, out1, out);
      r := AbsorbDep(c, rank, rank[unit], own, deps, i, b, scripts);
    }

    /** The recursive call on a dependency, from inside the visit of `unit`. */
    method Descend(unit: Unit, d: Unit, ghost out0: Visited, ghost outputs0: Outputs, ghost started: Outputs, ghost flag: bool)
        returns (scripts: BuildScripts)
      requires Valid() && unit in c.graph && d in c.graph && rank[d] < rank[unit] && Edge(c.graph, unit, d)
      requires VacantBelow(c, rank, rank[unit], out0, outputs0)
      requires started == if Overridden(unit) then outputs0[c.metadata(unit) := overrides(unit)] else outputs0
      requires Progressed(unit, out0, started, flag)
      modifies this`out, this`outputs, this`panicked
      ensures Valid() && Progressed(unit, out0, started, flag) && Kept(old(out), out) && d in out && scripts == out[d]
      ensures Collects(scripts, Preorder(c, rank, d))
      decreases rank[unit], 0, 0
    {
      ghost var out1, outputs1, flag1 := out, outputs, panicked;
      StillVacant(c, overrides, rank, unit, d, out0, outputs0, started, out, outputs);
      scripts := Build(d);
      AdvancedTrans(c, overrides, out0, started, flag, out1, outputs1, flag1, out, outputs, panicked);
      ReachedThrough(c, rank, unit, d, out0, out1, out);
      assert Specified(c, rank, d, out[d]);
    }
  }

  // ----- Independence of the rank, and the whole pass -----

  lemma {:induction false} PreorderOfAnyRank(c: Context, rank: map<Unit, nat>, rank': map<Unit, nat>, u: Unit)
    requires Closed(c.graph) && Ranked(c.graph, rank) && Ranked(c.graph, rank') && u in c.graph
    ensures Preorder(c, rank, u) == Preorder(c, rank', u)
    decreases rank[u], 1, 0
  {
    SortedBelow(c, rank, u);
    SortedBelow(c, rank', u);
    PreorderOfDepsOfAnyRank(c, rank, rank', rank[u], rank'[u], SortedDeps(c, u));
  }

  lemma {:induction false} PreorderOfDepsOfAnyRank(c: Context, rank: map<Unit, nat>, rank': map<Unit, nat>, top: nat, top': nat, deps: seq<Unit>)
    requires Closed(c.graph) && Ranked(c.graph, rank) && Ranked(c.graph, rank')
    requires Below(c, rank, top, deps) && Below(c, rank', top', deps)
    ensures PreorderOfDeps(c, rank, top, deps) == PreorderOfDeps(c, rank', top', deps)
    ensures PluginsOf(c, rank, deps) == PluginsOf(c, rank', deps)
    decreases top, 0, |deps|
  {
    if deps != [] {
      PreorderOfDepsOfAnyRank(c, rank, rank', top, top', deps[..|deps| - 1]);
      PreorderOfAnyRank(c, rank, rank', deps[|deps| - 1]);
    }
  }

  /** The entry is the one of the recursive definition, for any topological rank. */
  ghost predicate Entry(c: Context, u: Unit, b: BuildScripts)
    requires Closed(c.graph) && u in c.graph
  {
    forall rank | Ranked(c.graph, rank) :: Specified(c, rank, u, b)
  }

  lemma SpecifiedIsEntry(c: Context, rank: map<Unit, nat>, u: Unit, b: BuildScripts)
    requires Closed(c.graph) && Ranked(c.graph, rank) && u in c.graph && Specified(c, rank, u, b)
    ensures Entry(c, u, b)
  {
    forall rank' | Ranked(c.graph, rank') ensures Specified(c, rank', u, b) {
      SortedBelow(c, rank, u);
      SortedBelow(c, rank', u);
      PreorderOfAnyRank(c, rank, rank', u);
      PreorderOfDepsOfAnyRank(c, rank, rank', rank[u], rank'[u], SortedDeps(c, u));
    }
  }

  lemma DomainIsReachable(c: Context, roots: seq<Unit>, out: Visited)
    requires VisitedClosed(c, out) && FirstVisited(roots, |roots|, out)
    requires forall u | u in out :: ReachableFrom(c.graph, roots, u)
    ensures forall u :: u in out <==> ReachableFrom(c.graph, roots, u)
  {
    forall u | ReachableFrom(c.graph, roots, u) ensures u in out {
      var r :| r in roots && Reaches(c.graph, r, u);
      ReachableStaysIn(c.graph, r, u, iset x | x in out);
    }
  }

  lemma VacantBetweenRoots(c: Context, overrides: Unit -> BuildOutput, rank: map<Unit, nat>, top: nat, out: Visited, outputs: Outputs)
    requires Ranked(c.graph, rank) && DistinctMetadata(c) && out.Keys <= c.graph.Keys
    requires Filled(c, overrides, map[], map[], out, outputs)
    ensures VacantBelow(c, rank, top, out, outputs)
  {}

  /** On an acyclic unit graph every entry is the one of the recursive definition, whatever the
      order of the roots, and the table holds exactly the overrides of the units visited. */
  method BuildMap(c: Context, overrides: Unit -> BuildOutput, roots: seq<Unit>)
      returns (out: Visited, outputs: Outputs, panicked: bool)
    requires Closed(c.graph) && Acyclic(c.graph) && DistinctMetadata(c)
    requires forall i | 0 <= i < |roots| :: roots[i] in c.graph
    ensures out.Keys <= c.graph.Keys && (forall u :: u in out <==> ReachableFrom(c.graph, roots, u))
    ensures forall u | u in out :: Entry(c, u, out[u])
    ensures Filled(c, overrides, map[], map[], out, outputs)
    ensures panicked <==> exists u :: u in out && Lacks(c, u)
  {
    ghost var rank := AcyclicHasRank(c.graph);
    var state := new ScriptMap(c, overrides, rank);
    for i := 0 to |roots|
      invariant state.c == c && state.overrides == overrides && state.rank == rank
      invariant state.Valid() && Filled(c, overrides, map[], map[], state.out, state.outputs)
      invariant Flagged(c, map[], false, state.out, state.panicked)
      invariant FirstVisited(roots, i, state.out)
      invariant forall u | u in state.out :: ReachableFrom(c.graph, roots, u)
    {
      ghost var out1, outputs1, flag1 := state.out, state.outputs, state.panicked;
      VacantBetweenRoots(c, overrides, rank, rank[roots[i]], out1, outputs1);
      var _ := state.Build(roots[i]);
      AdvancedTrans(c, overrides, map[], map[], false, out1, outputs1, flag1, state.out, state.outputs, state.panicked);
      FirstKept(roots, i, out1, state.out);
      forall u | u in state.out ensures ReachableFrom(c.graph, roots, u) {
        assert u in out1 || (roots[i] in roots && Reaches(c.graph, roots[i], u));
      }
    }
    out, outputs, panicked := state.out, state.outputs, state.panicked;
    DomainIsReachable(c, roots, out);
    forall u | u in out ensures Entry(c, u, out[u]) {
      SpecifiedIsEntry(c, rank, u, out[u]);
    }
  }
}
