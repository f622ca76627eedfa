/** The dependency graph of an SBOM (`src/compiler/output_sbom.rs`): build-script runs are folded
    into the units that depend on them. */
module Sbom {
  import opened Units
  import opened Graphs

  datatype DependencyType = NormalDependency | BuildDependency

  type SbomGraph = map<Unit, set<(Unit, DependencyType)>>

  /** An entry of the work list: `node` is explored on behalf of `parent`. */
  datatype Task = Task(node: Unit, parent: Unit, isBuildDep: bool)

  function EdgeType(isBuildDep: bool, dep: Unit): DependencyType {
    if isBuildDep || dep.target.procMacro then BuildDependency else NormalDependency
  }

  /** How a dependency met from `parent` is explored. */
  function TaskFor(parent: Unit, dep: Unit): Task {
    if dep.IsRunCustomBuild() then Task(dep, parent, true) else Task(dep, dep, false)
  }

  // ----- Reference notions -----

  /** `n` is reached from `k` through script runs only. */
  ghost predicate ThroughScripts(g: Graph<Unit>, k: Unit, n: Unit) {
    exists p: seq<Unit> :: PathBetween(g, p, k, n) && forall i | 1 <= i < |p| :: p[i].IsRunCustomBuild()
  }

  lemma ThroughScriptsSelf(g: Graph<Unit>, k: Unit)
    ensures ThroughScripts(g, k, k)
  {
    assert PathBetween(g, [k], k, k);
  }

  lemma ThroughScriptsStep(g: Graph<Unit>, k: Unit, n: Unit, d: Unit)
    requires ThroughScripts(g, k, n) && Edge(g, n, d) && d.IsRunCustomBuild()
    ensures ThroughScripts(g, k, d)
  {
    var p: seq<Unit> :| PathBetween(g, p, k, n) && forall i | 1 <= i < |p| :: p[i].IsRunCustomBuild();
    assert PathBetween(g, p + [d], k, d);
  }

  /** A proc macro runs during the build. */
  function DirectType(d: Unit): DependencyType {
    if d.target.procMacro then BuildDependency else NormalDependency
  }

  /** The direct dependencies of `k`, each with its type. */
  ghost predicate HasDirect(g: Graph<Unit>, k: Unit, edges: set<(Unit, DependencyType)>) {
    forall d | Edge(g, k, d) && !d.IsRunCustomBuild() :: (d, DirectType(d)) in edges
  }

  /** Where an edge of the SBOM comes from: a direct dependency, or one of a script run that is
      reached through script runs only, and then it is a build dependency. */
  ghost predicate Witnessed(g: Graph<Unit>, k: Unit, e: (Unit, DependencyType)) {
    && !e.0.IsRunCustomBuild()
    && exists n | Edge(g, n, e.0) ::
         ThroughScripts(g, k, n) && (if e.1 == DirectType(e.0) && n == k then true else n.IsRunCustomBuild() && e.1.BuildDependency?)
  }

  /** The dependency `d` of the script run `n` is recorded with a unit that `n` was reached from. */
  ghost predicate Folded(g: Graph<Unit>, s: SbomGraph, n: Unit, d: Unit) {
    exists k | k in s :: ThroughScripts(g, k, n) && (d, BuildDependency) in s[k]
  }

  // ----- The work list -----

  ghost predicate GoodTask(g: Graph<Unit>, root: Unit, t: Task) {
    && t.node in g && t.parent in g
    && Reaches(g, root, t.node) && Reaches(g, root, t.parent)
    && (t.parent == root || !t.parent.IsRunCustomBuild())
    && (if t.isBuildDep then t.node.IsRunCustomBuild() && ThroughScripts(g, t.parent, t.node) else t.node == t.parent)
  }

  /** What exploring the dependencies `deps` of a task's node does. */
  ghost predicate Explored(t: Task, deps: seq<Unit>, edges: set<(Unit, DependencyType)>, visited: set<Unit>, queue: seq<Task>,
                           edges': set<(Unit, DependencyType)>, visited': set<Unit>, queue': seq<Task>) {
    && (forall e :: e in edges' <==> e in edges || (e.0 in deps && !e.0.IsRunCustomBuild() && e.1 == EdgeType(t.isBuildDep, e.0)))
    && (forall u :: u in visited' <==> u in visited || u in deps)
    && queue <= queue'
    && (forall i | |queue| <= i < |queue'| :: queue'[i].node in deps && queue'[i].node !in visited && queue'[i] == TaskFor(t.parent, queue'[i].node))
    && (forall d | d in deps && d !in visited :: TaskFor(t.parent, d) in queue')
    && |queue'| - |queue| == |visited'| - |visited|
  }

  method Explore(t: Task, deps: seq<Unit>, edges: set<(Unit, DependencyType)>, visited: set<Unit>, queue: seq<Task>)
      returns (edges': set<(Unit, DependencyType)>, visited': set<Unit>, queue': seq<Task>)
    ensures Explored(t, deps, edges, visited, queue, edges', visited', queue')
  {
    edges', visited', queue' := edges, visited, queue;
    for i := 0 to |deps|
      invariant Explored(t, deps[..i], edges, visited, queue, edges', visited', queue')
    {
      var d := deps[i];
      ghost var e0, v0, q0 := edges', visited', queue';
      if !d.IsRunCustomBuild() {
        edges' := edges' + {(d, EdgeType(t.isBuildDep, d))};
      }
      if d !in visited' {
        visited' := visited' + {d};
        queue' := queue' + [TaskFor(t.parent, d)];
      }
      assert deps[..i + 1] == deps[..i] + [d];
      ExploredStep(t, deps[..i], d, edges, visited, queue, e0, v0, q0, edges', visited', queue');
    }
    assert deps[..|deps|] == deps;
  }

  lemma ExploredStep(t: Task, deps: seq<Unit>, d: Unit, edges: set<(Unit, DependencyType)>, visited: set<Unit>, queue: seq<Task>,
                     e0: set<(Unit, DependencyType)>, v0: set<Unit>, q0: seq<Task>,
                     edges': set<(Unit, DependencyType)>, visited': set<Unit>, queue': seq<Task>)
    requires Explored(t, deps, edges, visited, queue, e0, v0, q0)
    requires edges' == if d.IsRunCustomBuild() then e0 else e0 + {(d, EdgeType(t.isBuildDep, d))}
    requires if d in v0 then visited' == v0 && queue' == q0 else visited' == v0 + {d} && queue' == q0 + [TaskFor(t.parent, d)]
    ensures Explored(t, deps + [d], edges, visited, queue, edges', visited', queue')
  {
    assert d !in v0 ==> TaskFor(t.parent, d) in queue';
    forall x | x in deps && x !in visited ensures TaskFor(t.parent, x) in queue' {
      assert TaskFor(t.parent, x) in q0;
    }
  }

  /** `done` are the nodes already explored. */
  ghost predicate WorkInv(g: Graph<Unit>, root: Unit, queue: seq<Task>, visited: set<Unit>, done: set<Unit>, s: SbomGraph) {
    && Closed(g) && root in g
    && visited <= g.Keys
    && (forall i | 0 <= i < |queue| :: GoodTask(g, root, queue[i]))
    && (forall u | u in visited :: Reaches(g, root, u) && (u in done || Pending(queue, u)))
    && (root in done || queue == [Task(root, root, false)])
    && (forall n, d | n in done && Edge(g, n, d) :: d in visited)
    && (forall n | n in done && (n == root || !n.IsRunCustomBuild()) :: n in s && HasDirect(g, n, s[n]))
    && (forall n, d | n in done && n != root && n.IsRunCustomBuild() && Edge(g, n, d) && !d.IsRunCustomBuild() :: Folded(g, s, n, d))
    && (forall k | k in s :: (k == root || !k.IsRunCustomBuild()) && Reaches(g, root, k))
    && (forall k, e | k in s && e in s[k] :: Witnessed(g, k, e) && e.0 in visited)
  }

  /** `u` is still to be explored, and as its own parent unless it is a script run. */
  ghost predicate Pending(queue: seq<Task>, u: Unit) {
    exists i | 0 <= i < |queue| :: queue[i].node == u && (!u.IsRunCustomBuild() ==> queue[i] == Task(u, u, false))
  }

  lemma NewTaskIsGood(g: Graph<Unit>, root: Unit, t: Task, d: Unit)
    requires Closed(g) && GoodTask(g, root, t) && Edge(g, t.node, d)
    ensures GoodTask(g, root, TaskFor(t.parent, d)) && Reaches(g, root, d)
  {
    ReachesStep(g, root, t.node, d);
    var i :| 0 <= i < |g[t.node]| && g[t.node][i] == d;
    if d.IsRunCustomBuild() {
      if t.node == t.parent {
        ThroughScriptsSelf(g, t.parent);
      }
      ThroughScriptsStep(g, t.parent, t.node, d);
    }
  }

  lemma NewEdgeIsWitnessed(g: Graph<Unit>, root: Unit, t: Task, d: Unit)
    requires GoodTask(g, root, t) && Edge(g, t.node, d) && !d.IsRunCustomBuild()
    ensures Witnessed(g, t.parent, (d, EdgeType(t.isBuildDep, d)))
  {
    if !t.isBuildDep {
      ThroughScriptsSelf(g, t.parent);
    }
  }

  lemma TasksStep(g: Graph<Unit>, root: Unit, queue: seq<Task>, t: Task, visited: set<Unit>, done: set<Unit>,
                  edges: set<(Unit, DependencyType)>, edges': set<(Unit, DependencyType)>, visited': set<Unit>, queue': seq<Task>)
    requires Closed(g) && GoodTask(g, root, t) && (forall i | 0 <= i < |queue| :: GoodTask(g, root, queue[i]))
    requires forall u | u in visited :: Reaches(g, root, u) && (u in done || Pending(queue + [t], u))
    requires Explored(t, g[t.node], edges, visited, queue, edges', visited', queue')
    ensures forall i | 0 <= i < |queue'| :: GoodTask(g, root, queue'[i])
    ensures forall u | u in visited' :: Reaches(g, root, u) && (u in done + {t.node} || Pending(queue', u))
  {
    forall d | Edge(g, t.node, d) ensures GoodTask(g, root, TaskFor(t.parent, d)) && Reaches(g, root, d) {
      NewTaskIsGood(g, root, t, d);
    }
    forall i | 0 <= i < |queue'| ensures GoodTask(g, root, queue'[i]) {
      if i < |queue| {
        assert queue'[i] == queue[i];
      } else {
        assert Edge(g, t.node, queue'[i].node);
      }
    }
    forall u | u in visited' ensures Reaches(g, root, u) && (u in done + {t.node} || Pending(queue', u)) {
      if u in visited {
        if u !in done && u != t.node {
          var i :| 0 <= i < |queue + [t]| && (queue + [t])[i].node == u && (!u.IsRunCustomBuild() ==> (queue + [t])[i] == Task(u, u, false));
          assert queue'[i] == queue[i];
        }
      } else {
        assert Edge(g, t.node, u) && TaskFor(t.parent, u) in queue';
        var i :| 0 <= i < |queue'| && queue'[i] == TaskFor(t.parent, u);
      }
    }
  }

  function EdgesOf(s: SbomGraph, k: Unit): set<(Unit, DependencyType)> {
    if k in s then s[k] else {}
  }

  lemma EdgesStep(g: Graph<Unit>, root: Unit, t: Task, visited: set<Unit>, done: set<Unit>, s: SbomGraph, queue: seq<Task>,
                  edges': set<(Unit, DependencyType)>, visited': set<Unit>, queue': seq<Task>)
    requires Closed(g) && GoodTask(g, root, t) && (root in done || t == Task(root, root, false))
    requires forall n | n in done && (n == root || !n.IsRunCustomBuild()) :: n in s && HasDirect(g, n, s[n])
    requires forall k, e | k in s && e in s[k] :: Witnessed(g, k, e) && e.0 in visited
    requires Explored(t, g[t.node], EdgesOf(s, t.parent), visited, queue, edges', visited', queue')
    ensures var s' := s[t.parent := edges'];
      && (forall n | n in done + {t.node} && (n == root || !n.IsRunCustomBuild()) :: n in s' && HasDirect(g, n, s'[n]))
      && (forall k, e | k in s' && e in s'[k] :: Witnessed(g, k, e) && e.0 in visited')
  {
    var s' := s[t.parent := edges'];
    forall n | n in done + {t.node} && (n == root || !n.IsRunCustomBuild()) ensures n in s' && HasDirect(g, n, s'[n]) {
      if n !in done {
        assert t.node == t.parent == n && !t.isBuildDep;
      } else {
        assert HasDirect(g, n, s[n]);
      }
    }
    forall k, e | k in s' && e in s'[k] ensures Witnessed(g, k, e) && e.0 in visited' {
      if k == t.parent && e !in EdgesOf(s, k) {
        NewEdgeIsWitnessed(g, root, t, e.0);
      }
    }
  }

  /** The dependencies of the script runs explored so far stay recorded. */
  lemma FoldedStep(g: Graph<Unit>, root: Unit, t: Task, visited: set<Unit>, done: set<Unit>, s: SbomGraph, queue: seq<Task>,
                   edges': set<(Unit, DependencyType)>, visited': set<Unit>, queue': seq<Task>)
    requires GoodTask(g, root, t) && (root in done || t == Task(root, root, false))
    requires forall n, d | n in done && n != root && n.IsRunCustomBuild() && Edge(g, n, d) && !d.IsRunCustomBuild() :: Folded(g, s, n, d)
    requires Explored(t, g[t.node], EdgesOf(s, t.parent), visited, queue, edges', visited', queue')
    ensures forall n, d | n in done + {t.node} && n != root && n.IsRunCustomBuild() && Edge(g, n, d) && !d.IsRunCustomBuild() ::
      Folded(g, s[t.parent := edges'], n, d)
  {
    var s' := s[t.parent := edges'];
    forall n, d | n in done + {t.node} && n != root && n.IsRunCustomBuild() && Edge(g, n, d) && !d.IsRunCustomBuild()
      ensures Folded(g, s', n, d) {
      if n in done {
        var k :| k in s && ThroughScripts(g, k, n) && (d, BuildDependency) in s[k];
        assert k in s' && (d, BuildDependency) in s'[k];
      } else {
        assert t.isBuildDep;
        assert t.parent in s' && (d, EdgeType(true, d)) in s'[t.parent];
      }
    }
  }

  /** The finished graph: its keys are the root and the reachable units that are not script runs;
      each has all its direct dependencies; what a script run depends on is recorded with a unit
      it was reached from; every edge is witnessed, and leads to a key. */
  ghost predicate Complete(g: Graph<Unit>, root: Unit, s: SbomGraph) {
    && (forall k :: k in s <==> k == root || (Reaches(g, root, k) && !k.IsRunCustomBuild()))
    && (forall k | k in s :: HasDirect(g, k, s[k]))
    && (forall n, d | Reaches(g, root, n) && n != root && n.IsRunCustomBuild() && Edge(g, n, d) && !d.IsRunCustomBuild() :: Folded(g, s, n, d))
    && (forall k, e | k in s && e in s[k] :: Witnessed(g, k, e) && e.0 in s)
  }

  lemma FinishedIsComplete(g: Graph<Unit>, root: Unit, visited: set<Unit>, done: set<Unit>, s: SbomGraph)
    requires WorkInv(g, root, [], visited, done, s)
    ensures Complete(g, root, s)
  {
    forall k | Reaches(g, root, k) ensures k in done {
      ReachableStaysIn(g, root, k, iset x | x in done);
    }
    forall k, e | k in s && e in s[k] ensures e.0 in s {
      assert Witnessed(g, k, e);
    }
  }

  method BuildSbomGraph(g: Graph<Unit>, root: Unit) returns (s: SbomGraph)
    requires Closed(g) && root in g
    ensures Complete(g, root, s)
  {
    s := map[];
    var queue := [Task(root, root, false)];
    var visited: set<Unit> := {};
    ghost var done: set<Unit> := {};
    ReachesSelf(g, root);
    while queue != []
      invariant WorkInv(g, root, queue, visited, done, s)
      decreases g.Keys - visited, |queue|
    {
      var t := queue[|queue| - 1];
      ghost var before := queue;
      queue := queue[..|queue| - 1];
      assert before == queue + [t];
      ghost var visited0, queue0, s0 := visited, queue, s;
      var edges;
      edges, visited, queue := Explore(t, g[t.node], EdgesOf(s, t.parent), visited, queue);
      TasksStep(g, root, queue0, t, visited0, done, EdgesOf(s, t.parent), edges, visited, queue);
      EdgesStep(g, root, t, visited0, done, s, queue0, edges, visited, queue);
      FoldedStep(g, root, t, visited0, done, s, queue0, edges, visited, queue);
      s := s[t.parent := edges];
      StepMeasure(g, t.node, visited0, visited);
      done := done + {t.node};
    }
    FinishedIsComplete(g, root, visited, done, s);
  }

  lemma StepMeasure(g: Graph<Unit>, n: Unit, visited: set<Unit>, visited': set<Unit>)
    requires Closed(g) && n in g && visited <= g.Keys
    requires forall u :: u in visited' <==> u in visited || u in g[n]
    ensures visited <= visited' <= g.Keys
    ensures visited == visited' || g.Keys - visited' < g.Keys - visited
  {
    if visited != visited' {
      var u :| u in visited' && u !in visited;
      assert u in g.Keys - visited;
    }
  }

  // ----- Indices -----

  datatype SbomDependency = SbomDependency(index: nat, kind: DependencyType)

  datatype SbomCrate = SbomCrate(unit: Unit, dependencies: seq<SbomDependency>)

  /** `crates` lists the graph: one crate per key, and every index names the crate it should. */
  ghost predicate Lists(s: SbomGraph, crates: seq<SbomCrate>) {
    && |crates| == |s|
    && (forall i | 0 <= i < |crates| :: crates[i].unit in s)
    && (forall i, j | 0 <= i < j < |crates| :: crates[i].unit != crates[j].unit)
    && (forall i | 0 <= i < |crates| :: IndexesInto(crates, crates[i].dependencies, s[crates[i].unit]))
  }

  ghost predicate IndexesInto(crates: seq<SbomCrate>, deps: seq<SbomDependency>, edges: set<(Unit, DependencyType)>) {
    && |deps| == |edges|
    && (forall j | 0 <= j < |deps| :: deps[j].index < |crates| && (crates[deps[j].index].unit, deps[j].kind) in edges)
    && (forall e | e in edges :: exists j | 0 <= j < |deps| :: deps[j].index < |crates| && crates[deps[j].index].unit == e.0 && deps[j].kind == e.1)
  }

  /** The positions of the keys in the order in which the map is walked. */
  ghost predicate Indexes(s: SbomGraph, keys: seq<Unit>, indices: map<Unit, nat>) {
    && |keys| == |s| && indices.Keys == s.Keys
    && (forall i | 0 <= i < |keys| :: keys[i] in s && indices[keys[i]] == i)
    && (forall u | u in indices :: indices[u] < |keys| && keys[indices[u]] == u)
  }

  method IndexKeys(s: SbomGraph) returns (keys: seq<Unit>, indices: map<Unit, nat>)
    ensures Indexes(s, keys, indices)
  {
    keys, indices := [], map[];
    var rest := s.Keys;
    while rest != {}
      invariant rest <= s.Keys && |keys| + |rest| == |s|
      invariant indices.Keys == s.Keys - rest
      invariant forall i | 0 <= i < |keys| :: keys[i] in indices && indices[keys[i]] == i
      invariant forall u | u in indices :: indices[u] < |keys| && keys[indices[u]] == u
    {
      var u :| u in rest;
      indices := indices[u := |keys|];
      keys := keys + [u];
      rest := rest - {u};
    }
  }

  ghost predicate Indexed(s: SbomGraph, keys: seq<Unit>, indices: map<Unit, nat>, c: SbomCrate) {
    && c.unit in s && |c.dependencies| == |s[c.unit]|
    && (forall j | 0 <= j < |c.dependencies| ::
          c.dependencies[j].index < |keys| && (keys[c.dependencies[j].index], c.dependencies[j].kind) in s[c.unit])
    && (forall e | e in s[c.unit] :: e.0 in indices && SbomDependency(indices[e.0], e.1) in c.dependencies)
  }

  lemma CrateIndexes(s: SbomGraph, keys: seq<Unit>, indices: map<Unit, nat>, crates: seq<SbomCrate>, i: nat)
    requires Indexes(s, keys, indices) && |crates| == |keys| && i < |crates|
    requires forall j | 0 <= j < |crates| :: crates[j].unit == keys[j]
    requires Indexed(s, keys, indices, crates[i])
    ensures IndexesInto(crates, crates[i].dependencies, s[crates[i].unit])
  {
    var c := crates[i];
    forall e | e in s[c.unit]
      ensures exists j | 0 <= j < |c.dependencies| :: c.dependencies[j].index < |crates| && crates[c.dependencies[j].index].unit == e.0 && c.dependencies[j].kind == e.1 {
      var j :| 0 <= j < |c.dependencies| && c.dependencies[j] == SbomDependency(indices[e.0], e.1);
    }
  }

  /** The dependencies of one crate, by index. */
  method IndexCrate(s: SbomGraph, keys: seq<Unit>, indices: map<Unit, nat>, u: Unit) returns (c: SbomCrate)
    requires Indexes(s, keys, indices) && u in s && forall e | e in s[u] :: e.0 in s
    ensures c.unit == u && Indexed(s, keys, indices, c)
  {
    var deps: seq<SbomDependency> := [];
    var rest := s[u];
    while rest != {}
      invariant rest <= s[u] && |deps| + |rest| == |s[u]|
      invariant forall j | 0 <= j < |deps| :: deps[j].index < |keys| && (keys[deps[j].index], deps[j].kind) in s[u]
      invariant forall e | e in s[u] && e !in rest :: SbomDependency(indices[e.0], e.1) in deps
    {
      var e :| e in rest;
      deps := deps + [SbomDependency(indices[e.0], e.1)];
      rest := rest - {e};
    }
    c := SbomCrate(u, deps);
  }

  /** The crates of the first keys. */
  ghost predicate CratesFor(s: SbomGraph, keys: seq<Unit>, indices: map<Unit, nat>, crates: seq<SbomCrate>) {
    && |crates| <= |keys|
    && forall j | 0 <= j < |crates| :: crates[j].unit == keys[j] && Indexed(s, keys, indices, crates[j])
  }

  lemma CratesList(s: SbomGraph, keys: seq<Unit>, indices: map<Unit, nat>, crates: seq<SbomCrate>)
    requires Indexes(s, keys, indices) && CratesFor(s, keys, indices, crates) && |crates| == |keys|
    ensures Lists(s, crates)
  {
    forall i | 0 <= i < |crates| ensures IndexesInto(crates, crates[i].dependencies, s[crates[i].unit]) {
      CrateIndexes(s, keys, indices, crates, i);
    }
    forall i, j | 0 <= i < j < |crates| ensures crates[i].unit != crates[j].unit {
      assert indices[keys[i]] == i && indices[keys[j]] == j;
    }
  }

  method ListCrates(s: SbomGraph, root: Unit) returns (crates: seq<SbomCrate>, rootIndex: nat)
    requires root in s && forall k, e | k in s && e in s[k] :: e.0 in s
    ensures Lists(s, crates) && rootIndex < |crates| && crates[rootIndex].unit == root
  {
    var keys, indices := IndexKeys(s);
    crates := [];
    for i := 0 to |keys|
      invariant |crates| == i && CratesFor(s, keys, indices, crates)
    {
      var c := IndexCrate(s, keys, indices, keys[i]);
      crates := crates + [c];
    }
    rootIndex := indices[root];
    CratesList(s, keys, indices, crates);
  }

  method BuildSbom(g: Graph<Unit>, root: Unit) returns (crates: seq<SbomCrate>, rootIndex: nat, ghost s: SbomGraph)
    requires Closed(g) && root in g
    ensures Complete(g, root, s) && Lists(s, crates)
    ensures rootIndex < |crates| && crates[rootIndex].unit == root
  {
    var graph := BuildSbomGraph(g, root);
    crates, rootIndex := ListCrates(graph, root);
    s := graph;
  }
}
