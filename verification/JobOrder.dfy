/** What each job waits for (`JobQueue::enqueue` in `src/compiler/job_queue/mod.rs`), and what
    is therefore there when it starts: the outputs of the build scripts it links. */
module JobOrder {
  import opened Units
  import opened Graphs
  import opened BuildScriptMap
  import opened LinkSets
  import opened BuildRun
  import opened DependencyQueues
  import NativeDeps
  import Sorting

  datatype Artifact = All | Metadata

  predicate NeedsObjects(kinds: seq<CrateType>) {
    exists k | k in kinds :: !k.Lib? && !k.Rlib?
  }

  predicate RequiresUpstreamObjects(u: Unit) {
    || u.mode.IsAnyTest()
    || match u.target.kind
       case LibTarget(kinds) => NeedsObjects(kinds)
       case ExampleLib(kinds) => NeedsObjects(kinds)
       case _ => true
  }

  predicate OnlyRequiresRmeta(parent: Unit, dep: Unit) {
    !RequiresUpstreamObjects(parent) && parent.mode.Build? && !RequiresUpstreamObjects(dep) && dep.mode.Build?
  }

  /** Binaries are needed to run tests, not to compile them. */
  predicate InJobGraph(d: Unit) {
    (!d.target.IsTest() && !d.target.IsBin()) || d.artifact || d.mode.Docscrape?
  }

  function ArtifactOf(u: Unit, d: Unit): Artifact {
    if OnlyRequiresRmeta(u, d) then Metadata else All
  }

  // ----- The same in terms of targets and modes -----

  /** Compiled to nothing but rlibs: its dependents can start from its metadata. */
  predicate OnlyRlib(u: Unit) {
    && u.mode != Test && u.mode != Doctest && u.mode != Check(true)
    && (u.target.kind.LibTarget? || u.target.kind.ExampleLib?)
    && forall k | k in u.target.kind.crateTypes :: k in {Lib, Rlib}
  }

  /** A job waits for the metadata of a dependency if both are built to rlibs, and in full otherwise. */
  predicate MetadataWillDo(u: Unit, d: Unit) {
    u.mode == Build && d.mode == Build && OnlyRlib(u) && OnlyRlib(d)
  }

  /** Of what a unit depends on, a job does not wait for plain tests and binaries. */
  predicate IsAwaited(d: Unit) {
    d.artifact || d.mode == Docscrape || (d.target.kind != TestTarget && d.target.kind != BinTarget)
  }

  lemma InWords(u: Unit, d: Unit)
    ensures RequiresUpstreamObjects(u) <==> !OnlyRlib(u)
    ensures ArtifactOf(u, d) == Metadata <==> MetadataWillDo(u, d)
    ensures InJobGraph(d) <==> IsAwaited(d)
  {}

  type Needs = map<Unit, Artifact>

  function DirectNeeds(u: Unit, deps: seq<Unit>): (r: Needs)
    ensures forall d :: d in r <==> d in deps && InJobGraph(d)
    ensures forall d | d in r :: r[d] == ArtifactOf(u, d)
  {
    if deps == [] then map[]
    else
      var init, d := deps[..|deps| - 1], deps[|deps| - 1];
      assert deps == init + [d];
      if InJobGraph(d) then DirectNeeds(u, init)[d := ArtifactOf(u, d)] else DirectNeeds(u, init)
  }

  /** `x` can be reached from `m` in one or more steps. */
  ghost predicate Beneath(g: Graph<Unit>, m: Unit, x: Unit) {
    exists d :: Edge(g, m, d) && Reaches(g, d, x)
  }

  lemma BeneathStep(g: Graph<Unit>, m: Unit, d: Unit, x: Unit)
    requires Edge(g, m, d) && (x == d || Beneath(g, d, x))
    ensures Beneath(g, m, x)
  {
    ReachesSelf(g, d);
    if x != d {
      var e :| Edge(g, d, e) && Reaches(g, e, x);
      ReachesStep(g, d, d, e);
      ReachesTrans(g, d, e, x);
    }
  }

  /** What was added to `needs` lies beneath `m`, is needed in full and has its dependencies there. */
  ghost predicate Grown(g: Graph<Unit>, m: Unit, needs: Needs, r: Needs) {
    && needs.Keys <= r.Keys <= g.Keys
    && (forall x | x in r :: r[x].All?)
    && (forall x | x in r && x !in needs :: Beneath(g, m, x))
    && (forall x, y | x in r && x !in needs && Edge(g, x, y) :: y in r)
  }

  lemma GrownStep(g: Graph<Unit>, m: Unit, d: Unit, needs: Needs, r: Needs, r': Needs)
    requires Grown(g, m, needs, r) && Edge(g, m, d) && d !in r && d in g
    requires Grown(g, d, r[d := All], r') && forall y | Edge(g, d, y) :: y in r'
    ensures Grown(g, m, needs, r')
  {
    forall x | x in r' && x !in needs ensures Beneath(g, m, x) {
      if x !in r {
        BeneathStep(g, m, d, x);
      }
    }
  }

  /** Goes on only where something new was found, so it ends on cyclic graphs too. */
  method DependOnDepsOfDeps(g: Graph<Unit>, needs: Needs, unit: Unit) returns (r: Needs)
    requires Closed(g) && unit in g && needs.Keys <= g.Keys && forall x | x in needs :: needs[x].All?
    ensures Grown(g, unit, needs, r) && forall y | Edge(g, unit, y) :: y in r
    decreases g.Keys - needs.Keys
  {
    r := needs;
    var deps := g[unit];
    for i := 0 to |deps|
      invariant Grown(g, unit, needs, r) && forall j | 0 <= j < i :: deps[j] in r
    {
      if deps[i] !in r {
        assert deps[i] in g.Keys - needs.Keys;
        var r' := DependOnDepsOfDeps(g, r[deps[i] := All], deps[i]);
        GrownStep(g, unit, deps[i], needs, r, r');
        r := r';
      }
    }
  }

  /** The dependencies in the job graph and, if object files are needed, all that lies beneath them. */
  ghost predicate Needed(g: Graph<Unit>, u: Unit, d: Unit) {
    || (Edge(g, u, d) && InJobGraph(d))
    || (RequiresUpstreamObjects(u) && exists m :: Edge(g, u, m) && Beneath(g, m, d))
  }

  /** Between two turns: the dependencies before `i` were looked beneath. */
  ghost predicate LookedBeneath(g: Graph<Unit>, u: Unit, direct: Needs, i: nat, needs: Needs)
    requires u in g && i <= |g[u]|
  {
    && direct.Keys <= needs.Keys <= g.Keys && (forall x | x in needs :: needs[x].All?)
    && (forall x | x in needs && x !in direct :: exists m :: Edge(g, u, m) && Beneath(g, m, x))
    && (forall x, y | x in needs && x !in direct && Edge(g, x, y) :: y in needs)
    && (forall j, y | 0 <= j < i && Edge(g, g[u][j], y) :: y in needs)
  }

  lemma LookedAt(g: Graph<Unit>, u: Unit, direct: Needs, i: nat, needs: Needs, needs': Needs)
    requires u in g && i < |g[u]| && LookedBeneath(g, u, direct, i, needs)
    requires Grown(g, g[u][i], needs, needs') && forall y | Edge(g, g[u][i], y) :: y in needs'
    ensures LookedBeneath(g, u, direct, i + 1, needs')
  {
    forall x | x in needs' && x !in direct ensures exists m :: Edge(g, u, m) && Beneath(g, m, x) {
      if x !in needs {
        assert Edge(g, u, g[u][i]) && Beneath(g, g[u][i], x);
      }
    }
  }

  lemma AllBeneath(g: Graph<Unit>, u: Unit, direct: Needs, needs: Needs)
    requires Closed(g) && u in g && LookedBeneath(g, u, direct, |g[u]|, needs) && forall d | d in direct :: d in g[u]
    ensures forall m, x | Edge(g, u, m) && Beneath(g, m, x) :: x in needs
  {
    forall m, x | Edge(g, u, m) && Beneath(g, m, x) ensures x in needs {
      var d :| Edge(g, m, d) && Reaches(g, d, x);
      var j :| 0 <= j < |g[u]| && g[u][j] == m;
      forall a, b | a in needs && Edge(g, a, b) ensures b in needs {
        if a in direct {
          var k :| 0 <= k < |g[u]| && g[u][k] == a;
        }
      }
      ReachableStaysIn(g, d, x, iset y | y in needs);
    }
  }

  /** What the job of `u` waits for: exactly what is needed, in full unless the metadata will do. */
  method QueueDeps(g: Graph<Unit>, u: Unit) returns (needs: Needs)
    requires Closed(g) && u in g
    ensures forall d :: d in needs <==> Needed(g, u, d)
    ensures forall d | d in needs :: needs[d] == ArtifactOf(u, d)
    ensures forall d :: d in needs <==>
      (Edge(g, u, d) && IsAwaited(d)) || (!OnlyRlib(u) && exists m :: Edge(g, u, m) && Beneath(g, m, d))
    ensures forall d | d in needs :: needs[d] == if MetadataWillDo(u, d) then Metadata else All
  {
    forall d ensures RequiresUpstreamObjects(u) <==> !OnlyRlib(u)
             ensures (ArtifactOf(u, d) == Metadata <==> MetadataWillDo(u, d)) && (InJobGraph(d) <==> IsAwaited(d)) {
      InWords(u, d);
    }
    var deps := g[u];
    needs := DirectNeeds(u, deps);
    ghost var direct := needs;
    if RequiresUpstreamObjects(u) {
      for i := 0 to |deps|
        invariant LookedBeneath(g, u, direct, i, needs)
      {
        var needs' := DependOnDepsOfDeps(g, needs, deps[i]);
        LookedAt(g, u, direct, i, needs, needs');
        needs := needs';
      }
      AllBeneath(g, u, direct, needs);
    }
  }

  /** Each job waits for what it needs. */
  ghost predicate JobWaits(g: Graph<Unit>, waits: Waits<Unit, Artifact>) {
    forall u | u in waits :: u in g && forall w :: w in waits[u] <==> Needed(g, u, w.0) && w.1 == ArtifactOf(u, w.0)
  }

  /** The queue before the first job starts. */
  method QueueJobs(g: Graph<Unit>, jobs: seq<Unit>, priority: Unit -> nat) returns (q: DependencyQueue<Unit, Artifact>)
    requires Closed(g) && Sorting.NoRepeats(jobs) && forall i | 0 <= i < |jobs| :: jobs[i] in g
    ensures q.Valid() && q.history == [] && JobWaits(g, q.waits) && forall u :: u in q.waits <==> u in jobs
  {
    q := new DependencyQueue(priority);
    for i := 0 to |jobs|
      invariant q.Valid() && q.history == [] && JobWaits(g, q.waits) && forall u :: u in q.waits <==> u in jobs[..i]
    {
      var needs := QueueDeps(g, jobs[i]);
      var panicked := q.Queue(jobs[i], set d | d in needs :: (d, needs[d]));
      assert !panicked;
    }
  }

  // ----- What has happened when a job starts -----

  type History = seq<Event<Unit, Artifact>>

  /** In any run of the queue, a dependency in the job graph started before, and a script run ended. */
  lemma DependencyCameFirst(g: Graph<Unit>, waits: Waits<Unit, Artifact>, history: History, i: nat, d: Unit)
    requires JobWaits(g, waits) && Orderly(waits, history) && i < |history| && history[i].Dequeued?
    requires Edge(g, history[i].node, d) && InJobGraph(d)
    ensures exists j: nat :: j < i && history[j] == Dequeued(d)
    ensures d.IsRunCustomBuild() ==> Produced(d, All) in history[..i]
  {
    var u := history[i].node;
    assert OrderlyAt(waits, history, i);
    var a := ArtifactOf(u, d);
    assert (d, a) in waits[u];
    var k :| 0 <= k < i && history[k] == Produced(d, a);
    assert OrderlyAt(waits, history, k);
    var j :| 0 <= j < k && history[j] == Dequeued(d);
  }

  ghost predicate RunsAreScripts(g: Graph<Unit>) {
    forall u | u in g && u.IsRunCustomBuild() :: u.target.IsCustomBuild()
  }

  /** So have the script runs behind any chain of linked dependencies. */
  lemma {:induction false} LinkedRunEnded(c: Context, waits: Waits<Unit, Artifact>, history: History, i: nat, p: seq<Unit>, v: Unit, s: Unit)
    requires Closed(c.graph) && RunsAreScripts(c.graph) && JobWaits(c.graph, waits) && Orderly(waits, history)
    requires i < |history| && HandsOn(c, p, history[i].node, v) && history[i].Dequeued?
    requires Edge(c.graph, v, s) && s.IsRunCustomBuild()
    ensures Produced(s, All) in history[..i]
    decreases |p|
  {
    if |p| == 1 {
      assert s in c.graph;
      DependencyCameFirst(c.graph, waits, history, i, s);
    } else {
      assert Edge(c.graph, p[0], p[0 + 1]) && HandedOn(p[1]);
      DependencyCameFirst(c.graph, waits, history, i, p[1]);
      var j: nat :| j < i && history[j] == Dequeued(p[1]);
      var q := p[1..];
      forall k | 0 <= k < |q| - 1 ensures Edge(c.graph, q[k], q[k + 1]) {
        assert Edge(c.graph, p[k + 1], p[k + 1 + 1]);
      }
      LinkedRunEnded(c, waits, history, j, q, v, s);
    }
  }

  // ----- The table of outputs when a job starts -----

  /** What each script run stores, if it gets that far. */
  type Stored = Unit -> Option<BuildOutput>

  /** The jobs at their end, in order. */
  function Ended(history: History, stored: Stored): seq<Finished> {
    if history == [] then []
    else
      Ended(history[..|history| - 1], stored)
      + match history[|history| - 1]
        case Produced(u, All) => [Finished(u, stored(u))]
        case _ => []
  }

  lemma {:induction false} EndedMembers(history: History, stored: Stored)
    ensures forall f :: f in Ended(history, stored) <==> Produced(f.unit, All) in history && f.stored == stored(f.unit)
  {
    if history != [] {
      assert history == history[..|history| - 1] + [history[|history| - 1]];
      EndedMembers(history[..|history| - 1], stored);
    }
  }

  lemma OrderlyPrefix(waits: Waits<Unit, Artifact>, history: History, i: nat)
    requires Orderly(waits, history) && i <= |history|
    ensures Orderly(waits, history[..i])
  {
    forall k | 0 <= k < i ensures OrderlyAt(waits, history[..i], k) {
      assert OrderlyAt(waits, history, k) && history[..i][..k] == history[..k];
    }
  }

  /** Each job ends once, so they are a schedule. */
  lemma {:induction false} EndedIsSchedule(c: Context, waits: Waits<Unit, Artifact>, history: History, stored: Stored)
    requires Orderly(waits, history) && forall u | u in waits :: u in c.graph
    ensures Schedule(c, Ended(history, stored))
  {
    if history != [] {
      var n := |history| - 1;
      var init, last := history[..n], history[n];
      OrderlyPrefix(waits, history, n);
      EndedIsSchedule(c, waits, init, stored);
      EndedMembers(init, stored);
      assert OrderlyAt(waits, history, n);
      if last.Produced? && last.edge.All? {
        DequeuedWasReady(waits, init, last.node);
        var run := Ended(init, stored);
        assert forall k | 0 <= k < |run| :: run[k] in run;
      }
    }
  }

  /** The output of `s` as the table should have it: the override, or what the run stored. */
  function OutputOf(c: Context, preFilled: Outputs, stored: Stored, s: Unit): Option<BuildOutput> {
    if c.metadata(s) in preFilled then Some(preFilled[c.metadata(s)]) else stored(s)
  }

  /** The table when the `i`th event of the queue happens. */
  function TableAt(c: Context, preFilled: Outputs, stored: Stored, history: History, i: nat): Option<Outputs>
    requires i <= |history|
  {
    Execute(c, preFilled, preFilled, Ended(history[..i], stored))
  }

  /** When a job starts, the table has the output of each script run that it links, if there is one. */
  lemma LinkedOutput(c: Context, preFilled: Outputs, stored: Stored, waits: Waits<Unit, Artifact>, history: History, i: nat, s: Unit)
    requires Closed(c.graph) && DistinctMetadata(c) && RunsAreScripts(c.graph) && JobWaits(c.graph, waits) && Orderly(waits, history)
    requires i < |history| && history[i].Dequeued? && LinkedRun(c, history[i].node, s)
    ensures TableAt(c, preFilled, stored, history, i).Some?
    ensures var table := TableAt(c, preFilled, stored, history, i).value;
      match OutputOf(c, preFilled, stored, s)
      case None => c.metadata(s) !in table
      case Some(o) => c.metadata(s) in table && table[c.metadata(s)] == o
  {
    LinkedRunCameFirst(c, waits, history, i, s);
    OrderlyPrefix(waits, history, i);
    EndedIsSchedule(c, waits, history[..i], stored);
    OwnOutput(c, preFilled, stored, history[..i], s);
  }

  lemma LinkedRunCameFirst(c: Context, waits: Waits<Unit, Artifact>, history: History, i: nat, s: Unit)
    requires Closed(c.graph) && RunsAreScripts(c.graph) && JobWaits(c.graph, waits) && Orderly(waits, history)
    requires i < |history| && history[i].Dequeued? && LinkedRun(c, history[i].node, s)
    ensures Produced(s, All) in history[..i] && s in c.graph && s.IsRunCustomBuild()
  {
    var p, v :| HandsOn(c, p, history[i].node, v) && OwnRunOf(c, v, s);
    LinkedRunEnded(c, waits, history, i, p, v, s);
    assert s in c.graph[v];
  }

  /** Once a script run has ended, its entry is its own output and nobody else's. */
  lemma OwnOutput(c: Context, preFilled: Outputs, stored: Stored, history: History, s: Unit)
    requires DistinctMetadata(c) && s in c.graph && s.IsRunCustomBuild()
    requires Schedule(c, Ended(history, stored)) && Produced(s, All) in history
    ensures Execute(c, preFilled, preFilled, Ended(history, stored)).Some?
    ensures var table := Execute(c, preFilled, preFilled, Ended(history, stored)).value;
      match OutputOf(c, preFilled, stored, s)
      case None => c.metadata(s) !in table
      case Some(o) => c.metadata(s) in table && table[c.metadata(s)] == o
  {
    var run := Ended(history, stored);
    NeverOccupied(c, preFilled, run);
    EndedMembers(history, stored);
    assert Finished(s, stored(s)) in run;
    if OutputOf(c, preFilled, stored, s).None? {
      OnlyOwnOutput(c, preFilled, stored, history, s);
    }
  }

  lemma OnlyOwnOutput(c: Context, preFilled: Outputs, stored: Stored, history: History, s: Unit)
    requires DistinctMetadata(c) && s in c.graph && s.IsRunCustomBuild()
    requires Schedule(c, Ended(history, stored)) && c.metadata(s) !in preFilled && stored(s).None?
    ensures Execute(c, preFilled, preFilled, Ended(history, stored)).Some?
    ensures c.metadata(s) !in Execute(c, preFilled, preFilled, Ended(history, stored)).value
  {
    var run := Ended(history, stored);
    NeverOccupied(c, preFilled, run);
    EndedMembers(history, stored);
    forall f | f in run && Stores(c, preFilled, f.unit) && f.stored.Some? ensures c.metadata(f.unit) != c.metadata(s) {
      var k :| 0 <= k < |run| && run[k] == f;
    }
  }

  /** So a job fails to find an output it links exactly if the script run stored none: the error about
      a missing output is not one of order. */
  lemma LinkedOutputsExactly(c: Context, preFilled: Outputs, stored: Stored, waits: Waits<Unit, Artifact>, history: History, i: nat, b: BuildScripts)
    requires Closed(c.graph) && Acyclic(c.graph) && DistinctMetadata(c) && RunsAreScripts(c.graph)
    requires JobWaits(c.graph, waits) && Orderly(waits, history)
    requires i < |history| && history[i].Dequeued? && history[i].node in c.graph && Entry(c, history[i].node, b)
    ensures var r := TableAt(c, preFilled, stored, history, i);
      && r.Some?
      && ((forall k | k in b.toLink :: k.1 in r.value)
          <==> forall s | LinkedRun(c, history[i].node, s) :: OutputOf(c, preFilled, stored, s).Some?)
  {
    var u := history[i].node;
    OrderlyPrefix(waits, history, i);
    EndedIsSchedule(c, waits, history[..i], stored);
    NeverOccupied(c, preFilled, Ended(history[..i], stored));
    EntryMeaning(c, u, b);
    forall s | LinkedRun(c, u, s)
      ensures KeyOf(c, s) in b.toLink
      ensures c.metadata(s) in TableAt(c, preFilled, stored, history, i).value <==> OutputOf(c, preFilled, stored, s).Some? {
      assert LinkedKey(c, u, KeyOf(c, s));
      LinkedOutput(c, preFilled, stored, waits, history, i, s);
    }
  }

  /** The linker arguments of a job that starts: they are found unless a linked script run stored none. */
  method NativeArgs(c: Context, ghost preFilled: Outputs, ghost stored: Stored, ghost waits: Waits<Unit, Artifact>, ghost history: History,
                    ghost i: nat, table: Outputs, b: BuildScripts, job: NativeDeps.Compilation) returns (r: Option<seq<NativeDeps.Arg>>)
    requires Closed(c.graph) && Acyclic(c.graph) && DistinctMetadata(c) && RunsAreScripts(c.graph)
    requires JobWaits(c.graph, waits) && Orderly(waits, history)
    requires i < |history| && history[i].Dequeued? && history[i].node in c.graph && Entry(c, history[i].node, b)
    requires TableAt(c, preFilled, stored, history, i) == Some(table)
    ensures r.Some? <==> forall s | LinkedRun(c, history[i].node, s) :: OutputOf(c, preFilled, stored, s).Some?
  {
    LinkedOutputsExactly(c, preFilled, stored, waits, history, i, b);
    r := NativeDeps.AddNativeDeps(table, b.toLink, job);
  }

  // ----- No job is left -----

  lemma NeededIsBeneath(g: Graph<Unit>, rank: map<Unit, nat>, u: Unit, d: Unit)
    requires Closed(g) && Ranked(g, rank) && u in g && Needed(g, u, d)
    ensures d in rank && rank[d] < rank[u]
  {
    var m :| Edge(g, u, m) && (m == d || Beneath(g, m, d));
    BeneathStep(g, u, m, d);
    var e :| Edge(g, u, e) && Reaches(g, e, d);
    var j :| 0 <= j < |g[u]| && g[u][j] == e;
    var p :| PathBetween(g, p, e, d);
    if |p| >= 2 {
      RankFallsAlong(g, rank, p);
    }
  }

  /** On an acyclic graph, where every job that is needed is queued, the build does not come to an end
      with jobs left in the queue. */
  lemma JobsNotStuck(g: Graph<Unit>, waits: Waits<Unit, Artifact>, history: History, u: Unit) returns (next: Unit)
    requires Closed(g) && Acyclic(g) && JobWaits(g, waits) && forall x, d | x in waits && Needed(g, x, d) :: d in waits
    requires Idle(waits, history) && Left(waits, history, u)
    ensures Left(waits, history, next) && Open(waits, history, next) == {}
  {
    var rank := AcyclicHasRank(g);
    forall n, w | n in waits && w in waits[n] ensures w.0 in waits && rank[w.0] < rank[n] {
      NeededIsBeneath(g, rank, n, w.0);
    }
    next := NotStuck(waits, history, rank, u);
  }
}
