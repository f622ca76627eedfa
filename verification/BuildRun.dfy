/** A whole build seen from the table of build-script outputs: overrides are filled in first,
    `compile` enqueues one job per unit, and the jobs run in any order. */
module BuildRun {
  import opened Units
  import opened Graphs
  import Sorting
  import opened BuildScriptMap

  // ----- Enqueueing: visit every unit once -----

  /** `skip_non_compile_time_dep`: such a unit is walked through, but gets no job. */
  type Skips = Unit -> bool

  class JobBuilder {
    const graph: Graph<Unit>
    const skips: Skips
    var compiled: set<Unit>
    var queue: seq<Unit>

    /** The queue holds each compiled unit that is not skipped, once. */
    ghost predicate Valid()
      reads this
    {
      && Closed(graph)
      && compiled <= graph.Keys
      && Sorting.NoRepeats(queue)
      && forall u :: u in queue <==> u in compiled && !skips(u)
    }

    constructor (graph: Graph<Unit>, skips: Skips)
      requires Closed(graph)
      ensures Valid() && this.graph == graph && this.skips == skips && compiled == {} && queue == []
    {
      this.graph, this.skips := graph, skips;
      compiled, queue := {}, [];
    }

    /** Everything added since `before` has its dependencies compiled. */
    ghost predicate AddedClosed(before: set<Unit>)
      reads this
    {
      forall u, d | u in compiled && u !in before && Edge(graph, u, d) :: d in compiled
    }

    method Compile(unit: Unit)
      requires Valid() && unit in graph
      modifies this`compiled, this`queue
      ensures Valid() && old(compiled) <= compiled && unit in compiled && AddedClosed(old(compiled))
      ensures forall u | u in compiled && u !in old(compiled) :: Reaches(graph, unit, u)
      decreases graph.Keys - compiled
    {
      if unit in compiled {
        return;
      }
      compiled := compiled + {unit};
      if !skips(unit) {
        queue := queue + [unit];
      }
      ReachesSelf(graph, unit);
      var deps := graph[unit];
      ghost var start := compiled;
      for i := 0 to |deps|
        invariant Valid() && start <= compiled && AddedClosed(start)
        invariant forall j | 0 <= j < i :: deps[j] in compiled
        invariant forall u | u in compiled && u !in old(compiled) :: Reaches(graph, unit, u)
      {
        ghost var before := compiled;
        Compile(deps[i]);
        ReachesStep(graph, unit, unit, deps[i]);
        forall u | u in compiled && u !in before ensures Reaches(graph, unit, u) {
          ReachesTrans(graph, unit, deps[i], u);
        }
      }
    }
  }

  /** The roots in turn: one job for every unit that can be reached and is not skipped. */
  method Enqueue(graph: Graph<Unit>, skips: Skips, roots: seq<Unit>) returns (queue: seq<Unit>)
    requires Closed(graph) && (forall i | 0 <= i < |roots| :: roots[i] in graph)
    ensures Sorting.NoRepeats(queue)
    ensures forall u :: u in queue <==> ReachableFrom(graph, roots, u) && !skips(u)
  {
    var b := new JobBuilder(graph, skips);
    for i := 0 to |roots|
      invariant b.graph == graph && b.skips == skips && b.Valid() && b.AddedClosed({})
      invariant forall j | 0 <= j < i :: roots[j] in b.compiled
      invariant forall u | u in b.compiled :: ReachableFrom(graph, roots, u)
    {
      ghost var before := b.compiled;
      b.Compile(roots[i]);
      forall u | u in b.compiled ensures ReachableFrom(graph, roots, u) {
        assert u in before || (roots[i] in roots && Reaches(graph, roots[i], u));
      }
    }
    queue := b.queue;
    forall u | ReachableFrom(graph, roots, u) && !skips(u) ensures u in queue {
      var r :| r in roots && Reaches(graph, r, u);
      ReachableStaysIn(graph, r, u, iset x | x in b.compiled);
    }
  }

  // ----- Running the jobs -----

  /** What a finished script job does to the table: a run that succeeded, failed or was fresh
      stores an output; one that broke down before that stores none. */
  datatype Finished = Finished(unit: Unit, stored: Option<BuildOutput>)

  /** Whether `prepare` gave the unit a job that stores an output: its key was still vacant
      when the queue was built. */
  predicate Stores(c: Context, preFilled: Outputs, u: Unit) {
    u.IsRunCustomBuild() && c.metadata(u) !in preFilled
  }

  /** What one finished job does to the table; `None` is the panic on an occupied key. */
  function Store(c: Context, preFilled: Outputs, table: Outputs, f: Finished): Option<Outputs> {
    if !Stores(c, preFilled, f.unit) || f.stored.None? then Some(table)
    else if c.metadata(f.unit) in table then None
    else Some(table[c.metadata(f.unit) := f.stored.value])
  }

  /** Runs the jobs in the order they finish. */
  function Execute(c: Context, preFilled: Outputs, outputs: Outputs, run: seq<Finished>): (r: Option<Outputs>)
    decreases |run|
  {
    if run == [] then Some(outputs)
    else
      match Execute(c, preFilled, outputs, run[..|run| - 1])
      case None => None
      case Some(table) => Store(c, preFilled, table, run[|run| - 1])
  }

  /** Each job runs at most once, and only jobs of the graph run. */
  ghost predicate Schedule(c: Context, run: seq<Finished>) {
    && (forall i | 0 <= i < |run| :: run[i].unit in c.graph)
    && forall i, j | 0 <= i < j < |run| :: run[i].unit != run[j].unit
  }

  /** The table after `run`: the overrides, and what each script job stored. */
  ghost predicate Holds(c: Context, preFilled: Outputs, run: seq<Finished>, table: Outputs) {
    && (forall h | h in preFilled :: h in table && table[h] == preFilled[h])
    && (forall f | f in run && Stores(c, preFilled, f.unit) && f.stored.Some? ::
          c.metadata(f.unit) in table && table[c.metadata(f.unit)] == f.stored.value)
    && (forall h | h in table && h !in preFilled ::
          exists f | f in run :: Stores(c, preFilled, f.unit) && f.stored.Some? && h == c.metadata(f.unit))
  }

  /** The key of a job that has not run yet is vacant. */
  lemma VacantKey(c: Context, preFilled: Outputs, run: seq<Finished>, table: Outputs)
    requires DistinctMetadata(c) && run != [] && Schedule(c, run)
    requires Holds(c, preFilled, run[..|run| - 1], table) && Stores(c, preFilled, run[|run| - 1].unit)
    ensures c.metadata(run[|run| - 1].unit) !in table
  {
    var n := |run| - 1;
    forall i | 0 <= i < n && Stores(c, preFilled, run[i].unit)
      ensures c.metadata(run[i].unit) != c.metadata(run[n].unit) {
      assert run[i].unit != run[n].unit;
    }
    assert forall f | f in run[..n] :: exists i | 0 <= i < n :: f == run[i];
  }

  lemma HoldsWithout(c: Context, preFilled: Outputs, init: seq<Finished>, f: Finished, table: Outputs)
    requires Holds(c, preFilled, init, table) && !(Stores(c, preFilled, f.unit) && f.stored.Some?)
    ensures Holds(c, preFilled, init + [f], table)
  {
    assert forall g | g in init :: g in init + [f];
  }

  lemma HoldsWith(c: Context, preFilled: Outputs, init: seq<Finished>, f: Finished, table: Outputs)
    requires Holds(c, preFilled, init, table) && Stores(c, preFilled, f.unit) && f.stored.Some?
    requires c.metadata(f.unit) !in table
    ensures Holds(c, preFilled, init + [f], table[c.metadata(f.unit) := f.stored.value])
  {
    assert f in init + [f] && forall g | g in init :: g in init + [f];
  }

  lemma StoreHolds(c: Context, preFilled: Outputs, run: seq<Finished>, table: Outputs)
    requires DistinctMetadata(c) && run != [] && Schedule(c, run) && Holds(c, preFilled, run[..|run| - 1], table)
    ensures Store(c, preFilled, table, run[|run| - 1]).Some?
    ensures Holds(c, preFilled, run, Store(c, preFilled, table, run[|run| - 1]).value)
  {
    var init, f := run[..|run| - 1], run[|run| - 1];
    assert run == init + [f];
    if Stores(c, preFilled, f.unit) && f.stored.Some? {
      VacantKey(c, preFilled, run, table);
      HoldsWith(c, preFilled, init, f, table);
    } else {
      HoldsWithout(c, preFilled, init, f, table);
    }
  }

  /** Whatever the order in which jobs finish, no output is ever stored under an occupied key. */
  lemma {:induction false} NeverOccupied(c: Context, preFilled: Outputs, run: seq<Finished>)
    requires DistinctMetadata(c) && Schedule(c, run)
    ensures Execute(c, preFilled, preFilled, run).Some?
    ensures Holds(c, preFilled, run, Execute(c, preFilled, preFilled, run).value)
  {
    if run != [] {
      var init := run[..|run| - 1];
      NeverOccupied(c, preFilled, init);
      StoreHolds(c, preFilled, run, Execute(c, preFilled, preFilled, init).value);
    }
  }

  /** From an empty table, through the overrides, to the end of any run: the first job to store
      an output for a script finds its key vacant, and overridden scripts never store one. */
  lemma WholeRun(c: Context, overrides: Unit -> BuildOutput, out: Visited, preFilled: Outputs, run: seq<Finished>)
    requires DistinctMetadata(c) && Schedule(c, run) && out.Keys <= c.graph.Keys
    requires Filled(c, overrides, map[], map[], out, preFilled)
    ensures Execute(c, preFilled, preFilled, run).Some?
    ensures var table := Execute(c, preFilled, preFilled, run).value;
      && (forall u | u in out && Overridden(u) :: c.metadata(u) in table && table[c.metadata(u)] == overrides(u))
      && (forall f | f in run && f.unit.IsRunCustomBuild() && !(f.unit in out && Overridden(f.unit)) && f.stored.Some? ::
            c.metadata(f.unit) in table && table[c.metadata(f.unit)] == f.stored.value)
  {
    NeverOccupied(c, preFilled, run);
  }
}
