/** Link-time-optimisation propagation over the unit graph (`src/compiler/lto.rs`). */
module LtoPropagation {
  import opened Units
  import opened Graphs

  datatype Lto = Run(flag: Option<string>) | Off | OnlyBitcode | ObjectAndBitcode | OnlyObject
  {
    predicate HasObject() { ObjectAndBitcode? || OnlyObject? }

    predicate HasBitcode() { ObjectAndBitcode? || OnlyBitcode? }
  }

  predicate NeedsObject(crateTypes: seq<CrateType>) {
    exists k | k in crateTypes :: k.CanLto() || k.IsDynamic()
  }

  predicate AllDylib(crateTypes: seq<CrateType>) {
    forall k | k in crateTypes :: k == Dylib
  }

  function LtoWhenNeedsObject(crateTypes: seq<CrateType>): Lto {
    if AllDylib(crateTypes) then OnlyObject else ObjectAndBitcode
  }

  /** The value a root unit is started with. */
  function RootLto(unit: Unit): Lto {
    match unit.lto
    case LtoBool(false) => OnlyObject
    case LtoOff => Off
    case _ =>
      var crateTypes := unit.target.RustcCrateTypes();
      if unit.target.forHost then OnlyObject
      else if NeedsObject(crateTypes) then LtoWhenNeedsObject(crateTypes)
      else OnlyBitcode
  }

  function CrateTypes(unit: Unit): seq<CrateType> {
    if unit.mode.Test? || unit.mode.Doctest? then [Bin] else unit.target.RustcCrateTypes()
  }

  predicate AllLtoTypes(unit: Unit) {
    forall k | k in CrateTypes(unit) :: k.CanLto()
  }

  /** Whether the unit's value ignores what its parents ask for. */
  predicate IsConstant(unit: Unit) {
    unit.target.forHost || AllLtoTypes(unit)
  }

  /** What `unit` has to produce when a parent was given `parentLto`. */
  function Transfer(unit: Unit, parentLto: Lto): Lto {
    if unit.target.forHost then OnlyObject
    else if AllLtoTypes(unit) then
      match unit.lto
      case LtoNamed(s) => Run(Some(s))
      case LtoOff => Off
      case LtoBool(true) => Run(None)
      case LtoBool(false) => OnlyObject
    else
      match (parentLto, NeedsObject(CrateTypes(unit)))
      case (Run(_), false) => OnlyBitcode
      case (Run(_), true) => LtoWhenNeedsObject(CrateTypes(unit))
      case (OnlyBitcode, true) => LtoWhenNeedsObject(CrateTypes(unit))
      case (Off, _) => Off
      case (_, _) => parentLto
  }

  /** The merge of a new requirement into the value already recorded for a unit. */
  function Merge(lto: Lto, existing: Lto): Lto {
    match (lto, existing)
    case (OnlyBitcode, OnlyBitcode) => OnlyBitcode
    case (OnlyObject, OnlyObject) => OnlyObject
    case (Run(s), _) => Run(s)
    case (_, Run(s)) => Run(s)
    case (Off, _) => Off
    case (_, Off) => Off
    case (ObjectAndBitcode, _) => ObjectAndBitcode
    case (_, ObjectAndBitcode) => ObjectAndBitcode
    case (_, _) => ObjectAndBitcode
  }

  // ----- The order the merge climbs -----

  /** `OnlyBitcode, OnlyObject < ObjectAndBitcode < Off`; `Run` is comparable to itself only. */
  predicate Below(a: Lto, b: Lto) {
    || a == b
    || (!a.Run? && b == Off)
    || ((a.OnlyBitcode? || a.OnlyObject?) && b == ObjectAndBitcode)
  }

  function Height(a: Lto): nat {
    match a
    case Off => 2
    case ObjectAndBitcode => 1
    case _ => 0
  }

  /** The values a unit can carry: its constant, or anything but `Run`. */
  predicate Feasible(unit: Unit, lto: Lto) {
    if IsConstant(unit) then lto == Transfer(unit, Off) else !lto.Run?
  }

  lemma TransferFeasible(unit: Unit, parentLto: Lto)
    ensures Feasible(unit, Transfer(unit, parentLto))
  {}

  /** On the values one unit can carry, the merge is the least upper bound. */
  lemma MergeIsJoin(unit: Unit, a: Lto, b: Lto)
    requires Feasible(unit, a) && Feasible(unit, b)
    ensures Feasible(unit, Merge(a, b))
    ensures Below(a, Merge(a, b)) && Below(b, Merge(a, b))
    ensures forall c :: Below(a, c) && Below(b, c) ==> Below(Merge(a, b), c)
    ensures Merge(a, b) != b ==> Height(b) < Height(Merge(a, b))
  {}

  lemma TransferMonotone(unit: Unit, a: Lto, b: Lto)
    requires Below(a, b)
    ensures Below(Transfer(unit, a), Transfer(unit, b))
  {}

  // ----- Solutions of the dataflow constraints -----

  type LtoMap = map<Unit, Lto>

  ghost predicate Settled(g: Graph<Unit>, m: LtoMap, u: Unit)
    requires u in g && u in m
  {
    forall i | 0 <= i < |g[u]| :: g[u][i] in m && Below(Transfer(g[u][i], m[u]), m[g[u][i]])
  }

  ghost predicate FeasibleMap(m: LtoMap) {
    forall u | u in m :: Feasible(u, m[u])
  }

  ghost predicate RootsCovered(roots: seq<Unit>, m: LtoMap) {
    forall i | 0 <= i < |roots| ::
      roots[i] in m && Below(Transfer(roots[i], RootLto(roots[i])), m[roots[i]])
  }

  /** `m` gives every unit at least what its roots and parents require. */
  ghost predicate Solves(g: Graph<Unit>, roots: seq<Unit>, m: LtoMap) {
    && m.Keys <= g.Keys
    && FeasibleMap(m)
    && RootsCovered(roots, m)
    && forall u | u in m :: Settled(g, m, u)
  }

  ghost predicate MapBelow(m: LtoMap, s: LtoMap) {
    forall u | u in m :: u in s && Below(m[u], s[u])
  }

  ghost predicate LeastSolution(g: Graph<Unit>, roots: seq<Unit>, m: LtoMap) {
    && Solves(g, roots, m)
    && forall s | Solves(g, roots, s) :: MapBelow(m, s)
  }

  /** Some root or some parent, at its final value, requires `lto` of `u`. */
  ghost predicate Required(g: Graph<Unit>, roots: seq<Unit>, m: LtoMap, u: Unit, lto: Lto) {
    || (u in roots && lto == Transfer(u, RootLto(u)))
    || (exists p | p in m :: Edge(g, p, u) && lto == Transfer(u, m[p]))
  }

  /** `lto` is the join of everything required of `u`. */
  ghost predicate JoinOfRequired(g: Graph<Unit>, roots: seq<Unit>, m: LtoMap, u: Unit, lto: Lto) {
    && (exists x :: Required(g, roots, m, u, x))
    && (forall x | Required(g, roots, m, u, x) :: Below(x, lto))
    && (forall c | forall x | Required(g, roots, m, u, x) :: Below(x, c) :: Below(lto, c))
  }

  /** `m` is a solution of: value = join over roots and parents of the transfer function,
      on exactly the units reachable from the roots. */
  ghost predicate ExactSolution(g: Graph<Unit>, roots: seq<Unit>, m: LtoMap) {
    && (forall u :: u in m <==> ReachableFrom(g, roots, u))
    && (forall u | u in m :: JoinOfRequired(g, roots, m, u, m[u]))
  }

  // ----- The propagation itself -----

  /** The lattice levels each unit can still climb. It shrinks with every insertion and every
      raised value, which is why the recursion ends on cyclic graphs too. */
  ghost function Headroom(g: Graph<Unit>, m: LtoMap): set<(Unit, nat)> {
    set u, h: nat | u in g && h in {0, 1, 2} && (u in m ==> Height(m[u]) < h) :: (u, h)
  }

  lemma HeadroomShrinks(g: Graph<Unit>, m: LtoMap, u: Unit, lto: Lto)
    requires u in g
    requires u in m ==> Height(m[u]) < Height(lto)
    ensures Headroom(g, m[u := lto]) < Headroom(g, m)
  {
    assert (u, Height(lto)) in Headroom(g, m) && (u, Height(lto)) !in Headroom(g, m[u := lto]);
  }

  lemma HeadroomMonotone(g: Graph<Unit>, m: LtoMap, n: LtoMap)
    requires MapBelow(m, n)
    ensures Headroom(g, n) <= Headroom(g, m)
  {}

  /** Values may rise; a unit whose value moved has told all its dependencies. */
  ghost predicate Propagated(g: Graph<Unit>, before: LtoMap, after: LtoMap) {
    && before.Keys <= after.Keys <= g.Keys
    && FeasibleMap(after)
    && MapBelow(before, after)
    && forall u | u in after && (u in before ==> after[u] != before[u]) :: Settled(g, after, u)
  }

  /** An assignment that satisfies every edge, whatever the roots are. */
  ghost predicate Bound(g: Graph<Unit>, s: LtoMap) {
    && s.Keys <= g.Keys
    && FeasibleMap(s)
    && forall u | u in s :: Settled(g, s, u)
  }

  ghost predicate Demands(unit: Unit, parentLto: Lto, m: LtoMap) {
    unit in m && Below(Transfer(unit, parentLto), m[unit])
  }

  lemma SettledStays(g: Graph<Unit>, m: LtoMap, n: LtoMap, u: Unit)
    requires u in g && u in m && Settled(g, m, u) && MapBelow(m, n) && n[u] == m[u]
    ensures Settled(g, n, u)
  {}

  lemma PropagatedTrans(g: Graph<Unit>, a: LtoMap, b: LtoMap, c: LtoMap)
    requires Propagated(g, a, b) && Propagated(g, b, c)
    ensures Propagated(g, a, c)
  {
    forall u | u in c && (u in a ==> c[u] != a[u]) ensures Settled(g, c, u) {
      if u in b && c[u] == b[u] {
        SettledStays(g, b, c, u);
      }
    }
  }

  /** In a bound, what a unit carries is demanded of each of its dependencies. */
  lemma DemandFlows(g: Graph<Unit>, s: LtoMap, unit: Unit, lto: Lto, i: nat)
    requires Bound(g, s) && unit in s && Below(lto, s[unit]) && i < |g[unit]|
    ensures Demands(g[unit][i], lto, s)
  {
    TransferMonotone(g[unit][i], lto, s[unit]);
    BelowTrans(Transfer(g[unit][i], lto), Transfer(g[unit][i], s[unit]), s[g[unit][i]]);
  }

  lemma BelowTrans(a: Lto, b: Lto, c: Lto)
    requires Below(a, b) && Below(b, c)
    ensures Below(a, c)
  {}

  ghost predicate DemandsOfFirst(k: nat, units: seq<Unit>, lto: Lto, m: LtoMap)
    requires k <= |units|
  {
    forall j | 0 <= j < k :: Demands(units[j], lto, m)
  }

  lemma DemandsStay(k: nat, units: seq<Unit>, lto: Lto, m: LtoMap, n: LtoMap)
    requires MapBelow(m, n) && k < |units|
    requires DemandsOfFirst(k, units, lto, m) && Demands(units[k], lto, n)
    ensures DemandsOfFirst(k + 1, units, lto, n)
  {
    forall j | 0 <= j < k ensures Demands(units[j], lto, n) {
      BelowTrans(Transfer(units[j], lto), m[units[j]], n[units[j]]);
    }
  }

  /** Every bound above `before` is above `after`: nothing was raised without need. */
  ghost predicate Minimal(g: Graph<Unit>, before: LtoMap, after: LtoMap) {
    forall s | Bound(g, s) && MapBelow(before, s) :: MapBelow(after, s)
  }

  /** The same for the bounds that also meet what a parent asks of `unit`. */
  ghost predicate MinimalFor(g: Graph<Unit>, before: LtoMap, unit: Unit, parentLto: Lto, after: LtoMap) {
    forall s | Bound(g, s) && MapBelow(before, s) && Demands(unit, parentLto, s) :: MapBelow(after, s)
  }

  lemma MinimalStep(g: Graph<Unit>, start: LtoMap, before: LtoMap, after: LtoMap, unit: Unit, lto: Lto, i: nat)
    requires unit in g && i < |g[unit]| && unit in start && start[unit] == lto
    requires Minimal(g, start, before) && MinimalFor(g, before, g[unit][i], lto, after)
    ensures Minimal(g, start, after)
  {
    forall s | Bound(g, s) && MapBelow(start, s) ensures MapBelow(after, s) {
      DemandFlows(g, s, unit, lto, i);
    }
  }

  lemma MinimalDone(g: Graph<Unit>, before: LtoMap, unit: Unit, parentLto: Lto, merged: Lto, after: LtoMap)
    requires FeasibleMap(before)
    requires merged == if unit in before then Merge(Transfer(unit, parentLto), before[unit]) else Transfer(unit, parentLto)
    requires Minimal(g, before[unit := merged], after)
    ensures MinimalFor(g, before, unit, parentLto, after)
  {
    forall s | Bound(g, s) && MapBelow(before, s) && Demands(unit, parentLto, s) ensures MapBelow(after, s) {
      if unit in before {
        TransferFeasible(unit, parentLto);
        MergeIsJoin(unit, Transfer(unit, parentLto), before[unit]);
      }
      assert MapBelow(before[unit := merged], s);
    }
  }

  lemma PropagatedDone(g: Graph<Unit>, before: LtoMap, unit: Unit, merged: Lto, after: LtoMap)
    requires unit in g && (unit in before ==> Below(before[unit], merged))
    requires Propagated(g, before[unit := merged], after)
    requires DemandsOfFirst(|g[unit]|, g[unit], merged, after)
    ensures Propagated(g, before, after)
  {
    forall u | u in before ensures Below(before[u], after[u]) {
      if u == unit {
        BelowTrans(before[u], merged, after[u]);
      }
    }
    forall u | u in after && (u in before ==> after[u] != before[u]) ensures Settled(g, after, u) {
    }
  }

  class Propagation {
    const graph: Graph<Unit>
    var lto: LtoMap

    constructor (graph: Graph<Unit>)
      ensures this.graph == graph && lto == map[]
    {
      this.graph := graph;
      lto := map[];
    }

    method Calculate(unit: Unit, parentLto: Lto)
      requires Closed(graph) && unit in graph
      requires lto.Keys <= graph.Keys && FeasibleMap(lto)
      modifies this
      ensures Propagated(graph, old(lto), lto)
      ensures Demands(unit, parentLto, lto)
      ensures MinimalFor(graph, old(lto), unit, parentLto, lto)
      decreases Headroom(graph, lto)
    {
      var own := Transfer(unit, parentLto);
      TransferFeasible(unit, parentLto);
      if unit in lto {
        MergeIsJoin(unit, own, lto[unit]);
        if Merge(own, lto[unit]) == lto[unit] {
          return;
        }
      }
      var merged := if unit in lto then Merge(own, lto[unit]) else own;
      HeadroomShrinks(graph, lto, unit, merged);
      lto := lto[unit := merged];
      ghost var start := lto;

      var deps := graph[unit];
      for i := 0 to |deps|
        invariant Propagated(graph, start, lto)
        invariant DemandsOfFirst(i, deps, merged, lto)
        invariant Minimal(graph, start, lto)
      {
        ghost var before := lto;
        HeadroomMonotone(graph, start, lto);
        Calculate(deps[i], merged);
        PropagatedTrans(graph, start, before, lto);
        DemandsStay(i, deps, merged, before, lto);
        MinimalStep(graph, start, before, lto, unit, merged, i);
      }
      PropagatedDone(graph, old(lto), unit, merged, lto);
      MinimalDone(graph, old(lto), unit, parentLto, merged, lto);
    }
  }

  lemma RootDemandsStay(roots: seq<Unit>, n: nat, m: LtoMap, m': LtoMap)
    requires MapBelow(m, m') && n <= |roots| && forall j | 0 <= j < n :: Demands(roots[j], RootLto(roots[j]), m)
    ensures forall j | 0 <= j < n :: Demands(roots[j], RootLto(roots[j]), m')
  {
    forall j | 0 <= j < n ensures Demands(roots[j], RootLto(roots[j]), m') {
      BelowTrans(Transfer(roots[j], RootLto(roots[j])), m[roots[j]], m'[roots[j]]);
    }
  }

  /** One pass over the roots computes the least assignment meeting every requirement. */
  method Generate(graph: Graph<Unit>, roots: seq<Unit>) returns (m: LtoMap)
    requires Closed(graph) && (forall i | 0 <= i < |roots| :: roots[i] in graph)
    ensures LeastSolution(graph, roots, m)
  {
    var state := new Propagation(graph);
    for i := 0 to |roots|
      invariant state.graph == graph
      invariant Propagated(graph, map[], state.lto)
      invariant forall j | 0 <= j < i :: Demands(roots[j], RootLto(roots[j]), state.lto)
      invariant forall s | Solves(graph, roots, s) :: MapBelow(state.lto, s)
    {
      ghost var before := state.lto;
      state.Calculate(roots[i], RootLto(roots[i]));
      PropagatedTrans(graph, map[], before, state.lto);
      RootDemandsStay(roots, i, before, state.lto);
      forall s | Solves(graph, roots, s) ensures MapBelow(state.lto, s) {
        assert Bound(graph, s) && Demands(roots[i], RootLto(roots[i]), s);
      }
    }
    m := state.lto;
  }
}
