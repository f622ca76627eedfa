/** What each unit carries, in terms of profiles, crate types and the values around it: the least map
    described without the rules that compute it. */
module LtoValues {
  import opened Units
  import opened Graphs
  import opened LtoPropagation
  import opened LtoSolution

  /** Compiled to something that is linked into nothing else. */
  predicate Standalone(u: Unit) {
    u.mode == Test || u.mode == Doctest ||
    match u.target.kind
    case LibTarget(kinds) => forall k | k in kinds :: k in {Bin, Staticlib, Cdylib}
    case ExampleLib(kinds) => forall k | k in kinds :: k in {Bin, Staticlib, Cdylib}
    case BinTarget => true
    case TestTarget => true
    case BenchTarget => true
    case ExampleBin => true
    case CustomBuild => true
  }

  /** A library for the target, which follows what is built on it. */
  predicate Follows(u: Unit) {
    !u.target.forHost && !Standalone(u)
  }

  function Kinds(u: Unit): seq<CrateType> {
    if u.target.kind.LibTarget? || u.target.kind.ExampleLib? then u.target.kind.crateTypes else []
  }

  /** One of the kinds is made of object code. */
  predicate MadeOfObjects(u: Unit) {
    exists k | k in Kinds(u) :: k in {Bin, Staticlib, Cdylib, Dylib, ProcMacro}
  }

  predicate OnlyDylib(u: Unit) {
    forall k | k in Kinds(u) :: k == Dylib
  }

  lemma KindsOfFollowing(u: Unit)
    requires Follows(u)
    ensures CrateTypes(u) == u.target.RustcCrateTypes() == Kinds(u) && !AllLtoTypes(u)
    ensures NeedsObject(CrateTypes(u)) <==> MadeOfObjects(u)
    ensures AllDylib(CrateTypes(u)) <==> OnlyDylib(u)
    ensures OnlyDylib(u) ==> MadeOfObjects(u)
  {
    assert Kinds(u) != [] && Kinds(u)[0] in Kinds(u);
  }

  lemma StandaloneIsConstant(u: Unit)
    ensures AllLtoTypes(u) <==> Standalone(u)
  {
    if !Standalone(u) {
      KindsOfNonStandalone(u);
    }
  }

  lemma KindsOfNonStandalone(u: Unit)
    requires !Standalone(u)
    ensures !AllLtoTypes(u)
  {
    assert CrateTypes(u) == Kinds(u);
    var k :| k in Kinds(u) && k !in {Bin, Staticlib, Cdylib};
  }

  /** A host unit carries object code; a standalone one what its profile says, whoever depends on it. */
  lemma StandaloneValue(g: Graph<Unit>, roots: seq<Unit>, m: LtoMap, u: Unit)
    requires LeastSolution(g, roots, m) && u in m && !Follows(u)
    ensures m[u] == if u.target.forHost then OnlyObject
                    else match u.lto
                         case LtoOff => Off
                         case LtoBool(on) => if on then Run(None) else OnlyObject
                         case LtoNamed(name) => Run(Some(name))
  {
    StandaloneIsConstant(u);
    assert Feasible(u, m[u]);
  }

  // ----- Units that follow -----

  /** A root's own wish: LTO is switched off for good, or not asked for, or asked for. */
  predicate RootOff(roots: seq<Unit>, u: Unit) { u in roots && u.lto.LtoOff? }

  predicate RootPlain(roots: seq<Unit>, u: Unit) { u in roots && u.lto == LtoBool(false) }

  predicate RootWants(roots: seq<Unit>, u: Unit) { u in roots && (u.lto.LtoNamed? || u.lto == LtoBool(true)) }

  ghost predicate ParentIs(g: Graph<Unit>, m: LtoMap, u: Unit, lto: Lto) {
    exists p | p in m :: Edge(g, p, u) && m[p] == lto
  }

  ghost predicate ParentRuns(g: Graph<Unit>, m: LtoMap, u: Unit) {
    exists p | p in m :: Edge(g, p, u) && m[p].Run?
  }

  /** What takes part in somebody's LTO: bitcode, with object code where a kind is made of it, and for dylibs object code alone. */
  function ForLto(u: Unit): Lto {
    if !MadeOfObjects(u) then OnlyBitcode else if OnlyDylib(u) then OnlyObject else ObjectAndBitcode
  }

  /** What a unit that follows has to produce for a root's own sake, and for a parent. */
  lemma RootOfFollowing(u: Unit)
    requires Follows(u)
    ensures Transfer(u, RootLto(u)) ==
      match u.lto
      case LtoOff => Off
      case LtoBool(on) => if on then ForLto(u) else OnlyObject
      case LtoNamed(_) => ForLto(u)
  {
    KindsOfFollowing(u);
  }

  lemma ParentOfFollowing(u: Unit, lto: Lto)
    requires Follows(u)
    ensures Transfer(u, lto) ==
      if lto.Run? || lto == OnlyBitcode then ForLto(u)
      else lto
  {
    KindsOfFollowing(u);
  }

  ghost predicate Asked(g: Graph<Unit>, roots: seq<Unit>, m: LtoMap, u: Unit) {
    RootWants(roots, u) || ParentRuns(g, m, u) || ParentIs(g, m, u, OnlyBitcode)
  }

  /** Which values are required of a unit that follows. */
  lemma RequiredOfFollowing(g: Graph<Unit>, roots: seq<Unit>, m: LtoMap, u: Unit)
    requires Follows(u)
    ensures Required(g, roots, m, u, Off) <==> RootOff(roots, u) || ParentIs(g, m, u, Off)
    ensures Required(g, roots, m, u, OnlyObject) <==>
      RootPlain(roots, u) || ParentIs(g, m, u, OnlyObject) || (OnlyDylib(u) && Asked(g, roots, m, u))
    ensures Required(g, roots, m, u, OnlyBitcode) <==> !MadeOfObjects(u) && Asked(g, roots, m, u)
    ensures Required(g, roots, m, u, ObjectAndBitcode) <==>
      ParentIs(g, m, u, ObjectAndBitcode) || (MadeOfObjects(u) && !OnlyDylib(u) && Asked(g, roots, m, u))
    ensures !Required(g, roots, m, u, Run(None)) && forall s :: !Required(g, roots, m, u, Run(Some(s)))
  {
    KindsOfFollowing(u);
    RootOfFollowing(u);
    forall lto ensures Transfer(u, lto) == if lto.Run? || lto == OnlyBitcode then ForLto(u) else lto {
      ParentOfFollowing(u, lto);
    }
  }

  /** A unit that follows is off exactly for a root's own profile or a parent that is off; otherwise it
      carries object code exactly if one of its kinds is made of it, its own profile as a root leaves
      LTO alone, or a parent carries it, and bitcode exactly if a parent carries both, or a kind other
      than dylib can use it and it is asked for as a root or a parent runs LTO or carries bitcode. */
  lemma FollowingValue(g: Graph<Unit>, roots: seq<Unit>, m: LtoMap, u: Unit)
    requires LeastSolution(g, roots, m) && u in m && Follows(u)
    ensures !m[u].Run?
    ensures m[u] == Off <==> RootOff(roots, u) || ParentIs(g, m, u, Off)
    ensures m[u] != Off ==>
      (m[u].HasObject() <==>
         MadeOfObjects(u) || RootPlain(roots, u) || ParentIs(g, m, u, OnlyObject) || ParentIs(g, m, u, ObjectAndBitcode))
    ensures m[u] != Off ==>
      (m[u].HasBitcode() <==>
         || ParentIs(g, m, u, ObjectAndBitcode)
         || (!OnlyDylib(u) && (RootWants(roots, u) || ParentRuns(g, m, u) || ParentIs(g, m, u, OnlyBitcode))))
  {
    KindsOfFollowing(u);
    RequiredOfFollowing(g, roots, m, u);
    LeastIsJoin(g, roots, m, u);
    JoinOfFollowing(g, roots, m, u);
  }

  /** The join of what is required, read off which values are. */
  lemma JoinOfFollowing(g: Graph<Unit>, roots: seq<Unit>, m: LtoMap, u: Unit)
    requires u in m && JoinOfRequired(g, roots, m, u, m[u])
    requires !Required(g, roots, m, u, Run(None)) && forall s :: !Required(g, roots, m, u, Run(Some(s)))
    ensures !m[u].Run?
    ensures m[u] == Off <==> Required(g, roots, m, u, Off)
    ensures m[u] != Off ==>
      (m[u].HasObject() <==> Required(g, roots, m, u, OnlyObject) || Required(g, roots, m, u, ObjectAndBitcode))
    ensures m[u] != Off ==>
      (m[u].HasBitcode() <==> Required(g, roots, m, u, OnlyBitcode) || Required(g, roots, m, u, ObjectAndBitcode))
  {
    var x :| Required(g, roots, m, u, x);
    assert forall o: Option<string> :: o.None? || o == Some(o.value);
    if !Required(g, roots, m, u, Off) {
      assert Below(m[u], ObjectAndBitcode);
    }
    if !Required(g, roots, m, u, Off) && !Required(g, roots, m, u, ObjectAndBitcode) && !Required(g, roots, m, u, OnlyObject) {
      assert Below(m[u], OnlyBitcode);
    }
    if !Required(g, roots, m, u, Off) && !Required(g, roots, m, u, ObjectAndBitcode) && !Required(g, roots, m, u, OnlyBitcode) {
      assert Below(m[u], OnlyObject);
    }
  }

  /** Where no profile in reach asks for or against LTO, every unit is built to object code. */
  lemma PlainBuild(g: Graph<Unit>, roots: seq<Unit>, m: LtoMap)
    requires LeastSolution(g, roots, m) && forall u | u in m :: u.lto == LtoBool(false)
    ensures forall u | u in m :: m[u] == OnlyObject
  {
    var s := map u | u in m :: OnlyObject;
    forall u | u in m ensures Feasible(u, OnlyObject) {
      StandaloneIsConstant(u);
      if !Follows(u) {
        StandaloneValue(g, roots, m, u);
        assert Feasible(u, m[u]);
      }
    }
    forall u, lto | u in m && lto == OnlyObject ensures Transfer(u, lto) == OnlyObject {
      TransferFeasible(u, lto);
    }
    assert Solves(g, roots, s);
    assert MapBelow(m, s);
  }

  // ----- How far `off` reaches -----

  /** Off by its own profile. */
  predicate OffByProfile(roots: seq<Unit>, u: Unit) {
    u.lto.LtoOff? && !u.target.forHost && (Standalone(u) || u in roots)
  }

  /** A walk from a unit that is off by its own profile down through units that follow. */
  ghost predicate OffWalk(g: Graph<Unit>, roots: seq<Unit>, m: LtoMap, p: seq<Unit>, u: Unit) {
    && p != [] && p[0] in m && OffByProfile(roots, p[0]) && IsPath(g, p) && p[|p| - 1] == u
    && forall i | 0 < i < |p| :: Follows(p[i])
  }

  ghost predicate OffReaches(g: Graph<Unit>, roots: seq<Unit>, m: LtoMap, u: Unit) {
    exists p :: OffWalk(g, roots, m, p, u)
  }

  lemma {:induction false} WalkIsOff(g: Graph<Unit>, roots: seq<Unit>, m: LtoMap, p: seq<Unit>, u: Unit)
    requires LeastSolution(g, roots, m) && OffWalk(g, roots, m, p, u)
    ensures u in m && m[u] == Off
    decreases |p|
  {
    if |p| == 1 {
      if Follows(u) {
        FollowingValue(g, roots, m, u);
      } else {
        StandaloneValue(g, roots, m, u);
      }
    } else {
      var q := p[..|p| - 1];
      forall i | 0 <= i < |q| - 1 ensures Edge(g, q[i], q[i + 1]) {
        assert Edge(g, p[i], p[i + 1]);
      }
      WalkIsOff(g, roots, m, q, q[|q| - 1]);
      assert Edge(g, p[|p| - 2], p[|p| - 2 + 1]);
      var i :| 0 <= i < |g[q[|q| - 1]]| && g[q[|q| - 1]][i] == u;
      assert Settled(g, m, q[|q| - 1]);
      FollowingValue(g, roots, m, u);
    }
  }

  /** One step further. */
  lemma OffWalkStep(g: Graph<Unit>, roots: seq<Unit>, m: LtoMap, u: Unit, d: Unit)
    requires OffReaches(g, roots, m, u) && Edge(g, u, d) && Follows(d)
    ensures OffReaches(g, roots, m, d)
  {
    var p :| OffWalk(g, roots, m, p, u);
    var q := p + [d];
    forall i | 0 <= i < |q| - 1 ensures Edge(g, q[i], q[i + 1]) {
      assert i < |p| - 1 ==> Edge(g, p[i], p[i + 1]);
    }
    assert OffWalk(g, roots, m, q, d);
  }

  /** The map with `Off` replaced wherever no such walk leads. */
  ghost function Lifted(g: Graph<Unit>, roots: seq<Unit>, m: LtoMap): LtoMap {
    map u | u in m :: if m[u] == Off && !OffReaches(g, roots, m, u) then ObjectAndBitcode else m[u]
  }

  lemma LiftedIsFeasible(g: Graph<Unit>, roots: seq<Unit>, m: LtoMap, u: Unit)
    requires LeastSolution(g, roots, m) && u in m
    ensures Feasible(u, Lifted(g, roots, m)[u])
  {
    StandaloneIsConstant(u);
    if !Follows(u) && m[u] == Off {
      StandaloneValue(g, roots, m, u);
      assert OffWalk(g, roots, m, [u], u);
    }
  }

  lemma LiftedRoot(g: Graph<Unit>, roots: seq<Unit>, m: LtoMap, i: nat)
    requires LeastSolution(g, roots, m) && i < |roots|
    ensures Demands(roots[i], RootLto(roots[i]), Lifted(g, roots, m))
  {
    var r := roots[i];
    assert Demands(r, RootLto(r), m);
    if m[r] == Off && !OffReaches(g, roots, m, r) {
      if r.lto.LtoOff? && !r.target.forHost {
        assert OffWalk(g, roots, m, [r], r);
      }
      LiftedIsFeasible(g, roots, m, r);
      StandaloneIsConstant(r);
      TransferFeasible(r, RootLto(r));
    }
  }

  lemma LiftedEdge(g: Graph<Unit>, roots: seq<Unit>, m: LtoMap, u: Unit, i: nat)
    requires LeastSolution(g, roots, m) && u in m && i < |g[u]|
    ensures g[u][i] in m && Demands(g[u][i], Lifted(g, roots, m)[u], Lifted(g, roots, m))
  {
    var d, s := g[u][i], Lifted(g, roots, m);
    assert Settled(g, m, u) && Demands(d, m[u], m);
    StandaloneIsConstant(d);
    LiftedIsFeasible(g, roots, m, d);
    TransferFeasible(d, s[u]);
    if Follows(d) && s[d] != m[d] && s[u] == Off {
      OffWalkStep(g, roots, m, u, d);
    }
  }

  /** LTO is off at a unit exactly if a profile that says so reaches it: its own, or that of a
      standalone unit or a root from which a chain of units that follow leads to it. */
  lemma OffExactly(g: Graph<Unit>, roots: seq<Unit>, m: LtoMap, u: Unit)
    requires LeastSolution(g, roots, m) && u in m
    ensures m[u] == Off <==> OffReaches(g, roots, m, u)
  {
    if p :| OffWalk(g, roots, m, p, u) {
      WalkIsOff(g, roots, m, p, u);
    }
    var s := Lifted(g, roots, m);
    forall i | 0 <= i < |roots| ensures Demands(roots[i], RootLto(roots[i]), s) {
      LiftedRoot(g, roots, m, i);
    }
    forall v | v in s ensures Settled(g, s, v) && Feasible(v, s[v]) {
      LiftedIsFeasible(g, roots, m, v);
      forall i | 0 <= i < |g[v]| ensures Demands(g[v][i], s[v], s) {
        LiftedEdge(g, roots, m, v, i);
      }
    }
    assert Solves(g, roots, s);
    assert MapBelow(m, s);
  }
}
