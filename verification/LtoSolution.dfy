/** What the map computed by `Propagation.Generate` means: it solves the dataflow equations
    exactly, on the reachable units, independently of traversal order, and what each unit
    produces serves every unit that depends on it. */
module LtoSolution {
  import opened Units
  import opened Graphs
  import opened LtoPropagation

  // ----- Domain: exactly the reachable units -----

  lemma SolutionCoversReachable(g: Graph<Unit>, roots: seq<Unit>, m: LtoMap, u: Unit)
    requires Solves(g, roots, m) && ReachableFrom(g, roots, u)
    ensures u in m
  {
    var r :| r in roots && Reaches(g, r, u);
    ReachableStaysIn(g, r, u, iset x | x in m);
  }

  /** Dropping what is not reachable leaves a solution. */
  lemma ReachablePartSolves(g: Graph<Unit>, roots: seq<Unit>, m: LtoMap) returns (s: LtoMap)
    requires Solves(g, roots, m)
    ensures s == (map u | u in m && ReachableFrom(g, roots, u) :: m[u])
    ensures Solves(g, roots, s)
  {
    s := map u | u in m && ReachableFrom(g, roots, u) :: m[u];
    forall i | 0 <= i < |roots| ensures roots[i] in s {
      ReachesSelf(g, roots[i]);
    }
    forall u | u in s ensures Settled(g, s, u) {
      forall i | 0 <= i < |g[u]| ensures g[u][i] in s {
        var r :| r in roots && Reaches(g, r, u);
        ReachesStep(g, r, u, g[u][i]);
      }
    }
  }

  lemma LeastDomain(g: Graph<Unit>, roots: seq<Unit>, m: LtoMap)
    requires LeastSolution(g, roots, m)
    ensures forall u :: u in m <==> ReachableFrom(g, roots, u)
  {
    var s := ReachablePartSolves(g, roots, m);
    forall u | ReachableFrom(g, roots, u) ensures u in m {
      SolutionCoversReachable(g, roots, m, u);
    }
  }

  // ----- Values: exactly the join of what is required -----

  lemma RequiredIsFeasible(g: Graph<Unit>, roots: seq<Unit>, m: LtoMap, u: Unit, x: Lto)
    requires Required(g, roots, m, u, x)
    ensures Feasible(u, x)
  {
    if u in roots && x == Transfer(u, RootLto(u)) {
      TransferFeasible(u, RootLto(u));
    } else {
      var p :| p in m && Edge(g, p, u) && x == Transfer(u, m[p]);
      TransferFeasible(u, m[p]);
    }
  }

  lemma RequiredIsBelow(g: Graph<Unit>, roots: seq<Unit>, m: LtoMap, u: Unit, x: Lto)
    requires Solves(g, roots, m) && Required(g, roots, m, u, x)
    ensures u in m && Below(x, m[u])
  {}

  /** A non-empty family of values one unit can carry has a join: the lattice has three levels. */
  lemma JoinExists(g: Graph<Unit>, roots: seq<Unit>, m: LtoMap, u: Unit, some: Lto) returns (j: Lto)
    requires Required(g, roots, m, u, some)
    ensures JoinOfRequired(g, roots, m, u, j) && Feasible(u, j)
  {
    forall x | Required(g, roots, m, u, x) ensures Feasible(u, x) {
      RequiredIsFeasible(g, roots, m, u, x);
    }
    if Required(g, roots, m, u, Off) {
      j := Off;
    } else if Required(g, roots, m, u, ObjectAndBitcode)
      || (Required(g, roots, m, u, OnlyObject) && Required(g, roots, m, u, OnlyBitcode)) {
      j := ObjectAndBitcode;
    } else {
      j := some;
    }
  }

  /** Something is required of every unit in the least solution. */
  lemma LeastIsDemanded(g: Graph<Unit>, roots: seq<Unit>, m: LtoMap, u: Unit)
    requires LeastSolution(g, roots, m) && u in m
    ensures exists x :: Required(g, roots, m, u, x)
  {
    if !exists x :: Required(g, roots, m, u, x) {
      assert !Required(g, roots, m, u, Transfer(u, RootLto(u)));
      forall p | p in m ensures !Edge(g, p, u) {
        assert !Required(g, roots, m, u, Transfer(u, m[p]));
      }
      var s := m - {u};
      forall p | p in s ensures Settled(g, s, p) {
        forall i | 0 <= i < |g[p]| ensures g[p][i] != u {
          assert !Edge(g, p, u);
        }
      }
      assert Solves(g, roots, s);
      assert false;
    }
  }

  /** Lowering one unit to the join of what is required of it leaves a solution. */
  lemma LoweredSolves(g: Graph<Unit>, roots: seq<Unit>, m: LtoMap, u: Unit, j: Lto)
    requires Solves(g, roots, m) && u in m
    requires JoinOfRequired(g, roots, m, u, j) && Feasible(u, j)
    ensures Solves(g, roots, m[u := j])
  {
    var s := m[u := j];
    forall x | Required(g, roots, m, u, x) ensures Below(x, m[u]) {
      RequiredIsBelow(g, roots, m, u, x);
    }
    assert Below(j, m[u]);
    forall i | 0 <= i < |roots| ensures Demands(roots[i], RootLto(roots[i]), s) {
      if roots[i] == u {
        assert Required(g, roots, m, u, Transfer(u, RootLto(u)));
      }
    }
    forall p | p in s ensures Settled(g, s, p) {
      forall i | 0 <= i < |g[p]| ensures Demands(g[p][i], s[p], s) {
        var d := g[p][i];
        TransferMonotone(d, s[p], m[p]);
        if d == u {
          assert Edge(g, p, u) && Required(g, roots, m, u, Transfer(u, m[p]));
          BelowTrans(Transfer(u, s[p]), Transfer(u, m[p]), j);
        } else {
          BelowTrans(Transfer(d, s[p]), Transfer(d, m[p]), m[d]);
        }
      }
    }
  }

  lemma LeastIsJoin(g: Graph<Unit>, roots: seq<Unit>, m: LtoMap, u: Unit)
    requires LeastSolution(g, roots, m) && u in m
    ensures JoinOfRequired(g, roots, m, u, m[u])
  {
    LeastIsDemanded(g, roots, m, u);
    var x :| Required(g, roots, m, u, x);
    var j := JoinExists(g, roots, m, u, x);
    LoweredSolves(g, roots, m, u, j);
    assert MapBelow(m, m[u := j]);
    forall x | Required(g, roots, m, u, x) ensures Below(x, m[u]) {
      RequiredIsBelow(g, roots, m, u, x);
    }
    assert Below(m[u], j) && Below(j, m[u]);
  }

  /** The least solution satisfies the equations, on any closed graph, cyclic or not. */
  lemma LeastIsExact(g: Graph<Unit>, roots: seq<Unit>, m: LtoMap)
    requires LeastSolution(g, roots, m)
    ensures ExactSolution(g, roots, m)
  {
    LeastDomain(g, roots, m);
    forall u | u in m ensures JoinOfRequired(g, roots, m, u, m[u]) {
      LeastIsJoin(g, roots, m, u);
    }
  }

  // ----- Uniqueness -----

  /** Two least solutions of the same requirements coincide: neither the order of the roots
      nor the order of any dependency list matters. */
  lemma OrderIrrelevant(g: Graph<Unit>, roots: seq<Unit>, m: LtoMap, g': Graph<Unit>, roots': seq<Unit>, m': LtoMap)
    requires LeastSolution(g, roots, m) && LeastSolution(g', roots', m')
    requires g.Keys == g'.Keys && (forall u, d :: Edge(g, u, d) <==> Edge(g', u, d))
    requires forall r :: r in roots <==> r in roots'
    ensures m == m'
  {
    SolvesIgnoresOrder(g, roots, g', roots', m);
    SolvesIgnoresOrder(g', roots', g, roots, m');
    assert MapBelow(m, m') && MapBelow(m', m);
    forall u | u in m ensures m[u] == m'[u] {
      assert Below(m[u], m'[u]) && Below(m'[u], m[u]);
    }
  }

  lemma SolvesIgnoresOrder(g: Graph<Unit>, roots: seq<Unit>, g': Graph<Unit>, roots': seq<Unit>, m: LtoMap)
    requires Solves(g, roots, m)
    requires g.Keys == g'.Keys && (forall u, d :: Edge(g, u, d) <==> Edge(g', u, d))
    requires forall r :: r in roots <==> r in roots'
    ensures Solves(g', roots', m)
  {
    forall i | 0 <= i < |roots'| ensures Demands(roots'[i], RootLto(roots'[i]), m) {
      assert roots'[i] in roots;
      var k :| 0 <= k < |roots| && roots[k] == roots'[i];
    }
    forall u | u in m ensures Settled(g', m, u) {
      forall i | 0 <= i < |g'[u]| ensures Demands(g'[u][i], m[u], m) {
        assert Edge(g', u, g'[u][i]) && Edge(g, u, g'[u][i]);
        var k :| 0 <= k < |g[u]| && g[u][k] == g'[u][i];
        assert Settled(g, m, u);
      }
    }
  }

  lemma {:induction false} AgreesFrom(g: Graph<Unit>, roots: seq<Unit>, rank: map<Unit, nat>, top: nat,
                                      m: LtoMap, n: LtoMap, u: Unit)
    requires Ranked(g, rank) && (forall v | v in g :: rank[v] <= top)
    requires m.Keys == n.Keys <= g.Keys && u in m
    requires ExactSolution(g, roots, m) && ExactSolution(g, roots, n)
    ensures m[u] == n[u]
    decreases top - rank[u]
  {
    forall p | p in m && Edge(g, p, u) ensures m[p] == n[p] {
      var i :| 0 <= i < |g[p]| && g[p][i] == u;
      AgreesFrom(g, roots, rank, top, m, n, p);
    }
    SameJoin(g, roots, m, n, u);
  }

  lemma SameJoin(g: Graph<Unit>, roots: seq<Unit>, m: LtoMap, n: LtoMap, u: Unit)
    requires m.Keys == n.Keys && u in m
    requires forall p | p in m && Edge(g, p, u) :: m[p] == n[p]
    requires JoinOfRequired(g, roots, m, u, m[u]) && JoinOfRequired(g, roots, n, u, n[u])
    ensures m[u] == n[u]
  {
    forall x ensures Required(g, roots, m, u, x) <==> Required(g, roots, n, u, x) {}
    assert Below(m[u], n[u]) && Below(n[u], m[u]);
  }

  /** On an acyclic unit graph the equations have one solution. */
  lemma UniqueOnAcyclic(g: Graph<Unit>, roots: seq<Unit>, m: LtoMap, n: LtoMap)
    requires Closed(g) && Acyclic(g) && (forall r | r in roots :: r in g)
    requires ExactSolution(g, roots, m) && ExactSolution(g, roots, n)
    requires m.Keys <= g.Keys
    ensures m == n
  {
    assert m.Keys == n.Keys by {
      assert forall u :: u in m <==> u in n;
    }
    var rank := AcyclicHasRank(g);
    var top := RankIsBounded(g.Keys, rank);
    forall u | u in m ensures m[u] == n[u] {
      AgreesFrom(g, roots, rank, top, m, n, u);
    }
  }

  // ----- What the values guarantee -----

  ghost predicate NoProfileOff(g: Graph<Unit>) {
    forall u | u in g :: !u.lto.LtoOff?
  }

  /** `Off` only ever comes from a profile that says so. */
  lemma OffComesFromProfiles(g: Graph<Unit>, roots: seq<Unit>, m: LtoMap)
    requires LeastSolution(g, roots, m) && NoProfileOff(g) && (forall r | r in roots :: r in g)
    ensures forall u | u in m :: m[u] != Off
  {
    var s := Raised(m);
    forall i | 0 <= i < |roots| ensures Demands(roots[i], RootLto(roots[i]), s) {
      RaisedRoot(roots[i], m);
    }
    forall u | u in s ensures Settled(g, s, u) {
      forall i | 0 <= i < |g[u]| ensures Demands(g[u][i], s[u], s) {
        RaisedEdge(u, g[u][i], m);
      }
    }
    assert Solves(g, roots, s);
    assert MapBelow(m, s);
  }

  /** The map with every `Off` replaced. */
  ghost function Raised(m: LtoMap): LtoMap {
    map u | u in m :: if m[u] == Off then ObjectAndBitcode else m[u]
  }

  lemma RaisedRoot(r: Unit, m: LtoMap)
    requires Demands(r, RootLto(r), m) && !r.lto.LtoOff?
    ensures Demands(r, RootLto(r), Raised(m))
  {}

  lemma RaisedEdge(u: Unit, d: Unit, m: LtoMap)
    requires u in m && Demands(d, m[u], m) && !u.lto.LtoOff? && !d.lto.LtoOff?
    ensures Demands(d, Raised(m)[u], Raised(m))
  {}

  /** With no profile saying `Off`: a dependency that follows its parents carries object code
      if its parent does, and bitcode if its parent runs LTO or carries bitcode, unless all its
      crate types are dylib; and a unit that needs object code has it. */
  lemma DependencyServesParent(g: Graph<Unit>, roots: seq<Unit>, m: LtoMap, u: Unit, d: Unit)
    requires LeastSolution(g, roots, m) && NoProfileOff(g) && (forall r | r in roots :: r in g)
    requires u in m && Edge(g, u, d) && !IsConstant(d)
    ensures d in m
    ensures m[u].HasObject() ==> m[d].HasObject()
    ensures (m[u].Run? || m[u].HasBitcode()) && !AllDylib(CrateTypes(d)) ==> m[d].HasBitcode()
    ensures NeedsObject(CrateTypes(d)) ==> m[d].HasObject()
  {
    OffComesFromProfiles(g, roots, m);
    var i :| 0 <= i < |g[u]| && g[u][i] == d;
    assert Demands(d, m[u], m);
    assert NeedsObject(CrateTypes(d)) || !AllDylib(CrateTypes(d)) by {
      var k :| k in CrateTypes(d) && !k.CanLto();
    }
  }

  /** A root that may be linked into something carries object code if its profile leaves LTO alone
      or its types need it, and bitcode otherwise unless all its types are dylib. */
  lemma RootIsServed(g: Graph<Unit>, roots: seq<Unit>, m: LtoMap, r: Unit)
    requires LeastSolution(g, roots, m) && NoProfileOff(g) && (forall x | x in roots :: x in g)
    requires r in roots && !IsConstant(r)
    ensures r in m
    ensures r.lto == LtoBool(false) || NeedsObject(CrateTypes(r)) ==> m[r].HasObject()
    ensures r.lto != LtoBool(false) && !AllDylib(CrateTypes(r)) ==> m[r].HasBitcode()
  {
    OffComesFromProfiles(g, roots, m);
    var i :| 0 <= i < |roots| && roots[i] == r;
    assert Demands(roots[i], RootLto(roots[i]), m);
  }

  /** LTO is run exactly where a unit for the target, all of whose crate types allow it, has a
      profile that asks for it; host units always get object code only. */
  lemma RunExactly(g: Graph<Unit>, roots: seq<Unit>, m: LtoMap, u: Unit)
    requires LeastSolution(g, roots, m) && u in m
    ensures m[u].Run? <==> !u.target.forHost && AllLtoTypes(u) && (u.lto.LtoNamed? || u.lto == LtoBool(true))
    ensures m[u].Run? ==> m[u].flag == if u.lto.LtoNamed? then Some(u.lto.name) else None
    ensures u.target.forHost ==> m[u] == OnlyObject
  {
    LeastIsJoin(g, roots, m, u);
    var x :| Required(g, roots, m, u, x);
    RequiredIsFeasible(g, roots, m, u, x);
    assert Below(x, m[u]);
  }

  /** The value of a unit that follows its parents stays below whatever bounds their requirements. */
  lemma BoundedByParents(g: Graph<Unit>, roots: seq<Unit>, m: LtoMap, d: Unit, bound: Lto)
    requires LeastSolution(g, roots, m) && d in m && d !in roots
    requires forall p | p in m && Edge(g, p, d) :: Below(Transfer(d, m[p]), bound)
    ensures Below(m[d], bound)
  {
    LeastIsJoin(g, roots, m, d);
  }

  /** The converse of `DependencyServesParent`: a dependency carries bitcode only for a parent that
      runs LTO or carries bitcode, and object code only for one that does or for its own types. */
  lemma NothingInVain(g: Graph<Unit>, roots: seq<Unit>, m: LtoMap, d: Unit)
    requires LeastSolution(g, roots, m) && NoProfileOff(g) && (forall r | r in roots :: r in g)
    requires d in m && d !in roots && !IsConstant(d)
    ensures m[d].HasBitcode() ==> exists p | p in m && Edge(g, p, d) :: m[p].Run? || m[p].HasBitcode()
    ensures m[d].HasObject() && !NeedsObject(CrateTypes(d)) ==> exists p | p in m && Edge(g, p, d) :: m[p].HasObject()
  {
    OffComesFromProfiles(g, roots, m);
    if !exists p | p in m && Edge(g, p, d) :: m[p].Run? || m[p].HasBitcode() {
      BoundedByParents(g, roots, m, d, OnlyObject);
    }
    if !NeedsObject(CrateTypes(d)) && !exists p | p in m && Edge(g, p, d) :: m[p].HasObject() {
      BoundedByParents(g, roots, m, d, OnlyBitcode);
    }
  }
}
