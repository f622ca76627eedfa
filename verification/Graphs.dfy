/** Finite directed graphs given by ordered adjacency lists, the shape of Cargo's
    `UnitGraph`: paths, reachability, cycles and topological ranks. */
module Graphs {

  type Graph<V> = map<V, seq<V>>

  /** Every dependency of a key is a key. */
  ghost predicate Closed<V>(g: Graph<V>) {
    forall u, i | u in g && 0 <= i < |g[u]| :: g[u][i] in g
  }

  predicate Edge<V(==)>(g: Graph<V>, u: V, d: V) {
    u in g && d in g[u]
  }

  /** A non-empty walk along the edges of `g`. */
  ghost predicate IsPath<V>(g: Graph<V>, p: seq<V>) {
    && p != []
    && forall i | 0 <= i < |p| - 1 :: Edge(g, p[i], p[i + 1])
  }

  ghost predicate PathBetween<V>(g: Graph<V>, p: seq<V>, u: V, v: V) {
    IsPath(g, p) && p[0] == u && p[|p| - 1] == v
  }

  ghost predicate Reaches<V(!new)>(g: Graph<V>, u: V, v: V) {
    exists p :: PathBetween(g, p, u, v)
  }

  ghost predicate ReachableFrom<V(!new)>(g: Graph<V>, roots: seq<V>, v: V) {
    exists r | r in roots :: Reaches(g, r, v)
  }

  /** No walk of at least one step returns to where it started. */
  ghost predicate Acyclic<V(!new)>(g: Graph<V>) {
    forall p | IsPath(g, p) && |p| >= 2 :: p[0] != p[|p| - 1]
  }

  /** A topological rank: every edge goes strictly down. */
  ghost predicate Ranked<V>(g: Graph<V>, rank: map<V, nat>) {
    && g.Keys <= rank.Keys
    && forall u, i | u in g && 0 <= i < |g[u]| :: g[u][i] in rank && rank[g[u][i]] < rank[u]
  }

  lemma ReachesSelf<V(!new)>(g: Graph<V>, u: V)
    ensures Reaches(g, u, u)
  {
    assert PathBetween(g, [u], u, u);
  }

  lemma ReachesStep<V(!new)>(g: Graph<V>, u: V, v: V, w: V)
    requires Reaches(g, u, v) && Edge(g, v, w)
    ensures Reaches(g, u, w)
  {
    var p :| PathBetween(g, p, u, v);
    assert PathBetween(g, p + [w], u, w);
  }

  lemma ReachesTrans<V(!new)>(g: Graph<V>, u: V, v: V, w: V)
    requires Reaches(g, u, v) && Reaches(g, v, w)
    ensures Reaches(g, u, w)
  {
    var p :| PathBetween(g, p, u, v);
    var q :| PathBetween(g, q, v, w);
    assert PathBetween(g, p + q[1..], u, w);
  }

  /** A set that holds the start of a path and is closed under edges holds all of it. */
  lemma {:induction false} PathStaysIn<V>(g: Graph<V>, p: seq<V>, s: iset<V>)
    requires IsPath(g, p) && p[0] in s
    requires forall u, d | u in s && Edge(g, u, d) :: d in s
    ensures forall i | 0 <= i < |p| :: p[i] in s
  {
    if |p| > 1 {
      assert Edge(g, p[0], p[0 + 1]);
      assert IsPath(g, p[1..]) by {
        forall i | 0 <= i < |p[1..]| - 1 ensures Edge(g, p[1..][i], p[1..][i + 1]) {
          assert Edge(g, p[i + 1], p[i + 1 + 1]);
        }
      }
      PathStaysIn(g, p[1..], s);
      assert forall i | 1 <= i < |p| :: p[i] == p[1..][i - 1];
    }
  }

  lemma ReachableStaysIn<V(!new)>(g: Graph<V>, u: V, v: V, s: iset<V>)
    requires Reaches(g, u, v) && u in s
    requires forall x, d | x in s && Edge(g, x, d) :: d in s
    ensures v in s
  {
    var p :| PathBetween(g, p, u, v);
    PathStaysIn(g, p, s);
  }

  /** Ranks only go down along a path. */
  lemma {:induction false} RankFallsAlong<V>(g: Graph<V>, rank: map<V, nat>, p: seq<V>)
    requires Ranked(g, rank) && IsPath(g, p) && |p| >= 2
    ensures p[0] in rank && p[|p| - 1] in rank && rank[p[|p| - 1]] < rank[p[0]]
  {
    var q := p[..|p| - 1];
    assert Edge(g, p[|p| - 2], p[|p| - 2 + 1]);
    if |q| >= 2 {
      assert IsPath(g, q) by {
        forall i | 0 <= i < |q| - 1 ensures Edge(g, q[i], q[i + 1]) {
          assert Edge(g, p[i], p[i + 1]);
        }
      }
      RankFallsAlong(g, rank, q);
    }
  }

  lemma RankedIsAcyclic<V(!new)>(g: Graph<V>, rank: map<V, nat>)
    requires Ranked(g, rank)
    ensures Acyclic(g)
  {
    forall p | IsPath(g, p) && |p| >= 2 ensures p[0] != p[|p| - 1] {
      RankFallsAlong(g, rank, p);
    }
  }

  /** Somewhere on a closed walk a rank does not fall. */
  lemma {:induction false} WalkFalls<V>(rank: map<V, nat>, p: seq<V>)
    requires |p| >= 2 && (forall i | 0 <= i < |p| :: p[i] in rank)
    requires forall i | 0 <= i < |p| - 1 :: rank[p[i + 1]] < rank[p[i]]
    ensures rank[p[|p| - 1]] < rank[p[0]]
  {
    if |p| > 2 {
      var q := p[..|p| - 1];
      forall i | 0 <= i < |q| - 1 ensures rank[q[i + 1]] < rank[q[i]] {
        assert q[i] == p[i] && q[i + 1] == p[i + 1];
      }
      WalkFalls(rank, q);
      assert rank[p[|p| - 2 + 1]] < rank[p[|p| - 2]];
    }
  }

  lemma PathPart<V>(g: Graph<V>, p: seq<V>, i: nat, j: nat)
    requires IsPath(g, p) && i < j <= |p|
    ensures IsPath(g, p[i..j])
  {
    forall k | 0 <= k < j - i - 1 ensures Edge(g, p[i..j][k], p[i..j][k + 1]) {
      assert Edge(g, p[i + k], p[i + k + 1]);
    }
  }

  /** Each edge of a closed walk can be walked back around. */
  lemma BackAround<V(!new)>(g: Graph<V>, p: seq<V>, i: nat)
    requires IsPath(g, p) && i + 1 < |p| && p[0] == p[|p| - 1]
    ensures Reaches(g, p[i + 1], p[i])
  {
    PathPart(g, p, i + 1, |p|);
    PathPart(g, p, 0, i + 1);
    assert PathBetween(g, p[i + 1..|p|], p[i + 1], p[|p| - 1]);
    assert PathBetween(g, p[0..i + 1], p[0], p[i]);
    ReachesTrans(g, p[i + 1], p[0], p[i]);
  }

  /** A graph is acyclic exactly if none of the edges in question can be walked back, where every
      other edge goes down in the rank. */
  lemma AcyclicUpTo<V(!new)>(g: Graph<V>, rank: map<V, nat>, risky: iset<(V, V)>)
    requires Closed(g) && g.Keys <= rank.Keys
    requires forall u, d | Edge(g, u, d) && (u, d) !in risky :: rank[d] < rank[u]
    ensures Acyclic(g) <==> forall u, d | Edge(g, u, d) && (u, d) in risky :: !Reaches(g, d, u)
  {
    forall u, d | Edge(g, u, d) && Reaches(g, d, u) ensures !Acyclic(g) {
      var p :| PathBetween(g, p, d, u);
      var c := [u] + p;
      assert forall i | 0 <= i < |p| - 1 :: Edge(g, p[i], p[i + 1]);
      assert forall i | 0 <= i < |c| - 1 :: c[i + 1] == p[i] && (i > 0 ==> c[i] == p[i - 1]);
      assert IsPath(g, c);
    }
    if p :| IsPath(g, p) && |p| >= 2 && p[0] == p[|p| - 1] {
      var i := RiskyStep(g, rank, risky, p);
      BackAround(g, p, i);
    }
  }

  lemma RiskyStep<V(!new)>(g: Graph<V>, rank: map<V, nat>, risky: iset<(V, V)>, p: seq<V>) returns (i: nat)
    requires Closed(g) && g.Keys <= rank.Keys && IsPath(g, p) && |p| >= 2 && p[0] == p[|p| - 1]
    requires forall u, d | Edge(g, u, d) && (u, d) !in risky :: rank[d] < rank[u]
    ensures i + 1 < |p| && Edge(g, p[i], p[i + 1]) && (p[i], p[i + 1]) in risky
  {
    forall k | 0 <= k < |p| ensures p[k] in rank {
      if k < |p| - 1 {
        assert Edge(g, p[k], p[k + 1]);
      } else {
        assert Edge(g, p[0], p[0 + 1]);
      }
    }
    if forall k | 0 <= k < |p| - 1 :: rank[p[k + 1]] < rank[p[k]] {
      WalkFalls(rank, p);
    }
    var k :| 0 <= k < |p| - 1 && rank[p[k + 1]] >= rank[p[k]];
    i := k;
    assert Edge(g, p[k], p[k + 1]);
  }

  /** Pigeonhole: a sequence over `s` that is longer than `s` repeats an element. */
  lemma {:induction false} Pigeonhole<V>(p: seq<V>, s: set<V>) returns (i: nat, j: nat)
    requires |p| > |s| && forall k | 0 <= k < |p| :: p[k] in s
    ensures i < j < |p| && p[i] == p[j]
  {
    var x := p[0];
    if k :| 1 <= k < |p| && p[k] == x {
      return 0, k;
    }
    i, j := Pigeonhole(p[1..], s - {x});
    i, j := i + 1, j + 1;
  }

  ghost predicate HasSuccessorIn<V>(g: Graph<V>, s: set<V>, u: V) {
    exists d | d in s :: Edge(g, u, d)
  }

  ghost predicate EverySuccessor<V>(g: Graph<V>, s: set<V>) {
    forall u {:trigger HasSuccessorIn(g, s, u)} | u in s :: HasSuccessorIn(g, s, u)
  }

  /** Where every vertex of `s` has a successor in `s` there are walks of any length. */
  lemma {:induction false} LongWalk<V>(g: Graph<V>, s: set<V>, n: nat) returns (p: seq<V>)
    requires s != {} && EverySuccessor(g, s)
    ensures IsPath(g, p) && |p| == n + 1 && forall k | 0 <= k < |p| :: p[k] in s
  {
    if n == 0 {
      var u :| u in s;
      return [u];
    }
    var q := LongWalk(g, s, n - 1);
    assert HasSuccessorIn(g, s, q[|q| - 1]);
    var d :| d in s && Edge(g, q[|q| - 1], d);
    p := q + [d];
  }

  /** A finite set in which every vertex has a successor in the set carries a cycle. */
  lemma NoSinkMeansCycle<V(!new)>(g: Graph<V>, s: set<V>)
    requires s != {} && EverySuccessor(g, s)
    ensures !Acyclic(g)
  {
    var p := LongWalk(g, s, |s|);
    var i, j := Pigeonhole(p, s);
    var c := p[i..j + 1];
    assert IsPath(g, c) by {
      forall k | 0 <= k < |c| - 1 ensures Edge(g, c[k], c[k + 1]) {
        assert Edge(g, p[i + k], p[i + k + 1]);
      }
    }
    assert c[0] == c[|c| - 1];
  }

  /** Peeling sinks: ranks `rest` above an already ranked, dependency-closed part. */
  lemma {:induction false} PeelSinks<V(!new)>(g: Graph<V>, rest: set<V>, done: map<V, nat>, n: nat)
      returns (rank: map<V, nat>)
    requires Closed(g) && Acyclic(g)
    requires rest <= g.Keys && done.Keys == g.Keys - rest
    requires forall u | u in done :: done[u] < n
    requires forall u, i | u in done && 0 <= i < |g[u]| :: g[u][i] in done && done[g[u][i]] < done[u]
    ensures Ranked(g, rank) && rank.Keys == g.Keys
    decreases |rest|
  {
    if rest == {} {
      return done;
    }
    if EverySuccessor(g, rest) {
      NoSinkMeansCycle(g, rest);
      assert false;
    }
    var s :| s in rest && !HasSuccessorIn(g, rest, s);
    forall i | 0 <= i < |g[s]| ensures g[s][i] in done {
      assert Edge(g, s, g[s][i]);
    }
    rank := PeelSinks(g, rest - {s}, done[s := n], n + 1);
  }

  /** The two readings of "acyclic" agree: a closed finite graph without cycles has a rank. */
  lemma AcyclicHasRank<V(!new)>(g: Graph<V>) returns (rank: map<V, nat>)
    requires Closed(g) && Acyclic(g)
    ensures Ranked(g, rank) && rank.Keys == g.Keys
  {
    rank := PeelSinks(g, g.Keys, map[], 0);
  }

  /** Ranks of a finite set of vertices have an upper bound. */
  lemma {:induction false} RankIsBounded<V>(s: set<V>, rank: map<V, nat>) returns (top: nat)
    requires s <= rank.Keys
    ensures forall v | v in s :: rank[v] <= top
  {
    if s == {} {
      return 0;
    }
    var v :| v in s;
    top := RankIsBounded(s - {v}, rank);
    top := if rank[v] <= top then top else rank[v];
  }
}
