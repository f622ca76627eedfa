/** What the link set of a unit holds and in which order, read off the unit graph. */
module LinkSets {
  import opened Units
  import opened Graphs
  import opened BuildScriptMap
  import opened UnitLists
  import Sorting

  // ----- Which scripts -----

  /** `s` is a run of a build script of the package of `v`, and a dependency of `v`, which is no script. */
  ghost predicate OwnRunOf(c: Context, v: Unit, s: Unit) {
    && v in c.graph && s in c.graph[v] && s.mode == RunCustomBuild && s.pkg.id == v.pkg.id
    && !v.target.kind.CustomBuild? && exists t | t in v.pkg.targets :: t.kind.CustomBuild?
  }

  function KeyOf(c: Context, s: Unit): ScriptKey {
    (s.pkg.id, c.metadata(s))
  }

  /** A library for the target: its parent hands on what it links. */
  predicate HandedOn(d: Unit) {
    !d.target.forHost && CanBeLinked(d.target)
  }

  /** A walk down the unit graph from `u` through such libraries to `v`. */
  ghost predicate HandsOn(c: Context, p: seq<Unit>, u: Unit, v: Unit) {
    PathBetween(c.graph, p, u, v) && forall i | 0 < i < |p| :: HandedOn(p[i])
  }

  /** The script run `s` belongs to a unit at the end of such a walk. */
  ghost predicate LinkedRun(c: Context, u: Unit, s: Unit) {
    exists p, v :: HandsOn(c, p, u, v) && OwnRunOf(c, v, s)
  }

  ghost predicate LinkedKey(c: Context, u: Unit, k: ScriptKey) {
    exists s :: LinkedRun(c, u, s) && k == KeyOf(c, s)
  }

  lemma LinksIsHandedOn(d: Unit)
    ensures Links(d) <==> HandedOn(d)
  {
    LinkableIsCanBeLinked(d.target);
  }

  lemma {:induction false} ScriptRunsMembers(c: Context, pkg: PackageId, deps: seq<Unit>, k: ScriptKey)
    ensures k in ScriptRunsOf(c, pkg, deps) <==>
      exists s | s in deps :: s.IsRunCustomBuild() && s.pkg.id == pkg && k == (pkg, c.metadata(s))
  {
    if deps != [] {
      ScriptRunsMembers(c, pkg, deps[1..], k);
    }
  }

  lemma OwnScriptsExactly(c: Context, u: Unit, k: ScriptKey)
    requires u in c.graph
    ensures k in OwnScripts(c, u) <==> exists s :: OwnRunOf(c, u, s) && k == KeyOf(c, s)
  {
    ScriptRunsMembers(c, u.pkg.id, c.graph[u], k);
    if s :| s in c.graph[u] && s.IsRunCustomBuild() && s.pkg.id == u.pkg.id && k == (u.pkg.id, c.metadata(s)) && k in OwnScripts(c, u) {
      assert OwnRunOf(c, u, s);
    }
  }

  lemma {:induction false} InPreorderOfDeps(c: Context, rank: map<Unit, nat>, top: nat, deps: seq<Unit>, k: ScriptKey)
    requires Closed(c.graph) && Ranked(c.graph, rank) && Below(c, rank, top, deps)
    ensures k in PreorderOfDeps(c, rank, top, deps) <==> exists d | d in deps :: d in c.graph && Links(d) && k in Preorder(c, rank, d)
  {
    if deps != [] {
      var init, last := deps[..|deps| - 1], deps[|deps| - 1];
      assert deps == init + [last];
      InPreorderOfDeps(c, rank, top, init, k);
    }
  }

  lemma InPreorder(c: Context, rank: map<Unit, nat>, u: Unit, k: ScriptKey)
    requires Closed(c.graph) && Ranked(c.graph, rank) && u in c.graph
    ensures k in Preorder(c, rank, u) <==>
      k in OwnScripts(c, u) || exists d | Edge(c.graph, u, d) :: d in c.graph && Links(d) && k in Preorder(c, rank, d)
  {
    SortedBelow(c, rank, u);
    SortedDepsMembers(c, u);
    InPreorderOfDeps(c, rank, rank[u], SortedDeps(c, u), k);
  }

  /** From a dependency whose scripts are handed on to its parent. */
  lemma HandsOnFurther(c: Context, u: Unit, d: Unit, s: Unit)
    requires Edge(c.graph, u, d) && HandedOn(d) && LinkedRun(c, d, s)
    ensures LinkedRun(c, u, s)
  {
    var p, v :| HandsOn(c, p, d, v) && OwnRunOf(c, v, s);
    var q := [u] + p;
    forall i | 0 <= i < |q| - 1 ensures Edge(c.graph, q[i], q[i + 1]) {
      assert i == 0 || Edge(c.graph, p[i - 1], p[i - 1 + 1]);
    }
    assert HandsOn(c, q, u, v);
  }

  lemma OwnIsLinked(c: Context, u: Unit, s: Unit)
    requires OwnRunOf(c, u, s)
    ensures LinkedRun(c, u, s)
  {
    assert HandsOn(c, [u], u, u);
  }

  lemma {:induction false} PreorderIsLinked(c: Context, rank: map<Unit, nat>, u: Unit, k: ScriptKey)
    requires Closed(c.graph) && Ranked(c.graph, rank) && u in c.graph && k in Preorder(c, rank, u)
    ensures LinkedKey(c, u, k)
    decreases rank[u]
  {
    InPreorder(c, rank, u, k);
    if k in OwnScripts(c, u) {
      OwnScriptsExactly(c, u, k);
      var s :| OwnRunOf(c, u, s) && k == KeyOf(c, s);
      OwnIsLinked(c, u, s);
    } else {
      var d :| Edge(c.graph, u, d) && d in c.graph && Links(d) && k in Preorder(c, rank, d);
      var j :| 0 <= j < |c.graph[u]| && c.graph[u][j] == d;
      PreorderIsLinked(c, rank, d, k);
      var s :| LinkedRun(c, d, s) && k == KeyOf(c, s);
      LinksIsHandedOn(d);
      HandsOnFurther(c, u, d, s);
    }
  }

  lemma {:induction false} LinkedIsInPreorder(c: Context, rank: map<Unit, nat>, p: seq<Unit>, u: Unit, v: Unit, s: Unit)
    requires Closed(c.graph) && Ranked(c.graph, rank) && u in c.graph && HandsOn(c, p, u, v) && OwnRunOf(c, v, s)
    ensures KeyOf(c, s) in Preorder(c, rank, u)
    decreases |p|
  {
    InPreorder(c, rank, u, KeyOf(c, s));
    if |p| == 1 {
      OwnScriptsExactly(c, u, KeyOf(c, s));
    } else {
      var q := p[1..];
      assert Edge(c.graph, p[0], p[0 + 1]) && HandedOn(p[1]);
      forall i | 0 <= i < |q| - 1 ensures Edge(c.graph, q[i], q[i + 1]) {
        assert Edge(c.graph, p[i + 1], p[i + 1 + 1]);
      }
      LinksIsHandedOn(p[1]);
      LinkedIsInPreorder(c, rank, q, p[1], v, s);
    }
  }

  lemma PreorderExactly(c: Context, rank: map<Unit, nat>, u: Unit, k: ScriptKey)
    requires Closed(c.graph) && Ranked(c.graph, rank) && u in c.graph
    ensures k in Preorder(c, rank, u) <==> LinkedKey(c, u, k)
  {
    if k in Preorder(c, rank, u) {
      PreorderIsLinked(c, rank, u, k);
    }
    if s :| LinkedRun(c, u, s) && k == KeyOf(c, s) {
      var p, v :| HandsOn(c, p, u, v) && OwnRunOf(c, v, s);
      LinkedIsInPreorder(c, rank, p, u, v, s);
    }
  }

  lemma {:induction false} PluginsMembers(c: Context, rank: map<Unit, nat>, deps: seq<Unit>, k: ScriptKey)
    requires Closed(c.graph) && Ranked(c.graph, rank) && forall i | 0 <= i < |deps| :: deps[i] in c.graph
    ensures k in PluginsOf(c, rank, deps) <==> exists d | d in deps :: d in c.graph && d.target.forHost && k in Preorder(c, rank, d)
  {
    if deps != [] {
      var init, last := deps[..|deps| - 1], deps[|deps| - 1];
      assert deps == init + [last];
      PluginsMembers(c, rank, init, k);
    }
  }

  /** A finished entry lists, once each, exactly the keys of the scripts of the unit itself and of the
      libraries it is linked with, however deep; the lookup set agrees with the list; and the
      plugins are what the dependencies for the host link. */
  lemma EntryMeaning(c: Context, u: Unit, b: BuildScripts)
    requires Closed(c.graph) && Acyclic(c.graph) && u in c.graph && Entry(c, u, b)
    ensures Sorting.NoRepeats(b.toLink)
    ensures forall k :: k in b.toLink <==> k in b.seenToLink
    ensures forall k :: k in b.toLink <==> LinkedKey(c, u, k)
    ensures forall k :: k in b.plugins <==> exists d | d in c.graph[u] :: d.target.forHost && LinkedKey(c, d, k)
  {
    var rank := AcyclicHasRank(c.graph);
    assert Specified(c, rank, u, b);
    FirstOccurrencesDistinct(Preorder(c, rank, u));
    forall v, k | v in c.graph ensures k in Preorder(c, rank, v) <==> LinkedKey(c, v, k) {
      PreorderExactly(c, rank, v, k);
    }
    SortedBelow(c, rank, u);
    SortedDepsMembers(c, u);
    forall k ensures k in b.plugins <==> exists d | d in c.graph[u] :: d.target.forHost && LinkedKey(c, d, k) {
      PluginsMembers(c, rank, SortedDeps(c, u), k);
      assert forall d | d in c.graph[u] :: Edge(c.graph, u, d) && d in c.graph;
    }
  }

  // ----- The outputs that are there from the start -----

  /** The run of a script whose package names a native library that the configuration describes instead. */
  predicate Replaced(s: Unit) {
    s.mode == RunCustomBuild && s.pkg.links.Some? && s.linksOverridden
  }

  /** After the pass the table holds what the configuration says of the replaced scripts that were reached, and nothing else. */
  lemma OutputsExactly(c: Context, overrides: Unit -> BuildOutput, out: Visited, outputs: Outputs)
    requires Filled(c, overrides, map[], map[], out, outputs)
    ensures forall s | s in out && Replaced(s) :: c.metadata(s) in outputs && outputs[c.metadata(s)] == overrides(s)
    ensures forall h :: h in outputs <==> exists s | s in out :: Replaced(s) && h == c.metadata(s)
  {
    forall u ensures Overridden(u) <==> Replaced(u) {}
  }

  /** The pass misses a script run exactly where a unit other than the script belongs to a package with a script and
      depends on no run of it. */
  lemma LacksExactly(c: Context, u: Unit)
    ensures Lacks(c, u) <==>
      u in c.graph && u.target.kind != CustomBuild && (exists t | t in u.pkg.targets :: t.kind == CustomBuild)
      && forall s | s in c.graph[u] :: s.mode != RunCustomBuild || s.pkg.id != u.pkg.id
  {
    if u in c.graph {
      NoRunsExactly(c, u.pkg.id, c.graph[u]);
    }
  }

  lemma {:induction false} NoRunsExactly(c: Context, pkg: PackageId, deps: seq<Unit>)
    ensures ScriptRunsOf(c, pkg, deps) == [] <==> forall s | s in deps :: s.mode != RunCustomBuild || s.pkg.id != pkg
  {
    if deps != [] {
      NoRunsExactly(c, pkg, deps[1..]);
      assert deps[0] in deps && forall s | s in deps :: s == deps[0] || s in deps[1..];
    }
  }

  // ----- In which order -----

  /** `x` occurs in the list, and `y` only behind it. */
  ghost predicate Precedes<T>(s: seq<T>, x: T, y: T) {
    x != y && y in s && exists i | 0 <= i < |s| :: s[i] == x && y !in s[..i]
  }

  lemma PrecedesInFront<T>(a: seq<T>, b: seq<T>, x: T, y: T)
    requires x in a && y !in a && y in b
    ensures Precedes(a + b, x, y)
  {
    var i :| 0 <= i < |a| && a[i] == x;
    assert (a + b)[..i] == a[..i];
    assert (a + b)[i] == x;
    var j :| 0 <= j < |b| && b[j] == y;
    assert (a + b)[|a| + j] == y;
  }

  lemma PrecedesBehind<T>(a: seq<T>, b: seq<T>, x: T, y: T)
    requires y !in a && Precedes(b, x, y)
    ensures Precedes(a + b, x, y)
  {
    var i :| 0 <= i < |b| && b[i] == x && y !in b[..i];
    assert (a + b)[..|a| + i] == a + b[..i];
    assert (a + b)[|a| + i] == x;
    var j :| 0 <= j < |b| && b[j] == y;
    assert (a + b)[|a| + j] == y;
  }

  lemma PrecedesWithin<T>(a: seq<T>, b: seq<T>, x: T, y: T)
    requires Precedes(a, x, y)
    ensures Precedes(a + b, x, y)
  {
    var i :| 0 <= i < |a| && a[i] == x && y !in a[..i];
    assert (a + b)[..i] == a[..i];
    assert (a + b)[i] == x;
  }

  /** Leaving out repetitions keeps the order of first occurrences. */
  lemma {:induction false} FirstOccurrencesKeepOrder<T(!new)>(s: seq<T>, x: T, y: T)
    requires Precedes(s, x, y)
    ensures Precedes(FirstOccurrences(s), x, y)
  {
    var init, last := s[..|s| - 1], s[|s| - 1];
    assert s == init + [last];
    var i :| 0 <= i < |s| && s[i] == x && y !in s[..i];
    if y in init {
      assert s[..|init|] == init;
      assert init[i] == x && init[..i] == s[..i];
      FirstOccurrencesKeepOrder(init, x, y);
      PrecedesWithin(FirstOccurrences(init), [last], x, y);
    } else {
      assert last == y && i < |init| && init[i] == x;
      PrecedesInFront(FirstOccurrences(init), [last], x, y);
    }
  }

  /** Of two elements one precedes the other. */
  lemma {:induction false} OnePrecedes<T>(s: seq<T>, x: T, y: T)
    requires x in s && y in s && x != y
    ensures Precedes(s, x, y) || Precedes(s, y, x)
  {
    var init, last := s[..|s| - 1], s[|s| - 1];
    assert s == init + [last];
    if x in init && y in init {
      OnePrecedes(init, x, y);
      if Precedes(init, x, y) {
        PrecedesWithin(init, [last], x, y);
      } else {
        PrecedesWithin(init, [last], y, x);
      }
    } else if x in init {
      PrecedesInFront(init, [last], x, y);
    } else {
      PrecedesInFront(init, [last], y, x);
    }
  }

  lemma NotBothWays<T>(s: seq<T>, x: T, y: T)
    requires Precedes(s, x, y)
    ensures !Precedes(s, y, x)
  {
    var i :| 0 <= i < |s| && s[i] == x && y !in s[..i];
    assert forall j | 0 <= j < i :: s[..i][j] == s[j];
    forall j | 0 <= j < |s| && s[j] == y ensures x in s[..j] {
      assert s[..j][i] == x;
    }
  }

  lemma OrderOfFirstOccurrences<T(!new)>(s: seq<T>, x: T, y: T)
    requires Precedes(FirstOccurrences(s), x, y)
    ensures Precedes(s, x, y)
  {
    OnePrecedes(s, x, y);
    if Precedes(s, y, x) {
      FirstOccurrencesKeepOrder(s, y, x);
      NotBothWays(FirstOccurrences(s), x, y);
    }
  }

  // ----- Sorting keeps the order of equals -----

  lemma {:induction false} FilterKeepsOrder<T>(s: seq<T>, key: T -> nat, x: T, y: T)
    requires key(x) == key(y) && Precedes(s, x, y)
    ensures Precedes(Sorting.WithKey(s, key, key(x)), x, y)
  {
    var init, last := s[..|s| - 1], s[|s| - 1];
    assert s == init + [last];
    var i :| 0 <= i < |s| && s[i] == x && y !in s[..i];
    assert s[..|init|] == init;
    if y in init {
      assert init[i] == x && init[..i] == s[..i];
      FilterKeepsOrder(init, key, x, y);
      PrecedesWithin(Sorting.WithKey(init, key, key(x)), [last], x, y);
    } else {
      assert last == y && i < |init| && init[i] == x;
      Sorting.MemberHasKey(init, key, x);
      Sorting.MemberHasKey(init, key, y);
      PrecedesInFront(Sorting.WithKey(init, key, key(x)), [last], x, y);
    }
  }

  lemma FilterShowsOrder<T>(s: seq<T>, key: T -> nat, x: T, y: T)
    requires key(x) == key(y) && Precedes(Sorting.WithKey(s, key, key(x)), x, y)
    ensures Precedes(s, x, y)
  {
    Sorting.MemberHasKey(s, key, x);
    Sorting.MemberHasKey(s, key, y);
    OnePrecedes(s, x, y);
    if Precedes(s, y, x) {
      FilterKeepsOrder(s, key, y, x);
      NotBothWays(Sorting.WithKey(s, key, key(x)), x, y);
    }
  }

  /** A smaller key comes first, and of equal keys what came first before. */
  lemma SortedOrder<T>(s: seq<T>, key: T -> nat, x: T, y: T)
    requires x in s && y in s && (key(x) < key(y) || (key(x) == key(y) && Precedes(s, x, y)))
    ensures Precedes(Sorting.SortBy(s, key), x, y)
  {
    var r := Sorting.SortBy(s, key);
    Sorting.SortIsStable(s, key);
    Sorting.SortKeepsMembers(s, key);
    if key(x) < key(y) {
      var i :| 0 <= i < |r| && r[i] == x;
      assert forall j | 0 <= j < i :: key(r[j]) <= key(r[i]);
    } else {
      FilterKeepsOrder(s, key, x, y);
      FilterShowsOrder(r, key, x, y);
    }
  }

  // ----- The order of a link set -----

  /** `k` is the key of a script of the unit's own package. */
  ghost predicate OwnKey(c: Context, u: Unit, k: ScriptKey) {
    exists s :: OwnRunOf(c, u, s) && k == KeyOf(c, s)
  }

  /** Own scripts come before all others, */
  lemma OwnScriptsFirst(c: Context, u: Unit, b: BuildScripts, k: ScriptKey, other: ScriptKey)
    requires Closed(c.graph) && Acyclic(c.graph) && u in c.graph && Entry(c, u, b)
    requires OwnKey(c, u, k) && other in b.toLink && !OwnKey(c, u, other)
    ensures Precedes(b.toLink, k, other)
  {
    var rank := AcyclicHasRank(c.graph);
    assert Specified(c, rank, u, b);
    SortedBelow(c, rank, u);
    OwnScriptsExactly(c, u, k);
    OwnScriptsExactly(c, u, other);
    PrecedesInFront(OwnScripts(c, u), PreorderOfDeps(c, rank, rank[u], SortedDeps(c, u)), k, other);
    FirstOccurrencesKeepOrder(Preorder(c, rank, u), k, other);
  }

  lemma {:induction false} RunsInOrder(c: Context, pkg: PackageId, deps: seq<Unit>, s: Unit, t: Unit)
    requires s in deps && s.IsRunCustomBuild() && s.pkg.id == pkg && t in deps && t.IsRunCustomBuild() && t.pkg.id == pkg
    requires c.metadata(s) != c.metadata(t)
    requires forall x | x in deps && x.IsRunCustomBuild() && x.pkg.id == pkg && c.metadata(x) == c.metadata(t) :: Precedes(deps, s, x)
    ensures Precedes(ScriptRunsOf(c, pkg, deps), (pkg, c.metadata(s)), (pkg, c.metadata(t)))
  {
    var x, y := (pkg, c.metadata(s)), (pkg, c.metadata(t));
    var rest := deps[1..];
    assert deps == [deps[0]] + rest;
    ScriptRunsMembers(c, pkg, rest, y);
    if deps[0] == s {
      assert Precedes(deps, s, t);
      PrecedesInFront([x], ScriptRunsOf(c, pkg, rest), x, y);
    } else {
      forall z | z in deps && z.IsRunCustomBuild() && z.pkg.id == pkg && c.metadata(z) == c.metadata(t) ensures z != deps[0] && Precedes(rest, s, z) {
        PrecedesInRest(deps, s, z);
      }
      RunsInOrder(c, pkg, rest, s, t);
      PrecedesBehind(if deps[0].IsRunCustomBuild() && deps[0].pkg.id == pkg then [(pkg, c.metadata(deps[0]))] else [],
                     ScriptRunsOf(c, pkg, rest), x, y);
    }
  }

  lemma PrecedesInRest<T>(s: seq<T>, x: T, y: T)
    requires Precedes(s, x, y) && s[0] != x
    ensures s[0] != y && Precedes(s[1..], x, y)
  {
    var i :| 0 <= i < |s| && s[i] == x && y !in s[..i];
    assert s[..i][0] == s[0] && s[..i][1..] == s[1..][..i - 1] && s[1..][i - 1] == x;
    assert s == [s[0]] + s[1..];
  }

  /** among themselves in the order of the dependency list, */
  lemma OwnScriptsInOrder(c: Context, u: Unit, b: BuildScripts, s: Unit, t: Unit)
    requires Closed(c.graph) && Acyclic(c.graph) && u in c.graph && Entry(c, u, b)
    requires OwnRunOf(c, u, s) && OwnRunOf(c, u, t) && KeyOf(c, s) != KeyOf(c, t)
    requires forall x | OwnRunOf(c, u, x) && KeyOf(c, x) == KeyOf(c, t) :: Precedes(c.graph[u], s, x)
    ensures Precedes(b.toLink, KeyOf(c, s), KeyOf(c, t))
  {
    var rank := AcyclicHasRank(c.graph);
    assert Specified(c, rank, u, b);
    SortedBelow(c, rank, u);
    forall x | x in c.graph[u] && x.IsRunCustomBuild() && x.pkg.id == u.pkg.id && c.metadata(x) == c.metadata(t)
      ensures Precedes(c.graph[u], s, x) {
      assert OwnRunOf(c, u, x);
    }
    RunsInOrder(c, u.pkg.id, c.graph[u], s, t);
    PrecedesWithin(OwnScripts(c, u), PreorderOfDeps(c, rank, rank[u], SortedDeps(c, u)), KeyOf(c, s), KeyOf(c, t));
    FirstOccurrencesKeepOrder(Preorder(c, rank, u), KeyOf(c, s), KeyOf(c, t));
  }

  /** The dependency is taken before the other: by package, and inside a package by the list. */
  ghost predicate TakenBefore(c: Context, u: Unit, d: Unit, e: Unit)
    requires u in c.graph
  {
    d.pkg.id < e.pkg.id || (d.pkg.id == e.pkg.id && Precedes(c.graph[u], d, e))
  }

  /** `k` comes to `u` through dependencies taken after `d` only. */
  ghost predicate OnlyAfter(c: Context, u: Unit, d: Unit, k: ScriptKey)
    requires u in c.graph
  {
    !OwnKey(c, u, k) && forall e | e in c.graph[u] && HandedOn(e) && LinkedKey(c, e, k) :: TakenBefore(c, u, d, e)
  }

  lemma {:induction false} PreorderSplit(c: Context, rank: map<Unit, nat>, top: nat, deps: seq<Unit>, n: nat) returns (rest: seq<ScriptKey>)
    requires Closed(c.graph) && Ranked(c.graph, rank) && Below(c, rank, top, deps) && n <= |deps|
    ensures PreorderOfDeps(c, rank, top, deps) == PreorderOfDeps(c, rank, top, deps[..n]) + rest
    decreases |deps|
  {
    if n == |deps| {
      assert deps[..n] == deps;
      rest := [];
    } else {
      var init, last := deps[..|deps| - 1], deps[|deps| - 1];
      var r := PreorderSplit(c, rank, top, init, n);
      rest := r + if Links(last) then Preorder(c, rank, last) else [];
      assert init[..n] == deps[..n];
      Sorting.Assoc(PreorderOfDeps(c, rank, top, deps[..n]), r, if Links(last) then Preorder(c, rank, last) else []);
    }
  }

  /** The dependencies before the first place of `d` do not bring what else comes only after it. */
  lemma NothingUpTo(c: Context, rank: map<Unit, nat>, u: Unit, d: Unit, k: ScriptKey) returns (n: nat)
    requires Closed(c.graph) && Ranked(c.graph, rank) && u in c.graph && d in c.graph[u]
    requires forall e | e in c.graph[u] && e != d && HandedOn(e) && LinkedKey(c, e, k) :: TakenBefore(c, u, d, e)
    ensures n < |SortedDeps(c, u)| && SortedDeps(c, u)[n] == d && Below(c, rank, rank[u], SortedDeps(c, u))
    ensures k !in PreorderOfDeps(c, rank, rank[u], SortedDeps(c, u)[..n])
  {
    var deps := SortedDeps(c, u);
    SortedBelow(c, rank, u);
    SortedDepsMembers(c, u);
    assert Edge(c.graph, u, d);
    n := FirstPlace(deps, d);
    InPreorderOfDeps(c, rank, rank[u], deps[..n], k);
    forall e | e in deps[..n] && Links(e) && e in c.graph ensures k !in Preorder(c, rank, e) {
      PreorderExactly(c, rank, e, k);
      LinksIsHandedOn(e);
      if LinkedKey(c, e, k) {
        assert Edge(c.graph, u, e) && e != d;
        SortedOrder(c.graph[u], (x: Unit) => x.pkg.id, d, e);
        NotUpTo(deps, n, d, e);
      }
    }
  }

  lemma NotUpTo<T>(s: seq<T>, n: nat, x: T, y: T)
    requires n < |s| && s[n] == x && x !in s[..n] && Precedes(s, x, y)
    ensures y !in s[..n]
  {
    var i :| 0 <= i < |s| && s[i] == x && y !in s[..i];
    assert forall j | 0 <= j < n :: s[..n][j] == s[j];
    assert forall j | 0 <= j < i :: s[..i][j] == s[j];
  }

  lemma {:induction false} FirstPlace<T>(s: seq<T>, x: T) returns (n: nat)
    requires x in s
    ensures n < |s| && s[n] == x && x !in s[..n]
  {
    if s[0] == x {
      n := 0;
    } else {
      n := FirstPlace(s[1..], x);
      assert s[..n + 1] == [s[0]] + s[1..][..n];
      n := n + 1;
    }
  }

  /** then by dependency: what one brings comes before what is only brought by those taken after it, */
  lemma DependenciesInOrder(c: Context, u: Unit, b: BuildScripts, d: Unit, k: ScriptKey, other: ScriptKey)
    requires Closed(c.graph) && Acyclic(c.graph) && u in c.graph && Entry(c, u, b)
    requires d in c.graph[u] && HandedOn(d) && LinkedKey(c, d, k) && other in b.toLink && OnlyAfter(c, u, d, other)
    ensures Precedes(b.toLink, k, other)
  {
    var rank := AcyclicHasRank(c.graph);
    assert Specified(c, rank, u, b);
    PreorderExactly(c, rank, d, k);
    PreorderExactly(c, rank, d, other);
    var start, rest := AtDependency(c, rank, u, d, other);
    PrecedesInFront(start + Preorder(c, rank, d), rest, k, other);
    FirstOccurrencesKeepOrder(Preorder(c, rank, u), k, other);
  }

  /** The full preorder around a dependency, what comes only after it left behind. */
  lemma AtDependency(c: Context, rank: map<Unit, nat>, u: Unit, d: Unit, k: ScriptKey) returns (start: seq<ScriptKey>, rest: seq<ScriptKey>)
    requires Closed(c.graph) && Ranked(c.graph, rank) && u in c.graph && d in c.graph && d in c.graph[u] && HandedOn(d) && !OwnKey(c, u, k)
    requires forall e | e in c.graph[u] && e != d && HandedOn(e) && LinkedKey(c, e, k) :: TakenBefore(c, u, d, e)
    ensures Preorder(c, rank, u) == start + Preorder(c, rank, d) + rest && k !in start
  {
    var n := NothingUpTo(c, rank, u, d, k);
    LinksIsHandedOn(d);
    start, rest := PreorderAround(c, rank, u, n);
    OwnScriptsExactly(c, u, k);
  }

  lemma PreorderAround(c: Context, rank: map<Unit, nat>, u: Unit, n: nat) returns (start: seq<ScriptKey>, rest: seq<ScriptKey>)
    requires Closed(c.graph) && Ranked(c.graph, rank) && u in c.graph && Below(c, rank, rank[u], SortedDeps(c, u))
    requires n < |SortedDeps(c, u)| && Links(SortedDeps(c, u)[n])
    ensures start == OwnScripts(c, u) + PreorderOfDeps(c, rank, rank[u], SortedDeps(c, u)[..n])
    ensures Preorder(c, rank, u) == start + Preorder(c, rank, SortedDeps(c, u)[n]) + rest
  {
    var deps := SortedDeps(c, u);
    var front, mid := PreorderOfDeps(c, rank, rank[u], deps[..n]), Preorder(c, rank, deps[n]);
    rest := PreorderSplit(c, rank, rank[u], deps, n + 1);
    assert deps[..n + 1][..n] == deps[..n];
    assert PreorderOfDeps(c, rank, rank[u], deps[..n + 1]) == front + mid;
    start := OwnScripts(c, u) + front;
    Sorting.Assoc(OwnScripts(c, u), front + mid, rest);
    Sorting.Assoc(OwnScripts(c, u), front, mid);
  }

  /** and inside one dependency as its own link set has them. */
  lemma InsideDependency(c: Context, u: Unit, b: BuildScripts, d: Unit, bd: BuildScripts, k: ScriptKey, other: ScriptKey)
    requires Closed(c.graph) && Acyclic(c.graph) && u in c.graph && Entry(c, u, b) && d in c.graph && Entry(c, d, bd)
    requires d in c.graph[u] && HandedOn(d) && Precedes(bd.toLink, k, other) && !OwnKey(c, u, other)
    requires forall e | e in c.graph[u] && e != d && HandedOn(e) && LinkedKey(c, e, other) :: TakenBefore(c, u, d, e)
    ensures Precedes(b.toLink, k, other)
  {
    var rank := AcyclicHasRank(c.graph);
    assert Specified(c, rank, u, b) && Specified(c, rank, d, bd);
    OrderOfFirstOccurrences(Preorder(c, rank, d), k, other);
    var start, rest := AtDependency(c, rank, u, d, other);
    PrecedesBehind(start, Preorder(c, rank, d), k, other);
    PrecedesWithin(start + Preorder(c, rank, d), rest, k, other);
    FirstOccurrencesKeepOrder(Preorder(c, rank, u), k, other);
  }
}
