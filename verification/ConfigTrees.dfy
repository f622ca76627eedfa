/** A whole tree of merges, each under an order of its own: exactly when a list comes out as the items
    of all sources, and exactly when as those of the first. */
module ConfigTrees {
  import opened Units
  import opened ConfigValues
  import opened ConfigMerge
  import opened ConfigReach
  import opened ConfigSources

  /** Which values are merged into which. */
  datatype MergeTree = Leaf(value: ConfigValue) | Node(self: MergeTree, from: MergeTree, force: bool)

  ghost predicate MergesTo(a: ConfigValue, b: ConfigValue, force: bool, ord: Order, r: ConfigValue) {
    ValidOrder(ord) && Merge(a, b, force, ord) == Some(r)
  }

  /** The merges can come to `r`. */
  ghost predicate Yields(t: MergeTree, r: ConfigValue) {
    match t
    case Leaf(v) => r == v
    case Node(self, from, force) =>
      exists a, b, ord: Order :: Yields(self, a) && Yields(from, b) && MergesTo(a, b, force, ord, r)
  }

  lemma YieldsNode(self: MergeTree, from: MergeTree, force: bool, a: ConfigValue, b: ConfigValue, ord: Order, r: ConfigValue)
    requires Yields(self, a) && Yields(from, b) && ValidOrder(ord) && Merge(a, b, force, ord) == Some(r)
    ensures Yields(Node(self, from, force), r)
    ensures a.TableV? && b.TableV? ==> r.def == a.def
  {
    assert MergesTo(a, b, force, ord, r);
  }

  /** The sources, the highest precedence first. */
  ghost function Leaves(t: MergeTree): seq<ConfigValue> {
    match t
    case Leaf(v) => [v]
    case Node(self, from, force) => if force then Leaves(from) + Leaves(self) else Leaves(self) + Leaves(from)
  }

  /** All sources are of one rank. */
  ghost predicate Uniform(t: MergeTree, k: nat) {
    match t
    case Leaf(v) => v.TableV? && AllRanked(v, k)
    case Node(self, from, _) => Uniform(self, k) && Uniform(from, k)
  }

  /** Each side is of one rank, and only something at least as strong is merged in by force. */
  ghost predicate Layered(t: MergeTree, j: nat, k: nat) {
    match t
    case Leaf(_) => j == k && Uniform(t, k)
    case Node(self, from, force) => Uniform(self, j) && Uniform(from, k) && (force ==> j <= k) && (!force ==> j == k)
  }

  lemma UniformIsLayered(t: MergeTree, k: nat)
    requires Uniform(t, k)
    ensures Layered(t, k, k)
  {}

  /** The last merge of a tree. */
  ghost predicate LastMerge(t: MergeTree, a: ConfigValue, b: ConfigValue, ord: Order, r: ConfigValue) {
    t.Node? && Yields(t.self, a) && Yields(t.from, b) && MergesTo(a, b, t.force, ord, r)
  }

  lemma LastMergeOf(t: MergeTree, r: ConfigValue) returns (a: ConfigValue, b: ConfigValue, ord: Order)
    requires t.Node? && Yields(t, r)
    ensures LastMerge(t, a, b, ord, r)
  {
    a, b, ord :| Yields(t.self, a) && Yields(t.from, b) && MergesTo(a, b, t.force, ord, r);
  }

  /** What a tree yields agrees with its sources. */
  lemma {:induction false} YieldAgrees(t: MergeTree, j: nat, k: nat, r: ConfigValue)
    requires Layered(t, j, k) && Yields(t, r)
    ensures Agrees(r, Leaves(t)) && (j == k ==> AllRanked(r, k))
    decreases t
  {
    if t.Leaf? {
      StandsForItself(r, k);
    } else {
      var a, b, ord := LastMergeOf(t, r);
      UniformIsLayered(t.self, j);
      UniformIsLayered(t.from, k);
      YieldAgrees(t.self, j, j, a);
      YieldAgrees(t.from, k, k, b);
      Compose(a, Leaves(t.self), j, b, Leaves(t.from), k, t.force, ord);
    }
  }

  lemma LastMergeAgrees(t: MergeTree, j: nat, k: nat, a: ConfigValue, b: ConfigValue)
    requires t.Node? && Layered(t, j, k) && Yields(t.self, a) && Yields(t.from, b)
    ensures Agrees(a, Leaves(t.self)) && AllRanked(a, j) && Agrees(b, Leaves(t.from)) && AllRanked(b, k)
  {
    UniformIsLayered(t.self, j);
    UniformIsLayered(t.from, k);
    YieldAgrees(t.self, j, j, a);
    YieldAgrees(t.from, k, k, b);
  }

  lemma ConsistentParts(t: MergeTree)
    requires t.Node? && Consistent(Leaves(t))
    ensures Consistent(Leaves(t.self)) && Consistent(Leaves(t.from))
  {
    if !Consistent(Leaves(t.self)) {
      PartIsInconsistent(Leaves(t), Leaves(t.self));
    }
    if !Consistent(Leaves(t.from)) {
      PartIsInconsistent(Leaves(t), Leaves(t.from));
    }
  }

  /** Where no two sources clash the last merge succeeds, under any order. */
  lemma LastMergeSucceeds(t: MergeTree, j: nat, k: nat, a: ConfigValue, b: ConfigValue, ord: Order) returns (r: ConfigValue)
    requires t.Node? && Layered(t, j, k) && Yields(t.self, a) && Yields(t.from, b) && ValidOrder(ord) && Consistent(Leaves(t))
    ensures LastMerge(t, a, b, ord, r) && Yields(t, r) && Clashless(a, b)
  {
    LastMergeAgrees(t, j, k, a, b);
    if Merge(a, b, t.force, ord).None? {
      FailedIsInconsistent(a, Leaves(t.self), b, Leaves(t.from), t.force, ord, Leaves(t));
    }
    SucceedsExactly(a, b, t.force, ord);
    r := Merge(a, b, t.force, ord).value;
    assert MergesTo(a, b, t.force, ord, r);
  }

  lemma {:induction false} SomeYield(t: MergeTree, k: nat) returns (r: ConfigValue)
    requires Uniform(t, k) && Consistent(Leaves(t))
    ensures Yields(t, r)
    decreases t
  {
    if t.Leaf? {
      r := t.value;
    } else {
      ConsistentParts(t);
      var a := SomeYield(t.self, k);
      var b := SomeYield(t.from, k);
      r := LastMergeSucceeds(t, k, k, a, b, AnyOrder());
    }
  }

  // ----- One list -----

  /** Every source that says something about the path has a list there, with something in it. */
  ghost predicate FilledLists(prec: seq<ConfigValue>, path: Key) {
    forall i | 0 <= i < |prec| && Lookup(prec[i], path).Some? :: Lookup(prec[i], path).value.ListV? && Lookup(prec[i], path).value.items != []
  }

  lemma FilledParts(t: MergeTree, path: Key)
    requires t.Node? && FilledLists(Leaves(t), path)
    ensures FilledLists(Leaves(t.self), path) && FilledLists(Leaves(t.from), path)
  {
    var p, q := if t.force then Leaves(t.from) else Leaves(t.self), if t.force then Leaves(t.self) else Leaves(t.from);
    assert forall i | 0 <= i < |p| :: Leaves(t)[i] == p[i];
    assert forall i | 0 <= i < |q| :: Leaves(t)[|p| + i] == q[i];
  }

  lemma {:induction false} FirstIsFilled(prec: seq<ConfigValue>, path: Key)
    requires FilledLists(prec, path) && FirstDefined(prec, path).Some?
    ensures FirstDefined(prec, path).value.ListV? && FirstItems(prec, path) != []
  {
    if Lookup(prec[0], path).None? {
      assert forall i | 0 <= i < |prec[1..]| :: prec[1..][i] == prec[i + 1];
      FirstIsFilled(prec[1..], path);
    }
  }

  lemma ListAtPath(r: ConfigValue, prec: seq<ConfigValue>, path: Key)
    requires path != [] && Agrees(r, prec) && FilledLists(prec, path) && Lookup(r, path).Some?
    ensures Lookup(r, path).value.ListV?
  {
    assert AgreesAt(r, prec, path);
    var x := SourceOf(r, prec, path);
    var i :| 0 <= i < |prec| && prec[i] == x;
  }

  lemma OneLeaf(v: ConfigValue, path: Key)
    ensures FirstDefined([v], path) == Lookup(v, path)
    ensures FirstItems([v], path) == ItemsAt(v, path) == AllItems([v], path)
  {
    assert [v][1..] == [];
    assert AllItems([], path) == [] && [] + ItemsAt(v, path) == ItemsAt(v, path);
  }

  /** The items of two lists, one stronger than the other, if it is appended and if it replaces. */
  function Joined(x: seq<ConfigValue>, y: seq<ConfigValue>, force: bool, replaced: bool): seq<ConfigValue> {
    if replaced then (if force then y else x) else (if force then x + y else y + x)
  }

  lemma JoinedItems(a: ConfigValue, j: nat, b: ConfigValue, k: nat, force: bool, path: Key)
    requires (force ==> j <= k) && (!force ==> j == k) && RankedAt(a, j, path) && RankedAt(b, k, path) && Lists(a, b, path)
    ensures var x, y := Lookup(a, path).value, Lookup(b, path).value;
      && ReplacedItems(x, y, force) == Joined(x.items, y.items, force, true)
      && AppendedItems(x, y, force) == Joined(x.items, y.items, force, false)
  {
    var x, y := Lookup(a, path).value, Lookup(b, path).value;
    PriorityIsRank(y.def, x.def);
    SortedAlready(x.items, j, j, []);
    SortedAlready(y.items, k, k, []);
    assert x.items + [] == x.items && y.items + [] == y.items;
    if force {
      SortedAlready(x.items, j, k, y.items);
    } else {
      SortedAlready(y.items, k, j, x.items);
    }
  }

  ghost predicate Ordered(j: nat, k: nat, force: bool) {
    (force ==> j <= k) && (!force ==> j == k)
  }

  /** Two lists are joined under a key that can be reached, */
  lemma JoinedReached(a: ConfigValue, j: nat, b: ConfigValue, k: nat, force: bool, ord: Order, r: ConfigValue, path: Key) returns (key: Key)
    requires Ordered(j, k, force) && RankedAt(a, j, path) && RankedAt(b, k, path) && Lists(a, b, path) && MergesTo(a, b, force, ord, r)
    ensures Reachable(Collisions(a, b), [], path, key) && Lookup(r, path).Some?
    ensures ItemsAt(r, path) == Joined(ItemsAt(a, path), ItemsAt(b, path), force, IsNonMergeableList(key))
  {
    SucceedsExactly(a, b, force, ord);
    JoinedItems(a, j, b, k, force, path);
    key := ItemsAreReached(a, b, force, ord, path);
    ItemsAfterMerge(a, b, force, ord, r, path);
  }

  lemma ItemsAfterMerge(a: ConfigValue, b: ConfigValue, force: bool, ord: Order, r: ConfigValue, path: Key)
    requires Lists(a, b, path) && MergesTo(a, b, force, ord, r) && Clashless(a, b)
    ensures Lookup(r, path).Some? && ItemsAt(r, path) == ItemsAfter(a, b, force, ord, path)
  {
    MergeLookupAll(a, b, force, ord, path);
  }

  /** and every such key has its order. */
  lemma JoinedUnder(a: ConfigValue, j: nat, b: ConfigValue, k: nat, force: bool, path: Key, key: Key) returns (ord: Order)
    requires Ordered(j, k, force) && RankedAt(a, j, path) && RankedAt(b, k, path) && Lists(a, b, path) && Clashless(a, b)
    requires Reachable(Collisions(a, b), [], path, key)
    ensures ValidOrder(ord)
    ensures forall r | MergesTo(a, b, force, ord, r) ::
      ItemsAt(r, path) == Joined(ItemsAt(a, path), ItemsAt(b, path), force, IsNonMergeableList(key))
  {
    ord := ReachedByItems(a, b, force, path, key);
    JoinedItems(a, j, b, k, force, path);
    forall r | MergesTo(a, b, force, ord, r) ensures ItemsAt(r, path) == ItemsAfter(a, b, force, ord, path) {
      ItemsAfterMerge(a, b, force, ord, r, path);
    }
  }

  /** Where only one side says something it stays as it is. */
  lemma OnlySide(a: ConfigValue, b: ConfigValue, force: bool, ord: Order, r: ConfigValue, path: Key)
    requires MergesTo(a, b, force, ord, r) && (Lookup(a, path).None? || Lookup(b, path).None?)
    ensures Lookup(r, path) == if Lookup(a, path).Some? then Lookup(a, path) else Lookup(b, path)
  {
    MergeLookupAll(a, b, force, ord, path);
  }

  /** What the last merge makes of the list: that of the only side that has one, or the two joined
      under a key that can be reached. */
  lemma LastMergeItems(t: MergeTree, j: nat, k: nat, a: ConfigValue, b: ConfigValue, ord: Order, r: ConfigValue, path: Key) returns (key: Key)
    requires Layered(t, j, k) && LastMerge(t, a, b, ord, r) && path != [] && FilledLists(Leaves(t), path)
    ensures Lookup(r, path).Some? <==> Lookup(a, path).Some? || Lookup(b, path).Some?
    ensures Lookup(a, path).None? ==> ItemsAt(r, path) == ItemsAt(b, path)
    ensures Lookup(b, path).None? ==> ItemsAt(r, path) == ItemsAt(a, path)
    ensures Lookup(a, path).Some? && Lookup(b, path).Some? ==>
      && Lists(a, b, path) && Reachable(Collisions(a, b), [], path, key)
      && ItemsAt(r, path) == Joined(ItemsAt(a, path), ItemsAt(b, path), t.force, IsNonMergeableList(key))
  {
    LastMergeAgrees(t, j, k, a, b);
    FilledParts(t, path);
    key := [];
    if Lookup(a, path).Some? && Lookup(b, path).Some? {
      ListAtPath(a, Leaves(t.self), path);
      ListAtPath(b, Leaves(t.from), path);
      assert RankedAt(a, j, path) && RankedAt(b, k, path);
      key := JoinedReached(a, j, b, k, t.force, ord, r, path);
    } else {
      OnlySide(a, b, t.force, ord, r, path);
    }
  }

  lemma DefinedSides(t: MergeTree, j: nat, k: nat, a: ConfigValue, b: ConfigValue, path: Key)
    requires t.Node? && Layered(t, j, k) && Yields(t.self, a) && Yields(t.from, b) && path != []
    ensures Lookup(a, path).Some? <==> FirstDefined(Leaves(t.self), path).Some?
    ensures Lookup(b, path).Some? <==> FirstDefined(Leaves(t.from), path).Some?
    ensures Collisions(a, b) == CollisionsOf(Leaves(t.self), Leaves(t.from))
  {
    LastMergeAgrees(t, j, k, a, b);
    assert AgreesAt(a, Leaves(t.self), path) && AgreesAt(b, Leaves(t.from), path);
    SameCollisions(a, Leaves(t.self), b, Leaves(t.from));
  }

  /** The side with precedence, and the other. */
  function Higher(t: MergeTree): MergeTree
    requires t.Node?
  {
    if t.force then t.from else t.self
  }

  function Lower(t: MergeTree): MergeTree
    requires t.Node?
  {
    if t.force then t.self else t.from
  }

  /** Every key the last merge can come to merge the list under is of one kind. */
  ghost predicate KeysAre(t: MergeTree, path: Key, replaced: bool)
    requires t.Node?
  {
    forall key | Reachable(CollisionsOf(Leaves(t.self), Leaves(t.from)), [], path, key) :: IsNonMergeableList(key) == replaced
  }

  ghost predicate Has(t: MergeTree, path: Key) {
    FirstDefined(Leaves(t), path).Some?
  }

  /** The last merge in terms of the sources. */
  lemma LastItems(t: MergeTree, j: nat, k: nat, a: ConfigValue, b: ConfigValue, ord: Order, r: ConfigValue, path: Key) returns (replaced: bool)
    requires Layered(t, j, k) && LastMerge(t, a, b, ord, r) && path != [] && FilledLists(Leaves(t), path)
    ensures ItemsAt(r, path) == if Has(t.self, path) && Has(t.from, path) then Joined(ItemsAt(a, path), ItemsAt(b, path), t.force, replaced)
                                else if Has(t.self, path) then ItemsAt(a, path) else ItemsAt(b, path)
    ensures !Has(t.self, path) ==> ItemsAt(a, path) == []
    ensures !Has(t.from, path) ==> ItemsAt(b, path) == []
    ensures forall c: bool | Has(t.self, path) && Has(t.from, path) && KeysAre(t, path, c) :: replaced == c
  {
    var key := LastMergeItems(t, j, k, a, b, ord, r, path);
    replaced := IsNonMergeableList(key);
    DefinedSides(t, j, k, a, b, path);
  }

  /** What all sources of a tree, and the first of them, have. */
  lemma ItemsOfSides(t: MergeTree, path: Key)
    requires t.Node?
    ensures AllItems(Leaves(t), path) == Joined(AllItems(Leaves(t.self), path), AllItems(Leaves(t.from), path), t.force, false)
    ensures FirstItems(Leaves(t), path) == FirstItems(Leaves(if Has(Higher(t), path) then Higher(t) else Lower(t)), path)
  {
    FirstDefinedConcat(Leaves(t.self), Leaves(t.from), path);
    FirstDefinedConcat(Leaves(t.from), Leaves(t.self), path);
  }

  /** Under any order the list has at least the items of the first source, and at most all. */
  lemma {:induction false} ItemsBetween(t: MergeTree, j: nat, k: nat, r: ConfigValue, path: Key)
    requires Layered(t, j, k) && Yields(t, r) && path != [] && FilledLists(Leaves(t), path)
    ensures |FirstItems(Leaves(t), path)| <= |ItemsAt(r, path)| <= |AllItems(Leaves(t), path)|
    decreases t
  {
    if t.Leaf? {
      OneLeaf(r, path);
    } else {
      var a, b, ord := LastMergeOf(t, r);
      FilledParts(t, path);
      UniformIsLayered(t.self, j);
      UniformIsLayered(t.from, k);
      ItemsBetween(t.self, j, j, a, path);
      ItemsBetween(t.from, k, k, b, path);
      var replaced := LastItems(t, j, k, a, b, ord, r, path);
      ItemsOfSides(t, path);
    }
  }

  // ----- Exactly -----

  /** No merge can come to replace the list. */
  ghost predicate AllAppended(t: MergeTree, path: Key) {
    t.Node? ==> AllAppended(t.self, path) && AllAppended(t.from, path) && KeysAre(t, path, false)
  }

  /** On the way to the first source that has the list, every merge replaces it. */
  ghost predicate AllReplaced(t: MergeTree, path: Key) {
    t.Node? ==>
      if Has(Higher(t), path) then AllReplaced(Higher(t), path) && KeysAre(t, path, true)
      else AllReplaced(Lower(t), path)
  }

  lemma {:induction false} Appends(t: MergeTree, j: nat, k: nat, r: ConfigValue, path: Key)
    requires Layered(t, j, k) && Yields(t, r) && path != [] && FilledLists(Leaves(t), path) && AllAppended(t, path)
    ensures ItemsAt(r, path) == AllItems(Leaves(t), path)
    decreases t
  {
    if t.Leaf? {
      OneLeaf(r, path);
    } else {
      var a, b, ord := LastMergeOf(t, r);
      FilledParts(t, path);
      UniformIsLayered(t.self, j);
      UniformIsLayered(t.from, k);
      Appends(t.self, j, j, a, path);
      Appends(t.from, k, k, b, path);
      var replaced := LastItems(t, j, k, a, b, ord, r, path);
      ItemsOfSides(t, path);
    }
  }

  lemma {:induction false} Replaces(t: MergeTree, j: nat, k: nat, r: ConfigValue, path: Key)
    requires Layered(t, j, k) && Yields(t, r) && path != [] && FilledLists(Leaves(t), path) && AllReplaced(t, path)
    ensures ItemsAt(r, path) == FirstItems(Leaves(t), path)
    decreases t
  {
    if t.Leaf? {
      OneLeaf(r, path);
    } else {
      var a, b, ord := LastMergeOf(t, r);
      FilledParts(t, path);
      UniformIsLayered(t.self, j);
      UniformIsLayered(t.from, k);
      var replaced := LastItems(t, j, k, a, b, ord, r, path);
      ItemsOfSides(t, path);
      var onSelf := Has(Higher(t), path) != t.force;
      if onSelf {
        Replaces(t.self, j, j, a, path);
      } else {
        Replaces(t.from, k, k, b, path);
      }
    }
  }

  /** A last merge under a given key. */
  lemma LastMergeUnder(t: MergeTree, j: nat, k: nat, a: ConfigValue, b: ConfigValue, path: Key, key: Key) returns (r: ConfigValue)
    requires t.Node? && Layered(t, j, k) && Yields(t.self, a) && Yields(t.from, b) && Consistent(Leaves(t))
    requires path != [] && FilledLists(Leaves(t), path) && Reachable(CollisionsOf(Leaves(t.self), Leaves(t.from)), [], path, key)
    ensures Yields(t, r) && Lists(a, b, path)
    ensures ItemsAt(r, path) == Joined(ItemsAt(a, path), ItemsAt(b, path), t.force, IsNonMergeableList(key))
  {
    SidesAreLists(t, j, k, a, b, path, key);
    LastMergeAgrees(t, j, k, a, b);
    assert RankedAt(a, j, path) && RankedAt(b, k, path);
    var ord := JoinedUnder(a, j, b, k, t.force, path, key);
    r := LastMergeSucceeds(t, j, k, a, b, ord);
  }

  lemma SidesAreLists(t: MergeTree, j: nat, k: nat, a: ConfigValue, b: ConfigValue, path: Key, key: Key)
    requires t.Node? && Layered(t, j, k) && Yields(t.self, a) && Yields(t.from, b) && Consistent(Leaves(t))
    requires path != [] && FilledLists(Leaves(t), path) && Reachable(CollisionsOf(Leaves(t.self), Leaves(t.from)), [], path, key)
    ensures Clashless(a, b) && Lists(a, b, path) && Reachable(Collisions(a, b), [], path, key)
  {
    var _ := LastMergeSucceeds(t, j, k, a, b, AnyOrder());
    LastMergeAgrees(t, j, k, a, b);
    SameCollisions(a, Leaves(t.self), b, Leaves(t.from));
    ReachedIsCollision(a, b, path, key);
    FilledParts(t, path);
    ListAtPath(a, Leaves(t.self), path);
    ListAtPath(b, Leaves(t.from), path);
  }

  lemma {:induction false} ReachableCollides(c: iset<Key>, at: Key, path: Key, key: Key)
    requires path != [] && Reachable(c, at, path, key)
    ensures at + path in c
    decreases |path|
  {
    var n: nat, done: set<string> :| n < |key| && ReachableAfter(c, at, path, key, n, done);
    if path[1..] != [] {
      ReachableCollides(c, at + [path[0]], path[1..], key[n + 1..]);
      assert at + [path[0]] + path[1..] == at + path;
    } else {
      assert path == [path[0]];
    }
  }

  lemma ReachedIsCollision(a: ConfigValue, b: ConfigValue, path: Key, key: Key)
    requires path != [] && Reachable(Collisions(a, b), [], path, key)
    ensures Lookup(a, path).Some? && Lookup(b, path).Some?
  {
    ReachableCollides(Collisions(a, b), [], path, key);
    assert [] + path == path;
  }

  /** Two sides of a last merge that cannot fail. */
  ghost predicate Sides(t: MergeTree, j: nat, k: nat, a: ConfigValue, b: ConfigValue, path: Key) {
    && t.Node? && Layered(t, j, k) && Yields(t.self, a) && Yields(t.from, b) && Consistent(Leaves(t))
    && path != [] && FilledLists(Leaves(t), path)
  }

  lemma SidesBetween(t: MergeTree, j: nat, k: nat, a: ConfigValue, b: ConfigValue, path: Key)
    requires Sides(t, j, k, a, b, path)
    ensures |FirstItems(Leaves(t.self), path)| <= |ItemsAt(a, path)| <= |AllItems(Leaves(t.self), path)|
    ensures |FirstItems(Leaves(t.from), path)| <= |ItemsAt(b, path)| <= |AllItems(Leaves(t.from), path)|
    ensures Has(t.self, path) ==> FirstItems(Leaves(t.self), path) != []
    ensures Has(t.from, path) ==> FirstItems(Leaves(t.from), path) != []
  {
    FilledParts(t, path);
    UniformIsLayered(t.self, j);
    UniformIsLayered(t.from, k);
    ItemsBetween(t.self, j, j, a, path);
    ItemsBetween(t.from, k, k, b, path);
    if Has(t.self, path) {
      FirstIsFilled(Leaves(t.self), path);
    }
    if Has(t.from, path) {
      FirstIsFilled(Leaves(t.from), path);
    }
  }

  lemma BothHave(t: MergeTree, path: Key, key: Key)
    requires t.Node? && path != [] && Reachable(CollisionsOf(Leaves(t.self), Leaves(t.from)), [], path, key)
    ensures Has(t.self, path) && Has(t.from, path)
  {
    ReachableCollides(CollisionsOf(Leaves(t.self), Leaves(t.from)), [], path, key);
    assert [] + path == path;
  }

  /** A last merge that can come to replace the list loses something, */
  lemma LostHere(t: MergeTree, j: nat, k: nat, a: ConfigValue, b: ConfigValue, path: Key) returns (r: ConfigValue)
    requires Sides(t, j, k, a, b, path) && !KeysAre(t, path, false)
    ensures Yields(t, r) && |ItemsAt(r, path)| < |AllItems(Leaves(t), path)|
  {
    var key :| Reachable(CollisionsOf(Leaves(t.self), Leaves(t.from)), [], path, key) && IsNonMergeableList(key);
    BothHave(t, path, key);
    SidesBetween(t, j, k, a, b, path);
    ItemsOfSides(t, path);
    r := LastMergeUnder(t, j, k, a, b, path, key);
  }

  /** one that can come to append has something too many, */
  lemma AddedHere(t: MergeTree, j: nat, k: nat, a: ConfigValue, b: ConfigValue, path: Key) returns (r: ConfigValue)
    requires Sides(t, j, k, a, b, path) && !KeysAre(t, path, true)
    ensures Yields(t, r) && |ItemsAt(r, path)| > |FirstItems(Leaves(t), path)|
  {
    var key :| Reachable(CollisionsOf(Leaves(t.self), Leaves(t.from)), [], path, key) && !IsNonMergeableList(key);
    BothHave(t, path, key);
    SidesBetween(t, j, k, a, b, path);
    ItemsOfSides(t, path);
    r := LastMergeUnder(t, j, k, a, b, path, key);
  }

  /** and neither is made good by a later merge. */
  lemma LastMergeKeeps(t: MergeTree, j: nat, k: nat, a: ConfigValue, b: ConfigValue, path: Key) returns (r: ConfigValue)
    requires Sides(t, j, k, a, b, path)
    ensures Yields(t, r)
    ensures |ItemsAt(r, path)| <= |ItemsAt(a, path)| + |ItemsAt(b, path)|
    ensures var higher, lower := if t.force then b else a, if t.force then a else b;
      |ItemsAt(r, path)| >= |ItemsAt(if Has(Higher(t), path) then higher else lower, path)|
  {
    r := LastMergeSucceeds(t, j, k, a, b, AnyOrder());
    var replaced := LastItems(t, j, k, a, b, AnyOrder(), r, path);
  }

  /** If some merge can come to replace the list, an item gets lost under some orders. */
  lemma {:induction false} SomethingLost(t: MergeTree, j: nat, k: nat, path: Key) returns (r: ConfigValue)
    requires Layered(t, j, k) && Consistent(Leaves(t)) && path != [] && FilledLists(Leaves(t), path) && !AllAppended(t, path)
    ensures Yields(t, r) && |ItemsAt(r, path)| < |AllItems(Leaves(t), path)|
    decreases t
  {
    FilledParts(t, path);
    ConsistentParts(t);
    UniformIsLayered(t.self, j);
    UniformIsLayered(t.from, k);
    var a := SomeYield(t.self, j);
    var b := SomeYield(t.from, k);
    if !KeysAre(t, path, false) {
      r := LostHere(t, j, k, a, b, path);
      return;
    }
    if !AllAppended(t.self, path) {
      a := SomethingLost(t.self, j, j, path);
    } else {
      b := SomethingLost(t.from, k, k, path);
    }
    SidesBetween(t, j, k, a, b, path);
    ItemsOfSides(t, path);
    r := LastMergeKeeps(t, j, k, a, b, path);
  }

  /** If some merge on the way to the first source can come to append, there is an item too many. */
  lemma {:induction false} SomethingAdded(t: MergeTree, j: nat, k: nat, path: Key) returns (r: ConfigValue)
    requires Layered(t, j, k) && Consistent(Leaves(t)) && path != [] && FilledLists(Leaves(t), path) && !AllReplaced(t, path)
    ensures Yields(t, r) && |ItemsAt(r, path)| > |FirstItems(Leaves(t), path)|
    decreases t
  {
    FilledParts(t, path);
    ConsistentParts(t);
    UniformIsLayered(t.self, j);
    UniformIsLayered(t.from, k);
    var a := SomeYield(t.self, j);
    var b := SomeYield(t.from, k);
    if Has(Higher(t), path) && !KeysAre(t, path, true) {
      r := AddedHere(t, j, k, a, b, path);
      return;
    }
    if Has(Higher(t), path) != t.force {
      a := SomethingAdded(t.self, j, j, path);
    } else {
      b := SomethingAdded(t.from, k, k, path);
    }
    ItemsOfSides(t, path);
    r := LastMergeKeeps(t, j, k, a, b, path);
  }

  ghost predicate AlwaysAll(t: MergeTree, path: Key) {
    forall r | Yields(t, r) :: ItemsAt(r, path) == AllItems(Leaves(t), path)
  }

  ghost predicate AlwaysFirst(t: MergeTree, path: Key) {
    forall r | Yields(t, r) :: ItemsAt(r, path) == FirstItems(Leaves(t), path)
  }

  /** Over all orders of all hash maps, a list is always that of all sources exactly if no merge can come to
      replace it, and always that of the first exactly if every merge on the way to it replaces. */
  lemma ListsExactly(t: MergeTree, j: nat, k: nat, path: Key)
    requires Layered(t, j, k) && Consistent(Leaves(t)) && path != [] && FilledLists(Leaves(t), path)
    ensures AlwaysAll(t, path) <==> AllAppended(t, path)
    ensures AlwaysFirst(t, path) <==> AllReplaced(t, path)
  {
    if AllAppended(t, path) {
      forall r | Yields(t, r) ensures ItemsAt(r, path) == AllItems(Leaves(t), path) {
        Appends(t, j, k, r, path);
      }
    } else {
      var r := SomethingLost(t, j, k, path);
    }
    if AllReplaced(t, path) {
      forall r | Yields(t, r) ensures ItemsAt(r, path) == FirstItems(Leaves(t), path) {
        Replaces(t, j, k, r, path);
      }
    } else {
      var r := SomethingAdded(t, j, k, path);
    }
  }
}
