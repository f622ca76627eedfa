/** A configuration built from several sources: which source decides each key path, and what
    becomes of lists. Sources are listed with the highest precedence first. */
module ConfigSources {
  import opened Units
  import opened ConfigValues
  import opened ConfigMerge
  import Sorting

  /** The value of the highest-precedence source that defines `path`. */
  function FirstDefined(prec: seq<ConfigValue>, path: Key): Option<ConfigValue> {
    if prec == [] then None
    else if Lookup(prec[0], path).Some? then Lookup(prec[0], path)
    else FirstDefined(prec[1..], path)
  }

  function ItemsAt(v: ConfigValue, path: Key): seq<ConfigValue> {
    match Lookup(v, path)
    case Some(ListV(items, _)) => items
    case _ => []
  }

  /** The list items of all sources, those of the lowest precedence first. */
  function AllItems(prec: seq<ConfigValue>, path: Key): seq<ConfigValue> {
    if prec == [] then [] else AllItems(prec[1..], path) + ItemsAt(prec[0], path)
  }

  /** The paths that sources on both sides define. */
  ghost function CollisionsOf(p: seq<ConfigValue>, q: seq<ConfigValue>): iset<Key> {
    iset path: Key | path != [] && FirstDefined(p, path).Some? && FirstDefined(q, path).Some?
  }

  /** Merging neighbouring sources can come to merge the list at the path under this key. */
  ghost predicate MergesUnder(prec: seq<ConfigValue>, path: Key, key: Key) {
    exists i: nat, j: nat, k: nat :: i <= j <= k <= |prec| && ReachesAcross(prec, i, j, k, path, key)
  }

  ghost predicate ReachesAcross(prec: seq<ConfigValue>, i: nat, j: nat, k: nat, path: Key, key: Key)
    requires i <= j <= k <= |prec|
  {
    Reachable(CollisionsOf(prec[i..j], prec[j..k]), [], path, key)
  }

  /** The list at the path is appended whatever is merged first. */
  ghost predicate SafeList(prec: seq<ConfigValue>, path: Key) {
    forall key | MergesUnder(prec, path, key) :: !IsNonMergeableList(key)
  }

  /** The list at the path is replaced whatever is merged first. */
  ghost predicate ReplacedList(prec: seq<ConfigValue>, path: Key) {
    forall key | MergesUnder(prec, path, key) :: IsNonMergeableList(key)
  }

  lemma SliceOfSlice(s: seq<ConfigValue>, lo: nat, hi: nat, i: nat, j: nat)
    requires lo <= hi <= |s| && i <= j <= hi - lo
    ensures s[lo..hi][i..j] == s[lo + i..lo + j]
  {
    var a, b := s[lo..hi][i..j], s[lo + i..lo + j];
    assert |a| == j - i;
    assert |b| == lo + j - (lo + i);
    forall x | 0 <= x < j - i ensures a[x] == b[x] {
      assert a[x] == s[lo..hi][i + x];
      assert b[x] == s[lo + i + x];
    }
  }

  lemma MergesUnderPart(prec: seq<ConfigValue>, lo: nat, hi: nat, path: Key, key: Key)
    requires lo <= hi <= |prec| && MergesUnder(prec[lo..hi], path, key)
    ensures MergesUnder(prec, path, key)
  {
    var part := prec[lo..hi];
    var i: nat, j: nat, k: nat :| i <= j <= k <= |part| && ReachesAcross(part, i, j, k, path, key);
    SliceOfSlice(prec, lo, hi, i, j);
    SliceOfSlice(prec, lo, hi, j, k);
    assert ReachesAcross(prec, lo + i, lo + j, lo + k, path, key);
  }

  // ----- Representation -----

  /** `r` says at `path` what the sources say: defined if any is, of the same class as all, a
      scalar of the first source, a list of the items of all of them or of the first. */
  ghost predicate AgreesAt(r: ConfigValue, prec: seq<ConfigValue>, path: Key) {
    var z := Lookup(r, path);
    && (z.None? <==> FirstDefined(prec, path).None?)
    && (z.Some? ==>
          && AllOfClass(prec, path, z.value)
          && (z.value.IsScalar() ==> z == FirstDefined(prec, path))
          && (z.value.ListV? && SafeList(prec, path) ==> z.value.items == AllItems(prec, path))
          && (z.value.ListV? && ReplacedList(prec, path) ==> z.value.items == FirstItems(prec, path)))
  }

  /** The items of the highest-precedence source that defines the path. */
  function FirstItems(prec: seq<ConfigValue>, path: Key): seq<ConfigValue> {
    match FirstDefined(prec, path)
    case Some(ListV(items, _)) => items
    case _ => []
  }

  ghost predicate Agrees(r: ConfigValue, prec: seq<ConfigValue>) {
    r.TableV? && forall path | path != [] :: AgreesAt(r, prec, path)
  }

  /** Scalars and list items below `r` come from definitions of rank `k`. */
  ghost predicate RankedAt(r: ConfigValue, k: nat, path: Key) {
    var z := Lookup(r, path);
    z.Some? ==>
      && (z.value.IsScalar() ==> z.value.def.Rank() == k)
      && (z.value.ListV? ==> z.value.def.Rank() == k && forall i | 0 <= i < |z.value.items| :: z.value.items[i].def.Rank() == k)
  }

  ghost predicate AllRanked(r: ConfigValue, k: nat) {
    forall path | path != [] :: RankedAt(r, k, path)
  }

  lemma {:induction false} FirstDefinedConcat(p: seq<ConfigValue>, q: seq<ConfigValue>, path: Key)
    ensures FirstDefined(p + q, path) == if FirstDefined(p, path).Some? then FirstDefined(p, path) else FirstDefined(q, path)
    ensures AllItems(p + q, path) == AllItems(q, path) + AllItems(p, path)
  {
    if p == [] {
      assert p + q == q;
    } else {
      assert (p + q)[1..] == p[1..] + q;
      FirstDefinedConcat(p[1..], q, path);
    }
  }

  lemma {:induction false} NoneDefined(prec: seq<ConfigValue>, path: Key)
    ensures FirstDefined(prec, path).None? <==> forall i | 0 <= i < |prec| :: Lookup(prec[i], path).None?
    ensures FirstDefined(prec, path).None? ==> AllItems(prec, path) == []
  {
    if prec != [] {
      NoneDefined(prec[1..], path);
      assert forall i | 1 <= i < |prec| :: prec[i] == prec[1..][i - 1];
    }
  }

  lemma SortedAlready(items: seq<ConfigValue>, j: nat, k: nat, more: seq<ConfigValue>)
    requires j <= k
    requires forall i | 0 <= i < |items| :: items[i].def.Rank() == j
    requires forall i | 0 <= i < |more| :: more[i].def.Rank() == k
    ensures ByDefinition(items + more) == items + more
  {
    Sorting.SortOfAscending(items + more, (v: ConfigValue) => v.def.Rank());
  }

  /** Where one side has no sources nothing is merged. */
  lemma NothingAcross(p: seq<ConfigValue>, q: seq<ConfigValue>, path: Key, key: Key)
    requires path != [] && (p == [] || q == [])
    ensures !Reachable(CollisionsOf(p, q), [], path, key)
  {
  }

  lemma OneSource(v: ConfigValue, path: Key)
    requires path != []
    ensures SafeList([v], path) && ReplacedList([v], path)
  {
    forall key ensures !MergesUnder([v], path, key) {
      forall i: nat, j: nat, k: nat | i <= j <= k <= 1 ensures !ReachesAcross([v], i, j, k, path, key) {
        NothingAcross([v][i..j], [v][j..k], path, key);
      }
    }
  }

  /** For two sources the keys are exactly those that merging the two can reach. */
  lemma TwoSources(x: ConfigValue, y: ConfigValue, path: Key, key: Key)
    requires path != []
    ensures MergesUnder([x, y], path, key) <==> Reachable(Collisions(x, y), [], path, key)
  {
    var prec := [x, y];
    forall p: Key ensures FirstDefined([x], p) == Lookup(x, p) && FirstDefined([y], p) == Lookup(y, p) {
      assert [x][1..] == [] && [y][1..] == [];
    }
    assert CollisionsOf([x], [y]) == Collisions(x, y);
    assert prec[0..1] == [x] && prec[1..2] == [y];
    assert ReachesAcross(prec, 0, 1, 2, path, key) <==> Reachable(Collisions(x, y), [], path, key);
    forall i: nat, j: nat, k: nat | i <= j <= k <= 2 && ReachesAcross(prec, i, j, k, path, key) ensures i == 0 && j == 1 && k == 2 {
      if prec[i..j] == [] || prec[j..k] == [] {
        NothingAcross(prec[i..j], prec[j..k], path, key);
      }
    }
  }

  /** What holds of all neighbours holds on each side. */
  lemma ListParts(p: seq<ConfigValue>, q: seq<ConfigValue>, path: Key)
    ensures SafeList(p + q, path) ==> SafeList(p, path) && SafeList(q, path)
    ensures ReplacedList(p + q, path) ==> ReplacedList(p, path) && ReplacedList(q, path)
  {
    var all := p + q;
    assert p == all[0..|p|] && q == all[|p|..|all|];
    forall key | MergesUnder(p, path, key) ensures MergesUnder(all, path, key) {
      MergesUnderPart(all, 0, |p|, path, key);
    }
    forall key | MergesUnder(q, path, key) ensures MergesUnder(all, path, key) {
      MergesUnderPart(all, |p|, |all|, path, key);
    }
  }

  lemma SameCollisions(a: ConfigValue, p: seq<ConfigValue>, b: ConfigValue, q: seq<ConfigValue>)
    requires Agrees(a, p) && Agrees(b, q)
    ensures Collisions(a, b) == CollisionsOf(p, q) == CollisionsOf(q, p)
  {
    forall path: Key | path != [] ensures path in Collisions(a, b) <==> path in CollisionsOf(p, q) {
      assert AgreesAt(a, p, path) && AgreesAt(b, q, path);
    }
  }

  /** A key this merge can reach is one that merging these neighbours can. */
  lemma ReachedHere(a: ConfigValue, p: seq<ConfigValue>, b: ConfigValue, q: seq<ConfigValue>, prec: seq<ConfigValue>, path: Key, key: Key)
    requires Agrees(a, p) && Agrees(b, q) && (prec == p + q || prec == q + p) && Reachable(Collisions(a, b), [], path, key)
    ensures MergesUnder(prec, path, key)
  {
    SameCollisions(a, p, b, q);
    if prec == p + q {
      assert prec[0..|p|] == p && prec[|p|..|prec|] == q;
      assert ReachesAcross(prec, 0, |p|, |prec|, path, key);
    } else {
      assert prec[0..|q|] == q && prec[|q|..|prec|] == p;
      assert ReachesAcross(prec, 0, |q|, |prec|, path, key);
    }
  }

  /** Every key that merging `b` into `a` can reach for the path is of one kind. */
  ghost predicate Decided(a: ConfigValue, b: ConfigValue, path: Key, replaced: bool) {
    forall key | Reachable(Collisions(a, b), [], path, key) :: IsNonMergeableList(key) == replaced
  }

  ghost predicate BothAre(a: ConfigValue, b: ConfigValue, r: ConfigValue, path: Key) {
    Lookup(a, path).Some? && Lookup(b, path).Some? && Lookup(r, path).Some? && Lookup(r, path).value.ListV?
  }

  /** Lists on both sides: the items of both, the higher side last, or those of the higher side. */
  lemma BothLists(a: ConfigValue, j: nat, b: ConfigValue, k: nat, r: ConfigValue, force: bool, path: Key, replaced: bool)
    requires (force ==> j <= k) && (!force ==> j == k)
    requires RankedAt(a, j, path) && RankedAt(b, k, path) && MergedAt(Collisions(a, b), [], a, b, r, force, [], path)
    requires BothAre(a, b, r, path) && Decided(a, b, path, replaced)
    ensures Lookup(a, path).value.ListV? && Lookup(b, path).value.ListV?
    ensures
      var x, y, z := Lookup(a, path).value.items, Lookup(b, path).value.items, Lookup(r, path).value.items;
      z == if replaced then (if force then y else x) else (if force then x + y else y + x)
  {
    var x, y, z := Lookup(a, path).value, Lookup(b, path).value, Lookup(r, path).value;
    var key :| Reachable(Collisions(a, b), [], path, key) && MergedListAt(x, y, z, force, [] + key);
    assert [] + key == key;
    PriorityIsRank(y.def, x.def);
    SortedAlready(x.items, j, j, []);
    SortedAlready(y.items, k, k, []);
    assert x.items + [] == x.items && y.items + [] == y.items;
    if force {
      SortedAlready(x.items, j, k, y.items);
    } else {
      SortedAlready(y.items, k, j, x.items);
    }
  }

  /** The parts of `AgreesAt` that are about lists. */
  ghost predicate ListAgrees(r: ConfigValue, prec: seq<ConfigValue>, path: Key) {
    var z := Lookup(r, path);
    && (z.None? ==> AllItems(prec, path) == [])
    && (z.Some? && z.value.ListV? && SafeList(prec, path) ==> z.value.items == AllItems(prec, path))
  }

  ghost predicate FirstAgrees(r: ConfigValue, prec: seq<ConfigValue>, path: Key) {
    var z := Lookup(r, path);
    && (z.None? <==> FirstDefined(prec, path).None?)
    && (z.Some? && z.value.ListV? && ReplacedList(prec, path) ==> z.value.items == FirstItems(prec, path))
  }

  lemma ListPart(r: ConfigValue, prec: seq<ConfigValue>, path: Key)
    requires AgreesAt(r, prec, path)
    ensures ListAgrees(r, prec, path) && FirstAgrees(r, prec, path)
  {
    NoneDefined(prec, path);
  }

  lemma ComposeLists(a: ConfigValue, p: seq<ConfigValue>, j: nat, b: ConfigValue, q: seq<ConfigValue>, k: nat,
                     r: ConfigValue, force: bool, path: Key)
    requires (force ==> j <= k) && (!force ==> j == k)
    requires ListAgrees(a, p, path) && ListAgrees(b, q, path) && SafeList(p, path) && SafeList(q, path)
    requires RankedAt(a, j, path) && RankedAt(b, k, path) && MergedAt(Collisions(a, b), [], a, b, r, force, [], path)
    requires Lookup(r, path).Some? && Lookup(r, path).value.ListV? && Decided(a, b, path, false)
    ensures Lookup(r, path).value.items
         == if force then AllItems(p, path) + AllItems(q, path) else AllItems(q, path) + AllItems(p, path)
  {
    if Lookup(a, path).Some? && Lookup(b, path).Some? {
      BothLists(a, j, b, k, r, force, path, false);
    }
  }

  lemma ComposeReplaced(a: ConfigValue, p: seq<ConfigValue>, j: nat, b: ConfigValue, q: seq<ConfigValue>, k: nat,
                        r: ConfigValue, force: bool, path: Key)
    requires (force ==> j <= k) && (!force ==> j == k)
    requires FirstAgrees(a, p, path) && FirstAgrees(b, q, path) && ReplacedList(p, path) && ReplacedList(q, path)
    requires RankedAt(a, j, path) && RankedAt(b, k, path) && MergedAt(Collisions(a, b), [], a, b, r, force, [], path)
    requires Lookup(r, path).Some? && Lookup(r, path).value.ListV? && Decided(a, b, path, true)
    ensures Lookup(r, path).value.items == FirstItems(if force then q + p else p + q, path)
  {
    FirstDefinedConcat(p, q, path);
    FirstDefinedConcat(q, p, path);
    if Lookup(a, path).Some? && Lookup(b, path).Some? {
      BothLists(a, j, b, k, r, force, path, true);
    }
  }

  ghost predicate AllOfClass(prec: seq<ConfigValue>, path: Key, v: ConfigValue) {
    forall i | 0 <= i < |prec| && Lookup(prec[i], path).Some? :: v.SameClass(Lookup(prec[i], path).value)
  }

  lemma AllOfClassConcat(p: seq<ConfigValue>, q: seq<ConfigValue>, path: Key, v: ConfigValue)
    requires AllOfClass(p, path, v) && AllOfClass(q, path, v)
    ensures AllOfClass(p + q, path, v)
  {
    forall i | 0 <= i < |p + q| ensures Lookup((p + q)[i], path).Some? ==> v.SameClass(Lookup((p + q)[i], path).value) {
      assert (p + q)[i] == if i < |p| then p[i] else q[i - |p|];
    }
  }

  lemma SideOfClass(a: ConfigValue, p: seq<ConfigValue>, path: Key, v: ConfigValue)
    requires AgreesAt(a, p, path) && (Lookup(a, path).Some? ==> v.SameClass(Lookup(a, path).value))
    ensures AllOfClass(p, path, v)
  {
    NoneDefined(p, path);
  }

  lemma ComposeClasses(a: ConfigValue, p: seq<ConfigValue>, b: ConfigValue, q: seq<ConfigValue>, r: ConfigValue,
                       force: bool, prec: seq<ConfigValue>, path: Key)
    requires AgreesAt(a, p, path) && AgreesAt(b, q, path) && MergedAt(Collisions(a, b), [], a, b, r, force, [], path)
    requires prec == p + q || prec == q + p
    ensures Lookup(r, path).None? <==> FirstDefined(prec, path).None?
    ensures Lookup(r, path).Some? ==> AllOfClass(prec, path, Lookup(r, path).value)
  {
    FirstDefinedConcat(p, q, path);
    FirstDefinedConcat(q, p, path);
    if Lookup(r, path).Some? {
      var z := Lookup(r, path).value;
      SideOfClass(a, p, path, z);
      SideOfClass(b, q, path, z);
      AllOfClassConcat(p, q, path, z);
      AllOfClassConcat(q, p, path, z);
    }
  }

  /** The part of `AgreesAt` that is about scalars. */
  ghost predicate ScalarAgrees(r: ConfigValue, prec: seq<ConfigValue>, path: Key) {
    var z := Lookup(r, path);
    && (z.None? <==> FirstDefined(prec, path).None?)
    && (z.Some? && z.value.IsScalar() ==> z == FirstDefined(prec, path))
  }

  lemma ComposeScalars(a: ConfigValue, p: seq<ConfigValue>, j: nat, b: ConfigValue, q: seq<ConfigValue>, k: nat, r: ConfigValue,
                       force: bool, path: Key)
    requires (force ==> j <= k) && (!force ==> j == k)
    requires ScalarAgrees(a, p, path) && ScalarAgrees(b, q, path) && MergedAt(Collisions(a, b), [], a, b, r, force, [], path)
    requires RankedAt(a, j, path) && RankedAt(b, k, path)
    requires Lookup(r, path).Some? && Lookup(r, path).value.IsScalar()
    ensures
      var x, y := FirstDefined(p, path), FirstDefined(q, path);
      Lookup(r, path) == if force then (if y.Some? then y else x) else (if x.Some? then x else y)
  {
  }

  /** One path of a merge of `b` into `a`, where `a` stands for `p` and `b` for `q`. `j` and `k`
      are the ranks below `a` and `b`. */
  lemma ComposeAt(a: ConfigValue, p: seq<ConfigValue>, j: nat, b: ConfigValue, q: seq<ConfigValue>, k: nat,
                  force: bool, ord: Order, path: Key)
    requires ValidOrder(ord) && path != [] && (force ==> j <= k) && (!force ==> j == k)
    requires Agrees(a, p) && Agrees(b, q) && AllRanked(a, j) && AllRanked(b, k)
    requires Merge(a, b, force, ord).Some?
    ensures AgreesAt(Merge(a, b, force, ord).value, if force then q + p else p + q, path)
  {
    var r := Merge(a, b, force, ord).value;
    var prec := if force then q + p else p + q;
    MergeLookupAll(a, b, force, ord, path);
    assert AgreesAt(a, p, path) && AgreesAt(b, q, path) && RankedAt(a, j, path) && RankedAt(b, k, path);
    ComposeClasses(a, p, b, q, r, force, prec, path);
    FirstDefinedConcat(p, q, path);
    FirstDefinedConcat(q, p, path);
    var z := Lookup(r, path);
    if z.Some? && z.value.IsScalar() {
      ComposeScalars(a, p, j, b, q, k, r, force, path);
    } else if z.Some? && z.value.ListV? {
      ComposeListAt(a, p, j, b, q, k, r, force, path);
    }
  }

  lemma ComposeListAt(a: ConfigValue, p: seq<ConfigValue>, j: nat, b: ConfigValue, q: seq<ConfigValue>, k: nat,
                      r: ConfigValue, force: bool, path: Key)
    requires path != [] && (force ==> j <= k) && (!force ==> j == k)
    requires Agrees(a, p) && Agrees(b, q) && RankedAt(a, j, path) && RankedAt(b, k, path)
    requires MergedAt(Collisions(a, b), [], a, b, r, force, [], path)
    requires Lookup(r, path).Some? && Lookup(r, path).value.ListV?
    ensures var prec := if force then q + p else p + q;
      && (SafeList(prec, path) ==> Lookup(r, path).value.items == AllItems(prec, path))
      && (ReplacedList(prec, path) ==> Lookup(r, path).value.items == FirstItems(prec, path))
  {
    var prec := if force then q + p else p + q;
    ListParts(p, q, path);
    ListParts(q, p, path);
    assert AgreesAt(a, p, path) && AgreesAt(b, q, path);
    ListPart(a, p, path);
    ListPart(b, q, path);
    forall key | Reachable(Collisions(a, b), [], path, key) ensures MergesUnder(prec, path, key) {
      ReachedHere(a, p, b, q, prec, path, key);
    }
    FirstDefinedConcat(p, q, path);
    FirstDefinedConcat(q, p, path);
    if SafeList(prec, path) {
      ComposeLists(a, p, j, b, q, k, r, force, path);
    }
    if ReplacedList(prec, path) {
      ComposeReplaced(a, p, j, b, q, k, r, force, path);
    }
  }

  /** Merging with `force` puts the sources of `b` in front, merging without behind. */
  lemma Compose(a: ConfigValue, p: seq<ConfigValue>, j: nat, b: ConfigValue, q: seq<ConfigValue>, k: nat, force: bool, ord: Order)
    requires ValidOrder(ord) && (force ==> j <= k) && (!force ==> j == k)
    requires Agrees(a, p) && Agrees(b, q) && AllRanked(a, j) && AllRanked(b, k)
    requires Merge(a, b, force, ord).Some?
    ensures Agrees(Merge(a, b, force, ord).value, if force then q + p else p + q)
    ensures j == k ==> AllRanked(Merge(a, b, force, ord).value, k)
  {
    var r := Merge(a, b, force, ord).value;
    var prec := if force then q + p else p + q;
    forall path | path != [] ensures AgreesAt(r, prec, path) {
      ComposeAt(a, p, j, b, q, k, force, ord, path);
    }
    forall path | path != [] && j == k ensures RankedAt(r, k, path) {
      MergeLookupAll(a, b, force, ord, path);
      assert RankedAt(a, k, path) && RankedAt(b, k, path);
      ComposeRanks(a, b, r, force, k, path);
    }
  }

  ghost predicate ItemsRanked(items: seq<ConfigValue>, k: nat) {
    forall i | 0 <= i < |items| :: items[i].def.Rank() == k
  }

  /** Whatever two lists of one rank are merged to has that rank. */
  lemma MergedItemsRanked(x: seq<ConfigValue>, y: seq<ConfigValue>, force: bool, higher: bool, key: Key, k: nat)
    requires ItemsRanked(x, k) && ItemsRanked(y, k)
    ensures ItemsRanked(MergeLists(x, y, force, higher, key), k)
  {
    SortedAlready(x, k, k, y);
    SortedAlready(y, k, k, x);
    SortedAlready(x, k, k, []);
    SortedAlready(y, k, k, []);
    assert x + [] == x && y + [] == y;
  }

  lemma ComposeRanks(a: ConfigValue, b: ConfigValue, r: ConfigValue, force: bool, k: nat, path: Key)
    requires RankedAt(a, k, path) && RankedAt(b, k, path) && MergedAt(Collisions(a, b), [], a, b, r, force, [], path)
    ensures RankedAt(r, k, path)
  {
    var x, y, z := Lookup(a, path), Lookup(b, path), Lookup(r, path);
    if x.Some? && y.Some? && x.value.ListV? {
      var key :| Reachable(Collisions(a, b), [], path, key) && MergedListAt(x.value, y.value, z.value, force, [] + key);
      MergedItemsRanked(x.value.items, y.value.items, force, y.value.def.IsHigherPriority(x.value.def), [] + key, k);
    }
  }

  /** `v` stands for the sources `prec`, all of them of rank `k`. */
  ghost predicate StandsFor(v: ConfigValue, prec: seq<ConfigValue>, k: nat) {
    Agrees(v, prec) && AllRanked(v, k)
  }

  lemma EmptyStandsForNothing(def: Definition, k: nat)
    ensures StandsFor(TableV(map[], def), [], k)
  {
    forall path: Key | path != [] ensures AgreesAt(TableV(map[], def), [], path) && RankedAt(TableV(map[], def), k, path) {}
  }

  lemma StandsForItself(v: ConfigValue, k: nat)
    requires v.TableV? && AllRanked(v, k)
    ensures StandsFor(v, [v], k)
  {
    forall path | path != [] ensures AgreesAt(v, [v], path) {
      assert [v][1..] == [];
      assert FirstDefined([v], path) == Lookup(v, path);
      assert AllItems([v], path) == ItemsAt(v, path);
    }
  }

  // ----- When sources can be merged at all -----

  /** No two sources disagree on whether a path is a table, a list or a scalar. */
  ghost predicate Consistent(prec: seq<ConfigValue>) {
    forall x, y, path | x in prec && y in prec && path != [] :: !Clash(x, y, path)
  }

  lemma AgreedIsConsistent(r: ConfigValue, prec: seq<ConfigValue>)
    requires Agrees(r, prec)
    ensures Consistent(prec)
  {
    forall x, y, path | x in prec && y in prec && path != [] ensures !Clash(x, y, path) {
      assert AgreesAt(r, prec, path);
      NoneDefined(prec, path);
      var i :| 0 <= i < |prec| && prec[i] == x;
      var j :| 0 <= j < |prec| && prec[j] == y;
    }
  }

  /** A value that agrees with its sources clashes only where one of them does. */
  lemma SourceOf(a: ConfigValue, p: seq<ConfigValue>, path: Key) returns (x: ConfigValue)
    requires AgreesAt(a, p, path) && Lookup(a, path).Some?
    ensures x in p && Lookup(x, path).Some? && Lookup(a, path).value.SameClass(Lookup(x, path).value)
  {
    NoneDefined(p, path);
    var i :| 0 <= i < |p| && Lookup(p[i], path).Some?;
    x := p[i];
  }

  /** If the merge fails, so does every list that has the sources of both sides. */
  lemma FailedIsInconsistent(a: ConfigValue, p: seq<ConfigValue>, b: ConfigValue, q: seq<ConfigValue>, force: bool, ord: Order,
                             all: seq<ConfigValue>)
    requires ValidOrder(ord) && Agrees(a, p) && Agrees(b, q) && Merge(a, b, force, ord).None?
    requires (forall x | x in p :: x in all) && (forall x | x in q :: x in all)
    ensures !Consistent(all)
  {
    var path := FailureIsClash(a, b, force, [], ord);
    assert path != [];
    assert AgreesAt(a, p, path) && AgreesAt(b, q, path);
    var x := SourceOf(a, p, path);
    var y := SourceOf(b, q, path);
    assert x in all && y in all && Clash(x, y, path);
  }

  lemma PartIsInconsistent(all: seq<ConfigValue>, part: seq<ConfigValue>)
    requires !Consistent(part) && forall x | x in part :: x in all
    ensures !Consistent(all)
  {
    var x, y, path :| x in part && y in part && path != [] && Clash(x, y, path);
    assert x in all && y in all;
  }

  // ----- Conditions that are easy to check -----

  /** On the way to the path, no two sources share another entry. */
  ghost predicate OnlyThisCollides(prec: seq<ConfigValue>, path: Key) {
    forall i: nat, k, x, y | i < |path| && 0 <= x < y < |prec| && Shared(prec, x, y, path[..i] + [k]) :: k == path[i]
  }

  ghost predicate Shared(prec: seq<ConfigValue>, x: int, y: int, path: Key)
    requires 0 <= x < y < |prec|
  {
    Lookup(prec[x], path).Some? && Lookup(prec[y], path).Some?
  }

  lemma CollisionIsShared(prec: seq<ConfigValue>, i: nat, j: nat, k: nat, path: Key) returns (x: int, y: int)
    requires i <= j <= k <= |prec| && path in CollisionsOf(prec[i..j], prec[j..k])
    ensures 0 <= x < y < |prec| && Shared(prec, x, y, path)
  {
    NoneDefined(prec[i..j], path);
    NoneDefined(prec[j..k], path);
    var a :| 0 <= a < |prec[i..j]| && Lookup(prec[i..j][a], path).Some?;
    var b :| 0 <= b < |prec[j..k]| && Lookup(prec[j..k][b], path).Some?;
    x, y := i + a, j + b;
  }

  /** Then the path alone decides: a non-mergeable list is replaced, any other is appended. */
  lemma PathDecides(prec: seq<ConfigValue>, path: Key)
    requires OnlyThisCollides(prec, path)
    ensures if IsNonMergeableList(path) then ReplacedList(prec, path) else SafeList(prec, path)
  {
    forall key | MergesUnder(prec, path, key) ensures key == path {
      var i: nat, j: nat, k: nat :| i <= j <= k <= |prec| && ReachesAcross(prec, i, j, k, path, key);
      var c := CollisionsOf(prec[i..j], prec[j..k]);
      forall n: nat, s | n < |path| && [] + path[..n] + [s] in c ensures s == path[n] {
        assert [] + path[..n] + [s] == path[..n] + [s];
        var x, y := CollisionIsShared(prec, i, j, k, path[..n] + [s]);
      }
      AloneIsPath(c, [], path, key);
    }
  }

  const CredentialAlias := "credential-alias"

  /** No pattern ends like the path, and an alias list is not meant. */
  predicate PlainPath(path: Key) {
    && path != []
    && path[|path| - 1] !in {"browser", "runner", "credential-provider"}
    && (|path| <= 2 ==> path[0] != CredentialAlias)
  }

  /** The ends of a reachable key. */
  lemma {:induction false} KeyShape(c: iset<Key>, at: Key, path: Key, key: Key)
    requires path != [] && Reachable(c, at, path, key)
    ensures |key| >= |path| && key[|key| - 1] == path[|path| - 1] && (|key| == |path| ==> key == path)
    ensures at + [key[0]] in c
    decreases |path|
  {
    var n: nat, done: set<string> :| n < |key| && ReachableAfter(c, at, path, key, n, done);
    var rest := key[n + 1..];
    assert Reachable(c, at + [path[0]], path[1..], rest);
    if path[1..] != [] {
      KeyShape(c, at + [path[0]], path[1..], rest);
      assert rest[|rest| - 1] == key[|key| - 1] && path[1..][|path| - 2] == path[|path| - 1];
    }
    if n > 0 {
      FirstPushed(c, at, done, key[..n]);
    } else if |key| == |path| {
      assert key == [key[0]] + key[1..] && path == [path[0]] + path[1..];
    }
  }

  lemma {:induction false} FirstPushed(c: iset<Key>, at: Key, done: set<string>, w: Key)
    requires w != [] && Pushed(c, at, done, w)
    ensures at + [w[0]] in c
    decreases |w|
  {
    var n: nat :| n < |w| && PushedLast(c, at, done, w, n);
    if n > 0 {
      FirstPushed(c, at, done - {w[n]}, w[..n]);
    }
  }

  lemma PlainKeyIsMergeable(path: Key, key: Key)
    requires PlainPath(path) && |key| >= |path| && key[|key| - 1] == path[|path| - 1] && (|key| == |path| ==> key == path)
    requires |path| == 1 ==> key[0] != CredentialAlias
    ensures !IsNonMergeableList(key)
  {
    forall p | p in NonMergeableLists ensures !Matches(key, p) {
      assert p[0] != "*" && (p[|p| - 1] == "*" ==> p == [CredentialAlias, "*"]);
      assert p[|p| - 1] != "*" ==> p[|p| - 1] in {"browser", "runner", "credential-provider"};
    }
  }

  /** The sources of which at most one has aliases. */
  ghost predicate OneAliasSource(prec: seq<ConfigValue>) {
    forall i, j | 0 <= i < j < |prec| ::
      Lookup(prec[i], [CredentialAlias]).None? || Lookup(prec[j], [CredentialAlias]).None?
  }

  /** A plain list below the top level is always appended, one at the top level at least where
      no two sources have aliases. */
  lemma PlainListIsSafe(prec: seq<ConfigValue>, path: Key)
    requires PlainPath(path) && (|path| == 1 ==> OneAliasSource(prec))
    ensures SafeList(prec, path)
  {
    forall key | MergesUnder(prec, path, key) ensures !IsNonMergeableList(key) {
      var i: nat, j: nat, k: nat :| i <= j <= k <= |prec| && ReachesAcross(prec, i, j, k, path, key);
      KeyShape(CollisionsOf(prec[i..j], prec[j..k]), [], path, key);
      if |path| == 1 && key[0] == CredentialAlias {
        AliasOnce(prec, i, j, k);
      }
      PlainKeyIsMergeable(path, key);
    }
  }

  lemma AliasOnce(prec: seq<ConfigValue>, i: nat, j: nat, k: nat)
    requires i <= j <= k <= |prec| && OneAliasSource(prec)
    ensures [] + [CredentialAlias] !in CollisionsOf(prec[i..j], prec[j..k])
  {
    var at := [CredentialAlias];
    assert [] + [CredentialAlias] == at;
    if at in CollisionsOf(prec[i..j], prec[j..k]) {
      var x, y := CollisionIsShared(prec, i, j, k, at);
    }
  }
}
