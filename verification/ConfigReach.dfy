/** Every key that a list can be merged under is the key of some order of the hash maps, so what a
    merge does to a list under every order can be read off the two values. */
module ConfigReach {
  import opened Units
  import opened ConfigValues
  import opened ConfigMerge
  import Sorting

  // ----- Merging succeeds under every order or under none -----

  ghost predicate Clashless(a: ConfigValue, b: ConfigValue) {
    forall path :: !Clash(a, b, path)
  }

  lemma ClashlessEntry(a: ConfigValue, b: ConfigValue, k: string)
    requires Clashless(a, b) && a.TableV? && b.TableV? && k in a.entries && k in b.entries
    ensures Clashless(a.entries[k], b.entries[k])
  {
    forall path ensures !Clash(a.entries[k], b.entries[k], path) {
      assert ([k] + path)[1..] == path;
      assert !Clash(a, b, [k] + path);
    }
  }

  lemma Succeeds(a: ConfigValue, b: ConfigValue, force: bool, parts: Key, ord: Order)
    requires Clashless(a, b) && ValidOrder(ord)
    ensures MergeHelper(a, b, force, parts, ord).MergeOk?
  {
    if MergeHelper(a, b, force, parts, ord).MergeFailed? {
      var path := FailureIsClash(a, b, force, parts, ord);
    }
  }

  ghost predicate KeysOf(keys: seq<string>, from: ConfigValue) {
    from.TableV? && Sorting.NoRepeats(keys) && forall k | k in keys :: k in from.entries
  }

  lemma EntriesSucceed(a: ConfigValue, b: ConfigValue, keys: seq<string>, force: bool, parts: Key, ord: Order)
    requires Clashless(a, b) && ValidOrder(ord) && a.TableV? && KeysOf(keys, b)
    ensures MergeEntries(a.entries, b, keys, force, parts, ord).EntriesOk?
  {
    if MergeEntries(a.entries, b, keys, force, parts, ord).EntriesFailed? {
      var path := EntryClash(a.entries, b, keys, force, parts, ord, a);
    }
  }

  /** A merge succeeds exactly if nothing clashes, whatever the order. */
  lemma SucceedsExactly(a: ConfigValue, b: ConfigValue, force: bool, ord: Order)
    requires ValidOrder(ord)
    ensures Merge(a, b, force, ord).Some? <==> Clashless(a, b)
  {
    if Merge(a, b, force, ord).Some? {
      forall path ensures !Clash(a, b, path) {
        MergeLookupAll(a, b, force, ord, path);
      }
    } else if Clashless(a, b) {
      Succeeds(a, b, force, [], ord);
    }
  }

  // ----- A merge looks only at what it pushes -----

  ghost predicate Same(ord: Order, ord': Order, lo: nat, hi: nat) {
    forall parts: Key, m: Entries | lo <= |parts| <= hi :: ord(parts, m) == ord'(parts, m)
  }

  lemma CoversItself(a: ConfigValue, b: ConfigValue)
    ensures Covers(Collisions(a, b), [], a, b)
  {
    assert forall p: Key :: [] + p == p;
  }

  lemma EntriesGrow(a: ConfigValue, b: ConfigValue, keys: seq<string>, force: bool, parts: Key, ord: Order)
    requires ValidOrder(ord) && a.TableV? && KeysOf(keys, b) && MergeEntries(a.entries, b, keys, force, parts, ord).EntriesOk?
    ensures |parts| <= |MergeEntries(a.entries, b, keys, force, parts, ord).parts|
  {
    CoversItself(a, b);
    var w := EntriesPush(Collisions(a, b), [], a, b, keys, force, parts, ord);
  }

  lemma HelperGrows(a: ConfigValue, b: ConfigValue, force: bool, parts: Key, ord: Order)
    requires ValidOrder(ord) && MergeHelper(a, b, force, parts, ord).MergeOk?
    ensures |parts| <= |MergeHelper(a, b, force, parts, ord).parts|
  {
    CoversItself(a, b);
    var w := MergePushes(Collisions(a, b), [], a, b, force, parts, ord);
  }

  lemma {:induction false} LocalHelper(a: ConfigValue, b: ConfigValue, force: bool, parts: Key, ord: Order, ord': Order)
    requires ValidOrder(ord) && ValidOrder(ord') && MergeHelper(a, b, force, parts, ord).MergeOk?
    requires Same(ord, ord', |parts|, |MergeHelper(a, b, force, parts, ord).parts|)
    ensures MergeHelper(a, b, force, parts, ord') == MergeHelper(a, b, force, parts, ord)
    decreases b, 1, 0
  {
    if a.TableV? && b.TableV? {
      HelperGrows(a, b, force, parts, ord);
      var keys := ord(parts, b.entries);
      assert Enumerates(keys, b.entries);
      LocalEntries(a, b, keys, force, parts, ord, ord');
    }
  }

  lemma {:induction false} LocalEntries(a: ConfigValue, b: ConfigValue, keys: seq<string>, force: bool, parts: Key, ord: Order, ord': Order)
    requires ValidOrder(ord) && ValidOrder(ord') && a.TableV? && KeysOf(keys, b)
    requires MergeEntries(a.entries, b, keys, force, parts, ord).EntriesOk?
    requires Same(ord, ord', |parts| + 1, |MergeEntries(a.entries, b, keys, force, parts, ord).parts|)
    ensures MergeEntries(a.entries, b, keys, force, parts, ord') == MergeEntries(a.entries, b, keys, force, parts, ord)
    decreases b, 0, |keys|
  {
    if keys != [] {
      var init, k := keys[..|keys| - 1], keys[|keys| - 1];
      assert keys == init + [k] && k !in init;
      OneMoreEntry(a, b, keys, force, parts, ord);
      EntriesGrow(a, b, init, force, parts, ord);
      var m := MergeEntries(a.entries, b, init, force, parts, ord);
      EntriesDomain(a.entries, b, init, force, parts, ord);
      if k in a.entries {
        HelperGrows(a.entries[k], b.entries[k], force, m.parts + [k], ord);
        LocalHelper(a.entries[k], b.entries[k], force, m.parts + [k], ord, ord');
      }
      LocalEntries(a, b, init, force, parts, ord, ord');
    }
  }

  // ----- Building an order -----

  ghost function Pick(s: set<string>): (k: string)
    requires s != {}
    ensures k in s
  {
    var k :| k in s; k
  }

  ghost function SomeKeys(s: set<string>): (r: seq<string>)
    ensures (forall k :: k in r <==> k in s) && Sorting.NoRepeats(r)
  {
    if s == {} then []
    else SomeKeys(s - {Pick(s)}) + [Pick(s)]
  }

  ghost function AnyOrder(): (ord: Order)
    ensures ValidOrder(ord)
  {
    (parts: Key, m: Entries) => SomeKeys(m.Keys)
  }

  /** One order for what comes early, another for what comes late. */
  ghost function Splice(early: Order, late: Order, n: nat): (ord: Order)
    requires ValidOrder(early) && ValidOrder(late)
    ensures ValidOrder(ord) && forall lo: nat, hi: nat :: (hi <= n ==> Same(early, ord, lo, hi)) && (lo > n ==> Same(late, ord, lo, hi))
  {
    (parts: Key, m: Entries) => if |parts| <= n then early(parts, m) else late(parts, m)
  }

  /** The given keys for one map, at one point. */
  ghost function Choose(ord: Order, parts: Key, m: Entries, keys: seq<string>): (r: Order)
    requires ValidOrder(ord) && Enumerates(keys, m)
    ensures ValidOrder(r) && r(parts, m) == keys
    ensures forall lo: nat, hi: nat | lo > |parts| :: Same(ord, r, lo, hi)
  {
    (p: Key, x: Entries) => if p == parts && x == m then keys else ord(p, x)
  }

  lemma SameTrans(a: Order, b: Order, c: Order, lo: nat, hi: nat)
    requires Same(a, b, lo, hi) && Same(b, c, lo, hi)
    ensures Same(a, c, lo, hi)
  {
  }

  lemma DistinctConcat(a: seq<string>, b: seq<string>)
    requires Sorting.NoRepeats(a) && Sorting.NoRepeats(b) && forall k | k in a :: k !in b
    ensures Sorting.NoRepeats(a + b)
  {
    forall i, j | 0 <= i < j < |a + b| ensures (a + b)[i] != (a + b)[j] {
      if i < |a| <= j {
        assert a[i] in a && b[j - |a|] in b;
      }
    }
  }

  // ----- Every push can happen -----

  lemma NothingPushed(c: iset<Key>, at: Key, w: Key)
    requires Pushed(c, at, {}, w)
    ensures w == []
  {
  }

  lemma {:induction false} RealisePushed(c: iset<Key>, at: Key, a: ConfigValue, b: ConfigValue, done: set<string>, w: Key, force: bool, parts: Key)
      returns (keys: seq<string>, ord: Order)
    requires a.TableV? && b.TableV? && Covers(c, at, a, b) && Clashless(a, b) && Pushed(c, at, done, w)
    ensures ValidOrder(ord) && KeysOf(keys, b) && (forall k :: k in keys <==> k in done)
    ensures MergeEntries(a.entries, b, keys, force, parts, ord).EntriesOk?
    ensures MergeEntries(a.entries, b, keys, force, parts, ord).parts == parts + w
    decreases |w|, 0
  {
    if w == [] {
      keys, ord := [], AnyOrder();
    } else {
      var n: nat :| n < |w| && PushedLast(c, at, done, w, n);
      var k := w[n];
      CoversEntry(c, at, a, b, k);
      ClashlessEntry(a, b, k);
      var keys', early := RealisePushed(c, at, a, b, done - {k}, w[..n], force, parts);
      var late := RealiseAll(c, at + [k], a.entries[k], b.entries[k], w[n + 1..], force, parts + w[..n] + [k]);
      keys, ord := RealiseLast(a, b, keys', k, w[..n], w[n + 1..], force, parts, early, late);
      Rejoin(parts, w, n);
    }
  }

  lemma Rejoin(parts: Key, w: Key, n: nat)
    requires n < |w|
    ensures parts + w[..n] + [w[n]] + w[n + 1..] == parts + w
  {
  }

  lemma RealiseLast(a: ConfigValue, b: ConfigValue, keys: seq<string>, k: string, before: Key, deeper: Key, force: bool, parts: Key,
                    early: Order, late: Order) returns (keys': seq<string>, ord: Order)
    requires ValidOrder(early) && ValidOrder(late) && Clashless(a, b) && a.TableV? && b.TableV? && KeysOf(keys, b)
    requires k in a.entries && k in b.entries && k !in keys
    requires MergeEntries(a.entries, b, keys, force, parts, early).EntriesOk?
    requires MergeEntries(a.entries, b, keys, force, parts, early).parts == parts + before
    requires MergeHelper(a.entries[k], b.entries[k], force, parts + before + [k], late).MergeOk?
    requires MergeHelper(a.entries[k], b.entries[k], force, parts + before + [k], late).parts == parts + before + [k] + deeper
    ensures ValidOrder(ord) && KeysOf(keys', b) && (forall x :: x in keys' <==> x in keys || x == k)
    ensures MergeEntries(a.entries, b, keys', force, parts, ord).EntriesOk?
    ensures MergeEntries(a.entries, b, keys', force, parts, ord).parts == parts + before + [k] + deeper
  {
    var mid := parts + before;
    keys', ord := keys + [k], Splice(early, late, |mid|);
    var top := |mid + [k] + deeper|;
    assert Same(early, ord, |parts| + 1, |mid|) && Same(late, ord, |mid| + 1, top);
    AppendEntry(a, b, keys, k, force, parts, mid, early, late, ord);
  }

  /** One more entry, under an order spliced behind the earlier ones. */
  lemma AppendEntry(a: ConfigValue, b: ConfigValue, keys: seq<string>, k: string, force: bool, parts: Key, mid: Key,
                    early: Order, late: Order, ord: Order)
    requires ValidOrder(early) && ValidOrder(late) && ValidOrder(ord) && Clashless(a, b)
    requires a.TableV? && b.TableV? && KeysOf(keys, b) && k in a.entries && k in b.entries && k !in keys && |parts| <= |mid|
    requires MergeEntries(a.entries, b, keys, force, parts, early).EntriesOk?
    requires MergeEntries(a.entries, b, keys, force, parts, early).parts == mid
    requires MergeHelper(a.entries[k], b.entries[k], force, mid + [k], late).MergeOk?
    requires Same(early, ord, |parts| + 1, |mid|)
    requires Same(late, ord, |mid| + 1, |MergeHelper(a.entries[k], b.entries[k], force, mid + [k], late).parts|)
    ensures KeysOf(keys + [k], b)
    ensures var h := MergeHelper(a.entries[k], b.entries[k], force, mid + [k], late);
      var t := MergeEntries(a.entries, b, keys + [k], force, parts, ord);
      t.EntriesOk? && t.parts == h.parts && k in t.entries && t.entries[k] == h.value
  {
    LocalEntries(a, b, keys, force, parts, early, ord);
    LocalHelper(a.entries[k], b.entries[k], force, mid + [k], late, ord);
    assert (keys + [k])[..|keys|] == keys;
    EntriesSucceed(a, b, keys + [k], force, parts, ord);
    OneMoreEntry(a, b, keys + [k], force, parts, ord);
  }

  lemma {:induction false} RealiseAll(c: iset<Key>, at: Key, a: ConfigValue, b: ConfigValue, w: Key, force: bool, parts: Key) returns (ord: Order)
    requires Covers(c, at, a, b) && Clashless(a, b) && PushedAll(c, at, w)
    ensures ValidOrder(ord) && MergeHelper(a, b, force, parts, ord).MergeOk?
    ensures MergeHelper(a, b, force, parts, ord).parts == parts + w
    decreases |w|, 1
  {
    var done: set<string> :| AllAt(c, at, done) && Pushed(c, at, done, w);
    if a.TableV? && b.TableV? {
      var keys, inner := RealisePushed(c, at, a, b, done, w, force, parts);
      forall k ensures k in done <==> k in a.entries && k in b.entries {
        CoversEntry(c, at, a, b, k);
      }
      ord := RealiseTable(a, b, keys, w, force, parts, inner);
    } else {
      ord := AnyOrder();
      forall k ensures k !in done {
        assert Lookup(a, [k]).None? || Lookup(b, [k]).None?;
      }
      assert done == {};
      NothingPushed(c, at, w);
      Succeeds(a, b, force, parts, ord);
    }
  }

  /** The colliding entries first, then the others. */
  lemma RealiseTable(a: ConfigValue, b: ConfigValue, keys: seq<string>, w: Key, force: bool, parts: Key, inner: Order) returns (ord: Order)
    requires Clashless(a, b) && a.TableV? && b.TableV? && ValidOrder(inner) && KeysOf(keys, b)
    requires forall k :: k in keys <==> k in a.entries && k in b.entries
    requires MergeEntries(a.entries, b, keys, force, parts, inner).EntriesOk?
    requires MergeEntries(a.entries, b, keys, force, parts, inner).parts == parts + w
    ensures ValidOrder(ord) && MergeHelper(a, b, force, parts, ord).MergeOk?
    ensures MergeHelper(a, b, force, parts, ord).parts == parts + w
  {
    var rest := SomeKeys(b.entries.Keys - a.entries.Keys);
    DistinctConcat(keys, rest);
    assert Enumerates(keys + rest, b.entries);
    ord := Choose(inner, parts, b.entries, keys + rest);
    LocalEntries(a, b, keys, force, parts, inner, ord);
    EntriesSucceed(a, b, keys + rest, force, parts, ord);
    RestPushesNothing(a, b, keys, rest, force, parts, ord);
  }

  lemma {:induction false} RestPushesNothing(a: ConfigValue, b: ConfigValue, keys: seq<string>, rest: seq<string>, force: bool, parts: Key, ord: Order)
    requires ValidOrder(ord) && a.TableV? && KeysOf(keys + rest, b) && (forall k | k in rest :: k !in a.entries)
    requires MergeEntries(a.entries, b, keys + rest, force, parts, ord).EntriesOk?
    ensures KeysOf(keys, b) && MergeEntries(a.entries, b, keys, force, parts, ord).EntriesOk?
    ensures MergeEntries(a.entries, b, keys + rest, force, parts, ord).parts == MergeEntries(a.entries, b, keys, force, parts, ord).parts
    decreases |rest|
  {
    if rest == [] {
      assert keys + rest == keys;
    } else {
      var init := rest[..|rest| - 1];
      var all := keys + rest;
      assert all[..|all| - 1] == keys + init;
      OneMoreEntry(a, b, all, force, parts, ord);
      RestPushesNothing(a, b, keys, init, force, parts, ord);
    }
  }

  /** Entries already handled are left alone. */
  lemma {:induction false} EntryKept(a: ConfigValue, b: ConfigValue, keys: seq<string>, rest: seq<string>, force: bool, parts: Key, ord: Order, k: string)
    requires ValidOrder(ord) && a.TableV? && KeysOf(keys + rest, b) && k in keys && k !in rest
    requires MergeEntries(a.entries, b, keys + rest, force, parts, ord).EntriesOk?
    ensures KeysOf(keys, b) && MergeEntries(a.entries, b, keys, force, parts, ord).EntriesOk?
    ensures k in MergeEntries(a.entries, b, keys + rest, force, parts, ord).entries
    ensures k in MergeEntries(a.entries, b, keys, force, parts, ord).entries
    ensures MergeEntries(a.entries, b, keys + rest, force, parts, ord).entries[k] == MergeEntries(a.entries, b, keys, force, parts, ord).entries[k]
    decreases |rest|
  {
    if rest == [] {
      assert keys + rest == keys;
      EntriesDomain(a.entries, b, keys, force, parts, ord);
    } else {
      var init := rest[..|rest| - 1];
      var all := keys + rest;
      assert all[..|all| - 1] == keys + init && all[|all| - 1] != k;
      OneMoreEntry(a, b, all, force, parts, ord);
      EntryKept(a, b, keys, init, force, parts, ord, k);
    }
  }

  /** Under the order, the lists at `path` are merged under `key`. */
  ghost predicate MergedUnder(a: ConfigValue, b: ConfigValue, force: bool, parts: Key, ord: Order, path: Key, key: Key)
    requires ValidOrder(ord)
  {
    var m := MergeHelper(a, b, force, parts, ord);
    && m.MergeOk? && Lookup(a, path).Some? && Lookup(b, path).Some? && Lookup(m.value, path).Some?
    && MergedListAt(Lookup(a, path).value, Lookup(b, path).value, Lookup(m.value, path).value, force, key)
  }

  ghost predicate Lists(a: ConfigValue, b: ConfigValue, path: Key) {
    Lookup(a, path).Some? && Lookup(a, path).value.ListV? && Lookup(b, path).Some? && Lookup(b, path).value.ListV?
  }

  /** Every key that can be reached is the key of some order. */
  lemma {:induction false} RealiseKey(c: iset<Key>, at: Key, a: ConfigValue, b: ConfigValue, path: Key, key: Key, force: bool, parts: Key)
      returns (ord: Order)
    requires Covers(c, at, a, b) && Clashless(a, b) && Reachable(c, at, path, key) && Lists(a, b, path)
    ensures ValidOrder(ord) && MergedUnder(a, b, force, parts, ord, path, parts + key)
    decreases |path|
  {
    if path == [] {
      ord := AnyOrder();
      assert parts + [] == parts;
    } else {
      var n: nat, done: set<string> :| n < |key| && ReachableAfter(c, at, path, key, n, done);
      var k := path[0];
      CoversEntry(c, at, a, b, k);
      ClashlessEntry(a, b, k);
      var mid := parts + key[..n];
      var keys, early := RealisePushed(c, at, a, b, done, key[..n], force, parts);
      var late := RealiseKey(c, at + [k], a.entries[k], b.entries[k], path[1..], key[n + 1..], force, mid + [k]);
      var both := Splice(early, late, |mid|);
      var rest := SomeKeys(b.entries.Keys - done - {k});
      ord := RealiseEntry(a, b, keys, k, rest, force, parts, mid, early, late, both);
      Rejoin(parts, key, n);
    }
  }

  lemma RealiseEntry(a: ConfigValue, b: ConfigValue, keys: seq<string>, k: string, rest: seq<string>, force: bool, parts: Key, mid: Key,
                     early: Order, late: Order, both: Order) returns (ord: Order)
    requires ValidOrder(early) && ValidOrder(late) && ValidOrder(both) && Clashless(a, b)
    requires a.TableV? && b.TableV? && KeysOf(keys, b) && k in a.entries && k in b.entries && k !in keys && |parts| <= |mid|
    requires Sorting.NoRepeats(rest) && forall x :: x in rest <==> x in b.entries && x !in keys && x != k
    requires MergeEntries(a.entries, b, keys, force, parts, early).EntriesOk?
    requires MergeEntries(a.entries, b, keys, force, parts, early).parts == mid
    requires MergeHelper(a.entries[k], b.entries[k], force, mid + [k], late).MergeOk?
    requires forall lo: nat, hi: nat :: (hi <= |mid| ==> Same(early, both, lo, hi)) && (lo > |mid| ==> Same(late, both, lo, hi))
    ensures ValidOrder(ord)
    ensures var m := MergeHelper(a, b, force, parts, ord);
      && m.MergeOk? && m.value.TableV? && k in m.value.entries
      && m.value.entries[k] == MergeHelper(a.entries[k], b.entries[k], force, mid + [k], late).value
  {
    var all := keys + [k] + rest;
    DistinctConcat(keys, [k]);
    DistinctConcat(keys + [k], rest);
    assert Enumerates(all, b.entries);
    ord := Choose(both, parts, b.entries, all);
    var top := |MergeHelper(a.entries[k], b.entries[k], force, mid + [k], late).parts|;
    assert Same(early, both, |parts| + 1, |mid|) && Same(both, ord, |parts| + 1, |mid|);
    assert Same(late, both, |mid| + 1, top) && Same(both, ord, |mid| + 1, top);
    SameTrans(early, both, ord, |parts| + 1, |mid|);
    SameTrans(late, both, ord, |mid| + 1, top);
    AppendEntry(a, b, keys, k, force, parts, mid, early, late, ord);
    EntriesSucceed(a, b, all, force, parts, ord);
    EntryKept(a, b, keys + [k], rest, force, parts, ord, k);
  }

  // ----- Exactly -----

  /** What becomes of two lists if one replaces the other, and if one is appended. */
  function ReplacedItems(x: ConfigValue, y: ConfigValue, force: bool): seq<ConfigValue>
    requires x.ListV? && y.ListV?
  {
    ByDefinition(if force || y.def.IsHigherPriority(x.def) then y.items else x.items)
  }

  function AppendedItems(x: ConfigValue, y: ConfigValue, force: bool): seq<ConfigValue>
    requires x.ListV? && y.ListV?
  {
    ByDefinition(if force then x.items + y.items else y.items + x.items)
  }

  /** The items at the path after a merge under the order. */
  ghost function ItemsAfter(a: ConfigValue, b: ConfigValue, force: bool, ord: Order, path: Key): seq<ConfigValue>
    requires ValidOrder(ord) && Clashless(a, b) && Lists(a, b, path)
  {
    SucceedsExactly(a, b, force, ord);
    MergeLookupAll(a, b, force, ord, path);
    Lookup(Merge(a, b, force, ord).value, path).value.items
  }

  /** Under any order the items are those for some reachable key, and every reachable key has an
      order under which they are those for it. */
  lemma ItemsAreReached(a: ConfigValue, b: ConfigValue, force: bool, ord: Order, path: Key) returns (key: Key)
    requires ValidOrder(ord) && Clashless(a, b) && Lists(a, b, path)
    ensures Reachable(Collisions(a, b), [], path, key)
    ensures var x, y := Lookup(a, path).value, Lookup(b, path).value;
      ItemsAfter(a, b, force, ord, path) == if IsNonMergeableList(key) then ReplacedItems(x, y, force) else AppendedItems(x, y, force)
  {
    SucceedsExactly(a, b, force, ord);
    MergeLookupAll(a, b, force, ord, path);
    var x, y, z := Lookup(a, path).value, Lookup(b, path).value, Lookup(Merge(a, b, force, ord).value, path).value;
    key :| Reachable(Collisions(a, b), [], path, key) && MergedListAt(x, y, z, force, [] + key);
    assert [] + key == key;
  }

  lemma ReachedByItems(a: ConfigValue, b: ConfigValue, force: bool, path: Key, key: Key) returns (ord: Order)
    requires Clashless(a, b) && Lists(a, b, path) && Reachable(Collisions(a, b), [], path, key)
    ensures ValidOrder(ord)
    ensures var x, y := Lookup(a, path).value, Lookup(b, path).value;
      ItemsAfter(a, b, force, ord, path) == if IsNonMergeableList(key) then ReplacedItems(x, y, force) else AppendedItems(x, y, force)
  {
    CoversItself(a, b);
    ord := RealiseKey(Collisions(a, b), [], a, b, path, key, force, []);
    assert [] + key == key;
  }

  /** A list is replaced under every order exactly if every key it can be merged under is one of
      the non-mergeable lists, or replacing and appending come to the same. */
  lemma ReplacedExactly(a: ConfigValue, b: ConfigValue, force: bool, path: Key)
    requires Clashless(a, b) && Lists(a, b, path)
    ensures
      var x, y := Lookup(a, path).value, Lookup(b, path).value;
      (forall ord | ValidOrder(ord) :: ItemsAfter(a, b, force, ord, path) == ReplacedItems(x, y, force))
      <==> ReplacedItems(x, y, force) == AppendedItems(x, y, force)
           || forall key | Reachable(Collisions(a, b), [], path, key) :: IsNonMergeableList(key)
  {
    var x, y := Lookup(a, path).value, Lookup(b, path).value;
    if key :| Reachable(Collisions(a, b), [], path, key) && !IsNonMergeableList(key) {
      var ord := ReachedByItems(a, b, force, path, key);
      assert ItemsAfter(a, b, force, ord, path) == AppendedItems(x, y, force);
    }
    forall ord | ValidOrder(ord)
      ensures || ItemsAfter(a, b, force, ord, path) == ReplacedItems(x, y, force)
              || exists key :: Reachable(Collisions(a, b), [], path, key) && !IsNonMergeableList(key) {
      var key := ItemsAreReached(a, b, force, ord, path);
    }
    forall ord | ValidOrder(ord)
      ensures ItemsAfter(a, b, force, ord, path) in {ReplacedItems(x, y, force), AppendedItems(x, y, force)} {
      var key := ItemsAreReached(a, b, force, ord, path);
    }
  }

  /** And it is appended under every order exactly if none of those keys is. */
  lemma AppendedExactly(a: ConfigValue, b: ConfigValue, force: bool, path: Key)
    requires Clashless(a, b) && Lists(a, b, path)
    ensures
      var x, y := Lookup(a, path).value, Lookup(b, path).value;
      (forall ord | ValidOrder(ord) :: ItemsAfter(a, b, force, ord, path) == AppendedItems(x, y, force))
      <==> ReplacedItems(x, y, force) == AppendedItems(x, y, force)
           || forall key | Reachable(Collisions(a, b), [], path, key) :: !IsNonMergeableList(key)
  {
    var x, y := Lookup(a, path).value, Lookup(b, path).value;
    if key :| Reachable(Collisions(a, b), [], path, key) && IsNonMergeableList(key) {
      var ord := ReachedByItems(a, b, force, path, key);
      assert ItemsAfter(a, b, force, ord, path) == ReplacedItems(x, y, force);
    }
    forall ord | ValidOrder(ord)
      ensures || ItemsAfter(a, b, force, ord, path) == AppendedItems(x, y, force)
              || exists key :: Reachable(Collisions(a, b), [], path, key) && IsNonMergeableList(key) {
      var key := ItemsAreReached(a, b, force, ord, path);
    }
    forall ord | ValidOrder(ord)
      ensures ItemsAfter(a, b, force, ord, path) in {ReplacedItems(x, y, force), AppendedItems(x, y, force)} {
      var key := ItemsAreReached(a, b, force, ord, path);
    }
  }

  /** The two come to the same only if one of the lists is empty. */
  lemma SameOnlyIfEmpty(x: ConfigValue, y: ConfigValue, force: bool)
    requires x.ListV? && y.ListV? && ReplacedItems(x, y, force) == AppendedItems(x, y, force)
    ensures x.items == [] || y.items == []
  {
    SortKeepsLength(x.items);
    SortKeepsLength(y.items);
    SortKeepsLength(x.items + y.items);
    SortKeepsLength(y.items + x.items);
  }

  lemma {:induction false} SortKeepsLength(items: seq<ConfigValue>)
    ensures |ByDefinition(items)| == |items|
  {
    if items != [] {
      SortKeepsLength(items[..|items| - 1]);
      InsertLength(ByDefinition(items[..|items| - 1]), items[|items| - 1]);
    }
  }

  lemma {:induction false} InsertLength(s: seq<ConfigValue>, x: ConfigValue)
    ensures |Sorting.Insert(s, x, (v: ConfigValue) => v.def.Rank())| == |s| + 1
  {
    if s != [] {
      InsertLength(s[..|s| - 1], x);
    }
  }

  // ----- Where only one entry collides at each level -----

  /** So with one collision at most at each level, what happens to a list is decided by its path:
      replaced if it is one of the non-mergeable lists, appended if not. */
  lemma OneCollisionPerLevel(a: ConfigValue, b: ConfigValue, force: bool, ord: Order, path: Key)
    requires ValidOrder(ord) && Clashless(a, b) && Lists(a, b, path) && Alone(Collisions(a, b), [], path)
    ensures var x, y := Lookup(a, path).value, Lookup(b, path).value;
      ItemsAfter(a, b, force, ord, path) == if IsNonMergeableList(path) then ReplacedItems(x, y, force) else AppendedItems(x, y, force)
  {
    var key := ItemsAreReached(a, b, force, ord, path);
    AloneIsPath(Collisions(a, b), [], path, key);
  }
}
