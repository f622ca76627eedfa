/** What one merge does at every key path, for every order of the hash maps involved. */
module ConfigMerge {
  import opened Units
  import opened ConfigValues
  import Sorting

  /** The value at a key path. */
  function Lookup(v: ConfigValue, path: Key): Option<ConfigValue>
    decreases |path|
  {
    if path == [] then Some(v)
    else if v.TableV? && path[0] in v.entries then Lookup(v.entries[path[0]], path[1..])
    else None
  }

  // ----- What can have been pushed -----

  /** The paths that both values define. */
  ghost function Collisions(a: ConfigValue, b: ConfigValue): iset<Key> {
    iset path: Key | path != [] && Lookup(a, path).Some? && Lookup(b, path).Some?
  }

  /** Merging at `at`, with the colliding entries `done` behind it in some order, can have pushed
      `w`: each entry's name, followed by all that merging the entry itself pushed. */
  ghost predicate Pushed(c: iset<Key>, at: Key, done: set<string>, w: Key)
    decreases |w|, 0
  {
    if w == [] then done == {}
    else exists n: nat :: n < |w| && PushedLast(c, at, done, w, n)
  }

  /** The last entry begins at `n`. */
  ghost predicate PushedLast(c: iset<Key>, at: Key, done: set<string>, w: Key, n: nat)
    requires n < |w|
    decreases |w|, 0, 0
  {
    && w[n] in done && at + [w[n]] in c
    && Pushed(c, at, done - {w[n]}, w[..n])
    && PushedAll(c, at + [w[n]], w[n + 1..])
  }

  /** The same for all colliding entries at `at`. */
  ghost predicate PushedAll(c: iset<Key>, at: Key, w: Key)
    decreases |w|, 1
  {
    exists done: set<string> :: AllAt(c, at, done) && Pushed(c, at, done, w)
  }

  ghost predicate AllAt(c: iset<Key>, at: Key, done: set<string>) {
    forall k :: k in done <==> at + [k] in c
  }

  /** The key a list at `at + path` can be merged under, counted from `at`. */
  ghost predicate Reachable(c: iset<Key>, at: Key, path: Key, key: Key)
    decreases |path|
  {
    if path == [] then key == []
    else exists n: nat, done: set<string> :: n < |key| && ReachableAfter(c, at, path, key, n, done)
  }

  /** Before the next part of the path, the entries `done` pushed `key[..n]`. */
  ghost predicate ReachableAfter(c: iset<Key>, at: Key, path: Key, key: Key, n: nat, done: set<string>)
    requires path != [] && n < |key|
    decreases |path|, 0
  {
    && path[0] !in done && Pushed(c, at, done, key[..n])
    && key[n] == path[0] && at + [path[0]] in c
    && Reachable(c, at + [path[0]], path[1..], key[n + 1..])
  }

  /** Below `at`, `c` holds exactly the collisions of the two values. */
  ghost predicate Covers(c: iset<Key>, at: Key, a: ConfigValue, b: ConfigValue) {
    forall path: Key | path != [] :: at + path in c <==> Lookup(a, path).Some? && Lookup(b, path).Some?
  }

  /** `r` is `a` with `b` merged in, at one path. */
  ghost predicate MergedAt(c: iset<Key>, at: Key, a: ConfigValue, b: ConfigValue, r: ConfigValue, force: bool, parts: Key, path: Key) {
    var x, y, z := Lookup(a, path), Lookup(b, path), Lookup(r, path);
    && (y.None? ==> z == x)
    && (x.None? ==> z == y)
    && (x.Some? && y.Some? ==>
          && z.Some? && x.value.SameClass(y.value) && x.value.SameClass(z.value)
          && (x.value.IsScalar() ==>
                z.value == if force || y.value.def.IsHigherPriority(x.value.def) then y.value else x.value)
          && (x.value.ListV? ==>
                exists key :: Reachable(c, at, path, key) && MergedListAt(x.value, y.value, z.value, force, parts + key)))
  }

  predicate MergedListAt(x: ConfigValue, y: ConfigValue, z: ConfigValue, force: bool, key: Key) {
    && x.ListV? && y.ListV?
    && z == ListV(MergeLists(x.items, y.items, force, y.def.IsHigherPriority(x.def), key), x.def)
  }

  lemma {:induction false} EntriesDomain(into: Entries, from: ConfigValue, keys: seq<string>, force: bool, parts: Key, ord: Order)
    requires ValidOrder(ord) && from.TableV? && (forall k | k in keys :: k in from.entries)
    requires MergeEntries(into, from, keys, force, parts, ord).EntriesOk?
    ensures forall k :: k in MergeEntries(into, from, keys, force, parts, ord).entries <==> k in into || k in keys
    ensures forall k | k in into && k !in keys :: MergeEntries(into, from, keys, force, parts, ord).entries[k] == into[k]
    decreases |keys|
  {
    if keys != [] {
      assert keys == keys[..|keys| - 1] + [keys[|keys| - 1]];
      EntriesDomain(into, from, keys[..|keys| - 1], force, parts, ord);
    }
  }

  lemma CoversEntry(c: iset<Key>, at: Key, a: ConfigValue, b: ConfigValue, k: string)
    requires Covers(c, at, a, b) && a.TableV? && b.TableV?
    ensures at + [k] in c <==> k in a.entries && k in b.entries
    ensures k in a.entries && k in b.entries ==> Covers(c, at + [k], a.entries[k], b.entries[k])
  {
    LookupOne(a, k);
    LookupOne(b, k);
    if k in a.entries && k in b.entries {
      forall path: Key | path != []
        ensures at + [k] + path in c <==> Lookup(a.entries[k], path).Some? && Lookup(b.entries[k], path).Some? {
        assert at + [k] + path == at + ([k] + path);
        assert ([k] + path)[1..] == path;
      }
    }
  }

  lemma LookupOne(v: ConfigValue, k: string)
    requires v.TableV?
    ensures Lookup(v, [k]).Some? <==> k in v.entries
  {
    assert [k][1..] == [];
  }

  lemma NothingBelow(c: iset<Key>, at: Key, a: ConfigValue, b: ConfigValue)
    requires Covers(c, at, a, b) && !(a.TableV? && b.TableV?)
    ensures PushedAll(c, at, [])
  {
    forall k ensures at + [k] !in c {
      assert Lookup(a, [k]).None? || Lookup(b, [k]).None?;
    }
    assert AllAt(c, at, {}) && Pushed(c, at, {}, []);
  }

  /** Whatever a merge pushed is among what can have been pushed. */
  lemma {:induction false} MergePushes(c: iset<Key>, at: Key, self: ConfigValue, from: ConfigValue, force: bool, parts: Key, ord: Order)
      returns (w: Key)
    requires ValidOrder(ord) && MergeHelper(self, from, force, parts, ord).MergeOk? && Covers(c, at, self, from)
    ensures MergeHelper(self, from, force, parts, ord).parts == parts + w && PushedAll(c, at, w)
    decreases from, 1, 0
  {
    if self.TableV? && from.TableV? {
      var keys := ord(parts, from.entries);
      assert Enumerates(keys, from.entries);
      w := EntriesPush(c, at, self, from, keys, force, parts, ord);
      var done := CollidingOf(self, keys);
      forall k ensures k in done <==> at + [k] in c {
        CoversEntry(c, at, self, from, k);
      }
      assert AllAt(c, at, done);
    } else {
      w := [];
      NothingBelow(c, at, self, from);
    }
  }

  ghost function CollidingOf(self: ConfigValue, keys: seq<string>): set<string>
    requires self.TableV?
  {
    set k | k in keys && k in self.entries
  }

  lemma CollidingOneMore(self: ConfigValue, init: seq<string>, k: string)
    requires self.TableV?
    ensures k in self.entries ==> CollidingOf(self, init + [k]) == CollidingOf(self, init) + {k}
    ensures k !in self.entries ==> CollidingOf(self, init + [k]) == CollidingOf(self, init)
  {
  }

  /** One more entry: either it collides, or nothing is pushed. */
  lemma OneMoreEntry(self: ConfigValue, from: ConfigValue, keys: seq<string>, force: bool, parts: Key, ord: Order)
    requires ValidOrder(ord) && self.TableV? && from.TableV? && (forall k | k in keys :: k in from.entries) && Sorting.NoRepeats(keys) && keys != []
    requires MergeEntries(self.entries, from, keys, force, parts, ord).EntriesOk?
    ensures var init, k := keys[..|keys| - 1], keys[|keys| - 1];
      && MergeEntries(self.entries, from, init, force, parts, ord).EntriesOk?
      && var m := MergeEntries(self.entries, from, init, force, parts, ord);
         var t := MergeEntries(self.entries, from, keys, force, parts, ord);
         if k in self.entries then
           var h := MergeHelper(self.entries[k], from.entries[k], force, m.parts + [k], ord);
           h.MergeOk? && t == EntriesOk(m.entries[k := h.value], h.parts)
         else t == EntriesOk(m.entries[k := from.entries[k]], m.parts)
  {
    var init, k := keys[..|keys| - 1], keys[|keys| - 1];
    assert keys == init + [k] && k !in init;
    EntriesDomain(self.entries, from, init, force, parts, ord);
  }

  lemma {:induction false} EntriesPush(c: iset<Key>, at: Key, self: ConfigValue, from: ConfigValue, keys: seq<string>, force: bool,
                                       parts: Key, ord: Order) returns (w: Key)
    requires ValidOrder(ord) && self.TableV? && from.TableV? && (forall k | k in keys :: k in from.entries) && Sorting.NoRepeats(keys)
    requires Covers(c, at, self, from) && MergeEntries(self.entries, from, keys, force, parts, ord).EntriesOk?
    ensures MergeEntries(self.entries, from, keys, force, parts, ord).parts == parts + w
    ensures Pushed(c, at, CollidingOf(self, keys), w)
    decreases from, 0, |keys|
  {
    if keys == [] {
      w := [];
    } else {
      var init, k := keys[..|keys| - 1], keys[|keys| - 1];
      assert keys == init + [k] && k !in init;
      OneMoreEntry(self, from, keys, force, parts, ord);
      var before := EntriesPush(c, at, self, from, init, force, parts, ord);
      CollidingOneMore(self, init, k);
      if k in self.entries {
        w := EntryPush(c, at, self, from, CollidingOf(self, init), before, k, force, parts, ord);
      } else {
        w := before;
      }
    }
  }

  lemma EntryPush(c: iset<Key>, at: Key, self: ConfigValue, from: ConfigValue, done: set<string>, before: Key, k: string, force: bool,
                  parts: Key, ord: Order) returns (w: Key)
    requires ValidOrder(ord) && self.TableV? && from.TableV? && k in self.entries && k in from.entries
    requires Covers(c, at, self, from) && Pushed(c, at, done, before) && k !in done
    requires MergeHelper(self.entries[k], from.entries[k], force, parts + before + [k], ord).MergeOk?
    ensures MergeHelper(self.entries[k], from.entries[k], force, parts + before + [k], ord).parts == parts + w
    ensures Pushed(c, at, done + {k}, w)
    decreases from, 0, 0
  {
    CoversEntry(c, at, self, from, k);
    var deeper := MergePushes(c, at + [k], self.entries[k], from.entries[k], force, parts + before + [k], ord);
    w := before + [k] + deeper;
    Regroup(parts, before, k, deeper);
    PushedOneMore(c, at, done, before, k, deeper);
  }

  lemma PushedOneMore(c: iset<Key>, at: Key, done: set<string>, before: Key, k: string, deeper: Key)
    requires Pushed(c, at, done, before) && k !in done && at + [k] in c && PushedAll(c, at + [k], deeper)
    ensures Pushed(c, at, done + {k}, before + [k] + deeper)
  {
    var w, n := before + [k] + deeper, |before|;
    assert w[n] == k && w[..n] == before && w[n + 1..] == deeper && done + {k} - {k} == done;
    assert PushedLast(c, at, done + {k}, w, n);
  }

  /** How the entry under `k` came about. */
  lemma {:induction false} EntryMerged(c: iset<Key>, at: Key, self: ConfigValue, from: ConfigValue, keys: seq<string>, force: bool,
                                       parts: Key, ord: Order, k: string) returns (before: Key, done: set<string>)
    requires ValidOrder(ord) && self.TableV? && from.TableV? && (forall x | x in keys :: x in from.entries) && Sorting.NoRepeats(keys)
    requires Covers(c, at, self, from) && MergeEntries(self.entries, from, keys, force, parts, ord).EntriesOk? && k in keys
    ensures var e := MergeEntries(self.entries, from, keys, force, parts, ord).entries;
      && k in e
      && (k !in self.entries ==> e[k] == from.entries[k])
      && (k in self.entries ==>
            && k !in done && Pushed(c, at, done, before)
            && var m := MergeHelper(self.entries[k], from.entries[k], force, parts + before + [k], ord); m.MergeOk? && m.value == e[k])
    decreases |keys|
  {
    var init, last := keys[..|keys| - 1], keys[|keys| - 1];
    assert keys == init + [last];
    EntriesDomain(self.entries, from, init, force, parts, ord);
    if k == last {
      assert k !in init;
      before := EntriesPush(c, at, self, from, init, force, parts, ord);
      done := CollidingOf(self, init);
    } else {
      before, done := EntryMerged(c, at, self, from, init, force, parts, ord, k);
    }
  }

  lemma ReachableStep(c: iset<Key>, at: Key, path: Key, before: Key, done: set<string>, key: Key)
    requires path != [] && path[0] !in done && Pushed(c, at, done, before) && at + [path[0]] in c
    requires Reachable(c, at + [path[0]], path[1..], key)
    ensures Reachable(c, at, path, before + [path[0]] + key)
  {
    var all, n := before + [path[0]] + key, |before|;
    assert all[..n] == before && all[n] == path[0] && all[n + 1..] == key;
    assert ReachableAfter(c, at, path, all, n, done);
  }

  lemma Regroup(parts: Key, before: Key, k: string, key: Key)
    ensures parts + before + [k] + key == parts + (before + [k] + key)
  {
  }

  lemma MergedAtStep(c: iset<Key>, at: Key, a: ConfigValue, b: ConfigValue, r: ConfigValue, force: bool, parts: Key, path: Key,
                     before: Key, done: set<string>)
    requires path != [] && a.TableV? && b.TableV? && r.TableV?
    requires path[0] in a.entries && path[0] in b.entries && path[0] in r.entries
    requires path[0] !in done && Pushed(c, at, done, before) && at + [path[0]] in c
    requires MergedAt(c, at + [path[0]], a.entries[path[0]], b.entries[path[0]], r.entries[path[0]], force, parts + before + [path[0]], path[1..])
    ensures MergedAt(c, at, a, b, r, force, parts, path)
  {
    var x, y, z := Lookup(a, path), Lookup(b, path), Lookup(r, path);
    if x.Some? && y.Some? && x.value.ListV? {
      var key :| Reachable(c, at + [path[0]], path[1..], key)
                 && MergedListAt(x.value, y.value, z.value, force, parts + before + [path[0]] + key);
      ReachableStep(c, at, path, before, done, key);
      Regroup(parts, before, path[0], key);
    }
  }

  /** Every key path of a merged value, for every iteration order. */
  lemma {:induction false} MergeLookup(c: iset<Key>, at: Key, self: ConfigValue, from: ConfigValue, force: bool, parts: Key, ord: Order, path: Key)
    requires ValidOrder(ord) && MergeHelper(self, from, force, parts, ord).MergeOk? && Covers(c, at, self, from)
    ensures MergedAt(c, at, self, from, MergeHelper(self, from, force, parts, ord).value, force, parts, path)
    decreases |path|
  {
    var r := MergeHelper(self, from, force, parts, ord).value;
    if path == [] {
      assert parts + [] == parts && Reachable(c, at, path, []);
    } else if self.TableV? && from.TableV? {
      var k := path[0];
      var keys := ord(parts, from.entries);
      assert Enumerates(keys, from.entries);
      EntriesDomain(self.entries, from, keys, force, parts, ord);
      if k in from.entries {
        var before, done := EntryMerged(c, at, self, from, keys, force, parts, ord, k);
        if k in self.entries {
          CoversEntry(c, at, self, from, k);
          MergeLookup(c, at + [k], self.entries[k], from.entries[k], force, parts + before + [k], ord, path[1..]);
          MergedAtStep(c, at, self, from, r, force, parts, path, before, done);
        }
      }
    }
  }

  /** The same for a whole merge. */
  lemma MergeLookupAll(a: ConfigValue, b: ConfigValue, force: bool, ord: Order, path: Key)
    requires ValidOrder(ord) && Merge(a, b, force, ord).Some?
    ensures MergedAt(Collisions(a, b), [], a, b, Merge(a, b, force, ord).value, force, [], path)
  {
    assert Covers(Collisions(a, b), [], a, b) by {
      assert forall p: Key :: [] + p == p;
    }
    MergeLookup(Collisions(a, b), [], a, b, force, [], ord, path);
  }

  // ----- Where only one entry collides at each level -----

  /** On the way to the path no other entry collides. */
  ghost predicate Alone(c: iset<Key>, at: Key, path: Key) {
    forall i: nat, k | i < |path| && at + path[..i] + [k] in c :: k == path[i]
  }

  lemma SomethingPushed(c: iset<Key>, at: Key, done: set<string>, w: Key) returns (k: string)
    requires Pushed(c, at, done, w) && w != []
    ensures k in done && at + [k] in c
  {
    var n: nat :| n < |w| && PushedLast(c, at, done, w, n);
    k := w[n];
  }

  /** Then the key is the path itself. */
  lemma {:induction false} AloneIsPath(c: iset<Key>, at: Key, path: Key, key: Key)
    requires Alone(c, at, path) && Reachable(c, at, path, key)
    ensures key == path
    decreases |path|
  {
    if path != [] {
      var n: nat, done: set<string> :| n < |key| && ReachableAfter(c, at, path, key, n, done);
      assert at + path[..0] == at;
      if key[..n] != [] {
        var k := SomethingPushed(c, at, done, key[..n]);
      }
      forall i: nat, k | i < |path[1..]| && at + [path[0]] + path[1..][..i] + [k] in c ensures k == path[1..][i] {
        assert at + [path[0]] + path[1..][..i] + [k] == at + path[..i + 1] + [k];
      }
      AloneIsPath(c, at + [path[0]], path[1..], key[n + 1..]);
    }
  }

  // ----- When a merge succeeds -----

  /** Both values define the path, one as a table or a list and the other not. */
  ghost predicate Clash(a: ConfigValue, b: ConfigValue, path: Key) {
    Lookup(a, path).Some? && Lookup(b, path).Some? && !Lookup(a, path).value.SameClass(Lookup(b, path).value)
  }

  lemma {:induction false} FailureIsClash(self: ConfigValue, from: ConfigValue, force: bool, parts: Key, ord: Order)
      returns (path: Key)
    requires ValidOrder(ord) && MergeHelper(self, from, force, parts, ord).MergeFailed?
    ensures Clash(self, from, path)
    decreases from, 1, 0
  {
    path := [];
    if self.TableV? && from.TableV? {
      assert Enumerates(ord(parts, from.entries), from.entries);
      path := EntryClash(self.entries, from, ord(parts, from.entries), force, parts, ord, self);
    }
  }

  lemma {:induction false} EntryClash(into: Entries, from: ConfigValue, keys: seq<string>, force: bool, parts: Key, ord: Order,
                                      self: ConfigValue) returns (path: Key)
    requires ValidOrder(ord) && from.TableV? && (forall k | k in keys :: k in from.entries)
    requires forall i, j | 0 <= i < j < |keys| :: keys[i] != keys[j]
    requires self.TableV? && self.entries == into
    requires MergeEntries(into, from, keys, force, parts, ord).EntriesFailed?
    ensures Clash(self, from, path)
    decreases from, 0, |keys|
  {
    var init, k := keys[..|keys| - 1], keys[|keys| - 1];
    assert keys == init + [k];
    var m := MergeEntries(into, from, init, force, parts, ord);
    if m.EntriesFailed? {
      path := EntryClash(into, from, init, force, parts, ord, self);
    } else {
      EntriesDomain(into, from, init, force, parts, ord);
      assert k !in init;
      var deeper := FailureIsClash(into[k], from.entries[k], force, m.parts + [k], ord);
      path := [k] + deeper;
      assert path[1..] == deeper;
    }
  }
}
