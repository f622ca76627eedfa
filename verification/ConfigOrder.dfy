/** Where the order of a hash map shows: `merge_helper` never pops the key it pushed, so what
    happens to a list depends on which colliding entries were handed out before it. */
module ConfigOrder {
  import opened Units
  import opened ConfigValues
  import opened ConfigMerge
  import opened ConfigSources
  import opened ConfigEnv
  import Sorting

  function Text(s: string, def: Definition): ConfigValue { StringV(s, def) }

  function ListOf(s: string, def: Definition): ConfigValue { ListV([Text(s, def)], def) }

  function AliasTable(file: string): ConfigValue {
    TableV(map[file := Text("provider", FromPath(file))], FromPath(file))
  }

  /** A file with one credential alias and one entry in `paths`. */
  function AliasFile(file: string): ConfigValue {
    TableV(map[CredentialAlias := AliasTable(file), "paths" := ListOf(file, FromPath(file))], FromPath(file))
  }

  function DocTable(def: Definition, list: ConfigValue): ConfigValue {
    TableV(map["browser" := list], def)
  }

  /** Settings with a `build` table and a browser. */
  function Browser(name: string, def: Definition): ConfigValue {
    TableV(map["build" := TableV(map[], def), "doc" := DocTable(def, ListOf(name, def))], def)
  }

  /** What is merged in: something at least as strong by force, or something equally strong. */
  predicate Stronger(d: Definition, d': Definition, force: bool) {
    d.Rank() <= d'.Rank() && (!force ==> d.Rank() == d'.Rank())
  }

  lemma SortOfOne(v: ConfigValue)
    ensures ByDefinition([v]) == [v]
  {
    SortedAlready([v], v.def.Rank(), v.def.Rank(), []);
    assert [v] + [] == [v];
  }

  lemma {:induction false} DistinctCount(s: seq<string>)
    requires Sorting.NoRepeats(s)
    ensures |set x | x in s| == |s|
  {
    if s != [] {
      var init, last := s[..|s| - 1], s[|s| - 1];
      DistinctCount(init);
      assert (set x | x in s) == (set x | x in init) + {last};
    }
  }

  lemma KeyCount(ord: Order, parts: Key, m: Entries)
    requires ValidOrder(ord)
    ensures |ord(parts, m)| == |m.Keys| && forall i | 0 <= i < |ord(parts, m)| :: ord(parts, m)[i] in m
  {
    var keys := ord(parts, m);
    assert Enumerates(keys, m);
    DistinctCount(keys);
    assert (set x | x in keys) == m.Keys;
    forall i | 0 <= i < |keys| ensures keys[i] in m {
      assert keys[i] in keys;
    }
  }

  /** One entry, unrolled. */
  lemma OneEntry(into: Entries, from: ConfigValue, k: string, force: bool, parts: Key, ord: Order)
    requires ValidOrder(ord) && from.TableV? && k in from.entries
    ensures MergeEntries(into, from, [k], force, parts, ord) ==
      if k !in into then EntriesOk(into[k := from.entries[k]], parts)
      else
        var h := MergeHelper(into[k], from.entries[k], force, parts + [k], ord);
        if h.MergeFailed? then EntriesFailed else EntriesOk(into[k := h.value], h.parts)
  {
    assert [k][..0] == [];
    assert MergeEntries(into, from, [], force, parts, ord) == EntriesOk(into, parts);
  }

  /** Two colliding entries, unrolled in the order they are handed out. */
  lemma TwoEntries(into: Entries, from: ConfigValue, first: string, second: string, force: bool, ord: Order)
    requires ValidOrder(ord) && from.TableV? && first in from.entries && second in from.entries && first != second
    requires first in into && second in into
    ensures MergeEntries(into, from, [first, second], force, [], ord) ==
      var h := MergeHelper(into[first], from.entries[first], force, [first], ord);
      if h.MergeFailed? then EntriesFailed
      else
        var g := MergeHelper(into[second], from.entries[second], force, h.parts + [second], ord);
        if g.MergeFailed? then EntriesFailed else EntriesOk(into[first := h.value][second := g.value], g.parts)
  {
    assert [first, second][..1] == [first] && [first][..0] == [] && [] + [first] == [first];
    assert MergeEntries(into, from, [], force, [], ord) == EntriesOk(into, []);
  }

  /** What becomes of the second of two colliding entries. */
  lemma SecondEntry(a: ConfigValue, b: ConfigValue, first: string, second: string, force: bool, ord: Order)
    requires ValidOrder(ord) && a.TableV? && b.TableV? && first in a.entries && second in a.entries && first in b.entries && second in b.entries
    requires first != second && ord([], b.entries) == [first, second]
    requires MergeHelper(a.entries[first], b.entries[first], force, [first], ord).MergeOk?
    requires MergeHelper(a.entries[second], b.entries[second], force,
                         MergeHelper(a.entries[first], b.entries[first], force, [first], ord).parts + [second], ord).MergeOk?
    ensures var h := MergeHelper(a.entries[first], b.entries[first], force, [first], ord);
      var g := MergeHelper(a.entries[second], b.entries[second], force, h.parts + [second], ord);
      var r := Merge(a, b, force, ord);
      r.Some? && forall path :: Lookup(r.value, [second] + path) == Lookup(g.value, path)
  {
    TwoEntries(a.entries, b, first, second, force, ord);
    forall path: Key ensures ([second] + path)[0] == second && ([second] + path)[1..] == path {}
  }

  /** Merging two alias tables that share no alias pushes nothing more. */
  lemma AliasTables(near: string, far: string, parts: Key, ord: Order)
    requires ValidOrder(ord) && near != far
    ensures MergeHelper(AliasTable(near), AliasTable(far), false, parts, ord).MergeOk?
    ensures MergeHelper(AliasTable(near), AliasTable(far), false, parts, ord).parts == parts
  {
    var into, from := AliasTable(near), AliasTable(far);
    KeyCount(ord, parts, from.entries);
    assert from.entries.Keys == {far} && ord(parts, from.entries) == [far];
    OneEntry(into.entries, from, far, false, parts, ord);
  }

  lemma AliasThenPathsIsReplaced()
    ensures IsNonMergeableList([CredentialAlias] + ["paths"])
  {
    var key := [CredentialAlias] + ["paths"];
    assert Matches(key, NonMergeableLists[0]) && NonMergeableLists[0] in NonMergeableLists;
  }

  /** If the aliases come first, the `paths` of the farther file are lost. */
  lemma PathsLost(near: string, far: string, ord: Order)
    requires ValidOrder(ord) && near != far && ord([], AliasFile(far).entries) == [CredentialAlias, "paths"]
    ensures var r := Merge(AliasFile(near), AliasFile(far), false, ord);
      r.Some? && Lookup(r.value, ["paths"]) == Some(ListOf(near, FromPath(near)))
  {
    AliasTables(near, far, [CredentialAlias], ord);
    OneItem(near, far, [CredentialAlias] + ["paths"], ord);
    SecondEntry(AliasFile(near), AliasFile(far), CredentialAlias, "paths", false, ord);
    assert ["paths"] + [] == ["paths"];
  }

  /** One of two lists of equal rank, the first. */
  lemma OneItem(near: string, far: string, key: Key, ord: Order)
    requires ValidOrder(ord) && key == [CredentialAlias] + ["paths"]
    ensures MergeHelper(ListOf(near, FromPath(near)), ListOf(far, FromPath(far)), false, key, ord) == MergeOk(ListOf(near, FromPath(near)), key)
  {
    AliasThenPathsIsReplaced();
    SortOfOne(Text(near, FromPath(near)));
  }

  lemma NotOneOfTheLists(key: Key)
    requires key != [] && (key[0] == "paths" || key[0] == "build")
    ensures !IsNonMergeableList(key)
  {
    forall p | p in NonMergeableLists ensures !Matches(key, p) {
      assert p[0] != "*" && p[0] != "paths" && p[0] != "build";
    }
  }

  /** Both items, the stronger one last. */
  lemma BothItems(a: string, d: Definition, b: string, d': Definition, force: bool, key: Key, ord: Order)
    requires ValidOrder(ord) && !IsNonMergeableList(key) && Stronger(d, d', force)
    ensures MergeHelper(ListOf(a, d), ListOf(b, d'), force, key, ord)
         == MergeOk(ListV(if force then [Text(a, d), Text(b, d')] else [Text(b, d'), Text(a, d)], d), key)
  {
    if force {
      SortedAlready([Text(a, d)], d.Rank(), d'.Rank(), [Text(b, d')]);
      assert [Text(a, d)] + [Text(b, d')] == [Text(a, d), Text(b, d')];
    } else {
      SortedAlready([Text(b, d')], d'.Rank(), d.Rank(), [Text(a, d)]);
      assert [Text(b, d')] + [Text(a, d)] == [Text(b, d'), Text(a, d)];
    }
  }

  /** In the other order both files contribute to `paths`. */
  lemma PathsKept(near: string, far: string, ord: Order)
    requires ValidOrder(ord) && near != far && ord([], AliasFile(far).entries) == ["paths", CredentialAlias]
    ensures var r := Merge(AliasFile(near), AliasFile(far), false, ord);
      r.Some? && Lookup(r.value, ["paths"]) == Some(ListV([Text(far, FromPath(far)), Text(near, FromPath(near))], FromPath(near)))
  {
    AliasTables(near, far, ["paths"] + [CredentialAlias], ord);
    TwoEntries(AliasFile(near).entries, AliasFile(far), "paths", CredentialAlias, false, ord);
    NotOneOfTheLists(["paths"]);
    BothItems(near, FromPath(near), far, FromPath(far), false, ["paths"], ord);
    assert ["paths"][1..] == [];
  }

  lemma BrowserIsReplaced()
    ensures IsNonMergeableList(["doc", "browser"])
  {
    assert Matches(["doc", "browser"], NonMergeableLists[1]) && NonMergeableLists[1] in NonMergeableLists;
  }

  lemma DocTables(a: string, d: Definition, b: string, d': Definition, force: bool, parts: Key, ord: Order)
    requires ValidOrder(ord) && parts != [] && parts[0] == "build"
    requires Stronger(d, d', force)
    ensures var m := MergeHelper(DocTable(d, ListOf(a, d)), DocTable(d', ListOf(b, d')), force, parts, ord);
      m.MergeOk? && m.value == DocTable(d, ListV(if force then [Text(a, d), Text(b, d')] else [Text(b, d'), Text(a, d)], d))
  {
    NotOneOfTheLists(parts + ["browser"]);
    BothItems(a, d, b, d', force, parts + ["browser"], ord);
    TablesOfOne("browser", ListOf(a, d), d, ListOf(b, d'), d', force, parts, ord);
  }

  /** Two tables of one and the same entry. */
  lemma {:induction false} TablesOfOne(k: string, x: ConfigValue, d: Definition, y: ConfigValue, d': Definition, force: bool, parts: Key, ord: Order)
    requires ValidOrder(ord) && MergeHelper(x, y, force, parts + [k], ord).MergeOk?
    ensures MergeHelper(TableV(map[k := x], d), TableV(map[k := y], d'), force, parts, ord)
         == var h := MergeHelper(x, y, force, parts + [k], ord); MergeOk(TableV(map[k := h.value], d), h.parts)
  {
    var from := TableV(map[k := y], d');
    KeyCount(ord, parts, from.entries);
    assert from.entries.Keys == {k} && ord(parts, from.entries) == [k];
    OneEntry(map[k := x], from, k, force, parts, ord);
    assert forall z: ConfigValue :: map[k := x][k := z] == map[k := z];
  }

  /** A browser list must be replaced, not merged; after another colliding table it is merged. */
  lemma BrowserMerged(a: string, d: Definition, b: string, d': Definition, force: bool, ord: Order)
    requires ValidOrder(ord) && ord([], Browser(b, d').entries) == ["build", "doc"]
    requires Stronger(d, d', force)
    ensures var r := Merge(Browser(a, d), Browser(b, d'), force, ord);
      r.Some? && Lookup(r.value, ["doc", "browser"])
              == Some(ListV(if force then [Text(a, d), Text(b, d')] else [Text(b, d'), Text(a, d)], d))
  {
    EmptyTables(d, d', force, ["build"], ord);
    DocTables(a, d, b, d', force, ["build"] + ["doc"], ord);
    SecondEntry(Browser(a, d), Browser(b, d'), "build", "doc", force, ord);
    assert ["doc"] + ["browser"] == ["doc", "browser"] && ["browser"][1..] == [];
  }

  lemma EmptyTables(d: Definition, d': Definition, force: bool, parts: Key, ord: Order)
    requires ValidOrder(ord)
    ensures MergeHelper(TableV(map[], d), TableV(map[], d'), force, parts, ord) == MergeOk(TableV(map[], d), parts)
  {
    KeyCount(ord, parts, map[]);
  }

  /** With the same settings in a file and on the command line, the list comes from two places, and
      reading it with its variable set panics. */
  lemma BrowserPanics(file: string, a: string, b: string, ord: Order, e: EnvVar)
    requires ValidOrder(ord) && ord([], Browser(b, FromCli(None)).entries) == ["build", "doc"]
    ensures var r := Merge(Browser(a, FromPath(file)), Browser(b, FromCli(None)), true, ord);
      && r.Some? && Lookup(r.value, ["doc", "browser"]).Some? && Lookup(r.value, ["doc", "browser"]).value.ListV?
      && WithWords(["doc", "browser"], e, Lookup(r.value, ["doc", "browser"]).value.items) == ListPanic
  {
    BrowserMerged(a, FromPath(file), b, FromCli(None), true, ord);
    BrowserIsReplaced();
    var items := [Text(a, FromPath(file)), Text(b, FromCli(None))];
    assert items[0].def.Rank() != items[1].def.Rank();
  }
}
