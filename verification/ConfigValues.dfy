/** Configuration values and their merge (`src/context/value.rs`, `key.rs`, `config_value.rs`). */
module ConfigValues {
  import opened Units
  import Sorting

  // ----- Definitions and their priority -----

  /** Where a value was defined. */
  datatype Definition = BuiltIn | FromPath(path: string) | FromEnv(key: string) | FromCli(file: Option<string>)
  {
    predicate IsHigherPriority(other: Definition) {
      || (FromCli? && (other.FromEnv? || other.FromPath? || other.BuiltIn?))
      || (FromEnv? && (other.FromPath? || other.BuiltIn?))
      || (FromPath? && other.BuiltIn?)
    }

    function Rank(): nat {
      match this
      case BuiltIn => 0
      case FromPath(_) => 1
      case FromEnv(_) => 2
      case FromCli(_) => 3
    }
  }

  /** `Ord for Definition` is the total preorder of the ranks. */
  lemma PriorityIsRank(a: Definition, b: Definition)
    ensures a.IsHigherPriority(b) <==> a.Rank() > b.Rank()
  {}

  // ----- Values -----

  datatype ConfigValue =
    | IntegerV(num: int, def: Definition)
    | StringV(str: string, def: Definition)
    | BooleanV(flag: bool, def: Definition)
    | ListV(items: seq<ConfigValue>, def: Definition)
    | TableV(entries: map<string, ConfigValue>, def: Definition)
  {
    predicate IsScalar() { IntegerV? || StringV? || BooleanV? }

    predicate SameClass(other: ConfigValue) {
      (ListV? <==> other.ListV?) && (TableV? <==> other.TableV?)
    }
  }

  type Entries = map<string, ConfigValue>

  // ----- Keys and the lists that are not merged -----

  type Key = seq<string>

  const NonMergeableLists: seq<Key> := [
    ["credential-alias", "*"],
    ["doc", "browser"],
    ["host", "runner"],
    ["registries", "*", "credential-provider"],
    ["registry", "credential-provider"],
    ["target", "*", "runner"]]

  /** `ConfigKey::matches`: a `*` also accepts that the key has ended. */
  predicate Matches(key: Key, pattern: Key) {
    && |key| <= |pattern|
    && forall i | 0 <= i < |pattern| :: (i < |key| && key[i] == pattern[i]) || pattern[i] == "*"
  }

  predicate IsNonMergeableList(key: Key) {
    exists p | p in NonMergeableLists :: Matches(key, p)
  }

  /** The lists that are not merged: two fixed keys and two settings, each alias, and the provider or runner of each
      registry or target. */
  lemma NonMergeableExactly(key: Key)
    ensures IsNonMergeableList(key) <==>
      || key == ["doc", "browser"] || key == ["host", "runner"] || key == ["registry", "credential-provider"]
      || ((|key| == 1 || |key| == 2) && key[0] == "credential-alias")
      || (|key| == 3 && key[0] == "registries" && key[2] == "credential-provider")
      || (|key| == 3 && key[0] == "target" && key[2] == "runner")
  {
    MatchesFixed(key, "doc", "browser");
    MatchesFixed(key, "host", "runner");
    MatchesFixed(key, "registry", "credential-provider");
    MatchesAlias(key, "credential-alias");
    MatchesEach(key, "registries", "credential-provider");
    MatchesEach(key, "target", "runner");
    SixPatterns(key);
  }

  lemma SixPatterns(key: Key)
    ensures IsNonMergeableList(key) <==>
      || Matches(key, ["credential-alias", "*"]) || Matches(key, ["doc", "browser"]) || Matches(key, ["host", "runner"])
      || Matches(key, ["registries", "*", "credential-provider"]) || Matches(key, ["registry", "credential-provider"])
      || Matches(key, ["target", "*", "runner"])
  {
    forall p ensures p in NonMergeableLists <==>
      || p == ["credential-alias", "*"] || p == ["doc", "browser"] || p == ["host", "runner"]
      || p == ["registries", "*", "credential-provider"] || p == ["registry", "credential-provider"] || p == ["target", "*", "runner"] {}
  }

  lemma MatchesFixed(key: Key, a: string, b: string)
    requires a != "*" && b != "*"
    ensures Matches(key, [a, b]) <==> key == [a, b]
  {
    var p := [a, b];
    assert p[0] == a && p[1] == b;
  }

  lemma MatchesAlias(key: Key, a: string)
    requires a != "*"
    ensures Matches(key, [a, "*"]) <==> (|key| == 1 || |key| == 2) && key[0] == a
  {
    var p := [a, "*"];
    assert p[0] == a && p[1] == "*";
  }

  lemma MatchesEach(key: Key, a: string, b: string)
    requires a != "*" && b != "*"
    ensures Matches(key, [a, "*", b]) <==> |key| == 3 && key[0] == a && key[2] == b
  {
    var p := [a, "*", b];
    assert p[0] == a && p[1] == "*" && p[2] == b;
  }

  // ----- Merge -----

  /** The order in which a hash map hands out its entries, which may differ between maps with the
      same entries: within one merge, what was pushed so far tells them apart. */
  type Order = (Key, Entries) -> seq<string>

  ghost predicate Enumerates(keys: seq<string>, m: Entries) {
    (forall k :: k in keys <==> k in m) && Sorting.NoRepeats(keys)
  }

  ghost predicate ValidOrder(ord: Order) {
    forall parts: Key, m: Entries :: Enumerates(ord(parts, m), m)
  }

  function ByDefinition(items: seq<ConfigValue>): seq<ConfigValue> {
    Sorting.SortBy(items, (v: ConfigValue) => v.def.Rank())
  }

  function MergeLists(items: seq<ConfigValue>, more: seq<ConfigValue>, force: bool, higher: bool, key: Key): seq<ConfigValue> {
    ByDefinition(
      if IsNonMergeableList(key) then (if force || higher then more else items)
      else if force then items + more
      else more + items)
  }

  datatype Merged = MergeOk(value: ConfigValue, parts: Key) | MergeFailed

  datatype MergedEntries = EntriesOk(entries: Entries, parts: Key) | EntriesFailed

  /** `merge_helper`. The key path `parts` is threaded through: it is pushed for every entry
      present on both sides and never popped, so it comes back longer. */
  function MergeHelper(self: ConfigValue, from: ConfigValue, force: bool, parts: Key, ord: Order): Merged
    requires ValidOrder(ord)
    decreases from
  {
    var higher := from.def.IsHigherPriority(self.def);
    if self.ListV? && from.ListV? then
      MergeOk(ListV(MergeLists(self.items, from.items, force, higher, parts), self.def), parts)
    else if self.TableV? && from.TableV? then
      match MergeEntries(self.entries, from, ord(parts, from.entries), force, parts, ord)
      case EntriesFailed => MergeFailed
      case EntriesOk(entries, parts') => MergeOk(TableV(entries, self.def), parts')
    else if !self.IsScalar() || !from.IsScalar() then MergeFailed
    else MergeOk(if force || higher then from else self, parts)
  }

  function MergeEntries(into: Entries, from: ConfigValue, keys: seq<string>, force: bool, parts: Key, ord: Order): MergedEntries
    requires ValidOrder(ord) && from.TableV? && (forall k | k in keys :: k in from.entries)
    decreases from, |keys|
  {
    if keys == [] then EntriesOk(into, parts)
    else
      var k := keys[|keys| - 1];
      match MergeEntries(into, from, keys[..|keys| - 1], force, parts, ord)
      case EntriesFailed => EntriesFailed
      case EntriesOk(entries, parts') =>
        if k !in entries then EntriesOk(entries[k := from.entries[k]], parts')
        else
          match MergeHelper(entries[k], from.entries[k], force, parts' + [k], ord)
          case MergeFailed => EntriesFailed
          case MergeOk(value, parts'') => EntriesOk(entries[k := value], parts'')
  }

  function Merge(self: ConfigValue, from: ConfigValue, force: bool, ord: Order): Option<ConfigValue>
    requires ValidOrder(ord)
  {
    match MergeHelper(self, from, force, [], ord)
    case MergeFailed => None
    case MergeOk(value, _) => Some(value)
  }

  /** `merge_helper`, with the loop over a table's entries in `MergeTables`. */
  method MergeInPlace(self: ConfigValue, from: ConfigValue, force: bool, parts: Key, ord: Order) returns (r: Merged)
    requires ValidOrder(ord)
    ensures r == MergeHelper(self, from, force, parts, ord)
    decreases from, 1, 0
  {
    var higher := from.def.IsHigherPriority(self.def);
    if self.ListV? && from.ListV? {
      var items := MergeLists(self.items, from.items, force, higher, parts);
      return MergeOk(ListV(items, self.def), parts);
    }
    if self.TableV? && from.TableV? {
      r := MergeTables(self, from, force, parts, ord);
      return;
    }
    if !self.IsScalar() || !from.IsScalar() {
      return MergeFailed;
    }
    r := MergeOk(if force || higher then from else self, parts);
  }

  /** The entries in turn, with early exit on an error. */
  method MergeTables(self: ConfigValue, from: ConfigValue, force: bool, parts: Key, ord: Order) returns (r: Merged)
    requires ValidOrder(ord) && self.TableV? && from.TableV?
    ensures r == MergeHelper(self, from, force, parts, ord)
    decreases from, 0, 1
  {
    var entries, path := self.entries, parts;
    var keys := ord(parts, from.entries);
    assert Enumerates(keys, from.entries);
    for i := 0 to |keys|
      invariant MergeEntries(self.entries, from, keys[..i], force, parts, ord) == EntriesOk(entries, path)
    {
      EntriesStep(self.entries, from, keys, i, force, parts, ord);
      var merged := MergeEntry(entries, path, from, keys[i], force, ord);
      if merged.EntriesFailed? {
        EntriesFailStays(self.entries, from, keys, i + 1, force, parts, ord);
        return MergeFailed;
      }
      entries, path := merged.entries, merged.parts;
    }
    assert keys[..|keys|] == keys;
    r := MergeOk(TableV(entries, self.def), path);
  }

  /** One entry; its key is pushed only if both sides have it, and stays. */
  method MergeEntry(entries: Entries, path: Key, from: ConfigValue, k: string, force: bool, ord: Order) returns (r: MergedEntries)
    requires ValidOrder(ord) && from.TableV? && k in from.entries
    ensures r == WithEntry(EntriesOk(entries, path), from, k, force, ord)
    decreases from, 0, 0
  {
    if k !in entries {
      return EntriesOk(entries[k := from.entries[k]], path);
    }
    var merged := MergeInPlace(entries[k], from.entries[k], force, path + [k], ord);
    if merged.MergeFailed? {
      return EntriesFailed;
    }
    r := EntriesOk(entries[k := merged.value], merged.parts);
  }

  /** What the next entry does. */
  function WithEntry(done: MergedEntries, from: ConfigValue, k: string, force: bool, ord: Order): MergedEntries
    requires ValidOrder(ord) && from.TableV? && k in from.entries
  {
    match done
    case EntriesFailed => EntriesFailed
    case EntriesOk(entries, path) =>
      if k !in entries then EntriesOk(entries[k := from.entries[k]], path)
      else
        match MergeHelper(entries[k], from.entries[k], force, path + [k], ord)
        case MergeFailed => EntriesFailed
        case MergeOk(value, path') => EntriesOk(entries[k := value], path')
  }

  lemma EntriesStep(into: Entries, from: ConfigValue, keys: seq<string>, i: nat, force: bool, parts: Key, ord: Order)
    requires ValidOrder(ord) && from.TableV? && (forall k | k in keys :: k in from.entries) && i < |keys|
    ensures MergeEntries(into, from, keys[..i + 1], force, parts, ord)
         == WithEntry(MergeEntries(into, from, keys[..i], force, parts, ord), from, keys[i], force, ord)
  {
    assert keys[..i + 1][..i] == keys[..i];
  }

  lemma {:induction false} EntriesFailStays(into: Entries, from: ConfigValue, keys: seq<string>, n: nat, force: bool, parts: Key, ord: Order)
    requires ValidOrder(ord) && from.TableV? && (forall k | k in keys :: k in from.entries) && n <= |keys|
    requires MergeEntries(into, from, keys[..n], force, parts, ord).EntriesFailed?
    ensures MergeEntries(into, from, keys, force, parts, ord).EntriesFailed?
    decreases |keys|
  {
    if n == |keys| {
      assert keys[..n] == keys;
    } else {
      var init := keys[..|keys| - 1];
      assert init[..n] == keys[..n];
      EntriesFailStays(into, from, init, n, force, parts, ord);
    }
  }
}
