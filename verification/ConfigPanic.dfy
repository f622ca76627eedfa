/** The assertion in `get_env_list` about non-mergeable lists: when a merged configuration fails it. */
module ConfigPanic {
  import opened Units
  import opened ConfigValues
  import opened ConfigMerge
  import opened ConfigReach
  import opened ConfigSources
  import opened ConfigLoad
  import opened ConfigPrecedence
  import opened ConfigEnv

  lemma RankedIsOnePlace(items: seq<ConfigValue>, k: nat)
    requires forall i | 0 <= i < |items| :: items[i].def.Rank() == k
    ensures OnePlace(items)
  {
  }

  /** Items of a lower rank followed by items of a higher one. */
  lemma TwoPlaces(x: seq<ConfigValue>, j: nat, y: seq<ConfigValue>, k: nat)
    requires j != k && x != [] && y != []
    requires (forall i | 0 <= i < |x| :: x[i].def.Rank() == j) && forall i | 0 <= i < |y| :: y[i].def.Rank() == k
    ensures !OnePlace(x + y)
  {
    var s := x + y;
    assert s[|x| - 1] == x[|x| - 1] && s[|x|] == y[0];
  }

  /** Merging stronger settings `b` over `a` and reading a non-mergeable list with its variable set
      panics under some order exactly if both have items, of different rank, and the list can be
      merged under a key that is not one of the non-mergeable lists. */
  lemma PanicsExactly(a: ConfigValue, j: nat, b: ConfigValue, k: nat, path: Key, e: EnvVar)
    requires Clashless(a, b) && Lists(a, b, path) && IsNonMergeableList(path)
    requires RankedAt(a, j, path) && RankedAt(b, k, path) && j <= k
    ensures
      (exists ord | ValidOrder(ord) :: WithWords(path, e, ItemsAfter(a, b, true, ord, path)) == ListPanic)
      <==> && j != k && Lookup(a, path).value.items != [] && Lookup(b, path).value.items != []
           && exists key | Reachable(Collisions(a, b), [], path, key) :: !IsNonMergeableList(key)
  {
    var x, y := Lookup(a, path).value, Lookup(b, path).value;
    forall ord | ValidOrder(ord) && !OnePlace(ItemsAfter(a, b, true, ord, path))
      ensures j != k && x.items != [] && y.items != []
      ensures exists key | Reachable(Collisions(a, b), [], path, key) :: !IsNonMergeableList(key) {
      PanicHasReason(a, j, b, k, path, ord);
    }
    if key :| j != k && x.items != [] && y.items != [] && Reachable(Collisions(a, b), [], path, key) && !IsNonMergeableList(key) {
      var ord := ReasonPanics(a, j, b, k, path, key);
      assert WithWords(path, e, ItemsAfter(a, b, true, ord, path)) == ListPanic;
    }
  }

  lemma PanicHasReason(a: ConfigValue, j: nat, b: ConfigValue, k: nat, path: Key, ord: Order)
    requires Clashless(a, b) && Lists(a, b, path) && ValidOrder(ord)
    requires RankedAt(a, j, path) && RankedAt(b, k, path) && j <= k
    requires !OnePlace(ItemsAfter(a, b, true, ord, path))
    ensures j != k && Lookup(a, path).value.items != [] && Lookup(b, path).value.items != []
    ensures exists key | Reachable(Collisions(a, b), [], path, key) :: !IsNonMergeableList(key)
  {
    var x, y := Lookup(a, path).value, Lookup(b, path).value;
    var key := ItemsAreReached(a, b, true, ord, path);
    SortedAlready(x.items, j, k, y.items);
    SortedAlready(y.items, k, k, []);
    assert y.items + [] == y.items;
    RankedIsOnePlace(y.items, k);
    if j == k || x.items == [] || y.items == [] {
      AppendedInOnePlace(x.items, j, y.items, k);
    }
  }

  lemma ReasonPanics(a: ConfigValue, j: nat, b: ConfigValue, k: nat, path: Key, key: Key) returns (ord: Order)
    requires Clashless(a, b) && Lists(a, b, path) && Reachable(Collisions(a, b), [], path, key) && !IsNonMergeableList(key)
    requires RankedAt(a, j, path) && RankedAt(b, k, path) && j < k
    requires Lookup(a, path).value.items != [] && Lookup(b, path).value.items != []
    ensures ValidOrder(ord) && !OnePlace(ItemsAfter(a, b, true, ord, path))
  {
    var x, y := Lookup(a, path).value, Lookup(b, path).value;
    ord := ReachedByItems(a, b, true, path, key);
    SortedAlready(x.items, j, k, y.items);
    TwoPlaces(x.items, j, y.items, k);
  }

  lemma AppendedInOnePlace(x: seq<ConfigValue>, j: nat, y: seq<ConfigValue>, k: nat)
    requires j == k || x == [] || y == []
    requires (forall i | 0 <= i < |x| :: x[i].def.Rank() == j) && forall i | 0 <= i < |y| :: y[i].def.Rank() == k
    ensures OnePlace(x + y)
  {
    if x == [] {
      assert x + y == y;
      RankedIsOnePlace(y, k);
    } else {
      RankedIsOnePlace(x + y, j);
    }
  }

  /** A loaded configuration does not panic at a list that is replaced whatever is merged first. */
  lemma LoadedDoesNotPanic(disk: Disk, paths: seq<string>, args: seq<CliArg>, files: seq<Tree>, argTrees: seq<Tree>,
                           config: ConfigValue, path: Key, e: EnvVar)
    requires UnfoldsAll(disk, ForDiscovery, files, paths) && ArgsUnfold(disk, args, argTrees)
    requires Agrees(config, Precedence(files, argTrees)) && path != []
    requires Lookup(config, path).Some? && Lookup(config, path).value.ListV? && ReplacedList(Precedence(files, argTrees), path)
    ensures WithWords(path, e, Lookup(config, path).value.items) != ListPanic
  {
    var prec := Precedence(files, argTrees);
    assert AgreesAt(config, prec, path);
    FirstDefinedConcat(SourcesOf(argTrees), FileSources(files), path);
    FileSourcesRanked(disk, paths, files);
    ArgSourcesRanked(disk, args, argTrees);
    FirstIsRanked(FileSources(files), 1, path);
    FirstIsRanked(SourcesOf(argTrees), 3, path);
  }

  lemma {:induction false} FirstIsRanked(prec: seq<ConfigValue>, k: nat, path: Key)
    requires path != [] && forall i | 0 <= i < |prec| :: AllRanked(prec[i], k)
    ensures OnePlace(FirstItems(prec, path))
  {
    if prec != [] {
      assert RankedAt(prec[0], k, path);
      FirstIsRanked(prec[1..], k, path);
    }
  }
}
