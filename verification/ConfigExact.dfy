/** What loading makes of a list, exactly: the merges that are performed decide. */
module ConfigExact {
  import opened Units
  import opened ConfigValues
  import opened ConfigMerge
  import opened ConfigReach
  import opened ConfigSources
  import opened ConfigTrees
  import opened ConfigLoad
  import opened ConfigPrecedence
  import opened ConfigEnv
  import opened ConfigPanic

  predicate IsEmptyTable(v: ConfigValue) {
    v.TableV? && v.entries == map[]
  }

  /** The two lists of sources say the same, and `p` has nothing but empty tables besides. */
  ghost predicate Alike(p: seq<ConfigValue>, q: seq<ConfigValue>) {
    && (forall x | x in p :: x in q || IsEmptyTable(x))
    && forall path | path != [] :: FirstDefined(p, path) == FirstDefined(q, path) && AllItems(p, path) == AllItems(q, path)
  }

  lemma AlikeConcat(p: seq<ConfigValue>, q: seq<ConfigValue>, p': seq<ConfigValue>, q': seq<ConfigValue>)
    requires Alike(p, q) && Alike(p', q')
    ensures Alike(p + p', q + q')
  {
    forall path | path != []
      ensures FirstDefined(p + p', path) == FirstDefined(q + q', path) && AllItems(p + p', path) == AllItems(q + q', path) {
      FirstDefinedConcat(p, p', path);
      FirstDefinedConcat(q, q', path);
    }
  }

  lemma EmptyIsNothing(v: ConfigValue, p: seq<ConfigValue>, q: seq<ConfigValue>)
    requires IsEmptyTable(v) && Alike(p, q)
    ensures Alike([v], []) && Alike(p + [v], q)
  {
    forall path | path != [] ensures FirstDefined([v], path).None? && AllItems([v], path) == [] {
      OneLeaf(v, path);
    }
    AlikeConcat(p, q, [v], []);
    assert q + [] == q;
  }

  lemma AlikeSelf(p: seq<ConfigValue>)
    ensures Alike(p, p)
  {
  }

  lemma EmptyIsRanked(def: Definition, k: nat)
    ensures AllRanked(TableV(map[], def), k)
  {
    EmptyStandsForNothing(def, k);
  }

  // ----- The merges of a load, and its sources -----

  lemma {:induction false} FileMerges(disk: Disk, why: WhyLoad, t: Tree)
    requires Unfolds(disk, why, t)
    ensures Uniform(MergesOf(t), RankOf(why)) && Alike(Leaves(MergesOf(t)), Sources(t))
    decreases t, 1
  {
    OwnValuesRanked(disk, why, t.path);
    IncludeMerges(disk, why, t.children, t.own.def);
    AlikeSelf([t.own]);
    AlikeConcat([t.own], [t.own], Leaves(MergesOfAll(t.children, t.own.def)), SourcesOf(t.children));
  }

  lemma {:induction false} IncludeMerges(disk: Disk, why: WhyLoad, ts: seq<Tree>, def: Definition)
    requires forall i | 0 <= i < |ts| :: Unfolds(disk, why, ts[i])
    ensures Uniform(MergesOfAll(ts, def), RankOf(why)) && Alike(Leaves(MergesOfAll(ts, def)), SourcesOf(ts))
    decreases ts, 0
  {
    if ts == [] {
      EmptyIsRanked(def, RankOf(why));
      EmptyIsNothing(TableV(map[], def), [], []);
    } else {
      var init, last := ts[..|ts| - 1], ts[|ts| - 1];
      IncludeMerges(disk, why, init, def);
      FileMerges(disk, why, last);
      AlikeConcat(Leaves(MergesOf(last)), Sources(last), Leaves(MergesOfAll(init, def)), SourcesOf(init));
    }
  }

  lemma {:induction false} DiscoveredMerges(disk: Disk, ts: seq<Tree>)
    requires forall i | 0 <= i < |ts| :: Unfolds(disk, ForDiscovery, ts[i])
    ensures Uniform(MergesOfFiles(ts), 1) && Alike(Leaves(MergesOfFiles(ts)), FileSources(ts))
    decreases |ts|
  {
    if ts == [] {
      EmptyIsRanked(BuiltIn, 1);
      EmptyIsNothing(TableV(map[], BuiltIn), [], []);
    } else {
      var init, last := ts[..|ts| - 1], ts[|ts| - 1];
      DiscoveredMerges(disk, init);
      FileMerges(disk, ForDiscovery, last);
      AlikeConcat(Leaves(MergesOfFiles(init)), FileSources(init), Leaves(MergesOf(last)), Sources(last));
    }
  }

  lemma {:induction false} ArgMerges(disk: Disk, arg: CliArg, t: Tree)
    requires ArgUnfolds(disk, arg, t)
    ensures Uniform(MergesOfArg(arg, t), 3) && Alike(Leaves(MergesOfArg(arg, t)), Sources(t))
  {
    if arg.FileArg? {
      FileMerges(disk, ForCli, t);
      EmptyIsRanked(t.own.def, 3);
      EmptyIsNothing(TableV(map[], t.own.def), Leaves(MergesOf(t)), Sources(t));
    } else {
      InlineRankedOwn(arg.doc, FromToml(FromCli(None), arg.doc).value);
      IncludeMerges(disk, ForCli, t.children, t.own.def);
      AlikeSelf([t.own]);
      AlikeConcat([t.own], [t.own], Leaves(MergesOfAll(t.children, t.own.def)), SourcesOf(t.children));
    }
  }

  lemma {:induction false} ArgsMerges(disk: Disk, args: seq<CliArg>, ts: seq<Tree>)
    requires ArgsUnfold(disk, args, ts)
    ensures Uniform(MergesOfArgs(args, ts), 3) && Alike(Leaves(MergesOfArgs(args, ts)), SourcesOf(ts))
    decreases |ts|
  {
    if args == [] {
      EmptyIsRanked(FromCli(None), 3);
      EmptyIsNothing(TableV(map[], FromCli(None)), [], []);
    } else {
      var n := |args| - 1;
      ArgsMerges(disk, args[..n], ts[..n]);
      ArgMerges(disk, args[n], ts[n]);
      AlikeConcat(Leaves(MergesOfArg(args[n], ts[n])), Sources(ts[n]), Leaves(MergesOfArgs(args[..n], ts[..n])), SourcesOf(ts[..n]));
    }
  }

  /** The tree of merges is the one of the precedence order, weaker settings below stronger. */
  lemma {:induction false} LoadMerges(disk: Disk, paths: seq<string>, args: seq<CliArg>, files: seq<Tree>, argTrees: seq<Tree>)
    requires UnfoldsAll(disk, ForDiscovery, files, paths) && ArgsUnfold(disk, args, argTrees)
    ensures Layered(AllMerges(args, files, argTrees), 1, 3)
    ensures Alike(Leaves(AllMerges(args, files, argTrees)), Precedence(files, argTrees))
  {
    DiscoveredMerges(disk, files);
    ArgsMerges(disk, args, argTrees);
    AlikeConcat(Leaves(MergesOfArgs(args, argTrees)), SourcesOf(argTrees), Leaves(MergesOfFiles(files)), FileSources(files));
  }

  lemma AlikeIsConsistent(p: seq<ConfigValue>, q: seq<ConfigValue>)
    requires Alike(p, q) && Consistent(q)
    ensures Consistent(p)
  {
    forall x, y, path | x in p && y in p && path != [] ensures !Clash(x, y, path) {
      assert IsEmptyTable(x) ==> Lookup(x, path).None?;
      assert IsEmptyTable(y) ==> Lookup(y, path).None?;
    }
  }

  lemma AlikeIsFilled(p: seq<ConfigValue>, q: seq<ConfigValue>, path: Key)
    requires Alike(p, q) && FilledLists(q, path) && path != []
    ensures FilledLists(p, path)
  {
    forall i | 0 <= i < |p| && Lookup(p[i], path).Some? ensures Lookup(p[i], path).value.ListV? && Lookup(p[i], path).value.items != [] {
      assert p[i] in p && !IsEmptyTable(p[i]);
      var j :| 0 <= j < |q| && q[j] == p[i];
    }
  }

  // ----- Exactly -----

  /** A list that some sources have, none of them empty, comes out with the items of all sources whatever the
      orders exactly if no merge of the load can come to replace it, and with those of the first
      source exactly if every merge on the way to that source replaces it. */
  lemma {:induction false} LoadedListsExactly(disk: Disk, paths: seq<string>, args: seq<CliArg>, files: seq<Tree>, argTrees: seq<Tree>, path: Key)
    requires Loadable(disk, paths, args, files, argTrees) && path != [] && FilledLists(Precedence(files, argTrees), path)
    ensures var m, prec := AllMerges(args, files, argTrees), Precedence(files, argTrees);
      && ((forall r | Yields(m, r) :: ItemsAt(r, path) == AllItems(prec, path)) <==> AllAppended(m, path))
      && ((forall r | Yields(m, r) :: ItemsAt(r, path) == FirstItems(prec, path)) <==> AllReplaced(m, path))
  {
    var m, prec := AllMerges(args, files, argTrees), Precedence(files, argTrees);
    LoadMerges(disk, paths, args, files, argTrees);
    AlikeIsConsistent(Leaves(m), prec);
    AlikeIsFilled(Leaves(m), prec, path);
    ListsExactly(m, 1, 3, path);
  }

  /** And reading a non-mergeable list with its variable set can panic exactly if merging the command line
      into the files can come to append it. */
  lemma {:induction false} LoadedPanicsExactly(disk: Disk, paths: seq<string>, args: seq<CliArg>, files: seq<Tree>, argTrees: seq<Tree>,
                                               path: Key, e: EnvVar)
    requires Loadable(disk, paths, args, files, argTrees) && path != [] && FilledLists(Precedence(files, argTrees), path)
    requires IsNonMergeableList(path)
    ensures var m := AllMerges(args, files, argTrees);
      (exists r | Yields(m, r) :: WithWords(path, e, ItemsAt(r, path)) == ListPanic) <==> !KeysAre(m, path, true)
  {
    var m, prec := AllMerges(args, files, argTrees), Precedence(files, argTrees);
    LoadMerges(disk, paths, args, files, argTrees);
    AlikeIsConsistent(Leaves(m), prec);
    AlikeIsFilled(Leaves(m), prec, path);
    forall r | Yields(m, r) && KeysAre(m, path, true) ensures OnePlace(ItemsAt(r, path)) {
      ReplacedIsOnePlace(m, 1, 3, r, path);
    }
    if !KeysAre(m, path, true) {
      var r := AppendedIsTwoPlaces(m, 1, 3, path);
      assert WithWords(path, e, ItemsAt(r, path)) == ListPanic;
    }
  }

  lemma ReplacedIsOnePlace(t: MergeTree, j: nat, k: nat, r: ConfigValue, path: Key)
    requires t.Node? && Layered(t, j, k) && Yields(t, r) && path != [] && FilledLists(Leaves(t), path) && KeysAre(t, path, true)
    ensures OnePlace(ItemsAt(r, path))
  {
    var a, b, ord := LastMergeOf(t, r);
    var replaced := LastItems(t, j, k, a, b, ord, r, path);
    LastMergeAgrees(t, j, k, a, b);
    assert RankedAt(a, j, path) && RankedAt(b, k, path);
    RankedIsOnePlace(ItemsAt(a, path), j);
    RankedIsOnePlace(ItemsAt(b, path), k);
  }

  lemma AppendedIsTwoPlaces(t: MergeTree, j: nat, k: nat, path: Key) returns (r: ConfigValue)
    requires t.Node? && t.force && j < k && Layered(t, j, k) && Consistent(Leaves(t))
    requires path != [] && FilledLists(Leaves(t), path) && !KeysAre(t, path, true)
    ensures Yields(t, r) && !OnePlace(ItemsAt(r, path))
  {
    ConsistentParts(t);
    var a := SomeYield(t.self, j);
    var b := SomeYield(t.from, k);
    var key :| Reachable(CollisionsOf(Leaves(t.self), Leaves(t.from)), [], path, key) && !IsNonMergeableList(key);
    BothHave(t, path, key);
    SidesBetween(t, j, k, a, b, path);
    r := LastMergeUnder(t, j, k, a, b, path, key);
    LastMergeAgrees(t, j, k, a, b);
    assert RankedAt(a, j, path) && RankedAt(b, k, path);
    TwoPlaces(ItemsAt(a, path), j, ItemsAt(b, path), k);
  }
}
