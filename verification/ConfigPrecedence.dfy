/** The whole configuration (`load_values_from`, `cli_args_as_table`, `merge_cli_args`) and the
    order of precedence it follows. */
module ConfigPrecedence {
  import opened Units
  import opened ConfigValues
  import opened ConfigMerge
  import opened ConfigSources
  import opened ConfigLoad
  import opened ConfigTrees

  /** A `--config` argument: a path that exists, or a line of TOML. */
  datatype CliArg = FileArg(path: string) | InlineArg(doc: Toml)

  /** The trees behind a configuration: an inline argument has a root without a file. */
  ghost predicate ArgUnfolds(disk: Disk, arg: CliArg, t: Tree) {
    match arg
    case FileArg(path) => t.path == path && Unfolds(disk, ForCli, t)
    case InlineArg(doc) =>
      var v := FromToml(FromCli(None), doc);
      && disk.validArgument(doc) && v.Some? && v.value.TableV? && IncludePaths(disk, v.value).Some?
      && t.path == "" && t.own == WithoutInclude(v.value)
      && UnfoldsAll(disk, ForCli, t.children, PathsToLoad(disk, IncludePaths(disk, v.value).value))
  }

  ghost predicate ArgsUnfold(disk: Disk, args: seq<CliArg>, ts: seq<Tree>) {
    |ts| == |args| && forall i | 0 <= i < |args| :: ArgUnfolds(disk, args[i], ts[i])
  }

  /** The sources of the discovered files, the closest file first. */
  ghost function FileSources(ts: seq<Tree>): seq<ConfigValue> {
    if ts == [] then [] else FileSources(ts[..|ts| - 1]) + Sources(ts[|ts| - 1])
  }

  /** Highest precedence first: the last `--config` argument down to the first, then the files
      from the closest to the farthest; within each, own values before includes, and later
      includes before earlier ones. */
  ghost function Precedence(files: seq<Tree>, args: seq<Tree>): seq<ConfigValue> {
    SourcesOf(args) + FileSources(files)
  }

  /** The merges behind the discovered files: each one farther away goes beneath those before. */
  ghost function MergesOfFiles(ts: seq<Tree>): MergeTree {
    if ts == [] then Leaf(TableV(map[], BuiltIn)) else Node(MergesOfFiles(ts[..|ts| - 1]), MergesOf(ts[|ts| - 1]), false)
  }

  /** A file given by an argument goes through `load_includes` twice. */
  ghost function MergesOfArg(arg: CliArg, t: Tree): MergeTree {
    if arg.FileArg? then Node(Leaf(TableV(map[], t.own.def)), MergesOf(t), true) else MergesOf(t)
  }

  ghost function MergesOfArgs(args: seq<CliArg>, ts: seq<Tree>): MergeTree
    requires |ts| == |args|
  {
    if args == [] then Leaf(TableV(map[], FromCli(None)))
    else Node(MergesOfArgs(args[..|args| - 1], ts[..|ts| - 1]), MergesOfArg(args[|args| - 1], ts[|ts| - 1]), true)
  }

  /** All merges of a load. */
  ghost function AllMerges(args: seq<CliArg>, files: seq<Tree>, argTrees: seq<Tree>): MergeTree
    requires |argTrees| == |args|
  {
    Node(MergesOfFiles(files), MergesOfArgs(args, argTrees), true)
  }

  // ----- When loading succeeds -----

  /** Each discovered file is unfolded on its own and opens no file twice. */
  ghost predicate FilesUnfold(disk: Disk, paths: seq<string>, ts: seq<Tree>) {
    UnfoldsAll(disk, ForDiscovery, ts, paths) && forall i | 0 <= i < |ts| :: Fresh(Visits(ts[i]), {})
  }

  /** All files given by arguments share one record of what was opened; the includes of an inline
      argument have their own. */
  ghost predicate ArgFresh(arg: CliArg, t: Tree, seen: set<string>) {
    if arg.FileArg? then Fresh(Visits(t), seen) else Fresh(VisitsOf(t.children), {})
  }

  ghost function OpenedBy(args: seq<CliArg>, ts: seq<Tree>): set<string>
    requires |ts| == |args|
  {
    if args == [] then {}
    else
      OpenedBy(args[..|args| - 1], ts[..|ts| - 1])
      + if args[|args| - 1].FileArg? then Names(Visits(ts[|ts| - 1])) else {}
  }

  ghost predicate ArgsFresh(args: seq<CliArg>, ts: seq<Tree>)
    requires |ts| == |args|
  {
    forall i | 0 <= i < |args| :: ArgFresh(args[i], ts[i], OpenedBy(args[..i], ts[..i]))
  }

  /** Everything there is to load unfolds, no file is opened twice, and no two sources clash. */
  ghost predicate Loadable(disk: Disk, paths: seq<string>, args: seq<CliArg>, files: seq<Tree>, argTrees: seq<Tree>) {
    && FilesUnfold(disk, paths, files)
    && ArgsUnfold(disk, args, argTrees) && ArgsFresh(args, argTrees)
    && Consistent(Precedence(files, argTrees))
  }

  // ----- Files -----

  lemma {:induction false} FileSourcesPrefix(ts: seq<Tree>, n: nat, x: ConfigValue)
    requires n <= |ts|
    ensures x in FileSources(ts[..n]) ==> x in FileSources(ts)
    ensures n < |ts| && x in Sources(ts[n]) ==> x in FileSources(ts)
  {
    if n < |ts| {
      assert ts[..|ts| - 1][..n] == ts[..n];
      FileSourcesPrefix(ts[..|ts| - 1], n, x);
    } else {
      assert ts[..n] == ts;
    }
  }

  /** Merging one more file, farther away than those before. */
  lemma {:induction false} FileStep(cfg: ConfigValue, ts: seq<Tree>, file: ConfigValue, t: Tree, ord: Order)
    requires ValidOrder(ord) && StandsFor(cfg, FileSources(ts), 1) && StandsFor(file, Sources(t), 1)
    requires Yields(MergesOfFiles(ts), cfg) && Yields(MergesOf(t), file) && Merge(cfg, file, false, ord).Some?
    ensures var cfg' := Merge(cfg, file, false, ord).value;
      StandsFor(cfg', FileSources(ts + [t]), 1) && Yields(MergesOfFiles(ts + [t]), cfg')
  {
    Compose(cfg, FileSources(ts), 1, file, Sources(t), 1, false, ord);
    assert (ts + [t])[..|ts|] == ts;
    YieldsNode(MergesOfFiles(ts), MergesOf(t), false, cfg, file, ord, Merge(cfg, file, false, ord).value);
  }

  ghost predicate NoGoodFiles(disk: Disk, paths: seq<string>) {
    forall us | FilesUnfold(disk, paths, us) :: !Consistent(FileSources(us))
  }

  lemma FailAtFile(disk: Disk, paths: seq<string>, n: nat)
    requires n < |paths| && NoGoodTree(disk, ForDiscovery, paths[n], {})
    ensures NoGoodFiles(disk, paths)
  {
    forall us: seq<Tree> | FilesUnfold(disk, paths, us) ensures !Consistent(FileSources(us)) {
      assert Fresh(Visits(us[n]), {}) && us[n].path == paths[n];
      forall x | x in Sources(us[n]) ensures x in FileSources(us) {
        FileSourcesPrefix(us, n, x);
      }
      PartIsInconsistent(FileSources(us), Sources(us[n]));
    }
  }

  lemma {:induction false} ClashAtFile(disk: Disk, paths: seq<string>, n: nat, ts: seq<Tree>, cfg: ConfigValue, t: Tree, v: ConfigValue, ord: Order)
    requires ValidOrder(ord) && n < |paths| && UnfoldsAll(disk, ForDiscovery, ts, paths[..n]) && StandsFor(cfg, FileSources(ts), 1)
    requires t.path == paths[n] && Unfolds(disk, ForDiscovery, t) && StandsFor(v, Sources(t), 1)
    requires Merge(cfg, v, false, ord).None?
    ensures NoGoodFiles(disk, paths)
  {
    forall us | FilesUnfold(disk, paths, us) ensures !Consistent(FileSources(us)) {
      SameUnfoldings(disk, ForDiscovery, paths, n, us, ts);
      UnfoldsUnique(disk, ForDiscovery, us[n], t);
      forall x | x in FileSources(ts) || x in Sources(t) ensures x in FileSources(us) {
        FileSourcesPrefix(us, n, x);
      }
      FailedIsInconsistent(cfg, FileSources(ts), v, Sources(t), false, ord, FileSources(us));
    }
  }

  lemma {:induction false} FilesUnfoldOneMore(disk: Disk, paths: seq<string>, n: nat, ts: seq<Tree>, t: Tree)
    requires n < |paths| && FilesUnfold(disk, paths[..n], ts)
    requires t.path == paths[n] && Unfolds(disk, ForDiscovery, t) && Fresh(Visits(t), {})
    ensures FilesUnfold(disk, paths[..n + 1], ts + [t])
  {
    UnfoldsOneMore(disk, ForDiscovery, paths, n, ts, t);
  }

  /** Loads the discovered files, given from the closest to the farthest. It fails exactly when
      no unfolding of all of them is free of repeats and clashes. */
  method LoadValuesFrom(disk: Disk, merger: Merger, paths: seq<string>) returns (r: Option<ConfigValue>, ghost ts: seq<Tree>)
    requires merger.Valid()
    modifies merger`used
    ensures r.Some? ==> FilesUnfold(disk, paths, ts) && StandsFor(r.value, FileSources(ts), 1) && Yields(MergesOfFiles(ts), r.value)
    ensures r.None? <==> NoGoodFiles(disk, paths)
  {
    ts := [];
    var cfg := TableV(map[], BuiltIn);
    EmptyStandsForNothing(BuiltIn, 1);
    for i := 0 to |paths|
      invariant FilesUnfold(disk, paths[..i], ts) && StandsFor(cfg, FileSources(ts), 1) && Yields(MergesOfFiles(ts), cfg)
    {
      var loader := new Loader(disk, merger);
      var file, t := loader.LoadFile(paths[i], ForDiscovery);
      if !file.Loaded? {
        FailAtFile(disk, paths, i);
        return None, ts;
      }
      var merged, ord := merger.MergeNext(cfg, file.value, false);
      if merged.None? {
        ClashAtFile(disk, paths, i, ts, cfg, t, file.value, ord);
        return None, ts;
      }
      FileStep(cfg, ts, file.value, t, ord);
      FilesUnfoldOneMore(disk, paths, i, ts, t);
      cfg, ts := merged.value, ts + [t];
    }
    assert paths[..|paths|] == paths;
    AgreedIsConsistent(cfg, FileSources(ts));
    r := Some(cfg);
  }

  // ----- Arguments -----

  /** Agreement composes: what stands for `v` stands for the sources of `v`. */
  lemma AgreesThrough(r: ConfigValue, v: ConfigValue, prec: seq<ConfigValue>)
    requires Agrees(r, [v]) && Agrees(v, prec)
    ensures Agrees(r, prec)
  {
    forall path | path != [] ensures AgreesAt(r, prec, path) {
      assert AgreesAt(r, [v], path) && AgreesAt(v, prec, path);
      OneSource(v, path);
      assert [v][1..] == [] && [v][0] == v;
      assert FirstDefined([v], path) == Lookup(v, path);
      assert AllItems([v], path) == ItemsAt(v, path);
    }
  }

  /** What a file and its includes amount to has no `include` key left. */
  lemma {:induction false} NoIncludeLeft(disk: Disk, t: Tree)
    requires Unfolds(disk, ForCli, t)
    ensures FirstDefined(Sources(t), ["include"]).None?
    decreases t, 1
  {
    NoIncludeLeftIn(disk, t.children);
    assert Lookup(t.own, ["include"]).None?;
    FirstDefinedConcat([t.own], SourcesOf(t.children), ["include"]);
    NoneDefined([t.own], ["include"]);
  }

  lemma {:induction false} NoIncludeLeftIn(disk: Disk, ts: seq<Tree>)
    requires forall i | 0 <= i < |ts| :: Unfolds(disk, ForCli, ts[i])
    ensures FirstDefined(SourcesOf(ts), ["include"]).None?
    decreases ts, 0
  {
    if ts != [] {
      NoIncludeLeft(disk, ts[|ts| - 1]);
      NoIncludeLeftIn(disk, ts[..|ts| - 1]);
      FirstDefinedConcat(Sources(ts[|ts| - 1]), SourcesOf(ts[..|ts| - 1]), ["include"]);
    }
  }

  /** No tree for the argument can be merged. */
  ghost predicate NoGoodArg(disk: Disk, arg: CliArg, seen: set<string>) {
    forall t | ArgUnfolds(disk, arg, t) && ArgFresh(arg, t, seen) :: !Consistent(Sources(t))
  }

  lemma InlineRankedOwn(doc: Toml, v: ConfigValue)
    requires FromToml(FromCli(None), doc) == Some(v) && v.TableV?
    ensures AllRanked(WithoutInclude(v), 3)
  {
    forall p: Key | p != [] ensures RankedAt(v, 3, p) {
      FromTomlRanked(FromCli(None), doc, p);
    }
    WithoutIncludeRanked(v, 3);
  }

  /** An argument that is a file: it is run through `load_includes` a second time, which finds
      nothing left to include and cannot fail. */
  method LoadFileArg(disk: Disk, loader: Loader, path: string) returns (r: Option<ConfigValue>, ghost t: Tree)
    requires loader.merger.Valid() && loader.disk == disk
    modifies loader`seen, loader.merger`used
    ensures r.Some? ==> t.path == path && Unfolds(disk, ForCli, t) && Fresh(Visits(t), old(loader.seen))
    ensures r.Some? ==> StandsFor(r.value, Sources(t), 3) && loader.seen == old(loader.seen) + Names(Visits(t))
    ensures r.Some? ==> Yields(MergesOfArg(FileArg(path), t), r.value)
    ensures r.None? ==> NoGoodTree(disk, ForCli, path, old(loader.seen))
  {
    var file;
    file, t := loader.LoadFile(path, ForCli);
    if !file.Loaded? {
      return None, t;
    }
    NoIncludeLeft(disk, t);
    var second := IncludeAgain(disk, loader.merger, file.value, Sources(t), MergesOf(t));
    r := Some(second);
  }

  /** `load_includes` on a table without an `include` key. */
  method IncludeAgain(disk: Disk, merger: Merger, v: ConfigValue, ghost prec: seq<ConfigValue>, ghost m: MergeTree) returns (r: ConfigValue)
    requires merger.Valid() && StandsFor(v, prec, 3) && FirstDefined(prec, ["include"]).None? && Yields(m, v)
    modifies merger`used
    ensures StandsFor(r, prec, 3) && Yields(Node(Leaf(TableV(map[], v.def)), m, true), r)
  {
    assert AgreesAt(v, prec, ["include"]);
    LookupOne(v, "include");
    assert WithoutInclude(v) == v;
    var loader := new Loader(disk, merger);
    var res, ts := loader.LoadIncludes(v, ForCli);
    NothingIncluded(disk, v);
    assert ts == [] && [v] + SourcesOf([]) == [v];
    AgreesThrough(res.value, v, prec);
    LeafYieldsFor(TableV(map[], v.def), v, m, res.value);
    r := res.value;
  }

  lemma NothingIncluded(disk: Disk, v: ConfigValue)
    requires v.TableV? && "include" !in v.entries && AllRanked(v, 3)
    ensures IncludePaths(disk, v) == Some([]) && !NoGoodTrees(disk, ForCli, v, PathsToLoad(disk, []), {})
  {
    assert [v] + SourcesOf([]) == [v] && Fresh(VisitsOf([]), {}) && UnfoldsAll(disk, ForCli, [], []);
    StandsForItself(v, 3);
    AgreedIsConsistent(v, [v]);
  }

  /** What is merged as it is may be the outcome of other merges. */
  lemma LeafYieldsFor(root: ConfigValue, v: ConfigValue, m: MergeTree, r: ConfigValue)
    requires Yields(m, v) && Yields(Node(Leaf(root), Leaf(v), true), r)
    ensures Yields(Node(Leaf(root), m, true), r)
  {
    var a, b, ord := LastMergeOf(Node(Leaf(root), Leaf(v), true), r);
    YieldsNode(Leaf(root), m, true, root, v, ord, r);
  }

  method LoadInlineArg(disk: Disk, merger: Merger, doc: Toml) returns (r: Option<ConfigValue>, ghost t: Tree)
    requires merger.Valid()
    modifies merger`used
    ensures r.Some? ==> ArgUnfolds(disk, InlineArg(doc), t) && ArgFresh(InlineArg(doc), t, {}) && StandsFor(r.value, Sources(t), 3)
    ensures r.Some? ==> Yields(MergesOfArg(InlineArg(doc), t), r.value)
    ensures r.None? ==> NoGoodArg(disk, InlineArg(doc), {})
  {
    t := Tree("", TableV(map[], BuiltIn), []);
    if !disk.validArgument(doc) {
      return None, t;
    }
    var parsed := FromToml(FromCli(None), doc);
    if parsed.None? || !parsed.value.TableV? {
      return None, t;
    }
    var v := parsed.value;
    InlineRankedOwn(doc, v);
    var loader := new Loader(disk, merger);
    var res, ts := loader.LoadIncludes(v, ForCli);
    if !res.Loaded? {
      return None, t;
    }
    t := Tree("", WithoutInclude(v), ts);
    r := Some(res.value);
  }

  /** One `--config` argument. */
  method LoadArg(disk: Disk, loader: Loader, arg: CliArg) returns (r: Option<ConfigValue>, ghost t: Tree)
    requires loader.merger.Valid() && loader.disk == disk
    modifies loader`seen, loader.merger`used
    ensures r.Some? ==> Yields(MergesOfArg(arg, t), r.value)
    ensures r.Some? ==> ArgUnfolds(disk, arg, t) && ArgFresh(arg, t, old(loader.seen)) && StandsFor(r.value, Sources(t), 3)
    ensures r.Some? ==> loader.seen == old(loader.seen) + if arg.FileArg? then Names(Visits(t)) else {}
    ensures r.None? ==> NoGoodArg(disk, arg, old(loader.seen))
  {
    if arg.FileArg? {
      r, t := LoadFileArg(disk, loader, arg.path);
    } else {
      r, t := LoadInlineArg(disk, loader.merger, arg.doc);
    }
  }

  lemma {:induction false} ArgUnfoldsUnique(disk: Disk, arg: CliArg, t: Tree, t': Tree)
    requires ArgUnfolds(disk, arg, t) && ArgUnfolds(disk, arg, t')
    ensures t == t'
  {
    if arg.FileArg? {
      UnfoldsUnique(disk, ForCli, t, t');
    } else {
      var paths := PathsToLoad(disk, IncludePaths(disk, FromToml(FromCli(None), arg.doc).value).value);
      SameUnfoldings(disk, ForCli, paths, |paths|, t.children, t'.children) by {
        assert paths[..|paths|] == paths;
      }
      assert t.children[..|paths|] == t.children;
    }
  }

  lemma {:induction false} SameArgs(disk: Disk, args: seq<CliArg>, n: nat, us: seq<Tree>, ts: seq<Tree>)
    requires n <= |args| && ArgsUnfold(disk, args, us) && ArgsUnfold(disk, args[..n], ts)
    ensures us[..n] == ts
  {
    forall i | 0 <= i < n ensures us[i] == ts[i] {
      assert args[..n][i] == args[i];
      ArgUnfoldsUnique(disk, args[i], us[i], ts[i]);
    }
  }

  ghost predicate NoGoodArgs(disk: Disk, args: seq<CliArg>) {
    forall us | ArgsUnfold(disk, args, us) && ArgsFresh(args, us) :: !Consistent(SourcesOf(us))
  }

  /** The first `n` arguments are loaded. */
  ghost predicate ArgsLoaded(disk: Disk, args: seq<CliArg>, n: nat, ts: seq<Tree>, table: ConfigValue, seen: set<string>) {
    && n <= |args| && ArgsUnfold(disk, args[..n], ts) && ArgsFresh(args[..n], ts)
    && seen == OpenedBy(args[..n], ts) && StandsFor(table, SourcesOf(ts), 3) && Yields(MergesOfArgs(args[..n], ts), table)
  }

  lemma {:induction false} FailAtArg(disk: Disk, args: seq<CliArg>, n: nat, ts: seq<Tree>, table: ConfigValue, seen: set<string>)
    requires n < |args| && ArgsLoaded(disk, args, n, ts, table, seen) && NoGoodArg(disk, args[n], seen)
    ensures NoGoodArgs(disk, args)
  {
    forall us | ArgsUnfold(disk, args, us) && ArgsFresh(args, us) ensures !Consistent(SourcesOf(us)) {
      SameArgs(disk, args, n, us, ts);
      assert ArgFresh(args[n], us[n], OpenedBy(args[..n], us[..n]));
      forall x | x in Sources(us[n]) ensures x in SourcesOf(us) {
        SourcesOfMember(us, n, x);
      }
      PartIsInconsistent(SourcesOf(us), Sources(us[n]));
    }
  }

  lemma {:induction false} ClashAtArg(disk: Disk, args: seq<CliArg>, n: nat, ts: seq<Tree>, table: ConfigValue, seen: set<string>,
                   t: Tree, v: ConfigValue, ord: Order)
    requires ValidOrder(ord) && n < |args| && ArgsLoaded(disk, args, n, ts, table, seen)
    requires ArgUnfolds(disk, args[n], t) && StandsFor(v, Sources(t), 3) && Merge(table, v, true, ord).None?
    ensures NoGoodArgs(disk, args)
  {
    forall us | ArgsUnfold(disk, args, us) && ArgsFresh(args, us) ensures !Consistent(SourcesOf(us)) {
      SameArgs(disk, args, n, us, ts);
      ArgUnfoldsUnique(disk, args[n], us[n], t);
      forall x | x in Sources(t) ensures x in SourcesOf(us) {
        SourcesOfMember(us, n, x);
      }
      forall x | x in SourcesOf(ts) ensures x in SourcesOf(us) {
        SourcesOfPrefix(us, n, x);
      }
      FailedIsInconsistent(table, SourcesOf(ts), v, Sources(t), true, ord, SourcesOf(us));
    }
  }

  lemma {:induction false} ArgsUnfoldOneMore(disk: Disk, args: seq<CliArg>, n: nat, ts: seq<Tree>, t: Tree)
    requires n < |args| && ArgsUnfold(disk, args[..n], ts) && ArgUnfolds(disk, args[n], t)
    ensures ArgsUnfold(disk, args[..n + 1], ts + [t])
  {
    forall i | 0 <= i <= n ensures ArgUnfolds(disk, args[..n + 1][i], (ts + [t])[i]) {
      assert i < n ==> args[..n][i] == args[i];
    }
  }

  lemma {:induction false} ArgsFreshOneMore(args: seq<CliArg>, n: nat, ts: seq<Tree>, t: Tree)
    requires n < |args| && |ts| == n && ArgsFresh(args[..n], ts) && ArgFresh(args[n], t, OpenedBy(args[..n], ts))
    ensures ArgsFresh(args[..n + 1], ts + [t])
  {
    var ts', args' := ts + [t], args[..n + 1];
    forall i | 0 <= i <= n ensures ArgFresh(args'[i], ts'[i], OpenedBy(args'[..i], ts'[..i])) {
      if i < n {
        assert ArgFresh(args[..n][i], ts[i], OpenedBy(args[..n][..i], ts[..i]));
        assert args'[..i] == args[..n][..i] && ts'[..i] == ts[..i];
      } else {
        assert args'[..i] == args[..n] && ts'[..i] == ts;
      }
    }
  }

  lemma {:induction false} OpenedByOneMore(args: seq<CliArg>, n: nat, ts: seq<Tree>, t: Tree)
    requires n < |args| && |ts| == n
    ensures OpenedBy(args[..n + 1], ts + [t])
         == OpenedBy(args[..n], ts) + if args[n].FileArg? then Names(Visits(t)) else {}
  {
    assert args[..n + 1][..n] == args[..n] && (ts + [t])[..n] == ts;
  }

  lemma {:induction false} ArgStep(disk: Disk, args: seq<CliArg>, n: nat, ts: seq<Tree>, table: ConfigValue, seen: set<string>,
                t: Tree, v: ConfigValue, ord: Order, seen': set<string>)
    requires ValidOrder(ord) && n < |args| && ArgsLoaded(disk, args, n, ts, table, seen)
    requires ArgUnfolds(disk, args[n], t) && ArgFresh(args[n], t, seen) && StandsFor(v, Sources(t), 3) && Yields(MergesOfArg(args[n], t), v)
    requires seen' == seen + (if args[n].FileArg? then Names(Visits(t)) else {}) && Merge(table, v, true, ord).Some?
    ensures ArgsLoaded(disk, args, n + 1, ts + [t], Merge(table, v, true, ord).value, seen')
  {
    ArgsUnfoldOneMore(disk, args, n, ts, t);
    ArgsFreshOneMore(args, n, ts, t);
    OpenedByOneMore(args, n, ts, t);
    SourcesOneMore(ts, t);
    Compose(table, SourcesOf(ts), 3, v, Sources(t), 3, true, ord);
    assert args[..n + 1][..n] == args[..n] && (ts + [t])[..n] == ts;
    YieldsNode(MergesOfArgs(args[..n], ts), MergesOfArg(args[n], t), true, table, v, ord, Merge(table, v, true, ord).value);
  }

  lemma {:induction false} SourcesOneMore(ts: seq<Tree>, t: Tree)
    ensures SourcesOf(ts + [t]) == Sources(t) + SourcesOf(ts)
  {
    assert (ts + [t])[..|ts|] == ts;
  }

  /** The arguments in order, later over earlier. It fails exactly when no unfolding of all of
      them is free of repeats and clashes. */
  method CliArgsAsTable(disk: Disk, merger: Merger, args: seq<CliArg>) returns (r: Option<ConfigValue>, ghost ts: seq<Tree>)
    requires merger.Valid()
    modifies merger`used
    ensures r.Some? ==> ArgsUnfold(disk, args, ts) && ArgsFresh(args, ts) && StandsFor(r.value, SourcesOf(ts), 3)
    ensures r.Some? ==> Yields(MergesOfArgs(args, ts), r.value)
    ensures r.None? <==> NoGoodArgs(disk, args)
  {
    ts := [];
    var table := TableV(map[], FromCli(None));
    EmptyStandsForNothing(FromCli(None), 3);
    var loader := new Loader(disk, merger);
    for i := 0 to |args|
      invariant ArgsLoaded(disk, args, i, ts, table, loader.seen)
    {
      ghost var seen := loader.seen;
      var v, t := LoadArg(disk, loader, args[i]);
      if v.None? {
        FailAtArg(disk, args, i, ts, table, seen);
        return None, ts;
      }
      var merged, ord := merger.MergeNext(table, v.value, true);
      if merged.None? {
        ClashAtArg(disk, args, i, ts, table, seen, t, v.value, ord);
        return None, ts;
      }
      ArgStep(disk, args, i, ts, table, seen, t, v.value, ord, loader.seen);
      table, ts := merged.value, ts + [t];
    }
    assert args[..|args|] == args;
    AgreedIsConsistent(table, SourcesOf(ts));
    r := Some(table);
  }

  // ----- The whole configuration -----

  lemma {:induction false} SameFiles(disk: Disk, paths: seq<string>, us: seq<Tree>, ts: seq<Tree>)
    requires FilesUnfold(disk, paths, us) && FilesUnfold(disk, paths, ts)
    ensures us == ts
  {
    assert paths[..|paths|] == paths && us[..|paths|] == us;
    SameUnfoldings(disk, ForDiscovery, paths, |paths|, us, ts);
  }

  /** What there is to load determines its trees. */
  lemma {:induction false} LoadableUnique(disk: Disk, paths: seq<string>, args: seq<CliArg>, files: seq<Tree>, argTrees: seq<Tree>,
                       files': seq<Tree>, argTrees': seq<Tree>)
    requires FilesUnfold(disk, paths, files) && ArgsUnfold(disk, args, argTrees)
    requires FilesUnfold(disk, paths, files') && ArgsUnfold(disk, args, argTrees')
    ensures files == files' && argTrees == argTrees'
  {
    SameFiles(disk, paths, files, files');
    assert args[..|args|] == args && argTrees[..|args|] == argTrees;
    SameArgs(disk, args, |args|, argTrees, argTrees');
  }

  ghost predicate NothingLoadable(disk: Disk, paths: seq<string>, args: seq<CliArg>) {
    forall files, argTrees :: !Loadable(disk, paths, args, files, argTrees)
  }

  lemma PartsFail(disk: Disk, paths: seq<string>, args: seq<CliArg>)
    requires NoGoodFiles(disk, paths) || NoGoodArgs(disk, args)
    ensures NothingLoadable(disk, paths, args)
  {
    forall files, argTrees ensures !Loadable(disk, paths, args, files, argTrees) {
      if !Consistent(FileSources(files)) {
        PartIsInconsistent(Precedence(files, argTrees), FileSources(files));
      } else if !Consistent(SourcesOf(argTrees)) {
        PartIsInconsistent(Precedence(files, argTrees), SourcesOf(argTrees));
      }
    }
  }

  lemma {:induction false} FinalClash(disk: Disk, paths: seq<string>, args: seq<CliArg>, files: seq<Tree>, argTrees: seq<Tree>,
                   root: ConfigValue, cli: ConfigValue, ord: Order)
    requires ValidOrder(ord) && FilesUnfold(disk, paths, files) && ArgsUnfold(disk, args, argTrees)
    requires Agrees(root, FileSources(files)) && Agrees(cli, SourcesOf(argTrees)) && Merge(root, cli, true, ord).None?
    ensures NothingLoadable(disk, paths, args)
  {
    FailedIsInconsistent(root, FileSources(files), cli, SourcesOf(argTrees), true, ord, Precedence(files, argTrees));
    forall files', argTrees' ensures !Loadable(disk, paths, args, files', argTrees') {
      if Loadable(disk, paths, args, files', argTrees') {
        LoadableUnique(disk, paths, args, files, argTrees, files', argTrees');
      }
    }
  }

  /** Loading succeeds exactly when everything unfolds, no file is opened twice, and no two sources
      disagree on whether a path is a table, a list or a scalar. Then, for every iteration order
      of every hash map in every merge: a path is defined if some source defines it, a scalar is the
      one of the source with the highest precedence, and a list that is merged holds the items of
      all sources, the lowest precedence first; and the value is one that the tree of merges yields. */
  method LoadConfig(disk: Disk, merger: Merger, paths: seq<string>, args: seq<CliArg>) returns (r: Option<ConfigValue>)
    requires merger.Valid()
    modifies merger`used
    ensures r.None? <==> NothingLoadable(disk, paths, args)
    ensures forall files, argTrees | Loadable(disk, paths, args, files, argTrees) ::
      r.Some? && Agrees(r.value, Precedence(files, argTrees)) && Yields(AllMerges(args, files, argTrees), r.value)
  {
    var root, files := LoadValuesFrom(disk, merger, paths);
    if root.None? {
      PartsFail(disk, paths, args);
      return None;
    }
    var cli, argTrees := CliArgsAsTable(disk, merger, args);
    if cli.None? {
      PartsFail(disk, paths, args);
      return None;
    }
    var merged, ord := merger.MergeNext(root.value, cli.value, true);
    if merged.None? {
      FinalClash(disk, paths, args, files, argTrees, root.value, cli.value, ord);
      return None;
    }
    Compose(root.value, FileSources(files), 1, cli.value, SourcesOf(argTrees), 3, true, ord);
    YieldsNode(MergesOfFiles(files), MergesOfArgs(args, argTrees), true, root.value, cli.value, ord, merged.value);
    r := Some(merged.value);
    AgreedIsConsistent(r.value, Precedence(files, argTrees));
    assert Loadable(disk, paths, args, files, argTrees);
    forall files', argTrees' | Loadable(disk, paths, args, files', argTrees')
      ensures Agrees(r.value, Precedence(files', argTrees')) && Yields(AllMerges(args, files', argTrees'), r.value) {
      LoadableUnique(disk, paths, args, files, argTrees, files', argTrees');
    }
  }
}
