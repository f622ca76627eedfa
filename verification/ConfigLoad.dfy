/** Loading the configuration (`src/context/mod.rs`): files with their includes, the discovered
    files from the closest to the farthest, and the `--config` arguments. */
module ConfigLoad {
  import opened Units
  import opened ConfigValues
  import opened ConfigMerge
  import opened ConfigSources
  import opened ConfigTrees

  // ----- From TOML -----

  datatype Toml =
    | TomlInteger(num: int) | TomlString(str: string) | TomlBoolean(flag: bool)
    | TomlArray(items: seq<Toml>) | TomlTable(entries: map<string, Toml>)
    | TomlOther

  /** `ConfigValue::from_toml`; floats and dates are not supported. */
  function FromToml(def: Definition, t: Toml): Option<ConfigValue>
    decreases t
  {
    match t
    case TomlInteger(i) => Some(IntegerV(i, def))
    case TomlString(s) => Some(StringV(s, def))
    case TomlBoolean(b) => Some(BooleanV(b, def))
    case TomlArray(items) =>
      if exists i | 0 <= i < |items| :: FromToml(def, items[i]).None? then None
      else Some(ListV(seq(|items|, i requires 0 <= i < |items| && FromToml(def, items[i]).Some? => FromToml(def, items[i]).value), def))
    case TomlTable(entries) =>
      if exists k | k in entries :: FromToml(def, entries[k]).None? then None
      else Some(TableV(map k | k in entries && FromToml(def, entries[k]).Some? :: FromToml(def, entries[k]).value, def))
    case TomlOther => None
  }

  /** Everything in a parsed file carries the file's definition. */
  lemma {:induction false} FromTomlRanked(def: Definition, t: Toml, path: Key)
    requires FromToml(def, t).Some?
    ensures RankedAt(FromToml(def, t).value, def.Rank(), path)
    decreases |path|
  {
    var v := FromToml(def, t).value;
    if path == [] {
      if t.TomlArray? {
        forall i | 0 <= i < |t.items| ensures v.items[i].def.Rank() == def.Rank() {
          assert FromToml(def, t.items[i]).Some?;
        }
      }
    } else if t.TomlTable? && path[0] in t.entries {
      assert FromToml(def, t.entries[path[0]]).Some?;
      FromTomlRanked(def, t.entries[path[0]], path[1..]);
    }
  }

  // ----- Files and includes -----

  /** The files that exist (`None`: not readable as TOML), how include paths are resolved and
      normalised, and which include paths and inline arguments are acceptable. */
  datatype Disk = Disk(
    files: map<string, Option<Toml>>,
    resolve: (Definition, string) -> string,
    validInclude: string -> bool,
    validArgument: Toml -> bool)

  datatype WhyLoad = ForCli | ForDiscovery

  function DefinitionOf(why: WhyLoad, path: string): Definition {
    if why.ForCli? then FromCli(Some(path)) else FromPath(path)
  }

  function RankOf(why: WhyLoad): nat {
    if why.ForCli? then 3 else 1
  }

  datatype Include = Include(path: string, def: Definition, optional: bool)

  function ParseInclude(v: ConfigValue): Option<Include> {
    match v
    case StringV(s, def) => Some(Include(s, def, false))
    case TableV(entries, def) =>
      if "path" !in entries || !entries["path"].StringV? then None
      else if "optional" !in entries then Some(Include(entries["path"].str, def, false))
      else if !entries["optional"].BooleanV? then None
      else Some(Include(entries["path"].str, def, entries["optional"].flag))
    case _ => None
  }

  function ParseIncludes(disk: Disk, items: seq<ConfigValue>): Option<seq<Include>> {
    if items == [] then Some([])
    else
      match (ParseInclude(items[0]), ParseIncludes(disk, items[1..]))
      case (Some(i), Some(rest)) => if disk.validInclude(i.path) then Some([i] + rest) else None
      case _ => None
  }

  /** `include_paths`: the `include` key of a file, if it is well-formed. */
  function IncludePaths(disk: Disk, v: ConfigValue): Option<seq<Include>>
    requires v.TableV?
  {
    if "include" !in v.entries then Some([])
    else
      match v.entries["include"]
      case ListV(items, _) => ParseIncludes(disk, items)
      case _ => None
  }

  /** The normalised paths to load; optional includes that do not exist are skipped. */
  function PathsToLoad(disk: Disk, includes: seq<Include>): seq<string> {
    if includes == [] then []
    else
      var path := disk.resolve(includes[0].def, includes[0].path);
      (if includes[0].optional && path !in disk.files then [] else [path]) + PathsToLoad(disk, includes[1..])
  }

  function WithoutInclude(v: ConfigValue): ConfigValue
    requires v.TableV?
  {
    v.(entries := v.entries - {"include"})
  }

  // ----- The tree of includes -----

  /** A file together with everything it includes, unfolded. */
  datatype Tree = Tree(path: string, own: ConfigValue, children: seq<Tree>)

  /** What a file parses to, if it does. */
  function Parsed(disk: Disk, why: WhyLoad, path: string): Option<ConfigValue> {
    if path !in disk.files || disk.files[path].None? || !disk.files[path].value.TomlTable? then None
    else FromToml(DefinitionOf(why, path), disk.files[path].value)
  }

  lemma ParsedIsTable(disk: Disk, why: WhyLoad, path: string)
    requires Parsed(disk, why, path).Some?
    ensures Parsed(disk, why, path).value.TableV?
  {}

  ghost predicate Unfolds(disk: Disk, why: WhyLoad, t: Tree)
    decreases t
  {
    var v := Parsed(disk, why, t.path);
    && v.Some? && v.value.TableV?
    && IncludePaths(disk, v.value).Some?
    && t.own == WithoutInclude(v.value)
    && |t.children| == |PathsToLoad(disk, IncludePaths(disk, v.value).value)|
    && (forall i | 0 <= i < |t.children| :: t.children[i].path == PathsToLoad(disk, IncludePaths(disk, v.value).value)[i])
    && (forall i | 0 <= i < |t.children| :: Unfolds(disk, why, t.children[i]))
  }

  /** The trees unfold the files at `paths`. */
  ghost predicate UnfoldsAll(disk: Disk, why: WhyLoad, ts: seq<Tree>, paths: seq<string>) {
    && |ts| == |paths|
    && forall i | 0 <= i < |ts| :: ts[i].path == paths[i] && Unfolds(disk, why, ts[i])
  }

  /** The files in the order they are opened. */
  ghost function Visits(t: Tree): seq<string>
    decreases t, 1
  {
    [t.path] + VisitsOf(t.children)
  }

  ghost function VisitsOf(ts: seq<Tree>): seq<string>
    decreases ts, 0
  {
    if ts == [] then [] else VisitsOf(ts[..|ts| - 1]) + Visits(ts[|ts| - 1])
  }

  /** The sources of a file: its own values, then those of its includes, the last one first. */
  ghost function Sources(t: Tree): seq<ConfigValue>
    decreases t, 1
  {
    [t.own] + SourcesOf(t.children)
  }

  ghost function SourcesOf(ts: seq<Tree>): seq<ConfigValue>
    decreases ts, 0
  {
    if ts == [] then [] else Sources(ts[|ts| - 1]) + SourcesOf(ts[..|ts| - 1])
  }

  /** The merges behind a file: the includes in order into an empty table, then its own values. */
  ghost function MergesOf(t: Tree): MergeTree
    decreases t, 1
  {
    Node(MergesOfAll(t.children, t.own.def), Leaf(t.own), true)
  }

  ghost function MergesOfAll(ts: seq<Tree>, def: Definition): MergeTree
    decreases ts, 0
  {
    if ts == [] then Leaf(TableV(map[], def)) else Node(MergesOfAll(ts[..|ts| - 1], def), MergesOf(ts[|ts| - 1]), true)
  }

  /** No file is opened twice, and none that was seen before. */
  ghost predicate Fresh(visits: seq<string>, seen: set<string>) {
    && (forall i, j | 0 <= i < j < |visits| :: visits[i] != visits[j])
    && forall i | 0 <= i < |visits| :: visits[i] !in seen
  }

  function Names(visits: seq<string>): set<string> {
    set x | x in visits
  }

  lemma FreshConcat(a: seq<string>, b: seq<string>, seen: set<string>)
    ensures Fresh(a + b, seen) <==> Fresh(a, seen) && Fresh(b, seen + Names(a))
    ensures Names(a + b) == Names(a) + Names(b)
  {
    var c := a + b;
    if Fresh(c, seen) {
      assert forall i | 0 <= i < |a| :: a[i] == c[i];
      assert forall i | 0 <= i < |b| :: b[i] == c[|a| + i];
      forall i | 0 <= i < |b| ensures b[i] !in Names(a) {}
    }
    if Fresh(a, seen) && Fresh(b, seen + Names(a)) {
      forall i, j | 0 <= i < j < |c| ensures c[i] != c[j] {
        if i < |a| <= j {
          assert a[i] in Names(a) && b[j - |a|] !in seen + Names(a);
        }
      }
    }
  }

  /** A file unfolds in one way at most. */
  lemma {:induction false} UnfoldsUnique(disk: Disk, why: WhyLoad, t: Tree, t': Tree)
    requires Unfolds(disk, why, t) && Unfolds(disk, why, t') && t.path == t'.path
    ensures t == t'
    decreases t
  {
    forall i | 0 <= i < |t.children| ensures t.children[i] == t'.children[i] {
      UnfoldsUnique(disk, why, t.children[i], t'.children[i]);
    }
  }

  // ----- The loader -----

  datatype LoadResult = Loaded(value: ConfigValue) | CycleDetected | LoadFailed

  lemma OwnValuesRanked(disk: Disk, why: WhyLoad, path: string)
    requires Parsed(disk, why, path).Some?
    ensures AllRanked(WithoutInclude(Parsed(disk, why, path).value), RankOf(why))
  {
    var v := Parsed(disk, why, path).value;
    WithoutIncludeRanked(v, RankOf(why)) by {
      forall p: Key | p != [] ensures RankedAt(v, RankOf(why), p) {
        FromTomlRanked(DefinitionOf(why, path), disk.files[path].value, p);
      }
    }
  }

  lemma WithoutIncludeRanked(v: ConfigValue, k: nat)
    requires v.TableV? && AllRanked(v, k)
    ensures AllRanked(WithoutInclude(v), k)
  {
    forall p: Key | p != [] ensures RankedAt(WithoutInclude(v), k, p) {
      assert RankedAt(v, k, p);
    }
  }

  /** Every unfolding of the file at `path` opens some file twice, or one seen before. */
  ghost predicate NoFreshUnfolding(disk: Disk, why: WhyLoad, path: string, seen: set<string>) {
    forall t: Tree | t.path == path && Unfolds(disk, why, t) :: !Fresh(Visits(t), seen)
  }

  ghost predicate NoFreshUnfoldings(disk: Disk, why: WhyLoad, paths: seq<string>, seen: set<string>) {
    forall ts | UnfoldsAll(disk, why, ts, paths) :: !Fresh(VisitsOf(ts), seen)
  }

  /** No unfolding of the file at `path` can be merged: each opens some file twice, or one seen
      before, or has sources that clash. */
  ghost predicate NoGoodTree(disk: Disk, why: WhyLoad, path: string, seen: set<string>) {
    forall t: Tree | t.path == path && Unfolds(disk, why, t) && Fresh(Visits(t), seen) :: !Consistent(Sources(t))
  }

  ghost predicate NoGoodTrees(disk: Disk, why: WhyLoad, own: ConfigValue, paths: seq<string>, seen: set<string>) {
    forall us | UnfoldsAll(disk, why, us, paths) && Fresh(VisitsOf(us), seen) :: !Consistent([own] + SourcesOf(us))
  }

  /** The first `n` includes are loaded: `ts` unfolds them, and `root` stands for them. */
  ghost predicate IncludesLoaded(disk: Disk, why: WhyLoad, paths: seq<string>, n: nat, ts: seq<Tree>, root: ConfigValue,
                                 before: set<string>, seen: set<string>) {
    && n <= |paths| && UnfoldsAll(disk, why, ts, paths[..n])
    && Fresh(VisitsOf(ts), before) && seen == before + Names(VisitsOf(ts))
    && StandsFor(root, SourcesOf(ts), RankOf(why)) && Yields(MergesOfAll(ts, root.def), root)
  }

  lemma {:induction false} UnfoldsOneMore(disk: Disk, why: WhyLoad, paths: seq<string>, n: nat, ts: seq<Tree>, t: Tree)
    requires n < |paths| && UnfoldsAll(disk, why, ts, paths[..n]) && t.path == paths[n] && Unfolds(disk, why, t)
    ensures UnfoldsAll(disk, why, ts + [t], paths[..n + 1])
  {
    assert paths[..n + 1] == paths[..n] + [paths[n]];
  }

  /** Merging one more include. */
  lemma {:induction false} IncludeStep(disk: Disk, why: WhyLoad, paths: seq<string>, n: nat, ts: seq<Tree>, root: ConfigValue,
                    before: set<string>, seen: set<string>, t: Tree, v: ConfigValue, ord: Order, root': ConfigValue, seen': set<string>)
    requires ValidOrder(ord) && n < |paths| && IncludesLoaded(disk, why, paths, n, ts, root, before, seen)
    requires t.path == paths[n] && Unfolds(disk, why, t) && Fresh(Visits(t), seen) && seen' == seen + Names(Visits(t))
    requires StandsFor(v, Sources(t), RankOf(why)) && Yields(MergesOf(t), v) && Merge(root, v, true, ord) == Some(root')
    ensures IncludesLoaded(disk, why, paths, n + 1, ts + [t], root', before, seen') && root'.def == root.def
  {
    IncludeMerged(why, ts, root, t, v, ord, root');
    IncludeVisited(ts, t, before, seen, seen');
    UnfoldsOneMore(disk, why, paths, n, ts, t);
  }

  lemma {:induction false} IncludeVisited(ts: seq<Tree>, t: Tree, before: set<string>, seen: set<string>, seen': set<string>)
    requires Fresh(VisitsOf(ts), before) && seen == before + Names(VisitsOf(ts))
    requires Fresh(Visits(t), seen) && seen' == seen + Names(Visits(t))
    ensures Fresh(VisitsOf(ts + [t]), before) && seen' == before + Names(VisitsOf(ts + [t]))
  {
    assert (ts + [t])[..|ts|] == ts;
    FreshConcat(VisitsOf(ts), Visits(t), before);
  }

  lemma {:induction false} IncludeMerged(why: WhyLoad, ts: seq<Tree>, root: ConfigValue, t: Tree, v: ConfigValue, ord: Order, root': ConfigValue)
    requires ValidOrder(ord) && StandsFor(root, SourcesOf(ts), RankOf(why)) && StandsFor(v, Sources(t), RankOf(why))
    requires Yields(MergesOfAll(ts, root.def), root) && Yields(MergesOf(t), v) && Merge(root, v, true, ord) == Some(root')
    ensures StandsFor(root', SourcesOf(ts + [t]), RankOf(why)) && Yields(MergesOfAll(ts + [t], root.def), root') && root'.def == root.def
  {
    assert (ts + [t])[..|ts|] == ts;
    Compose(root, SourcesOf(ts), RankOf(why), v, Sources(t), RankOf(why), true, ord);
    YieldsNode(MergesOfAll(ts, root.def), MergesOf(t), true, root, v, ord, root');
  }

  lemma {:induction false} VisitsOfSplit(ts: seq<Tree>, n: nat)
    requires n < |ts|
    ensures VisitsOf(ts[..n]) + Visits(ts[n]) <= VisitsOf(ts)
    decreases |ts|
  {
    var init := ts[..|ts| - 1];
    if n < |ts| - 1 {
      assert init[..n] == ts[..n];
      VisitsOfSplit(init, n);
    }
  }

  lemma {:induction false} SameUnfoldings(disk: Disk, why: WhyLoad, paths: seq<string>, n: nat, us: seq<Tree>, ts: seq<Tree>)
    requires n <= |paths| && UnfoldsAll(disk, why, us, paths) && UnfoldsAll(disk, why, ts, paths[..n])
    ensures us[..n] == ts
  {
    forall i | 0 <= i < n ensures us[i] == ts[i] {
      assert ts[i].path == paths[..n][i];
      UnfoldsUnique(disk, why, us[i], ts[i]);
    }
  }

  lemma {:induction false} FreshInside(us: seq<Tree>, n: nat, before: set<string>)
    requires n < |us| && Fresh(VisitsOf(us), before)
    ensures Fresh(Visits(us[n]), before + Names(VisitsOf(us[..n])))
  {
    VisitsOfSplit(us, n);
    FreshPrefix(VisitsOf(us[..n]) + Visits(us[n]), VisitsOf(us), before);
    FreshConcat(VisitsOf(us[..n]), Visits(us[n]), before);
  }

  lemma FreshPrefix(a: seq<string>, c: seq<string>, seen: set<string>)
    requires a <= c && Fresh(c, seen)
    ensures Fresh(a, seen)
  {
  }

  /** A cycle met at the next include rules out a fresh unfolding of the whole list. */
  lemma {:induction false} CycleAtInclude(disk: Disk, why: WhyLoad, paths: seq<string>, n: nat, ts: seq<Tree>, root: ConfigValue, before: set<string>, seen: set<string>)
    requires n < |paths| && IncludesLoaded(disk, why, paths, n, ts, root, before, seen)
    requires NoFreshUnfolding(disk, why, paths[n], seen)
    ensures NoFreshUnfoldings(disk, why, paths, before)
  {
    forall us | UnfoldsAll(disk, why, us, paths) ensures !Fresh(VisitsOf(us), before) {
      SameUnfoldings(disk, why, paths, n, us, ts);
      if Fresh(VisitsOf(us), before) {
        FreshInside(us, n, before);
      }
    }
  }

  lemma {:induction false} SourcesOfMember(ts: seq<Tree>, n: nat, x: ConfigValue)
    requires n < |ts| && x in Sources(ts[n])
    ensures x in SourcesOf(ts)
  {
    if n < |ts| - 1 {
      SourcesOfMember(ts[..|ts| - 1], n, x);
    }
  }

  lemma {:induction false} SourcesOfPrefix(ts: seq<Tree>, n: nat, x: ConfigValue)
    requires n <= |ts| && x in SourcesOf(ts[..n])
    ensures x in SourcesOf(ts)
  {
    if n < |ts| {
      assert ts[..|ts| - 1][..n] == ts[..n];
      SourcesOfPrefix(ts[..|ts| - 1], n, x);
    } else {
      assert ts[..n] == ts;
    }
  }

  /** An include that cannot be loaded spoils the file that includes it. */
  lemma {:induction false} FailAtInclude(disk: Disk, why: WhyLoad, own: ConfigValue, paths: seq<string>, n: nat, ts: seq<Tree>, root: ConfigValue,
                      before: set<string>, seen: set<string>)
    requires n < |paths| && IncludesLoaded(disk, why, paths, n, ts, root, before, seen)
    requires NoGoodTree(disk, why, paths[n], seen)
    ensures NoGoodTrees(disk, why, own, paths, before)
  {
    forall us | UnfoldsAll(disk, why, us, paths) && Fresh(VisitsOf(us), before) ensures !Consistent([own] + SourcesOf(us)) {
      SameUnfoldings(disk, why, paths, n, us, ts);
      FreshInside(us, n, before);
      forall x | x in Sources(us[n]) ensures x in [own] + SourcesOf(us) {
        SourcesOfMember(us, n, x);
      }
      PartIsInconsistent([own] + SourcesOf(us), Sources(us[n]));
    }
  }

  /** So does one that cannot be merged with those before it. */
  lemma {:induction false} ClashAtInclude(disk: Disk, why: WhyLoad, own: ConfigValue, paths: seq<string>, n: nat, ts: seq<Tree>, root: ConfigValue,
                       before: set<string>, seen: set<string>, t: Tree, v: ConfigValue, ord: Order)
    requires ValidOrder(ord) && n < |paths| && IncludesLoaded(disk, why, paths, n, ts, root, before, seen)
    requires t.path == paths[n] && Unfolds(disk, why, t) && StandsFor(v, Sources(t), RankOf(why))
    requires Merge(root, v, true, ord).None?
    ensures NoGoodTrees(disk, why, own, paths, before)
  {
    forall us | UnfoldsAll(disk, why, us, paths) && Fresh(VisitsOf(us), before) ensures !Consistent([own] + SourcesOf(us)) {
      SameUnfoldings(disk, why, paths, n, us, ts);
      UnfoldsUnique(disk, why, us[n], t);
      var all := [own] + SourcesOf(us);
      forall x | x in Sources(t) ensures x in all {
        SourcesOfMember(us, n, x);
      }
      forall x | x in SourcesOf(ts) ensures x in all {
        SourcesOfPrefix(us, n, x);
      }
      FailedIsInconsistent(root, SourcesOf(ts), v, Sources(t), true, ord, all);
    }
  }

  /** And so do includes that the file's own values cannot be merged with. */
  lemma {:induction false} ClashAtOwn(disk: Disk, why: WhyLoad, own: ConfigValue, paths: seq<string>, ts: seq<Tree>, root: ConfigValue,
                   before: set<string>, seen: set<string>, ord: Order)
    requires ValidOrder(ord) && IncludesLoaded(disk, why, paths, |paths|, ts, root, before, seen)
    requires StandsFor(own, [own], RankOf(why)) && Merge(root, own, true, ord).None?
    ensures NoGoodTrees(disk, why, own, paths, before)
  {
    forall us | UnfoldsAll(disk, why, us, paths) && Fresh(VisitsOf(us), before) ensures !Consistent([own] + SourcesOf(us)) {
      SameUnfoldings(disk, why, paths, |paths|, us, ts);
      assert us[..|paths|] == us;
      FailedIsInconsistent(root, SourcesOf(ts), own, [own], true, ord, [own] + SourcesOf(us));
    }
  }

  lemma FileFails(disk: Disk, why: WhyLoad, path: string, before: set<string>, v: ConfigValue)
    requires path !in before && Parsed(disk, why, path) == Some(v) && v.TableV?
    requires IncludePaths(disk, v).Some? ==>
      NoGoodTrees(disk, why, WithoutInclude(v), PathsToLoad(disk, IncludePaths(disk, v).value), before + {path})
    ensures NoGoodTree(disk, why, path, before)
  {
    forall t: Tree | t.path == path && Unfolds(disk, why, t) && Fresh(Visits(t), before) ensures !Consistent(Sources(t)) {
      FreshConcat([path], VisitsOf(t.children), before);
      assert Names([path]) == {path};
      assert UnfoldsAll(disk, why, t.children, PathsToLoad(disk, IncludePaths(disk, v).value));
    }
  }

  /** From the includes of a file to the file. */
  lemma {:induction false} FileDone(disk: Disk, why: WhyLoad, path: string, before: set<string>, tree: Tree)
    requires path !in before && tree.path == path && Parsed(disk, why, path).Some? && Parsed(disk, why, path).value.TableV?
    requires tree.own == WithoutInclude(Parsed(disk, why, path).value)
    ensures Names(Visits(tree)) == {path} + Names(VisitsOf(tree.children))
    ensures Fresh(Visits(tree), before) <==> Fresh(VisitsOf(tree.children), before + {path})
    ensures IncludePaths(disk, Parsed(disk, why, path).value).Some?
            && UnfoldsAll(disk, why, tree.children, PathsToLoad(disk, IncludePaths(disk, Parsed(disk, why, path).value).value))
            ==> Unfolds(disk, why, tree)
    ensures IncludePaths(disk, Parsed(disk, why, path).value).Some?
            && NoFreshUnfoldings(disk, why, PathsToLoad(disk, IncludePaths(disk, Parsed(disk, why, path).value).value), before + {path})
            ==> NoFreshUnfolding(disk, why, path, before)
  {
    FreshConcat([path], VisitsOf(tree.children), before);
    assert Names([path]) == {path};
    forall t: Tree | t.path == path && Unfolds(disk, why, t) ensures Fresh(Visits(t), before) <==> Fresh(VisitsOf(t.children), before + {path}) {
      FreshConcat([path], VisitsOf(t.children), before);
    }
    forall t: Tree | t.path == path && Unfolds(disk, why, t)
      ensures UnfoldsAll(disk, why, t.children, PathsToLoad(disk, IncludePaths(disk, Parsed(disk, why, path).value).value)) {}
  }

  /** Every merge of a run has an iteration order of its own, which may be any. */
  class Merger {
    const orders: nat -> Order
    var used: nat

    ghost predicate Valid() {
      forall n: nat :: ValidOrder(orders(n))
    }

    constructor (orders: nat -> Order)
      ensures this.orders == orders && used == 0
    {
      this.orders, used := orders, 0;
    }

    method MergeNext(self: ConfigValue, from: ConfigValue, force: bool) returns (r: Option<ConfigValue>, ghost ord: Order)
      requires Valid()
      modifies this`used
      ensures ord == orders(old(used)) && ValidOrder(ord) && used == old(used) + 1 && r == Merge(self, from, force, ord)
    {
      ord := orders(used);
      var merged := MergeInPlace(self, from, force, [], orders(used));
      used := used + 1;
      r := if merged.MergeFailed? then None else Some(merged.value);
    }
  }

  class Loader {
    const disk: Disk
    const merger: Merger
    var seen: set<string>

    constructor (disk: Disk, merger: Merger)
      ensures this.disk == disk && this.merger == merger && seen == {}
    {
      this.disk, this.merger, seen := disk, merger, {};
    }

    /** `_load_file` with includes. */
    method LoadFile(path: string, why: WhyLoad) returns (r: LoadResult, ghost tree: Tree)
      requires merger.Valid()
      modifies this`seen, merger`used
      ensures old(seen) <= seen
      ensures r.Loaded? ==> tree.path == path && Unfolds(disk, why, tree)
      ensures r.Loaded? ==> Fresh(Visits(tree), old(seen)) && seen == old(seen) + Names(Visits(tree))
      ensures r.Loaded? ==> StandsFor(r.value, Sources(tree), RankOf(why))
      ensures r.Loaded? ==> Yields(MergesOf(tree), r.value) && r.value.def == tree.own.def
      ensures r.CycleDetected? ==> NoFreshUnfolding(disk, why, path, old(seen))
      ensures !r.Loaded? ==> NoGoodTree(disk, why, path, old(seen))
      ensures r.Loaded? ==> Consistent(Sources(tree))
      decreases disk.files.Keys - seen, 0
    {
      tree := Tree(path, TableV(map[], BuiltIn), []);
      if path in seen {
        assert forall t: Tree | t.path == path :: Visits(t)[0] == path;
        return CycleDetected, tree;
      }
      seen := seen + {path};
      var v := Parsed(disk, why, path);
      if v.None? {
        return LoadFailed, tree;
      }
      ParsedIsTable(disk, why, path);
      OwnValuesRanked(disk, why, path);
      ghost var ts;
      r, ts := LoadIncludes(v.value, why);
      tree := Tree(path, WithoutInclude(v.value), ts);
      FileDone(disk, why, path, old(seen), tree);
      if r.Loaded? {
        AgreedIsConsistent(r.value, Sources(tree));
      } else {
        FileFails(disk, why, path, old(seen), v.value);
      }
    }

    /** `load_includes`: the includes in order, then the file itself on top. */
    method LoadIncludes(v: ConfigValue, why: WhyLoad) returns (r: LoadResult, ghost ts: seq<Tree>)
      requires merger.Valid() && v.TableV? && AllRanked(WithoutInclude(v), RankOf(why))
      modifies this`seen, merger`used
      ensures old(seen) <= seen
      ensures r.Loaded? ==> IncludePaths(disk, v).Some? && UnfoldsAll(disk, why, ts, PathsToLoad(disk, IncludePaths(disk, v).value))
      ensures r.Loaded? ==> Fresh(VisitsOf(ts), old(seen)) && seen == old(seen) + Names(VisitsOf(ts))
      ensures r.Loaded? ==> StandsFor(r.value, [WithoutInclude(v)] + SourcesOf(ts), RankOf(why))
      ensures r.Loaded? ==> Yields(Node(MergesOfAll(ts, v.def), Leaf(WithoutInclude(v)), true), r.value) && r.value.def == v.def
      ensures r.CycleDetected? ==> IncludePaths(disk, v).Some? && NoFreshUnfoldings(disk, why, PathsToLoad(disk, IncludePaths(disk, v).value), old(seen))
      ensures !r.Loaded? && IncludePaths(disk, v).Some? ==>
        NoGoodTrees(disk, why, WithoutInclude(v), PathsToLoad(disk, IncludePaths(disk, v).value), old(seen))
      decreases disk.files.Keys - seen, 2
    {
      ts := [];
      var includes := IncludePaths(disk, v);
      if includes.None? {
        return LoadFailed, ts;
      }
      var paths := PathsToLoad(disk, includes.value);
      var own := WithoutInclude(v);
      var root;
      root, ts := LoadEach(paths, why, v.def, own);
      if !root.Loaded? {
        return root, ts;
      }
      assert paths[..|paths|] == paths;
      StandsForItself(own, RankOf(why));
      var merged, ord := merger.MergeNext(root.value, own, true);
      if merged.None? {
        ClashAtOwn(disk, why, own, paths, ts, root.value, old(seen), seen, ord);
        return LoadFailed, ts;
      }
      Compose(root.value, SourcesOf(ts), RankOf(why), own, [own], RankOf(why), true, ord);
      YieldsNode(MergesOfAll(ts, v.def), Leaf(own), true, root.value, own, ord, merged.value);
      r := Loaded(merged.value);
    }

    /** The includes in order. */
    method LoadEach(paths: seq<string>, why: WhyLoad, def: Definition, ghost own: ConfigValue) returns (r: LoadResult, ghost ts: seq<Tree>)
      requires merger.Valid()
      modifies this`seen, merger`used
      ensures old(seen) <= seen
      ensures r.Loaded? ==> IncludesLoaded(disk, why, paths, |paths|, ts, r.value, old(seen), seen) && r.value.def == def
      ensures r.CycleDetected? ==> NoFreshUnfoldings(disk, why, paths, old(seen))
      ensures !r.Loaded? ==> NoGoodTrees(disk, why, own, paths, old(seen))
      decreases disk.files.Keys - seen, 1
    {
      ts := [];
      var root := TableV(map[], def);
      EmptyStandsForNothing(def, RankOf(why));
      for i := 0 to |paths|
        invariant old(seen) <= seen && root.def == def
        invariant IncludesLoaded(disk, why, paths, i, ts, root, old(seen), seen)
      {
        ghost var before := seen;
        var file, t := LoadFile(paths[i], why);
        if !file.Loaded? {
          if file.CycleDetected? {
            CycleAtInclude(disk, why, paths, i, ts, root, old(seen), before);
          }
          FailAtInclude(disk, why, own, paths, i, ts, root, old(seen), before);
          return file, ts;
        }
        var merged, ord := merger.MergeNext(root, file.value, true);
        if merged.None? {
          ClashAtInclude(disk, why, own, paths, i, ts, root, old(seen), before, t, file.value, ord);
          return LoadFailed, ts;
        }
        IncludeStep(disk, why, paths, i, ts, root, old(seen), before, t, file.value, ord, merged.value, seen);
        root, ts := merged.value, ts + [t];
      }
      r := Loaded(root);
    }
  }
}
