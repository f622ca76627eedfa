/** Environment variables on top of the loaded configuration (`src/context/mod.rs`, `de.rs`). */
module ConfigEnv {
  import opened Units
  import opened ConfigValues
  import opened ConfigMerge
  import opened ConfigSources
  import opened ConfigLoad
  import opened ConfigPrecedence
  import Sorting

  /** An environment variable that is set: its text, the words it splits into, and what it reads
      as. `words` is `None` where the text should be a TOML array and is not one of strings. */
  datatype EnvVar = EnvVar(key: string, text: string, words: Option<seq<string>>, number: Option<int>, bracketed: bool)
  {
    function Def(): Definition { FromEnv(key) }
  }

  function EnvItems(words: seq<string>, def: Definition): seq<ConfigValue> {
    seq(|words|, i requires 0 <= i < |words| => StringV(words[i], def))
  }

  // ----- Lists -----

  /** `ListPanic` is the assertion that a non-mergeable list comes from one kind of place. */
  datatype EnvList = Listed(items: seq<ConfigValue>) | ListError | ListPanic

  /** All items are defined in the same kind of place. */
  predicate OnePlace(items: seq<ConfigValue>) {
    forall i | 0 < i < |items| :: items[i - 1].def.Rank() == items[i].def.Rank()
  }

  /** The list once the variable is taken into account. */
  function WithWords(key: Key, e: EnvVar, output: seq<ConfigValue>): EnvList {
    if IsNonMergeableList(key) && !OnePlace(output) then ListPanic
    else if IsNonMergeableList(key) && output != [] && output[0].def.IsHigherPriority(e.Def()) then Listed(output)
    else if e.words.None? then ListError
    else Listed(ByDefinition((if IsNonMergeableList(key) then [] else output) + EnvItems(e.words.value, e.Def())))
  }

  /** All in one place: no two items have different ranks. */
  lemma {:induction false} OnePlaceExactly(items: seq<ConfigValue>)
    ensures OnePlace(items) <==> forall i, j | 0 <= i < |items| && 0 <= j < |items| :: items[i].def.Rank() == items[j].def.Rank()
  {
    if OnePlace(items) && items != [] {
      var init := items[..|items| - 1];
      assert OnePlace(init);
      OnePlaceExactly(init);
      forall i | 0 <= i < |items| ensures items[i].def.Rank() == items[0].def.Rank() {
        if i == |init| && i > 0 {
          assert init[i - 1].def.Rank() == init[0].def.Rank();
        } else if i > 0 {
          assert init[i].def.Rank() == init[0].def.Rank();
        }
      }
    }
  }

  /** The words of the variable, in order. */
  ghost predicate AreWords(items: seq<ConfigValue>, e: EnvVar) {
    && e.words.Some? && |items| == |e.words.value|
    && forall i | 0 <= i < |items| :: items[i] == StringV(e.words.value[i], FromEnv(e.key))
  }

  /** A list that is not merged is the variable's alone, unless the command line has set it; then it stays. */
  lemma VariableReplaces(key: Key, e: EnvVar, output: seq<ConfigValue>)
    requires IsNonMergeableList(key) && OnePlace(output)
    ensures output != [] && output[0].def.FromCli? ==> WithWords(key, e, output) == Listed(output)
    ensures output == [] || !output[0].def.FromCli? ==>
      if e.words.None? then WithWords(key, e, output) == ListError
      else WithWords(key, e, output).Listed? && AreWords(WithWords(key, e, output).items, e)
  {
    if e.words.Some? {
      var items := EnvItems(e.words.value, e.Def());
      SortedAlready(items, 2, 2, []);
      assert items + [] == items && [] + items == items;
    }
  }

  /** The items of one rank, in order. */
  function OfRank(items: seq<ConfigValue>, k: nat): seq<ConfigValue> {
    Sorting.WithKey(items, (v: ConfigValue) => v.def.Rank(), k)
  }

  /** To any other list the words are added: the result goes up in rank, and inside each rank the items are those
      that were there, followed for the environment by the words. */
  lemma VariableAdds(key: Key, e: EnvVar, output: seq<ConfigValue>, words: seq<ConfigValue>)
    requires !IsNonMergeableList(key) && AreWords(words, e)
    ensures WithWords(key, e, output).Listed?
    ensures var items := WithWords(key, e, output).items;
      && (forall i, j | 0 <= i < j < |items| :: items[i].def.Rank() <= items[j].def.Rank())
      && (forall k: nat | k != 2 :: OfRank(items, k) == OfRank(output, k))
      && OfRank(items, 2) == OfRank(output, 2) + words
  {
    var rank := (v: ConfigValue) => v.def.Rank();
    assert words == EnvItems(e.words.value, e.Def());
    Sorting.SortIsStable(output + words, rank);
    forall k: nat ensures OfRank(output + words, k) == OfRank(output, k) + if k == 2 then words else [] {
      Sorting.WithKeyConcat(output, words, rank, k);
      AllOfRank(words, 2, k);
    }
  }

  lemma {:induction false} AllOfRank(items: seq<ConfigValue>, r: nat, k: nat)
    requires forall i | 0 <= i < |items| :: items[i].def.Rank() == r
    ensures OfRank(items, k) == if k == r then items else []
  {
    if items != [] {
      AllOfRank(items[..|items| - 1], r, k);
      assert items == items[..|items| - 1] + [items[|items| - 1]];
    }
  }

  /** The check of neighbouring items. */
  method AllInOnePlace(items: seq<ConfigValue>) returns (ok: bool)
    ensures ok <==> OnePlace(items)
  {
    for i := 0 to |items|
      invariant forall j | 0 < j < i :: items[j - 1].def.Rank() == items[j].def.Rank()
    {
      if i > 0 && items[i - 1].def.Rank() != items[i].def.Rank() {
        return false;
      }
    }
    ok := true;
  }

  /** `get_env_list`. */
  method GetEnvList(key: Key, env: Option<EnvVar>, output: seq<ConfigValue>) returns (r: EnvList)
    ensures r == if env.None? then Listed(output) else WithWords(key, env.value, output)
  {
    if env.None? {
      return Listed(output);
    }
    var def := env.value.Def();
    var items := output;
    if IsNonMergeableList(key) {
      var ok := AllInOnePlace(output);
      if !ok {
        return ListPanic;
      }
      if items != [] && items[0].def.IsHigherPriority(def) {
        return Listed(output);
      }
      items := [];
    }
    if env.value.words.None? {
      return ListError;
    }
    items := items + EnvItems(env.value.words.value, def);
    r := Listed(ByDefinition(items));
  }

  lemma {:induction false} InsertBefore(s: seq<ConfigValue>, tail: seq<ConfigValue>, x: ConfigValue)
    requires forall i | 0 <= i < |s| :: s[i].def.Rank() <= x.def.Rank()
    requires forall i | 0 <= i < |tail| :: tail[i].def.Rank() > x.def.Rank()
    ensures Sorting.Insert(s + tail, x, (v: ConfigValue) => v.def.Rank()) == s + [x] + tail
  {
    if tail == [] {
      assert s + tail == s && s + [x] + tail == s + [x];
    } else {
      var init, last := tail[..|tail| - 1], tail[|tail| - 1];
      InsertBefore(s, init, x);
      assert (s + tail)[..|s + tail| - 1] == s + init;
      assert s + [x] + tail == s + [x] + init + [last];
    }
  }

  /** Items of the environment go between those of the files and those of the command line. */
  lemma {:induction false} SortedBetween(files: seq<ConfigValue>, cli: seq<ConfigValue>, env: seq<ConfigValue>)
    requires forall i | 0 <= i < |files| :: files[i].def.Rank() == 1
    requires forall i | 0 <= i < |cli| :: cli[i].def.Rank() == 3
    requires forall i | 0 <= i < |env| :: env[i].def.Rank() == 2
    ensures ByDefinition(files + cli + env) == files + env + cli
  {
    if env == [] {
      assert files + cli + env == files + cli && files + env + cli == files + cli;
      SortedAlready(files, 1, 3, cli);
    } else {
      var init, last := env[..|env| - 1], env[|env| - 1];
      SortedBetween(files, cli, init);
      assert files + cli + env == files + cli + init + [last];
      ByDefinitionSnoc(files + cli + init, last);
      InsertBefore(files + init, cli, last);
      assert files + init + [last] + cli == files + env + cli;
    }
  }

  lemma ByDefinitionSnoc(s: seq<ConfigValue>, x: ConfigValue)
    ensures ByDefinition(s + [x]) == Sorting.Insert(ByDefinition(s), x, (v: ConfigValue) => v.def.Rank())
  {
    assert (s + [x])[..|s|] == s;
  }

  lemma {:induction false} TreeRanked(disk: Disk, why: WhyLoad, t: Tree)
    requires Unfolds(disk, why, t)
    ensures forall i | 0 <= i < |Sources(t)| :: AllRanked(Sources(t)[i], RankOf(why))
    decreases t, 1
  {
    OwnValuesRanked(disk, why, t.path);
    TreesRanked(disk, why, t.children);
  }

  lemma {:induction false} TreesRanked(disk: Disk, why: WhyLoad, ts: seq<Tree>)
    requires forall i | 0 <= i < |ts| :: Unfolds(disk, why, ts[i])
    ensures forall i | 0 <= i < |SourcesOf(ts)| :: AllRanked(SourcesOf(ts)[i], RankOf(why))
    decreases ts, 0
  {
    if ts != [] {
      TreeRanked(disk, why, ts[|ts| - 1]);
      TreesRanked(disk, why, ts[..|ts| - 1]);
    }
  }

  lemma {:induction false} ArgSourcesRanked(disk: Disk, args: seq<CliArg>, ts: seq<Tree>)
    requires ArgsUnfold(disk, args, ts)
    ensures forall i | 0 <= i < |SourcesOf(ts)| :: AllRanked(SourcesOf(ts)[i], 3)
    decreases |ts|
  {
    if ts != [] {
      var n := |ts| - 1;
      ArgSourcesRanked(disk, args[..n], ts[..n]);
      assert ArgUnfolds(disk, args[n], ts[n]);
      match args[n]
      case FileArg(_) => TreeRanked(disk, ForCli, ts[n]);
      case InlineArg(doc) => InlineRanked(disk, doc, ts[n]);
    }
  }

  lemma InlineRanked(disk: Disk, doc: Toml, t: Tree)
    requires ArgUnfolds(disk, InlineArg(doc), t)
    ensures forall i | 0 <= i < |Sources(t)| :: AllRanked(Sources(t)[i], 3)
  {
    TreesRanked(disk, ForCli, t.children);
    var v := FromToml(FromCli(None), doc).value;
    forall p: Key | p != [] ensures RankedAt(v, 3, p) {
      FromTomlRanked(FromCli(None), doc, p);
    }
    WithoutIncludeRanked(v, 3);
    assert AllRanked(t.own, 3);
  }

  lemma RankedConcat(p: seq<ConfigValue>, q: seq<ConfigValue>, k: nat)
    requires (forall i | 0 <= i < |p| :: AllRanked(p[i], k)) && forall i | 0 <= i < |q| :: AllRanked(q[i], k)
    ensures forall i | 0 <= i < |p + q| :: AllRanked((p + q)[i], k)
  {
  }

  lemma {:induction false} FileSourcesRanked(disk: Disk, paths: seq<string>, ts: seq<Tree>)
    requires UnfoldsAll(disk, ForDiscovery, ts, paths)
    ensures forall i | 0 <= i < |FileSources(ts)| :: AllRanked(FileSources(ts)[i], 1)
    decreases |ts|
  {
    if ts != [] {
      var n := |ts| - 1;
      FileSourcesRanked(disk, paths[..n], ts[..n]);
      TreeRanked(disk, ForDiscovery, ts[n]);
      RankedConcat(FileSources(ts[..n]), Sources(ts[n]), 1);
    }
  }

  lemma {:induction false} AllItemsRanked(prec: seq<ConfigValue>, k: nat, path: Key)
    requires path != [] && forall i | 0 <= i < |prec| :: AllRanked(prec[i], k)
    ensures ItemsRanked(AllItems(prec, path), k)
  {
    if prec != [] {
      AllItemsRanked(prec[1..], k, path);
      assert RankedAt(prec[0], k, path);
    }
  }

  /** The list a caller gets: the items of the files from the farthest to the closest, each
      file's includes before its own, then the words of the environment variable, then the
      command line in argument order. Nothing is lost and nothing is repeated. */
  lemma ListFromAllSources(disk: Disk, paths: seq<string>, args: seq<CliArg>, files: seq<Tree>, argTrees: seq<Tree>,
                           config: ConfigValue, path: Key, env: EnvVar)
    requires UnfoldsAll(disk, ForDiscovery, files, paths) && ArgsUnfold(disk, args, argTrees)
    requires Agrees(config, Precedence(files, argTrees)) && path != [] && env.words.Some?
    requires Lookup(config, path).Some? && Lookup(config, path).value.ListV? && SafeList(Precedence(files, argTrees), path)
    requires !IsNonMergeableList(path)
    ensures WithWords(path, env, Lookup(config, path).value.items)
         == Listed(AllItems(FileSources(files), path) + EnvItems(env.words.value, env.Def()) + AllItems(SourcesOf(argTrees), path))
  {
    assert AgreesAt(config, Precedence(files, argTrees), path);
    FirstDefinedConcat(SourcesOf(argTrees), FileSources(files), path);
    FileSourcesRanked(disk, paths, files);
    ArgSourcesRanked(disk, args, argTrees);
    AllItemsRanked(FileSources(files), 1, path);
    AllItemsRanked(SourcesOf(argTrees), 3, path);
    SortedBetween(AllItems(FileSources(files), path), AllItems(SourcesOf(argTrees), path), EnvItems(env.words.value, env.Def()));
  }

  // ----- Scalars -----

  datatype Lookedup<T> = Found(value: T) | Missing | Failed | Panicked

  /** `get_cv_with_env` for a key that is not the root. */
  function GetCvWithEnv(cv: Option<ConfigValue>, env: Option<EnvVar>, advancedEnv: bool, key: Key): Lookedup<ConfigValue> {
    var useEnv := env.Some? && (cv.None? || cv.value.ListV? || env.value.Def().IsHigherPriority(cv.value.def));
    if !useEnv then (if cv.Some? then Found(cv.value) else Missing)
    else
      var e := env.value;
      if e.text == "true" then Found(BooleanV(true, e.Def()))
      else if e.text == "false" then Found(BooleanV(false, e.Def()))
      else if e.number.Some? then Found(IntegerV(e.number.value, e.Def()))
      else if cv.Some? && cv.value.ListV? then
        (match WithWords(key, e, cv.value.items)
         case ListPanic => Panicked
         case ListError => Failed
         case Listed(items) => Found(ListV(items, cv.value.def)))
      else if advancedEnv && e.bracketed then
        (if cv.Some? || !WithWords(key, e, []).Listed? then Failed
         else Found(ListV(WithWords(key, e, []).items, e.Def())))
      else Found(StringV(e.text, e.Def()))
  }

  datatype ScalarKind = IntegerKind | BooleanKind | StringKind
  {
    predicate Accepts(v: ConfigValue) {
      match this
      case IntegerKind => v.IntegerV?
      case BooleanKind => v.BooleanV?
      case StringKind => v.StringV?
    }

    /** `str::parse` into the kind. */
    function Parse(e: EnvVar): Option<ConfigValue> {
      match this
      case IntegerKind => if e.number.Some? then Some(IntegerV(e.number.value, e.Def())) else None
      case BooleanKind => if e.text == "true" || e.text == "false" then Some(BooleanV(e.text == "true", e.Def())) else None
      case StringKind => Some(StringV(e.text, e.Def()))
    }
  }

  /** `get_value_typed!`. */
  function GetTyped(kind: ScalarKind, cv: Option<ConfigValue>, env: Option<EnvVar>): Lookedup<ConfigValue> {
    if env.Some? && kind.Parse(env.value).None? then Failed
    else if cv.Some? && !kind.Accepts(cv.value) then Failed
    else if cv.Some? && env.Some? then
      (if cv.value.def.IsHigherPriority(env.value.Def()) then Found(cv.value) else Found(kind.Parse(env.value).value))
    else if cv.Some? then Found(cv.value)
    else if env.Some? then Found(kind.Parse(env.value).value)
    else Missing
  }

  /** `ValueSource::with_deserializer`: the definition reported with a `Value<T>`. */
  function ReportedDefinition(cv: Option<ConfigValue>, env: Option<EnvVar>, envKey: string): Definition {
    if cv.None? then FromEnv(envKey)
    else if env.Some? && env.value.Def().IsHigherPriority(cv.value.def) then env.value.Def()
    else cv.value.def
  }

  /** The variable counts unless the command line has set the key. */
  predicate VariableCounts(cv: Option<ConfigValue>, env: Option<EnvVar>) {
    env.Some? && (cv.None? || !cv.value.def.FromCli?)
  }

  /** Whether the text of a variable says something of the kind, and whether it is this. */
  predicate SaysKind(kind: ScalarKind, e: EnvVar) {
    match kind
    case IntegerKind => e.number.Some?
    case BooleanKind => e.text == "true" || e.text == "false"
    case StringKind => true
  }

  predicate SaysValue(kind: ScalarKind, e: EnvVar, v: ConfigValue) {
    v.def == FromEnv(e.key) &&
    match kind
    case IntegerKind => v.IntegerV? && e.number == Some(v.num)
    case BooleanKind => v.BooleanV? && e.text == if v.flag then "true" else "false"
    case StringKind => v.StringV? && v.str == e.text
  }

  /** A typed lookup fails if the variable or the configured value is of another kind, whichever counts; it finds what
      the variable says unless the command line has set the key, and otherwise what is configured. */
  lemma TypedExactly(kind: ScalarKind, cv: Option<ConfigValue>, env: Option<EnvVar>)
    requires cv.Some? ==> !cv.value.def.FromEnv?
    ensures GetTyped(kind, cv, env).Failed? <==>
      || (env.Some? && !SaysKind(kind, env.value))
      || (cv.Some? && match kind case IntegerKind => !cv.value.IntegerV? case BooleanKind => !cv.value.BooleanV? case StringKind => !cv.value.StringV?)
    ensures GetTyped(kind, cv, env).Missing? <==> cv.None? && env.None?
    ensures GetTyped(kind, cv, env).Found? ==>
      if VariableCounts(cv, env) then SaysValue(kind, env.value, GetTyped(kind, cv, env).value)
      else cv == Some(GetTyped(kind, cv, env).value)
  {}

  /** An untyped lookup of anything but a list finds what is configured, or what the first kind that fits makes of the
      variable: a boolean, an integer or a string. */
  lemma UntypedExactly(cv: Option<ConfigValue>, env: Option<EnvVar>, advancedEnv: bool, key: Key)
    requires cv.Some? ==> !cv.value.def.FromEnv? && !cv.value.ListV?
    requires env.Some? ==> !(advancedEnv && env.value.bracketed)
    ensures var r := GetCvWithEnv(cv, env, advancedEnv, key);
      if VariableCounts(cv, env) then
        r.Found? &&
        (if SaysKind(BooleanKind, env.value) then SaysValue(BooleanKind, env.value, r.value)
         else if SaysKind(IntegerKind, env.value) then SaysValue(IntegerKind, env.value, r.value)
         else SaysValue(StringKind, env.value, r.value))
      else r == if cv.Some? then Found(cv.value) else Missing
  {}

  /** A typed lookup that succeeds draws from the source that is reported with it, and from the
      one the untyped lookup draws from, or the untyped lookup fails: exactly where a bracketed
      variable meets a scalar under `-Zadvanced-env`, or has no array in it. */
  lemma TypedAgreesWithUntyped(kind: ScalarKind, cv: Option<ConfigValue>, env: Option<EnvVar>, advancedEnv: bool, key: Key, envKey: string)
    requires cv.Some? ==> !cv.value.def.FromEnv?
    requires env.Some? ==> env.value.key == envKey
    requires GetTyped(kind, cv, env).Found?
    ensures GetTyped(kind, cv, env).value.def == ReportedDefinition(cv, env, envKey)
    ensures GetCvWithEnv(cv, env, advancedEnv, key).Found? ==>
      GetCvWithEnv(cv, env, advancedEnv, key).value.def == GetTyped(kind, cv, env).value.def
    ensures GetCvWithEnv(cv, env, advancedEnv, key).Failed? <==>
      && GetTyped(kind, cv, env).value.def.FromEnv? && advancedEnv && env.value.bracketed
      && env.value.text != "true" && env.value.text != "false" && env.value.number.None?
      && (cv.Some? || env.value.words.None?)
    ensures !GetCvWithEnv(cv, env, advancedEnv, key).Missing? && !GetCvWithEnv(cv, env, advancedEnv, key).Panicked?
  {
    if cv.Some? && env.Some? {
      PriorityIsRank(cv.value.def, env.value.Def());
      PriorityIsRank(env.value.Def(), cv.value.def);
    }
  }
}
