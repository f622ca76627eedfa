/** From the text of configuration files to what is loaded: which file decides a key, read off the TOML of
    the files, their `include` arrays and the order of files and arguments. */
module ConfigFiles {
  import opened Units
  import opened ConfigValues
  import opened ConfigMerge
  import opened ConfigSources
  import opened ConfigLoad
  import opened ConfigPrecedence
  import opened ConfigTrees

  // ----- TOML and values -----

  /** `into_toml`. */
  function IntoToml(v: ConfigValue): Toml
    decreases v
  {
    match v
    case IntegerV(n, _) => TomlInteger(n)
    case StringV(s, _) => TomlString(s)
    case BooleanV(b, _) => TomlBoolean(b)
    case ListV(items, _) => TomlArray(seq(|items|, i requires 0 <= i < |items| => IntoToml(items[i])))
    case TableV(entries, _) => TomlTable(map k | k in entries :: IntoToml(entries[k]))
  }

  /** Nothing in it but strings, integers, booleans, arrays and tables. */
  ghost predicate Supported(t: Toml)
    decreases t
  {
    && !t.TomlOther?
    && (t.TomlArray? ==> forall i | 0 <= i < |t.items| :: Supported(t.items[i]))
    && (t.TomlTable? ==> forall k | k in t.entries :: Supported(t.entries[k]))
  }

  /** Everything in the value is defined in one place. */
  ghost predicate DefinedIn(v: ConfigValue, def: Definition)
    decreases v
  {
    && v.def == def
    && (v.ListV? ==> forall i | 0 <= i < |v.items| :: DefinedIn(v.items[i], def))
    && (v.TableV? ==> forall k | k in v.entries :: DefinedIn(v.entries[k], def))
  }

  /** A document is accepted exactly if everything in it is supported; the value then is the document, all of
      it defined in the one place. */
  lemma {:induction false} TomlRoundTrip(def: Definition, t: Toml)
    ensures TomlComesBack(def, t)
    decreases t
  {
    match t
    case TomlArray(items) =>
      forall i | 0 <= i < |items| ensures TomlComesBack(def, items[i]) {
        TomlRoundTrip(def, items[i]);
      }
      ArrayComesBack(def, items);
    case TomlTable(entries) =>
      forall k | k in entries ensures TomlComesBack(def, entries[k]) {
        TomlRoundTrip(def, entries[k]);
      }
      TableComesBack(def, entries);
    case _ =>
  }

  ghost predicate TomlComesBack(def: Definition, t: Toml) {
    && (FromToml(def, t).Some? <==> Supported(t))
    && (FromToml(def, t).Some? ==> IntoToml(FromToml(def, t).value) == t && DefinedIn(FromToml(def, t).value, def))
  }

  lemma ArrayComesBack(def: Definition, items: seq<Toml>)
    requires forall i | 0 <= i < |items| :: TomlComesBack(def, items[i])
    ensures TomlComesBack(def, TomlArray(items))
  {
    assert (exists i | 0 <= i < |items| :: FromToml(def, items[i]).None?) <==> !forall i | 0 <= i < |items| :: Supported(items[i]);
  }

  lemma TableComesBack(def: Definition, entries: map<string, Toml>)
    requires forall k | k in entries :: TomlComesBack(def, entries[k])
    ensures TomlComesBack(def, TomlTable(entries))
  {
    TableIsSupported(def, entries);
    if FromToml(def, TomlTable(entries)).Some? {
      TableReads(def, entries);
    }
  }

  lemma TableIsSupported(def: Definition, entries: map<string, Toml>)
    requires forall k | k in entries :: TomlComesBack(def, entries[k])
    ensures FromToml(def, TomlTable(entries)).Some? <==> Supported(TomlTable(entries))
  {
    assert (exists k | k in entries :: FromToml(def, entries[k]).None?) <==> !Supported(TomlTable(entries));
  }

  lemma TableReads(def: Definition, entries: map<string, Toml>)
    requires (forall k | k in entries :: TomlComesBack(def, entries[k])) && FromToml(def, TomlTable(entries)).Some?
    ensures var v := FromToml(def, TomlTable(entries)).value; IntoToml(v) == TomlTable(entries) && DefinedIn(v, def)
  {
    var v := FromToml(def, TomlTable(entries)).value;
    forall k | k in entries ensures v.entries[k] == FromToml(def, entries[k]).value && TomlComesBack(def, entries[k]) {}
    assert IntoToml(v).entries == entries;
  }

  /** And every value defined in one place comes back from its document. */
  lemma {:induction false} ValueRoundTrip(def: Definition, v: ConfigValue)
    requires DefinedIn(v, def)
    ensures FromToml(def, IntoToml(v)) == Some(v)
    decreases v
  {
    match v
    case ListV(items, _) =>
      forall i | 0 <= i < |items| ensures FromToml(def, IntoToml(items[i])) == Some(items[i]) {
        ValueRoundTrip(def, items[i]);
      }
      var ts := IntoToml(v).items;
      assert forall i | 0 <= i < |items| :: ts[i] == IntoToml(items[i]) && FromToml(def, ts[i]) == Some(items[i]);
      assert FromToml(def, TomlArray(ts)).value.items == items;
    case TableV(entries, _) =>
      forall k | k in entries ensures FromToml(def, IntoToml(entries[k])) == Some(entries[k]) {
        ValueRoundTrip(def, entries[k]);
      }
      var es := IntoToml(v).entries;
      assert forall k | k in entries :: es[k] == IntoToml(entries[k]) && FromToml(def, es[k]) == Some(entries[k]);
      assert FromToml(def, TomlTable(es)).value.entries == entries;
    case _ =>
  }

  /** The part of a document at a path of table keys. */
  function At(t: Toml, path: Key): Option<Toml>
    decreases |path|
  {
    if path == [] then Some(t)
    else if t.TomlTable? && path[0] in t.entries then At(t.entries[path[0]], path[1..])
    else None
  }

  /** `v` is what the document says, defined in the place. */
  ghost predicate Reads(v: ConfigValue, def: Definition, t: Toml) {
    DefinedIn(v, def) && IntoToml(v) == t
  }

  lemma {:induction false} LookupReads(def: Definition, t: Toml, path: Key)
    requires FromToml(def, t).Some?
    ensures At(t, path).Some? <==> Lookup(FromToml(def, t).value, path).Some?
    ensures At(t, path).Some? ==> Reads(Lookup(FromToml(def, t).value, path).value, def, At(t, path).value)
    decreases |path|
  {
    if path == [] {
      TomlRoundTrip(def, t);
    } else if t.TomlTable? && path[0] in t.entries {
      assert FromToml(def, t.entries[path[0]]).Some?;
      LookupReads(def, t.entries[path[0]], path[1..]);
    }
  }

  // ----- The includes of a file -----

  /** One element of an `include` array. */
  ghost predicate NamesInclude(item: Toml, path: string, optional: bool) {
    match item
    case TomlString(s) => path == s && !optional
    case TomlTable(entries) =>
      && "path" in entries && entries["path"] == TomlString(path)
      && (if "optional" in entries then entries["optional"] == TomlBoolean(optional) else !optional)
    case _ => false
  }

  /** The element is loaded: it is not optional, or the file is there. */
  ghost predicate Loads(disk: Disk, def: Definition, item: Toml, file: string) {
    exists path, optional :: NamesInclude(item, path, optional) && file == disk.resolve(def, path) && (optional ==> file in disk.files)
  }

  ghost predicate Skips(disk: Disk, def: Definition, item: Toml) {
    exists path :: NamesInclude(item, path, true) && disk.resolve(def, path) !in disk.files
  }

  ghost predicate WellFormedItem(disk: Disk, item: Toml) {
    exists path, optional :: NamesInclude(item, path, optional) && disk.validInclude(path)
  }

  /** `files` are, in the order of the array, the files its elements name, without those left out. */
  ghost predicate IncludedFiles(disk: Disk, def: Definition, items: seq<Toml>, files: seq<string>)
    decreases |items|
  {
    if items == [] then files == []
    else
      var last := items[|items| - 1];
      if Skips(disk, def, last) then IncludedFiles(disk, def, items[..|items| - 1], files)
      else files != [] && Loads(disk, def, last, files[|files| - 1]) && IncludedFiles(disk, def, items[..|items| - 1], files[..|files| - 1])
  }

  /** What the document asks to include. */
  ghost predicate IncludesOf(disk: Disk, def: Definition, doc: Toml, files: seq<string>)
    requires doc.TomlTable?
  {
    if "include" !in doc.entries then files == []
    else
      && doc.entries["include"].TomlArray?
      && (forall i | 0 <= i < |doc.entries["include"].items| :: WellFormedItem(disk, doc.entries["include"].items[i]))
      && IncludedFiles(disk, def, doc.entries["include"].items, files)
  }

  lemma ItemIsParsed(def: Definition, item: Toml, v: ConfigValue, path: string, optional: bool)
    requires FromToml(def, item) == Some(v)
    ensures NamesInclude(item, path, optional) <==> ParseInclude(v) == Some(Include(path, def, optional))
  {
    if item.TomlTable? {
      assert forall k | k in item.entries :: FromToml(def, item.entries[k]).Some?;
    }
  }

  lemma {:induction false} ParseSnoc(disk: Disk, items: seq<ConfigValue>, v: ConfigValue)
    ensures ParseIncludes(disk, items + [v]) ==
      match (ParseIncludes(disk, items), ParseInclude(v))
      case (Some(init), Some(i)) => if disk.validInclude(i.path) then Some(init + [i]) else None
      case _ => None
  {
    if items == [] {
      assert [v][1..] == [] && items + [v] == [v];
      assert ParseIncludes(disk, [v][1..]) == Some([]);
      if ParseInclude(v).Some? {
        assert [ParseInclude(v).value] + [] == [] + [ParseInclude(v).value];
      }
    } else {
      assert (items + [v])[1..] == items[1..] + [v];
      ParseSnoc(disk, items[1..], v);
      if ParseInclude(items[0]).Some? && ParseIncludes(disk, items[1..]).Some? && ParseInclude(v).Some? {
        assert [ParseInclude(items[0]).value] + (ParseIncludes(disk, items[1..]).value + [ParseInclude(v).value])
            == [ParseInclude(items[0]).value] + ParseIncludes(disk, items[1..]).value + [ParseInclude(v).value];
      }
    }
  }

  lemma {:induction false} LoadSnoc(disk: Disk, includes: seq<Include>, i: Include)
    ensures PathsToLoad(disk, includes + [i]) == PathsToLoad(disk, includes)
      + var path := disk.resolve(i.def, i.path); if i.optional && path !in disk.files then [] else [path]
  {
    if includes == [] {
      assert [i][1..] == [] && includes + [i] == [i];
    } else {
      assert (includes + [i])[1..] == includes[1..] + [i];
      LoadSnoc(disk, includes[1..], i);
    }
  }

  /** The values of an array. */
  ghost predicate ReadsAll(def: Definition, items: seq<Toml>, vs: seq<ConfigValue>) {
    |vs| == |items| && forall i | 0 <= i < |items| :: FromToml(def, items[i]) == Some(vs[i])
  }

  lemma {:induction false} WellFormedExactly(disk: Disk, def: Definition, items: seq<Toml>, vs: seq<ConfigValue>)
    requires ReadsAll(def, items, vs)
    ensures ParseIncludes(disk, vs).Some? <==> forall i | 0 <= i < |items| :: WellFormedItem(disk, items[i])
    decreases |items|
  {
    if items != [] {
      var n := |items| - 1;
      assert vs == vs[..n] + [vs[n]];
      ParseSnoc(disk, vs[..n], vs[n]);
      WellFormedExactly(disk, def, items[..n], vs[..n]);
      LastItem(disk, def, items[n], vs[n]);
      AllButLast(disk, items, items[..n]);
    }
  }

  lemma {:induction false} IncludedExactly(disk: Disk, def: Definition, items: seq<Toml>, vs: seq<ConfigValue>, files: seq<string>)
    requires ReadsAll(def, items, vs) && ParseIncludes(disk, vs).Some?
    ensures PathsToLoad(disk, ParseIncludes(disk, vs).value) == files <==> IncludedFiles(disk, def, items, files)
    decreases |items|
  {
    if items != [] {
      var n := |items| - 1;
      assert vs == vs[..n] + [vs[n]];
      ParseSnoc(disk, vs[..n], vs[n]);
      IncludedExactly(disk, def, items[..n], vs[..n], if files == [] then [] else files[..|files| - 1]);
      IncludedExactly(disk, def, items[..n], vs[..n], files);
      LastItem(disk, def, items[n], vs[n]);
      LoadSnoc(disk, ParseIncludes(disk, vs[..n]).value, ParseInclude(vs[n]).value);
      LastFile(PathsToLoad(disk, ParseIncludes(disk, vs[..n]).value), disk.resolve(def, ParseInclude(vs[n]).value.path), files);
    }
  }

  lemma AllButLast(disk: Disk, items: seq<Toml>, init: seq<Toml>)
    requires items != [] && init == items[..|items| - 1]
    ensures (forall i | 0 <= i < |items| :: WellFormedItem(disk, items[i])) <==>
      WellFormedItem(disk, items[|items| - 1]) && forall i | 0 <= i < |init| :: WellFormedItem(disk, init[i])
  {
    if forall i | 0 <= i < |init| :: WellFormedItem(disk, init[i]) {
      forall i | 0 <= i < |init| ensures WellFormedItem(disk, items[i]) {
        assert WellFormedItem(disk, init[i]);
      }
    }
  }

  lemma LastFile(init: seq<string>, last: string, files: seq<string>)
    ensures init + [last] == files <==> files != [] && files[|files| - 1] == last && files[..|files| - 1] == init
  {}

  lemma LastItem(disk: Disk, def: Definition, item: Toml, v: ConfigValue)
    requires FromToml(def, item) == Some(v)
    ensures WellFormedItem(disk, item) <==> ParseInclude(v).Some? && disk.validInclude(ParseInclude(v).value.path)
    ensures ParseInclude(v).Some? ==> ParseInclude(v).value.def == def
    ensures ParseInclude(v).Some? ==>
      var i := ParseInclude(v).value;
      var file := disk.resolve(def, i.path);
      && (Skips(disk, def, item) <==> i.optional && file !in disk.files)
      && (!Skips(disk, def, item) ==> forall f :: Loads(disk, def, item, f) <==> f == file)
  {
    forall path, optional ensures NamesInclude(item, path, optional) <==> ParseInclude(v) == Some(Include(path, def, optional)) {
      ItemIsParsed(def, item, v, path, optional);
    }
    if ParseInclude(v).Some? {
      var i := ParseInclude(v).value;
      IncludeDefinition(def, item, v);
      assert NamesInclude(item, i.path, i.optional);
    }
  }

  lemma IncludeDefinition(def: Definition, item: Toml, v: ConfigValue)
    requires FromToml(def, item) == Some(v) && ParseInclude(v).Some?
    ensures ParseInclude(v).value.def == def
  {}

  /** A file's includes are those its document asks for, and it is refused exactly if the document asks for
      something that is no include. */
  lemma IncludesExactly(disk: Disk, def: Definition, doc: Toml, v: ConfigValue)
    requires doc.TomlTable? && FromToml(def, doc) == Some(v)
    ensures v.TableV?
    ensures IncludePaths(disk, v).None? <==> forall files :: !IncludesOf(disk, def, doc, files)
    ensures IncludePaths(disk, v).Some? ==> forall files :: IncludesOf(disk, def, doc, files) <==> PathsToLoad(disk, IncludePaths(disk, v).value) == files
  {
    if "include" in doc.entries {
      var item := doc.entries["include"];
      assert FromToml(def, item).Some? && v.entries["include"] == FromToml(def, item).value;
      if item.TomlArray? {
        var vs := v.entries["include"].items;
        assert forall i | 0 <= i < |item.items| :: FromToml(def, item.items[i]).Some?;
        WellFormedExactly(disk, def, item.items, vs);
        if ParseIncludes(disk, vs).Some? {
          forall files ensures PathsToLoad(disk, ParseIncludes(disk, vs).value) == files <==> IncludedFiles(disk, def, item.items, files) {
            IncludedExactly(disk, def, item.items, vs, files);
          }
          assert IncludesOf(disk, def, doc, PathsToLoad(disk, ParseIncludes(disk, vs).value));
        }
      }
    } else {
      assert IncludesOf(disk, def, doc, []);
    }
  }

  // ----- The tree of a file -----

  /** Where the values of a file are said to be defined. */
  ghost predicate PlaceOf(why: WhyLoad, file: string, def: Definition) {
    match why
    case ForCli => def == FromCli(Some(file))
    case ForDiscovery => def == FromPath(file)
  }

  ghost predicate IsDocument(disk: Disk, file: string, doc: Toml) {
    file in disk.files && disk.files[file] == Some(doc) && doc.TomlTable? && Supported(doc)
  }

  function PathsOf(ts: seq<Tree>): (r: seq<string>)
    ensures |r| == |ts| && forall i | 0 <= i < |ts| :: r[i] == ts[i].path
  {
    seq(|ts|, i requires 0 <= i < |ts| => ts[i].path)
  }

  /** The file has a document, its own values are the document's without `include`, and below it are the
      files that the document's `include` array names, in that order. */
  ghost predicate FollowsDocument(disk: Disk, why: WhyLoad, t: Tree, doc: Toml, def: Definition) {
    && IsDocument(disk, t.path, doc) && PlaceOf(why, t.path, def)
    && Reads(t.own, def, TomlTable(doc.entries - {"include"}))
    && IncludesOf(disk, def, doc, PathsOf(t.children))
  }

  lemma {:induction false} OwnReads(def: Definition, doc: Toml, v: ConfigValue)
    requires doc.TomlTable? && FromToml(def, doc) == Some(v)
    ensures v.TableV? && Reads(WithoutInclude(v), def, TomlTable(doc.entries - {"include"}))
  {
    TomlRoundTrip(def, doc);
    assert IntoToml(v) == doc;
    assert forall k | k in v.entries :: IntoToml(v.entries[k]) == doc.entries[k];
    assert IntoToml(WithoutInclude(v)).entries == doc.entries - {"include"};
  }

  lemma {:induction false} TreeFollowsDocument(disk: Disk, why: WhyLoad, t: Tree) returns (doc: Toml, def: Definition)
    requires Unfolds(disk, why, t)
    ensures FollowsDocument(disk, why, t, doc, def)
  {
    doc, def := disk.files[t.path].value, DefinitionOf(why, t.path);
    var v := Parsed(disk, why, t.path).value;
    TomlRoundTrip(def, doc);
    OwnReads(def, doc, v);
    IncludesExactly(disk, def, doc, v);
    assert PathsOf(t.children) == PathsToLoad(disk, IncludePaths(disk, v).value);
  }

  /** Conversely, whatever follows the documents all the way down is the tree of the file. */
  lemma {:induction false} DocumentsUnfold(disk: Disk, why: WhyLoad, t: Tree, doc: Toml, def: Definition)
    requires FollowsDocument(disk, why, t, doc, def) && forall i | 0 <= i < |t.children| :: Unfolds(disk, why, t.children[i])
    ensures Unfolds(disk, why, t)
  {
    TomlRoundTrip(def, doc);
    var v := FromToml(def, doc).value;
    OwnReads(def, doc, v);
    IncludesExactly(disk, def, doc, v);
    ValueRoundTrip(def, t.own);
    ValueRoundTrip(def, WithoutInclude(v));
  }

  // ----- Which file decides a key -----

  /** The document says something at the path. */
  ghost predicate Says(doc: Toml, path: Key) {
    path != [] && path[0] != "include" && At(doc, path).Some?
  }

  /** Some document of the tree does. */
  ghost predicate Mentions(disk: Disk, t: Tree, path: Key)
    decreases t
  {
    || (t.path in disk.files && disk.files[t.path].Some? && Says(disk.files[t.path].value, path))
    || exists i | 0 <= i < |t.children| :: Mentions(disk, t.children[i], path)
  }

  /** The place and the text that count at the path: the file's own, or those of the last of its includes that
      says anything. */
  ghost predicate Decides(disk: Disk, why: WhyLoad, t: Tree, path: Key, def: Definition, text: Toml)
    requires t.path in disk.files && disk.files[t.path].Some?
    decreases t
  {
    var doc := disk.files[t.path].value;
    if Says(doc, path) then PlaceOf(why, t.path, def) && At(doc, path) == Some(text)
    else LastDecides(disk, why, t.children, path, def, text)
  }

  ghost predicate LastDecides(disk: Disk, why: WhyLoad, ts: seq<Tree>, path: Key, def: Definition, text: Toml)
    decreases ts, 0
  {
    exists j | 0 <= j < |ts| ::
      && Mentions(disk, ts[j], path) && (forall k | j < k < |ts| :: !Mentions(disk, ts[k], path))
      && ts[j].path in disk.files && disk.files[ts[j].path].Some? && Decides(disk, why, ts[j], path, def, text)
  }

  lemma OwnLookup(own: ConfigValue, def: Definition, doc: Toml, path: Key)
    requires doc.TomlTable? && Reads(own, def, TomlTable(doc.entries - {"include"})) && path != []
    ensures Lookup(own, path).Some? <==> Says(doc, path)
    ensures Lookup(own, path).Some? ==> Reads(Lookup(own, path).value, def, At(doc, path).value)
  {
    ValueRoundTrip(def, own);
    LookupReads(def, TomlTable(doc.entries - {"include"}), path);
  }

  /** The value the sources of a tree have at a path is the one decided by its documents. */
  ghost predicate SaidBy(disk: Disk, why: WhyLoad, t: Tree, path: Key, v: Option<ConfigValue>)
    requires t.path in disk.files && disk.files[t.path].Some?
  {
    && (v.Some? <==> Mentions(disk, t, path))
    && (v.Some? ==> exists def, text :: Decides(disk, why, t, path, def, text) && Reads(v.value, def, text))
  }

  lemma {:induction false} FirstIsDecided(disk: Disk, why: WhyLoad, t: Tree, path: Key)
    requires Unfolds(disk, why, t) && path != []
    ensures SaidBy(disk, why, t, path, FirstDefined(Sources(t), path))
    decreases t, 1
  {
    var doc, def := TreeFollowsDocument(disk, why, t);
    OwnLookup(t.own, def, doc, path);
    FirstDefinedConcat([t.own], SourcesOf(t.children), path);
    OneLeaf(t.own, path);
    ListIsDecided(disk, why, t.children, path);
  }

  ghost predicate SaidByLast(disk: Disk, why: WhyLoad, ts: seq<Tree>, path: Key, v: Option<ConfigValue>) {
    && (v.Some? <==> exists j | 0 <= j < |ts| :: Mentions(disk, ts[j], path))
    && (v.Some? ==> exists def, text :: LastDecides(disk, why, ts, path, def, text) && Reads(v.value, def, text))
  }

  lemma {:induction false} ListIsDecided(disk: Disk, why: WhyLoad, ts: seq<Tree>, path: Key)
    requires (forall i | 0 <= i < |ts| :: Unfolds(disk, why, ts[i])) && path != []
    ensures SaidByLast(disk, why, ts, path, FirstDefined(SourcesOf(ts), path))
    decreases ts, 0
  {
    if ts != [] {
      var n := |ts| - 1;
      FirstIsDecided(disk, why, ts[n], path);
      ListIsDecided(disk, why, ts[..n], path);
      OneMore(disk, why, ts[..n], ts[n], path, FirstDefined(SourcesOf(ts[..n]), path), FirstDefined(Sources(ts[n]), path));
      SourcesSnoc(ts, ts[..n], ts[n], path);
    }
  }

  lemma SourcesSnoc(ts: seq<Tree>, init: seq<Tree>, t: Tree, path: Key)
    requires ts != [] && init == ts[..|ts| - 1] && t == ts[|ts| - 1]
    ensures ts == init + [t]
    ensures FirstDefined(SourcesOf(ts), path)
         == if FirstDefined(Sources(t), path).Some? then FirstDefined(Sources(t), path) else FirstDefined(SourcesOf(init), path)
  {
    FirstDefinedConcat(Sources(t), SourcesOf(init), path);
  }

  lemma {:induction false} OneMore(disk: Disk, why: WhyLoad, ts: seq<Tree>, t: Tree, path: Key, v: Option<ConfigValue>, last: Option<ConfigValue>)
    requires t.path in disk.files && disk.files[t.path].Some? && SaidBy(disk, why, t, path, last) && SaidByLast(disk, why, ts, path, v)
    ensures SaidByLast(disk, why, ts + [t], path, if last.Some? then last else v)
  {
    if last.Some? {
      LastSays(disk, why, ts, t, path, last.value);
    } else {
      LastIsSilent(disk, why, ts, t, path, v);
    }
  }

  lemma {:induction false} LastSays(disk: Disk, why: WhyLoad, ts: seq<Tree>, t: Tree, path: Key, v: ConfigValue)
    requires t.path in disk.files && disk.files[t.path].Some? && SaidBy(disk, why, t, path, Some(v))
    ensures SaidByLast(disk, why, ts + [t], path, Some(v))
  {
    var def, text :| Decides(disk, why, t, path, def, text) && Reads(v, def, text);
    var more := ts + [t];
    assert more[|ts|] == t;
    assert LastDecides(disk, why, more, path, def, text);
  }

  lemma {:induction false} LastIsSilent(disk: Disk, why: WhyLoad, ts: seq<Tree>, t: Tree, path: Key, v: Option<ConfigValue>)
    requires SaidByLast(disk, why, ts, path, v) && !Mentions(disk, t, path)
    ensures SaidByLast(disk, why, ts + [t], path, v)
  {
    var more := ts + [t];
    assert forall i | 0 <= i < |ts| :: more[i] == ts[i];
    if v.Some? {
      var def, text :| LastDecides(disk, why, ts, path, def, text) && Reads(v.value, def, text);
      StillDecides(disk, why, ts, t, path, def, text);
    }
  }

  lemma {:induction false} StillDecides(disk: Disk, why: WhyLoad, ts: seq<Tree>, t: Tree, path: Key, def: Definition, text: Toml)
    requires LastDecides(disk, why, ts, path, def, text) && !Mentions(disk, t, path)
    ensures LastDecides(disk, why, ts + [t], path, def, text)
  {
    var j :| 0 <= j < |ts|
      && Mentions(disk, ts[j], path) && (forall k | j < k < |ts| :: !Mentions(disk, ts[k], path))
      && ts[j].path in disk.files && disk.files[ts[j].path].Some? && Decides(disk, why, ts[j], path, def, text);
    var more := ts + [t];
    assert more[j] == ts[j];
    forall k | j < k < |more| ensures !Mentions(disk, more[k], path) {}
  }

  // ----- The whole load -----

  /** An inline argument is a document of its own, with files below it. */
  ghost predicate ArgMentions(disk: Disk, arg: CliArg, t: Tree, path: Key) {
    match arg
    case FileArg(_) => Mentions(disk, t, path)
    case InlineArg(doc) => Says(doc, path) || exists i | 0 <= i < |t.children| :: Mentions(disk, t.children[i], path)
  }

  ghost predicate ArgDecides(disk: Disk, arg: CliArg, t: Tree, path: Key, def: Definition, text: Toml) {
    match arg
    case FileArg(_) => t.path in disk.files && disk.files[t.path].Some? && Decides(disk, ForCli, t, path, def, text)
    case InlineArg(doc) =>
      if Says(doc, path) then def == FromCli(None) && At(doc, path) == Some(text) else LastDecides(disk, ForCli, t.children, path, def, text)
  }

  ghost predicate LastArgDecides(disk: Disk, args: seq<CliArg>, ts: seq<Tree>, path: Key, def: Definition, text: Toml)
    requires |ts| == |args|
  {
    exists i | 0 <= i < |args| ::
      && ArgMentions(disk, args[i], ts[i], path) && (forall k | i < k < |args| :: !ArgMentions(disk, args[k], ts[k], path))
      && ArgDecides(disk, args[i], ts[i], path, def, text)
  }

  ghost predicate ClosestDecides(disk: Disk, files: seq<Tree>, path: Key, def: Definition, text: Toml) {
    exists i | 0 <= i < |files| ::
      && Mentions(disk, files[i], path) && (forall k | 0 <= k < i :: !Mentions(disk, files[k], path))
      && files[i].path in disk.files && disk.files[files[i].path].Some? && Decides(disk, ForDiscovery, files[i], path, def, text)
  }

  ghost predicate SomeArgMentions(disk: Disk, args: seq<CliArg>, ts: seq<Tree>, path: Key)
    requires |ts| == |args|
  {
    exists i | 0 <= i < |args| :: ArgMentions(disk, args[i], ts[i], path)
  }

  ghost predicate SomeFileMentions(disk: Disk, files: seq<Tree>, path: Key) {
    exists i | 0 <= i < |files| :: Mentions(disk, files[i], path)
  }

  /** The last argument that says anything at the path decides, or else the closest file that does. */
  ghost predicate LoadDecides(disk: Disk, args: seq<CliArg>, files: seq<Tree>, argTrees: seq<Tree>, path: Key, def: Definition, text: Toml)
    requires |argTrees| == |args|
  {
    if SomeArgMentions(disk, args, argTrees, path) then LastArgDecides(disk, args, argTrees, path, def, text)
    else ClosestDecides(disk, files, path, def, text)
  }

  ghost predicate ArgSaid(disk: Disk, arg: CliArg, t: Tree, path: Key, v: Option<ConfigValue>) {
    && (v.Some? <==> ArgMentions(disk, arg, t, path))
    && (v.Some? ==> exists def, text :: ArgDecides(disk, arg, t, path, def, text) && Reads(v.value, def, text))
  }

  lemma {:induction false} ArgIsDecided(disk: Disk, arg: CliArg, t: Tree, path: Key)
    requires ArgUnfolds(disk, arg, t) && path != []
    ensures ArgSaid(disk, arg, t, path, FirstDefined(Sources(t), path))
  {
    match arg
    case FileArg(_) => FirstIsDecided(disk, ForCli, t, path);
    case InlineArg(doc) =>
      var v := FromToml(FromCli(None), doc).value;
      OwnReads(FromCli(None), doc, v);
      OwnLookup(t.own, FromCli(None), doc, path);
      FirstDefinedConcat([t.own], SourcesOf(t.children), path);
      OneLeaf(t.own, path);
      ListIsDecided(disk, ForCli, t.children, path);
  }

  ghost predicate ArgsSaid(disk: Disk, args: seq<CliArg>, ts: seq<Tree>, path: Key, v: Option<ConfigValue>)
    requires |ts| == |args|
  {
    && (v.Some? <==> SomeArgMentions(disk, args, ts, path))
    && (v.Some? ==> exists def, text :: LastArgDecides(disk, args, ts, path, def, text) && Reads(v.value, def, text))
  }

  lemma {:induction false} ArgsAreDecided(disk: Disk, args: seq<CliArg>, ts: seq<Tree>, path: Key)
    requires ArgsUnfold(disk, args, ts) && path != []
    ensures ArgsSaid(disk, args, ts, path, FirstDefined(SourcesOf(ts), path))
    decreases |ts|
  {
    if ts != [] {
      var n := |ts| - 1;
      ArgsButLast(disk, args, ts);
      ArgIsDecided(disk, args[n], ts[n], path);
      ArgsAreDecided(disk, args[..n], ts[..n], path);
      ArgsStep(disk, args, args[..n], args[n], ts, ts[..n], ts[n], path);
    }
  }

  lemma {:induction false} ArgsButLast(disk: Disk, args: seq<CliArg>, ts: seq<Tree>)
    requires ArgsUnfold(disk, args, ts) && ts != []
    ensures |args| == |ts| && ArgsUnfold(disk, args[..|ts| - 1], ts[..|ts| - 1]) && ArgUnfolds(disk, args[|ts| - 1], ts[|ts| - 1])
  {}

  lemma {:induction false} ArgsStep(disk: Disk, args: seq<CliArg>, args0: seq<CliArg>, arg: CliArg, ts: seq<Tree>, ts0: seq<Tree>, t: Tree, path: Key)
    requires ts != [] && |args| == |ts| && args0 == args[..|ts| - 1] && arg == args[|ts| - 1] && ts0 == ts[..|ts| - 1] && t == ts[|ts| - 1]
    requires ArgsSaid(disk, args0, ts0, path, FirstDefined(SourcesOf(ts0), path)) && ArgSaid(disk, arg, t, path, FirstDefined(Sources(t), path))
    ensures ArgsSaid(disk, args, ts, path, FirstDefined(SourcesOf(ts), path))
  {
    OneMoreArg(disk, args0, ts0, arg, t, path, FirstDefined(SourcesOf(ts0), path), FirstDefined(Sources(t), path));
    SourcesSnoc(ts, ts0, t, path);
    assert args == args0 + [arg];
  }

  lemma {:induction false} OneMoreArg(disk: Disk, args: seq<CliArg>, ts: seq<Tree>, arg: CliArg, t: Tree, path: Key,
                                      v: Option<ConfigValue>, last: Option<ConfigValue>)
    requires |ts| == |args| && ArgSaid(disk, arg, t, path, last) && ArgsSaid(disk, args, ts, path, v)
    ensures ArgsSaid(disk, args + [arg], ts + [t], path, if last.Some? then last else v)
  {
    if last.Some? {
      LastArgSays(disk, args, ts, arg, t, path, last.value);
    } else {
      LastArgIsSilent(disk, args, ts, arg, t, path, v);
    }
  }

  lemma {:induction false} LastArgSays(disk: Disk, args: seq<CliArg>, ts: seq<Tree>, arg: CliArg, t: Tree, path: Key, v: ConfigValue)
    requires |ts| == |args| && ArgSaid(disk, arg, t, path, Some(v))
    ensures ArgsSaid(disk, args + [arg], ts + [t], path, Some(v))
  {
    var def, text :| ArgDecides(disk, arg, t, path, def, text) && Reads(v, def, text);
    var more, us := args + [arg], ts + [t];
    assert more[|args|] == arg && us[|args|] == t;
    assert LastArgDecides(disk, more, us, path, def, text);
  }

  lemma {:induction false} StillDecidesArgs(disk: Disk, args: seq<CliArg>, ts: seq<Tree>, arg: CliArg, t: Tree, path: Key, def: Definition, text: Toml)
    requires |ts| == |args| && LastArgDecides(disk, args, ts, path, def, text) && !ArgMentions(disk, arg, t, path)
    ensures LastArgDecides(disk, args + [arg], ts + [t], path, def, text)
  {
    var j :| 0 <= j < |args|
      && ArgMentions(disk, args[j], ts[j], path) && (forall k | j < k < |args| :: !ArgMentions(disk, args[k], ts[k], path))
      && ArgDecides(disk, args[j], ts[j], path, def, text);
    var more, us := args + [arg], ts + [t];
    assert more[j] == args[j] && us[j] == ts[j];
    forall k | j < k < |more| ensures !ArgMentions(disk, more[k], us[k], path) {}
  }

  lemma {:induction false} MentionedBefore(disk: Disk, args: seq<CliArg>, ts: seq<Tree>, arg: CliArg, t: Tree, path: Key)
    requires |ts| == |args| && !ArgMentions(disk, arg, t, path)
    ensures SomeArgMentions(disk, args + [arg], ts + [t], path) <==> SomeArgMentions(disk, args, ts, path)
  {
    var more, us := args + [arg], ts + [t];
    assert forall i | 0 <= i < |args| :: more[i] == args[i] && us[i] == ts[i];
  }

  lemma {:induction false} LastArgIsSilent(disk: Disk, args: seq<CliArg>, ts: seq<Tree>, arg: CliArg, t: Tree, path: Key, v: Option<ConfigValue>)
    requires |ts| == |args| && ArgsSaid(disk, args, ts, path, v) && !ArgMentions(disk, arg, t, path)
    ensures ArgsSaid(disk, args + [arg], ts + [t], path, v)
  {
    MentionedBefore(disk, args, ts, arg, t, path);
    if v.Some? {
      var def, text :| LastArgDecides(disk, args, ts, path, def, text) && Reads(v.value, def, text);
      StillDecidesArgs(disk, args, ts, arg, t, path, def, text);
    }
  }

  ghost predicate FilesSaid(disk: Disk, files: seq<Tree>, path: Key, v: Option<ConfigValue>) {
    && (v.Some? <==> SomeFileMentions(disk, files, path))
    && (v.Some? ==> exists def, text :: ClosestDecides(disk, files, path, def, text) && Reads(v.value, def, text))
  }

  lemma {:induction false} FilesAreDecided(disk: Disk, files: seq<Tree>, path: Key)
    requires (forall i | 0 <= i < |files| :: Unfolds(disk, ForDiscovery, files[i])) && path != []
    ensures FilesSaid(disk, files, path, FirstDefined(FileSources(files), path))
    decreases |files|
  {
    if files != [] {
      var n := |files| - 1;
      FirstIsDecided(disk, ForDiscovery, files[n], path);
      FilesAreDecided(disk, files[..n], path);
      FilesStep(disk, files, files[..n], files[n], path);
    }
  }

  lemma {:induction false} FilesStep(disk: Disk, files: seq<Tree>, init: seq<Tree>, t: Tree, path: Key)
    requires files != [] && init == files[..|files| - 1] && t == files[|files| - 1]
    requires t.path in disk.files && disk.files[t.path].Some? && SaidBy(disk, ForDiscovery, t, path, FirstDefined(Sources(t), path))
    requires FilesSaid(disk, init, path, FirstDefined(FileSources(init), path))
    ensures FilesSaid(disk, files, path, FirstDefined(FileSources(files), path))
  {
    OneMoreFile(disk, init, t, path, FirstDefined(FileSources(init), path), FirstDefined(Sources(t), path));
    FirstDefinedConcat(FileSources(init), Sources(t), path);
    assert files == init + [t];
  }

  lemma {:induction false} OneMoreFile(disk: Disk, files: seq<Tree>, t: Tree, path: Key, v: Option<ConfigValue>, last: Option<ConfigValue>)
    requires t.path in disk.files && disk.files[t.path].Some? && SaidBy(disk, ForDiscovery, t, path, last) && FilesSaid(disk, files, path, v)
    ensures FilesSaid(disk, files + [t], path, if v.Some? then v else last)
  {
    if v.Some? {
      CloserSays(disk, files, t, path, v.value);
    } else {
      FarthestSays(disk, files, t, path, last);
    }
  }

  lemma {:induction false} CloserSays(disk: Disk, files: seq<Tree>, t: Tree, path: Key, v: ConfigValue)
    requires FilesSaid(disk, files, path, Some(v))
    ensures FilesSaid(disk, files + [t], path, Some(v))
  {
    var more := files + [t];
    assert forall i | 0 <= i < |files| :: more[i] == files[i];
    var def, text :| ClosestDecides(disk, files, path, def, text) && Reads(v, def, text);
    assert ClosestDecides(disk, more, path, def, text);
  }

  lemma {:induction false} FarthestSays(disk: Disk, files: seq<Tree>, t: Tree, path: Key, v: Option<ConfigValue>)
    requires FilesSaid(disk, files, path, None)
    requires t.path in disk.files && disk.files[t.path].Some? && SaidBy(disk, ForDiscovery, t, path, v)
    ensures FilesSaid(disk, files + [t], path, v)
  {
    var more := files + [t];
    assert more[|files|] == t && forall i | 0 <= i < |files| :: more[i] == files[i];
    if v.Some? {
      var def, text :| Decides(disk, ForDiscovery, t, path, def, text) && Reads(v.value, def, text);
      assert ClosestDecides(disk, more, path, def, text);
    }
  }

  /** What is loaded has a value at a path exactly if some document says something there, and a scalar is what the
      text that decides says, with the place it was found in. */
  lemma {:induction false} ScalarFromText(disk: Disk, paths: seq<string>, args: seq<CliArg>, files: seq<Tree>, argTrees: seq<Tree>,
                                          config: ConfigValue, path: Key)
    requires Loadable(disk, paths, args, files, argTrees) && Agrees(config, Precedence(files, argTrees)) && path != []
    ensures Lookup(config, path).Some? <==> SomeArgMentions(disk, args, argTrees, path) || SomeFileMentions(disk, files, path)
    ensures Lookup(config, path).Some? && Lookup(config, path).value.IsScalar() ==>
      exists def, text :: LoadDecides(disk, args, files, argTrees, path, def, text) && Reads(Lookup(config, path).value, def, text)
  {
    assert AgreesAt(config, Precedence(files, argTrees), path);
    FirstDefinedConcat(SourcesOf(argTrees), FileSources(files), path);
    ArgsAreDecided(disk, args, argTrees, path);
    FilesAreDecided(disk, files, path);
    var v := Lookup(config, path);
    if v.Some? && v.value.IsScalar() {
      if SomeArgMentions(disk, args, argTrees, path) {
        var def, text :| LastArgDecides(disk, args, argTrees, path, def, text) && Reads(v.value, def, text);
        assert LoadDecides(disk, args, files, argTrees, path, def, text);
      } else {
        var def, text :| ClosestDecides(disk, files, path, def, text) && Reads(v.value, def, text);
        assert LoadDecides(disk, args, files, argTrees, path, def, text);
      }
    }
  }

  // ----- The items of a list -----

  function Flat(parts: seq<seq<ConfigValue>>): seq<ConfigValue> {
    if parts == [] then [] else Flat(parts[..|parts| - 1]) + parts[|parts| - 1]
  }

  /** The elements of the array the document has at the path, if it has one. */
  ghost predicate OwnItems(def: Definition, doc: Toml, path: Key, own: seq<ConfigValue>) {
    if Says(doc, path) && At(doc, path).value.TomlArray?
    then |own| == |At(doc, path).value.items| && forall i | 0 <= i < |own| :: Reads(own[i], def, At(doc, path).value.items[i])
    else own == []
  }

  /** The items of the includes in their order, then the file's own. */
  ghost predicate ListsItems(disk: Disk, why: WhyLoad, t: Tree, path: Key, items: seq<ConfigValue>)
    decreases t, 1
  {
    exists parts, own, def :: ItemParts(disk, why, t, path, parts, own, def) && items == Flat(parts) + own
  }

  ghost predicate ItemParts(disk: Disk, why: WhyLoad, t: Tree, path: Key, parts: seq<seq<ConfigValue>>, own: seq<ConfigValue>, def: Definition)
    decreases t, 0
  {
    && t.path in disk.files && disk.files[t.path].Some? && PlaceOf(why, t.path, def) && OwnItems(def, disk.files[t.path].value, path, own)
    && |parts| == |t.children| && forall i | 0 <= i < |parts| :: ListsItems(disk, why, t.children[i], path, parts[i])
  }

  lemma ItemsOfOwn(own: ConfigValue, def: Definition, doc: Toml, path: Key)
    requires doc.TomlTable? && Reads(own, def, TomlTable(doc.entries - {"include"})) && path != []
    ensures OwnItems(def, doc, path, ItemsAt(own, path))
  {
    OwnLookup(own, def, doc, path);
    if Says(doc, path) {
      var v := Lookup(own, path).value;
      assert IntoToml(v) == At(doc, path).value;
      if v.ListV? {
        assert forall i | 0 <= i < |v.items| :: IntoToml(v).items[i] == IntoToml(v.items[i]);
      }
    }
  }

  lemma {:induction false} ItemsFromText(disk: Disk, why: WhyLoad, t: Tree, path: Key)
    requires Unfolds(disk, why, t) && path != []
    ensures ListsItems(disk, why, t, path, AllItems(Sources(t), path))
    decreases t, 1
  {
    var doc, def := TreeFollowsDocument(disk, why, t);
    ItemsOfOwn(t.own, def, doc, path);
    var parts := ItemsOfIncludes(disk, why, t.children, path);
    FirstDefinedConcat([t.own], SourcesOf(t.children), path);
    OneLeaf(t.own, path);
    assert ItemParts(disk, why, t, path, parts, ItemsAt(t.own, path), def);
  }

  lemma {:induction false} ItemsOfIncludes(disk: Disk, why: WhyLoad, ts: seq<Tree>, path: Key) returns (parts: seq<seq<ConfigValue>>)
    requires (forall i | 0 <= i < |ts| :: Unfolds(disk, why, ts[i])) && path != []
    ensures |parts| == |ts| && (forall i | 0 <= i < |ts| :: ListsItems(disk, why, ts[i], path, parts[i]))
    ensures AllItems(SourcesOf(ts), path) == Flat(parts)
    decreases ts, 0
  {
    if ts == [] {
      parts := [];
    } else {
      var n := |ts| - 1;
      var init := ItemsOfIncludes(disk, why, ts[..n], path);
      ItemsFromText(disk, why, ts[n], path);
      parts := init + [AllItems(Sources(ts[n]), path)];
      EachLists(disk, why, ts, path, init, AllItems(Sources(ts[n]), path));
      FlatSnoc(init, AllItems(Sources(ts[n]), path));
      FirstDefinedConcat(Sources(ts[n]), SourcesOf(ts[..n]), path);
    }
  }

  lemma FlatSnoc(init: seq<seq<ConfigValue>>, last: seq<ConfigValue>)
    ensures Flat(init + [last]) == Flat(init) + last
  {
    assert (init + [last])[..|init|] == init;
  }

  lemma {:induction false} EachLists(disk: Disk, why: WhyLoad, ts: seq<Tree>, path: Key, init: seq<seq<ConfigValue>>, last: seq<ConfigValue>)
    requires ts != [] && |init| == |ts| - 1 && ListsItems(disk, why, ts[|ts| - 1], path, last)
    requires forall i | 0 <= i < |init| :: ListsItems(disk, why, ts[..|ts| - 1][i], path, init[i])
    ensures forall i | 0 <= i < |ts| :: ListsItems(disk, why, ts[i], path, (init + [last])[i])
  {
    forall i | 0 <= i < |ts| ensures ListsItems(disk, why, ts[i], path, (init + [last])[i]) {
      if i < |init| {
        assert ListsItems(disk, why, ts[..|ts| - 1][i], path, init[i]);
      }
    }
  }
}
