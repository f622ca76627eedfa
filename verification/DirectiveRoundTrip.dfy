/** Printing directives and reading them back: every list of a build output can be written in the
    new syntax, in any order and mixture, and comes back as it was. */
module DirectiveRoundTrip {
  import opened Units
  import opened RustcFlags
  import opened DirectiveLines
  import opened Directives

  /** One element of one of the lists. */
  datatype Entry =
    | SearchPath(path: LibraryPath)
    | Library(name: string)
    | LinkerArg(to: LinkArgTarget, arg: string)
    | Cfg(text: string)
    | CheckCfg(text: string)
    | EnvVar(name: string, value: string)
    | Metadata(name: string, value: string)
    | RerunFile(file: string)
    | RerunEnv(name: string)
    | Log(severity: Severity, text: string)

  /** Where the element goes. */
  function Contribution(e: Entry): BuildOutput {
    match e
    case SearchPath(path) => Nothing.(libraryPaths := [path])
    case Library(name) => Nothing.(libraryLinks := [name])
    case LinkerArg(to, arg) => Nothing.(linkerArgs := [(to, arg)])
    case Cfg(text) => Nothing.(cfgs := [text])
    case CheckCfg(text) => Nothing.(checkCfgs := [text])
    case EnvVar(name, value) => Nothing.(env := [(name, value)])
    case Metadata(name, value) => Nothing.(metadata := [(name, value)])
    case RerunFile(path) => Nothing.(rerunIfChanged := [path])
    case RerunEnv(name) => Nothing.(rerunIfEnvChanged := [name])
    case Log(severity, text) => Nothing.(messages := [Said(severity, text)])
  }

  function Total(entries: seq<Entry>): BuildOutput {
    if entries == [] then Nothing
    else Append(Total(entries[..|entries| - 1]), Contribution(entries[|entries| - 1]))
  }

  function KeyFor(e: Entry): Key {
    match e
    case SearchPath(_) => KLinkSearch
    case Library(_) => KLinkLib
    case LinkerArg(to, _) =>
      (match to
       case All => KLinkArg
       case ForCdylib => KLinkArgCdylib
       case ForBin => KLinkArgBins
       case SingleBin(_) => KLinkArgBin
       case ForTest => KLinkArgTests
       case ForBench => KLinkArgBenches
       case ForExample => KLinkArgExamples)
    case Cfg(_) => KCfg
    case CheckCfg(_) => KCheckCfg
    case EnvVar(_, _) => KEnv
    case Metadata(_, _) => KMetadata
    case RerunFile(_) => KRerunIfChanged
    case RerunEnv(_) => KRerunIfEnvChanged
    case Log(severity, _) => if severity.Error? then KError else KWarning
  }

  function Pair(name: string, value: string): string {
    name + "=" + value
  }

  function ValueFor(e: Entry): string {
    match e
    case SearchPath(path) => path.path
    case Library(name) => name
    case LinkerArg(to, arg) => if to.SingleBin? then Pair(to.name, arg) else arg
    case Cfg(text) => text
    case CheckCfg(text) => text
    case EnvVar(name, value) => Pair(name, value)
    case Metadata(name, value) => Pair(name, value)
    case RerunFile(path) => path
    case RerunEnv(name) => name
    case Log(_, text) => text
  }

  function Spelling(key: Key): string {
    match key
    case KRustcFlags => "rustc-flags"
    case KLinkLib => "rustc-link-lib"
    case KLinkSearch => "rustc-link-search"
    case KLinkArgCdylib => "rustc-link-arg-cdylib"
    case KLinkArgBins => "rustc-link-arg-bins"
    case KLinkArgBin => "rustc-link-arg-bin"
    case KLinkArgTests => "rustc-link-arg-tests"
    case KLinkArgBenches => "rustc-link-arg-benches"
    case KLinkArgExamples => "rustc-link-arg-examples"
    case KLinkArg => "rustc-link-arg"
    case KCfg => "rustc-cfg"
    case KCheckCfg => "rustc-check-cfg"
    case KEnv => "rustc-env"
    case KError => "error"
    case KWarning => "warning"
    case KRerunIfChanged => "rerun-if-changed"
    case KRerunIfEnvChanged => "rerun-if-env-changed"
    case KMetadata => "metadata"
  }

  function Directive(e: Entry): string {
    "cargo::" + Pair(Spelling(KeyFor(e)), ValueFor(e))
  }

  function Printouts(entries: seq<Entry>): seq<string> {
    if entries == [] then [] else Printouts(entries[..|entries| - 1]) + [Directive(entries[|entries| - 1])]
  }

  /** What a directive cannot say: line feeds, trailing blanks, `=` in a name, paths of another output
      directory, targets the package does not have, `RUSTC_BOOTSTRAP`. */
  ghost predicate Sayable(p: Script, e: Entry) {
    && '\n' !in ValueFor(e) && TrimEnd(ValueFor(e)) == ValueFor(e)
    && p.relocate(ValueFor(e)) == ValueFor(e)
    && match e
       case SearchPath(path) => path.CargoArtifact? <==> p.inOutDir(path.path)
       case LinkerArg(to, _) =>
         (match to
          case All => true
          case ForCdylib => HasTarget(p, IsCdylib)
          case ForBin => HasTarget(p, (t: Target) => t.IsBin())
          case SingleBin(name) => '=' !in name && HasTarget(p, (t: Target) => t.IsBin() && t.name == name)
          case ForTest => HasTarget(p, (t: Target) => t.IsTest())
          case ForBench => HasTarget(p, (t: Target) => t.IsBench())
          case ForExample => HasTarget(p, (t: Target) => t.IsExample()))
       case EnvVar(name, _) => '=' !in name && name != Bootstrap
       case Metadata(name, _) => '=' !in name
       case _ => true
  }

  lemma SpellingHasNoEquals(key: Key)
    ensures '=' !in Spelling(key)
  {
  }

  predicate AboutLinking(key: Key) {
    || key.KLinkLib? || key.KLinkSearch? || key.KLinkArgCdylib? || key.KLinkArgBins? || key.KLinkArgBin?
    || key.KLinkArgTests? || key.KLinkArgBenches? || key.KLinkArgExamples? || key.KLinkArg?
  }

  lemma LinkingSpelling(key: Key)
    requires AboutLinking(key)
    ensures KeyOf(Spelling(key)) == Some(key)
  {}

  predicate AboutCompiling(key: Key) {
    key.KRustcFlags? || key.KCfg? || key.KCheckCfg? || key.KEnv?
  }

  lemma CompilingSpelling(key: Key)
    requires AboutCompiling(key)
    ensures KeyOf(Spelling(key)) == Some(key)
  {}

  lemma OtherSpelling(key: Key)
    requires !AboutLinking(key) && !AboutCompiling(key)
    ensures KeyOf(Spelling(key)) == Some(key)
  {}

  lemma SpellingIsRead(key: Key)
    ensures KeyOf(Spelling(key)) == Some(key)
  {
    if AboutLinking(key) {
      LinkingSpelling(key);
    } else if AboutCompiling(key) {
      CompilingSpelling(key);
    } else {
      OtherSpelling(key);
    }
  }

  lemma TrimEndOfPair(name: string, value: string)
    requires TrimEnd(Pair(name, value)) == Pair(name, value)
    ensures TrimEnd(value) == value
  {
    if value != "" {
      var s := Pair(name, value);
      assert s[|s| - 1] == value[|value| - 1];
    }
  }

  lemma ValueIsRead(p: Script, e: Entry, isOld: bool, key: string)
    requires Sayable(p, e)
    ensures KeyEffect(p, isOld, key, KeyFor(e), ValueFor(e)) == Adds(Contribution(e))
  {
    if e.LinkerArg? {
      LinkerArgIsRead(p, e.to, e.arg, isOld, key);
    } else if e.EnvVar? || e.Metadata? {
      PairedIsRead(p, e, isOld, key);
    } else if e.SearchPath? {
      SearchPathIsRead(p, e.path, isOld, key);
    } else if e.Library? || e.Cfg? || e.CheckCfg? {
      OptionIsRead(p, e, isOld, key);
    } else {
      NoteIsRead(p, e, isOld, key);
    }
  }

  lemma SearchPathIsRead(p: Script, path: LibraryPath, isOld: bool, key: string)
    requires path.CargoArtifact? <==> p.inOutDir(path.path)
    ensures KeyEffect(p, isOld, key, KLinkSearch, path.path) == Adds(Nothing.(libraryPaths := [path]))
  {}

  lemma OptionIsRead(p: Script, e: Entry, isOld: bool, key: string)
    requires e.Library? || e.Cfg? || e.CheckCfg?
    ensures KeyEffect(p, isOld, key, KeyFor(e), ValueFor(e)) == Adds(Contribution(e))
  {}

  lemma NoteIsRead(p: Script, e: Entry, isOld: bool, key: string)
    requires e.RerunFile? || e.RerunEnv? || e.Log?
    ensures KeyEffect(p, isOld, key, KeyFor(e), ValueFor(e)) == Adds(Contribution(e))
  {}

  lemma PairedIsRead(p: Script, e: Entry, isOld: bool, key: string)
    requires Sayable(p, e) && (e.EnvVar? || e.Metadata?)
    ensures KeyEffect(p, isOld, key, KeyFor(e), ValueFor(e)) == Adds(Contribution(e))
  {
    if e.EnvVar? {
      EnvIsRead(p, e.name, e.value);
    } else {
      MetadataIsRead(e.name, e.value);
    }
  }

  lemma EnvIsRead(p: Script, name: string, value: string)
    requires '=' !in name && name != Bootstrap
    ensures EnvEffect(p, Pair(name, value)) == Adds(Nothing.(env := [(name, value)]))
  {
    SplitAtFirst(name, value);
  }

  lemma MetadataIsRead(name: string, value: string)
    requires '=' !in name && TrimEnd(Pair(name, value)) == Pair(name, value)
    ensures MetadataEffect(Pair(name, value)) == Adds(Nothing.(metadata := [(name, value)]))
  {
    SplitAtFirst(name, value);
    TrimEndOfPair(name, value);
  }

  lemma LinkerArgIsRead(p: Script, to: LinkArgTarget, arg: string, isOld: bool, key: string)
    requires Sayable(p, LinkerArg(to, arg))
    ensures KeyEffect(p, isOld, key, KeyFor(LinkerArg(to, arg)), ValueFor(LinkerArg(to, arg))) == Adds(LinkArg(to, arg))
  {
    if to.SingleBin? {
      SplitAtFirst(to.name, arg);
    }
  }

  lemma PairIsNewStyle(key: string, value: string)
    requires TrimEnd(value) == value
    ensures Classify("cargo::" + Pair(key, value)) == NewStyle(Pair(key, value))
  {
    var s := "cargo::" + Pair(key, value);
    assert s[|s| - 1] == if value == "" then '=' else value[|value| - 1];
    TrimFixed(s);
    assert s[..7] == "cargo::" && s[7..] == Pair(key, value);
  }

  lemma DirectiveIsRead(p: Script, e: Entry)
    requires NewSyntaxOk(p) && Sayable(p, e)
    ensures LineEffect(CargoGrammar(p), Some(Directive(e))) == Adds(Contribution(e))
  {
    var k, value := KeyFor(e), ValueFor(e);
    SpellingHasNoEquals(k);
    SpellingIsRead(k);
    ValueIsRead(p, e, false, Spelling(k));
    PairIsRead(CargoGrammar(p), Spelling(k), value);
    RelocatedIsRead(p, false, Spelling(k), k, value);
  }

  lemma PairIsRead(g: Grammar, key: string, value: string)
    requires g.newOk && '=' !in key && TrimEnd(value) == value
    ensures LineEffect(g, Some("cargo::" + Pair(key, value))) == g.effect(false, key, value)
  {
    PairIsNewStyle(key, value);
    SplitAtFirst(key, value);
  }

  lemma RelocatedIsRead(p: Script, isOld: bool, name: string, key: Key, value: string)
    requires KeyOf(name) == Some(key) && p.relocate(value) == value
    ensures CargoGrammar(p).effect(isOld, name, value) == KeyEffect(p, isOld, name, key, value)
  {
  }

  /** Lines that are valid text. */
  function AsLines(lines: seq<string>): (r: seq<Option<string>>)
    ensures |r| == |lines| && forall i | 0 <= i < |r| :: r[i] == Some(lines[i])
  {
    seq(|lines|, i requires 0 <= i < |lines| => Some(lines[i]))
  }

  lemma AsLinesSnoc(lines: seq<string>, line: string)
    ensures AsLines(lines + [line]) == AsLines(lines) + [Some(line)]
  {
  }

  lemma OneMoreLine(g: Grammar, lines: seq<Option<string>>, line: Option<string>)
    ensures Parse(g, lines + [line]) == Then(Parse(g, lines), |lines|, LineEffect(g, line))
  {
    assert Effects(g, lines + [line])[..|lines|] == Effects(g, lines);
  }

  /** What was printed is what is parsed: nothing lost, reordered or put into another list. */
  lemma {:induction false} PrintedComesBack(p: Script, entries: seq<Entry>)
    requires NewSyntaxOk(p) && forall i | 0 <= i < |entries| :: Sayable(p, entries[i])
    ensures Parse(CargoGrammar(p), AsLines(Printouts(entries))) == Parsed(Total(entries))
  {
    if entries != [] {
      var init, last := entries[..|entries| - 1], entries[|entries| - 1];
      PrintedComesBack(p, init);
      DirectiveIsRead(p, last);
      AsLinesSnoc(Printouts(init), Directive(last));
      OneMoreLine(CargoGrammar(p), AsLines(Printouts(init)), Some(Directive(last)));
    }
  }

  // ----- As one text -----

  /** The pieces between line feeds, as `split` gives them. */
  function SplitFeeds(s: string): (r: seq<string>)
    ensures r != []
  {
    if s == "" then [""]
    else
      var rest := SplitFeeds(s[1..]);
      if s[0] == '\n' then [""] + rest else [[s[0]] + rest[0]] + rest[1..]
  }

  function Text(lines: seq<string>): string {
    if lines == [] then "" else lines[0] + "\n" + Text(lines[1..])
  }

  lemma {:induction false} SplitLine(line: string, rest: string)
    requires '\n' !in line
    ensures SplitFeeds(line + "\n" + rest) == [line] + SplitFeeds(rest)
  {
    var s := line + "\n" + rest;
    if line == "" {
      assert s[1..] == rest;
    } else {
      assert s[1..] == line[1..] + "\n" + rest && s[0] == line[0] && line == [line[0]] + line[1..];
      SplitLine(line[1..], rest);
    }
  }

  lemma {:induction false} SplitText(lines: seq<string>)
    requires forall i | 0 <= i < |lines| :: '\n' !in lines[i]
    ensures SplitFeeds(Text(lines)) == lines + [""]
  {
    if lines != [] {
      SplitLine(lines[0], Text(lines[1..]));
      SplitText(lines[1..]);
      assert lines == [lines[0]] + lines[1..];
    }
  }

  lemma DirectiveIsOneLine(e: Entry)
    requires '\n' !in ValueFor(e)
    ensures '\n' !in Directive(e)
  {
    SpellingHasNoFeed(KeyFor(e));
  }

  lemma SpellingHasNoFeed(key: Key)
    ensures '\n' !in Spelling(key)
  {
  }

  lemma {:induction false} PrintoutsAreLines(p: Script, entries: seq<Entry>)
    requires forall i | 0 <= i < |entries| :: Sayable(p, entries[i])
    ensures forall i | 0 <= i < |Printouts(entries)| :: '\n' !in Printouts(entries)[i]
  {
    if entries != [] {
      PrintoutsAreLines(p, entries[..|entries| - 1]);
      DirectiveIsOneLine(entries[|entries| - 1]);
    }
  }

  lemma BlankLine(g: Grammar)
    ensures LineEffect(g, Some("")) == Adds(Nothing)
  {
    assert Trim("") == "";
  }

  lemma ThenNothing(o: BuildOutput, line: nat)
    ensures Then(Parsed(o), line, Adds(Nothing)) == Parsed(o)
  {
    AppendAssociative(o, Nothing, Nothing);
  }

  /** The line feed at the end of a text adds nothing. */
  lemma ParseText(g: Grammar, lines: seq<string>)
    requires (forall i | 0 <= i < |lines| :: '\n' !in lines[i]) && Parse(g, AsLines(lines)).Parsed?
    ensures Parse(g, AsLines(SplitFeeds(Text(lines)))) == Parse(g, AsLines(lines))
  {
    SplitText(lines);
    AsLinesSnoc(lines, "");
    OneMoreLine(g, AsLines(lines), Some(""));
    BlankLine(g);
    ThenNothing(Parse(g, AsLines(lines)).output, |lines|);
  }

  /** The whole text a script prints, split at its line feeds and parsed, gives the entries back. */
  lemma TextComesBack(p: Script, entries: seq<Entry>)
    requires NewSyntaxOk(p) && forall i | 0 <= i < |entries| :: Sayable(p, entries[i])
    ensures Parse(CargoGrammar(p), AsLines(SplitFeeds(Text(Printouts(entries))))) == Parsed(Total(entries))
  {
    PrintoutsAreLines(p, entries);
    PrintedComesBack(p, entries);
    ParseText(CargoGrammar(p), Printouts(entries));
  }
}
