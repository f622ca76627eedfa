/** The keys a build script may print and what each adds to its output
    (`src/compiler/custom_build.rs`, `BuildOutput::parse`). */
module Directives {
  import opened Units
  import opened RustcFlags
  import opened DirectiveLines

  // ----- Keys -----

  datatype Key =
    | KRustcFlags | KLinkLib | KLinkSearch | KLinkArgCdylib | KLinkArgBins | KLinkArgBin | KLinkArgTests
    | KLinkArgBenches | KLinkArgExamples | KLinkArg | KCfg | KCheckCfg | KEnv | KError | KWarning
    | KRerunIfChanged | KRerunIfEnvChanged | KMetadata

  function KeyOf(key: string): Option<Key> {
    match key
    case "rustc-flags" => Some(KRustcFlags)
    case "rustc-link-lib" => Some(KLinkLib)
    case "rustc-link-search" => Some(KLinkSearch)
    case "rustc-link-arg-cdylib" => Some(KLinkArgCdylib)
    case "rustc-cdylib-link-arg" => Some(KLinkArgCdylib)
    case "rustc-link-arg-bins" => Some(KLinkArgBins)
    case "rustc-link-arg-bin" => Some(KLinkArgBin)
    case "rustc-link-arg-tests" => Some(KLinkArgTests)
    case "rustc-link-arg-benches" => Some(KLinkArgBenches)
    case "rustc-link-arg-examples" => Some(KLinkArgExamples)
    case "rustc-link-arg" => Some(KLinkArg)
    case "rustc-cfg" => Some(KCfg)
    case "rustc-check-cfg" => Some(KCheckCfg)
    case "rustc-env" => Some(KEnv)
    case "error" => Some(KError)
    case "warning" => Some(KWarning)
    case "rerun-if-changed" => Some(KRerunIfChanged)
    case "rerun-if-env-changed" => Some(KRerunIfEnvChanged)
    case "metadata" => Some(KMetadata)
    case _ => None
  }

  /** The keys the old syntax knows; `error` and `metadata` came with the new one. */
  const ReservedPrefixes: seq<string> := [
    "rustc-flags=", "rustc-link-lib=", "rustc-link-search=", "rustc-link-arg-cdylib=",
    "rustc-cdylib-link-arg=", "rustc-link-arg-bins=", "rustc-link-arg-bin=", "rustc-link-arg-tests=",
    "rustc-link-arg-benches=", "rustc-link-arg-examples=", "rustc-link-arg=", "rustc-cfg=",
    "rustc-check-cfg=", "rustc-env=", "warning=", "rerun-if-changed=", "rerun-if-env-changed="]

  function HasReservedPrefix(data: string): bool {
    exists p | p in ReservedPrefixes :: p <= data
  }

  // ----- The package the script belongs to -----

  /** `relocate` rewrites the output directory the text was generated in to the present one;
      `inOutDir` tells search paths inside it; `bootstrapAllowed` says that nightly features are
      allowed or that `RUSTC_BOOTSTRAP` names the library. */
  datatype Script = Script(
    targets: seq<Target>,
    msrv: Option<(nat, nat)>,
    bootstrapAllowed: bool,
    relocate: string -> string,
    inOutDir: string -> bool)

  /** 1.77 as a caret requirement on the minimum version: a later major version is not compatible. */
  predicate NewSyntaxOk(p: Script) {
    p.msrv.None? || (p.msrv.value.0 == 1 && p.msrv.value.1 >= 77)
  }

  predicate IsCdylib(t: Target) {
    t.IsLib() && Cdylib in t.kind.crateTypes
  }

  predicate HasTarget(p: Script, wanted: Target -> bool) {
    exists t | t in p.targets :: wanted(t)
  }

  function PathIn(p: Script, path: string): LibraryPath {
    if p.inOutDir(path) then CargoArtifact(path) else External(path)
  }

  function PathsIn(p: Script, paths: seq<string>): seq<LibraryPath> {
    seq(|paths|, i requires 0 <= i < |paths| => PathIn(p, paths[i]))
  }

  function LinkArg(to: LinkArgTarget, arg: string): BuildOutput {
    Nothing.(linkerArgs := [(to, arg)])
  }

  function ArgIfTarget(p: Script, wanted: Target -> bool, to: LinkArgTarget, arg: string): Effect {
    if HasTarget(p, wanted) then Adds(LinkArg(to, arg)) else Refused(NoSuchTarget)
  }

  function FlagsEffect(p: Script, value: string): Effect {
    match FlagsIn(Words(Trim(value)))
    case BadFlags => Refused(BadRustcFlags)
    case Flags(paths, links) => Adds(Nothing.(libraryPaths := PathsIn(p, paths), libraryLinks := links))
  }

  function BinArgEffect(p: Script, value: string): Effect {
    match SplitOnce(value)
    case None => Refused(BinArgForm)
    case Some((bin, arg)) =>
      if HasTarget(p, (t: Target) => t.IsBin() && t.name == bin) then Adds(LinkArg(SingleBin(bin), arg))
      else Refused(NoSuchBin)
  }

  const Bootstrap := "RUSTC_BOOTSTRAP"

  /** A script may not switch the channel: at best the attempt is ignored with a warning. */
  function EnvEffect(p: Script, value: string): Effect {
    match SplitOnce(value)
    case None => Refused(EnvForm)
    case Some((name, val)) =>
      if name != Bootstrap then Adds(Nothing.(env := [(name, val)]))
      else if p.bootstrapAllowed then Adds(Nothing.(messages := [BootstrapIgnored(val)]))
      else Refused(BootstrapForbidden)
  }

  function MetadataEffect(value: string): Effect {
    match SplitOnce(value)
    case None => Refused(NoEqualsSign)
    case Some((k, v)) => Adds(Nothing.(metadata := [(k, TrimEnd(v))]))
  }

  function KeyEffect(p: Script, oldSyntax: bool, name: string, key: Key, value: string): Effect {
    match key
    case KRustcFlags => FlagsEffect(p, value)
    case KLinkLib => Adds(Nothing.(libraryLinks := [value]))
    case KLinkSearch => Adds(Nothing.(libraryPaths := [PathIn(p, value)]))
    case KLinkArgCdylib =>
      var notes := if HasTarget(p, IsCdylib) then [] else [NoCdylib(oldSyntax, name)];
      Adds(LinkArg(ForCdylib, value).(messages := notes))
    case KLinkArgBins => ArgIfTarget(p, (t: Target) => t.IsBin(), ForBin, value)
    case KLinkArgBin => BinArgEffect(p, value)
    case KLinkArgTests => ArgIfTarget(p, (t: Target) => t.IsTest(), ForTest, value)
    case KLinkArgBenches => ArgIfTarget(p, (t: Target) => t.IsBench(), ForBench, value)
    case KLinkArgExamples => ArgIfTarget(p, (t: Target) => t.IsExample(), ForExample, value)
    case KLinkArg => Adds(LinkArg(All, value))
    case KCfg => Adds(Nothing.(cfgs := [value]))
    case KCheckCfg => Adds(Nothing.(checkCfgs := [value]))
    case KEnv => EnvEffect(p, value)
    case KError => Adds(Nothing.(messages := [Said(Error, value)]))
    case KWarning => Adds(Nothing.(messages := [Said(Warning, value)]))
    case KRerunIfChanged => Adds(Nothing.(rerunIfChanged := [value]))
    case KRerunIfEnvChanged => Adds(Nothing.(rerunIfEnvChanged := [value]))
    case KMetadata => MetadataEffect(value)
  }

  function DirectiveEffect(p: Script, oldSyntax: bool, key: string, value: string): Effect {
    match KeyOf(key)
    case None => Refused(UnknownKey)
    case Some(k) => KeyEffect(p, oldSyntax, key, k, p.relocate(value))
  }

  function CargoGrammar(p: Script): Grammar {
    Grammar(NewSyntaxOk(p), HasReservedPrefix,
            (oldSyntax, key, value) => DirectiveEffect(p, oldSyntax, key, value))
  }

  // ----- The parser -----

  /** One key and value; the flags are read by their own loop. */
  method Apply(p: Script, oldSyntax: bool, key: string, value: string) returns (e: Effect)
    ensures e == DirectiveEffect(p, oldSyntax, key, value)
  {
    var k := KeyOf(key);
    if k.None? {
      return Refused(UnknownKey);
    }
    var relocated := p.relocate(value);
    if !k.value.KRustcFlags? {
      return KeyEffect(p, oldSyntax, key, k.value, relocated);
    }
    var flags := ParseRustcFlags(relocated);
    if flags.BadFlags? {
      return Refused(BadRustcFlags);
    }
    e := Adds(Nothing.(libraryPaths := PathsIn(p, flags.paths), libraryLinks := flags.links));
  }

  method ApplyData(p: Script, oldSyntax: bool, data: string) returns (e: Effect)
    ensures e == KeyValue(CargoGrammar(p), oldSyntax, data)
  {
    match SplitOnce(data)
    case None => e := Refused(NoEqualsSign);
    case Some((key, value)) => e := Apply(p, oldSyntax, key, TrimEnd(value));
  }

  method ReadLine(p: Script, line: string) returns (e: Effect)
    ensures e == LineEffect(CargoGrammar(p), Some(line))
  {
    match Classify(line)
    case Plain => e := Adds(Nothing);
    case NewStyle(data) =>
      if NewSyntaxOk(p) {
        e := ApplyData(p, false, data);
      } else {
        e := Refused(SyntaxTooNew);
      }
    case OldStyle(data) =>
      if HasReservedPrefix(data) {
        e := ApplyData(p, true, data);
      } else {
        e := Apply(p, true, "metadata", data);
      }
  }

  /** `BuildOutput::parse` over the lines of the script's standard output. */
  method ParseOutput(p: Script, lines: seq<Option<string>>) returns (r: Result)
    ensures r == Parse(CargoGrammar(p), lines)
  {
    ghost var g := CargoGrammar(p);
    var output := Nothing;
    ghost var effects := Effects(g, lines);
    for i := 0 to |lines|
      invariant Sum(effects[..i]) == Parsed(output)
    {
      assert effects[..i + 1][..i] == effects[..i];
      if lines[i].None? {
        AppendAssociative(output, Nothing, Nothing);
        continue;
      }
      var e := ReadLine(p, lines[i].value);
      if e.Refused? {
        PrefixFails(effects, i);
        return Failed(i, e.why);
      }
      output := Append(output, e.output);
    }
    assert effects[..|lines|] == effects;
    r := Parsed(output);
  }

  lemma PrefixFails(effects: seq<Effect>, i: nat)
    requires i < |effects| && Sum(effects[..i]).Parsed? && effects[i].Refused?
    ensures Sum(effects) == Failed(i, effects[i].why)
  {
    AllAccepted(effects[..i]);
    forall j | 0 <= j < i ensures effects[j].Adds? {
      assert effects[..i][j] == effects[j];
    }
    FirstRefusal(effects, i);
  }

  // ----- Rewriting to the new syntax -----

  lemma KeyIsSyntaxBlind(p: Script, name: string, key: Key, value: string)
    ensures SameEffect(KeyEffect(p, true, name, key, value), KeyEffect(p, false, name, key, value))
    ensures forall isOld :: KeyEffect(p, isOld, name, key, value) != Refused(SyntaxTooNew)
  {
    if key == KLinkArgCdylib {
      var notes := (isOld: bool) => if HasTarget(p, IsCdylib) then [] else [NoCdylib(isOld, name)];
      assert EraseMessages(notes(true)) == EraseMessages(notes(false)) by {
        if !HasTarget(p, IsCdylib) {
          assert [NoCdylib(true, name)][..0] == [] && [NoCdylib(false, name)][..0] == [];
        }
      }
    }
  }

  lemma CargoIsSyntaxBlind(p: Script)
    ensures SyntaxBlind(CargoGrammar(p))
  {
    var g := CargoGrammar(p);
    forall key, value
      ensures SameEffect(g.effect(true, key, value), g.effect(false, key, value))
      ensures forall isOld :: g.effect(isOld, key, value) != Refused(SyntaxTooNew)
    {
      DirectiveIsSyntaxBlind(p, key, value);
    }
  }

  lemma DirectiveIsSyntaxBlind(p: Script, key: string, value: string)
    ensures SameEffect(DirectiveEffect(p, true, key, value), DirectiveEffect(p, false, key, value))
    ensures forall isOld :: DirectiveEffect(p, isOld, key, value) != Refused(SyntaxTooNew)
  {
    var k := KeyOf(key);
    if k.Some? {
      KeyIsSyntaxBlind(p, key, k.value, p.relocate(value));
    }
  }

  /** For every script and every output. */
  lemma RewriteToNewSyntax(p: Script, lines: seq<Option<string>>)
    ensures
      var g := CargoGrammar(p);
      SameResult(Parse(g, lines), Parse(g, RewriteAll(g, lines))) <==> NewSyntaxOk(p) || !OldFirst(lines)
    ensures
      var g := CargoGrammar(p);
      Parse(g, RewriteAll(g, lines)).Parsed?
      <==> Parse(g, lines).Parsed? && (NewSyntaxOk(p) || forall j | 0 <= j < |lines| :: !IsOld(lines[j]))
  {
    CargoIsSyntaxBlind(p);
    RewritePreservesParse(CargoGrammar(p), lines);
    RewriteKeepsSuccess(CargoGrammar(p), lines);
  }
}
