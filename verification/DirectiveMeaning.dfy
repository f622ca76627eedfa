/** Which lines of a script's output are read as which directive, in the old syntax and the new, and what no output
    can ever set. */
module DirectiveMeaning {
  import opened Units
  import opened RustcFlags
  import opened DirectiveLines
  import opened Directives
  import opened DirectiveRoundTrip

  // ----- The spelling of keys -----

  lemma SpellingsDiffer(key: Key)
    ensures Spelling(key) != "rustc-cdylib-link-arg"
  {}

  /** A key has its one spelling; the cdylib argument has an older one too. */
  lemma KeysExactly(text: string, key: Key)
    ensures KeyOf(text) == Some(key) <==> text == Spelling(key) || (text == "rustc-cdylib-link-arg" && key == KLinkArgCdylib)
  {
    SpellingIsRead(key);
    KnownIsSpelled(text);
  }

  lemma KnownIsSpelled(text: string)
    ensures KeyOf(text).Some? ==> text == Spelling(KeyOf(text).value) || (text == "rustc-cdylib-link-arg" && KeyOf(text) == Some(KLinkArgCdylib))
  {}

  /** The keys of the old syntax: all but the two that came with the new one. */
  predicate KnownToOldSyntax(name: string) {
    KeyOf(name).Some? && KeyOf(name) != Some(KError) && KeyOf(name) != Some(KMetadata)
  }

  const OldKeys: seq<string> := [
    "rustc-flags", "rustc-link-lib", "rustc-link-search", "rustc-link-arg-cdylib", "rustc-cdylib-link-arg",
    "rustc-link-arg-bins", "rustc-link-arg-bin", "rustc-link-arg-tests", "rustc-link-arg-benches", "rustc-link-arg-examples",
    "rustc-link-arg", "rustc-cfg", "rustc-check-cfg", "rustc-env", "warning",
    "rerun-if-changed", "rerun-if-env-changed"]

  lemma OldKeysAreKnown(name: string)
    ensures name in OldKeys <==> KnownToOldSyntax(name)
  {
    if KnownToOldSyntax(name) {
      KnownIsOld(name);
    }
    if name in OldKeys {
      OldIsKnown(name);
    }
  }

  lemma KnownIsOld(name: string)
    requires KnownToOldSyntax(name)
    ensures name in OldKeys
  {}

  lemma OldIsKnown(name: string)
    requires name in OldKeys
    ensures KnownToOldSyntax(name)
  {}

  lemma EqualsBehind(name: string, p: string)
    requires |p| == |name| + 1 && p[|name|] == '=' && forall i | 0 <= i < |name| :: p[i] == name[i]
    ensures p == name + "="
  {}

  lemma PrefixAt(i: nat)
    requires i < |ReservedPrefixes|
    ensures |OldKeys| == |ReservedPrefixes| && ReservedPrefixes[i] == OldKeys[i] + "=" && '=' !in OldKeys[i]
  {
    EqualsBehind(OldKeys[i], ReservedPrefixes[i]);
  }

  lemma PrefixIsKey(key: string, name: string, value: string)
    requires '=' !in key && '=' !in name
    ensures key + "=" <= Pair(name, value) <==> key == name
  {
    var p, data := key + "=", Pair(name, value);
    assert data == (name + "=") + value;
    if p <= data {
      SplitAtFirst(key, data[|p|..]);
      SplitAtFirst(name, value);
      assert key + "=" + data[|p|..] == data;
    }
  }

  /** A line of the old syntax is read as a directive exactly if its key is one of those; otherwise the whole of it is
      metadata under that key. */
  lemma ReservedExactly(name: string, value: string)
    requires '=' !in name
    ensures HasReservedPrefix(Pair(name, value)) <==> KnownToOldSyntax(name)
  {
    OldKeysAreKnown(name);
    forall i | 0 <= i < |ReservedPrefixes| ensures ReservedPrefixes[i] <= Pair(name, value) <==> OldKeys[i] == name {
      PrefixAt(i);
      PrefixIsKey(OldKeys[i], name, value);
    }
    if name in OldKeys {
      var i :| 0 <= i < |OldKeys| && OldKeys[i] == name;
      PrefixAt(0);
      assert ReservedPrefixes[i] in ReservedPrefixes;
    }
  }

  // ----- Directives in the old syntax -----

  function OldDirective(e: Entry): string {
    "cargo:" + if e.Metadata? then ValueFor(e) else Pair(Spelling(KeyFor(e)), ValueFor(e))
  }

  lemma OldText(data: string)
    requires data != "" && data[0] != ':' && !IsSpace(data[|data| - 1])
    ensures Classify("cargo:" + data) == OldStyle(data)
  {
    var s := "cargo:" + data;
    assert s[|s| - 1] == data[|data| - 1];
    TrimFixed(s);
    assert s[6] == data[0] && s[..6] == "cargo:" && s[6..] == data;
    assert "cargo::"[6] == ':';
  }

  lemma OldPair(g: Grammar, name: string, value: string)
    requires '=' !in name && (name == "" || name[0] != ':') && TrimEnd(value) == value
    ensures LineEffect(g, Some("cargo:" + Pair(name, value)))
         == if g.reserved(Pair(name, value)) then g.effect(true, name, value) else g.effect(true, "metadata", Pair(name, value))
  {
    var data := Pair(name, value);
    assert data[0] == if name == "" then '=' else name[0];
    assert data[|data| - 1] == if value == "" then '=' else value[|value| - 1];
    OldText(data);
    SplitAtFirst(name, value);
  }

  /** Every element that the old syntax can say comes back from it. */
  lemma OldDirectiveIsRead(p: Script, e: Entry)
    requires Sayable(p, e) && !(e.Log? && e.severity == Error)
    requires e.Metadata? ==> !KnownToOldSyntax(e.name) && (e.name == "" || e.name[0] != ':')
    ensures LineEffect(CargoGrammar(p), Some(OldDirective(e))) == Adds(Contribution(e))
  {
    if e.Metadata? {
      OldMetadataIsRead(p, e.name, e.value);
    } else {
      OldKeyIsRead(p, e);
    }
  }

  lemma OldMetadataIsRead(p: Script, name: string, value: string)
    requires Sayable(p, Metadata(name, value)) && !KnownToOldSyntax(name) && (name == "" || name[0] != ':')
    ensures LineEffect(CargoGrammar(p), Some("cargo:" + Pair(name, value))) == Adds(Nothing.(metadata := [(name, value)]))
  {
    TrimEndOfPair(name, value);
    OldPair(CargoGrammar(p), name, value);
    ReservedExactly(name, value);
    MetadataLine(p, Pair(name, value));
    MetadataIsRead(name, value);
  }

  lemma MetadataLine(p: Script, data: string)
    requires p.relocate(data) == data
    ensures CargoGrammar(p).effect(true, "metadata", data) == MetadataEffect(data)
  {
    assert KeyOf("metadata") == Some(KMetadata);
  }

  lemma OldKeyIsRead(p: Script, e: Entry)
    requires Sayable(p, e) && !e.Metadata? && !(e.Log? && e.severity == Error)
    ensures LineEffect(CargoGrammar(p), Some("cargo:" + Pair(Spelling(KeyFor(e)), ValueFor(e)))) == Adds(Contribution(e))
  {
    var k := KeyFor(e);
    SpellingHasNoEquals(k);
    SpellingIsRead(k);
    SpellingStarts(k);
    OldPair(CargoGrammar(p), Spelling(k), ValueFor(e));
    ReservedExactly(Spelling(k), ValueFor(e));
    RelocatedIsRead(p, true, Spelling(k), k, ValueFor(e));
    ValueIsRead(p, e, true, Spelling(k));
  }

  lemma SpellingStarts(key: Key)
    ensures Spelling(key) == "" || Spelling(key)[0] != ':'
  {}

  // ----- What no output can set -----

  /** The argument is for everything, for cdylibs, or for a kind of target the package has. */
  predicate HasItsTarget(p: Script, to: LinkArgTarget) {
    match to
    case All => true
    case ForCdylib => true
    case ForBin => exists t | t in p.targets :: t.kind == BinTarget
    case SingleBin(name) => exists t | t in p.targets :: t.kind == BinTarget && t.name == name
    case ForTest => exists t | t in p.targets :: t.kind == TestTarget
    case ForBench => exists t | t in p.targets :: t.kind == BenchTarget
    case ForExample => exists t | t in p.targets :: t.kind.ExampleBin? || t.kind.ExampleLib?
  }

  /** The channel is not switched, and no argument is for a target the package does not have. */
  ghost predicate Allowed(p: Script, o: BuildOutput) {
    && (forall i | 0 <= i < |o.env| :: o.env[i].0 != "RUSTC_BOOTSTRAP")
    && forall i | 0 <= i < |o.linkerArgs| :: HasItsTarget(p, o.linkerArgs[i].0)
  }

  lemma KeyIsAllowed(p: Script, isOld: bool, name: string, key: Key, value: string)
    requires KeyEffect(p, isOld, name, key, value).Adds?
    ensures Allowed(p, KeyEffect(p, isOld, name, key, value).output)
  {}

  lemma LineIsAllowed(p: Script, line: Option<string>)
    requires LineEffect(CargoGrammar(p), line).Adds?
    ensures Allowed(p, LineEffect(CargoGrammar(p), line).output)
  {
    forall isOld, name, value | DirectiveEffect(p, isOld, name, value).Adds? ensures Allowed(p, DirectiveEffect(p, isOld, name, value).output) {
      KeyIsAllowed(p, isOld, name, KeyOf(name).value, p.relocate(value));
    }
  }

  lemma {:induction false} SumIsAllowed(p: Script, effects: seq<Effect>)
    requires (forall i | 0 <= i < |effects| && effects[i].Adds? :: Allowed(p, effects[i].output)) && Sum(effects).Parsed?
    ensures Allowed(p, Sum(effects).output)
  {
    if effects != [] {
      SumIsAllowed(p, effects[..|effects| - 1]);
    }
  }

  /** Whatever a script prints, the result never sets `RUSTC_BOOTSTRAP` and never has an argument for a target
      that is not there. */
  lemma OutputIsAllowed(p: Script, lines: seq<Option<string>>)
    requires Parse(CargoGrammar(p), lines).Parsed?
    ensures Allowed(p, Parse(CargoGrammar(p), lines).output)
  {
    var effects := Effects(CargoGrammar(p), lines);
    forall i | 0 <= i < |effects| && effects[i].Adds? ensures Allowed(p, effects[i].output) {
      LineIsAllowed(p, lines[i]);
    }
    SumIsAllowed(p, effects);
  }

  // ----- Flags -----

  /** The `rustc-flags` directive adds the paths and libraries of the flags it renders, each in order. */
  lemma FlagsAreRead(p: Script, value: string, flags: seq<Flag>)
    requires Denotes(Words(Trim(value)), flags)
    ensures FlagsEffect(p, value).Adds?
    ensures var o := FlagsEffect(p, value).output;
      && o == Nothing.(libraryPaths := o.libraryPaths, libraryLinks := Select(flags, true))
      && |o.libraryPaths| == |Select(flags, false)|
      && forall i | 0 <= i < |o.libraryPaths| ::
           o.libraryPaths[i].path == Select(flags, false)[i] && (o.libraryPaths[i].CargoArtifact? <==> p.inOutDir(Select(flags, false)[i]))
  {
    var words := Words(Trim(value));
    assert forall i | 0 <= i < |words| :: words[i] in words;
    ReadMeaning(words);
  }

  /** And it is refused exactly if it renders none. */
  lemma FlagsRefused(p: Script, value: string)
    ensures FlagsEffect(p, value).Refused? <==> !WellFormed(Words(Trim(value)))
  {
    var words := Words(Trim(value));
    assert forall i | 0 <= i < |words| :: words[i] in words;
    ReadMeaning(words);
  }

  // ----- What is refused, and what is said about it -----

  ghost predicate Splits(s: string, name: string, value: string) {
    '=' !in name && s == name + "=" + value
  }

  lemma {:induction false} SplitExactly(s: string)
    ensures SplitOnce(s).None? <==> '=' !in s
    ensures SplitOnce(s).Some? ==> Splits(s, SplitOnce(s).value.0, SplitOnce(s).value.1)
  {
    if s != "" && s[0] != '=' {
      SplitExactly(s[1..]);
      assert s == [s[0]] + s[1..];
    }
  }

  lemma SplitsOnce(s: string, name: string, value: string)
    requires Splits(s, name, value)
    ensures SplitOnce(s) == Some((name, value))
  {
    SplitAtFirst(name, value);
  }

  predicate HasKind(p: Script, kind: TargetKind) {
    exists t | t in p.targets :: t.kind == kind
  }

  predicate HasBinary(p: Script, name: string) {
    exists t | t in p.targets :: t.kind == BinTarget && t.name == name
  }

  predicate SetsChannel(key: Key, value: string) {
    key == KEnv && "RUSTC_BOOTSTRAP=" <= value
  }

  /** The directive cannot be taken, and why. */
  ghost predicate Refuses(p: Script, key: Key, value: string, why: Refusal) {
    match why
    case NoSuchTarget =>
      || (key == KLinkArgBins && !HasKind(p, BinTarget))
      || (key == KLinkArgTests && !HasKind(p, TestTarget))
      || (key == KLinkArgBenches && !HasKind(p, BenchTarget))
      || (key == KLinkArgExamples && forall t | t in p.targets :: !t.kind.ExampleBin? && !t.kind.ExampleLib?)
    case NoSuchBin => key == KLinkArgBin && exists bin, arg :: Splits(value, bin, arg) && !HasBinary(p, bin)
    case BinArgForm => key == KLinkArgBin && '=' !in value
    case EnvForm => key == KEnv && '=' !in value
    case NoEqualsSign => key == KMetadata && '=' !in value
    case BootstrapForbidden => SetsChannel(key, value) && !p.bootstrapAllowed
    case BadRustcFlags => key == KRustcFlags && !WellFormed(Words(Trim(value)))
    case SyntaxTooNew => false
    case UnknownKey => false
  }

  lemma ChannelExactly(value: string)
    ensures "RUSTC_BOOTSTRAP=" <= value <==> SplitOnce(value).Some? && SplitOnce(value).value.0 == Bootstrap
    ensures "RUSTC_BOOTSTRAP=" <= value ==> SplitOnce(value).value.1 == value[16..]
  {
    SplitExactly(value);
    assert Bootstrap + "=" == "RUSTC_BOOTSTRAP=" && |Bootstrap| == 15;
    if "RUSTC_BOOTSTRAP=" <= value {
      assert value == Bootstrap + "=" + value[16..];
      SplitsOnce(value, Bootstrap, value[16..]);
    }
  }

  lemma NoSuchBinExactly(p: Script, value: string)
    ensures BinArgEffect(p, value) == Refused(NoSuchBin) <==> Refuses(p, KLinkArgBin, value, NoSuchBin)
  {
    SplitExactly(value);
    if bin, arg :| Splits(value, bin, arg) && !HasBinary(p, bin) {
      SplitsOnce(value, bin, arg);
    }
  }

  lemma NoTargetExactly(p: Script, isOld: bool, name: string, key: Key, value: string)
    ensures KeyEffect(p, isOld, name, key, value) == Refused(NoSuchTarget) <==> Refuses(p, key, value, NoSuchTarget)
  {}

  lemma BinRefusedExactly(p: Script, value: string, why: Refusal)
    ensures BinArgEffect(p, value) == Refused(why) <==> Refuses(p, KLinkArgBin, value, why)
  {
    SplitExactly(value);
    NoSuchBinExactly(p, value);
  }

  lemma EnvRefusedExactly(p: Script, value: string, why: Refusal)
    ensures EnvEffect(p, value) == Refused(why) <==> Refuses(p, KEnv, value, why)
  {
    SplitExactly(value);
    ChannelExactly(value);
  }

  lemma MetadataRefusedExactly(p: Script, value: string, why: Refusal)
    ensures MetadataEffect(value) == Refused(why) <==> Refuses(p, KMetadata, value, why)
  {
    SplitExactly(value);
  }

  /** A known directive is refused exactly for these reasons. */
  lemma RefusedExactly(p: Script, isOld: bool, name: string, key: Key, value: string, why: Refusal)
    ensures KeyEffect(p, isOld, name, key, value) == Refused(why) <==> Refuses(p, key, value, why)
  {
    match key
    case KRustcFlags => FlagsRefused(p, value);
    case KLinkArgBin => BinRefusedExactly(p, value, why);
    case KEnv => EnvRefusedExactly(p, value, why);
    case KMetadata => MetadataRefusedExactly(p, value, why);
    case _ =>
      if why == NoSuchTarget {
        NoTargetExactly(p, isOld, name, key, value);
      }
  }

  /** An unknown one always is; */
  lemma UnknownExactly(p: Script, isOld: bool, name: string, value: string)
    ensures DirectiveEffect(p, isOld, name, value) == Refused(UnknownKey) <==>
      name != "rustc-cdylib-link-arg" && forall key :: name != Spelling(key)
  {
    if KeyOf(name).Some? {
      RefusedExactly(p, isOld, name, KeyOf(name).value, p.relocate(value), UnknownKey);
    }
    forall key ensures KeyOf(name) == Some(key) <==> name == Spelling(key) || (name == "rustc-cdylib-link-arg" && key == KLinkArgCdylib) {
      KeysExactly(name, key);
    }
  }

  /** and so is the new syntax, whatever it says, where the package allows a Rust older than 1.77 or of another major version. */
  lemma NewSyntaxExactly(p: Script, line: string)
    ensures LineEffect(CargoGrammar(p), Some(line)) == Refused(SyntaxTooNew) <==>
      "cargo::" <= Trim(line) && p.msrv.Some? && (p.msrv.value.0 != 1 || p.msrv.value.1 < 77)
  {
    forall isOld, name, value ensures DirectiveEffect(p, isOld, name, value) != Refused(SyntaxTooNew) {
      KeyIsNotTooNew(p, isOld, name, value);
    }
  }

  lemma KeyIsNotTooNew(p: Script, isOld: bool, name: string, value: string)
    ensures DirectiveEffect(p, isOld, name, value) != Refused(SyntaxTooNew)
  {
    if KeyOf(name).Some? {
      RefusedExactly(p, isOld, name, KeyOf(name).value, p.relocate(value), SyntaxTooNew);
    }
  }

  /** What is said to the user: what the script asks to be said, an argument for cdylibs where there is none, and an
      attempt to set the channel that is let pass. */
  lemma MessagesExactly(p: Script, isOld: bool, name: string, key: Key, value: string)
    requires KeyEffect(p, isOld, name, key, value).Adds?
    ensures KeyEffect(p, isOld, name, key, value).output.messages ==
      if key == KError then [Said(Error, value)]
      else if key == KWarning then [Said(Warning, value)]
      else if SetsChannel(key, value) then [BootstrapIgnored(value[16..])]
      else if key == KLinkArgCdylib && (forall t | t in p.targets && t.kind.LibTarget? :: Cdylib !in t.kind.crateTypes)
      then [NoCdylib(isOld, name)] else []
  {
    SplitExactly(value);
    ChannelExactly(value);
  }
}
