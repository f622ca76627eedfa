/** Reading what a build script prints line by line (`src/compiler/custom_build.rs`,
    `BuildOutput::parse`), and rewriting the `cargo:` syntax into the `cargo::` syntax. */
module DirectiveLines {
  import opened Units
  import opened RustcFlags

  // ----- Results -----

  datatype LibraryPath = CargoArtifact(path: string) | External(path: string)

  datatype LinkArgTarget = All | ForCdylib | ForBin | SingleBin(name: string) | ForTest | ForBench | ForExample

  datatype Severity = Error | Warning

  /** `NoCdylib` is worded with the syntax the script used. */
  datatype Message =
    | Said(severity: Severity, text: string)
    | NoCdylib(oldSyntax: bool, key: string)
    | BootstrapIgnored(value: string)

  datatype BuildOutput = BuildOutput(
    libraryPaths: seq<LibraryPath>,
    libraryLinks: seq<string>,
    linkerArgs: seq<(LinkArgTarget, string)>,
    cfgs: seq<string>,
    checkCfgs: seq<string>,
    env: seq<(string, string)>,
    metadata: seq<(string, string)>,
    rerunIfChanged: seq<string>,
    rerunIfEnvChanged: seq<string>,
    messages: seq<Message>)

  const Nothing := BuildOutput([], [], [], [], [], [], [], [], [], [])

  function Append(a: BuildOutput, b: BuildOutput): BuildOutput {
    BuildOutput(
      a.libraryPaths + b.libraryPaths, a.libraryLinks + b.libraryLinks, a.linkerArgs + b.linkerArgs,
      a.cfgs + b.cfgs, a.checkCfgs + b.checkCfgs, a.env + b.env, a.metadata + b.metadata,
      a.rerunIfChanged + b.rerunIfChanged, a.rerunIfEnvChanged + b.rerunIfEnvChanged,
      a.messages + b.messages)
  }

  /** Why a line is refused, without the wording. */
  datatype Refusal =
    | SyntaxTooNew | NoEqualsSign | NoSuchTarget | BinArgForm | NoSuchBin | BadRustcFlags | EnvForm
    | BootstrapForbidden | UnknownKey

  datatype Effect = Adds(output: BuildOutput) | Refused(why: Refusal)

  /** `line` counts from the top of the output. */
  datatype Result = Parsed(output: BuildOutput) | Failed(line: nat, why: Refusal)

  // ----- Lines -----

  /** What lines mean apart from their form: whether the new syntax may be used, which old
      directives are not metadata, and what a key and a value add. */
  datatype Grammar = Grammar(
    newOk: bool,
    reserved: string -> bool,
    effect: (bool, string, string) -> Effect)

  datatype Syntax = Plain | OldStyle(data: string) | NewStyle(data: string)

  function Classify(line: string): Syntax {
    var text := Trim(line);
    if "cargo::" <= text then NewStyle(text[7..])
    else if "cargo:" <= text then OldStyle(text[6..])
    else Plain
  }

  function KeyValue(g: Grammar, oldSyntax: bool, data: string): Effect {
    match SplitOnce(data)
    case None => Refused(NoEqualsSign)
    case Some((key, value)) => g.effect(oldSyntax, key, TrimEnd(value))
  }

  /** A line that is not UTF-8 is skipped. */
  function LineEffect(g: Grammar, line: Option<string>): Effect {
    if line.None? then Adds(Nothing)
    else match Classify(line.value)
      case Plain => Adds(Nothing)
      case NewStyle(data) => if g.newOk then KeyValue(g, false, data) else Refused(SyntaxTooNew)
      case OldStyle(data) => if g.reserved(data) then KeyValue(g, true, data) else g.effect(true, "metadata", data)
  }

  function Then(r: Result, line: nat, e: Effect): Result {
    if r.Failed? then r
    else match e
      case Refused(why) => Failed(line, why)
      case Adds(more) => Parsed(Append(r.output, more))
  }

  /** The effects in order, up to the first refusal. */
  function Sum(effects: seq<Effect>): Result {
    if effects == [] then Parsed(Nothing)
    else Then(Sum(effects[..|effects| - 1]), |effects| - 1, effects[|effects| - 1])
  }

  function Effects(g: Grammar, lines: seq<Option<string>>): (r: seq<Effect>)
    ensures |r| == |lines| && forall i | 0 <= i < |r| :: r[i] == LineEffect(g, lines[i])
  {
    if lines == [] then []
    else Effects(g, lines[..|lines| - 1]) + [LineEffect(g, lines[|lines| - 1])]
  }

  function Parse(g: Grammar, lines: seq<Option<string>>): Result {
    Sum(Effects(g, lines))
  }

  // ----- Rewriting -----

  function Rewrite(g: Grammar, line: Option<string>): Option<string> {
    if line.None? then None
    else match Classify(line.value)
      case OldStyle(data) => Some("cargo::" + if g.reserved(data) then data else "metadata=" + data)
      case _ => line
  }

  function RewriteAll(g: Grammar, lines: seq<Option<string>>): (r: seq<Option<string>>)
    ensures |r| == |lines| && forall i | 0 <= i < |r| :: r[i] == Rewrite(g, lines[i])
  {
    if lines == [] then []
    else RewriteAll(g, lines[..|lines| - 1]) + [Rewrite(g, lines[|lines| - 1])]
  }

  /** Message text aside. */
  function EraseMessage(m: Message): Message {
    if m.NoCdylib? then m.(oldSyntax := false) else m
  }

  function EraseMessages(ms: seq<Message>): seq<Message> {
    if ms == [] then [] else EraseMessages(ms[..|ms| - 1]) + [EraseMessage(ms[|ms| - 1])]
  }

  function Erase(o: BuildOutput): BuildOutput {
    o.(messages := EraseMessages(o.messages))
  }

  predicate SameEffect(a: Effect, b: Effect) {
    match (a, b)
    case (Adds(x), Adds(y)) => Erase(x) == Erase(y)
    case (Refused(v), Refused(w)) => v == w
    case _ => false
  }

  /** The same lists, or the same reason at the same line. */
  predicate SameResult(a: Result, b: Result) {
    match (a, b)
    case (Parsed(x), Parsed(y)) => Erase(x) == Erase(y)
    case (Failed(i, v), Failed(j, w)) => i == j && v == w
    case _ => false
  }

  /** The key and the value decide what is added, not the syntax they came in. */
  ghost predicate SyntaxBlind(g: Grammar) {
    && (forall key, value :: SameEffect(g.effect(true, key, value), g.effect(false, key, value)))
    && (forall isOld, key, value :: g.effect(isOld, key, value) != Refused(SyntaxTooNew))
  }

  // ----- One line -----

  lemma {:induction false} TrimFixed(s: string)
    requires s != "" && !IsSpace(s[0]) && !IsSpace(s[|s| - 1])
    ensures Trim(s) == s
  {
  }

  lemma OldStyleData(line: string, data: string)
    requires Classify(line) == OldStyle(data)
    ensures TrimEnd(data) == data
    ensures Trim("cargo::" + data) == "cargo::" + data
    ensures Trim("cargo::" + ("metadata=" + data)) == "cargo::" + ("metadata=" + data)
  {
    var text := Trim(line);
    assert data == text[6..];
    if data != "" {
      assert data[|data| - 1] == text[|text| - 1];
    }
    TrimFixed("cargo::" + data);
    TrimFixed("cargo::" + ("metadata=" + data));
  }

  lemma RewrittenStyle(g: Grammar, line: string, data: string)
    requires Classify(line) == OldStyle(data)
    ensures Classify(Rewrite(g, Some(line)).value) == NewStyle(if g.reserved(data) then data else "metadata=" + data)
  {
    OldStyleData(line, data);
    NewStyleText(if g.reserved(data) then data else "metadata=" + data);
  }

  lemma NewStyleText(more: string)
    requires Trim("cargo::" + more) == "cargo::" + more
    ensures Classify("cargo::" + more) == NewStyle(more)
  {
    var text := "cargo::" + more;
    assert text[..7] == "cargo::" && text[7..] == more;
  }

  lemma MetadataForm(g: Grammar, data: string)
    requires TrimEnd(data) == data
    ensures KeyValue(g, false, "metadata=" + data) == g.effect(false, "metadata", data)
  {
    assert "metadata=" + data == "metadata" + "=" + data;
    SplitAtFirst("metadata", data);
  }

  lemma SameReflexive(e: Effect)
    ensures SameEffect(e, e)
  {
  }

  /** The effect of a rewritten line, in terms of the old one's data. */
  lemma RewrittenEffect(g: Grammar, line: string, data: string)
    requires g.newOk && Classify(line) == OldStyle(data)
    ensures LineEffect(g, Rewrite(g, Some(line)))
         == if g.reserved(data) then KeyValue(g, false, data) else g.effect(false, "metadata", data)
  {
    RewrittenStyle(g, line, data);
    OldStyleData(line, data);
    MetadataForm(g, data);
  }

  lemma RewriteLine(g: Grammar, line: Option<string>)
    requires SyntaxBlind(g) && g.newOk
    ensures SameEffect(LineEffect(g, line), LineEffect(g, Rewrite(g, line)))
  {
    if line.Some? && Classify(line.value).OldStyle? {
      var data := Classify(line.value).data;
      RewrittenEffect(g, line.value, data);
      RewriteOldLine(g, data);
    } else {
      SameReflexive(LineEffect(g, line));
    }
  }

  lemma RewriteOldLine(g: Grammar, data: string)
    requires SyntaxBlind(g)
    ensures SameEffect(KeyValue(g, true, data), KeyValue(g, false, data))
    ensures SameEffect(g.effect(true, "metadata", data), g.effect(false, "metadata", data))
  {
  }

  // ----- Whole outputs -----

  lemma {:induction false} EraseConcat(a: seq<Message>, b: seq<Message>)
    ensures EraseMessages(a + b) == EraseMessages(a) + EraseMessages(b)
  {
    if b == [] {
      assert a + b == a;
    } else {
      assert (a + b)[..|a + b| - 1] == a + b[..|b| - 1];
      EraseConcat(a, b[..|b| - 1]);
    }
  }

  lemma EraseAppend(a: BuildOutput, b: BuildOutput)
    ensures Erase(Append(a, b)) == Append(Erase(a), Erase(b))
  {
    EraseConcat(a.messages, b.messages);
  }

  lemma SameThen(r: Result, r': Result, line: nat, e: Effect, e': Effect)
    requires SameResult(r, r') && SameEffect(e, e')
    ensures SameResult(Then(r, line, e), Then(r', line, e'))
  {
    if r.Parsed? && e.Adds? {
      EraseAppend(r.output, e.output);
      EraseAppend(r'.output, e'.output);
    }
  }

  lemma {:induction false} SameSums(a: seq<Effect>, b: seq<Effect>)
    requires |a| == |b| && forall i | 0 <= i < |a| :: SameEffect(a[i], b[i])
    ensures SameResult(Sum(a), Sum(b))
  {
    if a != [] {
      var n := |a| - 1;
      SameSums(a[..n], b[..n]);
      SameThen(Sum(a[..n]), Sum(b[..n]), n, a[n], b[n]);
    }
  }

  lemma RewriteUnderNew(g: Grammar, lines: seq<Option<string>>)
    requires SyntaxBlind(g) && g.newOk
    ensures SameResult(Parse(g, lines), Parse(g, RewriteAll(g, lines)))
  {
    var a, b := Effects(g, lines), Effects(g, RewriteAll(g, lines));
    forall i | 0 <= i < |a| ensures SameEffect(a[i], b[i]) {
      RewriteLine(g, lines[i]);
    }
    SameSums(a, b);
  }

  /** The first effect that is refused decides. */
  lemma {:induction false} FirstRefusal(effects: seq<Effect>, i: nat)
    requires i < |effects| && effects[i].Refused?
    requires forall j | 0 <= j < i :: effects[j].Adds?
    ensures Sum(effects) == Failed(i, effects[i].why)
  {
    var n := |effects| - 1;
    if i < n {
      FirstRefusal(effects[..n], i);
    } else {
      AllAccepted(effects[..n]);
    }
  }

  lemma {:induction false} AllAccepted(effects: seq<Effect>)
    ensures Sum(effects).Parsed? <==> forall j | 0 <= j < |effects| :: effects[j].Adds?
  {
    if effects != [] {
      var n := |effects| - 1;
      AllAccepted(effects[..n]);
      assert forall j | 0 <= j < n :: effects[..n][j] == effects[j];
    }
  }

  lemma {:induction false} FailureIsRefusal(effects: seq<Effect>)
    requires Sum(effects).Failed?
    ensures Sum(effects).line < |effects| && effects[Sum(effects).line] == Refused(Sum(effects).why)
  {
    var n := |effects| - 1;
    if Sum(effects[..n]).Failed? {
      FailureIsRefusal(effects[..n]);
    }
  }

  predicate IsOld(line: Option<string>) {
    line.Some? && Classify(line.value).OldStyle?
  }

  predicate IsNew(line: Option<string>) {
    line.Some? && Classify(line.value).NewStyle?
  }

  /** The first directive of all is in the old syntax. */
  predicate OldFirst(lines: seq<Option<string>>) {
    lines != [] && (IsOld(lines[0]) || (!IsNew(lines[0]) && OldFirst(lines[1..])))
  }

  ghost predicate FirstDirectiveAt(lines: seq<Option<string>>, i: nat) {
    && i < |lines|
    && (IsOld(lines[i]) || IsNew(lines[i]))
    && forall j | 0 <= j < i :: !IsOld(lines[j]) && !IsNew(lines[j])
  }

  ghost predicate NoDirective(lines: seq<Option<string>>) {
    forall j | 0 <= j < |lines| :: !IsOld(lines[j]) && !IsNew(lines[j])
  }

  lemma {:induction false} FindFirst(lines: seq<Option<string>>) returns (i: nat)
    ensures (NoDirective(lines) && !OldFirst(lines))
         || (FirstDirectiveAt(lines, i) && (OldFirst(lines) <==> IsOld(lines[i])))
  {
    i := 0;
    if lines != [] && !IsOld(lines[0]) && !IsNew(lines[0]) {
      var k := FindFirst(lines[1..]);
      i := k + 1;
      assert lines == [lines[0]] + lines[1..];
    }
  }

  lemma RewriteKeepsPlain(g: Grammar, line: Option<string>)
    ensures !IsOld(Rewrite(g, line))
    ensures IsNew(Rewrite(g, line)) <==> IsOld(line) || IsNew(line)
  {
    if IsOld(line) {
      RewrittenStyle(g, line.value, Classify(line.value).data);
    }
  }

  /** Where the new syntax may not be used, the first directive of the rewritten text is refused. */
  lemma RewriteUnderOld(g: Grammar, lines: seq<Option<string>>, i: nat)
    requires !g.newOk && FirstDirectiveAt(lines, i)
    ensures Parse(g, RewriteAll(g, lines)) == Failed(i, SyntaxTooNew)
  {
    var after := Effects(g, RewriteAll(g, lines));
    forall j | 0 <= j <= i ensures after[j] == if j < i then Adds(Nothing) else Refused(SyntaxTooNew) {
      RewriteKeepsPlain(g, lines[j]);
    }
    FirstRefusal(after, i);
  }

  lemma NewFirstFails(g: Grammar, lines: seq<Option<string>>, i: nat)
    requires !g.newOk && FirstDirectiveAt(lines, i) && IsNew(lines[i])
    ensures Parse(g, lines) == Failed(i, SyntaxTooNew)
  {
    var effects := Effects(g, lines);
    forall j | 0 <= j < i ensures effects[j].Adds? {
      assert !IsOld(lines[j]) && !IsNew(lines[j]);
    }
    FirstRefusal(effects, i);
  }

  lemma NothingToRewrite(g: Grammar, lines: seq<Option<string>>)
    requires NoDirective(lines)
    ensures RewriteAll(g, lines) == lines
  {
    forall j | 0 <= j < |lines| ensures Rewrite(g, lines[j]) == lines[j] {
      assert !IsOld(lines[j]);
    }
  }

  lemma SameResultReflexive(r: Result)
    ensures SameResult(r, r)
  {
  }

  lemma RewriteUnderForbidden(g: Grammar, lines: seq<Option<string>>)
    requires SyntaxBlind(g) && !g.newOk
    ensures SameResult(Parse(g, lines), Parse(g, RewriteAll(g, lines))) <==> !OldFirst(lines)
  {
    var i := FindFirst(lines);
    if NoDirective(lines) && !OldFirst(lines) {
      NothingToRewrite(g, lines);
      SameResultReflexive(Parse(g, lines));
    } else {
      RewriteUnderOld(g, lines, i);
      if IsOld(lines[i]) {
        OldLineIsNotTooNew(g, lines, i);
      } else {
        NewFirstFails(g, lines, i);
      }
    }
  }

  /** Rewriting a whole output keeps the parsed lists in order, and a failure at its line with its
      reason, exactly when the minimum Rust version permits the new syntax or the first directive
      (if any) is in the new syntax already. */
  lemma RewritePreservesParse(g: Grammar, lines: seq<Option<string>>)
    requires SyntaxBlind(g)
    ensures SameResult(Parse(g, lines), Parse(g, RewriteAll(g, lines))) <==> g.newOk || !OldFirst(lines)
  {
    if g.newOk {
      RewriteUnderNew(g, lines);
    } else {
      RewriteUnderForbidden(g, lines);
    }
  }

  lemma OldLineIsNotTooNew(g: Grammar, lines: seq<Option<string>>, i: nat)
    requires SyntaxBlind(g) && i < |lines| && IsOld(lines[i])
    ensures Parse(g, lines) != Failed(i, SyntaxTooNew)
  {
    assert LineEffect(g, lines[i]) != Refused(SyntaxTooNew);
    if Parse(g, lines) == Failed(i, SyntaxTooNew) {
      FailureIsRefusal(Effects(g, lines));
    }
  }

  /** Leaving reasons aside: rewriting never mends a failing output, and breaks a good one only by
      its old-syntax lines under a minimum version that forbids the new syntax. */
  lemma RewriteKeepsSuccess(g: Grammar, lines: seq<Option<string>>)
    requires SyntaxBlind(g)
    ensures Parse(g, RewriteAll(g, lines)).Parsed?
       <==> Parse(g, lines).Parsed? && (g.newOk || forall j | 0 <= j < |lines| :: !IsOld(lines[j]))
  {
    RewritePreservesParse(g, lines);
    if !g.newOk {
      var i := FindFirst(lines);
      if FirstDirectiveAt(lines, i) {
        RewriteUnderOld(g, lines, i);
        AllAccepted(Effects(g, lines));
        if Parse(g, lines).Parsed? {
          assert Effects(g, lines)[i].Adds?;
        }
      }
    }
  }

  // ----- Joining outputs -----

  function Join(a: Result, offset: nat, b: Result): Result {
    if a.Failed? then a
    else match b
      case Failed(i, why) => Failed(offset + i, why)
      case Parsed(o) => Parsed(Append(a.output, o))
  }

  lemma AppendAssociative(a: BuildOutput, b: BuildOutput, c: BuildOutput)
    ensures Append(Append(a, b), c) == Append(a, Append(b, c))
    ensures Append(a, Nothing) == a && Append(Nothing, a) == a
  {
  }

  lemma {:induction false} SumConcat(a: seq<Effect>, b: seq<Effect>)
    ensures Sum(a + b) == Join(Sum(a), |a|, Sum(b))
  {
    if b == [] {
      assert a + b == a;
      if Sum(a).Parsed? {
        AppendAssociative(Sum(a).output, Nothing, Nothing);
      }
    } else {
      var n := |b| - 1;
      assert (a + b)[..|a| + n] == a + b[..n];
      SumConcat(a, b[..n]);
      JoinThen(Sum(a), |a|, Sum(b[..n]), n, b[n]);
    }
  }

  lemma JoinThen(a: Result, offset: nat, b: Result, line: nat, e: Effect)
    ensures Then(Join(a, offset, b), offset + line, e) == Join(a, offset, Then(b, line, e))
  {
    if a.Parsed? && b.Parsed? && e.Adds? {
      AppendAssociative(a.output, b.output, e.output);
    }
  }

  /** Two outputs one after the other: every list is joined, and the first failure counts. */
  lemma ParseConcat(g: Grammar, a: seq<Option<string>>, b: seq<Option<string>>)
    ensures Parse(g, a + b) == Join(Parse(g, a), |a|, Parse(g, b))
  {
    assert Effects(g, a + b) == Effects(g, a) + Effects(g, b);
    SumConcat(Effects(g, a), Effects(g, b));
  }
}
