/** The linker arguments a compilation takes from build scripts (`src/compiler/mod.rs`,
    `add_native_deps`), once the scripts to link are known and have run. */
module NativeDeps {
  import opened Units
  import opened Sorting
  import opened BuildScriptMap
  import opened DirectiveLines
  import Directives

  datatype Arg = SearchIn(path: string) | LinkWith(name: string) | PassToLinker(arg: string)

  /** The compilation the arguments are for. */
  datatype Compilation = Compilation(pkg: PackageId, target: Target, mode: CompileMode, passLFlag: bool)

  predicate AppliesTo(to: LinkArgTarget, c: Compilation) {
    match to
    case All => true
    case ForCdylib => !c.mode.IsAnyTest() && Directives.IsCdylib(c.target)
    case ForBin => c.target.IsBin()
    case SingleBin(name) => c.target.IsBin() && c.target.name == name
    case ForTest => c.target.IsTest()
    case ForBench => c.target.IsBench()
    case ForExample => c.target.kind.ExampleBin?
  }

  /** Paths inside Cargo's own output directories come first. */
  function Class(path: LibraryPath): nat {
    if path.CargoArtifact? then 0 else 1
  }

  // ----- What the arguments are -----

  function AllPaths(outputs: Outputs, toLink: seq<ScriptKey>): seq<LibraryPath>
    requires forall k | k in toLink :: k.1 in outputs
  {
    if toLink == [] then []
    else AllPaths(outputs, toLink[..|toLink| - 1]) + outputs[toLink[|toLink| - 1].1].libraryPaths
  }

  function Searches(paths: seq<LibraryPath>): seq<Arg> {
    if paths == [] then [] else Searches(paths[..|paths| - 1]) + [SearchIn(paths[|paths| - 1].path)]
  }

  function Links(names: seq<string>): seq<Arg> {
    if names == [] then [] else Links(names[..|names| - 1]) + [LinkWith(names[|names| - 1])]
  }

  /** Of another package's script only the cdylib arguments count. */
  function Passed(args: seq<(LinkArgTarget, string)>, c: Compilation, own: bool): seq<Arg> {
    if args == [] then []
    else
      var (to, arg) := args[|args| - 1];
      Passed(args[..|args| - 1], c, own)
      + if AppliesTo(to, c) && (own || to.ForCdylib?) then [PassToLinker(arg)] else []
  }

  function OneScript(o: DirectiveLines.BuildOutput, c: Compilation, own: bool): seq<Arg> {
    (if own && c.passLFlag then Links(o.libraryLinks) else []) + Passed(o.linkerArgs, c, own)
  }

  function AllScripts(outputs: Outputs, toLink: seq<ScriptKey>, c: Compilation): seq<Arg>
    requires forall k | k in toLink :: k.1 in outputs
  {
    if toLink == [] then []
    else
      var key := toLink[|toLink| - 1];
      AllScripts(outputs, toLink[..|toLink| - 1], c) + OneScript(outputs[key.1], c, key.0 == c.pkg)
  }

  // ----- The command line -----

  /** A stable sort by two classes is the one class followed by the other. */
  lemma TwoClasses(s: seq<LibraryPath>)
    ensures SortBy(s, Class) == WithKey(s, Class, 0) + WithKey(s, Class, 1)
  {
    SortIsStable(s, Class);
    Split(SortBy(s, Class));
  }

  lemma {:induction false} Split(s: seq<LibraryPath>)
    requires Ascending(s, Class)
    ensures s == WithKey(s, Class, 0) + WithKey(s, Class, 1)
  {
    if s != [] {
      var init, last := s[..|s| - 1], s[|s| - 1];
      Split(init);
      assert s == init + [last];
      if Class(last) == 0 {
        NoneOfClass(init);
      }
    }
  }

  lemma {:induction false} NoneOfClass(s: seq<LibraryPath>)
    requires forall i | 0 <= i < |s| :: Class(s[i]) == 0
    ensures WithKey(s, Class, 1) == []
  {
    if s != [] {
      NoneOfClass(s[..|s| - 1]);
    }
  }

  lemma {:induction false} SearchesConcat(a: seq<LibraryPath>, b: seq<LibraryPath>)
    ensures Searches(a + b) == Searches(a) + Searches(b)
  {
    if b == [] {
      assert a + b == a;
    } else {
      assert (a + b)[..|a + b| - 1] == a + b[..|b| - 1];
      SearchesConcat(a, b[..|b| - 1]);
    }
  }

  method ScriptArgs(o: DirectiveLines.BuildOutput, c: Compilation, own: bool) returns (args: seq<Arg>)
    ensures args == OneScript(o, c, own)
  {
    args := [];
    if own && c.passLFlag {
      for i := 0 to |o.libraryLinks|
        invariant args == Links(o.libraryLinks[..i])
      {
        assert o.libraryLinks[..i + 1][..i] == o.libraryLinks[..i];
        args := args + [LinkWith(o.libraryLinks[i])];
      }
      assert o.libraryLinks[..|o.libraryLinks|] == o.libraryLinks;
    }
    ghost var links := args;
    for i := 0 to |o.linkerArgs|
      invariant args == links + Passed(o.linkerArgs[..i], c, own)
    {
      assert o.linkerArgs[..i + 1][..i] == o.linkerArgs[..i];
      var (to, arg) := o.linkerArgs[i];
      if AppliesTo(to, c) && (own || to.ForCdylib?) {
        args := args + [PassToLinker(arg)];
      }
    }
    assert o.linkerArgs[..|o.linkerArgs|] == o.linkerArgs;
  }

  method CollectPaths(outputs: Outputs, toLink: seq<ScriptKey>) returns (r: Option<seq<LibraryPath>>)
    ensures r.Some? <==> forall k | k in toLink :: k.1 in outputs
    ensures r.Some? ==> r.value == AllPaths(outputs, toLink)
  {
    var paths: seq<LibraryPath> := [];
    for i := 0 to |toLink|
      invariant forall k | k in toLink[..i] :: k.1 in outputs
      invariant paths == AllPaths(outputs, toLink[..i])
    {
      assert toLink[i] in toLink;
      if toLink[i].1 !in outputs {
        return None;
      }
      assert toLink[..i + 1][..i] == toLink[..i];
      paths := paths + outputs[toLink[i].1].libraryPaths;
    }
    assert toLink[..|toLink|] == toLink;
    r := Some(paths);
  }

  method SearchArgs(unsorted: seq<LibraryPath>) returns (args: seq<Arg>)
    ensures args == Searches(WithKey(unsorted, Class, 0)) + Searches(WithKey(unsorted, Class, 1))
  {
    var paths := SortBy(unsorted, Class);
    args := [];
    for i := 0 to |paths|
      invariant args == Searches(paths[..i])
    {
      assert paths[..i + 1][..i] == paths[..i];
      args := args + [SearchIn(paths[i].path)];
    }
    assert paths[..|paths|] == paths;
    TwoClasses(unsorted);
    SearchesConcat(WithKey(unsorted, Class, 0), WithKey(unsorted, Class, 1));
  }

  method LinkArgs(outputs: Outputs, toLink: seq<ScriptKey>, c: Compilation) returns (args: seq<Arg>)
    requires forall k | k in toLink :: k.1 in outputs
    ensures args == AllScripts(outputs, toLink, c)
  {
    args := [];
    for i := 0 to |toLink|
      invariant args == AllScripts(outputs, toLink[..i], c)
    {
      assert toLink[..i + 1][..i] == toLink[..i];
      var more := ScriptArgs(outputs[toLink[i].1], c, toLink[i].0 == c.pkg);
      args := args + more;
    }
    assert toLink[..|toLink|] == toLink;
  }

  /** Search paths inside the build directory precede all others, each kind in linking order; then
      each script in linking order says what to link. An output that is missing is an error. */
  method AddNativeDeps(outputs: Outputs, toLink: seq<ScriptKey>, c: Compilation)
    returns (r: Option<seq<Arg>>)
    ensures r.Some? <==> forall k | k in toLink :: k.1 in outputs
    ensures r.Some? ==>
      var paths := AllPaths(outputs, toLink);
      r.value == Searches(WithKey(paths, Class, 0)) + Searches(WithKey(paths, Class, 1))
               + AllScripts(outputs, toLink, c)
  {
    var collected := CollectPaths(outputs, toLink);
    if collected.None? {
      return None;
    }
    var searches := SearchArgs(collected.value);
    var links := LinkArgs(outputs, toLink, c);
    r := Some(searches + links);
  }

  // ----- Which arguments a compilation gets -----

  /** An argument meant for a kind of target reaches targets of that kind, and cdylib arguments no tests. */
  ghost predicate Reaches(to: LinkArgTarget, c: Compilation) {
    || to == All
    || (to == ForBin && c.target.kind == BinTarget)
    || (to == SingleBin(c.target.name) && c.target.kind == BinTarget)
    || (to == ForTest && c.target.kind == TestTarget)
    || (to == ForBench && c.target.kind == BenchTarget)
    || (to == ForExample && c.target.kind == ExampleBin)
    || (to == ForCdylib && c.target.kind.LibTarget? && Cdylib in c.target.kind.crateTypes
        && c.mode != Test && c.mode != Doctest && c.mode != Check(true))
  }

  lemma AppliesExactly(to: LinkArgTarget, c: Compilation)
    ensures AppliesTo(to, c) <==> Reaches(to, c)
  {}

  lemma {:induction false} PassedExactly(args: seq<(LinkArgTarget, string)>, c: Compilation, own: bool, x: Arg)
    ensures x in Passed(args, c, own) <==>
      exists i | 0 <= i < |args| :: x == PassToLinker(args[i].1) && Reaches(args[i].0, c) && (own || args[i].0 == ForCdylib)
  {
    if args != [] {
      var n := |args| - 1;
      PassedExactly(args[..n], c, own, x);
      AppliesExactly(args[n].0, c);
      assert forall i | 0 <= i < n :: args[..n][i] == args[i];
    }
  }

  lemma {:induction false} LinksExactly(names: seq<string>, x: Arg)
    ensures x in Links(names) <==> exists i | 0 <= i < |names| :: x == LinkWith(names[i])
  {
    if names != [] {
      var n := |names| - 1;
      LinksExactly(names[..n], x);
      assert forall i | 0 <= i < n :: names[..n][i] == names[i];
    }
  }

  /** What script `key` contributes: the libraries of the package's own script if they are to be passed, its own
      arguments that reach the target, and of other packages' scripts the cdylib arguments. */
  ghost predicate Contributes(o: DirectiveLines.BuildOutput, own: bool, c: Compilation, x: Arg) {
    || (own && c.passLFlag && exists i | 0 <= i < |o.libraryLinks| :: x == LinkWith(o.libraryLinks[i]))
    || exists i | 0 <= i < |o.linkerArgs| ::
         x == PassToLinker(o.linkerArgs[i].1) && Reaches(o.linkerArgs[i].0, c) && (own || o.linkerArgs[i].0 == ForCdylib)
  }

  lemma OneScriptExactly(o: DirectiveLines.BuildOutput, c: Compilation, own: bool, x: Arg)
    ensures x in OneScript(o, c, own) <==> Contributes(o, own, c, x)
  {
    LinksExactly(o.libraryLinks, x);
    PassedExactly(o.linkerArgs, c, own, x);
  }

  lemma {:induction false} ArgumentsExactly(outputs: Outputs, toLink: seq<ScriptKey>, c: Compilation, x: Arg)
    requires forall k | k in toLink :: k.1 in outputs
    ensures x in AllScripts(outputs, toLink, c) <==> exists k | k in toLink :: Contributes(outputs[k.1], k.0 == c.pkg, c, x)
  {
    if toLink != [] {
      var init, last := toLink[..|toLink| - 1], toLink[|toLink| - 1];
      assert toLink == init + [last];
      ArgumentsExactly(outputs, init, c, x);
      OneScriptExactly(outputs[last.1], c, last.0 == c.pkg, x);
    }
  }

  lemma {:induction false} SearchesExactly(paths: seq<LibraryPath>, x: Arg)
    ensures x in Searches(paths) <==> exists p | p in paths :: x == SearchIn(p.path)
  {
    if paths != [] {
      SearchesExactly(paths[..|paths| - 1], x);
      assert paths == paths[..|paths| - 1] + [paths[|paths| - 1]];
    }
  }

  lemma {:induction false} PathsExactly(outputs: Outputs, toLink: seq<ScriptKey>, p: LibraryPath)
    requires forall k | k in toLink :: k.1 in outputs
    ensures p in AllPaths(outputs, toLink) <==> exists k | k in toLink :: p in outputs[k.1].libraryPaths
  {
    if toLink != [] {
      var init, last := toLink[..|toLink| - 1], toLink[|toLink| - 1];
      assert toLink == init + [last];
      PathsExactly(outputs, init, p);
    }
  }

  lemma ClassExactly(paths: seq<LibraryPath>, p: LibraryPath)
    ensures p in WithKey(paths, Class, 0) <==> p in paths && p.CargoArtifact?
    ensures p in WithKey(paths, Class, 1) <==> p in paths && p.External?
  {
    MemberHasKey(paths, Class, p);
    ClassOfMember(paths, p, 0);
    ClassOfMember(paths, p, 1);
  }

  lemma {:induction false} ClassOfMember(paths: seq<LibraryPath>, p: LibraryPath, k: nat)
    ensures p in WithKey(paths, Class, k) ==> Class(p) == k
  {
    if paths != [] {
      ClassOfMember(paths[..|paths| - 1], p, k);
    }
  }

  /** The whole command line: search paths of the linked scripts, those inside the build directory all in front, then what each
      linked script contributes. */
  lemma CommandLineExactly(outputs: Outputs, toLink: seq<ScriptKey>, c: Compilation, inside: seq<Arg>, outside: seq<Arg>, x: Arg)
    requires forall k | k in toLink :: k.1 in outputs
    requires inside == Searches(WithKey(AllPaths(outputs, toLink), Class, 0)) && outside == Searches(WithKey(AllPaths(outputs, toLink), Class, 1))
    ensures x in inside <==> exists k, p | k in toLink && p in outputs[k.1].libraryPaths :: p.CargoArtifact? && x == SearchIn(p.path)
    ensures x in outside <==> exists k, p | k in toLink && p in outputs[k.1].libraryPaths :: p.External? && x == SearchIn(p.path)
  {
    var paths := AllPaths(outputs, toLink);
    SearchesExactly(WithKey(paths, Class, 0), x);
    SearchesExactly(WithKey(paths, Class, 1), x);
    forall p ensures p in paths <==> exists k | k in toLink :: p in outputs[k.1].libraryPaths {
      PathsExactly(outputs, toLink, p);
    }
    forall p ensures (p in WithKey(paths, Class, 0) <==> p in paths && p.CargoArtifact?) && (p in WithKey(paths, Class, 1) <==> p in paths && p.External?) {
      ClassExactly(paths, p);
    }
  }
}
