/** Reading a lock file back: the text Cargo writes determines every field of every package. */
module LockRead {
  import opened Units
  import opened LockText
  import opened LockfileWriter
  import Sorting

  // ----- A reader of lines -----

  /** Blank lines and comments say nothing. */
  predicate Significant(line: string) {
    line != "" && line[0] != '#'
  }

  function Said(lines: seq<string>): seq<string> {
    if lines == [] then []
    else Said(lines[..|lines| - 1]) + if Significant(lines[|lines| - 1]) then [lines[|lines| - 1]] else []
  }

  datatype Section = Section(header: string, lines: seq<string>)

  predicate IsHeader(line: string) {
    line != "" && line[0] == '['
  }

  /** The lines in front of the first header, then each header with the lines below it. */
  function Sections(lines: seq<string>): (r: seq<Section>)
    ensures r != []
  {
    if lines == [] then [Section("", [])]
    else
      var done, line := Sections(lines[..|lines| - 1]), lines[|lines| - 1];
      if IsHeader(line) then done + [Section(line, [])]
      else
        var last := done[|done| - 1];
        done[..|done| - 1] + [last.(lines := last.lines + [line])]
  }

  /** The value behind `key = `, on the first line that has it. */
  function FieldIn(lines: seq<string>, key: string): Option<string> {
    if lines == [] then None
    else if key + " = " <= lines[0] then Some(lines[0][|key| + 3..])
    else FieldIn(lines[1..], key)
  }

  /** The elements of an indented list, each between a blank and a comma. */
  function ListIn(lines: seq<string>): seq<string> {
    if lines == [] then []
    else
      (if |lines[0]| >= 2 && lines[0][0] == ' ' then [lines[0][1..|lines[0]| - 1]] else []) + ListIn(lines[1..])
  }

  /** A package of the graph has a dependency list unless it is replaced; an unused patch has neither. */
  function ReadPackage(lines: seq<string>, inGraph: bool): Option<LockPackage> {
    var name, version, replace := FieldIn(lines, "name"), FieldIn(lines, "version"), FieldIn(lines, "replace");
    if name.None? || version.None? then None
    else Some(LockPackage(name.value, version.value, FieldIn(lines, "source"), FieldIn(lines, "checksum"),
                          if inGraph && replace.None? then Some(ListIn(lines)) else None, replace))
  }

  function ReadPackages(sections: seq<Section>, header: string, inGraph: bool): seq<Option<LockPackage>> {
    if sections == [] then []
    else
      var s := sections[|sections| - 1];
      ReadPackages(sections[..|sections| - 1], header, inGraph) + if s.header == header then [ReadPackage(s.lines, inGraph)] else []
  }

  // ----- The lines of a package -----

  predicate OneLine(s: string) { '\n' !in s && !EndsCr(s) }

  predicate OneLineOption(s: Option<string>) { s.Some? ==> OneLine(s.value) }

  /** Values are rendered on one line each. */
  ghost predicate Rendered(p: LockPackage) {
    && OneLine(p.name) && OneLine(p.version) && OneLineOption(p.source) && OneLineOption(p.checksum) && OneLineOption(p.replace)
    && (p.dependencies.Some? ==> forall i | 0 <= i < |p.dependencies.value| :: OneLine(p.dependencies.value[i]))
  }

  function FieldLine(key: string, value: string): string { key + " = " + value }

  function OptionalLine(key: string, value: Option<string>): seq<string> {
    if value.None? then [] else [FieldLine(key, value.value)]
  }

  function ElementLines(deps: seq<string>): seq<string> {
    if deps == [] then [] else ElementLines(deps[..|deps| - 1]) + [" " + deps[|deps| - 1] + ","]
  }

  function ListLines(deps: seq<string>): seq<string> {
    if deps == [] then [] else ["dependencies = ["] + ElementLines(deps) + ["]"]
  }

  function PackageLines(p: LockPackage): seq<string> {
    [FieldLine("name", p.name), FieldLine("version", p.version)]
    + OptionalLine("source", p.source) + OptionalLine("checksum", p.checksum)
    + (if p.dependencies.Some? then ListLines(p.dependencies.value) else OptionalLine("replace", p.replace))
  }

  lemma {:induction false} FieldInConcat(a: seq<string>, b: seq<string>, key: string)
    ensures FieldIn(a + b, key) == if FieldIn(a, key).Some? then FieldIn(a, key) else FieldIn(b, key)
  {
    if a == [] {
      assert a + b == b;
    } else {
      assert (a + b)[1..] == a[1..] + b;
      FieldInConcat(a[1..], b, key);
    }
  }

  lemma {:induction false} ListInConcat(a: seq<string>, b: seq<string>)
    ensures ListIn(a + b) == ListIn(a) + ListIn(b)
  {
    if a == [] {
      assert a + b == b;
    } else {
      assert (a + b)[1..] == a[1..] + b;
      ListInConcat(a[1..], b);
    }
  }

  lemma OwnField(key: string, value: string)
    ensures FieldIn([FieldLine(key, value)], key) == Some(value)
  {
    var line := FieldLine(key, value);
    assert line == (key + " = ") + value && line[|key| + 3..] == value;
  }

  /** A line that begins differently does not have the field. */
  lemma OtherField(line: string, key: string)
    requires key != "" && (line == "" || line[0] != key[0])
    ensures FieldIn([line], key).None?
  {
    assert (key + " = ")[0] == key[0];
    var one := [line];
    assert one[1..] == [];
  }

  lemma OptionalIn(name: string, value: Option<string>, key: string)
    requires key != "" && name != "" && (name == key || name[0] != key[0])
    ensures FieldIn(OptionalLine(name, value), key) == if name == key then value else None
  {
    if value.Some? {
      if name == key {
        OwnField(key, value.value);
      } else {
        OtherField(FieldLine(name, value.value), key);
      }
    }
  }

  lemma OneElement(line: string)
    ensures ListIn([line]) == if |line| >= 2 && line[0] == ' ' then [line[1..|line| - 1]] else []
  {
    var one := [line];
    assert one[1..] == [];
  }

  lemma {:induction false} ElementsIn(deps: seq<string>, key: string)
    requires key != "" && key[0] != ' '
    ensures FieldIn(ElementLines(deps), key).None? && ListIn(ElementLines(deps)) == deps
  {
    if deps != [] {
      var init, d := deps[..|deps| - 1], deps[|deps| - 1];
      var line := " " + d + ",";
      ElementsIn(init, key);
      FieldInConcat(ElementLines(init), [line], key);
      ListInConcat(ElementLines(init), [line]);
      OtherField(line, key);
      OneElement(line);
      assert line[1..|line| - 1] == d;
      assert deps == init + [d];
    }
  }

  lemma ListLinesIn(deps: seq<string>, key: string)
    requires key != "" && key[0] != ' ' && key[0] != 'd' && key[0] != ']'
    ensures FieldIn(ListLines(deps), key).None? && ListIn(ListLines(deps)) == deps
  {
    if deps != [] {
      var first, last := "dependencies = [", "]";
      ElementsIn(deps, key);
      OtherField(first, key);
      OtherField(last, key);
      FieldInConcat([first], ElementLines(deps), key);
      FieldInConcat([first] + ElementLines(deps), [last], key);
      ListInConcat([first], ElementLines(deps));
      ListInConcat([first] + ElementLines(deps), [last]);
      OneElement(first);
      OneElement(last);
    }
  }

  /** One of the fields a package has in front of its list. */
  predicate IsField(key: string) {
    key == "name" || key == "version" || key == "source" || key == "checksum" || key == "replace"
  }

  function FieldOf(p: LockPackage, key: string): Option<string> {
    if key == "name" then Some(p.name) else if key == "version" then Some(p.version)
    else if key == "source" then p.source else if key == "checksum" then p.checksum
    else if p.dependencies.Some? then None else p.replace
  }

  lemma PackageField(p: LockPackage, key: string)
    requires IsField(key)
    ensures FieldIn(PackageLines(p), key) == FieldOf(p, key)
  {
    var a, b := OptionalLine("name", Some(p.name)), OptionalLine("version", Some(p.version));
    var c, d := OptionalLine("source", p.source), OptionalLine("checksum", p.checksum);
    var e := if p.dependencies.Some? then ListLines(p.dependencies.value) else OptionalLine("replace", p.replace);
    assert PackageLines(p) == a + b + c + d + e;
    OptionalIn("name", Some(p.name), key);
    OptionalIn("version", Some(p.version), key);
    OptionalIn("source", p.source, key);
    OptionalIn("checksum", p.checksum, key);
    if p.dependencies.Some? {
      ListLinesIn(p.dependencies.value, key);
    } else {
      OptionalIn("replace", p.replace, key);
    }
    FieldInConcat(a, b, key);
    FieldInConcat(a + b, c, key);
    FieldInConcat(a + b + c, d, key);
    FieldInConcat(a + b + c + d, e, key);
  }

  lemma NoElements(key: string, value: Option<string>)
    requires key != "" && key[0] != ' '
    ensures ListIn(OptionalLine(key, value)) == []
  {
    if value.Some? {
      OneElement(FieldLine(key, value.value));
    }
  }

  lemma PackageList(p: LockPackage)
    ensures ListIn(PackageLines(p)) == if p.dependencies.Some? then p.dependencies.value else []
  {
    var a, b := OptionalLine("name", Some(p.name)), OptionalLine("version", Some(p.version));
    var c, d := OptionalLine("source", p.source), OptionalLine("checksum", p.checksum);
    var e := if p.dependencies.Some? then ListLines(p.dependencies.value) else OptionalLine("replace", p.replace);
    assert PackageLines(p) == a + b + c + d + e;
    NoElements("name", Some(p.name));
    NoElements("version", Some(p.version));
    NoElements("source", p.source);
    NoElements("checksum", p.checksum);
    if p.dependencies.Some? {
      ListLinesIn(p.dependencies.value, "name");
    } else {
      NoElements("replace", p.replace);
    }
    ListInConcat(a, b);
    ListInConcat(a + b, c);
    ListInConcat(a + b + c, d);
    ListInConcat(a + b + c + d, e);
  }

  /** A package of the graph is replaced or has dependencies; an unused patch neither. */
  predicate InPlace(p: LockPackage, inGraph: bool) {
    if inGraph then p.dependencies.Some? <==> p.replace.None? else p.dependencies.None? && p.replace.None?
  }

  lemma PackageIsRead(p: LockPackage, inGraph: bool)
    requires InPlace(p, inGraph)
    ensures ReadPackage(PackageLines(p), inGraph) == Some(p)
  {
    PackageField(p, "name");
    PackageField(p, "version");
    PackageField(p, "source");
    PackageField(p, "checksum");
    PackageField(p, "replace");
    PackageList(p);
  }

  // ----- From the text to its lines -----

  lemma {:induction false} SaidConcat(a: seq<string>, b: seq<string>)
    ensures Said(a + b) == Said(a) + Said(b)
  {
    if b == [] {
      assert a + b == a;
    } else {
      assert (a + b)[..|a + b| - 1] == a + b[..|b| - 1];
      SaidConcat(a, b[..|b| - 1]);
    }
  }

  /** In front of any text it says these lines. */
  ghost predicate Speaks(text: string, said: seq<string>) {
    forall rest :: SaysBefore(text, said, rest)
  }

  ghost predicate SaysBefore(text: string, said: seq<string>, rest: string) {
    Said(Lines(text + rest)) == said + Said(Lines(rest))
  }

  lemma SaysTogether(a: string, la: seq<string>, b: string, lb: seq<string>, rest: string)
    requires SaysBefore(a, la, b + rest) && SaysBefore(b, lb, rest)
    ensures SaysBefore(a + b, la + lb, rest)
  {
    Sorting.Assoc(a, b, rest);
    Sorting.Assoc(la, lb, Said(Lines(rest)));
  }

  lemma SpeaksConcat(a: string, la: seq<string>, b: string, lb: seq<string>)
    requires Speaks(a, la) && Speaks(b, lb)
    ensures Speaks(a + b, la + lb)
  {
    forall rest ensures SaysBefore(a + b, la + lb, rest) {
      SaysTogether(a, la, b, lb, rest);
    }
  }

  lemma SpeaksLine(line: string)
    requires OneLine(line)
    ensures Speaks(line + "\n", if Significant(line) then [line] else [])
  {
    var said := if Significant(line) then [line] else [];
    forall rest ensures SaysBefore(line + "\n", said, rest) {
      LinesOfTerminated(line, rest);
      SaidConcat([line], Lines(rest));
      var one := [line];
      assert one[..0] == [];
    }
  }

  lemma SpeaksNothing()
    ensures Speaks("", [])
  {
    forall rest ensures SaysBefore("", [], rest) {
      assert "" + rest == rest;
    }
  }

  lemma FieldIsOneLine(key: string, value: string)
    requires OneLine(value) && '\n' !in key
    ensures OneLine(FieldLine(key, value))
  {
    var line := FieldLine(key, value);
    assert line[|line| - 1] == if value == "" then ' ' else value[|value| - 1];
  }

  lemma SpeaksField(key: string, value: string)
    requires OneLine(value) && '\n' !in key && key != "" && key[0] != '#'
    ensures Speaks(Field(key, value), [FieldLine(key, value)])
  {
    FieldIsOneLine(key, value);
    SpeaksLine(FieldLine(key, value));
    assert Field(key, value) == FieldLine(key, value) + "\n";
  }

  lemma SpeaksOptional(key: string, value: Option<string>)
    requires OneLineOption(value) && '\n' !in key && key != "" && key[0] != '#'
    ensures Speaks(OptionalField(key, value), OptionalLine(key, value))
  {
    if value.Some? {
      SpeaksField(key, value.value);
    } else {
      SpeaksNothing();
    }
  }

  lemma {:induction false} SpeaksElements(deps: seq<string>)
    requires forall i | 0 <= i < |deps| :: OneLine(deps[i])
    ensures Speaks(DependencyLines(deps), ElementLines(deps))
  {
    if deps == [] {
      SpeaksNothing();
    } else {
      var init, d := deps[..|deps| - 1], deps[|deps| - 1];
      var line := " " + d + ",";
      SpeaksElements(init);
      assert line[|line| - 1] == ',';
      SpeaksLine(line);
      assert " " + d + ",\n" == line + "\n";
      SpeaksConcat(DependencyLines(init), ElementLines(init), line + "\n", [line]);
    }
  }

  /** A text between two lines that say something. */
  lemma SpeaksBetween(first: string, text: string, said: seq<string>, last: string)
    requires OneLine(first) && OneLine(last) && Significant(first) && Significant(last) && Speaks(text, said)
    ensures Speaks((first + "\n") + text + (last + "\n"), [first] + said + [last])
  {
    SpeaksLine(first);
    SpeaksLine(last);
    SpeaksConcat(first + "\n", [first], text, said);
    SpeaksConcat((first + "\n") + text, [first] + said, last + "\n", [last]);
  }

  lemma SpeaksList(deps: seq<string>)
    requires forall i | 0 <= i < |deps| :: OneLine(deps[i])
    ensures Speaks(DependencyText(deps), ListLines(deps))
  {
    if deps == [] {
      SpeaksNothing();
    } else {
      SpeaksElements(deps);
      SpeaksBetween("dependencies = [", DependencyLines(deps), ElementLines(deps), "]");
      assert "dependencies = [" + "\n" == "dependencies = [\n" && "]" + "\n" == "]\n";
    }
  }

  function RestText(p: LockPackage): string {
    if p.dependencies.Some? then DependencyText(p.dependencies.value) + "\n"
    else if p.replace.Some? then Field("replace", p.replace.value) + "\n" else ""
  }

  function RestLines(p: LockPackage): seq<string> {
    if p.dependencies.Some? then ListLines(p.dependencies.value) else OptionalLine("replace", p.replace)
  }

  /** A blank line behind it adds nothing. */
  lemma SpeaksThenBlank(text: string, said: seq<string>)
    requires Speaks(text, said)
    ensures Speaks(text + "\n", said)
  {
    SpeaksLine("");
    assert "" + "\n" == "\n" && said + [] == said;
    SpeaksConcat(text, said, "\n", []);
  }

  lemma SpeaksRest(p: LockPackage)
    requires Rendered(p)
    ensures Speaks(RestText(p), RestLines(p))
  {
    if p.dependencies.Some? {
      SpeaksList(p.dependencies.value);
      SpeaksThenBlank(DependencyText(p.dependencies.value), ListLines(p.dependencies.value));
    } else if p.replace.Some? {
      SpeaksField("replace", p.replace.value);
      SpeaksThenBlank(Field("replace", p.replace.value), OptionalLine("replace", p.replace));
    } else {
      SpeaksNothing();
    }
  }

  /** The text of a package says its lines. */
  lemma SpeaksPackage(p: LockPackage)
    requires Rendered(p)
    ensures Speaks(PackageText(p), PackageLines(p))
  {
    SpeaksField("name", p.name);
    SpeaksField("version", p.version);
    SpeaksOptional("source", p.source);
    SpeaksOptional("checksum", p.checksum);
    SpeaksRest(p);
    SpeaksAll(Field("name", p.name), [FieldLine("name", p.name)], Field("version", p.version), [FieldLine("version", p.version)],
              OptionalField("source", p.source), OptionalLine("source", p.source),
              OptionalField("checksum", p.checksum), OptionalLine("checksum", p.checksum),
              RestText(p), RestLines(p));
    PackageParts(p);
  }

  lemma SpeaksAll(a: string, la: seq<string>, b: string, lb: seq<string>, c: string, lc: seq<string>, d: string, ld: seq<string>,
                  e: string, le: seq<string>)
    requires Speaks(a, la) && Speaks(b, lb) && Speaks(c, lc) && Speaks(d, ld) && Speaks(e, le)
    ensures Speaks(a + b + c + d + e, la + lb + lc + ld + le)
  {
    SpeaksConcat(a, la, b, lb);
    SpeaksConcat(a + b, la + lb, c, lc);
    SpeaksConcat(a + b + c, la + lb + lc, d, ld);
    SpeaksConcat(a + b + c + d, la + lb + lc + ld, e, le);
  }

  lemma PackageParts(p: LockPackage)
    ensures PackageText(p) == Field("name", p.name) + Field("version", p.version)
                              + OptionalField("source", p.source) + OptionalField("checksum", p.checksum) + RestText(p)
    ensures PackageLines(p) == [FieldLine("name", p.name)] + [FieldLine("version", p.version)]
                               + OptionalLine("source", p.source) + OptionalLine("checksum", p.checksum) + RestLines(p)
  {}

  // ----- The whole file -----

  /** The lines of all packages, each below its header. */
  function AllPackageLines(header: string, ps: seq<LockPackage>): seq<string> {
    if ps == [] then [] else AllPackageLines(header, ps[..|ps| - 1]) + ([header] + PackageLines(ps[|ps| - 1]))
  }

  lemma {:induction false} SpeaksPackages(ps: seq<LockPackage>)
    requires forall i | 0 <= i < |ps| :: Rendered(ps[i])
    ensures Speaks(PackagesText(ps), AllPackageLines("[[package]]", ps))
  {
    if ps == [] {
      SpeaksNothing();
    } else {
      var init, p := ps[..|ps| - 1], ps[|ps| - 1];
      SpeaksPackages(init);
      SpeaksPackage(p);
      assert "[[package]]" + "\n" == "[[package]]\n";
      SpeaksBelow("[[package]]", PackageText(p), PackageLines(p));
      SpeaksConcat(PackagesText(init), AllPackageLines("[[package]]", init), "[[package]]\n" + PackageText(p), ["[[package]]"] + PackageLines(p));
    }
  }

  lemma {:induction false} SpeaksPatches(ps: seq<LockPackage>)
    requires forall i | 0 <= i < |ps| :: Rendered(ps[i])
    ensures Speaks(PatchesText(ps), AllPackageLines("[[patch.unused]]", ps))
  {
    if ps == [] {
      SpeaksNothing();
    } else {
      var init, p := ps[..|ps| - 1], ps[|ps| - 1];
      SpeaksPatches(init);
      SpeaksPackage(p);
      assert "[[patch.unused]]" + "\n" == "[[patch.unused]]\n";
      SpeaksBelow("[[patch.unused]]", PackageText(p), PackageLines(p));
      SpeaksThenBlank("[[patch.unused]]\n" + PackageText(p), ["[[patch.unused]]"] + PackageLines(p));
      SpeaksConcat(PatchesText(init), AllPackageLines("[[patch.unused]]", init),
                   "[[patch.unused]]\n" + PackageText(p) + "\n", ["[[patch.unused]]"] + PackageLines(p));
    }
  }

  lemma SpeaksBelow(header: string, text: string, said: seq<string>)
    requires OneLine(header) && Significant(header) && Speaks(text, said)
    ensures Speaks((header + "\n") + text, [header] + said)
  {
    SpeaksLine(header);
    SpeaksConcat(header + "\n", [header], text, said);
  }

  /** A metadata key as it is rendered: on one line, and neither a comment nor a header. */
  ghost predicate RenderedKey(key: string) {
    '\n' !in key && key != "" && key[0] != '#' && key[0] != '['
  }

  function MetadataFields(entries: seq<(string, string)>): (r: seq<string>)
    ensures |r| == |entries| && forall i | 0 <= i < |r| :: r[i] == FieldLine(entries[i].0, entries[i].1)
  {
    if entries == [] then []
    else MetadataFields(entries[..|entries| - 1]) + [FieldLine(entries[|entries| - 1].0, entries[|entries| - 1].1)]
  }

  function MetadataLines(entries: seq<(string, string)>): seq<string> {
    if entries == [] then [] else ["[metadata]"] + MetadataFields(entries)
  }

  lemma {:induction false} SpeaksMetadata(entries: seq<(string, string)>)
    requires forall i | 0 <= i < |entries| :: RenderedKey(entries[i].0) && OneLine(entries[i].1)
    ensures Speaks(MetadataText(entries), MetadataLines(entries))
  {
    if entries == [] {
      SpeaksNothing();
    } else {
      var init, last := entries[..|entries| - 1], entries[|entries| - 1];
      SpeaksField(last.0, last.1);
      if init == [] {
        SpeaksLine("[metadata]");
        assert "[metadata]" + "\n" == "[metadata]\n";
        SpeaksConcat("[metadata]\n", ["[metadata]"], Field(last.0, last.1), [FieldLine(last.0, last.1)]);
        assert MetadataFields(entries) == [FieldLine(last.0, last.1)];
      } else {
        SpeaksMetadata(init);
        SpeaksConcat(MetadataText(init), MetadataLines(init), Field(last.0, last.1), [FieldLine(last.0, last.1)]);
        assert MetadataLines(entries) == MetadataLines(init) + [FieldLine(last.0, last.1)];
      }
    }
  }

  /** The number a version is written with, from V3 on. */
  function NumberOf(version: ResolveVersion): Option<string> {
    match version
    case V3 => Some("3")
    case V4 => Some("4")
    case V5 => Some("5")
    case _ => None
  }

  lemma SpeaksVersion(version: ResolveVersion)
    ensures Speaks(VersionText(version), OptionalLine("version", NumberOf(version)))
  {
    if NumberOf(version).Some? {
      var n := NumberOf(version).value;
      SpeaksField("version", n);
      SpeaksLine("");
      assert "" + "\n" == "\n" && VersionText(version) == Field("version", n) + "\n";
      SpeaksConcat(Field("version", n), [FieldLine("version", n)], "\n", []);
      assert [FieldLine("version", n)] + [] == [FieldLine("version", n)];
    } else {
      SpeaksNothing();
    }
  }

  ghost predicate RenderedTable(t: LockTable) {
    && (forall i | 0 <= i < |t.packages| :: Rendered(t.packages[i]) && InPlace(t.packages[i], true))
    && (forall i | 0 <= i < |t.unusedPatches| :: Rendered(t.unusedPatches[i]) && InPlace(t.unusedPatches[i], false))
    && forall i | 0 <= i < |t.metadata| :: RenderedKey(t.metadata[i].0) && OneLine(t.metadata[i].1)
  }

  function TableLines(version: ResolveVersion, t: LockTable): seq<string> {
    OptionalLine("version", NumberOf(version)) + AllPackageLines("[[package]]", t.packages)
    + AllPackageLines("[[patch.unused]]", t.unusedPatches) + MetadataLines(t.metadata)
  }

  lemma SpeaksBody(encode: Encoder, version: ResolveVersion)
    requires RenderedTable(encode(version))
    ensures Speaks(Body(encode, version), TableLines(version, encode(version)))
  {
    var t := encode(version);
    var a, b, c, d := VersionText(version), PackagesText(t.packages), PatchesText(t.unusedPatches), MetadataText(t.metadata);
    var la, lb := OptionalLine("version", NumberOf(version)), AllPackageLines("[[package]]", t.packages);
    var lc, ld := AllPackageLines("[[patch.unused]]", t.unusedPatches), MetadataLines(t.metadata);
    SpeaksVersion(version);
    SpeaksPackages(t.packages);
    SpeaksPatches(t.unusedPatches);
    SpeaksMetadata(t.metadata);
    SpeaksConcat(a, la, b, lb);
    SpeaksConcat(a + b, la + lb, c, lc);
    SpeaksConcat(a + b + c, la + lb + lc, d, ld);
  }

  /** Comments and trailing blank lines add nothing to what a text says. */
  lemma {:induction false} TrimSaysTheSame(s: string)
    ensures Said(Lines(TrimBlank(s))) == Said(Lines(s))
    decreases |s|
  {
    if EndsBlank(s) {
      var r := s[..|s| - 1];
      TrimSaysTheSame(r);
      WithoutFeed(s, r);
    }
  }

  lemma WithoutFeed(s: string, r: string)
    requires EndsBlank(s) && r == s[..|s| - 1]
    ensures Said(Lines(s)) == Said(Lines(r))
  {
    assert s == r + "\n";
    LastBlank(r);
  }

  lemma FeedIsInside(s: string)
    requires s != "" && s[|s| - 1] == '\n'
    ensures FirstFeed(s) < |s|
  {
    var i := FirstFeed(s);
    assert forall k | 0 <= k < i :: s[k] in s[..i];
  }

  /** A text that ends a line, followed by a blank line. */
  lemma {:induction false} LastBlank(s: string)
    requires s != "" && s[|s| - 1] == '\n'
    ensures Said(Lines(s + "\n")) == Said(Lines(s))
    decreases |s|
  {
    var i := FirstFeed(s);
    FeedIsInside(s);
    var line, rest := s[..i], s[i + 1..];
    assert s == line + "\n" + rest && s + "\n" == line + "\n" + (rest + "\n");
    LinesOfTerminated(line, rest);
    LinesOfTerminated(line, rest + "\n");
    SaidConcat([StripCr(line)], Lines(rest));
    SaidConcat([StripCr(line)], Lines(rest + "\n"));
    if rest == "" {
      LinesOfTerminated("", "");
      assert "" + "\n" + "" == rest + "\n";
      var blank: seq<string> := [""];
      assert Lines("") == [] && StripCr("") == "" && blank + [] == blank && blank[..0] == [];
    } else {
      assert rest[|rest| - 1] == s[|s| - 1];
      LastBlank(rest);
    }
  }

  lemma {:induction false} CommentsSayNothing(lines: seq<string>)
    requires forall l | l in lines :: IsComment(l)
    ensures Said(lines) == []
  {
    if lines != [] {
      assert lines[|lines| - 1] in lines && forall l | l in lines[..|lines| - 1] :: l in lines;
      CommentsSayNothing(lines[..|lines| - 1]);
    }
  }

  /** The file Cargo writes says the lines of the table, whatever comments it keeps. */
  lemma FileSays(encode: Encoder, version: ResolveVersion, orig: Option<string>)
    requires RenderedTable(encode(version))
    ensures Said(Lines(Serialized(CargoFormat(encode), version, orig))) == TableLines(version, encode(version))
  {
    var f := CargoFormat(encode);
    var kept := KeptComments(f, orig);
    CargoFormatIsSound(encode);
    KeptAreLines(f, orig);
    SerializedShape(f, version, orig);
    var body := Finish(version, f.body(version));
    HeaderLines(f, kept, body);
    SaidConcat(Header(f, StripAll(kept)), Lines(body));
    StrippedComments(kept);
    CommentsSayNothing(Header(f, StripAll(kept)));
    if version.Rank() >= V2.Rank() {
      TrimSaysTheSame(f.body(version));
    }
    SpeaksBody(encode, version);
    BodyAlone(Body(encode, version), TableLines(version, encode(version)));
  }

  lemma BodyAlone(text: string, said: seq<string>)
    requires Speaks(text, said)
    ensures Said(Lines(text)) == said
  {
    assert SaysBefore(text, said, "");
    assert text + "" == text && Lines("") == [] && said + [] == said;
  }

  // ----- Sections -----

  /** The sections with more lines at the end of the last one. */
  function Extended(done: seq<Section>, more: seq<string>): seq<Section>
    requires done != []
  {
    var last := done[|done| - 1];
    done[..|done| - 1] + [last.(lines := last.lines + more)]
  }

  lemma ExtendedTwice(done: seq<Section>, b: seq<string>, c: seq<string>)
    requires done != []
    ensures Extended(Extended(done, b), c) == Extended(done, b + c)
  {
    Sorting.Assoc(done[|done| - 1].lines, b, c);
  }

  lemma SectionsStep(a: seq<string>, line: string)
    requires !IsHeader(line)
    ensures Sections(a + [line]) == Extended(Sections(a), [line])
  {
    assert (a + [line])[..|a|] == a;
  }

  lemma ExtendedByNone(done: seq<Section>)
    requires done != []
    ensures Extended(done, []) == done
  {
    var last := done[|done| - 1];
    assert last.lines + [] == last.lines;
  }

  lemma SectionsAddLine(a: seq<string>, init: seq<string>, line: string)
    requires !IsHeader(line) && Sections(a + init) == Extended(Sections(a), init)
    ensures Sections(a + (init + [line])) == Extended(Sections(a), init + [line])
  {
    SectionsStep(a + init, line);
    Sorting.Assoc(a, init, [line]);
    ExtendedTwice(Sections(a), init, [line]);
  }

  lemma {:induction false} SectionsBehind(a: seq<string>, b: seq<string>)
    requires forall i | 0 <= i < |b| :: !IsHeader(b[i])
    ensures Sections(a + b) == Extended(Sections(a), b)
  {
    if b == [] {
      assert a + b == a;
      ExtendedByNone(Sections(a));
    } else {
      var init, line := b[..|b| - 1], b[|b| - 1];
      SectionsBehind(a, init);
      SectionsAddLine(a, init, line);
      assert init + [line] == b;
    }
  }

  lemma OneSection(a: seq<string>, header: string, b: seq<string>)
    requires IsHeader(header) && forall i | 0 <= i < |b| :: !IsHeader(b[i])
    ensures Sections(a + ([header] + b)) == Sections(a) + [Section(header, b)]
  {
    var c := a + [header];
    assert c[..|c| - 1] == a;
    assert a + ([header] + b) == c + b;
    SectionsBehind(c, b);
    assert [] + b == b;
  }

  lemma {:induction false} ElementsAreNoHeaders(deps: seq<string>)
    ensures forall i | 0 <= i < |ElementLines(deps)| :: !IsHeader(ElementLines(deps)[i])
  {
    if deps != [] {
      ElementsAreNoHeaders(deps[..|deps| - 1]);
    }
  }

  lemma PackageHasNoHeader(p: LockPackage)
    ensures forall i | 0 <= i < |PackageLines(p)| :: !IsHeader(PackageLines(p)[i])
  {
    if p.dependencies.Some? {
      ElementsAreNoHeaders(p.dependencies.value);
    }
  }

  function PackageSections(header: string, ps: seq<LockPackage>): (r: seq<Section>)
    ensures |r| == |ps| && forall i | 0 <= i < |r| :: r[i] == Section(header, PackageLines(ps[i]))
  {
    seq(|ps|, i requires 0 <= i < |ps| => Section(header, PackageLines(ps[i])))
  }

  lemma SectionsSnoc(header: string, ps: seq<LockPackage>)
    requires ps != []
    ensures PackageSections(header, ps) == PackageSections(header, ps[..|ps| - 1]) + [Section(header, PackageLines(ps[|ps| - 1]))]
  {}

  lemma {:induction false} SectionsOfPackages(a: seq<string>, header: string, ps: seq<LockPackage>)
    requires IsHeader(header)
    ensures Sections(a + AllPackageLines(header, ps)) == Sections(a) + PackageSections(header, ps)
  {
    if ps == [] {
      assert a + AllPackageLines(header, ps) == a;
    } else {
      var init, p := ps[..|ps| - 1], ps[|ps| - 1];
      SectionsOfPackages(a, header, init);
      PackageHasNoHeader(p);
      var before, lines := AllPackageLines(header, init), [header] + PackageLines(p);
      OneSection(a + before, header, PackageLines(p));
      Sorting.Assoc(a, before, lines);
      SectionsSnoc(header, ps);
      Sorting.Assoc(Sections(a), PackageSections(header, init), [Section(header, PackageLines(p))]);
    }
  }

  function MetadataSections(entries: seq<(string, string)>): seq<Section> {
    if entries == [] then [] else [Section("[metadata]", MetadataFields(entries))]
  }

  function TableSections(version: ResolveVersion, t: LockTable): seq<Section> {
    [Section("", OptionalLine("version", NumberOf(version)))] + PackageSections("[[package]]", t.packages)
    + PackageSections("[[patch.unused]]", t.unusedPatches) + MetadataSections(t.metadata)
  }

  lemma SectionsOfTable(version: ResolveVersion, t: LockTable)
    requires RenderedTable(t)
    ensures Sections(TableLines(version, t)) == TableSections(version, t)
  {
    var a := OptionalLine("version", NumberOf(version));
    var b := a + AllPackageLines("[[package]]", t.packages);
    var c := b + AllPackageLines("[[patch.unused]]", t.unusedPatches);
    SectionsInFront(a);
    SectionsOfPackages(a, "[[package]]", t.packages);
    SectionsOfPackages(b, "[[patch.unused]]", t.unusedPatches);
    SectionsOfMetadata(c, t.metadata);
  }

  lemma SectionsInFront(a: seq<string>)
    requires forall i | 0 <= i < |a| :: !IsHeader(a[i])
    ensures Sections(a) == [Section("", a)]
  {
    SectionsBehind([], a);
    assert [] + a == a;
  }

  lemma SectionsOfMetadata(c: seq<string>, entries: seq<(string, string)>)
    requires forall i | 0 <= i < |entries| :: RenderedKey(entries[i].0)
    ensures Sections(c + MetadataLines(entries)) == Sections(c) + MetadataSections(entries)
  {
    if entries == [] {
      assert c + MetadataLines(entries) == c;
    } else {
      OneSection(c, "[metadata]", MetadataFields(entries));
    }
  }

  lemma {:induction false} ReadConcat(a: seq<Section>, b: seq<Section>, header: string, inGraph: bool)
    ensures ReadPackages(a + b, header, inGraph) == ReadPackages(a, header, inGraph) + ReadPackages(b, header, inGraph)
  {
    if b == [] {
      assert a + b == a;
    } else {
      assert (a + b)[..|a + b| - 1] == a + b[..|b| - 1];
      ReadConcat(a, b[..|b| - 1], header, inGraph);
    }
  }

  function AllOf(ps: seq<LockPackage>): (r: seq<Option<LockPackage>>)
    ensures |r| == |ps| && forall i | 0 <= i < |r| :: r[i] == Some(ps[i])
  {
    seq(|ps|, i requires 0 <= i < |ps| => Some(ps[i]))
  }

  lemma ReadSnoc(sections: seq<Section>, s: Section, wanted: string, inGraph: bool)
    ensures ReadPackages(sections + [s], wanted, inGraph)
         == ReadPackages(sections, wanted, inGraph) + if s.header == wanted then [ReadPackage(s.lines, inGraph)] else []
  {
    assert (sections + [s])[..|sections|] == sections;
  }

  lemma {:induction false} ReadOwn(header: string, ps: seq<LockPackage>, inGraph: bool)
    requires forall i | 0 <= i < |ps| :: InPlace(ps[i], inGraph)
    ensures ReadPackages(PackageSections(header, ps), header, inGraph) == AllOf(ps)
  {
    if ps != [] {
      var init, p := ps[..|ps| - 1], ps[|ps| - 1];
      SectionsSnoc(header, ps);
      ReadOwn(header, init, inGraph);
      ReadSnoc(PackageSections(header, init), Section(header, PackageLines(p)), header, inGraph);
      PackageIsRead(p, inGraph);
      AllSnoc(ps);
    }
  }

  lemma AllSnoc(ps: seq<LockPackage>)
    requires ps != []
    ensures AllOf(ps) == AllOf(ps[..|ps| - 1]) + [Some(ps[|ps| - 1])]
  {}

  lemma {:induction false} NoneWanted(sections: seq<Section>, wanted: string, inGraph: bool)
    requires NotUnder(sections, wanted)
    ensures ReadPackages(sections, wanted, inGraph) == []
  {
    if sections != [] {
      NoneWanted(sections[..|sections| - 1], wanted, inGraph);
    }
  }

  lemma ReadGroups(a: seq<Section>, b: seq<Section>, c: seq<Section>, d: seq<Section>, wanted: string, inGraph: bool)
    ensures ReadPackages(a + b + c + d, wanted, inGraph)
         == ReadPackages(a, wanted, inGraph) + ReadPackages(b, wanted, inGraph)
            + ReadPackages(c, wanted, inGraph) + ReadPackages(d, wanted, inGraph)
  {
    ReadConcat(a, b, wanted, inGraph);
    ReadConcat(a + b, c, wanted, inGraph);
    ReadConcat(a + b + c, d, wanted, inGraph);
  }

  lemma OnlySecond<T>(a: seq<T>, b: seq<T>, c: seq<T>, d: seq<T>)
    requires a == [] && c == [] && d == []
    ensures a + b + c + d == b
  {}

  lemma OnlyThird<T>(a: seq<T>, b: seq<T>, c: seq<T>, d: seq<T>)
    requires a == [] && b == [] && d == []
    ensures a + b + c + d == c
  {}

  ghost predicate NotUnder(sections: seq<Section>, header: string) {
    forall i | 0 <= i < |sections| :: sections[i].header != header
  }

  /** Between sections of other kinds, a group of packages reads back. */
  lemma ReadFirstGroup(a: seq<Section>, header: string, ps: seq<LockPackage>, c: seq<Section>, d: seq<Section>, inGraph: bool)
    requires NotUnder(a, header) && NotUnder(c, header) && NotUnder(d, header)
    requires forall i | 0 <= i < |ps| :: InPlace(ps[i], inGraph)
    ensures ReadPackages(a + PackageSections(header, ps) + c + d, header, inGraph) == AllOf(ps)
  {
    ReadGroups(a, PackageSections(header, ps), c, d, header, inGraph);
    NoneWanted(a, header, inGraph);
    NoneWanted(c, header, inGraph);
    NoneWanted(d, header, inGraph);
    ReadOwn(header, ps, inGraph);
    OnlySecond(ReadPackages(a, header, inGraph), AllOf(ps), ReadPackages(c, header, inGraph), ReadPackages(d, header, inGraph));
  }

  lemma ReadSecondGroup(a: seq<Section>, b: seq<Section>, header: string, ps: seq<LockPackage>, d: seq<Section>, inGraph: bool)
    requires NotUnder(a, header) && NotUnder(b, header) && NotUnder(d, header)
    requires forall i | 0 <= i < |ps| :: InPlace(ps[i], inGraph)
    ensures ReadPackages(a + b + PackageSections(header, ps) + d, header, inGraph) == AllOf(ps)
  {
    ReadGroups(a, b, PackageSections(header, ps), d, header, inGraph);
    NoneWanted(a, header, inGraph);
    NoneWanted(b, header, inGraph);
    NoneWanted(d, header, inGraph);
    ReadOwn(header, ps, inGraph);
    OnlyThird(ReadPackages(a, header, inGraph), ReadPackages(b, header, inGraph), AllOf(ps), ReadPackages(d, header, inGraph));
  }

  lemma ReadGraph(version: ResolveVersion, t: LockTable)
    requires RenderedTable(t)
    ensures ReadPackages(TableSections(version, t), "[[package]]", true) == AllOf(t.packages)
  {
    ReadFirstGroup([Section("", OptionalLine("version", NumberOf(version)))], "[[package]]", t.packages,
                   PackageSections("[[patch.unused]]", t.unusedPatches), MetadataSections(t.metadata), true);
  }

  lemma ReadUnused(version: ResolveVersion, t: LockTable)
    requires RenderedTable(t)
    ensures ReadPackages(TableSections(version, t), "[[patch.unused]]", false) == AllOf(t.unusedPatches)
  {
    ReadSecondGroup([Section("", OptionalLine("version", NumberOf(version)))], PackageSections("[[package]]", t.packages),
                    "[[patch.unused]]", t.unusedPatches, MetadataSections(t.metadata), false);
  }

  /** A lock file reads back: its version number, every field of every package and of every unused patch in order, and the
      metadata, whatever comments were kept and however many blank lines were trimmed. */
  lemma LockfileIsRead(encode: Encoder, version: ResolveVersion, orig: Option<string>)
    requires RenderedTable(encode(version))
    ensures var t, sections := encode(version), Sections(Said(Lines(Serialized(CargoFormat(encode), version, orig))));
      && sections == TableSections(version, t)
      && FieldIn(sections[0].lines, "version") == NumberOf(version)
      && ReadPackages(sections, "[[package]]", true) == AllOf(t.packages)
      && ReadPackages(sections, "[[patch.unused]]", false) == AllOf(t.unusedPatches)
  {
    var t := encode(version);
    FileSays(encode, version, orig);
    SectionsOfTable(version, t);
    OptionalIn("version", NumberOf(version), "version");
    ReadGraph(version, t);
    ReadUnused(version, t);
  }
}
