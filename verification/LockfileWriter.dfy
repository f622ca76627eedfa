/** Cargo's own lock file text, and the operation that writes it (`src/ops/lockfile.rs`). */
module LockfileWriter {
  import opened Units
  import opened LockText

  /** Field values are TOML values already rendered. A package has a dependency list unless it is
      replaced by another one; an unused patch has neither. */
  datatype LockPackage = LockPackage(
    name: string,
    version: string,
    source: Option<string>,
    checksum: Option<string>,
    dependencies: Option<seq<string>>,
    replace: Option<string>)

  datatype LockTable = LockTable(
    packages: seq<LockPackage>,
    unusedPatches: seq<LockPackage>,
    metadata: seq<(string, string)>)

  /** A resolve, apart from the version it is encoded in. */
  type Encoder = ResolveVersion -> LockTable

  function WithRustVersion(rust: Option<(nat, nat)>): (v: ResolveVersion)
    ensures v.Rank() <= MaxStable.Rank()
  {
    if rust.None? then V4
    else
      var (major, minor) := rust.value;
      if major > 1 || (major == 1 && minor >= 83) then V4
      else if major == 1 && minor >= 53 then V3
      else if major == 1 && minor >= 41 then V2
      else V1
  }

  // ----- The text -----

  function Field(key: string, value: string): string {
    key + " = " + value + "\n"
  }

  function OptionalField(key: string, value: Option<string>): string {
    if value.None? then "" else Field(key, value.value)
  }

  function DependencyLines(deps: seq<string>): string {
    if deps == [] then "" else DependencyLines(deps[..|deps| - 1]) + (" " + deps[|deps| - 1] + ",\n")
  }

  function DependencyText(deps: seq<string>): string {
    if deps == [] then "" else "dependencies = [\n" + DependencyLines(deps) + "]\n"
  }

  function PackageText(p: LockPackage): string {
    Field("name", p.name) + Field("version", p.version)
    + OptionalField("source", p.source) + OptionalField("checksum", p.checksum)
    + if p.dependencies.Some? then DependencyText(p.dependencies.value) + "\n"
      else if p.replace.Some? then Field("replace", p.replace.value) + "\n"
      else ""
  }

  function PackagesText(ps: seq<LockPackage>): string {
    if ps == [] then "" else PackagesText(ps[..|ps| - 1]) + ("[[package]]\n" + PackageText(ps[|ps| - 1]))
  }

  function PatchesText(ps: seq<LockPackage>): string {
    if ps == [] then ""
    else PatchesText(ps[..|ps| - 1]) + ("[[patch.unused]]\n" + PackageText(ps[|ps| - 1]) + "\n")
  }

  function MetadataText(entries: seq<(string, string)>): string {
    if entries == [] then ""
    else if |entries| == 1 then "[metadata]\n" + Field(entries[0].0, entries[0].1)
    else
      var last := entries[|entries| - 1];
      MetadataText(entries[..|entries| - 1]) + Field(last.0, last.1)
  }

  function VersionText(version: ResolveVersion): string {
    match version
    case V5 => "version = 5\n\n"
    case V4 => "version = 4\n\n"
    case V3 => "version = 3\n\n"
    case _ => ""
  }

  function Body(encode: Encoder, version: ResolveVersion): string {
    VersionText(version) + PackagesText(encode(version).packages)
    + PatchesText(encode(version).unusedPatches) + MetadataText(encode(version).metadata)
  }

  function CargoFormat(encode: Encoder): Format {
    Format("# This file is " + "automatically " + "@generated " + "by Cargo.",
           "# It is not " + "intended for " + "manual editing.",
           v => Body(encode, v))
  }

  // ----- The serialiser -----

  method EmitDependencies(deps: seq<string>) returns (text: string)
    ensures text == DependencyText(deps)
  {
    if deps == [] {
      return "";
    }
    var lines := "";
    for i := 0 to |deps|
      invariant lines == DependencyLines(deps[..i])
    {
      assert deps[..i + 1][..i] == deps[..i];
      lines := lines + (" " + deps[i] + ",\n");
    }
    assert deps[..|deps|] == deps;
    text := "dependencies = [\n" + lines + "]\n";
  }

  method EmitPackage(p: LockPackage) returns (text: string)
    ensures text == PackageText(p)
  {
    text := Field("name", p.name) + Field("version", p.version);
    text := text + OptionalField("source", p.source) + OptionalField("checksum", p.checksum);
    if p.dependencies.Some? {
      var deps := EmitDependencies(p.dependencies.value);
      text := text + (deps + "\n");
    } else if p.replace.Some? {
      text := text + (Field("replace", p.replace.value) + "\n");
    }
  }

  method EmitPackages(ps: seq<LockPackage>) returns (text: string)
    ensures text == PackagesText(ps)
  {
    text := "";
    for i := 0 to |ps|
      invariant text == PackagesText(ps[..i])
    {
      assert ps[..i + 1][..i] == ps[..i];
      var one := EmitPackage(ps[i]);
      text := text + ("[[package]]\n" + one);
    }
    assert ps[..|ps|] == ps;
  }

  method EmitPatches(ps: seq<LockPackage>) returns (text: string)
    ensures text == PatchesText(ps)
  {
    text := "";
    for i := 0 to |ps|
      invariant text == PatchesText(ps[..i])
    {
      assert ps[..i + 1][..i] == ps[..i];
      var one := EmitPackage(ps[i]);
      text := text + ("[[patch.unused]]\n" + one + "\n");
    }
    assert ps[..|ps|] == ps;
  }

  /** The iterator over the leading comments is read once for each standing line, then drained. */
  method PushComments(f: Format, orig: string) returns (kept: seq<string>)
    ensures kept == KeptComments(f, Some(orig))
  {
    kept := [];
    var comments := LeadingComments(Lines(orig));
    if comments != [] {
      if comments[0] != f.marker {
        kept := [comments[0]];
      }
      if |comments| > 1 {
        if comments[1] != f.extra {
          kept := kept + [comments[1]];
        }
        ghost var first := kept;
        for i := 2 to |comments|
          invariant kept == first + comments[2..i]
        {
          kept := kept + [comments[i]];
        }
      }
    }
    assert kept == Kept(f, comments);
  }

  method PushLines(lines: seq<string>) returns (out: string)
    ensures out == Block(lines)
  {
    out := "";
    for i := 0 to |lines|
      invariant out == Block(lines[..i])
    {
      BlockSnoc(lines[..i], lines[i]);
      assert lines[..i + 1] == lines[..i] + [lines[i]];
      out := out + lines[i] + "\n";
    }
    assert lines[..|lines|] == lines;
  }

  method TrimEnd(text: string) returns (out: string)
    ensures out == TrimBlank(text)
  {
    out := text;
    while EndsBlank(out)
      invariant TrimBlank(out) == TrimBlank(text)
      decreases |out|
    {
      out := out[..|out| - 1];
    }
  }

  method EmitBody(encode: Encoder, version: ResolveVersion) returns (text: string)
    ensures text == Body(encode, version)
  {
    var table := encode(version);
    var packages := EmitPackages(table.packages);
    var patches := EmitPatches(table.unusedPatches);
    text := VersionText(version) + packages + patches + MetadataText(table.metadata);
  }

  method SerializeResolve(encode: Encoder, version: ResolveVersion, orig: Option<string>) returns (out: string)
    ensures out == Serialized(CargoFormat(encode), version, orig)
  {
    var f := CargoFormat(encode);
    var kept := [];
    if orig.Some? {
      kept := PushComments(f, orig.value);
    }
    out := PushLines(Header(f, kept));
    var body := EmitBody(encode, version);
    out := out + body;
    if version.Rank() >= V2.Rank() {
      out := TrimEnd(out);
    }
  }

  // ----- Cargo's text has the form the header laws need -----

  lemma {:induction false} PackagesLike(ps: seq<LockPackage>)
    ensures BodyLike(PackagesText(ps))
  {
    if ps != [] {
      PackagesLike(ps[..|ps| - 1]);
    }
  }

  lemma {:induction false} PatchesLike(ps: seq<LockPackage>)
    ensures BodyLike(PatchesText(ps))
  {
    if ps != [] {
      PatchesLike(ps[..|ps| - 1]);
    }
  }

  lemma {:induction false} MetadataLike(entries: seq<(string, string)>)
    ensures BodyLike(MetadataText(entries))
  {
    if |entries| > 1 {
      MetadataLike(entries[..|entries| - 1]);
    }
  }

  lemma ConcatLike(a: string, b: string)
    requires BodyLike(a) && BodyLike(b)
    ensures BodyLike(a + b)
  {
  }

  lemma BodyIsBodyLike(encode: Encoder, version: ResolveVersion)
    ensures BodyLike(Body(encode, version))
  {
    var a, b := VersionText(version), PackagesText(encode(version).packages);
    var c, d := PatchesText(encode(version).unusedPatches), MetadataText(encode(version).metadata);
    assert BodyLike(a);
    PackagesLike(encode(version).packages);
    PatchesLike(encode(version).unusedPatches);
    MetadataLike(encode(version).metadata);
    ConcatLike(a, b);
    ConcatLike(a + b, c);
    ConcatLike(a + b + c, d);
  }

  lemma Joined(a: string, b: string)
    requires Standing(a) && b != "" && b[|b| - 1] != '\r' && '\n' !in b
    ensures Standing(a + b)
  {
  }

  lemma StandingLines()
    ensures Standing("# This file is " + "automatically " + "@generated " + "by Cargo.")
    ensures Standing("# It is not " + "intended for " + "manual editing.")
  {
    Joined("# This file is ", "automatically ");
    Joined("# This file is " + "automatically ", "@generated ");
    Joined("# This file is " + "automatically " + "@generated ", "by Cargo.");
    Joined("# It is not ", "intended for ");
    Joined("# It is not " + "intended for ", "manual editing.");
  }

  lemma CargoFormatIsSound(encode: Encoder)
    ensures Sound(CargoFormat(encode))
  {
    var f := CargoFormat(encode);
    StandingLines();
    forall v ensures BodyLike(f.body(v)) {
      BodyIsBodyLike(encode, v);
    }
  }

  // ----- Writing -----

  datatype Config = Config(
    lockedFlag: bool,
    nextLockfileBump: bool,
    lowestRust: Option<(nat, nat)>,
    sameResolve: (string, string) -> bool)

  function Settings(c: Config): Workspace {
    Workspace(c.lockedFlag, c.nextLockfileBump, WithRustVersion(c.lowestRust), c.sameResolve)
  }

  /** A resolve beside the lock file of its workspace. */
  class LockedResolve {
    const encode: Encoder
    var version: ResolveVersion
    var disk: Option<string>

    constructor (encode: Encoder, version: ResolveVersion, disk: Option<string>)
      ensures this.encode == encode && this.version == version && this.disk == disk
    {
      this.encode, this.version, this.disk := encode, version, disk;
    }

    method WritePkgLockfile(config: Config) returns (outcome: Outcome)
      modifies this
      ensures (outcome, Saved(version, disk)) == Write(Settings(config), CargoFormat(encode), old(Saved(version, disk)))
    {
      var orig := disk;
      var out := SerializeResolve(encode, version, orig);
      if orig.Some? && EqualLockfiles(Settings(config), orig.value, out) {
        return Unchanged;
      }
      if config.lockedFlag {
        return LockedError;
      }
      var defaultVersion := WithRustVersion(config.lowestRust);
      if version.Rank() < defaultVersion.Rank() {
        version := defaultVersion;
        out := SerializeResolve(encode, version, orig);
      } else if version.Rank() > MaxStable.Rank() && !config.nextLockfileBump {
        return VersionError;
      }
      disk := Some(out);
      return Changed;
    }
  }

  /** Writing twice in a row, for every resolve and every file before: after a write that changed
      something, the second has nothing to do, even where the first raised the version, exactly
      when no comment of the first file ends in two carriage returns. It never fails. */
  lemma SecondLockfileWrite(config: Config, encode: Encoder, s: Saved)
    ensures
      var f := CargoFormat(encode);
      var first := Write(Settings(config), f, s);
      var second := Write(Settings(config), f, first.1);
      if first.0.Changed? then
        if Free(KeptComments(f, s.disk), EndsTwoCr) then second == (Unchanged, first.1) else second.0.Changed?
      else first.1 == s
  {
    CargoFormatIsSound(encode);
    if Write(Settings(config), CargoFormat(encode), s).0.Changed? {
      SecondWrite(Settings(config), CargoFormat(encode), s);
    }
  }

  /** Serialising a resolve against its own output, for every resolve, encoding and earlier file. */
  lemma ResolveTextIsStable(encode: Encoder, version: ResolveVersion, orig: Option<string>)
    ensures
      var f := CargoFormat(encode);
      var text := Serialized(f, version, orig);
      Serialized(f, version, Some(text)) == text <==> Free(KeptComments(f, orig), EndsCr)
  {
    CargoFormatIsSound(encode);
    ReserialiseIsIdentity(CargoFormat(encode), version, orig);
  }
}
