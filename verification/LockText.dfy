/** The text of `Cargo.lock` around its body (`src/ops/lockfile.rs`): the standing first lines,
    the comments kept from the file before, and when writing twice is the same as writing once. */
module LockText {
  import opened Units

  // ----- Lines, as `str::lines` has them -----

  predicate EndsCr(line: string) {
    line != "" && line[|line| - 1] == '\r'
  }

  predicate EndsTwoCr(line: string) {
    EndsCr(line) && EndsCr(line[..|line| - 1])
  }

  /** One carriage return in front of the line feed belongs to the terminator. */
  function StripCr(line: string): string {
    if EndsCr(line) then line[..|line| - 1] else line
  }

  function FirstFeed(s: string): (i: nat)
    ensures i <= |s| && '\n' !in s[..i] && (i < |s| ==> s[i] == '\n')
  {
    if s == "" || s[0] == '\n' then 0
    else
      var i := 1 + FirstFeed(s[1..]);
      assert s[..i] == [s[0]] + s[1..][..i - 1];
      i
  }

  /** A last line without a line feed keeps its carriage return. */
  function Lines(s: string): seq<string>
    decreases |s|
  {
    if s == "" then []
    else
      var i := FirstFeed(s);
      if i == |s| then [s] else [StripCr(s[..i])] + Lines(s[i + 1..])
  }

  function Block(lines: seq<string>): string {
    if lines == [] then "" else lines[0] + "\n" + Block(lines[1..])
  }

  function StripAll(lines: seq<string>): (r: seq<string>)
    ensures |r| == |lines| && forall i | 0 <= i < |r| :: r[i] == StripCr(lines[i])
  {
    if lines == [] then [] else [StripCr(lines[0])] + StripAll(lines[1..])
  }

  predicate IsComment(line: string) {
    line != "" && line[0] == '#'
  }

  function LeadingComments(lines: seq<string>): (r: seq<string>)
    ensures forall c | c in r :: IsComment(c) && c in lines
  {
    if lines == [] || !IsComment(lines[0]) then [] else [lines[0]] + LeadingComments(lines[1..])
  }

  // ----- The text -----

  datatype ResolveVersion = V1 | V2 | V3 | V4 | V5
  {
    function Rank(): nat {
      match this case V1 => 1 case V2 => 2 case V3 => 3 case V4 => 4 case V5 => 5
    }
  }

  /** The two standing lines, and what follows the comments for each encoding of the resolve. */
  datatype Format = Format(marker: string, extra: string, body: ResolveVersion -> string)

  ghost predicate Standing(line: string) {
    IsComment(line) && '\n' !in line && !EndsCr(line)
  }

  /** The body starts a field or a table, if there is anything in it. */
  predicate BodyLike(body: string) {
    body == "" || body[0] == 'v' || body[0] == '['
  }

  ghost predicate Sound(f: Format) {
    Standing(f.marker) && Standing(f.extra) && forall v :: BodyLike(f.body(v))
  }

  predicate EndsBlank(s: string) {
    |s| >= 2 && s[|s| - 1] == '\n' && s[|s| - 2] == '\n'
  }

  function TrimBlank(s: string): (r: string)
    ensures !EndsBlank(r) && r <= s
  {
    if EndsBlank(s) then TrimBlank(s[..|s| - 1]) else s
  }

  /** The leading comments that are pushed again: all but the standing lines in their places. */
  function Kept(f: Format, comments: seq<string>): (r: seq<string>)
    ensures forall c | c in r :: c in comments
  {
    (if comments != [] && comments[0] != f.marker then comments[..1] else [])
    + (if |comments| > 1 && comments[1] != f.extra then comments[1..2] else [])
    + (if |comments| > 2 then comments[2..] else [])
  }

  function KeptComments(f: Format, orig: Option<string>): (r: seq<string>)
    ensures forall c | c in r :: IsComment(c)
  {
    if orig.None? then [] else Kept(f, LeadingComments(Lines(orig.value)))
  }

  function Header(f: Format, kept: seq<string>): seq<string> {
    [f.marker, f.extra] + kept
  }

  /** Encodings from V2 on leave no blank line at the end. */
  function Finish(version: ResolveVersion, text: string): string {
    if version.Rank() >= V2.Rank() then TrimBlank(text) else text
  }

  function Serialized(f: Format, version: ResolveVersion, orig: Option<string>): string {
    Finish(version, Block(Header(f, KeptComments(f, orig))) + f.body(version))
  }

  // ----- Lines of a block -----

  lemma BlockSnoc(lines: seq<string>, line: string)
    ensures Block(lines + [line]) == Block(lines) + line + "\n"
  {
    BlockConcat(lines, [line]);
  }

  lemma {:induction false} BlockConcat(a: seq<string>, b: seq<string>)
    ensures Block(a + b) == Block(a) + Block(b)
  {
    if a == [] {
      assert a + b == b;
    } else {
      assert (a + b)[1..] == a[1..] + b;
      BlockConcat(a[1..], b);
    }
  }

  ghost predicate OneLineEach(lines: seq<string>) {
    forall l | l in lines :: '\n' !in l
  }

  lemma FirstFeedAt(line: string, rest: string)
    requires '\n' !in line
    ensures FirstFeed(line + "\n" + rest) == |line|
  {
    var s := line + "\n" + rest;
    var i := FirstFeed(s);
    assert s[|line|] == '\n';
    assert i <= |line| by {
      assert forall k | 0 <= k < i :: s[k] in s[..i];
    }
  }

  lemma LinesOfTerminated(line: string, rest: string)
    requires '\n' !in line
    ensures Lines(line + "\n" + rest) == [StripCr(line)] + Lines(rest)
  {
    var s := line + "\n" + rest;
    FirstFeedAt(line, rest);
    assert s[..|line|] == line && s[|line| + 1..] == rest;
  }

  lemma Regroup(line: string, block: string, rest: string)
    ensures line + "\n" + block + rest == line + "\n" + (block + rest)
  {
  }

  lemma {:induction false} LinesOfBlock(lines: seq<string>, rest: string)
    requires OneLineEach(lines)
    ensures Lines(Block(lines) + rest) == StripAll(lines) + Lines(rest)
  {
    if lines == [] {
      assert Block(lines) + rest == rest;
    } else {
      var first, others := lines[0], lines[1..];
      LinesOfBlock(others, rest);
      Regroup(first, Block(others), rest);
      LinesOfTerminated(first, Block(others) + rest);
    }
  }

  lemma {:induction false} LinesAreSingle(s: string)
    ensures OneLineEach(Lines(s))
    decreases |s|
  {
    if s != "" {
      var i := FirstFeed(s);
      if i < |s| {
        LinesAreSingle(s[i + 1..]);
      }
    }
  }

  lemma {:induction false} CommentsThenOther(comments: seq<string>, rest: seq<string>)
    requires forall c | c in comments :: IsComment(c)
    requires LeadingComments(rest) == []
    ensures LeadingComments(comments + rest) == comments
  {
    if comments == [] {
      assert comments + rest == rest;
    } else {
      assert (comments + rest)[1..] == comments[1..] + rest;
      CommentsThenOther(comments[1..], rest);
    }
  }

  // ----- The body never looks like a comment, and trimming stays inside it -----

  lemma NoCommentInBody(body: string)
    requires BodyLike(body)
    ensures LeadingComments(Lines(body)) == []
  {
    if body != "" {
      assert FirstFeed(body) > 0;
    }
  }

  lemma {:induction false} TrimStaysInBody(head: string, body: string)
    requires head != "" && !EndsBlank(head) && BodyLike(body)
    ensures TrimBlank(head + body) == head + TrimBlank(body)
    ensures BodyLike(TrimBlank(body))
    decreases |body|
  {
    if body == "" {
      assert head + body == head;
    } else if EndsBlank(head + body) {
      assert EndsBlank(body);
      assert (head + body)[..|head + body| - 1] == head + body[..|body| - 1];
      TrimStaysInBody(head, body[..|body| - 1]);
    }
  }

  lemma BlockEndsOnce(lines: seq<string>)
    requires lines != [] && OneLineEach(lines) && forall l | l in lines :: IsComment(l)
    ensures Block(lines) != "" && !EndsBlank(Block(lines))
  {
    var n := |lines| - 1;
    var l := lines[n];
    assert lines == lines[..n] + [l];
    BlockSnoc(lines[..n], l);
    var b := Block(lines);
    assert l in lines;
    assert b[|b| - 2] == l[|l| - 1];
  }

  // ----- What one serialisation leaves for the next -----

  lemma KeptAreLines(f: Format, orig: Option<string>)
    ensures OneLineEach(KeptComments(f, orig))
  {
    if orig.Some? {
      LinesAreSingle(orig.value);
    }
  }

  /** Every output is its header block followed by a body that holds no leading comment. */
  lemma SerializedShape(f: Format, version: ResolveVersion, orig: Option<string>)
    requires Sound(f)
    ensures BodyLike(Finish(version, f.body(version)))
    ensures Serialized(f, version, orig)
         == Block(Header(f, KeptComments(f, orig))) + Finish(version, f.body(version))
  {
    var header := Header(f, KeptComments(f, orig));
    KeptAreLines(f, orig);
    BlockEndsOnce(header);
    if version.Rank() >= V2.Rank() {
      TrimStaysInBody(Block(header), f.body(version));
    }
  }

  lemma StripHeader(f: Format, kept: seq<string>)
    requires Sound(f)
    ensures StripAll(Header(f, kept)) == Header(f, StripAll(kept))
  {
    var a, b := StripAll(Header(f, kept)), Header(f, StripAll(kept));
    assert a[0] == b[0] && a[1] == b[1];
    forall i | 2 <= i < |a| ensures a[i] == b[i] {
      assert Header(f, kept)[i] == kept[i - 2];
    }
  }

  lemma StrippedComments(kept: seq<string>)
    requires forall c | c in kept :: IsComment(c)
    ensures forall l | l in StripAll(kept) :: IsComment(l)
  {
    forall l | l in StripAll(kept) ensures IsComment(l) {
      var i :| 0 <= i < |kept| && l == StripCr(kept[i]);
      assert kept[i] in kept;
    }
  }

  lemma HeaderLines(f: Format, kept: seq<string>, body: string)
    requires Sound(f) && OneLineEach(kept) && (forall c | c in kept :: IsComment(c)) && BodyLike(body)
    ensures Lines(Block(Header(f, kept)) + body) == Header(f, StripAll(kept)) + Lines(body)
    ensures LeadingComments(Lines(Block(Header(f, kept)) + body)) == Header(f, StripAll(kept))
  {
    LinesOfBlock(Header(f, kept), body);
    StripHeader(f, kept);
    NoCommentInBody(body);
    StrippedComments(kept);
    CommentsThenOther(Header(f, StripAll(kept)), Lines(body));
  }

  /** The comments a file carries survive being written, in order, each without one trailing
      carriage return; this is so whatever resolves the two writes are for. */
  lemma CommentsSurvive(f: Format, version: ResolveVersion, orig: Option<string>)
    requires Sound(f)
    ensures KeptComments(f, Some(Serialized(f, version, orig))) == StripAll(KeptComments(f, orig))
  {
    var kept := KeptComments(f, orig);
    KeptAreLines(f, orig);
    SerializedShape(f, version, orig);
    HeaderLines(f, kept, Finish(version, f.body(version)));
    var h := Header(f, StripAll(kept));
    assert h[0] == f.marker && h[1] == f.extra && h[2..] == StripAll(kept);
  }

  ghost predicate Free(lines: seq<string>, bad: string -> bool) {
    forall i | 0 <= i < |lines| :: !bad(lines[i])
  }

  lemma {:induction false} BlockLength(lines: seq<string>)
    ensures |Block(StripAll(lines))| <= |Block(lines)|
    ensures |Block(StripAll(lines))| == |Block(lines)| ==> StripAll(lines) == lines
  {
    if lines != [] {
      BlockLength(lines[1..]);
      assert lines == [lines[0]] + lines[1..];
    }
  }

  lemma StripChangesNothing(lines: seq<string>)
    ensures StripAll(lines) == lines <==> Free(lines, EndsCr)
  {
    if StripAll(lines) == lines {
      forall i | 0 <= i < |lines| ensures !EndsCr(lines[i]) {
        assert StripAll(lines)[i] == StripCr(lines[i]);
      }
    }
  }

  lemma StripTwice(lines: seq<string>)
    ensures StripAll(StripAll(lines)) == StripAll(lines) <==> Free(lines, EndsTwoCr)
  {
    StripChangesNothing(StripAll(lines));
    forall i | 0 <= i < |lines| ensures EndsCr(StripAll(lines)[i]) <==> EndsTwoCr(lines[i]) {}
  }

  /** Serialising against one's own output gives that output back exactly when no comment carried
      over from the file before ends in a carriage return. */
  lemma ReserialiseIsIdentity(f: Format, version: ResolveVersion, orig: Option<string>)
    requires Sound(f)
    ensures
      var text := Serialized(f, version, orig);
      Serialized(f, version, Some(text)) == text <==> Free(KeptComments(f, orig), EndsCr)
  {
    var text, kept := Serialized(f, version, orig), KeptComments(f, orig);
    CommentsSurvive(f, version, orig);
    SerializedShape(f, version, orig);
    SerializedShape(f, version, Some(text));
    BlockConcat([f.marker, f.extra], kept);
    BlockConcat([f.marker, f.extra], StripAll(kept));
    BlockLength(kept);
    StripChangesNothing(kept);
  }

  /** Line by line the comparison is blind to one carriage return, so it takes two to be seen. */
  lemma ReserialiseHasSameLines(f: Format, version: ResolveVersion, orig: Option<string>)
    requires Sound(f)
    ensures
      var text := Serialized(f, version, orig);
      Lines(text) == Lines(Serialized(f, version, Some(text))) <==> Free(KeptComments(f, orig), EndsTwoCr)
  {
    var text, kept := Serialized(f, version, orig), KeptComments(f, orig);
    var body := Finish(version, f.body(version));
    CommentsSurvive(f, version, orig);
    SerializedShape(f, version, orig);
    SerializedShape(f, version, Some(text));
    KeptAreLines(f, orig);
    KeptAreLines(f, Some(text));
    HeaderLines(f, kept, body);
    HeaderLines(f, StripAll(kept), body);
    StripTwice(kept);
    SameTail(f, StripAll(kept), StripAll(StripAll(kept)), Lines(body));
  }

  lemma SameTail(f: Format, a: seq<string>, b: seq<string>, tail: seq<string>)
    requires |a| == |b|
    ensures Header(f, a) + tail == Header(f, b) + tail <==> a == b
  {
    var n := |a| + 2;
    if Header(f, a) + tail == Header(f, b) + tail {
      assert a == (Header(f, a) + tail)[2..n];
      assert b == (Header(f, b) + tail)[2..n];
    }
  }

  // ----- Writing the file -----

  const MaxStable := V4

  /** The flags, the default encoding for the minimum Rust version of the workspace, and whether
      two texts parse to equal resolves. */
  datatype Workspace = Workspace(
    lockedFlag: bool,
    nextLockfileBump: bool,
    defaultVersion: ResolveVersion,
    sameResolve: (string, string) -> bool)

  datatype Outcome = Changed | Unchanged | LockedError | VersionError

  predicate EqualLockfiles(ws: Workspace, orig: string, current: string) {
    (ws.lockedFlag && ws.sameResolve(orig, current)) || Lines(orig) == Lines(current)
  }

  /** `disk` is the text of the file, where it can be read. */
  datatype Saved = Saved(version: ResolveVersion, disk: Option<string>)

  function Write(ws: Workspace, f: Format, s: Saved): (Outcome, Saved) {
    var out := Serialized(f, s.version, s.disk);
    if s.disk.Some? && EqualLockfiles(ws, s.disk.value, out) then (Unchanged, s)
    else if ws.lockedFlag then (LockedError, s)
    else if s.version.Rank() < ws.defaultVersion.Rank() then
      (Changed, Saved(ws.defaultVersion, Some(Serialized(f, ws.defaultVersion, s.disk))))
    else if s.version.Rank() > MaxStable.Rank() && !ws.nextLockfileBump then (VersionError, s)
    else (Changed, Saved(s.version, Some(out)))
  }

  lemma ChangedWrites(ws: Workspace, f: Format, s: Saved)
    requires Write(ws, f, s).0 == Changed && ws.defaultVersion.Rank() <= MaxStable.Rank()
    ensures
      var s' := Write(ws, f, s).1;
      && s'.disk == Some(Serialized(f, s'.version, s.disk))
      && !ws.lockedFlag && ws.defaultVersion.Rank() <= s'.version.Rank()
      && (s'.version.Rank() <= MaxStable.Rank() || ws.nextLockfileBump)
  {
  }

  /** After a write, with or without a version bump, the next write of the same resolve changes
      nothing and says so, exactly when no comment of the file before ends in two carriage
      returns; otherwise it writes once more. */
  lemma SecondWrite(ws: Workspace, f: Format, s: Saved)
    requires Sound(f) && ws.defaultVersion.Rank() <= MaxStable.Rank()
    requires Write(ws, f, s).0 == Changed
    ensures
      var s' := Write(ws, f, s).1;
      Write(ws, f, s')
      == if Free(KeptComments(f, s.disk), EndsTwoCr) then (Unchanged, s')
         else (Changed, Saved(s'.version, Some(Serialized(f, s'.version, s'.disk))))
  {
    ChangedWrites(ws, f, s);
    ReserialiseHasSameLines(f, Write(ws, f, s).1.version, s.disk);
  }

  // ----- Writing until it settles -----

  function TrailingCrs(line: string): nat {
    if EndsCr(line) then 1 + TrailingCrs(line[..|line| - 1]) else 0
  }

  function Iterate<S>(step: S -> S, s: S, times: nat): S
    decreases times
  {
    if times == 0 then s else Iterate(step, step(s), times - 1)
  }

  function Below(n: nat): nat {
    if n == 0 then 0 else n - 1
  }

  lemma {:induction false} CountsDown<S(!new)>(step: S -> S, inv: (S, nat) -> bool, s: S, n: nat)
    requires forall x, k | inv(x, k) :: inv(step(x), Below(k))
    requires inv(s, n)
    ensures inv(Iterate(step, s, n), 0)
    decreases n
  {
    if n > 0 {
      assert Below(n) == n - 1;
      CountsDown(step, inv, step(s), Below(n));
    }
  }

  ghost predicate CrsAtMost(lines: seq<string>, n: nat) {
    forall i | 0 <= i < |lines| :: TrailingCrs(lines[i]) <= n
  }

  lemma OneLess(lines: seq<string>, n: nat)
    requires CrsAtMost(lines, n + 1)
    ensures CrsAtMost(StripAll(lines), n)
    ensures n == 0 ==> Free(lines, EndsTwoCr)
  {
    forall i | 0 <= i < |lines| ensures TrailingCrs(StripAll(lines)[i]) <= n && (EndsTwoCr(lines[i]) ==> n > 0) {
      assert TrailingCrs(lines[i]) <= n + 1;
    }
  }

  function WriteTimes(ws: Workspace, f: Format, s: Saved, times: nat): Saved {
    Iterate((x: Saved) => Write(ws, f, x).1, s, times)
  }

  /** Either nothing is left to write, or at most `n` writes are. */
  ghost predicate Settling(ws: Workspace, f: Format, s: Saved, n: nat) {
    || Write(ws, f, s) == (Unchanged, s)
    || (n > 0 && Write(ws, f, s).0 == Changed && CrsAtMost(KeptComments(f, s.disk), n))
  }

  lemma SettlingStep(ws: Workspace, f: Format, s: Saved, n: nat)
    requires Sound(f) && ws.defaultVersion.Rank() <= MaxStable.Rank() && Settling(ws, f, s, n)
    ensures Settling(ws, f, Write(ws, f, s).1, Below(n))
  {
    if Write(ws, f, s).0 == Changed {
      SecondWrite(ws, f, s);
      NextComments(ws, f, s);
      OneLess(KeptComments(f, s.disk), n - 1);
    }
  }

  lemma NextComments(ws: Workspace, f: Format, s: Saved)
    requires Sound(f) && ws.defaultVersion.Rank() <= MaxStable.Rank() && Write(ws, f, s).0 == Changed
    ensures KeptComments(f, Write(ws, f, s).1.disk) == StripAll(KeptComments(f, s.disk))
  {
    ChangedWrites(ws, f, s);
    CommentsSurvive(f, Write(ws, f, s).1.version, s.disk);
  }

  /** A rewrite drops one carriage return from each comment, so `n` of them at the most leave
      nothing to do after `n` writes (one write at least). */
  lemma WritesSettle(ws: Workspace, f: Format, s: Saved, n: nat)
    requires Sound(f) && ws.defaultVersion.Rank() <= MaxStable.Rank()
    requires Write(ws, f, s).0 == Changed && n > 0 && CrsAtMost(KeptComments(f, s.disk), n)
    ensures Write(ws, f, WriteTimes(ws, f, s, n)).0 == Unchanged
  {
    var step := (x: Saved) => Write(ws, f, x).1;
    var inv := (x: Saved, k: nat) => Settling(ws, f, x, k);
    forall x, k | inv(x, k) ensures inv(step(x), Below(k)) {
      SettlingStep(ws, f, x, k);
    }
    CountsDown(step, inv, s, n);
    assert inv(WriteTimes(ws, f, s, n), 0);
  }
}
