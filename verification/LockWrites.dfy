/** What writing the lock file does, said of the file before and after: which comments stay, which version is
    written, and when nothing is. */
module LockWrites {
  import opened Units
  import opened LockText
  import opened LockfileWriter

  // ----- Comments -----

  /** The line belongs to the comments at the top, and is not a standing line in its place. */
  predicate Stays(f: Format, lines: seq<string>, i: nat)
    requires i < |lines|
  {
    && (forall k | 0 <= k <= i :: IsComment(lines[k]))
    && !(i == 0 && lines[i] == f.marker) && !(i == 1 && lines[i] == f.extra)
  }

  function Staying(f: Format, lines: seq<string>, n: nat): seq<string>
    requires n <= |lines|
  {
    if n == 0 then [] else Staying(f, lines, n - 1) + if Stays(f, lines, n - 1) then [lines[n - 1]] else []
  }

  lemma {:induction false} LeadingIsPrefix(lines: seq<string>) returns (n: nat)
    ensures n <= |lines| && LeadingComments(lines) == lines[..n]
    ensures (forall k | 0 <= k < n :: IsComment(lines[k])) && (n < |lines| ==> !IsComment(lines[n]))
  {
    if lines == [] || !IsComment(lines[0]) {
      n := 0;
    } else {
      var m := LeadingIsPrefix(lines[1..]);
      n := m + 1;
      assert lines[..n] == [lines[0]] + lines[1..][..m];
    }
  }

  lemma KeptSnoc(f: Format, lines: seq<string>, n: nat)
    requires n < |lines| && forall k | 0 <= k <= n :: IsComment(lines[k])
    ensures Kept(f, lines[..n + 1]) == Kept(f, lines[..n]) + if Stays(f, lines, n) then [lines[n]] else []
  {
    var now, more := lines[..n], lines[..n + 1];
    if n >= 2 {
      assert more[2..] == now[2..] + [lines[n]];
      assert now[..1] == more[..1] && now[1..2] == more[1..2];
    } else if n == 1 {
      assert more[1..2] == [lines[1]] && now[..1] == more[..1];
    } else {
      assert more[..1] == [lines[0]];
    }
  }

  lemma {:induction false} StayingIsKept(f: Format, lines: seq<string>, n: nat, m: nat)
    requires n <= m <= |lines| && (forall k | 0 <= k < n :: IsComment(lines[k])) && (n < |lines| ==> !IsComment(lines[n]))
    ensures Staying(f, lines, m) == Kept(f, lines[..n])
    decreases m
  {
    if m > n {
      StayingIsKept(f, lines, n, m - 1);
    } else {
      StayingOfComments(f, lines, n);
    }
  }

  lemma {:induction false} StayingOfComments(f: Format, lines: seq<string>, n: nat)
    requires n <= |lines| && forall k | 0 <= k < n :: IsComment(lines[k])
    ensures Staying(f, lines, n) == Kept(f, lines[..n])
  {
    if n > 0 {
      StayingOfComments(f, lines, n - 1);
      KeptSnoc(f, lines, n - 1);
    }
  }

  /** The lines of the written file: the two standing lines, the comments at the top of the old file that are not
      standing lines in their places, in order and each without one carriage return, and then the body. */
  lemma WrittenLines(f: Format, version: ResolveVersion, orig: string)
    requires Sound(f)
    ensures Lines(Serialized(f, version, Some(orig)))
         == [f.marker, f.extra] + StripAll(Staying(f, Lines(orig), |Lines(orig)|)) + Lines(Finish(version, f.body(version)))
  {
    var lines := Lines(orig);
    var n := LeadingIsPrefix(lines);
    StayingIsKept(f, lines, n, |lines|);
    KeptAreLines(f, Some(orig));
    SerializedShape(f, version, Some(orig));
    HeaderLines(f, KeptComments(f, Some(orig)), Finish(version, f.body(version)));
  }

  // ----- Versions -----

  predicate AtLeast(rust: Option<(nat, nat)>, major: nat, minor: nat) {
    rust.None? || rust.value.0 > major || (rust.value.0 == major && rust.value.1 >= minor)
  }

  /** The stable versions that the oldest Rust of the workspace can read. */
  predicate Readable(rust: Option<(nat, nat)>, v: ResolveVersion) {
    match v
    case V1 => true
    case V2 => AtLeast(rust, 1, 41)
    case V3 => AtLeast(rust, 1, 53)
    case V4 => AtLeast(rust, 1, 83)
    case V5 => false
  }

  /** A workspace gets the highest of them. */
  lemma VersionExactly(rust: Option<(nat, nat)>, v: ResolveVersion)
    ensures v.Rank() <= WithRustVersion(rust).Rank() <==> Readable(rust, v)
  {}

  // ----- Outcomes -----

  /** Nothing is written if the lines are the same or, under `--locked`, the resolve is; otherwise `--locked` refuses,
      an unstable version needs its flag, and the file is written in the version it had or, where that is higher, in the
      one the workspace's Rust can read. A refusal leaves everything as it was. */
  lemma WriteOutcomes(config: Config, encode: Encoder, s: Saved)
    ensures
      var (outcome, s') := Write(Settings(config), CargoFormat(encode), s);
      var text := Serialized(CargoFormat(encode), s.version, s.disk);
      var same := s.disk.Some? &&
        (Lines(s.disk.value) == Lines(text) || (config.lockedFlag && config.sameResolve(s.disk.value, text)));
      && (outcome == Unchanged <==> same)
      && (outcome == LockedError <==> !same && config.lockedFlag)
      && (outcome == VersionError <==> !same && !config.lockedFlag && s.version == V5 && !config.nextLockfileBump)
      && (outcome != Changed ==> s' == s)
      && (outcome == Changed ==>
            && s'.disk == Some(Serialized(CargoFormat(encode), s'.version, s.disk))
            && (s'.version == s.version || (s.version.Rank() < s'.version.Rank() && Readable(config.lowestRust, s'.version)))
            && forall v: ResolveVersion | Readable(config.lowestRust, v) :: v.Rank() <= s'.version.Rank())
  {
    forall v: ResolveVersion ensures v.Rank() <= WithRustVersion(config.lowestRust).Rank() <==> Readable(config.lowestRust, v) {
      VersionExactly(config.lowestRust, v);
    }
  }
}
