/** The words of a `rustc-flags` directive (`src/compiler/custom_build.rs`, `parse_rustc_flags`),
    and the string operations directives are read with. */
module RustcFlags {
  import opened Units

  // ----- Strings -----

  /** `char::is_whitespace`. */
  predicate IsSpace(c: char) {
    || '\U{0009}' <= c <= '\U{000D}' || c == ' ' || c == '\U{0085}' || c == '\U{00A0}' || c == '\U{1680}'
    || '\U{2000}' <= c <= '\U{200A}' || c == '\U{2028}' || c == '\U{2029}' || c == '\U{202F}'
    || c == '\U{205F}' || c == '\U{3000}'
  }

  function TrimStart(s: string): string {
    if s != "" && IsSpace(s[0]) then TrimStart(s[1..]) else s
  }

  function TrimEnd(s: string): (r: string)
    ensures r <= s && (r != "" ==> !IsSpace(r[|r| - 1]))
  {
    if s != "" && IsSpace(s[|s| - 1]) then TrimEnd(s[..|s| - 1]) else s
  }

  function Trim(s: string): string {
    TrimEnd(TrimStart(s))
  }

  /** Splits around the first `=`, which is also what `splitn(2, "=")` gives. */
  function SplitOnce(s: string): Option<(string, string)> {
    if s == "" then None
    else if s[0] == '=' then Some(("", s[1..]))
    else match SplitOnce(s[1..])
      case None => None
      case Some((a, b)) => Some(([s[0]] + a, b))
  }

  lemma {:induction false} SplitAtFirst(key: string, value: string)
    requires '=' !in key
    ensures SplitOnce(key + "=" + value) == Some((key, value))
  {
    var s := key + "=" + value;
    if key == "" {
      assert s[1..] == value;
    } else {
      assert s[1..] == key[1..] + "=" + value;
      assert s[0] == key[0] && key == [key[0]] + key[1..];
      SplitAtFirst(key[1..], value);
    }
  }

  /** The maximal runs of other characters, in order. */
  function Words(s: string): (r: seq<string>)
    ensures forall w | w in r :: w != "" && forall c | c in w :: !IsSpace(c)
    decreases |s|
  {
    if s == "" then []
    else if IsSpace(s[0]) then Words(s[1..])
    else
      var n := WordLength(s);
      [s[..n]] + Words(s[n..])
  }

  function WordLength(s: string): (n: nat)
    ensures n <= |s| && (forall c | c in s[..n] :: !IsSpace(c))
    ensures s != "" && !IsSpace(s[0]) ==> n > 0
    ensures n < |s| ==> IsSpace(s[n])
  {
    if s == "" || IsSpace(s[0]) then 0
    else
      var n := 1 + WordLength(s[1..]);
      assert s[..n] == [s[0]] + s[1..][..n - 1];
      n
  }

  // ----- Flags -----

  /** What one flag says. `attached` tells `-lfoo` from `-l foo`. */
  datatype Flag = Flag(isLink: bool, value: string, attached: bool)

  function Letter(f: Flag): string {
    if f.isLink then "-l" else "-L"
  }

  function Render(flags: seq<Flag>): seq<string> {
    if flags == [] then []
    else
      var f := flags[|flags| - 1];
      Render(flags[..|flags| - 1]) + if f.attached then [Letter(f) + f.value] else [Letter(f), f.value]
  }

  function Select(flags: seq<Flag>, isLink: bool): seq<string> {
    if flags == [] then []
    else
      var f := flags[|flags| - 1];
      Select(flags[..|flags| - 1], isLink) + if f.isLink == isLink then [f.value] else []
  }

  ghost predicate Proper(flags: seq<Flag>) {
    forall f | f in flags :: f.value != ""
  }

  ghost predicate Denotes(words: seq<string>, flags: seq<Flag>) {
    Proper(flags) && Render(flags) == words
  }

  /** `words` is what some flags look like. */
  ghost predicate WellFormed(words: seq<string>) {
    exists flags :: Denotes(words, flags)
  }

  /** One flag at the front, if there is one: `None` for an unknown flag or a missing value. */
  function Front(words: seq<string>): Option<Flag> {
    if words == [] || |words[0]| < 2 || words[0][0] != '-' || words[0][1] !in "lL" then None
    else if |words[0]| > 2 then Some(Flag(words[0][1] == 'l', words[0][2..], true))
    else if |words| > 1 then Some(Flag(words[0][1] == 'l', words[1], false))
    else None
  }

  function Width(f: Flag): nat {
    if f.attached then 1 else 2
  }

  /** The reading, flag by flag from the front. */
  function Read(words: seq<string>): Option<seq<Flag>> {
    if words == [] then Some([])
    else match Front(words)
      case None => None
      case Some(f) =>
        match Read(words[Width(f)..])
        case None => None
        case Some(rest) => Some([f] + rest)
  }

  lemma {:induction false} RenderConcat(a: seq<Flag>, b: seq<Flag>)
    ensures Render(a + b) == Render(a) + Render(b)
  {
    if b == [] {
      assert a + b == a;
    } else {
      assert (a + b)[..|a + b| - 1] == a + b[..|b| - 1];
      RenderConcat(a, b[..|b| - 1]);
    }
  }

  lemma FrontOfRender(f: Flag, rest: seq<string>)
    requires f.value != ""
    ensures Front(Render([f]) + rest) == Some(f)
    ensures |Render([f])| == Width(f)
  {
    assert Render([f]) == if f.attached then [Letter(f) + f.value] else [Letter(f), f.value];
    assert (Letter(f) + f.value)[2..] == f.value;
  }

  /** Reading undoes rendering. */
  lemma {:induction false} ReadRender(flags: seq<Flag>)
    requires Proper(flags)
    ensures Read(Render(flags)) == Some(flags)
  {
    if flags != [] {
      var f, rest := flags[0], flags[1..];
      assert flags == [f] + rest;
      RenderConcat([f], rest);
      FrontOfRender(f, Render(rest));
      assert Render(flags)[Width(f)..] == Render(rest);
      ReadRender(rest);
    }
  }

  lemma RenderFront(words: seq<string>, f: Flag)
    requires Front(words) == Some(f)
    ensures Width(f) <= |words| && Render([f]) == words[..Width(f)]
  {
    assert Render([f]) == if f.attached then [Letter(f) + f.value] else [Letter(f), f.value];
    assert Letter(f) == words[0][..2];
    if f.attached {
      assert words[0] == words[0][..2] + words[0][2..];
    } else {
      assert words[0] == words[0][..2];
    }
  }

  /** Rendering undoes reading. */
  lemma {:induction false} RenderRead(words: seq<string>)
    requires forall i | 0 <= i < |words| :: words[i] != ""
    requires Read(words).Some?
    ensures Denotes(words, Read(words).value)
  {
    if words != [] {
      var f := Front(words).value;
      RenderFront(words, f);
      var tail := words[Width(f)..];
      RenderRead(tail);
      RenderConcat([f], Read(tail).value);
      assert words == words[..Width(f)] + tail;
      assert f.value != "";
    }
  }

  datatype FlagsResult = Flags(paths: seq<string>, links: seq<string>) | BadFlags

  ghost predicate Progress(words: seq<string>, i: nat, done: seq<Flag>) {
    && i <= |words|
    && match Read(words[i..]) case None => Read(words) == None case Some(rest) => Read(words) == Some(done + rest)
  }

  lemma ProgressStarts(words: seq<string>)
    ensures Progress(words, 0, [])
  {
    assert words[0..] == words;
    assert forall rest: seq<Flag> :: [] + rest == rest;
  }

  lemma ProgressStep(words: seq<string>, i: nat, done: seq<Flag>, f: Flag)
    requires Progress(words, i, done) && Front(words[i..]) == Some(f)
    ensures Progress(words, i + Width(f), done + [f])
  {
    assert words[i..][Width(f)..] == words[i + Width(f)..];
    assert forall rest: seq<Flag> :: done + ([f] + rest) == done + [f] + rest;
  }

  lemma SelectSnoc(done: seq<Flag>, f: Flag, isLink: bool)
    ensures Select(done + [f], isLink) == Select(done, isLink) + if f.isLink == isLink then [f.value] else []
  {
    assert (done + [f])[..|done|] == done;
  }

  /** The loop of `parse_rustc_flags`. */
  method ReadFlags(words: seq<string>) returns (r: FlagsResult)
    ensures r == FlagsIn(words)
  {
    var paths, links: seq<string> := [], [];
    ghost var done: seq<Flag> := [];
    ProgressStarts(words);
    var i := 0;
    while i < |words|
      invariant Progress(words, i, done)
      invariant paths == Select(done, false) && links == Select(done, true)
    {
      var word := words[i];
      if |word| < 2 || word[0] != '-' || (word[1] != 'l' && word[1] != 'L') {
        return BadFlags;
      }
      var text, next := word[2..], i + 1;
      if text == "" {
        if next == |words| {
          return BadFlags;
        }
        text, next := words[next], next + 1;
      }
      ghost var f := Flag(word[1] == 'l', text, next == i + 1);
      assert Front(words[i..]) == Some(f);
      ProgressStep(words, i, done, f);
      SelectSnoc(done, f, true);
      SelectSnoc(done, f, false);
      if word[1] == 'l' {
        links := links + [text];
      } else {
        paths := paths + [text];
      }
      done := done + [f];
      i := next;
    }
    assert words[i..] == [] && done + [] == done;
    r := Flags(paths, links);
  }

  /** Exactly the renderings of flag lists are accepted, and the values of the list come back,
      libraries and paths each in order. */
  method ParseRustcFlags(value: string) returns (r: FlagsResult)
    ensures r.Flags? <==> WellFormed(Words(Trim(value)))
    ensures forall flags | Denotes(Words(Trim(value)), flags) ::
      r == Flags(Select(flags, false), Select(flags, true))
    ensures r == FlagsIn(Words(Trim(value)))
  {
    var words := Words(Trim(value));
    assert forall i | 0 <= i < |words| :: words[i] in words;
    ReadMeaning(words);
    r := ReadFlags(words);
  }

  /** The result as a value, for the specifications that build on it. */
  function FlagsIn(words: seq<string>): FlagsResult {
    match Read(words)
    case None => BadFlags
    case Some(flags) => Flags(Select(flags, false), Select(flags, true))
  }

  lemma ReadMeaning(words: seq<string>)
    requires forall i | 0 <= i < |words| :: words[i] != ""
    ensures Read(words).Some? <==> WellFormed(words)
    ensures forall flags | Denotes(words, flags) :: Read(words) == Some(flags)
  {
    forall flags | Denotes(words, flags) ensures Read(words) == Some(flags) {
      ReadRender(flags);
    }
    if Read(words).Some? {
      RenderRead(words);
    }
  }
}
