/** The removal marks of `cargo clean` (`src/ops/cargo_clean.rs`, `DirectoriesToClean`). */
module CleanMarks {
  import opened Units

  type Dir = string

  /** A file name; `text` is absent where it is not valid UTF-8. */
  datatype OsName = OsName(bytes: seq<nat>, text: Option<string>)

  type Matcher = OsName -> bool

  /** One call of `mark`. `listing` is what reading the directory gives at that moment. */
  datatype Call = Call(dir: Dir, removes: Matcher, listing: Option<seq<OsName>>)

  /** `mark_utf`: names that are not UTF-8 are never removed. */
  function Utf(removes: string -> bool): Matcher {
    (name: OsName) => name.text.Some? && removes(name.text.value)
  }

  function Keep(names: seq<OsName>, removes: Matcher): (r: seq<OsName>)
    ensures forall n :: n in r <==> n in names && !removes(n)
  {
    if names == [] then []
    else
      var init, last := names[..|names| - 1], names[|names| - 1];
      assert names == init + [last];
      if removes(last) then Keep(init, removes) else Keep(init, removes) + [last]
  }

  /** `contents` are the entries still unmarked, `toRemove` the marked ones. */
  datatype Marks = Marks(contents: map<Dir, seq<OsName>>, toRemove: set<(Dir, OsName)>)

  const NoMarks := Marks(map[], {})

  /** The entries of the directory as the call sees them: the cache, or a first listing. */
  function Seen(m: Marks, c: Call): Option<seq<OsName>> {
    if c.dir in m.contents then Some(m.contents[c.dir]) else c.listing
  }

  function MarkOnce(m: Marks, c: Call): Marks {
    match Seen(m, c)
    case None => m
    case Some(names) =>
      Marks(m.contents[c.dir := Keep(names, c.removes)],
            m.toRemove + set n | n in names && c.removes(n) :: (c.dir, n))
  }

  function MarkAll(calls: seq<Call>): Marks {
    if calls == [] then NoMarks else MarkOnce(MarkAll(calls[..|calls| - 1]), calls[|calls| - 1])
  }

  class DirectoriesToClean {
    var dirContents: map<Dir, seq<OsName>>
    var toRemove: set<(Dir, OsName)>

    function State(): Marks
      reads this
    {
      Marks(dirContents, toRemove)
    }

    constructor ()
      ensures State() == NoMarks
    {
      dirContents, toRemove := map[], {};
    }

    method Mark(directory: Dir, removes: Matcher, listing: Option<seq<OsName>>)
      modifies this
      ensures State() == MarkOnce(old(State()), Call(directory, removes, listing))
    {
      if directory !in dirContents {
        if listing.None? {
          return;
        }
        dirContents := dirContents[directory := listing.value];
      }
      var names := dirContents[directory];
      var kept := Retain(directory, removes, names);
      dirContents := dirContents[directory := kept];
    }

    /** One pass over the entries keeps those that stay and collects those that go. */
    method Retain(directory: Dir, removes: Matcher, names: seq<OsName>) returns (kept: seq<OsName>)
      modifies this`toRemove
      ensures kept == Keep(names, removes)
      ensures toRemove == old(toRemove) + set n | n in names && removes(n) :: (directory, n)
    {
      kept := [];
      for i := 0 to |names|
        invariant kept == Keep(names[..i], removes)
        invariant toRemove == old(toRemove) + set n | n in names[..i] && removes(n) :: (directory, n)
      {
        assert names[..i + 1] == names[..i] + [names[i]];
        assert names[..i + 1][..i] == names[..i];
        if removes(names[i]) {
          toRemove := toRemove + {(directory, names[i])};
        } else {
          kept := kept + [names[i]];
        }
      }
      assert names[..|names|] == names;
    }

    method MarkUtf(directory: Dir, removes: string -> bool, listing: Option<seq<OsName>>)
      modifies this
      ensures State() == MarkOnce(old(State()), Call(directory, Utf(removes), listing))
    {
      Mark(directory, Utf(removes), listing);
    }
  }

  // ----- What any sequence of calls amounts to -----

  /** The first listing that could be read for the directory. */
  function FirstListing(calls: seq<Call>, dir: Dir): Option<seq<OsName>> {
    if calls == [] then None
    else
      var earlier := FirstListing(calls[..|calls| - 1], dir);
      if earlier.Some? then earlier
      else if calls[|calls| - 1].dir == dir then calls[|calls| - 1].listing
      else None
  }

  /** Some call for the directory, once it could be read, removes the name. */
  predicate Marked(calls: seq<Call>, dir: Dir, name: OsName) {
    calls != [] &&
    (|| Marked(calls[..|calls| - 1], dir, name)
     || (calls[|calls| - 1].dir == dir && FirstListing(calls, dir).Some? && calls[|calls| - 1].removes(name)))
  }

  lemma {:induction false} KeepTwice(names: seq<OsName>, a: Matcher, b: Matcher, both: Matcher)
    requires forall n :: both(n) <==> a(n) || b(n)
    ensures Keep(Keep(names, a), b) == Keep(names, both)
  {
    if names != [] {
      var init, last := names[..|names| - 1], names[|names| - 1];
      KeepTwice(init, a, b, both);
      if !a(last) {
        assert (Keep(init, a) + [last])[..|Keep(init, a)|] == Keep(init, a);
      }
    }
  }

  lemma {:induction false} KeepSame(names: seq<OsName>, a: Matcher, b: Matcher)
    requires forall n :: a(n) <==> b(n)
    ensures Keep(names, a) == Keep(names, b)
  {
    if names != [] {
      KeepSame(names[..|names| - 1], a, b);
    }
  }

  ghost predicate Split(calls: seq<Call>, dir: Dir, m: Marks) {
    match FirstListing(calls, dir)
    case None => dir !in m.contents && forall n :: (dir, n) !in m.toRemove
    case Some(names) =>
      && dir in m.contents
      && m.contents[dir] == Keep(names, (n: OsName) => Marked(calls, dir, n))
      && forall n :: (dir, n) in m.toRemove <==> n in names && Marked(calls, dir, n)
  }

  /** The first listing of each directory splits exactly into what is left, in order, and what is
      to be removed; calls made before the directory could be read have no effect. */
  lemma {:induction false} MarksSplitListing(calls: seq<Call>, dir: Dir)
    ensures Split(calls, dir, MarkAll(calls))
  {
    if calls != [] {
      var init, c := calls[..|calls| - 1], calls[|calls| - 1];
      MarksSplitListing(init, dir);
      if c.dir == dir {
        SplitStep(calls, dir);
      } else {
        var f := FirstListing(init, dir);
        if f.Some? {
          KeepSame(f.value, (n: OsName) => Marked(init, dir, n), (n: OsName) => Marked(calls, dir, n));
        }
      }
    }
  }

  lemma {:induction false} UnmarkedBeforeListing(calls: seq<Call>, dir: Dir, n: OsName)
    requires FirstListing(calls, dir).None?
    ensures !Marked(calls, dir, n)
  {
    if calls != [] {
      UnmarkedBeforeListing(calls[..|calls| - 1], dir, n);
    }
  }

  lemma SplitStep(calls: seq<Call>, dir: Dir)
    requires calls != [] && calls[|calls| - 1].dir == dir
    requires Split(calls[..|calls| - 1], dir, MarkAll(calls[..|calls| - 1]))
    ensures Split(calls, dir, MarkAll(calls))
  {
    var init, c := calls[..|calls| - 1], calls[|calls| - 1];
    var before := FirstListing(init, dir);
    var now := (n: OsName) => Marked(calls, dir, n);
    if before.Some? {
      var earlier := (n: OsName) => Marked(init, dir, n);
      KeepTwice(before.value, earlier, c.removes, now);
    } else if c.listing.Some? {
      forall n ensures Marked(calls, dir, n) <==> c.removes(n) {
        UnmarkedBeforeListing(init, dir, n);
      }
      KeepSame(c.listing.value, c.removes, now);
    }
  }

  // ----- Order -----

  /** Every call sees the directory as it is on a disk that does not change meanwhile. */
  ghost predicate SameDisk(calls: seq<Call>, disk: Dir -> Option<seq<OsName>>) {
    forall c | c in calls :: c.listing == disk(c.dir)
  }

  /** The plain union: every entry some call wants removed. */
  ghost predicate InUnion(calls: seq<Call>, disk: Dir -> Option<seq<OsName>>, dir: Dir, n: OsName) {
    disk(dir).Some? && n in disk(dir).value && exists c | c in calls :: c.dir == dir && c.removes(n)
  }

  lemma {:induction false} MarkedIsUnion(calls: seq<Call>, disk: Dir -> Option<seq<OsName>>, dir: Dir, n: OsName)
    requires SameDisk(calls, disk)
    ensures FirstListing(calls, dir).Some? ==> FirstListing(calls, dir) == disk(dir)
    ensures disk(dir).Some? ==> (Marked(calls, dir, n) <==> exists c | c in calls :: c.dir == dir && c.removes(n))
    ensures (exists c | c in calls :: c.dir == dir) && disk(dir).Some? ==> FirstListing(calls, dir).Some?
  {
    if calls != [] {
      var init, c := calls[..|calls| - 1], calls[|calls| - 1];
      assert calls == init + [c];
      MarkedIsUnion(init, disk, dir, n);
    }
  }

  /** The removal set is the union of what the calls ask for, whatever their order. */
  lemma RemovalIsUnion(calls: seq<Call>, disk: Dir -> Option<seq<OsName>>, dir: Dir, n: OsName)
    requires SameDisk(calls, disk)
    ensures (dir, n) in MarkAll(calls).toRemove <==> InUnion(calls, disk, dir, n)
  {
    MarksSplitListing(calls, dir);
    MarkedIsUnion(calls, disk, dir, n);
  }

  lemma OrderOfCallsIrrelevant(calls: seq<Call>, calls': seq<Call>, disk: Dir -> Option<seq<OsName>>)
    requires SameDisk(calls, disk) && (forall c :: c in calls <==> c in calls')
    ensures MarkAll(calls).toRemove == MarkAll(calls').toRemove
  {
    forall x: (Dir, OsName)
      ensures x in MarkAll(calls).toRemove <==> x in MarkAll(calls').toRemove
    {
      RemovalIsUnion(calls, disk, x.0, x.1);
      RemovalIsUnion(calls', disk, x.0, x.1);
      assert x == (x.0, x.1);
    }
  }
}
