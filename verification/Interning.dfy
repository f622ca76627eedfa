/** The unit interner (`src/compiler/unit.rs`): units are compared by pointer, and this is why the
    analyses may compare them by contents. */
module Interning {
  import opened Units
  import opened UnitDependencies

  /** `Rc<UnitInner>`. */
  class Handle {
    const contents: Unit

    constructor (contents: Unit)
      ensures this.contents == contents
    {
      this.contents := contents;
    }
  }

  /** What is stored for the requested unit: a standard library with a dylib loses it. */
  function Stored(u: Unit): Unit {
    u.(target := InternedTarget(u.target, u.isStd))
  }

  /** A library of the standard library that declares a dylib beside its rlib. */
  predicate HasStdDylib(u: Unit) {
    u.isStd && u.target.kind.LibTarget? && Dylib in u.target.kind.crateTypes
  }

  /** Nothing that is stored has one, and storing it again changes nothing. */
  lemma StoredHasNoStdDylib(u: Unit)
    ensures !HasStdDylib(Stored(u)) && Stored(Stored(u)) == Stored(u)
    ensures Stored(u) == u <==> !HasStdDylib(u)
  {}

  class UnitInterner {
    var cache: set<Handle>

    /** One handle for each contents. */
    ghost predicate Valid()
      reads this
    {
      forall a, b | a in cache && b in cache && a.contents == b.contents :: a == b
    }

    constructor ()
      ensures Valid() && cache == {}
    {
      cache := {};
    }

    method InternInner(item: Unit) returns (h: Handle)
      requires Valid()
      modifies this
      ensures Valid() && h in cache && h.contents == item
      ensures old(cache) <= cache && cache <= old(cache) + {h}
      ensures (exists g | g in old(cache) :: g.contents == item) ==> cache == old(cache)
    {
      if exists g | g in cache :: g.contents == item {
        h :| h in cache && h.contents == item;
      } else {
        h := new Handle(item);
        cache := cache + {h};
      }
    }

    method Intern(u: Unit) returns (h: Handle)
      requires Valid()
      modifies this
      ensures Valid() && h in cache && h.contents == Stored(u)
      ensures old(cache) <= cache
      ensures h.contents.(target := u.target) == u
      ensures h.contents.target == if HasStdDylib(u) then u.target.(kind := LibTarget([Rlib])) else u.target
    {
      h := InternInner(Stored(u));
    }
  }

  /** Units made over a whole session: two are the same pointer exactly when what is stored is
      equal, so a unit of the standard library is never one of the workspace. */
  method InternAll(interner: UnitInterner, units: seq<Unit>) returns (handles: seq<Handle>)
    requires interner.Valid()
    modifies interner
    ensures interner.Valid() && |handles| == |units|
    ensures forall i, j | 0 <= i < |units| && 0 <= j < |units| ::
      handles[i] == handles[j] <==> Stored(units[i]) == Stored(units[j])
    ensures forall i, j | 0 <= i < |units| && 0 <= j < |units| && units[i].isStd != units[j].isStd ::
      handles[i] != handles[j]
  {
    handles := [];
    for n := 0 to |units|
      invariant interner.Valid() && |handles| == n
      invariant forall i | 0 <= i < n :: handles[i] in interner.cache && handles[i].contents == Stored(units[i])
    {
      var h := interner.Intern(units[n]);
      handles := handles + [h];
    }
  }
}
