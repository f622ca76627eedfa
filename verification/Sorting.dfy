/** Rust's stable `sort_by_key`, on sequences. */
module Sorting {

  ghost predicate NoRepeats<T>(s: seq<T>) {
    forall i, j | 0 <= i < j < |s| :: s[i] != s[j]
  }

  lemma Assoc<T>(a: seq<T>, b: seq<T>, c: seq<T>)
    ensures a + (b + c) == a + b + c
  {}

  /** Puts `x` behind everything whose key is not larger. */
  function Insert<T>(sorted: seq<T>, x: T, key: T -> nat): seq<T> {
    if sorted == [] || key(sorted[|sorted| - 1]) <= key(x) then sorted + [x]
    else Insert(sorted[..|sorted| - 1], x, key) + [sorted[|sorted| - 1]]
  }

  function SortBy<T>(s: seq<T>, key: T -> nat): seq<T> {
    if s == [] then [] else Insert(SortBy(s[..|s| - 1], key), s[|s| - 1], key)
  }

  ghost predicate Ascending<T>(s: seq<T>, key: T -> nat) {
    forall i, j | 0 <= i < j < |s| :: key(s[i]) <= key(s[j])
  }

  /** The elements with key `k`, in order. */
  function WithKey<T>(s: seq<T>, key: T -> nat, k: nat): seq<T> {
    if s == [] then []
    else if key(s[|s| - 1]) == k then WithKey(s[..|s| - 1], key, k) + [s[|s| - 1]]
    else WithKey(s[..|s| - 1], key, k)
  }

  /** `r` is the stable sort of `s`: ascending, and unchanged inside each key. */
  ghost predicate StableSortOf<T>(s: seq<T>, r: seq<T>, key: T -> nat) {
    Ascending(r, key) && forall k: nat :: WithKey(r, key, k) == WithKey(s, key, k)
  }

  lemma {:induction false} WithKeyConcat<T>(a: seq<T>, b: seq<T>, key: T -> nat, k: nat)
    ensures WithKey(a + b, key, k) == WithKey(a, key, k) + WithKey(b, key, k)
  {
    if b == [] {
      assert a + b == a;
    } else {
      assert (a + b)[..|a + b| - 1] == a + b[..|b| - 1];
      WithKeyConcat(a, b[..|b| - 1], key, k);
    }
  }

  lemma {:induction false} MemberHasKey<T>(s: seq<T>, key: T -> nat, x: T)
    ensures x in s <==> x in WithKey(s, key, key(x))
  {
    if s != [] {
      assert s == s[..|s| - 1] + [s[|s| - 1]];
      MemberHasKey(s[..|s| - 1], key, x);
    }
  }

  lemma {:induction false} InsertStaysBelow<T>(s: seq<T>, x: T, key: T -> nat, b: nat)
    requires key(x) <= b && forall i | 0 <= i < |s| :: key(s[i]) <= b
    ensures forall i | 0 <= i < |Insert(s, x, key)| :: key(Insert(s, x, key)[i]) <= b
  {
    if s != [] && key(s[|s| - 1]) > key(x) {
      InsertStaysBelow(s[..|s| - 1], x, key, b);
    }
  }

  lemma {:induction false} InsertKeepsOrder<T>(s: seq<T>, x: T, key: T -> nat)
    requires Ascending(s, key)
    ensures Ascending(Insert(s, x, key), key)
  {
    if s != [] && key(s[|s| - 1]) > key(x) {
      InsertKeepsOrder(s[..|s| - 1], x, key);
      InsertStaysBelow(s[..|s| - 1], x, key, key(s[|s| - 1]));
    }
  }

  lemma {:induction false} InsertKeepsKeys<T>(s: seq<T>, x: T, key: T -> nat, k: nat)
    requires Ascending(s, key)
    ensures WithKey(Insert(s, x, key), key, k) == WithKey(s + [x], key, k)
  {
    if s != [] && key(s[|s| - 1]) > key(x) {
      var init, last := s[..|s| - 1], s[|s| - 1];
      InsertKeepsKeys(init, x, key, k);
      assert s == init + [last];
      WithKeyConcat(Insert(init, x, key), [last], key, k);
      WithKeyConcat(init, [x], key, k);
      WithKeyConcat(init, [last], key, k);
      WithKeyConcat(s, [x], key, k);
      assert WithKey([x], key, k) == [] || WithKey([last], key, k) == [];
    }
  }

  lemma SortedOneMore<T>(s: seq<T>, x: T, key: T -> nat, k: nat)
    requires StableSortOf(s, SortBy(s, key), key)
    ensures WithKey(Insert(SortBy(s, key), x, key), key, k) == if key(x) == k then WithKey(s, key, k) + [x] else WithKey(s, key, k)
  {
    InsertKeepsKeys(SortBy(s, key), x, key, k);
    WithKeyConcat(SortBy(s, key), [x], key, k);
  }

  /** `SortBy` sorts, stably. */
  lemma {:induction false} SortIsStable<T>(s: seq<T>, key: T -> nat)
    ensures StableSortOf(s, SortBy(s, key), key)
  {
    if s != [] {
      var init, last := s[..|s| - 1], s[|s| - 1];
      SortIsStable(init, key);
      InsertKeepsOrder(SortBy(init, key), last, key);
      forall k: nat ensures WithKey(SortBy(s, key), key, k) == WithKey(s, key, k) {
        SortedOneMore(init, last, key, k);
      }
    }
  }

  lemma SortKeepsMembers<T>(s: seq<T>, key: T -> nat)
    ensures forall x :: x in SortBy(s, key) <==> x in s
  {
    SortIsStable(s, key);
    forall x ensures x in SortBy(s, key) <==> x in s {
      MemberHasKey(s, key, x);
      MemberHasKey(SortBy(s, key), key, x);
    }
  }

  /** Sorting what is in order changes nothing. */
  lemma {:induction false} SortOfAscending<T>(s: seq<T>, key: T -> nat)
    requires Ascending(s, key)
    ensures SortBy(s, key) == s
  {
    if s != [] {
      SortOfAscending(s[..|s| - 1], key);
      assert s == s[..|s| - 1] + [s[|s| - 1]];
    }
  }
}
