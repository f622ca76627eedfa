/** The queue that decides which job may start (`src/util/dependency_queue.rs`). */
module DependencyQueues {
  import opened Units

  /** A node was handed out, or has produced one of its outputs. */
  datatype Event<N, E> = Dequeued(node: N) | Produced(node: N, edge: E)

  /** For each node, the outputs of other nodes that it waits for. */
  type Waits<N(==), E(==)> = map<N, set<(N, E)>>

  /** A node is handed out once, after everything it waits for; it produces each output once, after
      it was handed out. */
  ghost predicate OrderlyAt<N, E>(waits: Waits<N, E>, history: seq<Event<N, E>>, i: nat)
    requires i < |history|
  {
    var before := history[..i];
    history[i] !in before &&
    match history[i]
    case Dequeued(n) => n in waits && forall w | w in waits[n] :: Produced(w.0, w.1) in before
    case Produced(n, e) => Dequeued(n) in before
  }

  ghost predicate Orderly<N, E>(waits: Waits<N, E>, history: seq<Event<N, E>>) {
    forall i | 0 <= i < |history| :: OrderlyAt(waits, history, i)
  }

  lemma OrderlyStep<N, E>(waits: Waits<N, E>, history: seq<Event<N, E>>, e: Event<N, E>)
    requires Orderly(waits, history) && OrderlyAt(waits, history + [e], |history|)
    ensures Orderly(waits, history + [e])
  {
    forall i | 0 <= i < |history + [e]| ensures OrderlyAt(waits, history + [e], i) {
      if i < |history| {
        assert OrderlyAt(waits, history, i) && (history + [e])[..i] == history[..i];
      }
    }
  }

  /** Who was handed out had everything it waits for. */
  lemma DequeuedWasReady<N, E>(waits: Waits<N, E>, history: seq<Event<N, E>>, n: N)
    requires Orderly(waits, history) && Dequeued(n) in history
    ensures n in waits && forall w | w in waits[n] :: Produced(w.0, w.1) in history
  {
    var i :| 0 <= i < |history| && history[i] == Dequeued(n);
    assert OrderlyAt(waits, history, i);
    assert forall e | e in history[..i] :: e in history;
  }

  /** What `n` still waits for. */
  ghost function Open<N, E>(waits: Waits<N, E>, history: seq<Event<N, E>>, n: N): set<(N, E)>
    requires n in waits
  {
    set w | w in waits[n] && Produced(w.0, w.1) !in history
  }

  lemma OpenAfter<N, E>(waits: Waits<N, E>, history: seq<Event<N, E>>, e: Event<N, E>, n: N)
    requires n in waits
    ensures Open(waits, history + [e], n) == Open(waits, history, n) - (if e.Produced? then {(e.node, e.edge)} else {})
  {
    var left, right := Open(waits, history + [e], n), Open(waits, history, n) - (if e.Produced? then {(e.node, e.edge)} else {});
    forall w | w in left ensures w in right {
      assert w in right;
    }
    forall w | w in right ensures w in left {
      assert w == (w.0, w.1);
    }
  }

  ghost predicate WaitsFor<N, E>(waits: Waits<N, E>, w: (N, E), n: N) {
    n in waits && w in waits[n]
  }

  ghost predicate Awaited<N, E>(reverse: map<(N, E), set<N>>, w: (N, E), n: N) {
    w in reverse && n in reverse[w]
  }

  /** The lists after the key was struck off those of the nodes in `waiting`. */
  ghost predicate Struck<N, E>(before: map<N, set<(N, E)>>, key: (N, E), waiting: set<N>, after: map<N, set<(N, E)>>) {
    && after.Keys == before.Keys
    && forall n | n in after :: after[n] == if n in waiting then before[n] - {key} else before[n]
  }

  class DependencyQueue<N(!new, ==), E(!new, ==)> {
    const priority: N -> nat
    var depMap: map<N, set<(N, E)>>
    var reverseDepMap: map<(N, E), set<N>>
    ghost var waits: Waits<N, E>
    ghost var history: seq<Event<N, E>>

    ghost predicate Valid()
      reads this
    {
      && (forall n :: n in depMap <==> n in waits && Dequeued(n) !in history)
      && (forall n | n in depMap :: depMap[n] == Open(waits, history, n))
      && (forall w, n :: WaitsFor(waits, w, n) <==> Awaited(reverseDepMap, w, n))
      && Orderly(waits, history)
    }

    constructor (priority: N -> nat)
      ensures Valid() && this.priority == priority && waits == map[] && history == []
    {
      this.priority := priority;
      depMap, reverseDepMap, waits, history := map[], map[], map[], [];
    }

    /** Only before anything is handed out. Adding a node twice is a panic. */
    method Queue(key: N, dependencies: set<(N, E)>) returns (panicked: bool)
      requires Valid() && history == []
      modifies this`depMap, this`reverseDepMap, this`waits
      ensures Valid() && panicked == (key in old(waits))
      ensures waits == if panicked then old(waits) else old(waits)[key := dependencies]
    {
      if key in depMap {
        return true;
      }
      panicked := false;
      var rest := dependencies;
      while rest != {}
        invariant rest <= dependencies && key !in waits && depMap == old(depMap) && waits == old(waits)
        invariant forall w, n :: Awaited(reverseDepMap, w, n) <==>
          WaitsFor(waits, w, n) || (n == key && w in dependencies && w !in rest)
      {
        var w :| w in rest;
        reverseDepMap := reverseDepMap[w := (if w in reverseDepMap then reverseDepMap[w] else {}) + {key}];
        rest := rest - {w};
      }
      depMap := depMap[key := dependencies];
      waits := waits[key := dependencies];
      assert Open(waits, history, key) == dependencies;
      assert forall n | n in old(depMap) :: Open(waits, history, n) == old(depMap)[n];
    }

    predicate Ready(n: N)
      reads this
    {
      n in depMap && depMap[n] == {}
    }

    /** One that waits for nothing any more, and of those one of the highest priority. */
    method Dequeue() returns (r: Option<N>)
      requires Valid()
      modifies this`depMap, this`history
      ensures Valid()
      ensures r.None? ==> (forall n :: !old(Ready(n))) && history == old(history)
      ensures r.Some? ==> old(Ready(r.value)) && (forall n | old(Ready(n)) :: priority(n) <= priority(r.value))
      ensures r.Some? ==> history == old(history) + [Dequeued(r.value)]
    {
      r := None;
      var rest := depMap.Keys;
      while rest != {}
        invariant rest <= depMap.Keys
        invariant r.Some? ==> Ready(r.value)
        invariant forall n | Ready(n) && n !in rest :: r.Some? && priority(n) <= priority(r.value)
      {
        var n :| n in rest;
        if depMap[n] == {} && (r.None? || priority(r.value) <= priority(n)) {
          r := Some(n);
        }
        rest := rest - {n};
      }
      if r.Some? {
        HandOut(r.value);
      }
    }

    method HandOut(n: N)
      requires Valid() && Ready(n)
      modifies this`depMap, this`history
      ensures Valid() && history == old(history) + [Dequeued(n)]
    {
      forall w | w in waits[n] ensures Produced(w.0, w.1) in history {
        assert w !in Open(waits, history, n);
      }
      OrderlyStep(waits, history, Dequeued(n));
      forall m | m in waits ensures Open(waits, history + [Dequeued(n)], m) == Open(waits, history, m) {
        OpenAfter(waits, history, Dequeued(n), m);
      }
      depMap := depMap - {n};
      history := history + [Dequeued(n)];
    }

    /** The node has produced the output. It panics exactly if that was said before and somebody had
        been waiting for it; otherwise those set free are returned. */
    method Finish(node: N, edge: E) returns (freed: set<N>, panicked: bool)
      requires Valid() && Dequeued(node) in history
      modifies this`depMap, this`history
      ensures panicked <==> Produced(node, edge) in old(history) && exists n :: WaitsFor(waits, (node, edge), n)
      ensures !panicked ==> Valid() && freed == set n | n in depMap && Ready(n) && !old(Ready(n))
      ensures !panicked && Produced(node, edge) !in old(history) ==> history == old(history) + [Produced(node, edge)]
      ensures Produced(node, edge) in old(history) ==> history == old(history)
    {
      var key := (node, edge);
      var reverseDeps := if key in reverseDepMap then reverseDepMap[key] else {};
      StillOpen(key);
      assert forall n :: n in reverseDeps <==> Awaited(reverseDepMap, key, n);
      freed, panicked := Strike(key, reverseDeps);
      if !panicked && Produced(node, edge) !in history {
        Record(node, edge, old(depMap));
      }
    }

    /** Strikes the key off the list of each node that waits for it, which must be there. */
    method Strike(key: (N, E), reverseDeps: set<N>) returns (freed: set<N>, panicked: bool)
      modifies this`depMap
      ensures panicked <==> exists n | n in reverseDeps :: !(n in old(depMap) && key in old(depMap)[n])
      ensures !panicked ==> Struck(old(depMap), key, reverseDeps, depMap)
      ensures !panicked ==> freed == set n | n in reverseDeps && n in depMap && depMap[n] == {}
    {
      freed, panicked := {}, false;
      var rest := reverseDeps;
      while rest != {}
        invariant rest <= reverseDeps && Struck(old(depMap), key, reverseDeps - rest, depMap)
        invariant forall n | n in reverseDeps && n !in rest :: n in old(depMap) && key in old(depMap)[n]
        invariant forall n :: n in freed <==> n in reverseDeps && n !in rest && n in depMap && depMap[n] == {}
      {
        var n :| n in rest;
        if n !in depMap || key !in depMap[n] {
          return {}, true;
        }
        depMap := depMap[n := depMap[n] - {key}];
        if depMap[n] == {} {
          freed := freed + {n};
        }
        rest := rest - {n};
      }
    }

    ghost method Record(node: N, edge: E, before: map<N, set<(N, E)>>)
      requires Dequeued(node) in history && Produced(node, edge) !in history && Orderly(waits, history)
      requires forall n :: n in before <==> n in waits && Dequeued(n) !in history
      requires forall n | n in before :: before[n] == Open(waits, history, n)
      requires exists waiting :: Struck(before, (node, edge), waiting, depMap) && forall n :: n in waiting <==> WaitsFor(waits, (node, edge), n)
      requires forall w, n :: WaitsFor(waits, w, n) <==> Awaited(reverseDepMap, w, n)
      modifies this`history
      ensures Valid() && history == old(history) + [Produced(node, edge)]
    {
      forall n | n in waits ensures Open(waits, history + [Produced(node, edge)], n) == Open(waits, history, n) - {(node, edge)} {
        OpenAfter(waits, history, Produced(node, edge), n);
      }
      OrderlyStep(waits, history, Produced(node, edge));
      history := history + [Produced(node, edge)];
    }

    /** Who waits for an output finds it among what is open exactly until it is produced. */
    lemma StillOpen(w: (N, E))
      requires Valid()
      ensures Produced(w.0, w.1) !in history ==> forall n | WaitsFor(waits, w, n) :: n in depMap && w in depMap[n]
      ensures Produced(w.0, w.1) in history ==> forall n | n in depMap :: w !in depMap[n]
      ensures forall n | n in depMap && !WaitsFor(waits, w, n) :: w !in depMap[n]
    {
      forall n | WaitsFor(waits, w, n) && Produced(w.0, w.1) !in history ensures n in depMap && w in depMap[n] {
        if Dequeued(n) in history {
          DequeuedWasReady(waits, history, n);
        }
      }
    }
  }

  // ----- The queue does not get stuck -----

  /** Everything handed out has produced whatever is waited for. */
  ghost predicate Idle<N, E>(waits: Waits<N, E>, history: seq<Event<N, E>>) {
    forall n, w | n in waits && w in waits[n] && Dequeued(w.0) in history :: Produced(w.0, w.1) in history
  }

  ghost predicate Left<N, E>(waits: Waits<N, E>, history: seq<Event<N, E>>, n: N) {
    n in waits && Dequeued(n) !in history
  }

  /** If what is waited for is queued too and nobody waits in a circle, then with everything handed out
      at its end and something left, something left waits for nothing any more. */
  lemma {:induction false} NotStuck<N, E>(waits: Waits<N, E>, history: seq<Event<N, E>>, rank: map<N, nat>, n: N) returns (m: N)
    requires Idle(waits, history) && Left(waits, history, n) && waits.Keys <= rank.Keys
    requires forall n, w | n in waits && w in waits[n] :: w.0 in waits && rank[w.0] < rank[n]
    ensures Left(waits, history, m) && Open(waits, history, m) == {}
    decreases rank[n]
  {
    m := n;
    if w :| w in Open(waits, history, n) {
      m := NotStuck(waits, history, rank, w.0);
    }
  }
}
