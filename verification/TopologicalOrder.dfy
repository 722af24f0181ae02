// The ordering step of pipeline discovery: Kahn's algorithm with a sorted ready
// list, and the depth-first search that explains why it failed.
module TopologicalOrder {
  import opened Text
  import opened Graphs

  // ------------------------------------------------------------ normal form

  function TrimmedNames(values: seq<string>): seq<string> {
    if values == [] then []
    else if Trim(values[0]) != "" then [Trim(values[0])] + TrimmedNames(values[1..])
    else TrimmedNames(values[1..])
  }

  /** Trimmed, non-empty, without repetition, ascending. */
  function SortedUnique(values: seq<string>): (r: seq<string>)
    ensures Ascending(r)
  {
    SortUnique(TrimmedNames(values))
  }

  lemma {:induction false} TrimmedNamesContain(values: seq<string>, x: string)
    ensures x in TrimmedNames(values) <==> x != "" && exists v :: v in values && x == Trim(v)
  {
    if values != [] {
      TrimmedNamesContain(values[1..], x);
      assert values[0] in values;
      assert forall v :: v in values <==> v == values[0] || v in values[1..];
    }
  }

  /** What sortedUnique keeps. */
  lemma SortedUniqueContains(values: seq<string>, x: string)
    ensures x in SortedUnique(values) <==> x != "" && exists v :: v in values && x == Trim(v)
  {
    TrimmedNamesContain(values, x);
    assert x in SortedUnique(values) <==> x in Elements(SortedUnique(values));
    assert x in TrimmedNames(values) <==> x in Elements(TrimmedNames(values));
  }

  function Lookup(m: map<Key, seq<Key>>, k: Key): seq<Key> {
    if k in m then m[k] else []
  }

  /** The graph the algorithm works on: every listed job with its normalised dependencies. */
  function Normalised(jobKeys: seq<Key>, dependencies: map<Key, seq<Key>>): Graph {
    map k | k in jobKeys :: SortedUnique(Lookup(dependencies, k))
  }

  // --------------------------------------------------------- what is promised

  /** Dictionary order on lists of names. */
  ghost predicate ListLeq(a: seq<Key>, b: seq<Key>) {
    || a <= b
    || exists i :: 0 <= i < |a| && i < |b| && a[..i] == b[..i] && Precedes(a[i], b[i])
  }

  ghost predicate Least(g: Graph, order: seq<Key>) {
    forall t :: TopoOrder(g, t) ==> ListLeq(order, t)
  }

  /** Known dependencies of k that are not done yet. */
  ghost function Pending(g: Graph, k: Key, done: seq<Key>): set<Key>
    requires k in g
  {
    set d | d in g[k] && d !in done
  }

  ghost predicate Available(g: Graph, k: Key, done: seq<Key>) {
    k in g && k !in done && Pending(g, k, done) == {}
  }

  ghost predicate ChoseLeast(g: Graph, done: seq<Key>, chosen: Key) {
    forall k :: Available(g, k, done) ==> !Less(k, chosen)
  }

  /** Each job of the list was the least of those whose dependencies came before. */
  ghost predicate Greedy(g: Graph, order: seq<Key>) {
    forall i {:trigger ChoseLeast(g, order[..i], order[i])} ::
      0 <= i < |order| ==> ChoseLeast(g, order[..i], order[i])
  }

  /** A greedy order precedes every other topological order in dictionary order. */
  lemma GreedyIsLeast(g: Graph, order: seq<Key>)
    requires NoMissing(g) && TopoOrder(g, order) && Greedy(g, order)
    ensures Least(g, order)
  {
    forall t | TopoOrder(g, t) ensures ListLeq(order, t) {
      DistinctSize(order);
      DistinctSize(t);
      if order != t {
        var i := FirstDifference(order, t);
        GreedyWins(g, order, t, i);
      }
    }
  }

  lemma {:induction false} FirstDifference(a: seq<Key>, b: seq<Key>) returns (i: nat)
    requires |a| == |b| && a != b
    ensures i < |a| && a[..i] == b[..i] && a[i] != b[i]
  {
    i := 0;
    if a[0] == b[0] {
      assert a == [a[0]] + a[1..] && b == [b[0]] + b[1..];
      var j := FirstDifference(a[1..], b[1..]);
      i := j + 1;
      assert a[..i] == [a[0]] + a[1..][..j] && b[..i] == [b[0]] + b[1..][..j];
    }
  }

  lemma GreedyWins(g: Graph, order: seq<Key>, t: seq<Key>, i: nat)
    requires NoMissing(g) && Greedy(g, order) && TopoOrder(g, t)
    requires i < |order| && i < |t| && order[..i] == t[..i] && order[i] != t[i]
    ensures Precedes(order[i], t[i])
  {
    NextIsAvailable(g, t, i);
    assert ChoseLeast(g, order[..i], order[i]);
    LessTotal(order[i], t[i]);
    LessIs(order[i], t[i]);
  }

  lemma NextIsAvailable(g: Graph, t: seq<Key>, i: nat)
    requires NoMissing(g) && TopoOrder(g, t) && i < |t|
    ensures Available(g, t[i], t[..i])
  {
    assert t[i] in Elements(t);
    forall d | d in g[t[i]] ensures d in t[..i] {
      assert Edge(g, t[i], d);
    }
  }

  // ------------------------------------------------------- Kahn's algorithm

  datatype OrderResult =
    | Order(order: seq<Key>)
    | Missing(job: Key, dependency: Key)
    | CycleFound(cycle: seq<Key>)
    | CycleUnexplained

  /** dependents lists, for every name, the counted jobs that depend on it, once each:
      all of seen, and key with respect to the dependencies deps counted so far. */
  ghost predicate Inverted(g: Graph, dependents: map<Key, seq<Key>>, seen: set<Key>, key: Key, deps: seq<Key>)
    requires seen <= g.Keys
  {
    && (forall d :: Distinct(Lookup(dependents, d)))
    && (forall d, k :: k in Lookup(dependents, d) <==> (k in seen && d in g[k]) || (k == key && d in deps))
  }

  ghost predicate ListsDependants(g: Graph, d: Key, list: seq<Key>) {
    Distinct(list) && forall k :: k in list <==> k in g && d in g[k]
  }

  ghost predicate Inverts(g: Graph, dependents: map<Key, seq<Key>>) {
    forall d :: ListsDependants(g, d, Lookup(dependents, d))
  }

  lemma PendingShrinks(g: Graph, k: Key, done: seq<Key>, current: Key)
    requires k in g && current !in done
    ensures Pending(g, k, done + [current]) == Pending(g, k, done) - {current}
    ensures |Pending(g, k, done + [current])| ==
            |Pending(g, k, done)| - (if current in g[k] then 1 else 0)
  {
    assert Pending(g, k, done + [current]) == Pending(g, k, done) - {current};
    assert current in g[k] <==> current in Pending(g, k, done);
  }

  /** deterministicTopologicalOrder. */
  method DeterministicTopologicalOrder(jobKeys: seq<Key>, dependencies: map<Key, seq<Key>>) returns (r: OrderResult)
    requires Distinct(jobKeys)
    ensures Explains(Normalised(jobKeys, dependencies), r)
    ensures var g := Normalised(jobKeys, dependencies); r.Order? <==> NoMissing(g) && Acyclic(g)
  {
    var keys := SortUnique(jobKeys);
    ghost var g := Normalised(jobKeys, dependencies);
    SortedKeys(jobKeys, keys, g);
    var normalised, indegree, dependents, missing := CountDependencies(keys, g, dependencies);
    if missing.Unknown? {
      return Missing(missing.job, missing.dependency);
    }
    SortingKeepsInverse(g, dependents);
    var order := KahnLoop(g, keys, indegree, SortLists(dependents));
    if |order| == |keys| {
      OrderIsAcyclic(g, order);
      GreedyIsLeast(g, order);
      return Order(order);
    }
    var finder := new CycleFinder(normalised);
    var cycle := finder.FindDependencyCycle(keys);
    if |cycle| == 0 {
      return CycleUnexplained;
    }
    return CycleFound(cycle);
  }

  /** What the result says about the graph; the fallback without a cycle never happens. */
  ghost predicate Explains(g: Graph, r: OrderResult) {
    match r
    case Order(order) => NoMissing(g) && Acyclic(g) && TopoOrder(g, order) && Least(g, order)
    case Missing(job, dependency) => job in g && dependency in g[job] && dependency !in g
    case CycleFound(cycle) => NoMissing(g) && Cycle(g, cycle)
    case CycleUnexplained => false
  }

  lemma SortedKeys(jobKeys: seq<Key>, keys: seq<Key>, g: Graph)
    requires Ascending(keys) && Elements(keys) == Elements(jobKeys)
    requires forall k :: k in g <==> k in jobKeys
    ensures Elements(keys) == g.Keys && Distinct(keys)
  {
    AscendingIsDistinct(keys);
    assert forall k :: k in jobKeys <==> k in Elements(jobKeys);
  }

  datatype MissingDependency = AllKnown | Unknown(job: Key, dependency: Key)

  ghost predicate NormalisedAt(g: Graph, k: Key, dependencies: map<Key, seq<Key>>) {
    k in g && g[k] == SortedUnique(Lookup(dependencies, k))
  }

  /** The first loop: normalise, count and invert the dependencies, stop at an unknown name. */
  method CountDependencies(keys: seq<Key>, ghost g: Graph, dependencies: map<Key, seq<Key>>)
    returns (normalised: map<Key, seq<Key>>, indegree: map<Key, nat>, dependents: map<Key, seq<Key>>,
        missing: MissingDependency)
    requires Distinct(keys) && Elements(keys) == g.Keys
    requires forall k :: k in g ==> NormalisedAt(g, k, dependencies)
    ensures missing.Unknown? ==> missing.job in g && missing.dependency in g[missing.job] && missing.dependency !in g
    ensures missing.AllKnown? ==> NoMissing(g) && normalised == g && Inverts(g, dependents)
    ensures missing.AllKnown? ==> Counts(g, [], indegree)
  {
    normalised, indegree, dependents, missing := map[], map[], map[], AllKnown;
    for n := 0 to |keys|
      invariant missing.AllKnown? && normalised.Keys == Elements(keys[..n])
      invariant Tally(g, normalised, indegree) && Inverted(g, dependents, normalised.Keys, "", [])
    {
      var key := keys[n];
      NextKey(keys, n);
      var deps := SortedUnique(Lookup(dependencies, key));
      assert NormalisedAt(g, key, dependencies);
      var count;
      count, dependents, missing := CountOne(g, keys, key, deps, dependents, normalised.Keys);
      if missing.Unknown? {
        return;
      }
      TallyStep(g, normalised, indegree, key, count);
      normalised := normalised[key := deps];
      indegree := indegree[key := count];
    }
    assert keys[..|keys|] == keys;
    TallyAll(g, normalised, indegree, dependents);
  }

  lemma TallyAll(g: Graph, normalised: map<Key, seq<Key>>, indegree: map<Key, nat>, dependents: map<Key, seq<Key>>)
    requires Tally(g, normalised, indegree) && normalised.Keys == g.Keys && Inverted(g, dependents, g.Keys, "", [])
    ensures NoMissing(g) && normalised == g && Inverts(g, dependents) && Counts(g, [], indegree)
  {
    assert normalised == g;
    forall d ensures ListsDependants(g, d, Lookup(dependents, d)) {
    }
  }

  function SortLists(dependents: map<Key, seq<Key>>): map<Key, seq<Key>> {
    map d | d in dependents :: SortUnique(dependents[d])
  }

  lemma SortingKeepsInverse(g: Graph, dependents: map<Key, seq<Key>>)
    requires Inverts(g, dependents)
    ensures Inverts(g, SortLists(dependents))
  {
    forall d ensures ListsDependants(g, d, Lookup(SortLists(dependents), d)) {
      assert ListsDependants(g, d, Lookup(dependents, d));
      SortedList(g, d, Lookup(dependents, d));
      assert SortUnique([]) == [];
    }
  }

  lemma SortedList(g: Graph, d: Key, list: seq<Key>)
    requires ListsDependants(g, d, list)
    ensures ListsDependants(g, d, SortUnique(list))
  {
    var sorted := SortUnique(list);
    AscendingIsDistinct(sorted);
    forall k ensures k in sorted <==> k in list {
      assert k in sorted <==> k in Elements(sorted);
      assert k in list <==> k in Elements(list);
    }
  }

  ghost predicate Tally(g: Graph, normalised: map<Key, seq<Key>>, indegree: map<Key, nat>) {
    && normalised.Keys == indegree.Keys <= g.Keys
    && forall k :: k in normalised ==>
         normalised[k] == g[k] && indegree[k] == |Pending(g, k, [])| && forall d :: d in g[k] ==> d in g
  }

  lemma TallyStep(g: Graph, normalised: map<Key, seq<Key>>, indegree: map<Key, nat>, key: Key, count: nat)
    requires Tally(g, normalised, indegree) && key in g && count == |Pending(g, key, [])|
    requires forall d :: d in g[key] ==> d in g
    ensures Tally(g, normalised[key := g[key]], indegree[key := count])
    ensures normalised[key := g[key]].Keys == normalised.Keys + {key}
  {
  }

  lemma NextKey(keys: seq<Key>, n: nat)
    requires Distinct(keys) && n < |keys|
    ensures keys[n] in Elements(keys) && keys[n] !in Elements(keys[..n])
    ensures Elements(keys[..n + 1]) == Elements(keys[..n]) + {keys[n]}
  {
  }

  /** Counting the dependencies of one job. */
  method CountOne(ghost g: Graph, keys: seq<Key>, key: Key, deps: seq<Key>, before: map<Key, seq<Key>>,
      ghost seen: set<Key>)
    returns (count: nat, dependents: map<Key, seq<Key>>, missing: MissingDependency)
    requires Elements(keys) == g.Keys && key in g && g[key] == deps && Ascending(deps) && key !in seen && seen <= g.Keys
    requires Inverted(g, before, seen, "", [])
    ensures missing.Unknown? ==> missing.job == key && missing.dependency in deps && missing.dependency !in g
    ensures missing.AllKnown? ==> count == |Pending(g, key, [])| && (forall d :: d in deps ==> d in g)
    ensures missing.AllKnown? ==> Inverted(g, dependents, seen + {key}, "", [])
  {
    count, dependents, missing := 0, before, AllKnown;
    AscendingIsDistinct(deps);
    for j := 0 to |deps|
      invariant count == j && missing.AllKnown?
      invariant forall d :: d in deps[..j] ==> d in g
      invariant Inverted(g, dependents, seen, key, deps[..j])
    {
      var dependency := deps[j];
      assert dependency in keys <==> dependency in Elements(keys);
      if dependency !in keys {
        missing := Unknown(key, dependency);
        return;
      }
      count := count + 1;
      InvertStep(g, dependents, seen, key, deps, j);
      dependents := dependents[dependency := Lookup(dependents, dependency) + [key]];
    }
    assert deps[..|deps|] == deps;
    DistinctSize(deps);
    assert Pending(g, key, []) == Elements(deps);
  }

  lemma InvertStep(g: Graph, dependents: map<Key, seq<Key>>, seen: set<Key>, key: Key, deps: seq<Key>, j: nat)
    requires seen <= g.Keys && key !in seen && j < |deps| && Distinct(deps)
    requires Inverted(g, dependents, seen, key, deps[..j])
    ensures Inverted(g, dependents[deps[j] := Lookup(dependents, deps[j]) + [key]], seen, key, deps[..j + 1])
  {
    var d0 := deps[j];
    var after := dependents[d0 := Lookup(dependents, d0) + [key]];
    assert d0 !in deps[..j];
    assert key !in Lookup(dependents, d0);
    forall d ensures Distinct(Lookup(after, d)) {
      if d == d0 {
        assert Distinct(Lookup(dependents, d0));
      } else {
        assert Lookup(after, d) == Lookup(dependents, d);
      }
    }
    forall d, k ensures k in Lookup(after, d) <==> (k in seen && d in g[k]) || (k == key && d in deps[..j + 1]) {
      assert d in deps[..j + 1] <==> d in deps[..j] || d == d0;
      assert k in Lookup(dependents, d) <==> (k in seen && d in g[k]) || (k == key && d in deps[..j]);
      if d != d0 {
        assert Lookup(after, d) == Lookup(dependents, d);
      }
    }
  }

  /** What every prefix of the emitted order keeps. */
  ghost predicate Emitted(g: Graph, order: seq<Key>) {
    Distinct(order) && Elements(order) <= g.Keys && DepsFirst(g, order) && Greedy(g, order)
  }

  /** The ready list holds exactly the jobs that can come next, in ascending order. */
  ghost predicate ReadyList(g: Graph, order: seq<Key>, ready: seq<Key>) {
    Ascending(ready) && forall k :: k in ready <==> Available(g, k, order)
  }

  ghost predicate Counts(g: Graph, order: seq<Key>, indegree: map<Key, nat>) {
    indegree.Keys == g.Keys && forall k :: k in g ==> indegree[k] == |Pending(g, k, order)|
  }

  method KahnLoop(ghost g: Graph, keys: seq<Key>, counts: map<Key, nat>, dependents: map<Key, seq<Key>>)
    returns (order: seq<Key>)
    requires NoMissing(g) && Ascending(keys) && Elements(keys) == g.Keys && Inverts(g, dependents)
    requires Counts(g, [], counts)
    ensures Emitted(g, order)
    ensures |order| == |keys| ==> TopoOrder(g, order)
    ensures |order| != |keys| ==> !Acyclic(g)
  {
    var indegree := counts;
    var ready := InitiallyReady(g, keys, indegree);
    order := [];
    while ready != []
      invariant Emitted(g, order) && ReadyList(g, order, ready)
      invariant Counts(g, order, indegree)
      decreases |g.Keys - Elements(order)|
    {
      var current := ready[0];
      EmitNext(g, order, ready);
      EmitShrinks(g, order, ready);
      assert ListsDependants(g, current, Lookup(dependents, current));
      indegree, ready := Release(g, order, current, ready, indegree, Lookup(dependents, current));
      order := order + [current];
    }
    Finished(g, keys, order);
  }

  method InitiallyReady(ghost g: Graph, keys: seq<Key>, indegree: map<Key, nat>) returns (ready: seq<Key>)
    requires Ascending(keys) && Elements(keys) == g.Keys
    requires Counts(g, [], indegree)
    ensures ReadyList(g, [], ready)
  {
    ready := [];
    AscendingIs(keys);
    for n := 0 to |keys|
      invariant Ascending(ready) && (forall k :: k in ready ==> k in keys[..n])
      invariant forall k :: k in ready <==> k in keys[..n] && Available(g, k, [])
    {
      assert keys[n] in Elements(keys);
      if indegree[keys[n]] == 0 {
        forall k | k in ready ensures Less(k, keys[n]) {
          assert k in keys[..n];
        }
        AscendingAppend(ready, keys[n]);
        ready := ready + [keys[n]];
      }
    }
    assert keys[..|keys|] == keys;
    assert forall k :: k in keys <==> k in Elements(keys);
  }

  lemma EmitShrinks(g: Graph, order: seq<Key>, ready: seq<Key>)
    requires ReadyList(g, order, ready) && ready != []
    ensures |g.Keys - Elements(order + [ready[0]])| < |g.Keys - Elements(order)|
  {
    var current := ready[0];
    assert Available(g, current, order);
    assert Elements(order + [current]) == Elements(order) + {current};
    assert g.Keys - Elements(order + [current]) == (g.Keys - Elements(order)) - {current};
  }

  /** Emitting the head of the ready list. */
  lemma EmitNext(g: Graph, order: seq<Key>, ready: seq<Key>)
    requires NoMissing(g) && Emitted(g, order) && ReadyList(g, order, ready) && ready != []
    ensures Emitted(g, order + [ready[0]])
  {
    var current := ready[0];
    var next := order + [current];
    assert Available(g, current, order);
    forall i, b | 0 <= i < |next| && Edge(g, next[i], b) ensures b in next[..i] {
      assert next[..i] == order[..i];
      if i == |order| {
        assert order[..i] == order;
        assert b !in Pending(g, current, order);
      }
    }
    forall i | 0 <= i < |next| ensures ChoseLeast(g, next[..i], next[i]) {
      assert next[..i] == order[..i];
      if i == |order| {
        assert order[..i] == order;
        HeadIsLeast(g, order, ready);
      } else {
        assert ChoseLeast(g, order[..i], order[i]);
      }
    }
  }

  lemma HeadIsLeast(g: Graph, order: seq<Key>, ready: seq<Key>)
    requires ReadyList(g, order, ready) && ready != []
    ensures ChoseLeast(g, order, ready[0])
  {
    forall k | Available(g, k, order) ensures !Less(k, ready[0]) {
      AscendingHeadIsLeast(ready, k);
      if Less(k, ready[0]) {
        LessAsymmetric(k, ready[0]);
      }
    }
  }

  /** The inner loop: every dependant of the emitted job loses one pending dependency. */
  method Release(ghost g: Graph, ghost order: seq<Key>, ghost current: Key, queue: seq<Key>, counts: map<Key, nat>,
      dependants: seq<Key>)
    returns (indegree: map<Key, nat>, ready: seq<Key>)
    requires NoMissing(g) && Emitted(g, order) && ReadyList(g, order, queue) && queue != [] && current == queue[0]
    requires ListsDependants(g, current, dependants)
    requires Counts(g, order, counts)
    ensures ReadyList(g, order + [current], ready)
    ensures Counts(g, order + [current], indegree)
  {
    hide Emitted, ReadyList, Counts, ListsDependants, Pending, InsertUnique, Lowered, Readied;
    ghost var next := order + [current];
    indegree, ready := counts, queue[1..];
    ReleaseStart(g, order, current, queue, counts, dependants);
    for j := 0 to |dependants|
      invariant Lowered(g, order, next, dependants[..j], indegree)
      invariant Readied(g, queue, next, dependants[..j], ready)
    {
      var k := dependants[j];
      assert dependants[..j + 1] == dependants[..j] + [k];
      Lower(g, order, current, dependants, j, indegree);
      indegree := indegree[k := indegree[k] - 1];
      MakeReady(g, queue, next, dependants[..j], k, ready, indegree[k]);
      if indegree[k] == 0 {
        ready := InsertUnique(ready, k);
      }
    }
    assert dependants[..|dependants|] == dependants;
    ReleaseEnd(g, order, current, queue, dependants, indegree, ready);
  }

  /** The degrees of the dependants in done are those after the release, the others not yet. */
  ghost predicate Lowered(g: Graph, order: seq<Key>, next: seq<Key>, done: seq<Key>, indegree: map<Key, nat>) {
    && indegree.Keys == g.Keys
    && forall k :: k in g ==> indegree[k] == if k in done then |Pending(g, k, next)| else |Pending(g, k, order)|
  }

  ghost predicate Readied(g: Graph, queue: seq<Key>, next: seq<Key>, done: seq<Key>, ready: seq<Key>)
    requires queue != []
  {
    && Ascending(ready)
    && forall k :: k in ready <==> k in queue[1..] || (k in done && k in g && Pending(g, k, next) == {})
  }

  lemma ReleaseStart(g: Graph, order: seq<Key>, current: Key, queue: seq<Key>, counts: map<Key, nat>,
      dependants: seq<Key>)
    requires ReadyList(g, order, queue) && queue != [] && current == queue[0] && Counts(g, order, counts)
    ensures Available(g, current, order)
    ensures Lowered(g, order, order + [current], dependants[..0], counts)
    ensures Readied(g, queue, order + [current], dependants[..0], queue[1..])
  {
    hide Pending;
    AscendingTail(queue);
  }

  lemma Lower(g: Graph, order: seq<Key>, current: Key, dependants: seq<Key>, j: nat, indegree: map<Key, nat>)
    requires Emitted(g, order) && ListsDependants(g, current, dependants) && j < |dependants|
    requires Available(g, current, order) && Lowered(g, order, order + [current], dependants[..j], indegree)
    ensures var k := dependants[j];
            && k in g && k in indegree && indegree[k] > 0 && indegree[k] - 1 == |Pending(g, k, order + [current])|
            && Lowered(g, order, order + [current], dependants[..j + 1], indegree[k := indegree[k] - 1])
  {
    hide Pending, DepsFirst, Greedy;
    var k := dependants[j];
    assert k in dependants && dependants[..j + 1] == dependants[..j] + [k];
    PendingShrinks(g, k, order, current);
    assert indegree[k] == |Pending(g, k, order)|;
  }

  lemma MakeReady(g: Graph, queue: seq<Key>, next: seq<Key>, done: seq<Key>, k: Key, ready: seq<Key>, degree: nat)
    requires queue != [] && k in g && Readied(g, queue, next, done, ready) && degree == |Pending(g, k, next)|
    ensures Ascending(ready)
    ensures Readied(g, queue, next, done + [k], if degree == 0 then InsertUnique(ready, k) else ready)
  {
    hide Pending, InsertUnique;
    if degree == 0 {
      var r := InsertUnique(ready, k);
      assert forall x :: x in r <==> x in Elements(r);
      assert forall x :: x in ready <==> x in Elements(ready);
    }
  }

  lemma ReleaseEnd(g: Graph, order: seq<Key>, current: Key, queue: seq<Key>, dependants: seq<Key>,
      indegree: map<Key, nat>, ready: seq<Key>)
    requires NoMissing(g) && Emitted(g, order) && ReadyList(g, order, queue) && queue != [] && current == queue[0]
    requires ListsDependants(g, current, dependants)
    requires Lowered(g, order, order + [current], dependants, indegree) &&
        Readied(g, queue, order + [current], dependants, ready)
    ensures ReadyList(g, order + [current], ready) && Counts(g, order + [current], indegree)
  {
    hide Pending, DepsFirst, Greedy;
    assert Available(g, current, order);
    ReleasedAll(g, order, current, queue, dependants, ready);
    forall k | k in g ensures indegree[k] == |Pending(g, k, order + [current])| {
      PendingShrinks(g, k, order, current);
    }
  }

  lemma ReleasedAll(g: Graph, order: seq<Key>, current: Key, queue: seq<Key>, dependants: seq<Key>, ready: seq<Key>)
    requires NoMissing(g) && Emitted(g, order) && ReadyList(g, order, queue) && queue != [] && current == queue[0]
    requires ListsDependants(g, current, dependants)
    requires Ascending(ready)
    requires forall k :: k in ready <==> k in queue[1..] || (k in dependants && Pending(g, k, order + [current]) == {})
    ensures ReadyList(g, order + [current], ready)
  {
    var next := order + [current];
    assert Available(g, current, order);
    AscendingTail(queue);
    assert forall k :: k in queue[1..] <==> k in Elements(queue[1..]);
    assert forall k :: k in queue <==> k in Elements(queue);
    forall k ensures k in ready <==> Available(g, k, next) {
      if k in g && k !in order {
        PendingShrinks(g, k, order, current);
        assert Available(g, k, order) <==> k in queue;
      } else if k in g && k in order {
        PlacedIsDone(g, order, k);
      }
    }
  }

  lemma PlacedIsDone(g: Graph, order: seq<Key>, k: Key)
    requires NoMissing(g) && Emitted(g, order) && k in g && k in order
    ensures forall d :: d in g[k] ==> d in order
  {
    var i := Position(order, k);
    forall d | d in g[k] ensures d in order {
      assert Edge(g, order[i], d);
    }
  }

  /** With nothing ready, either every job is placed or the rest waits on itself. */
  lemma Finished(g: Graph, keys: seq<Key>, order: seq<Key>)
    requires NoMissing(g) && Emitted(g, order) && ReadyList(g, order, [])
    requires Ascending(keys) && Elements(keys) == g.Keys
    ensures |order| == |keys| ==> TopoOrder(g, order)
    ensures |order| != |keys| ==> !Acyclic(g)
  {
    hide Ascending, Distinct, ReadyList, NoMissing, Acyclic, DepsFirst, Greedy;
    AscendingIsDistinct(keys);
    DistinctSize(keys);
    DistinctSize(order);
    var rest := g.Keys - Elements(order);
    assert g.Keys == Elements(order) + rest;
    assert |g.Keys| == |Elements(order)| + |rest|;
    if rest != {} {
      RestIsStuck(g, order, rest);
    }
  }

  lemma RestIsStuck(g: Graph, order: seq<Key>, rest: set<Key>)
    requires NoMissing(g) && ReadyList(g, order, []) && rest == g.Keys - Elements(order) && rest != {}
    ensures !Acyclic(g)
  {
    forall k | k in rest ensures DependsInto(g, k, rest) {
      assert !Available(g, k, order);
      var d :| d in Pending(g, k, order);
      assert d in rest && Edge(g, k, d);
    }
    StuckHasCycle(g, rest);
  }

  // ------------------------------------------------- explaining the failure

  datatype Colour = Visiting | Visited

  lemma DepsFirstAppend(g: Graph, done: seq<Key>, k: Key)
    requires DepsFirst(g, done) && k in g && forall d :: d in g[k] ==> d in done
    ensures DepsFirst(g, done + [k])
  {
    hide DependsOnlyOn;
    var next := done + [k];
    forall i | 0 <= i < |next| ensures DependsOnlyOn(g, next[i], next[..i]) {
      if i < |done| {
        assert next[..i] == done[..i];
      } else {
        assert next[..i] == done;
        OnlyOn(g, k, done);
      }
    }
  }

  lemma Grown(a: seq<Key>, b: seq<Key>, c: seq<Key>)
    requires a <= b && b <= c
    ensures a <= c && forall d :: d in b ==> d in c
  {
    assert a == b[..|a|] == c[..|b|][..|a|] == c[..|a|];
    assert forall d :: d in b ==> d in c[..|b|];
  }

  lemma OnlyOn(g: Graph, k: Key, done: seq<Key>)
    requires k in g && forall d :: d in g[k] ==> d in done
    ensures DependsOnlyOn(g, k, done)
  {
  }

  /** The depth-first search of findDependencyCycle; a key without colour is not visited. */
  class CycleFinder {
    const dependencies: map<Key, seq<Key>>
    var state: map<Key, Colour>
    var positions: map<Key, nat>
    var stack: seq<Key>
    ghost var finished: seq<Key>  // visited keys in the order they were completed

    constructor (dependencies: map<Key, seq<Key>>)
      requires NoMissing(dependencies)
      ensures Valid() && this.dependencies == dependencies && stack == [] && state == map[]
    {
      this.dependencies, state, positions, stack, finished := dependencies, map[], map[], [], [];
    }

    /** The stack is a simple path of visiting keys; the finished keys are closed under
        dependencies and listed dependencies first. */
    ghost predicate Valid()
      reads this
    {
      && NoMissing(dependencies) && state.Keys <= dependencies.Keys
      && (forall k :: k in stack <==> k in state && state[k].Visiting?)
      && (forall k :: k in finished <==> k in state && state[k].Visited?)
      && (stack != [] ==> Walk(dependencies, stack))
      && (forall i :: 0 <= i < |stack| ==> stack[i] in positions && positions[stack[i]] == i)
      && DepsFirst(dependencies, finished)
      && Distinct(finished)
    }

    method Visit(key: Key) returns (cycle: seq<Key>)
      requires Valid() && key in dependencies && key !in state
      requires stack != [] ==> Edge(dependencies, stack[|stack| - 1], key)
      modifies this
      ensures cycle != [] ==> Cycle(dependencies, cycle)
      ensures cycle == [] ==> Valid() && stack == old(stack) && old(state.Keys) <= state.Keys
      ensures cycle == [] ==> old(finished) <= finished && key in finished
      decreases dependencies.Keys - state.Keys, 0
    {
      hide Valid, Edge, Cycle;
      Enter(key);
      ghost var path, entered := stack, state.Keys;
      var deps := dependencies[key];
      for n := 0 to |deps|
        invariant Valid() && stack == path && entered <= state.Keys
        invariant old(finished) <= finished && forall d :: d in deps[..n] ==> d in finished
      {
        assert dependencies.Keys - state.Keys < dependencies.Keys - old(state.Keys);
        DependencyEdge(key, n);
        ghost var before := finished;
        cycle := Explore(key, deps[n]);
        if |cycle| > 0 {
          return;
        }
        Grown(old(finished), before, finished);
        assert deps[..n + 1] == deps[..n] + [deps[n]];
      }
      assert deps[..|deps|] == deps;
      Leave(key);
      cycle := [];
    }

    lemma DependencyEdge(key: Key, n: nat)
      requires Valid() && key in dependencies && n < |dependencies[key]|
      ensures Edge(dependencies, key, dependencies[key][n])
    {
      assert dependencies[key][n] in dependencies[key];
    }

    /** The switch on the colour of one dependency of the key on top of the stack. */
    method Explore(key: Key, dependency: Key) returns (cycle: seq<Key>)
      requires Valid() && stack != [] && stack[|stack| - 1] == key && Edge(dependencies, key, dependency)
      modifies this
      ensures cycle != [] ==> Cycle(dependencies, cycle)
      ensures cycle == [] ==> Valid() && stack == old(stack) && old(state.Keys) <= state.Keys
      ensures cycle == [] ==> old(finished) <= finished && dependency in finished
      decreases dependencies.Keys - state.Keys, 1
    {
      cycle := [];
      if dependency !in state {
        cycle := Visit(dependency);
      } else if state[dependency].Visiting? {
        OnStack(dependency);
        cycle := stack[positions[dependency]..] + [dependency];
        ClosesCycle(dependencies, stack, positions[dependency], dependency);
      }
    }

    lemma OnStack(key: Key)
      requires Valid() && key in stack
      ensures key in positions && positions[key] < |stack| && stack[positions[key]] == key
    {
      var i := Position(stack, key);
      assert stack[i] == key;
    }

    method Enter(key: Key)
      requires Valid() && key in dependencies && key !in state
      requires stack != [] ==> Edge(dependencies, stack[|stack| - 1], key)
      modifies this
      ensures Valid() && stack == old(stack) + [key] && state.Keys == old(state.Keys) + {key}
      ensures finished == old(finished)
    {
      state := state[key := Visiting];
      positions := positions[key := |stack|];
      if stack != [] {
        WalkJoin(dependencies, stack, [key]);
      }
      stack := stack + [key];
    }

    method Leave(key: Key)
      requires Valid() && stack != [] && stack[|stack| - 1] == key
      requires forall d :: d in dependencies[key] ==> d in finished
      modifies this
      ensures Valid() && stack == old(stack)[..|old(stack)| - 1] && state.Keys == old(state.Keys)
      ensures finished == old(finished) + [key]
    {
      Popped();
      stack := stack[..|stack| - 1];
      positions := positions - {key};
      state := state[key := Visited];
      finished := finished + [key];
    }

    /** What the stack below its top looks like, and the finished list with the top added. */
    lemma Popped()
      requires Valid() && stack != []
      requires forall d :: d in dependencies[stack[|stack| - 1]] ==> d in finished
      ensures var n := |stack| - 1; var rest := stack[..n];
              && stack[n] in state && stack[n] !in rest && stack[n] !in finished
              && (forall k :: k in stack <==> k in rest || k == stack[n])
              && (rest != [] ==> Walk(dependencies, rest))
              && DepsFirst(dependencies, finished + [stack[n]])
    {
      hide DepsFirst, Walk;
      var n := |stack| - 1;
      var rest := stack[..n];
      assert stack == rest + [stack[n]] && stack[n] in stack;
      assert dependencies[stack[n]] == dependencies[stack[|stack| - 1]];
      if n > 0 {
        WalkSlice(dependencies, stack, 0, n);
        assert stack[0..n] == rest;
      }
      DepsFirstAppend(dependencies, finished, stack[n]);
    }

    /** findDependencyCycle: empty only when the graph has no cycle. */
    method FindDependencyCycle(keys: seq<Key>) returns (cycle: seq<Key>)
      requires Valid() && stack == [] && state == map[] && Elements(keys) == dependencies.Keys
      modifies this
      ensures cycle != [] ==> Cycle(dependencies, cycle)
      ensures cycle == [] ==> Acyclic(dependencies)
    {
      for n := 0 to |keys|
        invariant Valid() && stack == []
        invariant forall k :: k in keys[..n] ==> k in finished
      {
        assert keys[n] in Elements(keys);
        if keys[n] !in state {
          cycle := Visit(keys[n]);
          if |cycle| > 0 {
            return;
          }
        }
      }
      assert keys[..|keys|] == keys;
      assert forall k :: k in keys <==> k in Elements(keys);
      assert Elements(finished) == dependencies.Keys;
      OrderIsAcyclic(dependencies, finished);
      cycle := [];
    }
  }

  lemma ClosesCycle(g: Graph, stack: seq<Key>, i: nat, d: Key)
    requires Walk(g, stack) && i < |stack| && stack[i] == d && Edge(g, stack[|stack| - 1], d)
    ensures Cycle(g, stack[i..] + [d])
  {
    WalkSlice(g, stack, i, |stack|);
    assert stack[i..|stack|] == stack[i..];
    WalkJoin(g, stack[i..], [d]);
  }
}
