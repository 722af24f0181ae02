// Ordering and grouping of the command line runner: a first-in first-out Kahn
// queue and the level-by-level peeling, both over maps iterated in any order.
module DependencyLevels {
  import opened Text
  import opened Graphs

  // -------------------------------------------------------------- in-degrees

  /** Needs, counted with repetition, that name a live job. */
  ghost function PendingCount(needs: seq<Key>, live: set<Key>): nat {
    if needs == [] then 0
    else (if needs[0] in live then 1 else 0) + PendingCount(needs[1..], live)
  }

  lemma {:induction false} PendingAppend(needs: seq<Key>, need: Key, live: set<Key>)
    ensures PendingCount(needs + [need], live) == PendingCount(needs, live) + (if need in live then 1 else 0)
  {
    if needs != [] {
      PendingAppend(needs[1..], need, live);
      assert (needs + [need])[1..] == needs[1..] + [need];
    }
  }

  lemma {:induction false} PendingWithout(needs: seq<Key>, live: set<Key>, gone: Key)
    requires gone in live
    ensures PendingCount(needs, live - {gone}) == PendingCount(needs, live) - multiset(needs)[gone]
  {
    if needs != [] {
      PendingWithout(needs[1..], live, gone);
      assert needs == [needs[0]] + needs[1..];
    }
  }

  lemma {:induction false} PendingZero(needs: seq<Key>, live: set<Key>)
    ensures PendingCount(needs, live) == 0 <==> forall d :: d in needs ==> d !in live
  {
    if needs != [] {
      PendingZero(needs[1..], live);
      assert needs[0] in needs;
      assert forall d :: d in needs <==> d == needs[0] || d in needs[1..];
    }
  }

  ghost predicate InDegrees(g: Graph, live: set<Key>, inDegree: map<Key, nat>) {
    inDegree.Keys == g.Keys && forall k :: k in g ==> inDegree[k] == PendingCount(g[k], live)
  }

  function Lookup(m: map<Key, seq<Key>>, k: Key): seq<Key> {
    if k in m then m[k] else []
  }

  /** The list names each dependant of d as often as it needs d. */
  ghost predicate ListsNeeders(g: Graph, d: Key, list: seq<Key>) {
    forall k :: multiset(list)[k] == if k in g && d in g then multiset(g[k])[d] else 0
  }

  ghost predicate Dependents(g: Graph, dependents: map<Key, seq<Key>>) {
    forall d :: ListsNeeders(g, d, Lookup(dependents, d))
  }

  /** The part of the graph whose needs have been counted. */
  ghost function Counted(g: Graph, seen: set<Key>): Graph
    requires seen <= g.Keys
  {
    map k | k in g :: if k in seen then g[k] else []
  }

  lemma NothingCounted(g: Graph, inDegree: map<Key, nat>)
    requires inDegree == map k | k in g :: 0
    ensures InDegrees(Counted(g, {}), g.Keys, inDegree) && Dependents(Counted(g, {}), map[])
  {
    forall d ensures ListsNeeders(Counted(g, {}), d, []) {
    }
  }

  lemma AllCounted(g: Graph)
    ensures Counted(g, g.Keys) == g
  {
  }

  lemma CountedOneMore(g: Graph, seen: set<Key>, name: Key)
    requires seen <= g.Keys && name in g && name !in seen
    ensures Counted(g, seen).Keys == g.Keys && Counted(g, seen)[name] == []
    ensures Counted(g, seen + {name}) == Counted(g, seen)[name := g[name]]
  {
  }

  method BuildDegrees(jobs: Graph) returns (inDegree: map<Key, nat>, dependents: map<Key, seq<Key>>)
    ensures InDegrees(jobs, jobs.Keys, inDegree) && inDegree.Keys == jobs.Keys && Dependents(jobs, dependents)
  {
    hide InDegrees, Dependents, Counted;
    inDegree, dependents := map k | k in jobs :: 0, map[];
    NothingCounted(jobs, inDegree);
    var todo := jobs.Keys;
    ghost var seen := {};
    while todo != {}
      invariant todo <= jobs.Keys && seen == jobs.Keys - todo && inDegree.Keys == jobs.Keys
      invariant InDegrees(Counted(jobs, seen), jobs.Keys, inDegree) && Dependents(Counted(jobs, seen), dependents)
    {
      var name :| name in todo;
      CountedOneMore(jobs, seen, name);
      inDegree, dependents := CountNeeds(jobs, Counted(jobs, seen), name, inDegree, dependents);
      todo := todo - {name};
      seen := seen + {name};
      assert seen == jobs.Keys - todo;
    }
    assert seen == jobs.Keys;
    AllCounted(jobs);
  }

  /** The inner loop over the needs of one job. */
  method CountNeeds(jobs: Graph, ghost g: Graph, name: Key, degrees: map<Key, nat>, lists: map<Key, seq<Key>>)
    returns (inDegree: map<Key, nat>, dependents: map<Key, seq<Key>>)
    requires g.Keys == jobs.Keys && name in jobs && g[name] == [] && degrees.Keys == jobs.Keys
    requires InDegrees(g, jobs.Keys, degrees) && Dependents(g, lists)
    ensures InDegrees(g[name := jobs[name]], jobs.Keys, inDegree) && Dependents(g[name := jobs[name]], dependents)
    ensures inDegree.Keys == jobs.Keys
  {
    hide InDegrees, Dependents, PendingCount;
    inDegree, dependents := degrees, lists;
    var needs := jobs[name];
    assert g[name := needs[..0]] == g;
    for n := 0 to |needs|
      invariant InDegrees(g[name := needs[..n]], jobs.Keys, inDegree) && inDegree.Keys == jobs.Keys
      invariant Dependents(g[name := needs[..n]], dependents)
    {
      var need := needs[n];
      assert needs[..n + 1] == needs[..n] + [need];
      DegreeStep(g[name := needs[..n]], g[name := needs[..n + 1]], name, need, jobs.Keys, inDegree);
      CountStep(g[name := needs[..n]], g[name := needs[..n + 1]], name, need, dependents);
      if need in jobs {
        inDegree := inDegree[name := inDegree[name] + 1];
        dependents := dependents[need := Lookup(dependents, need) + [name]];
      }
    }
    assert needs[..|needs|] == needs;
  }

  lemma DegreeStep(g: Graph, next: Graph, name: Key, need: Key, live: set<Key>, inDegree: map<Key, nat>)
    requires name in g && next == g[name := g[name] + [need]] && InDegrees(g, live, inDegree)
    ensures name in inDegree &&
        InDegrees(next, live, if need in live then inDegree[name := inDegree[name] + 1] else inDegree)
  {
    PendingAppend(g[name], need, live);
  }

  lemma CountStep(g: Graph, next: Graph, name: Key, need: Key, dependents: map<Key, seq<Key>>)
    requires name in g && next == g[name := g[name] + [need]] && Dependents(g, dependents)
    ensures need in g ==> Dependents(next, dependents[need := Lookup(dependents, need) + [name]])
    ensures need !in g ==> Dependents(next, dependents)
  {
    hide ListsNeeders;
    var after := if need in g then dependents[need := Lookup(dependents, need) + [name]] else dependents;
    forall d ensures ListsNeeders(next, d, Lookup(after, d)) {
      ListStep(g, next, name, need, d, Lookup(dependents, d));
      assert Lookup(after, d) == if d == need && need in g then Lookup(dependents, d) + [name]
          else Lookup(dependents, d);
    }
  }

  lemma ListStep(g: Graph, next: Graph, name: Key, need: Key, d: Key, list: seq<Key>)
    requires name in g && next == g[name := g[name] + [need]] && ListsNeeders(g, d, list)
    ensures ListsNeeders(next, d, if d == need && need in g then list + [name] else list)
  {
    assert multiset(next[name]) == multiset(g[name]) + multiset{need};
  }

  // ------------------------------------------------------- topologicalSort

  datatype SortResult = Sorted(order: seq<Key>) | CircularSort(participants: set<Key>)

  ghost predicate ByLevel(level: map<Key, nat>, s: seq<Key>) {
    && (forall i :: 0 <= i < |s| ==> s[i] in level)
    && (forall i, j :: 0 <= i < j < |s| ==> level[s[i]] <= level[s[j]])
  }

  ghost predicate LevelsOf(g: Graph, freed: seq<Key>, level: map<Key, nat>) {
    Distinct(freed) && level.Keys == Elements(freed) && Levelled(g, level)
  }

  /** Each freed job depends on jobs sorted before it; the first n freed jobs are sorted. */
  ghost predicate DependsOnSorted(g: Graph, freed: seq<Key>, n: nat)
    requires n <= |freed|
  {
    forall i :: 0 <= i < |freed| ==> DependsOnlyOn(g, freed[i], freed[..if i < n then i else n])
  }

  /** No queued job is more than one level past the last sorted one. */
  ghost predicate Window(freed: seq<Key>, n: nat, level: map<Key, nat>)
    requires n <= |freed| && level.Keys == Elements(freed)
  {
    forall i :: n <= i < |freed| ==> freed[i] in level && level[freed[i]] <= Horizon(freed, n, level)
  }

  ghost function Horizon(freed: seq<Key>, n: nat, level: map<Key, nat>): nat
    requires n <= |freed| && level.Keys == Elements(freed)
  {
    if n == 0 then 0 else (assert freed[n - 1] in Elements(freed); level[freed[n - 1]] + 1)
  }

  /** The queue invariant: freed jobs, of which the first n are sorted, stand in level order. */
  ghost predicate Frontier(g: Graph, freed: seq<Key>, n: nat, level: map<Key, nat>) {
    n <= |freed| && LevelsOf(g, freed, level) && DependsOnSorted(g, freed, n) && ByLevel(level, freed) &&
        Window(freed, n, level)
  }

  /** Jobs are freed exactly when no need is pending. */
  ghost predicate FreedAtZero(g: Graph, freed: seq<Key>, inDegree: map<Key, nat>) {
    inDegree.Keys == g.Keys && forall k :: k in freed <==> k in g && inDegree[k] == 0
  }

  ghost function Live(g: Graph, order: seq<Key>): set<Key> {
    g.Keys - Elements(order)
  }

  method TopologicalSort(jobs: Graph) returns (r: SortResult)
    ensures r.Sorted? <==> Acyclic(jobs)
    ensures r.Sorted? ==> TopoOrder(jobs, r.order) && ByLevel(Levels(jobs), r.order)
    ensures r.CircularSort? ==> r.participants != {} && r.participants <= jobs.Keys && Stuck(jobs, r.participants)
  {
    var degrees, dependents := BuildDegrees(jobs);
    var first := InitialQueue(jobs, degrees);
    var order, inDegree := DrainQueue(jobs, degrees, dependents, first);
    if |order| != |jobs| {
      NotAllSorted(jobs, order, inDegree);
      return CircularSort(set k | k in jobs && inDegree[k] > 0);
    }
    return Sorted(order);
  }

  /** The main loop. */
  method DrainQueue(jobs: Graph, degrees: map<Key, nat>, dependents: map<Key, seq<Key>>, first: seq<Key>)
    returns (order: seq<Key>, inDegree: map<Key, nat>)
    requires InDegrees(jobs, jobs.Keys, degrees) && Dependents(jobs, dependents)
    requires Distinct(first) && FreedAtZero(jobs, first, degrees) && degrees.Keys == jobs.Keys
    ensures Distinct(order) && inDegree.Keys == jobs.Keys
    ensures InDegrees(jobs, Live(jobs, order), inDegree) && FreedAtZero(jobs, order, inDegree)
    ensures |order| == |jobs| ==> Acyclic(jobs) && TopoOrder(jobs, order) && ByLevel(Levels(jobs), order)
  {
    hide LevelsOf, DependsOnSorted, Window, Horizon, ByLevel, ListsNeeders, FreedAtZero, InDegrees, Levels, TopoOrder,
        Live;
    ghost var freed := first;
    ghost var level := map k | k in first :: 0;
    var queue := first;
    inDegree, order := degrees, [];
    Start(jobs, first, degrees, level);
    while queue != []
      invariant inDegree.Keys == jobs.Keys && freed == order + queue && Frontier(jobs, freed, |order|, level)
      invariant InDegrees(jobs, Live(jobs, order), inDegree) && FreedAtZero(jobs, freed, inDegree)
      decreases Live(jobs, order)
    {
      var current := queue[0];
      TakeFirst(jobs, freed, |order|, level, inDegree);
      assert freed[..|order|] == order && freed[..|order| + 1] == order + [current];
      assert ListsNeeders(jobs, current, Lookup(dependents, current));
      inDegree, queue, freed, level :=
        Release(jobs, freed, |order|, level, inDegree, queue[1..], Lookup(dependents, current));
      order := order + [current];
    }
    assert freed == order;
    AllSorted(jobs, order, level);
  }

  method InitialQueue(jobs: Graph, inDegree: map<Key, nat>) returns (queue: seq<Key>)
    requires inDegree.Keys == jobs.Keys
    ensures Distinct(queue) && FreedAtZero(jobs, queue, inDegree)
  {
    queue := [];
    var todo := inDegree.Keys;
    while todo != {}
      invariant todo <= inDegree.Keys && Distinct(queue)
      invariant forall k :: k in queue <==> k in inDegree && k !in todo && inDegree[k] == 0
    {
      var name :| name in todo;
      if inDegree[name] == 0 {
        queue := queue + [name];
      }
      todo := todo - {name};
    }
  }

  lemma Start(g: Graph, queue: seq<Key>, inDegree: map<Key, nat>, level: map<Key, nat>)
    requires InDegrees(g, g.Keys, inDegree) && FreedAtZero(g, queue, inDegree) && Distinct(queue)
    requires level == map k | k in queue :: 0
    ensures Frontier(g, queue, 0, level) && Live(g, []) == g.Keys && [] + queue == queue
  {
    forall i | 0 <= i < |queue| ensures DependsOnlyOn(g, queue[i], queue[..0]) {
      assert queue[i] in queue;
      PendingZero(g[queue[i]], g.Keys);
    }
  }

  /** Moving the head of the queue to the end of the order. */
  lemma TakeFirst(g: Graph, freed: seq<Key>, n: nat, level: map<Key, nat>, inDegree: map<Key, nat>)
    requires Frontier(g, freed, n, level) && n < |freed| && FreedAtZero(g, freed, inDegree)
    ensures Frontier(g, freed, n + 1, level)
    ensures freed[n] !in freed[..n] && Live(g, freed[..n + 1]) == Live(g, freed[..n]) - {freed[n]}
    ensures freed[n] in Live(g, freed[..n])
  {
    assert freed[..n + 1] == freed[..n] + [freed[n]];
    forall i | 0 <= i < |freed| ensures DependsOnlyOn(g, freed[i], freed[..if i < n + 1 then i else n + 1]) {
      assert DependsOnlyOn(g, freed[i], freed[..if i < n then i else n]);
    }
    assert freed[n] in Elements(freed);
    assert n > 0 ==> level[freed[n - 1]] <= level[freed[n]];
  }

  method Release(ghost g: Graph, ghost freed0: seq<Key>, ghost n: nat, ghost levels: map<Key, nat>,
                 degrees: map<Key, nat>, rest: seq<Key>, dependants: seq<Key>)
    returns (inDegree: map<Key, nat>, queue: seq<Key>, ghost freed: seq<Key>, ghost level: map<Key, nat>)
    requires n < |freed0| && Frontier(g, freed0, n + 1, levels) && freed0[n] in Live(g, freed0[..n])
    requires freed0 == freed0[..n + 1] + rest
    requires InDegrees(g, Live(g, freed0[..n]), degrees) && FreedAtZero(g, freed0, degrees)
    requires ListsNeeders(g, freed0[n], dependants)
    ensures freed == freed0[..n + 1] + queue && Frontier(g, freed, n + 1, level)
    ensures InDegrees(g, Live(g, freed0[..n]) - {freed0[n]}, inDegree) && FreedAtZero(g, freed, inDegree)
    ensures inDegree.Keys == g.Keys
  {
    hide LevelsOf, DependsOnSorted, Window, Horizon, ByLevel, ListsNeeders, FreedAtZero, InDegrees, PartlyReleased;
    ReleaseStart(g, Live(g, freed0[..n]), dependants, degrees);
    inDegree, queue, freed, level := degrees, rest, freed0, levels;
    ghost var current, live := freed0[n], Live(g, freed0[..n]);
    for j := 0 to |dependants|
      invariant n < |freed| && freed[..n + 1] == freed0[..n + 1] && freed == freed0[..n + 1] + queue
      invariant Frontier(g, freed, n + 1, level) && FreedAtZero(g, freed, inDegree)
      invariant inDegree.Keys == g.Keys && PartlyReleased(g, live, dependants[..j], inDegree)
    {
      var dependent := dependants[j];
      assert freed[..n] == freed[..n + 1][..n] && freed0[..n] == freed0[..n + 1][..n];
      assert freed[n] == freed[..n + 1][n] && current == freed0[..n + 1][n];
      StillPending(g, live, current, dependants, j);
      ReleaseStep(g, live, dependants, j, inDegree);
      DecrementFrees(g, freed, inDegree, dependent);
      inDegree := inDegree[dependent := inDegree[dependent] - 1];
      if inDegree[dependent] == 0 {
        NothingPending(g, freed, n, dependants, j);
        Enqueue(g, freed, n, level, dependent);
        level := level[dependent := level[current] + 1];
        freed := freed + [dependent];
        queue := queue + [dependent];
      }
    }
    assert dependants[..|dependants|] == dependants;
    AllReleased(g, live, current, dependants, inDegree);
  }

  lemma DecrementFrees(g: Graph, freed: seq<Key>, inDegree: map<Key, nat>, k: Key)
    requires FreedAtZero(g, freed, inDegree) && k in g && k in inDegree && inDegree[k] > 0
    ensures k !in freed
    ensures var next := inDegree[k := inDegree[k] - 1];
            FreedAtZero(g, if inDegree[k] == 1 then freed + [k] else freed, next)
  {
  }

  /** After some dependants were visited, each visit accounts for one pending need. */
  ghost predicate PartlyReleased(g: Graph, live: set<Key>, visited: seq<Key>, inDegree: map<Key, nat>) {
    inDegree.Keys == g.Keys && forall k :: k in g ==> inDegree[k] + multiset(visited)[k] == PendingCount(g[k], live)
  }

  lemma ReleaseStart(g: Graph, live: set<Key>, dependants: seq<Key>, inDegree: map<Key, nat>)
    requires InDegrees(g, live, inDegree)
    ensures PartlyReleased(g, live, dependants[..0], inDegree) && inDegree.Keys == g.Keys
  {
  }

  lemma ReleaseStep(g: Graph, live: set<Key>, dependants: seq<Key>, j: nat, inDegree: map<Key, nat>)
    requires j < |dependants| && dependants[j] in g && PartlyReleased(g, live, dependants[..j], inDegree)
    requires multiset(dependants[..j + 1])[dependants[j]] <= PendingCount(g[dependants[j]], live)
    ensures dependants[j] in inDegree && inDegree[dependants[j]] > 0
    ensures inDegree[dependants[j]] == 1 ==>
        multiset(dependants[..j + 1])[dependants[j]] == PendingCount(g[dependants[j]], live)
    ensures PartlyReleased(g, live, dependants[..j + 1], inDegree[dependants[j] := inDegree[dependants[j]] - 1])
  {
    assert dependants[..j + 1] == dependants[..j] + [dependants[j]];
  }

  lemma AllReleased(g: Graph, live: set<Key>, current: Key, dependants: seq<Key>, inDegree: map<Key, nat>)
    requires ListsNeeders(g, current, dependants) && current in live && live <= g.Keys
    requires PartlyReleased(g, live, dependants, inDegree)
    ensures InDegrees(g, live - {current}, inDegree) && inDegree.Keys == g.Keys
  {
    forall k | k in g ensures inDegree[k] == PendingCount(g[k], live - {current}) {
      PendingWithout(g[k], live, current);
    }
  }

  lemma StillPending(g: Graph, live: set<Key>, current: Key, dependants: seq<Key>, j: nat)
    requires ListsNeeders(g, current, dependants) && current in live && live <= g.Keys && j < |dependants|
    ensures dependants[j] in g && current in g[dependants[j]]
    ensures multiset(dependants[..j + 1])[dependants[j]] == multiset(dependants[..j])[dependants[j]] + 1
    ensures multiset(dependants[..j + 1])[dependants[j]] <= multiset(g[dependants[j]])[current]
    ensures multiset(g[dependants[j]])[current] <= PendingCount(g[dependants[j]], live)
  {
    var k := dependants[j];
    assert dependants == dependants[..j] + ([k] + dependants[j + 1..]);
    assert dependants[..j + 1] == dependants[..j] + [k];
    assert k in multiset(dependants);
    PendingWithout(g[k], live, current);
  }

  lemma NothingPending(g: Graph, freed: seq<Key>, n: nat, dependants: seq<Key>, j: nat)
    requires n < |freed| && freed[n] in Live(g, freed[..n])
    requires ListsNeeders(g, freed[n], dependants) && j < |dependants| && dependants[j] in g
    requires multiset(dependants[..j + 1])[dependants[j]] == PendingCount(g[dependants[j]], Live(g, freed[..n]))
    ensures DependsOnlyOn(g, dependants[j], freed[..n + 1])
  {
    var live := Live(g, freed[..n]);
    StillPending(g, live, freed[n], dependants, j);
    PendingWithout(g[dependants[j]], live, freed[n]);
    PendingZero(g[dependants[j]], live - {freed[n]});
    assert freed[..n + 1] == freed[..n] + [freed[n]];
  }

  /** A job freed by the last sorted one sits exactly one level above it. */
  lemma Enqueue(g: Graph, freed: seq<Key>, n: nat, level: map<Key, nat>, k: Key)
    requires n < |freed| && Frontier(g, freed, n + 1, level) && k in g && k !in freed
    requires DependsOnlyOn(g, k, freed[..n + 1]) && freed[n] in g[k] && freed[n] in g
    ensures freed[n] in level && Frontier(g, freed + [k], n + 1, level[k := level[freed[n]] + 1])
  {
    hide ByLevel, Window, DependsOnSorted;
    EnqueueKeepsLevels(g, freed, n, level, k);
    EnqueueKeepsOrder(freed, n, level, k);
    EnqueueKeepsSorted(g, freed, n, k);
  }

  lemma EnqueueKeepsSorted(g: Graph, freed: seq<Key>, n: nat, k: Key)
    requires n < |freed| && DependsOnSorted(g, freed, n + 1) && DependsOnlyOn(g, k, freed[..n + 1])
    ensures DependsOnSorted(g, freed + [k], n + 1)
  {
    var all := freed + [k];
    forall i | 0 <= i < |all| ensures DependsOnlyOn(g, all[i], all[..if i < n + 1 then i else n + 1]) {
      var m := if i < n + 1 then i else n + 1;
      assert all[..m] == freed[..m];
      if i < |freed| {
        assert DependsOnlyOn(g, freed[i], freed[..m]);
      }
    }
  }

  lemma EnqueueKeepsLevels(g: Graph, freed: seq<Key>, n: nat, level: map<Key, nat>, k: Key)
    requires n < |freed| && LevelsOf(g, freed, level) && ByLevel(level, freed) && k in g && k !in freed
    requires DependsOnlyOn(g, k, freed[..n + 1]) && freed[n] in g[k] && freed[n] in g
    ensures freed[n] in level && LevelsOf(g, freed + [k], level[k := level[freed[n]] + 1])
  {
    var current := freed[n];
    assert current in Elements(freed);
    assert Elements(freed + [k]) == Elements(freed) + {k};
    assert Edge(g, k, current);
    forall d | Edge(g, k, d) ensures d in level && level[d] <= level[current] {
      var i := Position(freed[..n + 1], d);
      assert freed[i] == d;
    }
    LevelledExtends(g, level, k, current);
  }

  lemma EnqueueKeepsOrder(freed: seq<Key>, n: nat, level: map<Key, nat>, k: Key)
    requires n < |freed| && level.Keys == Elements(freed) && freed[n] in level && k !in freed
    requires ByLevel(level, freed) && Window(freed, n + 1, level)
    ensures var next := level[k := level[freed[n]] + 1];
            next.Keys == Elements(freed + [k]) && ByLevel(next, freed + [k]) && Window(freed + [k], n + 1, next)
  {
    var all := freed + [k];
    assert Elements(all) == Elements(freed) + {k};
    forall i | 0 <= i < |freed| ensures level[freed[i]] <= level[freed[n]] + 1 {
      assert freed[i] in Elements(freed);
    }
  }

  lemma LevelledExtends(g: Graph, level: map<Key, nat>, k: Key, top: Key)
    requires Levelled(g, level) && k in g && k !in level && Edge(g, k, top) && top in level
    requires forall d :: Edge(g, k, d) ==> d in level && level[d] <= level[top]
    ensures Levelled(g, level[k := level[top] + 1])
  {
    var next := level[k := level[top] + 1];
    forall a | a in next && next[a] > 0
      ensures OneBelow(g, next, a)
    {
      if a == k {
        assert next[top] + 1 == next[a];
      } else {
        assert OneBelow(g, level, a);
        var d :| Edge(g, a, d) && d in level && level[d] + 1 == level[a];
        assert next[d] + 1 == next[a];
      }
    }
  }

  lemma AllSorted(g: Graph, order: seq<Key>, level: map<Key, nat>)
    requires Frontier(g, order, |order|, level)
    ensures Distinct(order)
    ensures |order| == |g| ==> Acyclic(g) && TopoOrder(g, order) && ByLevel(Levels(g), order)
  {
    DistinctSize(order);
    if |order| == |g| {
      SameSize(Elements(order), g.Keys);
      LevelsUnique(g, level);
    }
  }

  lemma SameSize<T>(a: set<T>, b: set<T>)
    requires a <= b && |a| == |b|
    ensures a == b
  {
    assert b == a + (b - a);
  }

  /** A job with a pending need depends into what is pending. */
  lemma WaitsInto(g: Graph, k: Key, live: set<Key>)
    requires k in g && live <= g.Keys && PendingCount(g[k], live) > 0
    ensures DependsInto(g, k, live)
  {
    PendingZero(g[k], live);
    var d :| d in g[k] && d in live;
    assert Edge(g, k, d);
  }

  lemma NotAllSorted(g: Graph, order: seq<Key>, inDegree: map<Key, nat>)
    requires InDegrees(g, Live(g, order), inDegree) && FreedAtZero(g, order, inDegree) && Distinct(order) &&
        |order| != |g|
    ensures var rest := set k | k in g && inDegree[k] > 0;
            rest != {} && Stuck(g, rest) && !Acyclic(g)
  {
    hide DependsInto, PendingCount, Acyclic;
    var rest := set k | k in g && inDegree[k] > 0;
    DistinctSize(order);
    assert rest == g.Keys - Elements(order);
    assert g.Keys == Elements(order) + rest;
    forall k | k in rest ensures DependsInto(g, k, rest) {
      WaitsInto(g, k, rest);
    }
    assert |g.Keys| == |Elements(order)| + |rest|;
    StuckHasCycle(g, rest);
  }

  // --------------------------------------------------- groupByDependencyLevel

  datatype GroupResult = Grouped(levels: seq<seq<Key>>) | CircularGroups(participants: set<Key>)

  /** Every job stands once, in the group of its level; no group is empty. */
  ghost predicate GroupsByLevel(level: map<Key, nat>, groups: seq<seq<Key>>) {
    && (forall r :: 0 <= r < |groups| ==> Distinct(groups[r]) && groups[r] != [])
    && (forall r, k :: 0 <= r < |groups| ==> (k in groups[r] <==> k in level && level[k] == r))
    && (forall k :: k in level ==> level[k] < |groups|)
  }

  /** A round of peeling: jobs outside live carry their level, below round; a live job
      still waits for a live job or for one of the round just peeled. */
  ghost predicate Peeled(g: Graph, live: set<Key>, level: map<Key, nat>, groups: seq<seq<Key>>) {
    && level.Keys == g.Keys - live && live <= g.Keys
    && Levelled(g, level) && GroupsByLevel(level, groups)
    && (forall k {:trigger WaitsFor(g, live, level, |groups|, k)} :: k in live ==>
        WaitsFor(g, live, level, |groups|, k))
  }

  ghost function Round(group: seq<Key>, round: nat): map<Key, nat> {
    map k | k in group :: round
  }

  ghost predicate WaitsFor(g: Graph, live: set<Key>, level: map<Key, nat>, round: nat, k: Key) {
    round > 0 ==> exists d :: Edge(g, k, d) && (d in live || (d in level && level[d] + 1 == round))
  }

  method GroupByDependencyLevel(jobs: Graph) returns (r: GroupResult)
    ensures r.Grouped? <==> Acyclic(jobs)
    ensures r.Grouped? ==> GroupsByLevel(Levels(jobs), r.levels)
    ensures r.CircularGroups? ==> r.participants != {} && r.participants <= jobs.Keys && Stuck(jobs, r.participants)
  {
    var inDegree, dependents := BuildDegrees(jobs);
    var levels: seq<seq<Key>> := [];
    var remaining := |jobs|;
    ghost var level: map<Key, nat> := map[];
    assert Peeled(jobs, jobs.Keys, map[], []) && LiveDegrees(jobs, inDegree);
    hide Peeled, Stuck, Levels, GroupsByLevel, Dependents, LiveDegrees, ZeroGroup, InDegrees, Round;
    while remaining > 0
      invariant inDegree.Keys <= jobs.Keys && remaining == |inDegree.Keys|
      invariant Peeled(jobs, inDegree.Keys, level, levels) && LiveDegrees(jobs, inDegree)
    {
      var group := ZeroDegree(inDegree);
      if |group| == 0 {
        AllWait(jobs, inDegree);
        return CircularGroups(set k | k in inDegree && inDegree[k] > 0);
      }
      PeelRound(jobs, inDegree, level, levels, group);
      inDegree := RemoveGroup(jobs, inDegree, dependents, group);
      level := level + Round(group, |levels|);
      levels := levels + [group];
      remaining := remaining - |group|;
    }
    assert inDegree.Keys == {};
    AllPeeled(jobs, level, levels);
    return Grouped(levels);
  }

  /** inDegree counts, for the jobs it still holds, the needs among them. */
  ghost predicate LiveDegrees(g: Graph, inDegree: map<Key, nat>) {
    inDegree.Keys <= g.Keys && forall k :: k in inDegree ==> inDegree[k] == PendingCount(g[k], inDegree.Keys)
  }

  ghost predicate ZeroGroup(inDegree: map<Key, nat>, group: seq<Key>) {
    Distinct(group) && forall k :: k in group <==> k in inDegree && inDegree[k] == 0
  }

  method ZeroDegree(inDegree: map<Key, nat>) returns (group: seq<Key>)
    ensures ZeroGroup(inDegree, group)
  {
    group := [];
    var todo := inDegree.Keys;
    while todo != {}
      invariant todo <= inDegree.Keys && Distinct(group)
      invariant forall k :: k in group <==> k in inDegree && k !in todo && inDegree[k] == 0
    {
      var name :| name in todo;
      if inDegree[name] == 0 {
        group := group + [name];
      }
      todo := todo - {name};
    }
  }

  lemma GroupFacts(inDegree: map<Key, nat>, group: seq<Key>)
    requires ZeroGroup(inDegree, group)
    ensures Distinct(group) && Elements(group) <= inDegree.Keys && |Elements(group)| == |group|
  {
    DistinctSize(group);
  }

  lemma RemovedNone(all: set<Key>, group: seq<Key>)
    ensures all == all - Elements(group[..0])
  {
  }

  lemma RemovedNext(all: set<Key>, group: seq<Key>, n: nat)
    requires Distinct(group) && n < |group| && Elements(group) <= all
    ensures group[n] in all - Elements(group[..n])
    ensures all - Elements(group[..n]) - {group[n]} == all - Elements(group[..n + 1])
  {
    assert group[n] in Elements(group);
    assert group[..n + 1] == group[..n] + [group[n]];
  }

  lemma RemovedAll(all: set<Key>, group: seq<Key>)
    requires Elements(group) <= all && |Elements(group)| == |group|
    ensures group[..|group|] == group && |all - Elements(group)| == |all| - |group|
  {
    assert all == (all - Elements(group)) + Elements(group);
  }

  lemma LiveKeys(g: Graph, inDegree: map<Key, nat>)
    requires LiveDegrees(g, inDegree)
    ensures inDegree.Keys <= g.Keys
  {
  }

  method RemoveGroup(ghost jobs: Graph, degrees: map<Key, nat>, dependents: map<Key, seq<Key>>, group: seq<Key>)
    returns (inDegree: map<Key, nat>)
    requires LiveDegrees(jobs, degrees) && Dependents(jobs, dependents) && ZeroGroup(degrees, group)
    ensures LiveDegrees(jobs, inDegree) && inDegree.Keys == degrees.Keys - Elements(group)
    ensures inDegree.Keys <= jobs.Keys && |inDegree.Keys| == |degrees.Keys| - |group|
  {
    hide *;
    GroupFacts(degrees, group);
    LiveKeys(jobs, degrees);
    inDegree := degrees;
    RemovedNone(degrees.Keys, group);
    for n := 0 to |group|
      invariant LiveDegrees(jobs, inDegree) && inDegree.Keys == degrees.Keys - Elements(group[..n])
    {
      var name := group[n];
      RemovedNext(degrees.Keys, group, n);
      ListOf(jobs, dependents, name);
      inDegree := RemoveOne(jobs, inDegree, name, Lookup(dependents, name));
    }
    LiveKeys(jobs, inDegree);
    RemovedAll(degrees.Keys, group);
  }

  lemma ListOf(g: Graph, dependents: map<Key, seq<Key>>, d: Key)
    requires Dependents(g, dependents)
    ensures ListsNeeders(g, d, Lookup(dependents, d))
  {
    hide ListsNeeders;
  }

  /** Deleting one job and lowering the degree of the dependants still held. */
  method RemoveOne(ghost jobs: Graph, degrees: map<Key, nat>, name: Key, dependants: seq<Key>)
    returns (inDegree: map<Key, nat>)
    requires LiveDegrees(jobs, degrees) && name in degrees && ListsNeeders(jobs, name, dependants)
    ensures LiveDegrees(jobs, inDegree) && inDegree.Keys == degrees.Keys - {name}
  {
    hide LiveDegrees, ListsNeeders;
    RemovalStart(jobs, degrees, name, dependants);
    inDegree := degrees - {name};
    for j := 0 to |dependants|
      invariant inDegree.Keys == degrees.Keys - {name} && PartlyRemoved(jobs, degrees.Keys, dependants[..j], inDegree)
    {
      var dependent := dependants[j];
      StillPending(jobs, degrees.Keys, name, dependants, j);
      if dependent in inDegree {
        RemovalStep(jobs, degrees.Keys, dependants, j, inDegree);
        inDegree := inDegree[dependent := inDegree[dependent] - 1];
      } else {
        assert dependants[..j + 1] == dependants[..j] + [dependent];
      }
    }
    assert dependants[..|dependants|] == dependants;
    RemovalEnd(jobs, degrees, name, dependants, inDegree);
  }

  ghost predicate PartlyRemoved(g: Graph, live: set<Key>, visited: seq<Key>, inDegree: map<Key, nat>) {
    && inDegree.Keys <= g.Keys
    && forall k :: k in inDegree ==> inDegree[k] + multiset(visited)[k] == PendingCount(g[k], live)
  }

  lemma RemovalStart(g: Graph, degrees: map<Key, nat>, name: Key, dependants: seq<Key>)
    requires LiveDegrees(g, degrees)
    ensures degrees.Keys <= g.Keys && PartlyRemoved(g, degrees.Keys, dependants[..0], degrees - {name})
  {
  }

  lemma RemovalStep(g: Graph, live: set<Key>, dependants: seq<Key>, j: nat, inDegree: map<Key, nat>)
    requires j < |dependants| && dependants[j] in inDegree && PartlyRemoved(g, live, dependants[..j], inDegree)
    requires multiset(dependants[..j + 1])[dependants[j]] <= PendingCount(g[dependants[j]], live)
    ensures inDegree[dependants[j]] > 0
    ensures PartlyRemoved(g, live, dependants[..j + 1], inDegree[dependants[j] := inDegree[dependants[j]] - 1])
  {
    assert dependants[..j + 1] == dependants[..j] + [dependants[j]];
  }

  lemma RemovalEnd(g: Graph, degrees: map<Key, nat>, name: Key, dependants: seq<Key>, inDegree: map<Key, nat>)
    requires name in degrees && degrees.Keys <= g.Keys && ListsNeeders(g, name, dependants)
    requires inDegree.Keys == degrees.Keys - {name} && PartlyRemoved(g, degrees.Keys, dependants, inDegree)
    ensures LiveDegrees(g, inDegree)
  {
    forall k | k in inDegree ensures inDegree[k] == PendingCount(g[k], inDegree.Keys) {
      PendingWithout(g[k], degrees.Keys, name);
    }
  }

  lemma AllWait(g: Graph, inDegree: map<Key, nat>)
    requires LiveDegrees(g, inDegree) && inDegree.Keys != {} && ZeroGroup(inDegree, [])
    ensures var rest := set k | k in inDegree && inDegree[k] > 0;
            rest != {} && rest <= g.Keys && Stuck(g, rest) && !Acyclic(g)
  {
    hide DependsInto, PendingCount, Acyclic;
    var rest := set k | k in inDegree && inDegree[k] > 0;
    assert forall k :: k in inDegree ==> k !in [] && inDegree[k] > 0;
    assert rest == inDegree.Keys;
    forall k | k in rest ensures DependsInto(g, k, rest) {
      WaitsInto(g, k, rest);
    }
    StuckHasCycle(g, rest);
  }

  lemma PeelRound(g: Graph, inDegree: map<Key, nat>, level: map<Key, nat>, groups: seq<seq<Key>>, group: seq<Key>)
    requires LiveDegrees(g, inDegree) && Peeled(g, inDegree.Keys, level, groups) && ZeroGroup(inDegree, group) &&
        group != []
    ensures Peeled(g, inDegree.Keys - Elements(group), level + Round(group, |groups|), groups + [group])
  {
    hide GroupsByLevel;
    var live := inDegree.Keys;
    var next := level + Round(group, |groups|);
    PeelLevels(g, inDegree, level, groups, group);
    PeelGroups(level, groups, group);
    forall k | k in live - Elements(group) ensures WaitsFor(g, live - Elements(group), next, |groups + [group]|, k) {
      PendingZero(g[k], live);
      var d :| d in g[k] && d in live;
      assert Edge(g, k, d);
      assert d in group ==> d in next && next[d] + 1 == |groups + [group]|;
    }
  }

  lemma PeelGroups(level: map<Key, nat>, groups: seq<seq<Key>>, group: seq<Key>)
    requires GroupsByLevel(level, groups) && Distinct(group) && group != [] && (forall k :: k in group ==> k !in level)
    ensures GroupsByLevel(level + Round(group, |groups|), groups + [group])
  {
  }

  lemma PeelLevels(g: Graph, inDegree: map<Key, nat>, level: map<Key, nat>, groups: seq<seq<Key>>, group: seq<Key>)
    requires LiveDegrees(g, inDegree) && Peeled(g, inDegree.Keys, level, groups) && ZeroGroup(inDegree, group)
    ensures Levelled(g, level + Round(group, |groups|))
  {
    var live := inDegree.Keys;
    var next := level + Round(group, |groups|);
    forall k, d | k in next && Edge(g, k, d) ensures d in next && next[d] < next[k] {
      if k in group {
        PendingZero(g[k], live);
        assert d in level && level[d] < |groups|;
      }
    }
    forall k | k in next && next[k] > 0 ensures OneBelow(g, next, k) {
      if k in group {
        PendingZero(g[k], live);
        assert WaitsFor(g, live, level, |groups|, k);
        var d :| Edge(g, k, d) && (d in live || (d in level && level[d] + 1 == |groups|));
        assert next[d] + 1 == next[k];
      } else {
        assert OneBelow(g, level, k);
        var d :| Edge(g, k, d) && d in level && level[d] + 1 == level[k];
        assert d in next && next[d] + 1 == next[k];
      }
    }
  }

  lemma AllPeeled(g: Graph, level: map<Key, nat>, groups: seq<seq<Key>>)
    requires Peeled(g, {}, level, groups)
    ensures Acyclic(g) && GroupsByLevel(Levels(g), groups)
  {
    LevelsUnique(g, level);
  }


  // ------------------------------------------------------ the two agree

  ghost function TotalSize(groups: seq<seq<Key>>): nat {
    if groups == [] then 0 else TotalSize(groups[..|groups| - 1]) + |groups[|groups| - 1]|
  }

  ghost function Below(level: map<Key, nat>, r: nat): set<Key> {
    set k | k in level && level[k] < r
  }

  /** The sorted order is the groups laid end to end, each in some order of its own. */
  lemma SortLinearisesGroups(g: Graph, order: seq<Key>, groups: seq<seq<Key>>, r: nat)
    requires Acyclic(g) && TopoOrder(g, order) && ByLevel(Levels(g), order)
    requires GroupsByLevel(Levels(g), groups) && r < |groups|
    ensures var from := TotalSize(groups[..r]); var to := TotalSize(groups[..r + 1]);
            && to == from + |groups[r]| <= |order|
            && (forall i :: from <= i < to <==> 0 <= i < |order| && order[i] in groups[r])
  {
    var level := Levels(g);
    var from, to := TotalSize(groups[..r]), TotalSize(groups[..r + 1]);
    assert groups[..r + 1][..r] == groups[..r];
    CountBelow(level, groups, r);
    CountBelow(level, groups, r + 1);
    BelowIsPrefix(level, order, r);
    BelowIsPrefix(level, order, r + 1);
    forall i | 0 <= i < |order| ensures from <= i < to <==> order[i] in groups[r] {
      assert order[i] in level;
      assert order[i] in groups[r] <==> level[order[i]] == r;
    }
  }

  lemma {:induction false} CountBelow(level: map<Key, nat>, groups: seq<seq<Key>>, r: nat)
    requires GroupsByLevel(level, groups) && r <= |groups|
    ensures TotalSize(groups[..r]) == |Below(level, r)|
  {
    if r == 0 {
      assert Below(level, 0) == {};
    } else {
      CountBelow(level, groups, r - 1);
      assert groups[..r][..r - 1] == groups[..r - 1];
      var last := groups[r - 1];
      DistinctSize(last);
      assert forall k :: k in last <==> k in level && level[k] == r - 1;
      assert Below(level, r) == Below(level, r - 1) + Elements(last);
      assert Below(level, r - 1) !! Elements(last);
    }
  }

  /** In level order the jobs below a level come first. */
  lemma BelowIsPrefix(level: map<Key, nat>, order: seq<Key>, r: nat)
    requires Distinct(order) && Elements(order) == level.Keys && ByLevel(level, order)
    ensures |Below(level, r)| <= |order|
    ensures forall i :: 0 <= i < |order| ==> (level[order[i]] < r <==> i < |Below(level, r)|)
  {
    var m := 0;
    while m < |order| && level[order[m]] < r
      invariant m <= |order| && forall i :: 0 <= i < m ==> level[order[i]] < r
    {
      m := m + 1;
    }
    forall k ensures k in Below(level, r) <==> k in order[..m] {
      assert k in level <==> k in Elements(order);
      if k in Below(level, r) {
        var i := Position(order, k);
        assert order[i] == k;
      }
    }
    assert Below(level, r) == Elements(order[..m]);
    DistinctSize(order[..m]);
  }
}
