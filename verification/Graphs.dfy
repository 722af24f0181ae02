// Dependency graphs as plain values: walks, cycles, topological orders and
// dependency levels. The algorithms elsewhere are specified against this module.
module Graphs {
  import opened Text

  type Key = string

  /** Each known job with the jobs it depends on; unknown names are not edges. */
  type Graph = map<Key, seq<Key>>

  ghost predicate Edge(g: Graph, a: Key, b: Key) {
    a in g && b in g && b in g[a]
  }

  ghost predicate Walk(g: Graph, w: seq<Key>) {
    && |w| > 0
    && (forall i :: 0 <= i < |w| ==> w[i] in g)
    && (forall i :: 0 <= i < |w| - 1 ==> Edge(g, w[i], w[i + 1]))
  }

  /** A closed walk along dependency edges. */
  ghost predicate Cycle(g: Graph, w: seq<Key>) {
    Walk(g, w) && |w| > 1 && w[0] == w[|w| - 1]
  }

  ghost predicate Acyclic(g: Graph) {
    forall w :: !Cycle(g, w)
  }

  ghost predicate NoMissing(g: Graph) {
    forall a, b :: a in g && b in g[a] ==> b in g
  }

  /** Every job once, each after all the known jobs it depends on. */
  ghost predicate TopoOrder(g: Graph, order: seq<Key>) {
    Distinct(order) && Elements(order) == g.Keys && DepsFirst(g, order)
  }

  ghost predicate DependsOnlyOn(g: Graph, k: Key, before: seq<Key>) {
    forall b :: Edge(g, k, b) ==> b in before
  }

  ghost predicate DepsFirst(g: Graph, order: seq<Key>) {
    forall i :: 0 <= i < |order| ==> DependsOnlyOn(g, order[i], order[..i])
  }

  // ---------------------------------------------------------------- walks

  lemma WalkSlice(g: Graph, w: seq<Key>, i: nat, j: nat)
    requires Walk(g, w) && i < j <= |w|
    ensures Walk(g, w[i..j])
  {
    var s := w[i..j];
    forall k | 0 <= k < |s| - 1 ensures Edge(g, s[k], s[k + 1]) {
      assert s[k] == w[i + k] && s[k + 1] == w[i + k + 1];
    }
  }

  lemma WalkJoin(g: Graph, v: seq<Key>, w: seq<Key>)
    requires Walk(g, v) && Walk(g, w) && Edge(g, v[|v| - 1], w[0])
    ensures Walk(g, v + w)
  {
    var s := v + w;
    forall k | 0 <= k < |s| - 1 ensures Edge(g, s[k], s[k + 1]) {
      if k >= |v| {
        assert s[k] == w[k - |v|] && s[k + 1] == w[k + 1 - |v|];
      }
    }
  }

  /** Along a walk any rank that falls on every edge falls by at least one per step. */
  lemma {:induction false} RankFalls(g: Graph, w: seq<Key>, rank: map<Key, nat>)
    requires Walk(g, w) && g.Keys <= rank.Keys
    requires forall a, b :: Edge(g, a, b) ==> rank[b] < rank[a]
    ensures rank[w[|w| - 1]] + |w| - 1 <= rank[w[0]]
  {
    if |w| > 1 {
      assert Edge(g, w[0], w[0 + 1]);
      WalkSlice(g, w, 1, |w|);
      RankFalls(g, w[1..], rank);
    }
  }

  lemma RankedIsAcyclic(g: Graph, rank: map<Key, nat>)
    requires g.Keys <= rank.Keys
    requires forall a, b :: Edge(g, a, b) ==> rank[b] < rank[a]
    ensures Acyclic(g)
  {
    forall w ensures !Cycle(g, w) {
      if Cycle(g, w) {
        RankFalls(g, w, rank);
      }
    }
  }

  /** The pair of ranks of b lies below that of a, the outer rank deciding first. */
  ghost predicate Falls(outer: map<Key, nat>, inner: map<Key, nat>, a: Key, b: Key)
    requires a in outer && b in outer && outer.Keys == inner.Keys
  {
    outer[b] < outer[a] || (outer[b] == outer[a] && inner[b] < inner[a])
  }

  lemma FallingIsAcyclic(g: Graph, outer: map<Key, nat>, inner: map<Key, nat>)
    requires g.Keys == outer.Keys == inner.Keys
    requires forall a, b :: Edge(g, a, b) ==> Falls(outer, inner, a, b)
    ensures Acyclic(g)
  {
    var n := BoundOf(inner);
    var rank := Weighted(outer, inner, n);
    forall a, b | Edge(g, a, b) ensures rank[b] < rank[a] {
      assert Falls(outer, inner, a, b);
      WeightedFalls(outer[b], inner[b], outer[a], inner[a], n);
    }
    RankedIsAcyclic(g, rank);
  }

  ghost function Weighted(outer: map<Key, nat>, inner: map<Key, nat>, n: nat): map<Key, nat>
    requires outer.Keys == inner.Keys
  {
    map k | k in outer :: outer[k] * n + inner[k]
  }

  lemma WeightedFalls(outer1: nat, inner1: nat, outer2: nat, inner2: nat, n: nat)
    requires inner1 < n && (outer1 < outer2 || (outer1 == outer2 && inner1 < inner2))
    ensures outer1 * n + inner1 < outer2 * n + inner2
  {
    if outer1 < outer2 {
      assert (outer1 + 1) * n <= outer2 * n;
    }
  }

  lemma BoundOf(m: map<Key, nat>) returns (n: nat)
    ensures forall k :: k in m ==> m[k] < n
  {
    n := 0;
    var rest := m.Keys;
    while rest != {}
      invariant rest <= m.Keys && forall k :: k in m && k !in rest ==> m[k] < n
    {
      var k :| k in rest;
      n := if m[k] < n then n else m[k] + 1;
      rest := rest - {k};
    }
  }

  function Position(order: seq<Key>, k: Key): (i: nat)
    requires k in order
    ensures i < |order| && order[i] == k
  {
    if order[0] == k then 0 else 1 + Position(order[1..], k)
  }

  lemma OrderIsAcyclic(g: Graph, order: seq<Key>)
    requires TopoOrder(g, order)
    ensures Acyclic(g)
  {
    assert forall k :: k in g ==> k in Elements(order);
    var rank := map k | k in g :: Position(order, k);
    forall a, b | Edge(g, a, b) ensures rank[b] < rank[a] {
      var i := Position(order, a);
      assert b in order[..i];
    }
    RankedIsAcyclic(g, rank);
  }

  ghost predicate DependsInto(g: Graph, k: Key, s: set<Key>) {
    exists d :: d in s && Edge(g, k, d)
  }

  ghost predicate Stuck(g: Graph, s: set<Key>) {
    forall k {:trigger DependsInto(g, k, s)} :: k in s ==> DependsInto(g, k, s)
  }

  /** If every member of a non-empty set depends on a member, some members form a cycle. */
  lemma StuckHasCycle(g: Graph, s: set<Key>)
    requires s != {} && s <= g.Keys
    requires Stuck(g, s)
    ensures !Acyclic(g)
  {
    var k :| k in s;
    ExtendToCycle(g, s, [k]);
  }

  lemma RepeatIsCycle(g: Graph, w: seq<Key>, d: Key)
    requires Walk(g, w + [d]) && d in w
    ensures !Acyclic(g)
  {
    var i := Position(w, d);
    WalkSlice(g, w + [d], i, |w| + 1);
    assert Cycle(g, (w + [d])[i..|w| + 1]);
  }

  lemma {:induction false} ExtendToCycle(g: Graph, s: set<Key>, w: seq<Key>)
    requires s <= g.Keys && Walk(g, w) && Elements(w) <= s
    requires Stuck(g, s)
    ensures !Acyclic(g)
    decreases |s - Elements(w)|
  {
    var last := w[|w| - 1];
    assert last in Elements(w);
    assert DependsInto(g, last, s);
    var d :| d in s && Edge(g, last, d);
    WalkJoin(g, w, [d]);
    if d in w {
      RepeatIsCycle(g, w, d);
    } else {
      assert Elements(w + [d]) == Elements(w) + {d};
      assert s - Elements(w + [d]) == (s - Elements(w)) - {d};
      ExtendToCycle(g, s, w + [d]);
    }
  }

  // --------------------------------------------------------------- levels

  /** The level equations on a dependency-closed set of jobs: level 0 without known
      dependencies, otherwise one more than the deepest dependency. */
  ghost predicate Levelled(g: Graph, level: map<Key, nat>) {
    && level.Keys <= g.Keys
    && (forall k, d :: k in level && Edge(g, k, d) ==> d in level && level[d] < level[k])
    && (forall k {:trigger OneBelow(g, level, k)} :: k in level && level[k] > 0 ==> OneBelow(g, level, k))
  }

  /** Some dependency of k sits exactly one level below it. */
  ghost predicate OneBelow(g: Graph, level: map<Key, nat>, k: Key)
    requires k in level
  {
    exists d :: Edge(g, k, d) && d in level && level[d] + 1 == level[k]
  }

  ghost predicate Levelling(g: Graph, level: map<Key, nat>) {
    Levelled(g, level) && level.Keys == g.Keys
  }

  /** The level equations have at most one solution. */
  lemma {:induction false} LevelsAgree(g: Graph, p: map<Key, nat>, q: map<Key, nat>, k: Key)
    requires Levelled(g, p) && Levelled(g, q) && k in p && k in q
    ensures p[k] == q[k]
    decreases p[k]
  {
    if p[k] > 0 {
      assert OneBelow(g, p, k);
      var d :| Edge(g, k, d) && d in p && p[d] + 1 == p[k];
      LevelsAgree(g, p, q, d);
    }
    if q[k] > 0 {
      assert OneBelow(g, q, k);
      var e :| Edge(g, k, e) && e in q && q[e] + 1 == q[k];
      LevelsAgree(g, p, q, e);
    }
  }

  /** Levels given out one job at a time, each to a job whose dependencies have theirs. */
  lemma {:induction false} GiveLevels(g: Graph, level: map<Key, nat>) returns (all: map<Key, nat>)
    requires Acyclic(g) && Levelled(g, level)
    ensures Levelling(g, all)
    decreases |g.Keys - level.Keys|
  {
    hide Acyclic, Levelled, Levelling, Edge;
    if g.Keys - level.Keys == {} {
      AllLevelled(g, level);
      all := level;
    } else {
      var k := NextToLevel(g, level);
      var next := LevelOneMore(g, level, k);
      assert g.Keys - next.Keys == g.Keys - level.Keys - {k};
      all := GiveLevels(g, next);
    }
  }

  lemma AcyclicHasLevels(g: Graph)
    requires Acyclic(g)
    ensures exists l :: Levelling(g, l)
  {
    var l := GiveLevels(g, map[]);
  }

  lemma AllLevelled(g: Graph, level: map<Key, nat>)
    requires Levelled(g, level) && g.Keys - level.Keys == {}
    ensures Levelling(g, level)
  {
    assert g.Keys == (g.Keys - level.Keys) + level.Keys;
  }

  /** While some jobs have no level, one of them depends on none of these. */
  lemma NextToLevel(g: Graph, level: map<Key, nat>) returns (k: Key)
    requires Acyclic(g) && g.Keys - level.Keys != {}
    ensures k in g && k !in level && forall d :: Edge(g, k, d) ==> d in level
  {
    hide Acyclic;
    var rest := g.Keys - level.Keys;
    if Stuck(g, rest) {
      StuckHasCycle(g, rest);
    }
    k :| k in rest && !DependsInto(g, k, rest);
    forall d | Edge(g, k, d) ensures d in level {
      assert d in rest ==> DependsInto(g, k, rest);
    }
  }

  lemma LevelOneMore(g: Graph, level: map<Key, nat>, k: Key) returns (next: map<Key, nat>)
    requires Levelled(g, level) && k in g && k !in level
    requires forall d :: Edge(g, k, d) ==> d in level
    ensures Levelled(g, next) && next.Keys == level.Keys + {k}
  {
    var n := LevelAbove(g, level, k, g[k]);
    next := level[k := n];
    forall a, d | a in next && Edge(g, a, d) ensures d in next && next[d] < next[a] {
      if a == k {
        assert d in g[k];
      }
    }
    forall a | a in next && next[a] > 0
      ensures OneBelow(g, next, a)
    {
      if a != k {
        assert OneBelow(g, level, a);
        var d :| Edge(g, a, d) && d in level && level[d] + 1 == level[a];
        assert d in next && next[d] + 1 == next[a];
      } else {
        var d :| d in g[k] && Edge(g, k, d) && level[d] == n - 1;
        assert d in next && next[d] + 1 == next[a];
      }
    }
  }

  /** One more than the deepest of the listed dependencies, 0 when none is known. */
  lemma {:induction false} LevelAbove(g: Graph, level: map<Key, nat>, k: Key, deps: seq<Key>) returns (n: nat)
    requires k in g && (forall d :: d in deps ==> d in g[k])
    requires forall d :: Edge(g, k, d) ==> d in level
    ensures forall d :: d in deps && Edge(g, k, d) ==> level[d] < n
    ensures n > 0 ==> exists d :: d in deps && Edge(g, k, d) && level[d] == n - 1
  {
    n := 0;
    if deps != [] {
      var d := deps[0];
      var m := LevelAbove(g, level, k, deps[1..]);
      assert forall x :: x in deps <==> x == d || x in deps[1..];
      n := m;
      if d in g && level[d] >= m {
        assert Edge(g, k, d);
        n := level[d] + 1;
      }
    }
  }

  /** The dependency level of every job of an acyclic graph. */
  ghost function Levels(g: Graph): (level: map<Key, nat>)
    requires Acyclic(g)
    ensures Levelling(g, level)
  {
    AcyclicHasLevels(g);
    var level :| Levelling(g, level);
    level
  }

  lemma LevelsUnique(g: Graph, level: map<Key, nat>)
    requires Levelling(g, level)
    ensures Acyclic(g) && level == Levels(g)
  {
    RankedIsAcyclic(g, level);
    forall k | k in g ensures level[k] == Levels(g)[k] {
      LevelsAgree(g, level, Levels(g), k);
    }
  }

  /** The level of a job is the length of the longest dependency walk from it. */
  lemma LevelIsLongestWalk(g: Graph, k: Key)
    requires Acyclic(g) && k in g
    ensures forall w :: Walk(g, w) && w[0] == k ==> |w| - 1 <= Levels(g)[k]
    ensures exists w :: Walk(g, w) && w[0] == k && |w| - 1 == Levels(g)[k]
  {
    forall w | Walk(g, w) && w[0] == k ensures |w| - 1 <= Levels(g)[k] {
      RankFalls(g, w, Levels(g));
    }
    var w := DeepestWalk(g, k);
  }

  lemma {:induction false} DeepestWalk(g: Graph, k: Key) returns (w: seq<Key>)
    requires Acyclic(g) && k in g
    ensures Walk(g, w) && w[0] == k && |w| - 1 == Levels(g)[k]
    decreases Levels(g)[k]
  {
    w := [k];
    if Levels(g)[k] > 0 {
      assert OneBelow(g, Levels(g), k);
      var d :| Edge(g, k, d) && d in Levels(g) && Levels(g)[d] + 1 == Levels(g)[k];
      var v := DeepestWalk(g, d);
      WalkJoin(g, [k], v);
      w := [k] + v;
    }
  }
}
