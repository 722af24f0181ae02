// The run graph of the web interface: jobs laid out in rows by memoised
// dependency depth, with a guard against walking in circles.
module GraphRows {
  import opened Text
  import opened Graphs

  datatype JobView = JobView(key: Key, dependencyKeys: seq<Key>)

  datatype Row = Row(level: nat, jobs: seq<JobView>)

  /** byKey: a later job with the same key replaces an earlier one. */
  function ByKey(jobs: seq<JobView>): (g: Graph)
    ensures forall k :: k in g <==> exists job :: job in jobs && job.key == k
  {
    if jobs == [] then map[]
    else
      var n := |jobs| - 1;
      assert forall job :: job in jobs <==> job in jobs[..n] || job == jobs[n];
      ByKey(jobs[..n])[jobs[n].key := jobs[n].dependencyKeys]
  }

  /** The memo maps that the recursive closure levelOf captures. */
  class LevelMemo {
    const byKey: Graph
    var levels: map<Key, nat>
    var visiting: set<Key>

    constructor (byKey: Graph)
      ensures this.byKey == byKey && levels == map[] && visiting == {}
    {
      this.byKey, levels, visiting := byKey, map[], {};
    }

    /** Memoised jobs are done with; on an acyclic graph every memoised level is the
        dependency level of its job. */
    ghost predicate Sound()
      reads this
    {
      && levels.Keys <= byKey.Keys && visiting <= byKey.Keys && levels.Keys !! visiting
      && (Acyclic(byKey) ==> forall k :: k in levels ==> levels[k] == Levels(byKey)[k])
    }

    /** On an acyclic graph the jobs being visited lie strictly above the given one. */
    ghost predicate VisitingAbove(key: Key)
      reads this
      requires key in byKey && visiting <= byKey.Keys
    {
      Acyclic(byKey) ==> forall k :: k in visiting ==> Levels(byKey)[k] > Levels(byKey)[key]
    }

    method LevelOf(key: Key) returns (level: nat)
      requires Sound() && key in byKey && VisitingAbove(key)
      modifies this
      ensures Sound() && visiting == old(visiting)
      ensures forall k :: k in old(levels) ==> k in levels && levels[k] == old(levels)[k]
      ensures key !in visiting ==> key in levels && levels[key] == level
      ensures Acyclic(byKey) ==> level == Levels(byKey)[key]
      decreases byKey.Keys - visiting
    {
      if key in levels {
        return levels[key];
      }
      if key in visiting {
        return 0;
      }
      visiting := visiting + {key};
      level := 0;
      var dependencies := byKey[key];
      ghost var entered := visiting;
      for n := 0 to |dependencies|
        invariant Sound() && visiting == entered
        invariant forall k :: k in old(levels) ==> k in levels && levels[k] == old(levels)[k]
        invariant Acyclic(byKey) ==> Deepest(byKey, dependencies[..n], level)
      {
        var dependency := dependencies[n];
        assert dependencies[..n + 1] == dependencies[..n] + [dependency];
        if dependency in byKey {
          assert Edge(byKey, key, dependency);
          var below := LevelOf(dependency);
          var candidate := below + 1;
          if candidate > level {
            level := candidate;
          }
        }
      }
      assert dependencies[..|dependencies|] == dependencies;
      if Acyclic(byKey) {
        DeepestIsLevel(byKey, key, level);
      }
      visiting := visiting - {key};
      levels := levels[key := level];
    }
  }

  /** One more than the deepest known name of the list, 0 if there is none. */
  ghost predicate Deepest(g: Graph, deps: seq<Key>, level: nat)
    requires Acyclic(g)
  {
    && (forall d :: d in deps && d in g ==> Levels(g)[d] < level)
    && (level > 0 ==> exists d :: d in deps && d in g && Levels(g)[d] + 1 == level)
  }

  lemma DeepestIsLevel(g: Graph, key: Key, level: nat)
    requires Acyclic(g) && key in g && Deepest(g, g[key], level)
    ensures level == Levels(g)[key]
  {
    var l := Levels(g);
    if level > 0 {
      var d :| d in g[key] && d in g && l[d] + 1 == level;
      assert Edge(g, key, d);
    }
    if l[key] > 0 {
      assert OneBelow(g, l, key);
      var d :| Edge(g, key, d) && d in l && l[d] + 1 == l[key];
    }
  }

  /** The jobs of one row, in their original order. */
  function RowOf(jobs: seq<JobView>, level: map<Key, nat>, r: nat): seq<JobView>
    requires forall job :: job in jobs ==> job.key in level
  {
    if jobs == [] then []
    else
      var n := |jobs| - 1;
      RowOf(jobs[..n], level, r) + if level[jobs[n].key] == r then [jobs[n]] else []
  }

  /** One row for every level up to the deepest, each holding its jobs in order. */
  ghost predicate LaidOut(jobs: seq<JobView>, level: map<Key, nat>, rows: seq<Row>) {
    && (forall job :: job in jobs ==> job.key in level && level[job.key] < |rows|)
    && (forall r :: 0 <= r < |rows| ==> rows[r].level == r && rows[r].jobs == RowOf(jobs, level, r))
    && rows != []
    && (|rows| > 1 ==> exists job :: job in jobs && level[job.key] == |rows| - 1)
  }

  method BuildGraphRows(jobs: seq<JobView>) returns (rows: seq<Row>)
    ensures exists level: map<Key, nat> :: LaidOut(jobs, level, rows)
    ensures Acyclic(ByKey(jobs)) ==> LaidOut(jobs, Levels(ByKey(jobs)), rows)
  {
    var memo := new LevelMemo(ByKey(jobs));
    var maxLevel := DeepestLevel(memo, jobs);
    ghost var level := memo.levels;
    rows := FillRows(memo, jobs, maxLevel);
    assert LaidOut(jobs, level, rows);
    if Acyclic(ByKey(jobs)) {
      SameRows(jobs, level, Levels(ByKey(jobs)), rows);
    }
  }

  /** The first pass asks for every level and keeps the largest. */
  lemma KnownKey(jobs: seq<JobView>, n: nat)
    requires n < |jobs|
    ensures jobs[n].key in ByKey(jobs)
  {
    assert jobs[n] in jobs;
  }

  method DeepestLevel(memo: LevelMemo, jobs: seq<JobView>) returns (maxLevel: nat)
    requires memo.Sound() && memo.visiting == {} && memo.byKey == ByKey(jobs)
    modifies memo
    ensures memo.Sound() && memo.visiting == {}
    ensures forall job :: job in jobs ==> job.key in memo.levels && memo.levels[job.key] <= maxLevel
    ensures maxLevel > 0 ==> exists job :: job in jobs && job.key in memo.levels && memo.levels[job.key] == maxLevel
  {
    hide ByKey, Acyclic, Levels;
    maxLevel := 0;
    ghost var deepest := -1;
    for n := 0 to |jobs|
      invariant memo.Sound() && memo.visiting == {}
      invariant forall i :: 0 <= i < n ==> jobs[i].key in memo.levels && memo.levels[jobs[i].key] <= maxLevel
      invariant -1 <= deepest < |jobs| && (maxLevel > 0 ==> deepest >= 0)
      invariant deepest >= 0 ==> jobs[deepest].key in memo.levels && memo.levels[jobs[deepest].key] == maxLevel
    {
      KnownKey(jobs, n);
      var level := memo.LevelOf(jobs[n].key);
      if level > maxLevel {
        maxLevel := level;
        deepest := n;
      }
    }
  }

  /** The second pass appends every job to the row of its level. */
  method FillRows(memo: LevelMemo, jobs: seq<JobView>, maxLevel: nat) returns (rows: seq<Row>)
    requires memo.Sound() && memo.visiting == {} && memo.byKey == ByKey(jobs)
    requires forall job :: job in jobs ==> job.key in memo.levels && memo.levels[job.key] <= maxLevel
    modifies memo
    ensures |rows| == maxLevel + 1
    ensures forall r :: 0 <= r < |rows| ==> rows[r] == Row(r, RowOf(jobs, old(memo.levels), r))
  {
    hide ByKey, RowOf;
    ghost var level := memo.levels;
    rows := seq(maxLevel + 1, (r: nat) => Row(r, []));
    NoRows(level);
    for n := 0 to |jobs|
      invariant memo.Sound() && memo.visiting == {}
      invariant |rows| == maxLevel + 1
      invariant forall k :: k in level ==> k in memo.levels && memo.levels[k] == level[k]
      invariant forall r :: 0 <= r < |rows| ==> rows[r] == Row(r, RowOf(jobs[..n], level, r))
    {
      assert jobs[n] in jobs;
      var at := memo.LevelOf(jobs[n].key);
      NextInRow(jobs, level, n);
      rows := rows[at := Row(at, rows[at].jobs + [jobs[n]])];
    }
    assert jobs[..|jobs|] == jobs;
  }

  lemma NoRows(level: map<Key, nat>)
    ensures forall r :: RowOf([], level, r) == []
  {
  }

  lemma NextInRow(jobs: seq<JobView>, level: map<Key, nat>, n: nat)
    requires n < |jobs| && forall job :: job in jobs ==> job.key in level
    ensures forall r :: RowOf(jobs[..n + 1], level, r) ==
                        RowOf(jobs[..n], level, r) + if level[jobs[n].key] == r then [jobs[n]] else []
  {
    assert jobs[..n + 1][..n] == jobs[..n];
  }

  lemma SameRows(jobs: seq<JobView>, p: map<Key, nat>, q: map<Key, nat>, rows: seq<Row>)
    requires LaidOut(jobs, p, rows) && (forall k :: k in p ==> k in q && p[k] == q[k])
    ensures LaidOut(jobs, q, rows)
  {
    forall r ensures RowOf(jobs, p, r) == RowOf(jobs, q, r) {
      SameRow(jobs, p, q, r);
    }
  }

  lemma {:induction false} SameRow(jobs: seq<JobView>, p: map<Key, nat>, q: map<Key, nat>, r: nat)
    requires forall job :: job in jobs ==> job.key in p && job.key in q && p[job.key] == q[job.key]
    ensures RowOf(jobs, p, r) == RowOf(jobs, q, r)
  {
    if jobs != [] {
      var n := |jobs| - 1;
      assert jobs[n] in jobs;
      SameRow(jobs[..n], p, q, r);
    }
  }
}
