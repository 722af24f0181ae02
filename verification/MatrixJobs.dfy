// The dependency part of normalising a definition: jobs are blown up into matrix
// variants, dependencies follow, missing optional needs are pruned, the graph is ordered.
module MatrixJobs {
  import opened Text
  import opened Graphs
  import opened TopologicalOrder

  /** optional holds the needs flagged optional: true in the source. */
  datatype SourceJob = SourceJob(needs: seq<Key>, optional: set<Key>, required: seq<Key>)

  datatype VariantJob = VariantJob(needs: seq<Key>, optional: set<Key>, required: seq<Key>)

  type Sources = map<Key, SourceJob>

  /** The variant keys of every source job. */
  type Variants = map<Key, seq<Key>>

  // ------------------------------------------------------------ the rewriters

  function Matches(variants: Variants, key: Key): seq<Key> {
    if key in variants && |variants[key]| > 0 then variants[key] else [key]
  }

  /** What stands for a key: its variants, or for an unknown key itself. */
  lemma MatchesAre(variants: Variants, key: Key, m: Key)
    ensures m in Matches(variants, key) <==>
            if key in variants && variants[key] != [] then m in variants[key] else m == key
  {
  }

  ghost predicate Expands(keys: seq<Key>, variants: Variants, x: Key) {
    x != "" && exists key, m :: key in keys && m in Matches(variants, key) && x == Trim(m)
  }

  method ExpandDependencyKeys(keys: seq<Key>, variants: Variants) returns (r: seq<Key>)
    ensures Ascending(r) && forall x :: x in r <==> Expands(keys, variants, x)
  {
    var expanded := [];
    for n := 0 to |keys|
      invariant forall m :: m in expanded <==> exists i :: 0 <= i < n && m in Matches(variants, keys[i])
    {
      expanded := expanded + Matches(variants, keys[n]);
    }
    r := SortedUnique(expanded);
    forall x ensures x in r <==> Expands(keys, variants, x) {
      SortedUniqueContains(expanded, x);
      if x != "" {
        if m :| m in expanded && x == Trim(m) {
          var i :| 0 <= i < |keys| && m in Matches(variants, keys[i]);
          assert keys[i] in keys;
        }
        if key, m :| key in keys && m in Matches(variants, key) && x == Trim(m) {
          var i :| 0 <= i < |keys| && keys[i] == key;
          assert m in expanded;
        }
      }
    }
  }

  method ExpandOptionalNeeds(values: set<Key>, variants: Variants) returns (r: set<Key>)
    ensures forall x :: x in r <==> exists key :: key in values && x in Matches(variants, key)
  {
    r := {};
    var todo := values;
    while todo != {}
      invariant todo <= values
      invariant forall x :: x in r <==> exists key :: key in values && key !in todo && x in Matches(variants, key)
    {
      var key :| key in todo;
      r := r + set m | m in Matches(variants, key);
      todo := todo - {key};
    }
  }

  method PruneMissingOptional(keys: seq<Key>, optional: set<Key>, jobs: set<Key>) returns (r: seq<Key>)
    requires Ascending(keys)
    ensures Ascending(r) && forall x :: x in r <==> x in keys && (x in jobs || x !in optional)
  {
    r := [];
    AscendingIs(keys);
    for n := 0 to |keys|
      invariant Ascending(r)
      invariant forall x :: x in r <==> x in keys[..n] && (x in jobs || x !in optional)
    {
      if keys[n] in jobs || keys[n] !in optional {
        forall x | x in r ensures Less(x, keys[n]) {
          assert x in keys[..n];
        }
        AscendingAppend(r, keys[n]);
        r := r + [keys[n]];
      }
    }
    assert keys[..|keys|] == keys;
  }

  method RetainOptional(values: set<Key>, needs: seq<Key>) returns (r: set<Key>)
    ensures r == set need | need in needs && need in values
  {
    r := {};
    for n := 0 to |needs|
      invariant r == set need | need in needs[..n] && need in values
    {
      if needs[n] in values {
        r := r + {needs[n]};
      }
    }
    assert needs[..|needs|] == needs;
  }

  // -------------------------------------------------------- shape of the input

  ghost predicate Name(k: Key) {
    k != "" && Trimmed(k)
  }

  /** Every source has variants, names are proper, and no variant key is used twice. */
  ghost predicate WellShaped(sources: Sources, variants: Variants) {
    && variants.Keys == sources.Keys
    && (forall s :: s in sources ==> variants[s] != [] && forall v :: v in variants[s] ==> Name(v))
    && (forall s, k :: s in sources && (k in sources[s].needs || k in sources[s].required) ==> Name(k))
    && (forall s, t, v :: s in variants && t in variants && v in variants[s] && v in variants[t] ==> s == t)
    && (forall s :: s in variants ==> Distinct(variants[s]))
  }

  ghost predicate IsVariant(variants: Variants, v: Key) {
    exists s :: s in variants && v in variants[s]
  }

  ghost function OwnerOf(variants: Variants, v: Key): (s: Key)
    requires IsVariant(variants, v)
    ensures s in variants && v in variants[s]
  {
    var s :| s in variants && v in variants[s]; s
  }

  /** A name is known if it is a source job or directly a variant. */
  ghost predicate Known(variants: Variants, k: Key) {
    k in variants || IsVariant(variants, k)
  }

  /** The source job a known name belongs to. */
  ghost function SourceOf(variants: Variants, k: Key): (s: Key)
    requires Known(variants, k)
    ensures s in variants
  {
    if k in variants then k else OwnerOf(variants, k)
  }

  /** Dependencies between source jobs; names that are not known are no edges. */
  ghost function SourceGraph(sources: Sources, variants: Variants): Graph {
    map s | s in sources ::
        SortSet(set k | k in sources[s].needs + sources[s].required && Known(variants, k) :: SourceOf(variants, k))
  }

  /** Every dependency is known, or is an optional need that is dropped. */
  ghost predicate Satisfied(sources: Sources, variants: Variants) {
    && (forall s, k :: s in sources && k in sources[s].needs && k !in sources[s].optional ==> Known(variants, k))
    && (forall s, k :: s in sources && k in sources[s].required ==> Known(variants, k))
  }

  ghost predicate IsNormal(source: SourceJob, variants: Variants, job: VariantJob) {
    && (forall x :: x in job.needs <==> Needed(source, variants, x))
    && (forall x :: x in job.required <==> exists k :: k in source.required && x in Matches(variants, k))
    && (forall x :: x in job.optional <==> Needed(source, variants, x) && exists k ::
        k in source.optional && x in Matches(variants, k))
  }

  /** A need survives unless it is optional and unknown. */
  ghost predicate Needed(source: SourceJob, variants: Variants, x: Key) {
    exists k :: k in source.needs && x in Matches(variants, k) && (IsVariant(variants, x) || k !in source.optional)
  }

  method NormalizeJob(source: SourceJob, variants: Variants, jobs: set<Key>) returns (job: VariantJob)
    requires forall x :: x in jobs <==> IsVariant(variants, x)
    requires forall s, v :: s in variants && v in variants[s] ==> Name(v)
    requires forall k :: k in source.needs || k in source.required ==> Name(k)
    ensures IsNormal(source, variants, job)
  {
    hide Ascending;
    var expanded := ExpandDependencyKeys(source.needs, variants);
    var flags := ExpandOptionalNeeds(source.optional, variants);
    var needs := PruneMissingOptional(expanded, flags, jobs);
    var optional := RetainOptional(flags, needs);
    var required := ExpandDependencyKeys(source.required, variants);
    job := VariantJob(needs, optional, required);
    forall x ensures x in needs <==> Needed(source, variants, x) {
      PlainExpansion(source.needs, variants, x);
      PrunedIsNeeded(source, variants, x);
    }
    forall x ensures x in required <==> exists k :: k in source.required && x in Matches(variants, k) {
      PlainExpansion(source.required, variants, x);
    }
  }

  lemma PlainExpansion(keys: seq<Key>, variants: Variants, x: Key)
    requires forall s, v :: s in variants && v in variants[s] ==> Name(v)
    requires forall k :: k in keys ==> Name(k)
    ensures Expands(keys, variants, x) <==> exists k :: k in keys && x in Matches(variants, k)
  {
    if k, m :| k in keys && m in Matches(variants, k) && x == Trim(m) {
      assert Name(m);
      assert m == x;
    }
    if k :| k in keys && x in Matches(variants, k) {
      assert Name(x);
      assert x == Trim(x);
    }
  }

  /** A missing name is optional after expansion exactly when it was flagged itself. */
  lemma PrunedIsNeeded(source: SourceJob, variants: Variants, x: Key)
    ensures (exists k :: k in source.needs && x in Matches(variants, k)) &&
            (IsVariant(variants, x) || !exists k :: k in source.optional && x in Matches(variants, k))
            <==> Needed(source, variants, x)
  {
    forall k | x in Matches(variants, k) && !IsVariant(variants, x) ensures k == x {
    }
  }

  /** The keys of all variants, source job by source job. */
  function AllVariants(keys: seq<Key>, variants: Variants): seq<Key> {
    if keys == [] then [] else Matches(variants, keys[0]) + AllVariants(keys[1..], variants)
  }

  method NormalizeDependencies(sources: Sources, variants: Variants)
    returns (r: OrderResult, jobs: map<Key, VariantJob>)
    requires WellShaped(sources, variants)
    ensures r.Order? <==> Satisfied(sources, variants) && Acyclic(SourceGraph(sources, variants))
    ensures NormalFor(sources, variants, sources.Keys, jobs)
    ensures r.Order? ==> Distinct(r.order) && (forall v :: v in r.order <==> IsVariant(variants, v))
    ensures r.Order? ==> VariantsOrdered(sources, variants, r.order) && FlagsOnNeeds(variants, jobs, r.order)
  {
    hide Explains, NormalFor, IsNormal, IsVariantGraph;
    var sourceKeys := SourceKeys(sources);
    var jobKeys := AllVariants(sourceKeys, variants);
    ListsAllVariants(sources, variants, sourceKeys);
    jobs := NormalizeAll(sources, variants, sourceKeys, set v | v in jobKeys);
    var dependencies := map v | v in jobs :: SortedUnique(jobs[v].needs + jobs[v].required);
    r := DeterministicTopologicalOrder(jobKeys, dependencies);
    ghost var g := Normalised(jobKeys, dependencies);
    VariantGraph(sources, variants, jobs, jobKeys, dependencies);
    MissingMeansUnsatisfied(sources, variants, g);
    if Acyclic(g) {
      VariantAcyclicDrops(sources, variants, g);
    }
    if Acyclic(SourceGraph(sources, variants)) {
      SourceAcyclicLifts(sources, variants, g);
    }
    if r.Order? {
      OrderedVariants(sources, variants, jobs, g, r);
    }
  }

  ghost predicate Before(order: seq<Key>, u: Key, v: Key) {
    exists i, j :: 0 <= i < j < |order| && order[i] == u && order[j] == v
  }

  method SourceKeys(sources: Sources) returns (keys: seq<Key>)
    ensures Ascending(keys) && Elements(keys) == sources.Keys
  {
    keys := [];
    var rest := sources.Keys;
    while rest != {}
      invariant rest <= sources.Keys && Elements(keys) == sources.Keys - rest
    {
      var key :| key in rest;
      assert Elements(keys + [key]) == Elements(keys) + {key};
      keys := keys + [key];
      rest := rest - {key};
    }
    keys := SortUnique(keys);
  }

  ghost predicate NormalFor(sources: Sources, variants: Variants, done: set<Key>, jobs: map<Key, VariantJob>)
    requires variants.Keys == sources.Keys
  {
    && (forall s, v :: s in done && s in variants && v in variants[s] ==>
        v in jobs && IsNormal(sources[s], variants, jobs[v]))
    && (forall v :: v in jobs ==> IsVariant(variants, v))
  }

  method NormalizeAll(sources: Sources, variants: Variants, sourceKeys: seq<Key>, known: set<Key>)
    returns (jobs: map<Key, VariantJob>)
    requires WellShaped(sources, variants) && Elements(sourceKeys) == sources.Keys
    requires forall v :: v in known <==> IsVariant(variants, v)
    ensures NormalFor(sources, variants, sources.Keys, jobs)
  {
    hide IsNormal, Name, IsVariant;
    jobs := map[];
    for n := 0 to |sourceKeys|
      invariant NormalFor(sources, variants, Elements(sourceKeys[..n]), jobs)
    {
      var sourceKey := sourceKeys[n];
      assert sourceKey in Elements(sourceKeys);
      assert Elements(sourceKeys[..n + 1]) == Elements(sourceKeys[..n]) + {sourceKey};
      jobs := NormalizeVariants(sources, variants, sourceKey, known, Elements(sourceKeys[..n]), jobs);
    }
    assert sourceKeys[..|sourceKeys|] == sourceKeys;
  }

  lemma PutVariant(sources: Sources, variants: Variants, done: set<Key>, jobs: map<Key, VariantJob>, s: Key, v: Key,
      job: VariantJob)
    requires WellShaped(sources, variants) && s in sources && v in variants[s]
    requires NormalFor(sources, variants, done, jobs) && IsNormal(sources[s], variants, job)
    ensures NormalFor(sources, variants, done, jobs[v := job])
  {
    hide IsNormal;
  }

  lemma AllPut(sources: Sources, variants: Variants, done: set<Key>, jobs: map<Key, VariantJob>, s: Key)
    requires variants.Keys == sources.Keys && s in sources && NormalFor(sources, variants, done, jobs)
    requires forall v :: v in variants[s][..|variants[s]|] ==> v in jobs && IsNormal(sources[s], variants, jobs[v])
    ensures NormalFor(sources, variants, done + {s}, jobs)
  {
    hide IsNormal;
    assert variants[s][..|variants[s]|] == variants[s];
  }

  method NormalizeVariants(sources: Sources, variants: Variants, sourceKey: Key, known: set<Key>,
      ghost done: set<Key>, before: map<Key, VariantJob>)
    returns (jobs: map<Key, VariantJob>)
    requires WellShaped(sources, variants) && sourceKey in sources
    requires forall v :: v in known <==> IsVariant(variants, v)
    requires NormalFor(sources, variants, done, before)
    ensures NormalFor(sources, variants, done + {sourceKey}, jobs)
  {
    hide IsNormal, NormalFor;
    jobs := before;
    var keys := variants[sourceKey];
    for m := 0 to |keys|
      invariant NormalFor(sources, variants, done, jobs)
      invariant forall v :: v in keys[..m] ==> v in jobs && IsNormal(sources[sourceKey], variants, jobs[v])
    {
      var job := NormalizeJob(sources[sourceKey], variants, known);
      PutVariant(sources, variants, done, jobs, sourceKey, keys[m], job);
      jobs := jobs[keys[m] := job];
    }
    AllPut(sources, variants, done, jobs, sourceKey);
  }

  lemma ListsAllVariants(sources: Sources, variants: Variants, keys: seq<Key>)
    requires WellShaped(sources, variants) && Ascending(keys) && Elements(keys) == sources.Keys
    ensures Distinct(AllVariants(keys, variants))
    ensures forall v :: v in AllVariants(keys, variants) <==> IsVariant(variants, v)
  {
    AscendingIsDistinct(keys);
    assert forall s :: s in keys <==> s in Elements(keys);
    VariantsOf(sources, variants, keys);
  }

  lemma {:induction false} VariantsOf(sources: Sources, variants: Variants, keys: seq<Key>)
    requires WellShaped(sources, variants) && Distinct(keys) && forall s :: s in keys ==> s in sources
    ensures Distinct(AllVariants(keys, variants))
    ensures forall v :: v in AllVariants(keys, variants) <==> exists s :: s in keys && v in variants[s]
  {
    if keys != [] {
      VariantsOf(sources, variants, keys[1..]);
      assert keys[0] in keys;
      assert forall s :: s in keys <==> s == keys[0] || s in keys[1..];
      var a, b := variants[keys[0]], AllVariants(keys[1..], variants);
      forall i, j | 0 <= i < |a| && 0 <= j < |b| ensures a[i] != b[j] {
        assert a[i] in a && b[j] in b;
        assert keys[0] !in keys[1..];
      }
    }
  }

  // ---------------------------------------------------------- the variant graph

  /** The known names a source job depends on lead to this variant. */
  ghost predicate Links(source: SourceJob, variants: Variants, u: Key) {
    exists k :: (k in source.needs || k in source.required) && u in Matches(variants, k)
  }

  ghost predicate DependsOn(source: SourceJob, variants: Variants, x: Key) {
    Needed(source, variants, x) || exists k :: k in source.required && x in Matches(variants, k)
  }

  /** Every variant depends on what its source job depends on. */
  ghost predicate IsVariantGraph(sources: Sources, variants: Variants, g: Graph)
    requires variants.Keys == sources.Keys
  {
    && (forall v :: v in g <==> IsVariant(variants, v))
    && (forall s, v, x :: s in variants && v in variants[s] && v in g ==>
        (x in g[v] <==> DependsOn(sources[s], variants, x)))
  }

  lemma VariantGraph(sources: Sources, variants: Variants, jobs: map<Key, VariantJob>, jobKeys: seq<Key>,
      dependencies: map<Key, seq<Key>>)
    requires WellShaped(sources, variants) && NormalFor(sources, variants, sources.Keys, jobs)
    requires forall v :: v in jobKeys <==> IsVariant(variants, v)
    requires dependencies == map v | v in jobs :: SortedUnique(jobs[v].needs + jobs[v].required)
    ensures IsVariantGraph(sources, variants, Normalised(jobKeys, dependencies))
  {
    hide Needed, IsVariant;
    var g := Normalised(jobKeys, dependencies);
    forall s, v, x | s in variants && v in variants[s] && v in g
      ensures x in g[v] <==> DependsOn(sources[s], variants, x)
    {
      var job := jobs[v];
      NormalNames(sources, variants, s, job);
      TwiceSorted(job.needs + job.required, x);
    }
  }

  lemma NormalNames(sources: Sources, variants: Variants, s: Key, job: VariantJob)
    requires WellShaped(sources, variants) && s in sources && IsNormal(sources[s], variants, job)
    ensures forall x :: x in job.needs + job.required ==> Name(x)
  {
    forall x | x in job.needs + job.required ensures Name(x) {
      if x in job.needs {
        var k :| k in sources[s].needs && x in Matches(variants, k);
        assert Name(k);
      } else {
        var k :| k in sources[s].required && x in Matches(variants, k);
        assert Name(k);
      }
    }
  }

  lemma TwiceSorted(values: seq<Key>, x: Key)
    requires forall v :: v in values ==> Name(v)
    ensures x in SortedUnique(SortedUnique(values)) <==> x in values
  {
    forall y ensures y in SortedUnique(values) <==> y in values {
      SortedUniqueContains(values, y);
    }
    SortedUniqueContains(SortedUnique(values), x);
  }

  lemma VariantEdge(sources: Sources, variants: Variants, g: Graph, s: Key, v: Key, u: Key)
    requires WellShaped(sources, variants) && IsVariantGraph(sources, variants, g) && s in variants && v in variants[s]
    ensures IsVariant(variants, v)
    ensures s in sources && (Edge(g, v, u) <==> IsVariant(variants, u) && Links(sources[s], variants, u))
  {
    hide Needed, Links, Matches;
    assert IsVariant(variants, v);
    if IsVariant(variants, u) {
      LinksIsDependsOn(sources[s], variants, u);
    }
  }

  lemma LinksIsDependsOn(source: SourceJob, variants: Variants, u: Key)
    requires IsVariant(variants, u)
    ensures DependsOn(source, variants, u) <==> Links(source, variants, u)
  {
    hide Matches, IsVariant;
  }

  /** A variant reached through a known name belongs to the source of that name. */
  lemma OwnerOfMatch(sources: Sources, variants: Variants, k: Key, u: Key)
    requires WellShaped(sources, variants) && IsVariant(variants, u) && u in Matches(variants, k)
    ensures Known(variants, k) && SourceOf(variants, k) == OwnerOf(variants, u)
  {
  }

  lemma SourceEdge(sources: Sources, variants: Variants, s: Key, t: Key)
    requires WellShaped(sources, variants)
    ensures Edge(SourceGraph(sources, variants), s, t) <==>
            s in sources && t in sources &&
            exists k :: (k in sources[s].needs || k in sources[s].required) && Known(variants, k) &&
                t == SourceOf(variants, k)
  {
    if s in sources {
      var ts := set k | k in sources[s].needs + sources[s].required && Known(variants, k) :: SourceOf(variants, k);
      assert t in SortSet(ts) <==> t in Elements(SortSet(ts));
    }
  }

  lemma SourceAcyclicLifts(sources: Sources, variants: Variants, g: Graph)
    requires WellShaped(sources, variants) && IsVariantGraph(sources, variants, g)
    requires Acyclic(SourceGraph(sources, variants))
    ensures Acyclic(g)
  {
    var sg := SourceGraph(sources, variants);
    var rank := map v | v in g :: Levels(sg)[OwnerOf(variants, v)];
    hide IsVariantGraph, Levels, WellShaped, Links;
    forall v, u | Edge(g, v, u) ensures rank[u] < rank[v] {
      VariantEdgeProjects(sources, variants, g, v, u);
    }
    RankedIsAcyclic(g, rank);
  }

  lemma VariantEdgeProjects(sources: Sources, variants: Variants, g: Graph, v: Key, u: Key)
    requires WellShaped(sources, variants) && IsVariantGraph(sources, variants, g) && Edge(g, v, u)
    ensures IsVariant(variants, v) && IsVariant(variants, u)
    ensures Edge(SourceGraph(sources, variants), OwnerOf(variants, v), OwnerOf(variants, u))
  {
    var s := OwnerOf(variants, v);
    VariantEdge(sources, variants, g, s, v, u);
    var k :| (k in sources[s].needs || k in sources[s].required) && u in Matches(variants, k);
    OwnerOfMatch(sources, variants, k, u);
    SourceEdge(sources, variants, s, OwnerOf(variants, u));
  }

  /** The lowest level among some variants. */
  ghost function Lowest(vs: seq<Key>, level: map<Key, nat>): (m: nat)
    requires vs != [] && forall v :: v in vs ==> v in level
    ensures (exists v :: v in vs && level[v] == m) && forall v :: v in vs ==> m <= level[v]
  {
    assert vs[0] in vs;
    if |vs| == 1 then level[vs[0]]
    else
      var m := Lowest(vs[1..], level);
      assert forall v :: v in vs <==> v == vs[0] || v in vs[1..];
      if level[vs[0]] <= m then level[vs[0]] else m
  }

  lemma VariantAcyclicDrops(sources: Sources, variants: Variants, g: Graph)
    requires WellShaped(sources, variants) && IsVariantGraph(sources, variants, g)
    requires Acyclic(g)
    ensures Acyclic(SourceGraph(sources, variants))
  {
    var sg := SourceGraph(sources, variants);
    forall s, v | s in variants && v in variants[s] ensures v in Levels(g) {
      assert IsVariant(variants, v);
    }
    var rank := map s | s in sources :: Lowest(variants[s], Levels(g));
    forall s, t | Edge(sg, s, t) ensures rank[t] < rank[s] {
      SourceEdge(sources, variants, s, t);
      var v :| v in variants[s] && Levels(g)[v] == rank[s];
      var u := SourceEdgeLifts(sources, variants, g, s, t, v);
      assert rank[t] <= Levels(g)[u];
    }
    RankedIsAcyclic(sg, rank);
  }

  lemma SourceEdgeLifts(sources: Sources, variants: Variants, g: Graph, s: Key, t: Key, v: Key) returns (u: Key)
    requires WellShaped(sources, variants) && IsVariantGraph(sources, variants, g)
    requires Edge(SourceGraph(sources, variants), s, t) && s in variants && v in variants[s]
    ensures t in variants && u in variants[t] && Edge(g, v, u)
  {
    SourceEdge(sources, variants, s, t);
    var k :| (k in sources[s].needs || k in sources[s].required) && Known(variants, k) && t == SourceOf(variants, k);
    u := if k in variants then variants[k][0] else k;
    assert u in variants[t] && u in Matches(variants, k);
    assert IsVariant(variants, u);
    VariantEdge(sources, variants, g, s, v, u);
  }

  lemma MissingMeansUnsatisfied(sources: Sources, variants: Variants, g: Graph)
    requires WellShaped(sources, variants) && IsVariantGraph(sources, variants, g)
    ensures NoMissing(g) <==> Satisfied(sources, variants)
  {
    if NoMissing(g) {
      forall s, k | s in sources && ((k in sources[s].needs && k !in sources[s].optional) || k in sources[s].required)
        ensures Known(variants, k)
      {
        if k !in variants {
          var v := variants[s][0];
          assert IsVariant(variants, v) && k in Matches(variants, k);
          assert DependsOn(sources[s], variants, k);
          assert k in g[v];
        }
      }
    }
    if Satisfied(sources, variants) {
      forall v, x | v in g && x in g[v] ensures x in g {
        var s := OwnerOf(variants, v);
        assert DependsOn(sources[s], variants, x);
        KnownMatchIsVariant(sources, variants, s, x);
      }
    }
  }

  lemma KnownMatchIsVariant(sources: Sources, variants: Variants, s: Key, x: Key)
    requires WellShaped(sources, variants) && Satisfied(sources, variants) && s in sources &&
        DependsOn(sources[s], variants, x)
    ensures IsVariant(variants, x)
  {
    if Needed(sources[s], variants, x) {
      var k :| k in sources[s].needs && x in Matches(variants, k) &&
          (IsVariant(variants, x) || k !in sources[s].optional);
      assert IsVariant(variants, x) || Known(variants, k);
    } else {
      var k :| k in sources[s].required && x in Matches(variants, k);
      assert Known(variants, k);
    }
  }

  lemma OrderedVariants(sources: Sources, variants: Variants, jobs: map<Key, VariantJob>, g: Graph, r: OrderResult)
    requires WellShaped(sources, variants) && IsVariantGraph(sources, variants, g) && Explains(g, r) && r.Order?
    requires NormalFor(sources, variants, sources.Keys, jobs)
    ensures Distinct(r.order) && (forall v :: v in r.order <==> IsVariant(variants, v))
    ensures VariantsOrdered(sources, variants, r.order)
    ensures FlagsOnNeeds(variants, jobs, r.order)
  {
    hide Least;
    assert forall v :: v in r.order <==> v in Elements(r.order);
    forall s, k, v, u | s in sources && (k in sources[s].needs || k in sources[s].required) && Known(variants, k)
                        && v in variants[s] && u in Matches(variants, k)
      ensures Before(r.order, u, v)
    {
      VariantComesBefore(sources, variants, g, r.order, s, k, v, u);
    }
    forall s, v, x | s in variants && v in variants[s] && x in jobs[v].optional
      ensures x in jobs[v].needs && x in r.order {
      assert IsNormal(sources[s], variants, jobs[v]);
      assert IsVariant(variants, v);
      assert DependsOn(sources[s], variants, x);
      assert x in g[v];
    }
  }

  /** Every variant of a dependency precedes every variant of each dependant. */
  ghost predicate VariantsOrdered(sources: Sources, variants: Variants, order: seq<Key>)
    requires variants.Keys == sources.Keys
  {
    forall s, k, v, u ::
      s in sources && (k in sources[s].needs || k in sources[s].required) && Known(variants, k) &&
      v in variants[s] && u in Matches(variants, k)
      ==> Before(order, u, v)
  }

  /** Optional flags survive only on needs, all of which exist. */
  ghost predicate FlagsOnNeeds(variants: Variants, jobs: map<Key, VariantJob>, order: seq<Key>) {
    forall s, v, x :: s in variants && v in variants[s] && v in jobs && x in jobs[v].optional ==>
        x in jobs[v].needs && x in order
  }

  lemma VariantComesBefore(sources: Sources, variants: Variants, g: Graph, order: seq<Key>, s: Key, k: Key, v: Key,
      u: Key)
    requires WellShaped(sources, variants) && IsVariantGraph(sources, variants, g) && TopoOrder(g, order)
    requires s in sources && (k in sources[s].needs || k in sources[s].required) && Known(variants, k)
    requires v in variants[s] && u in Matches(variants, k)
    ensures Before(order, u, v)
  {
    assert IsVariant(variants, u) by {
      if k in variants {
        assert u in variants[k];
      }
    }
    VariantEdge(sources, variants, g, s, v, u);
    assert v in Elements(order);
    var j :| 0 <= j < |order| && order[j] == v;
    assert DependsOnlyOn(g, order[j], order[..j]);
    var i :| 0 <= i < j && order[i] == u;
  }
}
