// Inlining of local reusable workflows: every job that calls a workflow is replaced
// by the jobs of that workflow, itself expanded first, and dependencies are rewired.
module ReusableWorkflows {
  import opened Text
  import opened Graphs
  import opened TopologicalOrder

  const MAX_DEPTH: nat := 10
  const MAX_WORKFLOWS: nat := 50

  type Path = string

  /** accepted: the contract, inputs, secrets and templates of the call resolve. */
  datatype Call = NoCall | LocalCall(path: Path, accepted: bool)

  datatype Job = Job(needs: seq<Key>, required: seq<Key>, call: Call, matrix: bool)

  type Workflow = map<Key, Job>

  datatype Reason =
    | MatrixCall | TooDeep | Recursive | TooManyWorkflows | Unresolved | NoJobs | KeyConflict

  datatype Expansion = Expanded(jobs: Workflow, unique: set<Path>) | Rejected(job: Key, reason: Reason)

  // --------------------------------------------------------- one inlined call

  function Prefixed(caller: Key, key: Key): Key {
    caller + "/" + key
  }

  lemma PrefixedFacts(caller: Key, key: Key)
    ensures Less(caller, Prefixed(caller, key)) && caller != Prefixed(caller, key)
    ensures Trimmed(caller) && Trimmed(key) && caller != "" && key != "" ==> Trimmed(Prefixed(caller, key))
  {
    PrefixLess(caller, Prefixed(caller, key));
  }

  lemma PrefixedInjective(caller: Key)
    ensures forall a, b :: Prefixed(caller, a) == Prefixed(caller, b) ==> a == b
  {
    forall a, b | Prefixed(caller, a) == Prefixed(caller, b) ensures a == b {
      assert a == Prefixed(caller, a)[|caller| + 1..];
      assert b == Prefixed(caller, b)[|caller| + 1..];
    }
  }

  function Namespaced(caller: Key, called: Workflow, values: seq<Key>): seq<Key> {
    if values == [] then []
    else
      [if values[0] in called then Prefixed(caller, values[0]) else values[0]] + Namespaced(caller, called, values[1..])
  }

  predicate IsRoot(job: Job) {
    job.needs == [] && job.required == []
  }

  /** A job of the called workflow as it stands in the caller. */
  function ChildJob(key: Key, caller: Job, called: Workflow, child: Job): Job {
    var needs := SortedUnique(Namespaced(key, called, child.needs));
    var required := SortedUnique(Namespaced(key, called, child.required));
    if IsRoot(child) then child.(needs := needs + caller.needs, required := required + caller.required)
    else child.(needs := needs, required := required)
  }

  function Children(key: Key, caller: Job, called: Workflow): Workflow {
    PrefixedInjective(key);
    map k | k in called :: Prefixed(key, k) := ChildJob(key, caller, called, called[k])
  }

  lemma ChildrenAre(key: Key, caller: Job, called: Workflow)
    ensures forall k :: k in called ==>
              Prefixed(key, k) in Children(key, caller, called) &&
              Children(key, caller, called)[Prefixed(key, k)] == ChildJob(key, caller, called, called[k])
    ensures forall x :: x in Children(key, caller, called) ==> exists k :: k in called && x == Prefixed(key, k)
  {
    PrefixedInjective(key);
  }

  predicate Mentions(job: Job, k: Key) {
    k in job.needs || k in job.required
  }

  predicate Referenced(called: Workflow, k: Key) {
    exists j :: j in called && Mentions(called[j], k)
  }

  /** The called jobs no other called job depends on. */
  ghost function Terminals(key: Key, called: Workflow): seq<Key> {
    SortSet(set k | k in called && !Referenced(called, k) :: Prefixed(key, k))
  }

  /** The terminals, each once and in order, are the called jobs that no called job needs or
      requires, under the prefix of the caller. */
  lemma TerminalsAre(key: Key, called: Workflow, x: Key)
    ensures Ascending(Terminals(key, called))
    ensures x in Terminals(key, called) <==>
            exists k :: k in called && x == Prefixed(key, k)
                        && forall j :: j in called ==> k !in called[j].needs && k !in called[j].required
  {
    hide Prefixed, Ascending;
    assert x in Terminals(key, called) <==> x in Elements(Terminals(key, called));
    if k :| k in called && !Referenced(called, k) && x == Prefixed(key, k) {
      assert forall j :: j in called ==> !Mentions(called[j], k);
    }
  }

  // ------------------------------------------------------------- rewriting

  /** rewriteReusableDependencies: names of replaced callers give way to their terminals. */
  function Rewrite(values: seq<Key>, replacements: map<Key, seq<Key>>, seen: set<Key>): seq<Key>
    decreases replacements.Keys - seen, 1
  {
    SortedUnique(RewriteEach(values, replacements, seen))
  }

  function RewriteEach(values: seq<Key>, replacements: map<Key, seq<Key>>, seen: set<Key>): seq<Key>
    decreases replacements.Keys - seen, 0, values
  {
    if values == [] then []
    else
      var head :=
        if values[0] !in replacements then [values[0]]
        else if values[0] in seen then []
        else Rewrite(replacements[values[0]], replacements, seen + {values[0]});
      head + RewriteEach(values[1..], replacements, seen)
  }

  function RewriteJob(job: Job, replacements: map<Key, seq<Key>>): Job {
    job.(needs := Rewrite(job.needs, replacements, {}), required := Rewrite(job.required, replacements, {}))
  }

  function RewriteAll(jobs: Workflow, replacements: map<Key, seq<Key>>): Workflow {
    map k | k in jobs :: RewriteJob(jobs[k], replacements)
  }

  // ------------------------------------------------------------- expansion

  /** The caller's jobs so far. inlined and origin record, for the proofs, the expanded
      workflow behind every replaced caller and where every inlined job came from. */
  datatype Progress = Progress(
    jobs: Workflow, replacements: map<Key, seq<Key>>, unique: set<Path>,
    inlined: map<Key, Workflow>, origin: map<Key, (Key, Key)>)

  datatype Outcome = Going(progress: Progress) | Stopped(job: Key, reason: Reason)

  ghost function Expand(repo: map<Path, Workflow>, w: Workflow, depth: nat, stack: seq<Path>,
      unique: set<Path>): Expansion
    requires depth <= MAX_DEPTH
    decreases MAX_DEPTH - depth, 1, 0
  {
    match ExpandCallers(repo, SortSet(w.Keys), depth, stack, Progress(w, map[], unique, map[], map[]))
    case Stopped(job, reason) => Rejected(job, reason)
    case Going(p) => Expanded(RewriteAll(p.jobs, p.replacements), p.unique)
  }

  ghost function ExpandCallers(repo: map<Path, Workflow>, keys: seq<Key>, depth: nat, stack: seq<Path>,
      p: Progress): Outcome
    requires depth <= MAX_DEPTH
    decreases MAX_DEPTH - depth, 0, |keys|
  {
    if keys == [] then Going(p)
    else
      match ExpandCaller(repo, keys[0], depth, stack, p)
      case Stopped(job, reason) => Stopped(job, reason)
      case Going(q) => ExpandCallers(repo, keys[1..], depth, stack, q)
  }

  ghost function ExpandCaller(repo: map<Path, Workflow>, key: Key, depth: nat, stack: seq<Path>, p: Progress): Outcome
    requires depth <= MAX_DEPTH
    decreases MAX_DEPTH - depth, 0, 0
  {
    if key !in p.jobs || p.jobs[key].call.NoCall? then Going(p)
    else
      var caller := p.jobs[key];
      var path := caller.call.path;
      if caller.matrix then Stopped(key, MatrixCall)
      else if depth >= MAX_DEPTH then Stopped(key, TooDeep)
      else if path !in repo then Stopped(key, Unresolved)
      else if path in stack then Stopped(key, Recursive)
      else if |p.unique + {path}| > MAX_WORKFLOWS then Stopped(key, TooManyWorkflows)
      else if !caller.call.accepted then Stopped(key, Unresolved)
      else
        match Expand(repo, repo[path], depth + 1, stack + [path], p.unique + {path})
        case Rejected(_, reason) => Stopped(key, reason)
        case Expanded(called, unique) =>
          if called == map[] then Stopped(key, NoJobs)
          else Inline(key, caller, called, p.(unique := unique))
  }

  /** Replacing one caller by the expanded jobs of the workflow it calls. */
  ghost function Inline(key: Key, caller: Job, called: Workflow, p: Progress): Outcome {
    var children := Children(key, caller, called);
    var jobs := p.jobs - {key};
    if children.Keys * jobs.Keys != {} then Stopped(key, KeyConflict)
    else
      PrefixedInjective(key);
      Going(Progress(jobs + children, p.replacements[key := Terminals(key, called)], p.unique,
                     p.inlined[key := called], p.origin + map k | k in called :: Prefixed(key, k) := (key, k)))
  }

  // ---------------------------------------------------------------- soundness

  ghost function Deps(job: Job): set<Key> {
    set d | d in job.needs + job.required
  }

  ghost function GraphOf(w: Workflow): Graph {
    map k | k in w :: w[k].needs + w[k].required
  }

  ghost predicate Name(k: Key) {
    k != "" && Trimmed(k)
  }

  ghost predicate Named(w: Workflow) {
    (forall k :: k in w ==> Name(k)) && (forall k, d :: k in w && d in Deps(w[k]) ==> Name(d))
  }

  ghost predicate Resolved(w: Workflow) {
    forall k, d :: k in w && d in Deps(w[k]) ==> d in w
  }

  /** Proper names, every dependency known, no cycle. */
  ghost predicate Sound(w: Workflow) {
    Named(w) && Resolved(w) && Acyclic(GraphOf(w))
  }

  lemma GraphEdge(w: Workflow, a: Key, b: Key)
    ensures Edge(GraphOf(w), a, b) <==> a in w && b in w && b in Deps(w[a])
  {
  }

  // ------------------------------------------------- what rewriting contains

  ghost predicate Replaces(replacements: map<Key, seq<Key>>, v: Key, x: Key) {
    if v in replacements then x in replacements[v] else x == v
  }

  /** Replacements are proper names and are not themselves replaced. */
  ghost predicate Final(replacements: map<Key, seq<Key>>) {
    forall c, t :: c in replacements && t in replacements[c] ==> Name(t) && t !in replacements
  }

  lemma {:induction false} RewriteNothing(values: seq<Key>, replacements: map<Key, seq<Key>>, seen: set<Key>)
    requires forall v :: v in values ==> v !in replacements
    ensures RewriteEach(values, replacements, seen) == values
  {
    if values != [] {
      RewriteNothing(values[1..], replacements, seen);
      assert values == [values[0]] + values[1..];
    }
  }

  lemma SortedUniqueOfNames(values: seq<Key>, x: Key)
    requires forall v :: v in values ==> Name(v)
    ensures x in SortedUnique(values) <==> x in values
  {
    SortedUniqueContains(values, x);
  }

  lemma {:induction false} RewriteEachContains(values: seq<Key>, replacements: map<Key, seq<Key>>, x: Key)
    requires Final(replacements) && forall v :: v in values ==> Name(v)
    ensures x in RewriteEach(values, replacements, {}) <==> exists v :: v in values && Replaces(replacements, v, x)
    ensures x in RewriteEach(values, replacements, {}) ==> Name(x)
  {
    if values != [] {
      var v := values[0];
      assert v in values;
      RewriteEachContains(values[1..], replacements, x);
      assert forall u :: u in values <==> u == v || u in values[1..];
      if v in replacements {
        RewriteNothing(replacements[v], replacements, {v});
        SortedUniqueOfNames(replacements[v], x);
        assert {} + {v} == {v};
      }
    }
  }

  lemma RewriteContains(values: seq<Key>, replacements: map<Key, seq<Key>>, x: Key)
    requires Final(replacements) && forall v :: v in values ==> Name(v)
    ensures x in Rewrite(values, replacements, {}) <==> exists v :: v in values && Replaces(replacements, v, x)
  {
    forall y | y in RewriteEach(values, replacements, {}) ensures Name(y) {
      RewriteEachContains(values, replacements, y);
    }
    RewriteEachContains(values, replacements, x);
    SortedUniqueOfNames(RewriteEach(values, replacements, {}), x);
  }

  lemma RewriteJobContains(job: Job, replacements: map<Key, seq<Key>>, x: Key)
    requires Final(replacements) && forall d :: d in Deps(job) ==> Name(d)
    ensures x in Deps(RewriteJob(job, replacements)) <==> exists v :: v in Deps(job) && Replaces(replacements, v, x)
  {
    RewriteContains(job.needs, replacements, x);
    RewriteContains(job.required, replacements, x);
  }

  // ---------------------------------------------- what an inlined job depends on

  /** The name a dependency of a called job goes by in the caller. */
  function Moved(key: Key, called: Workflow, v: Key): Key {
    if v in called then Prefixed(key, v) else v
  }

  lemma {:induction false} NamespacedContains(key: Key, called: Workflow, values: seq<Key>, x: Key)
    ensures x in Namespaced(key, called, values) <==> exists v :: v in values && x == Moved(key, called, v)
  {
    if values != [] {
      assert values[0] in values;
      NamespacedContains(key, called, values[1..], x);
      assert forall u :: u in values <==> u == values[0] || u in values[1..];
    }
  }

  lemma NamespacedSorted(key: Key, called: Workflow, values: seq<Key>, x: Key)
    requires Name(key) && forall v :: v in values ==> v in called && Name(v)
    ensures x in SortedUnique(Namespaced(key, called, values)) <==> exists v :: v in values && x == Prefixed(key, v)
  {
    forall y | y in Namespaced(key, called, values) ensures Name(y) {
      NamespacedContains(key, called, values, y);
      var v :| v in values && y == Moved(key, called, v);
      PrefixedFacts(key, v);
    }
    NamespacedContains(key, called, values, x);
    SortedUniqueOfNames(Namespaced(key, called, values), x);
    assert forall v :: v in values ==> Moved(key, called, v) == Prefixed(key, v);
  }

  /** A root child inherits the dependencies of its caller, any other child keeps its own,
      moved into the namespace of the caller. */
  lemma ChildDeps(key: Key, caller: Job, called: Workflow, k: Key, x: Key)
    requires Name(key) && Named(called) && Resolved(called) && k in called
    ensures x in Deps(ChildJob(key, caller, called, called[k])) <==>
            if IsRoot(called[k]) then x in Deps(caller)
            else exists d :: d in Deps(called[k]) && x == Prefixed(key, d)
  {
    var child := called[k];
    forall v | v in child.needs || v in child.required ensures v in called && Name(v) {
      assert v in Deps(child);
    }
    NamespacedSorted(key, called, child.needs, x);
    NamespacedSorted(key, called, child.required, x);
    if !IsRoot(child) {
      if d :| d in Deps(child) && x == Prefixed(key, d) {
        assert d in child.needs || d in child.required;
      }
    }
  }

  // --------------------------------------------------- the inlining invariant

  /** What the jobs are while callers are being replaced. */
  ghost predicate Inlining(w: Workflow, p: Progress) {
    && p.replacements.Keys == p.inlined.Keys <= w.Keys
    && (forall x :: x in p.jobs <==> (x in w && x !in p.inlined) || x in p.origin)
    && (forall x :: x in w && x !in p.inlined ==> p.jobs[x] == w[x])
    && (forall x {:trigger FromChild(w, p, x)} :: x in p.origin ==> FromChild(w, p, x))
    && (forall c {:trigger ReplacedBy(p, c)} :: c in p.inlined ==> ReplacedBy(p, c))
  }

  /** An inlined job is a called job under a fresh name. */
  ghost predicate FromChild(w: Workflow, p: Progress, x: Key)
    requires x in p.origin && p.inlined.Keys <= w.Keys
  {
    var (c, k) := p.origin[x];
    && c in p.inlined && k in p.inlined[c] && x == Prefixed(c, k) && x !in w
    && x in p.jobs && p.jobs[x] == ChildJob(c, w[c], p.inlined[c], p.inlined[c][k])
  }

  ghost predicate ReplacedBy(p: Progress, c: Key)
    requires c in p.inlined && p.replacements.Keys == p.inlined.Keys
  {
    && Sound(p.inlined[c]) && p.inlined[c] != map[] && p.replacements[c] == Terminals(c, p.inlined[c])
    && forall k :: k in p.inlined[c] ==> Prefixed(c, k) in p.origin && p.origin[Prefixed(c, k)] == (c, k)
  }

  lemma InliningOf(w: Workflow, q: Progress)
    requires q.replacements.Keys == q.inlined.Keys <= w.Keys
    requires forall x :: x in q.jobs <==> (x in w && x !in q.inlined) || x in q.origin
    requires forall x :: x in w && x !in q.inlined ==> q.jobs[x] == w[x]
    requires forall x {:trigger FromChild(w, q, x)} :: x in q.origin ==> FromChild(w, q, x)
    requires forall c {:trigger ReplacedBy(q, c)} :: c in q.inlined ==> ReplacedBy(q, c)
    ensures Inlining(w, q)
  {
    hide FromChild, ReplacedBy;
  }

  lemma InlineKeepsInlining(w: Workflow, key: Key, called: Workflow, p: Progress)
    requires Inlining(w, p) && key in w && key !in p.inlined && Sound(called) && called != map[]
    requires forall c :: c in p.inlined ==> Less(c, key)
    requires Inline(key, w[key], called, p).Going?
    ensures var q := Inline(key, w[key], called, p).progress;
            Inlining(w, q) && q.inlined.Keys == p.inlined.Keys + {key}
  {
    hide Inlining, Sound, Less, Children, ChildJob, Terminals, Prefixed, Inline, FromChild, ReplacedBy;
    var q := Inline(key, w[key], called, p).progress;
    FreshChildren(w, key, called, p);
    InlinedKeys(w, key, called, p, q);
    forall x | x in q.origin ensures FromChild(w, q, x) {
      ChildKept(w, key, called, p, q, x);
    }
    forall c | c in q.inlined ensures ReplacedBy(q, c) {
      ReplacementKept(w, key, called, p, q, c);
    }
    InliningOf(w, q);
  }

  lemma ChildKept(w: Workflow, key: Key, called: Workflow, p: Progress, q: Progress, x: Key)
    requires Inlining(w, p) && key in w && key !in p.inlined && Inline(key, w[key], called, p) == Going(q)
    requires forall k :: k in called ==> Prefixed(key, k) !in w
    requires forall y :: y in p.origin ==>
        y in q.origin && y in q.jobs && q.origin[y] == p.origin[y] && q.jobs[y] == p.jobs[y]
    requires forall k :: k in called ==>
        Prefixed(key, k) in q.jobs && q.jobs[Prefixed(key, k)] == ChildJob(key, w[key], called, called[k])
    requires x in q.origin && x in q.jobs
    ensures FromChild(w, q, x)
  {
    hide Sound, Less, Children, ChildJob, Terminals;
    PrefixedInjective(key);
    if x in p.origin {
      assert FromChild(w, p, x);
    }
  }

  lemma SameReplacement(p: Progress, q: Progress, c: Key)
    requires p.replacements.Keys == p.inlined.Keys && q.replacements.Keys == q.inlined.Keys
    requires c in p.inlined && c in q.inlined && ReplacedBy(p, c)
    requires q.inlined[c] == p.inlined[c] && q.replacements[c] == p.replacements[c]
    requires forall y :: y in p.origin ==> y in q.origin && q.origin[y] == p.origin[y]
    ensures ReplacedBy(q, c)
  {
    hide Sound, Terminals, Prefixed;
  }

  lemma NewReplacement(key: Key, caller: Job, called: Workflow, p: Progress, q: Progress)
    requires Inline(key, caller, called, p) == Going(q) && Sound(called) && called != map[]
    requires q.replacements.Keys == q.inlined.Keys
    ensures key in q.inlined && ReplacedBy(q, key)
  {
    hide Sound, Children, Terminals, Prefixed;
    PrefixedInjective(key);
  }

  lemma ReplacementKept(w: Workflow, key: Key, called: Workflow, p: Progress, q: Progress, c: Key)
    requires Inlining(w, p) && key in w && key !in p.inlined && Inline(key, w[key], called, p) == Going(q)
    requires Sound(called) && called != map[]
    requires forall y :: y in p.origin ==> y in q.origin && q.origin[y] == p.origin[y]
    requires c in q.inlined
    ensures ReplacedBy(q, c)
  {
    hide Sound, Children, Terminals, FromChild, Prefixed, ReplacedBy;
    PrefixedInjective(key);
    if c != key {
      assert ReplacedBy(p, c);
      SameReplacement(p, q, c);
    } else {
      NewReplacement(key, w[key], called, p, q);
    }
  }

  /** The conflict check and the sorted order of the callers make the new names fresh. */
  lemma FreshChildren(w: Workflow, key: Key, called: Workflow, p: Progress)
    requires Inlining(w, p) && key in w && key !in p.inlined
    requires forall c :: c in p.inlined ==> Less(c, key)
    requires Inline(key, w[key], called, p).Going?
    ensures forall k :: k in called ==>
        Prefixed(key, k) !in w && Prefixed(key, k) !in p.origin && Prefixed(key, k) !in p.jobs
  {
    hide Inlining, Inline, ChildJob, Children, Less, Prefixed;
    ChildrenAre(key, w[key], called);
    forall k | k in called
      ensures Prefixed(key, k) !in w && Prefixed(key, k) !in p.origin && Prefixed(key, k) !in p.jobs {
      var x := Prefixed(key, k);
      PrefixedFacts(key, k);
      ChildIsNoJob(key, w[key], called, p, x);
      JobsAre(w, p, x);
      if x in p.inlined {
        LessAsymmetric(key, x);
      }
    }
  }

  lemma ChildIsNoJob(key: Key, caller: Job, called: Workflow, p: Progress, x: Key)
    requires Inline(key, caller, called, p).Going? && x in Children(key, caller, called) && x != key
    ensures x !in p.jobs
  {
    hide Children;
    assert x in p.jobs ==> x in (p.jobs - {key}).Keys;
  }

  lemma JobsAre(w: Workflow, p: Progress, x: Key)
    requires Inlining(w, p)
    ensures x in p.jobs <==> (x in w && x !in p.inlined) || x in p.origin
  {
    hide FromChild, ReplacedBy;
  }

  lemma InlinedKeys(w: Workflow, key: Key, called: Workflow, p: Progress, q: Progress)
    requires Inlining(w, p) && key in w && key !in p.inlined
    requires Inline(key, w[key], called, p) == Going(q)
    requires forall k :: k in called ==>
        Prefixed(key, k) !in w && Prefixed(key, k) !in p.origin && Prefixed(key, k) !in p.jobs
    ensures q.inlined == p.inlined[key := called] && q.inlined.Keys == p.inlined.Keys + {key}
    ensures q.replacements.Keys == q.inlined.Keys <= w.Keys
    ensures forall x :: x in q.jobs <==> (x in w && x !in q.inlined) || x in q.origin
    ensures forall x :: x in w && x !in q.inlined ==> q.jobs[x] == w[x]
    ensures forall x :: x in p.origin ==>
        x in q.origin && x in q.jobs && q.origin[x] == p.origin[x] && q.jobs[x] == p.jobs[x]
    ensures forall k :: k in called ==>
        Prefixed(key, k) in q.jobs && q.jobs[Prefixed(key, k)] == ChildJob(key, w[key], called, called[k])
  {
    hide ChildJob, Terminals, Less, Children, Prefixed, FromChild, ReplacedBy;
    OriginIsFresh(w, p);
    PrefixedInjective(key);
    ChildrenAre(key, w[key], called);
  }

  /** A file expanded as a call at this depth and from this chain of files expands it, after
      some set of files read. */
  ghost predicate ExpandsTo(repo: map<Path, Workflow>, path: Path, depth: nat, stack: seq<Path>, called: Workflow)
    requires depth < MAX_DEPTH && path in repo
  {
    exists unique :: ExpandsAfter(repo, path, depth, stack, unique, called)
  }

  ghost predicate ExpandsAfter(repo: map<Path, Workflow>, path: Path, depth: nat, stack: seq<Path>, unique: set<Path>,
                               called: Workflow)
    requires depth < MAX_DEPTH && path in repo
  {
    var r := Expand(repo, repo[path], depth + 1, stack + [path], unique);
    r.Expanded? && r.jobs == called
  }

  /** called is the expansion of the file that job c calls. */
  ghost predicate CalledBy(repo: map<Path, Workflow>, w: Workflow, depth: nat, stack: seq<Path>, c: Key,
      called: Workflow) {
    && c in w && w[c].call.LocalCall? && w[c].call.path in repo && depth < MAX_DEPTH
    && ExpandsTo(repo, w[c].call.path, depth, stack, called)
  }

  /** Behind every replaced caller stands the expansion of the file it calls. */
  ghost predicate Genuine(repo: map<Path, Workflow>, w: Workflow, depth: nat, stack: seq<Path>,
      inlined: map<Key, Workflow>) {
    forall c :: c in inlined ==> CalledBy(repo, w, depth, stack, c, inlined[c])
  }

  ghost predicate SoundRepository(repo: map<Path, Workflow>) {
    forall path :: path in repo ==> Sound(repo[path])
  }

  ghost predicate Ahead(p: Progress, keys: seq<Key>) {
    forall c, key :: c in p.inlined && key in keys ==> Less(c, key)
  }

  lemma FirstAhead(p: Progress, keys: seq<Key>)
    requires Ahead(p, keys) && keys != []
    ensures keys[0] in keys && keys[0] !in p.inlined && forall c :: c in p.inlined ==> Less(c, keys[0])
  {
    LessIrreflexive(keys[0]);
  }

  lemma AheadNext(p: Progress, q: Progress, keys: seq<Key>)
    requires Ahead(p, keys) && keys != [] && Ascending(keys) && q.inlined.Keys <= p.inlined.Keys + {keys[0]}
    ensures Ahead(q, keys[1..]) && Ascending(keys[1..])
  {
    AscendingTail(keys);
    AscendingIs(keys);
    assert forall k :: k in keys[1..] ==> k in keys;
  }

  lemma {:induction false} ExpandCallersInlines(repo: map<Path, Workflow>, w: Workflow, keys: seq<Key>, depth: nat,
      stack: seq<Path>, p: Progress)
    requires depth <= MAX_DEPTH && SoundRepository(repo) && Named(w)
    requires Inlining(w, p) && Ascending(keys) && Ahead(p, keys) && forall k :: k in keys ==> k in w
    requires Genuine(repo, w, depth, stack, p.inlined)
    ensures var r := ExpandCallers(repo, keys, depth, stack, p);
            r.Going? ==>
              && Inlining(w, r.progress) && Genuine(repo, w, depth, stack, r.progress.inlined) &&
                  p.inlined.Keys <= r.progress.inlined.Keys
              && forall k :: k in keys && w[k].call.LocalCall? ==> k in r.progress.inlined
    decreases MAX_DEPTH - depth, 0, |keys|
  {
    hide Inlining, Sound, Named, SoundRepository, ExpandCaller, Less, Ascending, Ahead, Genuine;
    if keys != [] {
      var key := keys[0];
      FirstAhead(p, keys);
      var step := ExpandCaller(repo, key, depth, stack, p);
      ExpandCallerInlines(repo, w, key, depth, stack, p);
      if step.Going? {
        assert forall k :: k in keys <==> k == key || k in keys[1..];
        AheadNext(p, step.progress, keys);
        ExpandCallersInlines(repo, w, keys[1..], depth, stack, step.progress);
      }
    }
  }

  lemma PlainJob(w: Workflow, p: Progress, key: Key)
    requires Inlining(w, p) && key in w && key !in p.inlined
    ensures key in p.jobs && p.jobs[key] == w[key]
  {
  }

  lemma UniqueIsIrrelevant(w: Workflow, p: Progress, unique: set<Path>)
    requires Inlining(w, p)
    ensures Inlining(w, p.(unique := unique))
  {
    hide Sound, ChildJob, Terminals, Prefixed;
    var q := p.(unique := unique);
    forall x | x in q.origin ensures FromChild(w, q, x) {
      assert FromChild(w, p, x);
    }
    forall c | c in q.inlined ensures ReplacedBy(q, c) {
      assert ReplacedBy(p, c);
    }
  }

  lemma RepositoryFile(repo: map<Path, Workflow>, path: Path)
    requires SoundRepository(repo) && path in repo
    ensures Sound(repo[path])
  {
  }

  lemma {:induction false} ExpandCallerInlines(repo: map<Path, Workflow>, w: Workflow, key: Key, depth: nat,
      stack: seq<Path>, p: Progress)
    requires depth <= MAX_DEPTH && SoundRepository(repo) && Named(w)
    requires Inlining(w, p) && key in w && key !in p.inlined && forall c :: c in p.inlined ==> Less(c, key)
    requires Genuine(repo, w, depth, stack, p.inlined)
    ensures var r := ExpandCaller(repo, key, depth, stack, p);
            r.Going? ==>
              && Inlining(w, r.progress) && Genuine(repo, w, depth, stack, r.progress.inlined) &&
                  p.inlined.Keys <= r.progress.inlined.Keys <= p.inlined.Keys + {key}
              && (w[key].call.LocalCall? ==> key in r.progress.inlined)
    decreases MAX_DEPTH - depth, 0, 0
  {
    hide Inlining, Sound, Named, SoundRepository, Inline, Less, Expand, ExpandCallers, Genuine, CalledBy, ExpandsTo;
    var caller := w[key];
    PlainJob(w, p, key);
    if caller.call.LocalCall? && ExpandCaller(repo, key, depth, stack, p).Going? {
      var path := caller.call.path;
      RepositoryFile(repo, path);
      ExpandIsSound(repo, repo[path], depth + 1, stack + [path], p.unique + {path});
      var inner := Expand(repo, repo[path], depth + 1, stack + [path], p.unique + {path});
      UniqueIsIrrelevant(w, p, inner.unique);
      InlineKeepsInlining(w, key, inner.jobs, p.(unique := inner.unique));
      CallIsGenuine(repo, w, depth, stack, key, p.unique + {path}, inner.jobs);
      InlineKeepsGenuine(repo, w, depth, stack, key, inner.jobs, p.(unique := inner.unique));
    }
  }

  lemma CallIsGenuine(repo: map<Path, Workflow>, w: Workflow, depth: nat, stack: seq<Path>, key: Key, unique: set<Path>,
                      called: Workflow)
    requires key in w && w[key].call.LocalCall? && w[key].call.path in repo && depth < MAX_DEPTH
    requires ExpandsAfter(repo, w[key].call.path, depth, stack, unique, called)
    ensures CalledBy(repo, w, depth, stack, key, called)
  {
    hide ExpandsAfter;
  }

  lemma InlineKeepsGenuine(repo: map<Path, Workflow>, w: Workflow, depth: nat, stack: seq<Path>, key: Key,
      called: Workflow,
                           p: Progress)
    requires Genuine(repo, w, depth, stack, p.inlined) && CalledBy(repo, w, depth, stack, key, called)
    requires key in w && Inline(key, w[key], called, p).Going?
    ensures Genuine(repo, w, depth, stack, Inline(key, w[key], called, p).progress.inlined)
  {
    hide CalledBy, Children, Terminals;
  }

  /** jobs is w with every local call replaced by the expansion of the file it calls, and the
      dependencies rewritten. */
  ghost predicate ExpandsBy(repo: map<Path, Workflow>, w: Workflow, depth: nat, stack: seq<Path>, p: Progress,
      jobs: Workflow) {
    && Inlining(w, p) && CallsInlined(w, p) && Genuine(repo, w, depth, stack, p.inlined)
    && jobs == RewriteAll(p.jobs, p.replacements)
  }

  /** Expansion of sound workflows is sound, and is the rewriting of an inlining in which
      every local call was replaced by the expansion of the file it names. */
  lemma {:induction false} ExpandIsSound(repo: map<Path, Workflow>, w: Workflow, depth: nat, stack: seq<Path>,
      unique: set<Path>)
    requires depth <= MAX_DEPTH && SoundRepository(repo) && Sound(w)
    ensures var r := Expand(repo, w, depth, stack, unique);
            r.Expanded? ==>
              && Sound(r.jobs)
              && exists p :: ExpandsBy(repo, w, depth, stack, p, r.jobs)
    decreases MAX_DEPTH - depth, 1, 0
  {
    var start := Progress(w, map[], unique, map[], map[]);
    var keys := SortSet(w.Keys);
    assert forall k :: k in keys <==> k in Elements(keys);
    ExpandCallersInlines(repo, w, keys, depth, stack, start);
    var r := ExpandCallers(repo, keys, depth, stack, start);
    if r.Going? {
      InlinedIsSound(w, r.progress);
      assert ExpandsBy(repo, w, depth, stack, r.progress, RewriteAll(r.progress.jobs, r.progress.replacements));
    }
  }

  ghost predicate CallsInlined(w: Workflow, p: Progress) {
    forall k :: k in w && w[k].call.LocalCall? ==> k in p.inlined
  }

  // ------------------------------------------------------- one expansion each

  ghost predicate SameButUnique(a: Outcome, b: Outcome) {
    a.Going? && b.Going? ==> b.progress == a.progress.(unique := b.progress.unique)
  }

  /** What a workflow expands to depends on the files alone: not on the depth, the chain of
      callers or the files read before, as long as it expands. */
  lemma {:induction false} ExpansionIsOne(repo: map<Path, Workflow>, w: Workflow, depth: nat, stack: seq<Path>,
      unique: set<Path>,
                                          depth': nat, stack': seq<Path>, unique': set<Path>)
    requires depth <= MAX_DEPTH && depth' <= MAX_DEPTH
    ensures var r, r' := Expand(repo, w, depth, stack, unique), Expand(repo, w, depth', stack', unique');
            r.Expanded? && r'.Expanded? ==> r.jobs == r'.jobs
    decreases MAX_DEPTH - depth, 1, 0
  {
    hide ExpandCallers, RewriteAll;
    var p := Progress(w, map[], unique, map[], map[]);
    CallersAreOne(repo, SortSet(w.Keys), depth, stack, p, depth', stack', unique');
  }

  lemma {:induction false} CallersAreOne(repo: map<Path, Workflow>, keys: seq<Key>, depth: nat, stack: seq<Path>,
      p: Progress,
                                         depth': nat, stack': seq<Path>, unique': set<Path>)
    requires depth <= MAX_DEPTH && depth' <= MAX_DEPTH
    ensures SameButUnique(ExpandCallers(repo, keys, depth, stack, p),
                          ExpandCallers(repo, keys, depth', stack', p.(unique := unique')))
    decreases MAX_DEPTH - depth, 0, |keys|
  {
    hide ExpandCaller;
    if keys != [] {
      CallerIsOne(repo, keys[0], depth, stack, p, depth', stack', unique');
      var a := ExpandCaller(repo, keys[0], depth, stack, p);
      var b := ExpandCaller(repo, keys[0], depth', stack', p.(unique := unique'));
      if a.Going? && b.Going? {
        CallersAreOne(repo, keys[1..], depth, stack, a.progress, depth', stack', b.progress.unique);
      }
    }
  }

  lemma {:induction false} CallerIsOne(repo: map<Path, Workflow>, key: Key, depth: nat, stack: seq<Path>, p: Progress,
                                       depth': nat, stack': seq<Path>, unique': set<Path>)
    requires depth <= MAX_DEPTH && depth' <= MAX_DEPTH
    ensures SameButUnique(ExpandCaller(repo, key, depth, stack, p),
                          ExpandCaller(repo, key, depth', stack', p.(unique := unique')))
    decreases MAX_DEPTH - depth, 0, 0
  {
    hide Expand, Inline;
    var a := ExpandCaller(repo, key, depth, stack, p);
    var b := ExpandCaller(repo, key, depth', stack', p.(unique := unique'));
    if a.Going? && b.Going? && key in p.jobs && p.jobs[key].call.LocalCall? {
      var path := p.jobs[key].call.path;
      ExpansionIsOne(repo, repo[path], depth + 1, stack + [path], p.unique + {path},
                     depth' + 1, stack' + [path], unique' + {path});
      InlineIsOne(key, p.jobs[key], Expand(repo, repo[path], depth + 1, stack + [path], p.unique + {path}).jobs, p);
    }
  }

  lemma InlineIsOne(key: Key, caller: Job, called: Workflow, p: Progress)
    ensures forall u, v ::
        SameButUnique(Inline(key, caller, called, p.(unique := u)), Inline(key, caller, called, p.(unique := v)))
  {
    hide Children, Terminals;
  }

  // ------------------------------------------------ the graph after rewriting

  lemma TerminalIs(c: Key, called: Workflow, t: Key)
    ensures t in Terminals(c, called) <==> exists k :: k in called && !Referenced(called, k) && t == Prefixed(c, k)
  {
    assert t in Terminals(c, called) <==> t in Elements(Terminals(c, called));
  }

  lemma ReplacementsAreFinal(w: Workflow, p: Progress)
    requires Named(w) && Inlining(w, p)
    ensures Final(p.replacements)
  {
    hide Terminals;
    forall c, t | c in p.replacements && t in p.replacements[c] ensures Name(t) && t !in p.replacements {
      assert ReplacedBy(p, c);
      TerminalIs(c, p.inlined[c], t);
      var k :| k in p.inlined[c] && t == Prefixed(c, k);
      PrefixedFacts(c, k);
      assert FromChild(w, p, t);
    }
  }

  /** Names of dependencies at the caller's level that an expanded job takes over. */
  ghost function Upstream(w: Workflow, p: Progress, x: Key): set<Key>
    requires Inlining(w, p) && x in p.jobs
  {
    if x in p.origin then
      assert FromChild(w, p, x);
      var (c, k) := p.origin[x];
      if IsRoot(p.inlined[c][k]) then Deps(w[c]) else {}
    else Deps(w[x])
  }

  /** Names of siblings an expanded job depends on. */
  ghost function Siblings(w: Workflow, p: Progress, x: Key): set<Key>
    requires Inlining(w, p) && x in p.jobs
  {
    if x in p.origin then
      assert FromChild(w, p, x);
      var (c, k) := p.origin[x];
      set d | d in Deps(p.inlined[c][k]) :: Prefixed(c, d)
    else {}
  }

  /** The dependencies of an expanded job: its siblings, and whatever replaces each
      dependency it takes over from the caller's level. */
  lemma ExpandedDeps(w: Workflow, p: Progress, x: Key, y: Key)
    requires Named(w) && Inlining(w, p) && x in p.jobs
    ensures y in Deps(RewriteAll(p.jobs, p.replacements)[x]) <==>
            y in Siblings(w, p, x) || exists v :: v in Upstream(w, p, x) && Replaces(p.replacements, v, y)
  {
    hide Named, Inlining, ChildJob, RewriteJob;
    ReplacementsAreFinal(w, p);
    RawDeps(w, p, x);
    RewriteJobContains(p.jobs[x], p.replacements, y);
    SiblingsStay(w, p, x);
  }

  lemma RawDeps(w: Workflow, p: Progress, x: Key)
    requires Named(w) && Inlining(w, p) && x in p.jobs
    ensures Deps(p.jobs[x]) == Siblings(w, p, x) + Upstream(w, p, x)
    ensures forall d :: d in Deps(p.jobs[x]) ==> Name(d)
  {
    hide ChildJob;
    if x in p.origin {
      assert FromChild(w, p, x);
      var (c, k) := p.origin[x];
      var called := p.inlined[c];
      assert ReplacedBy(p, c);
      forall y ensures y in Deps(p.jobs[x]) <==> y in Siblings(w, p, x) + Upstream(w, p, x) {
        ChildDeps(c, w[c], called, k, y);
      }
      forall d | d in Deps(called[k]) ensures Name(Prefixed(c, d)) {
        PrefixedFacts(c, d);
      }
    } else {
      assert p.jobs[x] == w[x];
    }
  }

  lemma SiblingsStay(w: Workflow, p: Progress, x: Key)
    requires Inlining(w, p) && x in p.jobs
    ensures forall y :: y in Siblings(w, p, x) ==> y in p.origin && y !in p.replacements && y in p.jobs
  {
    if x in p.origin {
      assert FromChild(w, p, x);
      var (c, k) := p.origin[x];
      assert ReplacedBy(p, c);
      forall d | d in Deps(p.inlined[c][k])
        ensures Prefixed(c, d) in p.origin && Prefixed(c, d) !in w && Prefixed(c, d) in p.jobs {
        assert d in p.inlined[c];
        assert FromChild(w, p, Prefixed(c, d));
      }
    }
  }

  /** The job of the caller workflow that x is, or was inlined for. */
  ghost function Owner(p: Progress, x: Key): Key {
    if x in p.origin then p.origin[x].0 else x
  }

  ghost predicate StandsFor(p: Progress, x: Key, a: Key) {
    x in p.jobs && Owner(p, x) == a
  }

  lemma OwnerIsKnown(w: Workflow, p: Progress, x: Key)
    requires Inlining(w, p) && x in p.jobs
    ensures Owner(p, x) in w && Upstream(w, p, x) <= Deps(w[Owner(p, x)])
    ensures x in p.origin <==> Owner(p, x) in p.inlined
  {
    if x in p.origin {
      assert FromChild(w, p, x);
    }
  }

  /** What replaces a name of the caller workflow stands for it. */
  lemma ReplacementStands(w: Workflow, p: Progress, v: Key, y: Key)
    requires Inlining(w, p) && v in w && Replaces(p.replacements, v, y)
    ensures StandsFor(p, y, v)
  {
    if v in p.replacements {
      assert ReplacedBy(p, v);
      TerminalIs(v, p.inlined[v], y);
      assert FromChild(w, p, y);
    } else {
      OriginIsFresh(w, p);
    }
  }

  lemma OriginIsFresh(w: Workflow, p: Progress)
    requires Inlining(w, p)
    ensures forall x :: x in p.origin ==> x !in w
  {
    forall x | x in p.origin ensures x !in w {
      assert FromChild(w, p, x);
    }
  }

  lemma ExpandedIsNamed(w: Workflow, p: Progress)
    requires Sound(w) && Inlining(w, p)
    ensures Named(RewriteAll(p.jobs, p.replacements)) && Resolved(RewriteAll(p.jobs, p.replacements))
  {
    hide Inlining, Acyclic, RewriteJob, Replaces;
    var r := RewriteAll(p.jobs, p.replacements);
    forall x | x in r ensures Name(x) {
      KeyIsName(w, p, x);
    }
    forall x, y | x in r && y in Deps(r[x]) ensures Name(y) && y in r {
      ExpandedDeps(w, p, x, y);
      if y in Siblings(w, p, x) {
        SiblingsStay(w, p, x);
      } else {
        var v :| v in Upstream(w, p, x) && Replaces(p.replacements, v, y);
        OwnerIsKnown(w, p, x);
        ReplacementStands(w, p, v, y);
      }
      KeyIsName(w, p, y);
    }
  }

  lemma KeyIsName(w: Workflow, p: Progress, x: Key)
    requires Sound(w) && Inlining(w, p) && x in p.jobs
    ensures Name(x)
  {
    if x in p.origin {
      assert FromChild(w, p, x);
      var (c, k) := p.origin[x];
      assert ReplacedBy(p, c);
      PrefixedFacts(c, k);
    }
  }

  // ---------------------------------------------------------------- no cycle

  /** Jobs inlined for one caller are ranked by their level inside the called workflow. */
  ghost function InnerLevel(p: Progress, x: Key): nat
    requires p.replacements.Keys == p.inlined.Keys
    requires forall c {:trigger ReplacedBy(p, c)} :: c in p.inlined ==> ReplacedBy(p, c)
  {
    if x in p.origin && p.origin[x].0 in p.inlined && p.origin[x].1 in p.inlined[p.origin[x].0] then
      assert ReplacedBy(p, p.origin[x].0);
      Levels(GraphOf(p.inlined[p.origin[x].0]))[p.origin[x].1]
    else 0
  }

  lemma SiblingIsLower(w: Workflow, p: Progress, x: Key, y: Key)
    requires Inlining(w, p) && x in p.jobs && y in Siblings(w, p, x)
    ensures Owner(p, x) == Owner(p, y) && InnerLevel(p, y) < InnerLevel(p, x)
  {
    assert FromChild(w, p, x);
    var (c, k) := p.origin[x];
    assert ReplacedBy(p, c);
    var d :| d in Deps(p.inlined[c][k]) && y == Prefixed(c, d);
    GraphEdge(p.inlined[c], k, d);
    assert Edge(GraphOf(p.inlined[c]), k, d);
  }

  lemma UpstreamIsLower(w: Workflow, p: Progress, x: Key, v: Key, y: Key)
    requires Sound(w) && Inlining(w, p) && x in p.jobs && v in Upstream(w, p, x) && Replaces(p.replacements, v, y)
    ensures y in p.jobs && Owner(p, x) in w && Owner(p, y) in w
    ensures Levels(GraphOf(w))[Owner(p, y)] < Levels(GraphOf(w))[Owner(p, x)]
  {
    hide Inlining, Replaces;
    OwnerIsKnown(w, p, x);
    ReplacementStands(w, p, v, y);
    GraphEdge(w, Owner(p, x), v);
    assert Edge(GraphOf(w), Owner(p, x), v);
  }

  lemma ExpandedIsAcyclic(w: Workflow, p: Progress)
    requires Sound(w) && Inlining(w, p)
    ensures Acyclic(GraphOf(RewriteAll(p.jobs, p.replacements)))
  {
    var jobs := RewriteAll(p.jobs, p.replacements);
    OuterRankIs(w, p);
    hide *;
    forall x, y | Edge(GraphOf(jobs), x, y)
      ensures x in p.jobs && y in p.jobs && Falls(OuterRank(w, p), InnerRank(p), x, y) {
      GraphEdge(jobs, x, y);
      RewriteKeys(p.jobs, p.replacements);
      ExpandedEdgeFalls(w, p, x, y);
    }
    RewriteKeys(p.jobs, p.replacements);
    FallingIsAcyclic(GraphOf(jobs), OuterRank(w, p), InnerRank(p));
  }

  lemma RewriteKeys(jobs: Workflow, replacements: map<Key, seq<Key>>)
    ensures RewriteAll(jobs, replacements).Keys == jobs.Keys == GraphOf(RewriteAll(jobs, replacements)).Keys
  {
  }

  ghost function OuterRank(w: Workflow, p: Progress): map<Key, nat>
    requires Sound(w)
  {
    map x | x in p.jobs :: if Owner(p, x) in w then Levels(GraphOf(w))[Owner(p, x)] else 0
  }

  ghost function InnerRank(p: Progress): map<Key, nat>
    requires p.replacements.Keys == p.inlined.Keys
    requires forall c {:trigger ReplacedBy(p, c)} :: c in p.inlined ==> ReplacedBy(p, c)
  {
    map x | x in p.jobs :: InnerLevel(p, x)
  }

  lemma OuterRankIs(w: Workflow, p: Progress)
    requires Sound(w) && Inlining(w, p)
    ensures OuterRank(w, p).Keys == p.jobs.Keys == InnerRank(p).Keys
    ensures forall x, y :: x in p.jobs && y in p.jobs && Owner(p, x) in w && Owner(p, y) in w ==>
              (Falls(OuterRank(w, p), InnerRank(p), x, y) <==>
                var l := Levels(GraphOf(w));
                l[Owner(p, y)] < l[Owner(p, x)] ||
                    (l[Owner(p, y)] == l[Owner(p, x)] && InnerLevel(p, y) < InnerLevel(p, x)))
  {
  }

  lemma ExpandedEdgeFalls(w: Workflow, p: Progress, x: Key, y: Key)
    requires Sound(w) && Inlining(w, p) && x in p.jobs
    requires y in Deps(RewriteAll(p.jobs, p.replacements)[x])
    ensures y in p.jobs && Owner(p, x) in w && Owner(p, y) in w
    ensures var l := Levels(GraphOf(w));
            l[Owner(p, y)] < l[Owner(p, x)] || (Owner(p, y) == Owner(p, x) && InnerLevel(p, y) < InnerLevel(p, x))
  {
    hide RewriteAll, Replaces, InnerLevel, Upstream;
    ExpandedDeps(w, p, x, y);
    OwnerIsKnown(w, p, x);
    if y in Siblings(w, p, x) {
      SiblingsStay(w, p, x);
      SiblingIsLower(w, p, x, y);
    } else {
      var v :| v in Upstream(w, p, x) && Replaces(p.replacements, v, y);
      UpstreamIsLower(w, p, x, v, y);
    }
  }

  lemma InlinedIsSound(w: Workflow, p: Progress)
    requires Sound(w) && Inlining(w, p)
    ensures Sound(RewriteAll(p.jobs, p.replacements))
  {
    ExpandedIsNamed(w, p);
    ExpandedIsAcyclic(w, p);
  }

  // ---------------------------------------------------------- order is kept

  ghost predicate Reaches(g: Graph, x: Key, y: Key) {
    exists v :: Walk(g, v) && v[0] == x && v[|v| - 1] == y
  }

  lemma ReachesSelf(g: Graph, x: Key)
    requires x in g
    ensures Reaches(g, x, x)
  {
    assert Walk(g, [x]);
  }

  lemma ReachesVia(g: Graph, x: Key, m: Key, n: Key, y: Key)
    requires Reaches(g, x, m) && Edge(g, m, n) && Reaches(g, n, y)
    ensures Reaches(g, x, y)
    ensures exists v :: Walk(g, v) && |v| > 1 && v[0] == x && v[|v| - 1] == y
  {
    var a :| Walk(g, a) && a[0] == x && a[|a| - 1] == m;
    var b :| Walk(g, b) && b[0] == n && b[|b| - 1] == y;
    WalkJoin(g, a, b);
    assert (a + b)[0] == x && (a + b)[|a + b| - 1] == y;
  }

  /** Every job inlined for a caller reaches a root job of the called workflow. */
  lemma {:induction false} ReachesRoot(w: Workflow, p: Progress, x: Key) returns (r: Key)
    requires Sound(w) && Inlining(w, p) && x in p.jobs
    ensures r in p.jobs && Owner(p, x) in w && Upstream(w, p, r) == Deps(w[Owner(p, x)])
    ensures Reaches(GraphOf(RewriteAll(p.jobs, p.replacements)), x, r)
    decreases InnerLevel(p, x)
  {
    var g := GraphOf(RewriteAll(p.jobs, p.replacements));
    OwnerIsKnown(w, p, x);
    ReachesSelf(g, x);
    r := x;
    if Siblings(w, p, x) != {} {
      var y :| y in Siblings(w, p, x);
      SiblingEdge(w, p, x, y);
      SiblingIsLower(w, p, x, y);
      r := ReachesRoot(w, p, y);
      ReachesVia(g, x, x, y, r);
    } else if x in p.origin {
      NoSiblingsIsRoot(w, p, x);
    }
  }

  lemma NoSiblingsIsRoot(w: Workflow, p: Progress, x: Key)
    requires Inlining(w, p) && x in p.origin && x in p.jobs && Siblings(w, p, x) == {}
    ensures Owner(p, x) in w && Upstream(w, p, x) == Deps(w[Owner(p, x)])
  {
    assert FromChild(w, p, x);
    var (c, k) := p.origin[x];
    DependentHasSibling(w, p, x, c, k);
  }

  lemma DependentHasSibling(w: Workflow, p: Progress, x: Key, c: Key, k: Key)
    requires Inlining(w, p) && x in p.origin && x in p.jobs && FromChild(w, p, x) && p.origin[x] == (c, k)
    ensures !IsRoot(p.inlined[c][k]) ==> Siblings(w, p, x) != {}
  {
    var child := p.inlined[c][k];
    if !IsRoot(child) {
      var d := if child.needs != [] then child.needs[0] else child.required[0];
      assert d in Deps(child);
      assert Prefixed(c, d) in Siblings(w, p, x);
    }
  }

  lemma SiblingEdge(w: Workflow, p: Progress, x: Key, y: Key)
    requires Sound(w) && Inlining(w, p) && x in p.jobs && y in Siblings(w, p, x)
    ensures y in p.jobs && Edge(GraphOf(RewriteAll(p.jobs, p.replacements)), x, y)
  {
    hide Inlining, Siblings, RewriteJob, Upstream;
    SiblingsStay(w, p, x);
    ExpandedDeps(w, p, x, y);
    GraphEdge(RewriteAll(p.jobs, p.replacements), x, y);
  }

  /** Every job inlined for a caller is reached from a terminal job of the called workflow. */
  lemma {:induction false} ReachedFromTerminal(w: Workflow, p: Progress, y: Key, bound: nat) returns (t: Key)
    requires Sound(w) && Inlining(w, p) && y in p.jobs && InnerLevel(p, y) <= bound
    requires forall x :: x in p.jobs ==> InnerLevel(p, x) <= bound
    ensures t in p.jobs && Replaces(p.replacements, Owner(p, y), t)
    ensures Reaches(GraphOf(RewriteAll(p.jobs, p.replacements)), t, y)
    decreases bound - InnerLevel(p, y)
  {
    var g := GraphOf(RewriteAll(p.jobs, p.replacements));
    OwnerIsKnown(w, p, y);
    ReachesSelf(g, y);
    t := y;
    if y in p.origin {
      assert FromChild(w, p, y);
      var (c, k) := p.origin[y];
      assert ReplacedBy(p, c);
      TerminalIs(c, p.inlined[c], y);
      if Referenced(p.inlined[c], k) {
        var x := ReferencingSibling(w, p, y);
        SiblingEdge(w, p, x, y);
        SiblingIsLower(w, p, x, y);
        t := ReachedFromTerminal(w, p, x, bound);
        ReachesVia(g, t, x, y, y);
      }
    }
  }

  lemma ReferencingSibling(w: Workflow, p: Progress, y: Key) returns (x: Key)
    requires Inlining(w, p) && y in p.origin && FromChild(w, p, y)
    requires Referenced(p.inlined[p.origin[y].0], p.origin[y].1)
    ensures x in p.jobs && y in Siblings(w, p, x)
  {
    var (c, k) := p.origin[y];
    assert ReplacedBy(p, c);
    var j :| j in p.inlined[c] && Mentions(p.inlined[c][j], k);
    x := Prefixed(c, j);
    assert FromChild(w, p, x);
    assert k in Deps(p.inlined[c][j]);
  }

  /** Inlining preserves order: for every dependency of the caller workflow, every job that
      stands for the dependant transitively depends on every job that stands for the dependency. */
  lemma OrderPreserved(w: Workflow, p: Progress, a: Key, b: Key, x: Key, y: Key)
    requires Sound(w) && Inlining(w, p) && Edge(GraphOf(w), a, b)
    requires StandsFor(p, x, a) && StandsFor(p, y, b)
    ensures exists v :: Walk(GraphOf(RewriteAll(p.jobs, p.replacements)), v) && |v| > 1 && v[0] == x && v[|v| - 1] == y
  {
    var g := GraphOf(RewriteAll(p.jobs, p.replacements));
    GraphEdge(w, a, b);
    var r := ReachesRoot(w, p, x);
    var inner := map z | z in p.jobs :: InnerLevel(p, z);
    var n := BoundOf(inner);
    forall z | z in p.jobs ensures InnerLevel(p, z) <= n {
      assert inner[z] < n;
    }
    var t := ReachedFromTerminal(w, p, y, n);
    RootNeedsTerminal(w, p, r, b, t);
    ReachesVia(g, x, r, t, y);
  }

  lemma RootNeedsTerminal(w: Workflow, p: Progress, r: Key, b: Key, t: Key)
    requires Sound(w) && Inlining(w, p) && r in p.jobs && b in Upstream(w, p, r)
    requires t in p.jobs && Replaces(p.replacements, b, t)
    ensures Edge(GraphOf(RewriteAll(p.jobs, p.replacements)), r, t)
  {
    hide Inlining, Siblings, RewriteJob, Upstream, Replaces;
    ExpandedDeps(w, p, r, t);
    GraphEdge(RewriteAll(p.jobs, p.replacements), r, t);
  }

  /** jobs is w with every local call replaced by the expansion of the file it calls, in order. */
  ghost predicate OrderKept(repo: map<Path, Workflow>, w: Workflow, depth: nat, stack: seq<Path>, jobs: Workflow) {
    exists p: Progress :: ExpandsBy(repo, w, depth, stack, p, jobs) && Faithful(w, p, jobs)
  }

  /** The whole expansion: sound, made of the called workflows, and order preserving. */
  lemma ExpansionPreservesOrder(repo: map<Path, Workflow>, w: Workflow, depth: nat, stack: seq<Path>, unique: set<Path>)
    requires depth <= MAX_DEPTH && SoundRepository(repo) && Sound(w)
    ensures var r := Expand(repo, w, depth, stack, unique);
            r.Expanded? ==> Sound(r.jobs) && OrderKept(repo, w, depth, stack, r.jobs)
  {
    hide *;
    ExpandIsSound(repo, w, depth, stack, unique);
    var r := Expand(repo, w, depth, stack, unique);
    if r.Expanded? {
      var p :| ExpandsBy(repo, w, depth, stack, p, r.jobs);
      ExpandsByFacts(repo, w, depth, stack, p, r.jobs);
      InliningIsFaithful(w, p);
      FaithfulWitness(repo, w, depth, stack, p, r.jobs);
    }
  }

  lemma ExpandsByFacts(repo: map<Path, Workflow>, w: Workflow, depth: nat, stack: seq<Path>, p: Progress,
      jobs: Workflow)
    requires ExpandsBy(repo, w, depth, stack, p, jobs)
    ensures Inlining(w, p) && CallsInlined(w, p) && jobs == RewriteAll(p.jobs, p.replacements)
  {
    hide Inlining, CallsInlined, Genuine;
  }

  lemma FaithfulWitness(repo: map<Path, Workflow>, w: Workflow, depth: nat, stack: seq<Path>, p: Progress,
      jobs: Workflow)
    requires ExpandsBy(repo, w, depth, stack, p, jobs) && Faithful(w, p, jobs)
    ensures OrderKept(repo, w, depth, stack, jobs)
  {
    hide ExpandsBy, Faithful;
  }

  /** Replaced callers are gone, nothing else of the caller workflow is, the jobs inlined for
      a caller are the expanded called workflow with its order, and every dependency of the
      caller workflow orders all that stands on either side of it. */
  ghost predicate Faithful(w: Workflow, p: Progress, jobs: Workflow) {
    && (forall k :: k in w && w[k].call.LocalCall? ==> k in p.inlined)
    && (forall c :: c in p.inlined ==> c !in jobs)
    && (forall k :: k in w && k !in p.inlined ==> k in jobs)
    && (forall c, k {:trigger Prefixed(c, k)} :: c in p.inlined && k in p.inlined[c] ==>
        StandsFor(p, Prefixed(c, k), c))
    && (forall c, k, d {:trigger Prefixed(c, k), Prefixed(c, d)} ::
          c in p.inlined && Edge(GraphOf(p.inlined[c]), k, d) ==> Edge(GraphOf(jobs), Prefixed(c, k), Prefixed(c, d)))
    && (forall a, b, x, y :: Edge(GraphOf(w), a, b) && StandsFor(p, x, a) && StandsFor(p, y, b) ==>
          exists v :: Walk(GraphOf(jobs), v) && |v| > 1 && v[0] == x && v[|v| - 1] == y)
  }

  lemma InliningIsFaithful(w: Workflow, p: Progress)
    requires Sound(w) && Inlining(w, p) && CallsInlined(w, p)
    ensures Faithful(w, p, RewriteAll(p.jobs, p.replacements))
  {
    var jobs := RewriteAll(p.jobs, p.replacements);
    forall a, b, x, y | Edge(GraphOf(w), a, b) && StandsFor(p, x, a) && StandsFor(p, y, b)
      ensures exists v :: Walk(GraphOf(jobs), v) && |v| > 1 && v[0] == x && v[|v| - 1] == y
    {
      OrderPreserved(w, p, a, b, x, y);
    }
    forall c, k | c in p.inlined && k in p.inlined[c] ensures StandsFor(p, Prefixed(c, k), c) {
      assert ReplacedBy(p, c);
      assert FromChild(w, p, Prefixed(c, k));
    }
    forall c, k, d | c in p.inlined && Edge(GraphOf(p.inlined[c]), k, d)
      ensures Edge(GraphOf(jobs), Prefixed(c, k), Prefixed(c, d))
    {
      assert ReplacedBy(p, c);
      assert FromChild(w, p, Prefixed(c, k));
      GraphEdge(p.inlined[c], k, d);
      SiblingEdge(w, p, Prefixed(c, k), Prefixed(c, d));
    }
    OriginIsFresh(w, p);
  }

  // --------------------------------------------------------------- the program

  method JobKeys(w: Workflow) returns (keys: seq<Key>)
    ensures keys == SortSet(w.Keys)
  {
    keys := [];
    var rest := w.Keys;
    while rest != {}
      invariant rest <= w.Keys && Elements(keys) == w.Keys - rest
    {
      var key :| key in rest;
      assert Elements(keys + [key]) == Elements(keys) + {key};
      keys := keys + [key];
      rest := rest - {key};
    }
    keys := SortUnique(keys);
    AscendingUnique(keys, SortSet(w.Keys));
  }

  ghost function Keyed(caller: Key, keys: set<Key>): set<Key> {
    set k | k in keys :: Prefixed(caller, k)
  }

  lemma KeyedStep(caller: Key, keys: set<Key>, k: Key)
    ensures Keyed(caller, keys + {k}) == Keyed(caller, keys) + {Prefixed(caller, k)}
  {
  }

  ghost function Unreferenced(called: Workflow, keys: set<Key>): set<Key> {
    set k | k in keys && !Referenced(called, k)
  }

  ghost predicate ChildrenFor(callerKey: Key, caller: Job, called: Workflow, keys: set<Key>, children: Workflow) {
    && keys <= called.Keys && children.Keys == Keyed(callerKey, keys)
    && forall k :: k in keys ==>
         Prefixed(callerKey, k) in children &&
             children[Prefixed(callerKey, k)] == ChildJob(callerKey, caller, called, called[k])
  }

  lemma AllChildren(callerKey: Key, caller: Job, called: Workflow, children: Workflow)
    requires ChildrenFor(callerKey, caller, called, called.Keys, children)
    ensures children == Children(callerKey, caller, called)
  {
    hide ChildJob, Prefixed;
    ChildrenAre(callerKey, caller, called);
    PrefixedInjective(callerKey);
  }

  lemma NextChild(callerKey: Key, caller: Job, called: Workflow, keys: set<Key>, children: Workflow, k: Key)
    requires ChildrenFor(callerKey, caller, called, keys, children) && k in called && k !in keys
    ensures ChildrenFor(callerKey, caller, called, keys + {k},
        children[Prefixed(callerKey, k) := ChildJob(callerKey, caller, called, called[k])])
  {
    hide ChildJob, Prefixed;
    KeyedStep(callerKey, keys, k);
    PrefixedInjective(callerKey);
  }

  /** expandReusableCall: the children of one call and the names that replace the caller. */
  method ExpandReusableCall(callerKey: Key, caller: Job, called: Workflow)
    returns (children: Workflow, terminals: seq<Key>)
    ensures children == Children(callerKey, caller, called)
    ensures terminals == Terminals(callerKey, called)
  {
    hide Children, ChildJob, Prefixed, Terminals;
    var calledKeys := JobKeys(called);
    var referenced := CollectReferenced(called, calledKeys);
    AscendingIsDistinct(calledKeys);
    children, terminals := map[], [];
    for n := 0 to |calledKeys|
      invariant ChildrenFor(callerKey, caller, called, Elements(calledKeys[..n]), children)
      invariant Elements(terminals) == Keyed(callerKey, Unreferenced(called, Elements(calledKeys[..n])))
    {
      var oldKey := calledKeys[n];
      NextKey(calledKeys, n);
      NextChild(callerKey, caller, called, Elements(calledKeys[..n]), children, oldKey);
      children := children[Prefixed(callerKey, oldKey) := ChildJob(callerKey, caller, called, called[oldKey])];
      NextTerminal(callerKey, called, Elements(calledKeys[..n]), oldKey, terminals);
      if oldKey !in referenced {
        terminals := terminals + [Prefixed(callerKey, oldKey)];
      }
    }
    assert calledKeys[..|calledKeys|] == calledKeys;
    AllChildren(callerKey, caller, called, children);
    terminals := SortUnique(terminals);
    SortedTerminals(callerKey, called, terminals);
  }

  lemma NextTerminal(callerKey: Key, called: Workflow, keys: set<Key>, k: Key, terminals: seq<Key>)
    requires Elements(terminals) == Keyed(callerKey, Unreferenced(called, keys))
    ensures Keyed(callerKey, Unreferenced(called, keys + {k})) ==
            Elements(if Referenced(called, k) then terminals else terminals + [Prefixed(callerKey, k)])
  {
    if Referenced(called, k) {
      assert Unreferenced(called, keys + {k}) == Unreferenced(called, keys);
    } else {
      assert Unreferenced(called, keys + {k}) == Unreferenced(called, keys) + {k};
      KeyedStep(callerKey, Unreferenced(called, keys), k);
      assert Elements(terminals + [Prefixed(callerKey, k)]) == Elements(terminals) + {Prefixed(callerKey, k)};
    }
  }

  lemma SortedTerminals(callerKey: Key, called: Workflow, terminals: seq<Key>)
    requires Ascending(terminals) && Elements(terminals) == Keyed(callerKey, Unreferenced(called, called.Keys))
    ensures terminals == Terminals(callerKey, called)
  {
    hide Prefixed, Referenced, Ascending;
    assert Elements(terminals) == set k | k in called && !Referenced(called, k) :: Prefixed(callerKey, k);
    AscendingUnique(terminals, Terminals(callerKey, called));
  }

  method CollectReferenced(called: Workflow, calledKeys: seq<Key>) returns (referenced: set<Key>)
    requires Elements(calledKeys) == called.Keys
    ensures forall k :: k in referenced <==> Referenced(called, k)
  {
    referenced := {};
    for n := 0 to |calledKeys|
      invariant forall k :: k in referenced <==>
                  exists i :: 0 <= i < n && calledKeys[i] in called && Mentions(called[calledKeys[i]], k)
    {
      assert calledKeys[n] in Elements(calledKeys);
      var child := called[calledKeys[n]];
      referenced := referenced + set d | d in child.needs + child.required;
    }
    forall k ensures k in referenced <==> Referenced(called, k) {
      if Referenced(called, k) {
        var j :| j in called && Mentions(called[j], k);
        assert j in Elements(calledKeys);
        var i :| 0 <= i < |calledKeys| && calledKeys[i] == j;
      }
    }
  }

  lemma InlineIs(key: Key, caller: Job, called: Workflow, p: Progress)
    ensures var children := Children(key, caller, called); var kept := p.jobs - {key};
        var r := Inline(key, caller, called, p);
            if children.Keys * kept.Keys != {} then r == Stopped(key, KeyConflict)
            else r.Going? && r.progress.jobs == kept + children && r.progress.unique == p.unique &&
                 r.progress.replacements == p.replacements[key := Terminals(key, called)]
  {
  }

  /** The per-run state of the expansion: where the workflows are read from, which ones were
      read, and the chain of files being expanded. */
  class ReusableExpansionState {
    const repo: map<Path, Workflow>
    var unique: set<Path>
    var stack: seq<Path>

    constructor (repo: map<Path, Workflow>, source: Path)
      ensures this.repo == repo && unique == {} && stack == [source]
    {
      this.repo, unique, stack := repo, {}, [source];
    }

    method ExpandPipeline(pipeline: Workflow, depth: nat) returns (r: Expansion)
      requires depth <= MAX_DEPTH
      modifies this
      ensures r == Expand(repo, pipeline, depth, old(stack), old(unique))
      ensures r.Expanded? ==> stack == old(stack) && unique == r.unique
      decreases MAX_DEPTH - depth
    {
      hide Inline, Children, Terminals;
      var keys := JobKeys(pipeline);
      var jobs, replacements := pipeline, map[];
      ghost var p := Progress(pipeline, map[], unique, map[], map[]);
      for n := 0 to |keys|
        invariant ExpandCallers(repo, keys[n..], depth, old(stack), p) ==
                  ExpandCallers(repo, keys, depth, old(stack), Progress(pipeline, map[], old(unique), map[], map[]))
        invariant jobs == p.jobs && replacements == p.replacements && unique == p.unique && stack == old(stack)
      {
        var callerKey := keys[n];
        assert keys[n..][0] == callerKey && keys[n..][1..] == keys[n + 1..];
        ghost var step := ExpandCaller(repo, callerKey, depth, stack, p);
        var reason;
        reason, jobs, replacements, p := ReplaceCaller(callerKey, depth, jobs, replacements, p);
        if reason.Some? {
          return Rejected(callerKey, reason.reason);
        }
      }
      assert keys[|keys|..] == [];
      return Expanded(RewriteAll(jobs, replacements), unique);
    }

    /** One turn of the loop over the jobs of the pipeline. */
    method ReplaceCaller(callerKey: Key, depth: nat, jobs0: Workflow, replacements0: map<Key, seq<Key>>,
        ghost p: Progress)
      returns (reason: MaybeReason, jobs: Workflow, replacements: map<Key, seq<Key>>, ghost q: Progress)
      requires depth <= MAX_DEPTH && jobs0 == p.jobs && replacements0 == p.replacements && unique == p.unique
      modifies this
      ensures reason.Some? ==> ExpandCaller(repo, callerKey, depth, old(stack), p) == Stopped(callerKey, reason.reason)
      ensures reason.None? ==> ExpandCaller(repo, callerKey, depth, old(stack), p) == Going(q)
      ensures reason.None? ==>
          jobs == q.jobs && replacements == q.replacements && unique == q.unique && stack == old(stack)
      decreases MAX_DEPTH - depth, 0
    {
      hide Children, Terminals, ExpandCallers, Expand, Inline;
      reason, jobs, replacements, q := None, jobs0, replacements0, p;
      if callerKey !in jobs || jobs[callerKey].call.NoCall? {
        return;
      }
      var caller := jobs[callerKey];
      var path := caller.call.path;
      if caller.matrix {
        reason := Some(MatrixCall);
        return;
      }
      if depth >= MAX_DEPTH {
        reason := Some(TooDeep);
        return;
      }
      if path !in repo {
        reason := Some(Unresolved);
        return;
      }
      if path in stack {
        reason := Some(Recursive);
        return;
      }
      unique := unique + {path};
      if |unique| > MAX_WORKFLOWS {
        reason := Some(TooManyWorkflows);
        return;
      }
      if !caller.call.accepted {
        reason := Some(Unresolved);
        return;
      }
      var outer := stack;
      stack := stack + [path];
      var inner := ExpandPipeline(repo[path], depth + 1);
      stack := outer;
      if inner.Rejected? {
        reason := Some(inner.reason);
        return;
      }
      if inner.jobs == map[] {
        reason := Some(NoJobs);
        return;
      }
      var children, terminals := ExpandReusableCall(callerKey, caller, inner.jobs);
      var kept := jobs - {callerKey};
      InlineIs(callerKey, caller, inner.jobs, p.(unique := inner.unique));
      if children.Keys * kept.Keys != {} {
        reason := Some(KeyConflict);
        return;
      }
      q := Inline(callerKey, caller, inner.jobs, p.(unique := inner.unique)).progress;
      jobs := kept + children;
      replacements := replacements[callerKey := terminals];
    }
  }

  datatype MaybeReason = None | Some(reason: Reason)
}
