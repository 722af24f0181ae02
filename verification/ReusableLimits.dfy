// When the inlining of reusable workflows succeeds, over the chains of calls the files
// contain: no recursion, no more than ten levels and fifty files, no refused call, no key
// that two jobs would share.
module ReusableLimits {
  import opened Text
  import opened Graphs
  import opened ReusableWorkflows

  // ---------------------------------------------------------- chains of calls

  ghost predicate IsCall(w: Workflow, c: Key) {
    c in w && w[c].call.LocalCall?
  }

  /** The first job of the chain calls a file of the repository, in which the second one calls
      another, and so on. */
  ghost predicate Leads(repo: map<Path, Workflow>, w: Workflow, chain: seq<Key>)
    decreases |chain|
  {
    chain == [] ||
      (IsCall(w, chain[0]) && w[chain[0]].call.path in repo && Leads(repo, repo[w[chain[0]].call.path], chain[1..]))
  }

  /** The file at the end of a chain. */
  ghost function FileAt(repo: map<Path, Workflow>, w: Workflow, chain: seq<Key>): Workflow
    requires Leads(repo, w, chain)
    decreases |chain|
  {
    if chain == [] then w else FileAt(repo, repo[w[chain[0]].call.path], chain[1..])
  }

  /** The files read along a chain. */
  ghost function FilesOn(repo: map<Path, Workflow>, w: Workflow, chain: seq<Key>): seq<Path>
    requires Leads(repo, w, chain)
    decreases |chain|
  {
    if chain == [] then []
    else [w[chain[0]].call.path] + FilesOn(repo, repo[w[chain[0]].call.path], chain[1..])
  }

  /** A call at the end of a chain. */
  ghost predicate CallAt(repo: map<Path, Workflow>, w: Workflow, chain: seq<Key>, c: Key) {
    Leads(repo, w, chain) && IsCall(FileAt(repo, w, chain), c)
  }

  // -------------------------------------------------------------- job keys

  /** The job k at the end of a chain stands for itself. */
  ghost predicate Leaf(repo: map<Path, Workflow>, w: Workflow, chain: seq<Key>, k: Key) {
    Leads(repo, w, chain) && k in FileAt(repo, w, chain) && !IsCall(FileAt(repo, w, chain), k)
  }

  /** The key of a job behind a chain of calls. */
  function Spelled(chain: seq<Key>, k: Key): Key {
    if chain == [] then k else Prefixed(chain[0], Spelled(chain[1..], k))
  }

  /** x is the key of a job that stands for itself, behind some chain. */
  ghost predicate Keyed(repo: map<Path, Workflow>, w: Workflow, x: Key) {
    exists chain, k :: Leaf(repo, w, chain, k) && x == Spelled(chain, k)
  }

  /** x is the key of a job behind the call c. */
  ghost predicate KeyedVia(repo: map<Path, Workflow>, w: Workflow, c: Key, x: Key) {
    && IsCall(w, c) && w[c].call.path in repo
    && exists y :: Keyed(repo, repo[w[c].call.path], y) && x == Prefixed(c, y)
  }

  /** x is the key of a job of the file, or of one behind another call. */
  ghost predicate Taken(repo: map<Path, Workflow>, w: Workflow, c: Key, x: Key) {
    x in w || exists d :: d != c && KeyedVia(repo, w, d, x)
  }

  /** Some job behind the call would have a key that is taken. */
  ghost predicate Clashes(repo: map<Path, Workflow>, w: Workflow, c: Key) {
    exists x :: KeyedVia(repo, w, c, x) && Taken(repo, w, c, x)
  }

  // ------------------------------------------------------------- files read

  ghost predicate ReadsAt(repo: map<Path, Workflow>, w: Workflow, chain: seq<Key>, c: Key, path: Path) {
    CallAt(repo, w, chain, c) && FileAt(repo, w, chain)[c].call.path == path
  }

  ghost predicate Reads(repo: map<Path, Workflow>, w: Workflow, path: Path) {
    exists chain, c :: ReadsAt(repo, w, chain, c, path)
  }

  /** The files of the repository that some chain of calls reads. */
  ghost function AllRead(repo: map<Path, Workflow>, w: Workflow): set<Path> {
    set path | path in repo && Reads(repo, w, path)
  }

  // ------------------------------------------------------------ the conditions

  /** The call c of a file can be made at this depth, with these files open. */
  ghost predicate CallFine(repo: map<Path, Workflow>, w: Workflow, c: Key, depth: nat, files: seq<Path>)
    requires IsCall(w, c)
  {
    var call := w[c].call;
    && !w[c].matrix && depth < MAX_DEPTH && call.accepted
    && call.path in repo && call.path !in files && repo[call.path] != map[]
    && !Clashes(repo, w, c)
  }

  ghost predicate CallFineAt(repo: map<Path, Workflow>, w: Workflow, depth: nat, stack: seq<Path>,
      chain: seq<Key>, c: Key)
    requires CallAt(repo, w, chain, c)
  {
    CallFine(repo, FileAt(repo, w, chain), c, depth + |chain|, stack + FilesOn(repo, w, chain))
  }

  ghost predicate CallsFine(repo: map<Path, Workflow>, w: Workflow, depth: nat, stack: seq<Path>) {
    forall chain, c :: CallAt(repo, w, chain, c) ==> CallFineAt(repo, w, depth, stack, chain, c)
  }

  ghost predicate FilesFine(unique: set<Path>, read: set<Path>) {
    read != {} ==> |unique + read| <= MAX_WORKFLOWS
  }

  /** Every call that some chain reaches can be made: it is no matrix job and is accepted, at
      most ten levels deep, of a file that is there, has jobs and is not open already, and no
      key behind it is taken; and not too many files are read in all. */
  ghost predicate Admissible(repo: map<Path, Workflow>, w: Workflow, depth: nat, stack: seq<Path>, unique: set<Path>) {
    CallsFine(repo, w, depth, stack) && FilesFine(unique, AllRead(repo, w))
  }

  /** What is wrong at or behind the call of a job that is refused. */
  ghost predicate Blamed(repo: map<Path, Workflow>, w: Workflow, depth: nat, stack: seq<Path>, unique: set<Path>,
      job: Key, reason: Reason)
  {
    && IsCall(w, job)
    && if reason.TooManyWorkflows? then |unique + AllRead(repo, w)| > MAX_WORKFLOWS
       else exists chain, c :: WrongBehind(repo, w, depth, stack, job, chain, c, reason)
  }

  ghost predicate WrongBehind(repo: map<Path, Workflow>, w: Workflow, depth: nat, stack: seq<Path>, job: Key,
      chain: seq<Key>, c: Key, reason: Reason)
  {
    && (chain + [c])[0] == job && CallAt(repo, w, chain, c)
    && Wrong(repo, FileAt(repo, w, chain), c, depth + |chain|, stack + FilesOn(repo, w, chain), reason)
  }

  ghost predicate Wrong(repo: map<Path, Workflow>, w: Workflow, c: Key, depth: nat, files: seq<Path>, reason: Reason)
    requires IsCall(w, c)
  {
    var call := w[c].call;
    match reason
    case MatrixCall => w[c].matrix
    case TooDeep => depth >= MAX_DEPTH
    case Recursive => call.path in files
    case Unresolved => call.path !in repo || !call.accepted
    case NoJobs => call.path in repo && repo[call.path] == map[]
    case KeyConflict => Clashes(repo, w, c)
    case TooManyWorkflows => false
  }

  // ------------------------------------------------------------ one call more

  /** The file a call reads. */
  ghost function Called(repo: map<Path, Workflow>, w: Workflow, c: Key): Workflow
    requires IsCall(w, c) && w[c].call.path in repo
  {
    repo[w[c].call.path]
  }

  /** A chain that begins with the call c. */
  lemma LeadsOn(repo: map<Path, Workflow>, w: Workflow, c: Key, chain: seq<Key>)
    requires IsCall(w, c) && w[c].call.path in repo
    ensures Leads(repo, w, [c] + chain) <==> Leads(repo, Called(repo, w, c), chain)
    ensures Leads(repo, w, [c] + chain) ==>
              && FileAt(repo, w, [c] + chain) == FileAt(repo, Called(repo, w, c), chain)
              && FilesOn(repo, w, [c] + chain) == [w[c].call.path] + FilesOn(repo, Called(repo, w, c), chain)
  {
    assert ([c] + chain)[1..] == chain;
  }

  lemma LeadsFrom(repo: map<Path, Workflow>, w: Workflow, chain: seq<Key>)
    requires Leads(repo, w, chain) && chain != []
    ensures chain == [chain[0]] + chain[1..]
    ensures IsCall(w, chain[0]) && w[chain[0]].call.path in repo && Leads(repo, Called(repo, w, chain[0]), chain[1..])
  {
  }

  lemma CallOn(repo: map<Path, Workflow>, w: Workflow, c: Key, chain: seq<Key>, d: Key)
    requires IsCall(w, c) && w[c].call.path in repo
    ensures CallAt(repo, w, [c] + chain, d) <==> CallAt(repo, Called(repo, w, c), chain, d)
  {
    hide Leads, FileAt, FilesOn;
    LeadsOn(repo, w, c, chain);
  }

  lemma FineOn(repo: map<Path, Workflow>, w: Workflow, depth: nat, stack: seq<Path>, c: Key, chain: seq<Key>, d: Key)
    requires IsCall(w, c) && w[c].call.path in repo && CallAt(repo, Called(repo, w, c), chain, d)
    ensures CallAt(repo, w, [c] + chain, d)
    ensures CallFineAt(repo, w, depth, stack, [c] + chain, d) <==>
            CallFineAt(repo, Called(repo, w, c), depth + 1, stack + [w[c].call.path], chain, d)
  {
    hide Leads, FileAt, FilesOn;
    LeadsOn(repo, w, c, chain);
    var files := FilesOn(repo, Called(repo, w, c), chain);
    assert stack + ([w[c].call.path] + files) == stack + [w[c].call.path] + files;
  }

  /** Every call is fine exactly if those of the file are, and those behind each of them. */
  lemma CallsFineIs(repo: map<Path, Workflow>, w: Workflow, depth: nat, stack: seq<Path>)
    ensures CallsFine(repo, w, depth, stack) <==> forall c :: IsCall(w, c) ==> CallBehindFine(repo, w, depth, stack, c)
  {
    hide Leads, FileAt, FilesOn, CallAt, CallFineAt;
    if CallsFine(repo, w, depth, stack) {
      forall c | IsCall(w, c) ensures CallBehindFine(repo, w, depth, stack, c) {
        CallHere(repo, w, depth, stack, c);
        assert CallFineAt(repo, w, depth, stack, [], c);
        forall chain, d | CallAt(repo, Called(repo, w, c), chain, d)
          ensures CallFineAt(repo, Called(repo, w, c), depth + 1, stack + [w[c].call.path], chain, d) {
          FineOn(repo, w, depth, stack, c, chain, d);
        }
      }
    }
    if forall c :: IsCall(w, c) ==> CallBehindFine(repo, w, depth, stack, c) {
      forall chain, d | CallAt(repo, w, chain, d) ensures CallFineAt(repo, w, depth, stack, chain, d) {
        FineFrom(repo, w, depth, stack, chain, d);
      }
    }
  }

  ghost predicate CallBehindFine(repo: map<Path, Workflow>, w: Workflow, depth: nat, stack: seq<Path>, c: Key)
    requires IsCall(w, c)
  {
    CallFine(repo, w, c, depth, stack) && CallsFine(repo, Called(repo, w, c), depth + 1, stack + [w[c].call.path])
  }

  lemma CallHere(repo: map<Path, Workflow>, w: Workflow, depth: nat, stack: seq<Path>, c: Key)
    requires IsCall(w, c)
    ensures CallAt(repo, w, [], c) && FileAt(repo, w, []) == w
    ensures CallFineAt(repo, w, depth, stack, [], c) <==> CallFine(repo, w, c, depth, stack)
  {
    assert stack + [] == stack;
  }

  lemma FineFrom(repo: map<Path, Workflow>, w: Workflow, depth: nat, stack: seq<Path>, chain: seq<Key>, d: Key)
    requires forall c :: IsCall(w, c) ==> CallBehindFine(repo, w, depth, stack, c)
    requires CallAt(repo, w, chain, d)
    ensures CallFineAt(repo, w, depth, stack, chain, d)
  {
    hide CallFineAt;
    if chain == [] {
      CallHere(repo, w, depth, stack, d);
      assert IsCall(w, d);
    } else {
      LeadsFrom(repo, w, chain);
      var c, rest := chain[0], chain[1..];
      CallOn(repo, w, c, rest, d);
      FineOn(repo, w, depth, stack, c, rest, d);
      assert CallBehindFine(repo, w, depth, stack, c);
    }
  }

  lemma LeadsNowhere(repo: map<Path, Workflow>, w: Workflow)
    ensures Leads(repo, w, []) && FileAt(repo, w, []) == w && FilesOn(repo, w, []) == []
  {
  }

  /** A file is read by a call of the workflow, or by the file such a call reads. */
  ghost predicate ReadsVia(repo: map<Path, Workflow>, w: Workflow, c: Key, path: Path) {
    && IsCall(w, c) && w[c].call.path in repo
    && (path == w[c].call.path || Reads(repo, Called(repo, w, c), path))
  }

  lemma ReadsIs(repo: map<Path, Workflow>, w: Workflow, path: Path)
    requires path in repo
    ensures Reads(repo, w, path) <==> exists c :: ReadsVia(repo, w, c, path)
  {
    hide Leads, FileAt, FilesOn, ReadsAt;
    if chain, d :| ReadsAt(repo, w, chain, d, path) {
      ReadsFrom(repo, w, chain, d, path);
    }
    if c :| ReadsVia(repo, w, c, path) {
      if path == w[c].call.path {
        CallReads(repo, w, c);
      } else {
        var chain, d :| ReadsAt(repo, Called(repo, w, c), chain, d, path);
        ReadsOn(repo, w, c, chain, d, path);
      }
    }
  }

  lemma ReadsOn(repo: map<Path, Workflow>, w: Workflow, c: Key, chain: seq<Key>, d: Key, path: Path)
    requires IsCall(w, c) && w[c].call.path in repo
    ensures ReadsAt(repo, w, [c] + chain, d, path) <==> ReadsAt(repo, Called(repo, w, c), chain, d, path)
  {
    hide Leads, FileAt, FilesOn;
    LeadsOn(repo, w, c, chain);
  }

  lemma CallReads(repo: map<Path, Workflow>, w: Workflow, c: Key)
    requires IsCall(w, c)
    ensures ReadsAt(repo, w, [], c, w[c].call.path)
  {
  }

  lemma ReadsFrom(repo: map<Path, Workflow>, w: Workflow, chain: seq<Key>, d: Key, path: Path)
    requires path in repo && ReadsAt(repo, w, chain, d, path)
    ensures ReadsVia(repo, w, if chain == [] then d else chain[0], path)
  {
    hide FilesOn;
    if chain != [] {
      LeadsFrom(repo, w, chain);
      ReadsOn(repo, w, chain[0], chain[1..], d, path);
    }
  }

  lemma CallIs(repo: map<Path, Workflow>, w: Workflow, chain: seq<Key>, c: Key)
    requires CallAt(repo, w, chain, c)
    ensures Leads(repo, w, chain) && IsCall(FileAt(repo, w, chain), c)
  {
  }

  /** A key of the expansion is one of the file, or one behind a call. */
  lemma KeyedIs(repo: map<Path, Workflow>, w: Workflow, x: Key)
    ensures Keyed(repo, w, x) <==> (x in w && !IsCall(w, x)) || exists c :: KeyedVia(repo, w, c, x)
  {
    hide Leads, FileAt, FilesOn, Prefixed;
    if chain, k :| Leaf(repo, w, chain, k) && x == Spelled(chain, k) {
      if chain == [] {
        LeadsNowhere(repo, w);
      } else {
        LeadsFrom(repo, w, chain);
        LeadsOn(repo, w, chain[0], chain[1..]);
        assert Leaf(repo, Called(repo, w, chain[0]), chain[1..], k);
        assert Keyed(repo, Called(repo, w, chain[0]), Spelled(chain[1..], k));
        assert KeyedVia(repo, w, chain[0], x);
      }
    }
    if x in w && !IsCall(w, x) {
      LeadsNowhere(repo, w);
      assert Leaf(repo, w, [], x) && x == Spelled([], x);
    }
    if c :| KeyedVia(repo, w, c, x) {
      KeyedBehind(repo, w, c, x);
    }
  }

  lemma KeyedBehind(repo: map<Path, Workflow>, w: Workflow, c: Key, x: Key)
    requires KeyedVia(repo, w, c, x)
    ensures Keyed(repo, w, x)
  {
    hide Leads, FileAt, FilesOn, Prefixed;
    var y :| Keyed(repo, Called(repo, w, c), y) && x == Prefixed(c, y);
    var chain, k :| Leaf(repo, Called(repo, w, c), chain, k) && y == Spelled(chain, k);
    LeadsOn(repo, w, c, chain);
    assert ([c] + chain)[1..] == chain;
    assert Leaf(repo, w, [c] + chain, k) && x == Spelled([c] + chain, k);
  }

  /** A file with jobs keeps some, if every call in it can be made. */
  lemma {:induction false} SomeKey(repo: map<Path, Workflow>, w: Workflow, depth: nat, stack: seq<Path>)
    requires CallsFine(repo, w, depth, stack) && w != map[]
    ensures exists x :: Keyed(repo, w, x)
    decreases if depth < MAX_DEPTH then MAX_DEPTH - depth else 0
  {
    hide Keyed, KeyedVia, CallsFine;
    var k :| k in w;
    KeyedIs(repo, w, k);
    if IsCall(w, k) {
      CallsFineIs(repo, w, depth, stack);
      assert CallBehindFine(repo, w, depth, stack, k);
      SomeKey(repo, Called(repo, w, k), depth + 1, stack + [w[k].call.path]);
      var y :| Keyed(repo, Called(repo, w, k), y);
      BehindIs(repo, w, k, y);
      KeyedIs(repo, w, Prefixed(k, y));
    }
  }

  lemma BehindIs(repo: map<Path, Workflow>, w: Workflow, c: Key, y: Key)
    requires IsCall(w, c) && w[c].call.path in repo
    ensures KeyedVia(repo, w, c, Prefixed(c, y)) <==> Keyed(repo, Called(repo, w, c), y)
  {
    hide Keyed, Prefixed;
    PrefixedInjective(c);
  }

  lemma NoKey(repo: map<Path, Workflow>, w: Workflow, x: Key)
    requires w == map[]
    ensures !Keyed(repo, w, x)
  {
    hide Keyed;
    KeyedIs(repo, w, x);
  }

  // ------------------------------------------------------- the callers in turn

  /** The files read by the calls in some set of jobs. */
  ghost function ReadBy(repo: map<Path, Workflow>, w: Workflow, calls: set<Key>): set<Path> {
    set path | path in repo && exists c :: c in calls && ReadsVia(repo, w, c, path)
  }

  lemma ReadByAll(repo: map<Path, Workflow>, w: Workflow)
    ensures ReadBy(repo, w, w.Keys) == AllRead(repo, w)
  {
    hide Reads;
    forall path | path in repo ensures path in ReadBy(repo, w, w.Keys) <==> path in AllRead(repo, w) {
      ReadsIs(repo, w, path);
    }
  }

  lemma ReadByOne(repo: map<Path, Workflow>, w: Workflow, c: Key)
    ensures IsCall(w, c) && w[c].call.path in repo ==>
              ReadBy(repo, w, {c}) == {w[c].call.path} + AllRead(repo, Called(repo, w, c))
    ensures !IsCall(w, c) ==> ReadBy(repo, w, {c}) == {}
  {
    hide Reads;
  }

  lemma ReadByMore(repo: map<Path, Workflow>, w: Workflow, calls: set<Key>, more: set<Key>)
    ensures ReadBy(repo, w, calls + more) == ReadBy(repo, w, calls) + ReadBy(repo, w, more)
  {
    hide Reads;
  }

  /** No key behind the call is a key of the file, or is behind a call that comes earlier. */
  ghost predicate ClearBefore(repo: map<Path, Workflow>, w: Workflow, c: Key) {
    forall x :: KeyedVia(repo, w, c, x) ==> x !in w && forall d :: Less(d, c) ==> !KeyedVia(repo, w, d, x)
  }

  lemma ClearInTurn(repo: map<Path, Workflow>, w: Workflow)
    ensures (forall c :: IsCall(w, c) ==> !Clashes(repo, w, c)) <==> forall c :: IsCall(w, c) ==>
        ClearBefore(repo, w, c)
  {
    hide Less;
    if forall c :: IsCall(w, c) ==> ClearBefore(repo, w, c) {
      forall c | IsCall(w, c) ensures !Clashes(repo, w, c) {
        forall x | KeyedVia(repo, w, c, x) ensures !Taken(repo, w, c, x) {
          forall d | d != c ensures !KeyedVia(repo, w, d, x) {
            LessTotal(c, d);
          }
        }
      }
    }
    forall c, d | Less(d, c) ensures d != c {
      LessIrreflexive(c);
    }
  }

  /** What a caller has to meet when those before it are replaced. */
  ghost predicate Passes(repo: map<Path, Workflow>, w: Workflow, depth: nat, stack: seq<Path>, c: Key) {
    IsCall(w, c) ==>
      && Makeable(repo, w, c, depth, stack) && ClearBefore(repo, w, c)
      && CallsFine(repo, Called(repo, w, c), depth + 1, stack + [w[c].call.path])
  }

  /** The call itself can be made, keys aside. */
  ghost predicate Makeable(repo: map<Path, Workflow>, w: Workflow, c: Key, depth: nat, files: seq<Path>)
    requires IsCall(w, c)
  {
    var call := w[c].call;
    && !w[c].matrix && depth < MAX_DEPTH && call.accepted
    && call.path in repo && call.path !in files && repo[call.path] != map[]
  }

  lemma AllPass(repo: map<Path, Workflow>, w: Workflow, depth: nat, stack: seq<Path>)
    ensures CallsFine(repo, w, depth, stack) <==> forall c :: c in w ==> Passes(repo, w, depth, stack, c)
  {
    hide CallsFine, Clashes, ClearBefore;
    CallsFineIs(repo, w, depth, stack);
    ClearInTurn(repo, w);
    if CallsFine(repo, w, depth, stack) {
      forall c | IsCall(w, c) ensures !Clashes(repo, w, c) && Passes(repo, w, depth, stack, c) {
        assert CallBehindFine(repo, w, depth, stack, c);
        assert forall d :: IsCall(w, d) ==> CallBehindFine(repo, w, depth, stack, d) && !Clashes(repo, w, d);
      }
    }
    if forall c :: c in w ==> Passes(repo, w, depth, stack, c) {
      assert forall c :: IsCall(w, c) ==> Passes(repo, w, depth, stack, c);
      forall c | IsCall(w, c) ensures CallBehindFine(repo, w, depth, stack, c) {
      }
    }
  }

  /** The jobs once the calls of done are replaced, and the files read by then. */
  ghost predicate Replaced(repo: map<Path, Workflow>, w: Workflow, unique: set<Path>, p: Progress, done: set<Key>) {
    && (forall x :: x in p.jobs <==> Standing(w, done, x) || exists c :: c in done && KeyedVia(repo, w, c, x))
    && (forall x :: Standing(w, done, x) ==> x in p.jobs && p.jobs[x] == w[x])
    && (forall c, x :: c in done && KeyedVia(repo, w, c, x) ==> x !in w)
    && p.unique == unique + ReadBy(repo, w, done)
  }

  /** A job of the file that is not replaced. */
  ghost predicate Standing(w: Workflow, done: set<Key>, x: Key) {
    x in w && !(IsCall(w, x) && x in done)
  }

  lemma Replacing(repo: map<Path, Workflow>, w: Workflow, unique: set<Path>, p: Progress, done: set<Key>)
    requires Replaced(repo, w, unique, p, done)
    ensures forall x :: x in p.jobs <==> Standing(w, done, x) || exists c :: c in done && KeyedVia(repo, w, c, x)
    ensures forall x :: Standing(w, done, x) ==> x in p.jobs && p.jobs[x] == w[x]
    ensures forall c, x :: c in done && KeyedVia(repo, w, c, x) ==> x !in w
    ensures p.unique == unique + ReadBy(repo, w, done)
  {
    hide KeyedVia, Standing, ReadBy;
  }

  /** The keys in done are those of the file that come before the next one. */
  ghost predicate InTurn(w: Workflow, done: set<Key>, key: Key) {
    key in w && key !in done && done <= w.Keys && forall d :: d in w ==> (d in done <==> Less(d, key))
  }

  /** A key behind the next call is taken now exactly if it is a key of the file, or is behind a
      call that comes earlier: calls that were replaced come before all keys behind this one. */
  lemma TakenNow(repo: map<Path, Workflow>, w: Workflow, unique: set<Path>, p: Progress, done: set<Key>, key: Key,
      x: Key)
    requires Replaced(repo, w, unique, p, done) && InTurn(w, done, key) && KeyedVia(repo, w, key, x)
    ensures x in (p.jobs - {key}).Keys <==> x in w || exists d :: Less(d, key) && KeyedVia(repo, w, d, x)
  {
    hide Keyed, Less, Replaced, Prefixed, ReadBy;
    Replacing(repo, w, unique, p, done);
    var y :| Keyed(repo, Called(repo, w, key), y) && x == Prefixed(key, y);
    PrefixedFacts(key, y);
    if Less(x, key) {
      LessAsymmetric(key, x);
    }
    assert x != key && (x in w ==> Standing(w, done, x));
    assert forall d :: KeyedVia(repo, w, d, x) ==> d in w;
  }

  lemma ChildKeys(repo: map<Path, Workflow>, w: Workflow, key: Key, called: Workflow, x: Key)
    requires IsCall(w, key) && w[key].call.path in repo
    requires forall y :: y in called <==> Keyed(repo, Called(repo, w, key), y)
    ensures x in Children(key, w[key], called) <==> KeyedVia(repo, w, key, x)
  {
    hide Keyed, Prefixed, ChildJob;
    ChildrenAre(key, w[key], called);
  }

  /** The check for conflicts passes exactly if the call is clear of what comes before it. */
  lemma InlineExactly(repo: map<Path, Workflow>, w: Workflow, unique: set<Path>, p: Progress, done: set<Key>, key: Key,
      called: Workflow, read: set<Path>)
    requires Replaced(repo, w, unique, p, done) && InTurn(w, done, key) && IsCall(w, key) && w[key].call.path in repo
    requires forall y :: y in called <==> Keyed(repo, Called(repo, w, key), y)
    ensures var r := Inline(key, w[key], called, p.(unique := read));
            if ClearBefore(repo, w, key) then r.Going? else r == Stopped(key, KeyConflict)
  {
    hide Keyed, Less, Replaced, Children, Terminals, KeyedVia, InTurn;
    var children, kept := Children(key, w[key], called), p.jobs - {key};
    forall x ensures x in children <==> KeyedVia(repo, w, key, x) {
      ChildKeys(repo, w, key, called, x);
    }
    forall x | KeyedVia(repo, w, key, x)
      ensures x in kept.Keys <==> x in w || exists d :: Less(d, key) && KeyedVia(repo, w, d, x) {
      TakenNow(repo, w, unique, p, done, key, x);
    }
    assert ClearBefore(repo, w, key) <==> children.Keys * kept.Keys == {} by {
      if !ClearBefore(repo, w, key) {
        var x :| KeyedVia(repo, w, key, x) && (x in w || exists d :: Less(d, key) && KeyedVia(repo, w, d, x));
        assert x in children.Keys * kept.Keys;
      }
      if children.Keys * kept.Keys != {} {
        var x :| x in children.Keys * kept.Keys;
        assert KeyedVia(repo, w, key, x);
      }
    }
  }

  /** A conflict is a clash. */
  lemma NotClear(repo: map<Path, Workflow>, w: Workflow, c: Key)
    requires !ClearBefore(repo, w, c)
    ensures Clashes(repo, w, c)
  {
    hide KeyedVia, Less;
    LessIrreflexive(c);
    var x :| KeyedVia(repo, w, c, x) && (x in w || exists d :: Less(d, c) && KeyedVia(repo, w, d, x));
    assert Taken(repo, w, c, x);
  }

  lemma OneMoreReplaced(repo: map<Path, Workflow>, w: Workflow, unique: set<Path>, p: Progress, done: set<Key>,
      key: Key, called: Workflow, read: set<Path>, q: Progress)
    requires Replaced(repo, w, unique, p, done) && InTurn(w, done, key) && IsCall(w, key) && w[key].call.path in repo
    requires forall y :: y in called <==> Keyed(repo, Called(repo, w, key), y)
    requires ClearBefore(repo, w, key)
    requires Inline(key, w[key], called, p.(unique := read)) == Going(q) && read == p.unique + ReadBy(repo, w, {key})
    ensures Replaced(repo, w, unique, q, done + {key})
  {
    hide Keyed, Less, Children, Terminals, KeyedVia, ReadBy, Replaced, Prefixed;
    Replacing(repo, w, unique, p, done);
    ReadByMore(repo, w, done, {key});
    var children, kept := Children(key, w[key], called), p.jobs - {key};
    forall x ensures x in children <==> KeyedVia(repo, w, key, x) {
      ChildKeys(repo, w, key, called, x);
    }
    InlineIs(key, w[key], called, p.(unique := read));
    assert q.jobs == kept + children && children.Keys * kept.Keys == {};
    forall x ensures x in q.jobs <==>
                       Standing(w, done + {key}, x) || exists c :: c in done + {key} && KeyedVia(repo, w, c, x) {
      assert x in q.jobs <==> KeyedVia(repo, w, key, x) || (x in p.jobs && x != key);
      assert x == key ==> forall c :: c in done ==> !KeyedVia(repo, w, c, x);
      assert Standing(w, done + {key}, x) <==> Standing(w, done, x) && x != key;
    }
    forall x | Standing(w, done + {key}, x) ensures x in q.jobs && q.jobs[x] == w[x] {
      assert Standing(w, done, x);
    }
    ReplacedIs(repo, w, unique, q, done + {key});
  }

  lemma ReplacedIs(repo: map<Path, Workflow>, w: Workflow, unique: set<Path>, p: Progress, done: set<Key>)
    requires forall x :: x in p.jobs <==> Standing(w, done, x) || exists c :: c in done && KeyedVia(repo, w, c, x)
    requires forall x :: Standing(w, done, x) ==> x in p.jobs && p.jobs[x] == w[x]
    requires forall c, x :: c in done && KeyedVia(repo, w, c, x) ==> x !in w
    requires p.unique == unique + ReadBy(repo, w, done)
    ensures Replaced(repo, w, unique, p, done)
  {
    hide KeyedVia, Standing, ReadBy;
  }

  // ------------------------------------------------------------ who is blamed

  lemma {:induction false} SubsetSize<T>(a: set<T>, b: set<T>)
    requires a <= b
    ensures |a| <= |b|
  {
    if a != {} {
      var x :| x in a;
      SubsetSize(a - {x}, b - {x});
    }
  }

  lemma BlamedHere(repo: map<Path, Workflow>, w: Workflow, depth: nat, stack: seq<Path>, unique: set<Path>, c: Key,
      reason: Reason)
    requires IsCall(w, c) && Wrong(repo, w, c, depth, stack, reason)
    ensures Blamed(repo, w, depth, stack, unique, c, reason)
  {
    hide Clashes;
    assert stack + [] == stack && ([] + [c])[0] == c;
    assert WrongBehind(repo, w, depth, stack, c, [], c, reason);
  }

  /** What the calls of the file read, and what it reads through one of them. */
  lemma ReadsMore(repo: map<Path, Workflow>, w: Workflow, done: set<Key>, c: Key)
    requires IsCall(w, c) && w[c].call.path in repo && done <= w.Keys
    ensures ReadBy(repo, w, done) + {w[c].call.path} + AllRead(repo, Called(repo, w, c)) <= AllRead(repo, w)
  {
    hide ReadBy, AllRead;
    ReadByAll(repo, w);
    ReadByOne(repo, w, c);
    ReadByMore(repo, w, done + {c}, w.Keys);
    ReadByMore(repo, w, done, {c});
    assert done + {c} + w.Keys == w.Keys;
  }

  lemma BlamedForFiles(repo: map<Path, Workflow>, w: Workflow, depth: nat, stack: seq<Path>, unique: set<Path>,
      done: set<Key>, c: Key, read: set<Path>)
    requires IsCall(w, c) && w[c].call.path in repo && done <= w.Keys && |read| > MAX_WORKFLOWS
    requires read <= unique + ReadBy(repo, w, done) + {w[c].call.path} + AllRead(repo, Called(repo, w, c))
    ensures Blamed(repo, w, depth, stack, unique, c, TooManyWorkflows)
  {
    hide ReadBy, AllRead;
    ReadsMore(repo, w, done, c);
    SubsetSize(read, unique + AllRead(repo, w));
  }

  /** What is wrong in a file that is called is wrong behind the call. */
  lemma BlamedBehind(repo: map<Path, Workflow>, w: Workflow, depth: nat, stack: seq<Path>, unique: set<Path>,
      done: set<Key>, c: Key, read: set<Path>, job: Key, reason: Reason)
    requires IsCall(w, c) && w[c].call.path in repo && done <= w.Keys
    requires read == unique + ReadBy(repo, w, done) + {w[c].call.path}
    requires Blamed(repo, Called(repo, w, c), depth + 1, stack + [w[c].call.path], read, job, reason)
    ensures Blamed(repo, w, depth, stack, unique, c, reason)
  {
    hide ReadBy, AllRead, WrongBehind;
    if reason.TooManyWorkflows? {
      BlamedForFiles(repo, w, depth, stack, unique, done, c, read + AllRead(repo, Called(repo, w, c)));
    } else {
      var chain, d :| WrongBehind(repo, Called(repo, w, c), depth + 1, stack + [w[c].call.path], job, chain, d, reason);
      WrongOn(repo, w, depth, stack, c, job, chain, d, reason);
    }
  }

  lemma WrongOn(repo: map<Path, Workflow>, w: Workflow, depth: nat, stack: seq<Path>, c: Key, job: Key,
      chain: seq<Key>, d: Key, reason: Reason)
    requires IsCall(w, c) && w[c].call.path in repo
    requires WrongBehind(repo, Called(repo, w, c), depth + 1, stack + [w[c].call.path], job, chain, d, reason)
    ensures WrongBehind(repo, w, depth, stack, c, [c] + chain, d, reason)
  {
    hide Leads, FileAt, FilesOn, Wrong;
    LeadsOn(repo, w, c, chain);
    assert ([c] + chain + [d])[0] == c;
    var files := FilesOn(repo, Called(repo, w, c), chain);
    assert stack + ([w[c].call.path] + files) == stack + [w[c].call.path] + files;
  }

  // --------------------------------------------------------------- main results

  lemma CallerIs(repo: map<Path, Workflow>, w: Workflow, key: Key, depth: nat, stack: seq<Path>, p: Progress)
    requires depth <= MAX_DEPTH && IsCall(w, key) && key in p.jobs && p.jobs[key] == w[key]
    ensures var call := w[key].call; var path := call.path; var read := p.unique + {path};
            var r := ExpandCaller(repo, key, depth, stack, p);
            && (w[key].matrix ==> r == Stopped(key, MatrixCall))
            && (!w[key].matrix && depth >= MAX_DEPTH ==> r == Stopped(key, TooDeep))
            && (!w[key].matrix && depth < MAX_DEPTH ==>
                  && (path !in repo ==> r == Stopped(key, Unresolved))
                  && (path in repo ==>
                        && (path in stack ==> r == Stopped(key, Recursive))
                        && (path !in stack && |read| > MAX_WORKFLOWS ==> r == Stopped(key, TooManyWorkflows))
                        && (path !in stack && |read| <= MAX_WORKFLOWS && !call.accepted ==>
                            r == Stopped(key, Unresolved))
                        && (path !in stack && |read| <= MAX_WORKFLOWS && call.accepted ==>
                              var inner := Expand(repo, repo[path], depth + 1, stack + [path], read);
                              && (inner.Rejected? ==> r == Stopped(key, inner.reason))
                              && (inner.Expanded? ==>
                                    r == if inner.jobs == map[] then Stopped(key, NoJobs)
                                         else Inline(key, w[key], inner.jobs, p.(unique := inner.unique))))))
  {
    hide Expand, Inline;
  }

  /** A caller is replaced exactly if it passes and not too many files have been read. */
  lemma {:induction false} CallerExactly(repo: map<Path, Workflow>, w: Workflow, key: Key, depth: nat, stack: seq<Path>,
      unique: set<Path>, p: Progress, done: set<Key>)
    requires depth <= MAX_DEPTH && Replaced(repo, w, unique, p, done) && InTurn(w, done, key)
    ensures var r := ExpandCaller(repo, key, depth, stack, p);
            && (r.Going? <==> Passes(repo, w, depth, stack, key) && FilesFine(p.unique, ReadBy(repo, w, {key})))
            && (r.Going? ==> Replaced(repo, w, unique, r.progress, done + {key}))
            && (r.Stopped? ==> r.job == key && Blamed(repo, w, depth, stack, unique, key, r.reason))
    decreases MAX_DEPTH - depth, 0, 0
  {
    hide *;
    Turn(repo, w, unique, p, done, key);
    if !IsCall(w, key) {
      NotACaller(repo, w, key, depth, stack, unique, p, done);
    } else {
      CallerIs(repo, w, key, depth, stack, p);
      if Reaches(repo, w, key, depth, stack, p.unique) {
        ReachesFacts(repo, w, key, depth, stack, p.unique);
        var path := w[key].call.path;
        var read := p.unique + {path};
        ExpandExactly(repo, repo[path], depth + 1, stack + [path], read);
        CallerReaches(repo, w, key, depth, stack, unique, p, done,
            Expand(repo, repo[path], depth + 1, stack + [path], read));
      } else {
        CallerRefused(repo, w, key, depth, stack, unique, p, done);
      }
    }
  }

  /** The file of the call is gone into. */
  ghost predicate Reaches(repo: map<Path, Workflow>, w: Workflow, key: Key, depth: nat, stack: seq<Path>,
      read: set<Path>)
    requires IsCall(w, key)
  {
    var call := w[key].call;
    && !w[key].matrix && depth < MAX_DEPTH && call.path in repo && call.path !in stack
    && |read + {call.path}| <= MAX_WORKFLOWS && call.accepted
  }

  lemma ReachesFacts(repo: map<Path, Workflow>, w: Workflow, key: Key, depth: nat, stack: seq<Path>, read: set<Path>)
    requires IsCall(w, key) && Reaches(repo, w, key, depth, stack, read)
    ensures w[key].call.LocalCall? && depth < MAX_DEPTH && w[key].call.path in repo
  {
  }

  lemma Turn(repo: map<Path, Workflow>, w: Workflow, unique: set<Path>, p: Progress, done: set<Key>, key: Key)
    requires Replaced(repo, w, unique, p, done) && InTurn(w, done, key)
    ensures key in w && key in p.jobs && p.jobs[key] == w[key] && IsCall(w, key) == w[key].call.LocalCall?
  {
    hide KeyedVia, ReadBy, Less;
    assert Standing(w, done, key);
  }

  lemma NotACaller(repo: map<Path, Workflow>, w: Workflow, key: Key, depth: nat, stack: seq<Path>, unique: set<Path>,
      p: Progress, done: set<Key>)
    requires depth <= MAX_DEPTH && Replaced(repo, w, unique, p, done) && InTurn(w, done, key) && !IsCall(w, key)
    ensures ExpandCaller(repo, key, depth, stack, p) == Going(p)
    ensures Passes(repo, w, depth, stack, key) && ReadBy(repo, w, {key}) == {} && FilesFine(p.unique, {})
    ensures Replaced(repo, w, unique, p, done + {key})
  {
    hide ReadBy, Less, Keyed, Replaced, Expand, Inline;
    Turn(repo, w, unique, p, done, key);
    Replacing(repo, w, unique, p, done);
    ReadByOne(repo, w, key);
    ReadByMore(repo, w, done, {key});
    assert forall x :: !KeyedVia(repo, w, key, x);
    assert forall x :: Standing(w, done + {key}, x) <==> Standing(w, done, x);
    ReplacedIs(repo, w, unique, p, done + {key});
  }

  lemma CallerRefused(repo: map<Path, Workflow>, w: Workflow, key: Key, depth: nat, stack: seq<Path>, unique: set<Path>,
      p: Progress, done: set<Key>)
    requires depth <= MAX_DEPTH && Replaced(repo, w, unique, p, done) && InTurn(w, done, key) && IsCall(w, key)
    requires !Reaches(repo, w, key, depth, stack, p.unique)
    ensures !(Passes(repo, w, depth, stack, key) && FilesFine(p.unique, ReadBy(repo, w, {key})))
    ensures var r := ExpandCaller(repo, key, depth, stack, p);
            r.Stopped? && r.job == key && Blamed(repo, w, depth, stack, unique, key, r.reason)
  {
    hide ReadBy, AllRead, Less, ClearBefore, CallsFine, Replaced, ExpandCaller, Blamed, Clashes;
    Turn(repo, w, unique, p, done, key);
    Replacing(repo, w, unique, p, done);
    CallerIs(repo, w, key, depth, stack, p);
    ReadByOne(repo, w, key);
    var path := w[key].call.path;
    var r := ExpandCaller(repo, key, depth, stack, p);
    if r.reason.TooManyWorkflows? {
      BlamedForFiles(repo, w, depth, stack, unique, done, key, p.unique + {path});
      SubsetSize(p.unique + {path}, p.unique + ReadBy(repo, w, {key}));
    } else {
      BlamedHere(repo, w, depth, stack, unique, key, r.reason);
    }
  }

  lemma CallerReaches(repo: map<Path, Workflow>, w: Workflow, key: Key, depth: nat, stack: seq<Path>, unique: set<Path>,
      p: Progress, done: set<Key>, inner: Expansion)
    requires depth <= MAX_DEPTH && Replaced(repo, w, unique, p, done) && InTurn(w, done, key) && IsCall(w, key)
    requires Reaches(repo, w, key, depth, stack, p.unique)
    requires var path := w[key].call.path; var read := p.unique + {path};
             && inner == Expand(repo, repo[path], depth + 1, stack + [path], read)
             && Exact(repo, repo[path], depth + 1, stack + [path], read, inner)
    ensures var r := ExpandCaller(repo, key, depth, stack, p);
            && (r.Going? <==> Passes(repo, w, depth, stack, key) && FilesFine(p.unique, ReadBy(repo, w, {key})))
            && (r.Going? ==> Replaced(repo, w, unique, r.progress, done + {key}))
            && (r.Stopped? ==> r.job == key && Blamed(repo, w, depth, stack, unique, key, r.reason))
  {
    hide ReadBy, AllRead, Less, ClearBefore, CallsFine, Replaced, ExpandCaller, Blamed, Clashes, Expand, Inline,
        Keyed, InTurn;
    Turn(repo, w, unique, p, done, key);
    Replacing(repo, w, unique, p, done);
    CallerIs(repo, w, key, depth, stack, p);
    ReadByOne(repo, w, key);
    var path := w[key].call.path;
    var child, read := repo[path], p.unique + {path};
    assert p.unique + ReadBy(repo, w, {key}) == read + AllRead(repo, child);
    if inner.Rejected? {
      assert done <= w.Keys by { Earlier(w, done, key); }
      BlamedBehind(repo, w, depth, stack, unique, done, key, read, inner.job, inner.reason);
      assert AllRead(repo, child) == {} ==> read + AllRead(repo, child) == read;
    } else {
      assert AllRead(repo, child) == {} ==> read + AllRead(repo, child) == read;
      HasJobs(repo, child, depth + 1, stack + [path], inner.jobs);
      if inner.jobs == map[] {
        BlamedHere(repo, w, depth, stack, unique, key, NoJobs);
      } else {
        InlineExactly(repo, w, unique, p, done, key, inner.jobs, inner.unique);
        if ClearBefore(repo, w, key) {
          var q := Inline(key, w[key], inner.jobs, p.(unique := inner.unique)).progress;
          OneMoreReplaced(repo, w, unique, p, done, key, inner.jobs, inner.unique, q);
        } else {
          NotClear(repo, w, key);
          BlamedHere(repo, w, depth, stack, unique, key, KeyConflict);
        }
      }
    }
  }

  lemma Earlier(w: Workflow, done: set<Key>, key: Key)
    requires InTurn(w, done, key)
    ensures done <= w.Keys
  {
    hide Less;
  }

  lemma HasJobs(repo: map<Path, Workflow>, w: Workflow, depth: nat, stack: seq<Path>, jobs: Workflow)
    requires CallsFine(repo, w, depth, stack) && forall x :: x in jobs <==> Keyed(repo, w, x)
    ensures jobs == map[] <==> w == map[]
  {
    hide Keyed, CallsFine;
    if w != map[] {
      SomeKey(repo, w, depth, stack);
    } else {
      forall x ensures x !in jobs {
        NoKey(repo, w, x);
      }
    }
  }

  /** What an expansion is to be. */
  ghost predicate Exact(repo: map<Path, Workflow>, w: Workflow, depth: nat, stack: seq<Path>, unique: set<Path>,
      r: Expansion)
  {
    && (r.Expanded? <==> Admissible(repo, w, depth, stack, unique))
    && (r.Expanded? ==> (forall x :: x in r.jobs <==> Keyed(repo, w, x)) && r.unique == unique + AllRead(repo, w))
    && (r.Rejected? ==> Blamed(repo, w, depth, stack, unique, r.job, r.reason))
  }

  lemma {:induction false} CallersExactly(repo: map<Path, Workflow>, w: Workflow, keys: seq<Key>, depth: nat,
      stack: seq<Path>, unique: set<Path>, p: Progress, done: set<Key>)
    requires depth <= MAX_DEPTH && Replaced(repo, w, unique, p, done)
    requires Ascending(keys) && done !! Elements(keys) && done + Elements(keys) == w.Keys
    requires forall a, b :: a in done && b in keys ==> Less(a, b)
    ensures var r := ExpandCallers(repo, keys, depth, stack, p);
            && (r.Going? <==>
                  && (forall c :: c in keys ==> Passes(repo, w, depth, stack, c))
                  && FilesFine(p.unique, ReadBy(repo, w, Elements(keys))))
            && (r.Going? ==> Replaced(repo, w, unique, r.progress, w.Keys))
            && (r.Stopped? ==> Blamed(repo, w, depth, stack, unique, r.job, r.reason))
    decreases MAX_DEPTH - depth, 0, |keys|
  {
    hide ReadBy, Less, Passes, Replaced, Blamed, ExpandCaller, Ascending;
    if keys == [] {
      assert Elements(keys) == {} && done + {} == done;
      NothingRead(repo, w);
    } else {
      var key, rest := keys[0], keys[1..];
      NextTurn(w, keys, done);
      CallerExactly(repo, w, key, depth, stack, unique, p, done);
      var step := ExpandCaller(repo, key, depth, stack, p);
      ReadByMore(repo, w, {key}, Elements(rest));
      assert Elements(keys) == {key} + Elements(rest) && forall c :: c in keys <==> c == key || c in rest;
      var one, others := ReadBy(repo, w, {key}), ReadBy(repo, w, Elements(rest));
      SubsetSize(p.unique + one, p.unique + (one + others));
      if step.Going? {
        ReadNext(repo, w, unique, p, step.progress, done, key);
        assert p.unique + one + others == p.unique + (one + others);
        CallersExactly(repo, w, rest, depth, stack, unique, step.progress, done + {key});
      }
    }
  }

  lemma NothingRead(repo: map<Path, Workflow>, w: Workflow)
    ensures ReadBy(repo, w, {}) == {}
  {
  }

  lemma ReadNext(repo: map<Path, Workflow>, w: Workflow, unique: set<Path>, p: Progress, q: Progress, done: set<Key>,
      key: Key)
    requires Replaced(repo, w, unique, p, done) && Replaced(repo, w, unique, q, done + {key})
    ensures q.unique == p.unique + ReadBy(repo, w, {key})
  {
    hide ReadBy, KeyedVia, Standing;
    ReadByMore(repo, w, done, {key});
  }

  lemma NextTurn(w: Workflow, keys: seq<Key>, done: set<Key>)
    requires keys != [] && Ascending(keys) && done !! Elements(keys) && done + Elements(keys) == w.Keys
    requires forall a, b :: a in done && b in keys ==> Less(a, b)
    ensures InTurn(w, done, keys[0])
    ensures var key, rest := keys[0], keys[1..];
            && Ascending(rest) && done + {key} !! Elements(rest) && done + {key} + Elements(rest) == w.Keys
            && forall a, b :: a in done + {key} && b in rest ==> Less(a, b)
  {
    hide Less;
    var key, rest := keys[0], keys[1..];
    assert keys == [key] + rest && key in Elements(keys);
    AscendingTail(keys);
    AscendingIs(keys);
    forall b | b in rest ensures Less(key, b) {
      var i :| 0 <= i < |rest| && rest[i] == b;
      assert keys[i + 1] == b;
    }
    forall d | d in w ensures d in done <==> Less(d, key) {
      if d !in done {
        assert d in Elements(keys);
        LessIrreflexive(key);
        if d != key {
          LessAsymmetric(key, d);
        }
      }
    }
  }

  lemma NothingReplaced(repo: map<Path, Workflow>, w: Workflow, unique: set<Path>)
    ensures Replaced(repo, w, unique, Progress(w, map[], unique, map[], map[]), {})
  {
    hide ReadBy, KeyedVia;
    NothingRead(repo, w);
  }

  lemma AllReplaced(repo: map<Path, Workflow>, w: Workflow, unique: set<Path>, p: Progress)
    requires Replaced(repo, w, unique, p, w.Keys)
    ensures p.unique == unique + AllRead(repo, w)
    ensures forall x :: x in RewriteAll(p.jobs, p.replacements) <==> Keyed(repo, w, x)
  {
    hide ReadBy, AllRead, Keyed, RewriteJob;
    ReadByAll(repo, w);
    forall x ensures x in p.jobs <==> Keyed(repo, w, x) {
      KeyedIs(repo, w, x);
      assert forall c :: KeyedVia(repo, w, c, x) ==> c in w.Keys;
    }
  }

  /** Exactly when an expansion succeeds, what jobs it then has, and what is wrong behind the job
      it names when it does not. */
  lemma {:induction false} ExpandExactly(repo: map<Path, Workflow>, w: Workflow, depth: nat, stack: seq<Path>,
      unique: set<Path>)
    requires depth <= MAX_DEPTH
    ensures Exact(repo, w, depth, stack, unique, Expand(repo, w, depth, stack, unique))
    decreases MAX_DEPTH - depth, 1, 0
  {
    hide *;
    var start, keys := Progress(w, map[], unique, map[], map[]), SortSet(w.Keys);
    NothingReplaced(repo, w, unique);
    SortedKeys(w, keys);
    CallersExactly(repo, w, keys, depth, stack, unique, start, {});
    AllPass(repo, w, depth, stack);
    ReadByAll(repo, w);
    ExpandIs(repo, w, depth, stack, unique);
    var r := ExpandCallers(repo, keys, depth, stack, start);
    if r.Going? {
      AllReplaced(repo, w, unique, r.progress);
    }
    ExactIs(repo, w, depth, stack, unique, Expand(repo, w, depth, stack, unique));
  }

  lemma SortedKeys(w: Workflow, keys: seq<Key>)
    requires keys == SortSet(w.Keys)
    ensures Ascending(keys) && {} !! Elements(keys) && {} + Elements(keys) == w.Keys
    ensures (forall k :: k in keys <==> k in w) && Elements(keys) == w.Keys
  {
    hide Ascending;
    assert forall k :: k in keys <==> k in Elements(keys);
  }

  lemma ExpandIs(repo: map<Path, Workflow>, w: Workflow, depth: nat, stack: seq<Path>, unique: set<Path>)
    requires depth <= MAX_DEPTH
    ensures var p := ExpandCallers(repo, SortSet(w.Keys), depth, stack, Progress(w, map[], unique, map[], map[]));
            Expand(repo, w, depth, stack, unique) ==
            if p.Stopped? then Rejected(p.job, p.reason)
            else Expanded(RewriteAll(p.progress.jobs, p.progress.replacements), p.progress.unique)
  {
    hide ExpandCallers, RewriteAll;
  }

  lemma ExactIs(repo: map<Path, Workflow>, w: Workflow, depth: nat, stack: seq<Path>, unique: set<Path>, r: Expansion)
    requires r.Expanded? <==> CallsFine(repo, w, depth, stack) && FilesFine(unique, AllRead(repo, w))
    requires r.Expanded? ==> (forall x :: x in r.jobs <==> Keyed(repo, w, x)) && r.unique == unique + AllRead(repo, w)
    requires r.Rejected? ==> Blamed(repo, w, depth, stack, unique, r.job, r.reason)
    ensures Exact(repo, w, depth, stack, unique, r)
  {
    hide CallsFine, FilesFine, AllRead, Keyed, Blamed;
  }

  /** The expansion of a workflow succeeds exactly if every call that a chain of calls reaches can
      be made and not too many files are read. It then has the jobs that stand for themselves at
      the end of such chains, and has read the files along them; if it is refused, the reason it
      gives is true of a call at or behind the job it names. */
  lemma ExpansionSucceedsExactly(repo: map<Path, Workflow>, w: Workflow, depth: nat, stack: seq<Path>,
      unique: set<Path>)
    requires depth <= MAX_DEPTH
    ensures var r := Expand(repo, w, depth, stack, unique);
            && (r.Expanded? <==> Admissible(repo, w, depth, stack, unique))
            && (r.Expanded? ==> forall x :: x in r.jobs <==> Keyed(repo, w, x))
            && (r.Expanded? ==> r.unique == unique + AllRead(repo, w))
            && (r.Rejected? ==> Blamed(repo, w, depth, stack, unique, r.job, r.reason))
  {
    hide Expand, Admissible, Keyed, AllRead, Blamed;
    ExpandExactly(repo, w, depth, stack, unique);
  }
}
