// What a whole run comes to: the walk never meets an unfinished dependency, a failure
// skips exactly what hangs on it, and the loop over the store computes the walk.
module RunOutcome {
  import opened RunMachine

  // ------------------------------------------------------------ dependencies first

  /** Every dependency of a job is the key of an earlier one, as the discovered order has it. */
  ghost predicate InOrder(jobs: seq<Job>) {
    forall n, d :: 0 <= n < |jobs| && d in jobs[n].deps ==> KeyBefore(jobs, n, d)
  }

  ghost predicate KeyBefore(jobs: seq<Job>, n: nat, d: Key)
    requires n <= |jobs|
  {
    exists i :: 0 <= i < n && jobs[i].key == d
  }

  /** The walk comes to job n in state q. */
  ghost predicate Reaches(w: World, gates: set<Key>, jobs: seq<Job>, i: nat, p: Progress, n: nat, q: Progress)
    requires i <= n <= |jobs| && Recorded(jobs, p.records)
    decreases n - i
  {
    if i == n then p == q
    else
      WalkStep(w, gates, jobs, i, p);
      var r := Advance(w, gates, jobs[i], p);
      r.Next? && Reaches(w, gates, jobs, i + 1, r.state, n, q)
  }

  lemma AdvanceRecordsKey(w: World, gates: set<Key>, job: Job, p: Progress)
    requires job.key in p.records && Advance(w, gates, job, p).Next?
    ensures Advance(w, gates, job, p).state.statuses.Keys == p.statuses.Keys + {job.key}
  {
    hide Decide;
  }

  lemma {:induction false} ReachedKeys(w: World, gates: set<Key>, jobs: seq<Job>, i: nat, p: Progress, n: nat,
      q: Progress)
    requires i <= n <= |jobs| && Recorded(jobs, p.records) && Reaches(w, gates, jobs, i, p, n, q)
    requires forall d :: d in p.statuses <==> KeyBefore(jobs, i, d)
    ensures Recorded(jobs, q.records)
    ensures forall d :: d in q.statuses <==> KeyBefore(jobs, n, d)
    decreases n - i
  {
    hide Advance, KeyBefore, Recorded;
    if i < n {
      WalkStep(w, gates, jobs, i, p);
      AdvanceRecordsKey(w, gates, jobs[i], p);
      var r := Advance(w, gates, jobs[i], p).state;
      forall d ensures d in r.statuses <==> KeyBefore(jobs, i + 1, d) {
        OneMoreKey(jobs, i, d);
      }
      ReachedKeys(w, gates, jobs, i + 1, r, n, q);
    }
  }

  lemma OneMoreKey(jobs: seq<Job>, i: nat, d: Key)
    requires i < |jobs|
    ensures KeyBefore(jobs, i + 1, d) <==> KeyBefore(jobs, i, d) || d == jobs[i].key
  {
  }

  /** Whatever the store holds and whatever is gated, no job the walk comes to is told that a
      required job has not completed. */
  lemma NothingUnfinished(w: World, gates: set<Key>, jobs: seq<Job>, records: map<Key, Record>, n: nat, q: Progress,
                          record: Record, allow: bool, allowed: map<Key, bool>)
    requires n < |jobs| && Recorded(jobs, records) && InOrder(jobs)
    requires Reaches(w, gates, jobs, 0, Progress(records, map[], map[]), n, q)
    ensures Ready(jobs[n].deps, q.statuses)
    ensures var d := Decide(w, jobs[n], record, allow, q.statuses, allowed); d.Skip? ==> !d.missing
  {
    hide ContractHolds, DecideRules, ViewOf;
    var p := Progress(records, map[], map[]);
    assert forall d :: d in p.statuses <==> KeyBefore(jobs, 0, d);
    ReachedKeys(w, gates, jobs, 0, p, n, q);
    forall d | d in jobs[n].deps ensures d in q.statuses {
      assert KeyBefore(jobs, n, d);
    }
    if jobs[n].semantics.Frozen? {
      RulesWithRecord(w, jobs[n], jobs[n].semantics.rules, record, allow, ViewOf(jobs[n], q.statuses, allowed));
      RulesNeverMissing(w, jobs[n].semantics.rules, record, allow, ViewOf(jobs[n], q.statuses, allowed));
    }
  }

  lemma {:induction false} RulesNeverMissing(w: World, rules: seq<Rule>, record: Record, allow: bool, view: View)
    ensures var d := DecideRules(w, rules, record, allow, view); d.Skip? ==> !d.missing
  {
    if rules != [] {
      RulesNeverMissing(w, rules[1..], record, allow, view);
    }
  }

  // ------------------------------------------------------------- which rule decides

  /** A rule that is passed over: its condition can be evaluated and does not hold. */
  predicate PassedOver(w: World, rule: Rule, view: View) {
    !rule.filesystem && !ContractHolds(w, rule.condition, view) &&
        (rule.condition.expression == "" || rule.condition.evaluable)
  }

  /** The first rule that is not passed over decides, whatever comes behind it; if there is
      none the job is skipped. */
  lemma {:induction false} FirstRuleDecides(w: World, rules: seq<Rule>, record: Record, allow: bool, view: View)
    ensures (forall i :: 0 <= i < |rules| ==> PassedOver(w, rules[i], view)) ==>
              DecideRules(w, rules, record, allow, view) == Skip(allow, false)
    ensures forall n ::
              0 <= n < |rules| && !PassedOver(w, rules[n], view) &&
              (forall i :: 0 <= i < n ==> PassedOver(w, rules[i], view)) ==>
              DecideRules(w, rules, record, allow, view) == DecideRules(w, [rules[n]], record, allow, view)
  {
    hide ContractHolds;
    if rules != [] {
      FirstRuleDecides(w, rules[1..], record, allow, view);
      if PassedOver(w, rules[0], view) {
        assert DecideRules(w, rules, record, allow, view) == DecideRules(w, rules[1..], record, allow, view);
        forall n | 0 < n < |rules| && !PassedOver(w, rules[n], view) &&
            (forall i :: 0 <= i < n ==> PassedOver(w, rules[i], view))
          ensures DecideRules(w, rules, record, allow, view) == DecideRules(w, [rules[n]], record, allow, view)
        {
          assert rules[1..][n - 1] == rules[n];
          assert forall i :: 0 <= i < n - 1 ==> rules[1..][i] == rules[i + 1];
        }
        if forall i :: 0 <= i < |rules| ==> PassedOver(w, rules[i], view) {
          assert forall i :: 0 <= i < |rules[1..]| ==> rules[1..][i] == rules[i + 1];
        }
      } else {
        assert [rules[0]][1..] == [];
      }
    }
  }

  /** No condition of the job names a status function. */
  predicate NamesNoStatus(job: Job) {
    job.semantics.Frozen? ==>
      && !UsesStatusFunction(job.semantics.condition.expression)
      && forall r :: r in job.semantics.rules ==> !UsesStatusFunction(r.condition.expression)
  }

  /** Such a job starts, or is held, only when every dependency lets it pass. */
  lemma StartsOnlyAfterSuccess(w: World, job: Job, record: Record, allow: bool, statuses: map<Key, Status>,
      allowed: map<Key, bool>)
    requires NamesNoStatus(job) && !Decide(w, job, record, allow, statuses, allowed).Skip?
    ensures forall d :: d in job.deps ==> Passes(d, statuses, allowed, OptionalNeeds(job))
  {
    hide UsesStatusFunction, DecideRules, Passes;
  }

  // --------------------------------------------------------- what a failure skips

  /** A job with the default condition: no condition of its own, no rules, nothing manual. */
  predicate Plain(job: Job) {
    match job.semantics
    case Absent => true
    case Invalid => false
    case Frozen(condition, _, rules, refsAdmit, when, _) =>
      condition == Contract("", true) && rules == [] && refsAdmit && when == Always
  }

  ghost predicate AllPlain(jobs: seq<Job>) {
    forall i :: 0 <= i < |jobs| ==> Plain(jobs[i])
  }

  lemma PlainDecides(w: World, job: Job, statuses: map<Key, Status>, allowed: map<Key, bool>)
    requires Plain(job) && Ready(job.deps, statuses)
    ensures Decide(w, job, FRESH, job.allowFailure, statuses, allowed) ==
            if Successful(job.deps, statuses, allowed, OptionalNeeds(job)) then Run(job.allowFailure)
                else Skip(job.allowFailure, false)
  {
  }

  lemma PlainIsStable(job: Job)
    requires Plain(job)
    ensures Stable(job)
  {
  }

  /** The outcome of job i in a settled state. */
  ghost predicate SettledAs(w: World, job: Job, s: Ideal) {
    var outcome := w.execute(job.key);
    && job.key in s.statuses && job.key in s.allowed
    && if Successful(job.deps, s.statuses, s.allowed, OptionalNeeds(job)) then
         && s.statuses[job.key] == (if outcome.failed then Failed else Succeeded)
         && s.allowed[job.key] == FailureAllowed(job, job.allowFailure, outcome.failed, outcome.exitCode)
       else s.statuses[job.key] == Skipped
  }

  /** Later jobs leave what a job saw as it was. */
  lemma SettledLater(w: World, job: Job, s: Ideal, k: Key, status: Status, allow: bool)
    requires SettledAs(w, job, s) && k != job.key && k !in job.deps
    ensures SettledAs(w, job, Ideal(s.statuses[k := status], s.allowed[k := allow]))
  {
    var t := Ideal(s.statuses[k := status], s.allowed[k := allow]);
    var optional := OptionalNeeds(job);
    assert forall d :: d in job.deps ==>
        Passes(d, s.statuses, s.allowed, optional) == Passes(d, t.statuses, t.allowed, optional);
  }

  lemma JustSettled(w: World, job: Job, s: Ideal) returns (status: Status, allow: bool)
    requires Plain(job) && Ready(job.deps, s.statuses) && job.key !in job.deps
    ensures SettledAs(w, job, IdealAdvance(w, job, s))
    ensures IdealAdvance(w, job, s) == Ideal(s.statuses[job.key := status], s.allowed[job.key := allow])
  {
    hide Decide;
    PlainDecides(w, job, s.statuses, s.allowed);
    var t := IdealAdvance(w, job, s);
    var optional := OptionalNeeds(job);
    status, allow := t.statuses[job.key], t.allowed[job.key];
    assert forall d :: d in job.deps ==>
        Passes(d, s.statuses, s.allowed, optional) == Passes(d, t.statuses, t.allowed, optional);
  }

  lemma {:induction false} AllSettled(w: World, jobs: seq<Job>, n: nat)
    requires n <= |jobs| && DistinctKeys(jobs) && InOrder(jobs) && AllPlain(jobs)
    ensures var s := IdealAfter(w, jobs, n);
            && (forall d :: d in s.statuses <==> KeyBefore(jobs, n, d))
            && forall i :: 0 <= i < n ==> SettledAs(w, jobs[i], s)
  {
    hide SettledAs, IdealAdvance, Plain, Ready;
    if n > 0 {
      var job, s := jobs[n - 1], IdealAfter(w, jobs, n - 1);
      AllSettled(w, jobs, n - 1);
      assert Ready(job.deps, s.statuses) by { ReadyInOrder(jobs, n - 1, s.statuses); }
      NotItsOwn(jobs, n - 1);
      var status, allow := JustSettled(w, job, s);
      forall i | 0 <= i < n - 1 ensures SettledAs(w, jobs[i], IdealAfter(w, jobs, n)) {
        NotItsLater(jobs, i, n - 1);
        SettledLater(w, jobs[i], s, job.key, status, allow);
      }
      forall d ensures d in IdealAfter(w, jobs, n).statuses <==> KeyBefore(jobs, n, d) {
        assert KeyBefore(jobs, n - 1, d) ==> KeyBefore(jobs, n, d);
      }
    }
  }

  lemma ReadyInOrder(jobs: seq<Job>, n: nat, statuses: map<Key, Status>)
    requires n < |jobs| && InOrder(jobs) && forall d :: d in statuses <==> KeyBefore(jobs, n, d)
    ensures Ready(jobs[n].deps, statuses)
  {
    hide KeyBefore;
  }

  lemma NotItsOwn(jobs: seq<Job>, n: nat)
    requires n < |jobs| && InOrder(jobs) && DistinctKeys(jobs)
    ensures jobs[n].key !in jobs[n].deps
  {
    NotItsLater(jobs, n, n);
  }

  lemma NotItsLater(jobs: seq<Job>, i: nat, n: nat)
    requires i <= n < |jobs| && InOrder(jobs) && DistinctKeys(jobs)
    ensures jobs[n].key !in jobs[i].deps && (i < n ==> jobs[n].key != jobs[i].key)
  {
    assert jobs[n].key in jobs[i].deps ==> KeyBefore(jobs, i, jobs[n].key);
  }

  /** A failure that is not allowed. */
  predicate BadFailure(job: Job, s: Ideal) {
    job.key in s.statuses && s.statuses[job.key] == Failed && !(job.key in s.allowed && s.allowed[job.key])
  }

  predicate IsSkipped(job: Job, s: Ideal) {
    job.key in s.statuses && s.statuses[job.key] == Skipped
  }

  /** Dependencies from a bad failure down to a job, none of them optional after the first. */
  ghost predicate Chain(jobs: seq<Job>, s: Ideal, path: seq<nat>) {
    && |path| >= 2 && path[0] < |jobs| && BadFailure(jobs[path[0]], s)
    && forall j :: 0 < j < |path| ==> LinkAt(jobs, path, j)
  }

  ghost predicate LinkAt(jobs: seq<Job>, path: seq<nat>, j: nat)
    requires 0 < j < |path|
  {
    path[j - 1] < |jobs| && path[j] < |jobs| && Link(jobs, path[j - 1], path[j], j > 1)
  }

  ghost predicate Link(jobs: seq<Job>, from: nat, to: nat, needed: bool)
    requires from < |jobs| && to < |jobs|
  {
    jobs[from].key in jobs[to].deps && (needed ==> jobs[from].key !in OptionalNeeds(jobs[to]))
  }

  ghost predicate HangsOnFailure(jobs: seq<Job>, s: Ideal, n: nat) {
    exists path :: Chain(jobs, s, path) && path[|path| - 1] == n
  }

  lemma SkippedAsSettled(w: World, job: Job, s: Ideal)
    requires SettledAs(w, job, s)
    ensures IsSkipped(job, s) <==> !Successful(job.deps, s.statuses, s.allowed, OptionalNeeds(job))
  {
  }

  /** What holds a plain job back: a bad failure, or a skipped job it does not need optionally. */
  lemma HeldBackBy(w: World, jobs: seq<Job>, s: Ideal, n: nat) returns (m: nat)
    requires n < |jobs| && InOrder(jobs) && (forall i :: 0 <= i < |jobs| ==> SettledAs(w, jobs[i], s))
    requires !Successful(jobs[n].deps, s.statuses, s.allowed, OptionalNeeds(jobs[n]))
    ensures m < n && Link(jobs, m, n, false)
    ensures BadFailure(jobs[m], s) || (IsSkipped(jobs[m], s) && Link(jobs, m, n, true))
  {
    hide SettledAs;
    var d :| d in jobs[n].deps && !Passes(d, s.statuses, s.allowed, OptionalNeeds(jobs[n]));
    assert KeyBefore(jobs, n, d);
    m :| 0 <= m < n && jobs[m].key == d;
    SkippedAsSettled(w, jobs[m], s);
    SettledStatus(w, jobs[m], s);
  }

  lemma SettledStatus(w: World, job: Job, s: Ideal)
    requires SettledAs(w, job, s)
    ensures job.key in s.statuses && job.key in s.allowed
    ensures var status := s.statuses[job.key]; status == Failed || status == Succeeded || status == Skipped
  {
  }

  lemma {:induction false} SkippedHangs(w: World, jobs: seq<Job>, s: Ideal, n: nat)
    requires n < |jobs| && InOrder(jobs) && (forall i :: 0 <= i < |jobs| ==> SettledAs(w, jobs[i], s))
    requires IsSkipped(jobs[n], s)
    ensures HangsOnFailure(jobs, s, n)
  {
    hide SettledAs, BadFailure, Link;
    SkippedAsSettled(w, jobs[n], s);
    var m := HeldBackBy(w, jobs, s, n);
    if BadFailure(jobs[m], s) {
      assert Chain(jobs, s, [m, n]);
    } else {
      SkippedHangs(w, jobs, s, m);
      var path :| Chain(jobs, s, path) && path[|path| - 1] == m;
      assert m < |jobs|;
      Extended(jobs, s, path, n);
    }
  }

  lemma Extended(jobs: seq<Job>, s: Ideal, path: seq<nat>, n: nat)
    requires n < |jobs| && Chain(jobs, s, path)
    requires path[|path| - 1] < |jobs| && Link(jobs, path[|path| - 1], n, true)
    ensures HangsOnFailure(jobs, s, n)
  {
    hide BadFailure, Link;
    var longer := path + [n];
    assert Chain(jobs, s, longer) by {
      forall j | 0 < j < |longer| ensures LinkAt(jobs, longer, j) {
        assert j < |path| ==> LinkAt(jobs, path, j);
      }
    }
  }

  lemma {:induction false} ChainSkips(w: World, jobs: seq<Job>, s: Ideal, path: seq<nat>, j: nat)
    requires forall i :: 0 <= i < |jobs| ==> SettledAs(w, jobs[i], s)
    requires Chain(jobs, s, path) && 0 < j < |path|
    ensures path[j] < |jobs| && IsSkipped(jobs[path[j]], s)
  {
    hide SettledAs;
    assert LinkAt(jobs, path, j);
    var job, d := jobs[path[j]], jobs[path[j - 1]].key;
    SkippedAsSettled(w, job, s);
    SettledStatus(w, jobs[path[j - 1]], s);
    if j > 1 {
      ChainSkips(w, jobs, s, path, j - 1);
    }
    assert !Passes(d, s.statuses, s.allowed, OptionalNeeds(job));
  }

  /** With default conditions, a job is skipped exactly when dependencies lead to it from a
      failure that is not allowed, none of them optional but perhaps the first; every other
      job ran; and the run succeeds exactly when no executed job failed without leave. */
  lemma FailureSkipsWhatHangsOnIt(w: World, rounds: seq<Round>, jobs: seq<Job>, records: map<Key, Record>)
    requires rounds != [] && DistinctKeys(jobs) && InOrder(jobs) && AllPlain(jobs) && AllFresh(jobs, records)
    requires Drive(w, rounds, jobs, records).Finished?
    ensures var e := Drive(w, rounds, jobs, records);
        var s := Ideal(e.state.statuses, IdealAfter(w, jobs, |jobs|).allowed);
            && (forall n :: 0 <= n < |jobs| ==> SettledAs(w, jobs[n], s))
            && (forall n :: 0 <= n < |jobs| ==> (IsSkipped(jobs[n], s) <==> HangsOnFailure(jobs, s, n)))
            && (e.success <==> forall n :: 0 <= n < |jobs| ==> !BadFailure(jobs[n], s))
  {
    hide SettledAs, AllPlain, InOrder, AllFresh, DistinctKeys, AllStable, IdealAfter, Drive, Remembers;
    AllPlainStable(jobs);
    StableRemembers(w, jobs);
    PausesAreTransparent(w, rounds, jobs, records);
    AllSettled(w, jobs, |jobs|);
    var s := IdealAfter(w, jobs, |jobs|);
    forall n | 0 <= n < |jobs| ensures IsSkipped(jobs[n], s) <==> HangsOnFailure(jobs, s, n) {
      if IsSkipped(jobs[n], s) {
        SkippedHangs(w, jobs, s, n);
      }
      if HangsOnFailure(jobs, s, n) {
        var path :| Chain(jobs, s, path) && path[|path| - 1] == n;
        ChainSkips(w, jobs, s, path, |path| - 1);
      }
    }
    SuccessMeansNoBadFailure(w, jobs, s);
  }

  lemma AllPlainStable(jobs: seq<Job>)
    requires AllPlain(jobs)
    ensures AllStable(jobs)
  {
    forall i | 0 <= i < |jobs| ensures Stable(jobs[i]) {
      PlainIsStable(jobs[i]);
    }
  }

  lemma SuccessMeansNoBadFailure(w: World, jobs: seq<Job>, s: Ideal)
    requires forall d :: d in s.statuses <==> KeyBefore(jobs, |jobs|, d)
    requires forall n :: 0 <= n < |jobs| ==> SettledAs(w, jobs[n], s)
    ensures NoBadFailure(s.statuses, s.allowed) <==> forall n :: 0 <= n < |jobs| ==> !BadFailure(jobs[n], s)
  {
    hide SettledAs;
  }
}
