// What the conditions, rules and `when` of a job mean for its record: over whole histories, a
// job is executed, held or skipped exactly as they say.
module RunVerdicts {
  import opened RunMachine
  import opened RunOutcome

  datatype Verdict = Skips | Holds(blocking: bool) | Starts(allowFailure: bool)

  // ------------------------------------------------------------- what is said

  /** The first rule that is not passed over. */
  ghost predicate FirstLive(w: World, rules: seq<Rule>, view: View, n: nat) {
    n < |rules| && !PassedOver(w, rules[n], view) && forall i :: 0 <= i < n ==> PassedOver(w, rules[i], view)
  }

  ghost predicate AnyLive(w: World, rules: seq<Rule>, view: View) {
    exists n: nat :: FirstLive(w, rules, view, n)
  }

  ghost function TheLive(w: World, rules: seq<Rule>, view: View): (n: nat)
    requires AnyLive(w, rules, view)
    ensures FirstLive(w, rules, view, n)
  {
    var n: nat :| FirstLive(w, rules, view, n); n
  }

  /** A `when`, with the leave to fail that comes with it. */
  function Timed(when: When, held: bool, started: bool): Verdict {
    match when
    case ByHand => Holds(!held)
    case Always => Starts(started)
    case Never => Skips
    case Delayed => Skips
  }

  /** A rule that is not passed over: tests of files and conditions that cannot be evaluated skip. */
  ghost function RuleSays(w: World, job: Job, rule: Rule, view: View): Verdict {
    if rule.filesystem || !ContractHolds(w, rule.condition, view) then Skips
    else Timed(rule.when, rule.allowFailure, job.allowFailure || rule.allowFailure)
  }

  /** What the frozen semantics of a job say, given what its dependencies came to. */
  ghost function Says(w: World, job: Job, view: View): Verdict {
    match job.semantics
    case Invalid => Skips
    case Absent => if view.success then Starts(job.allowFailure) else Skips
    case Frozen(condition, _, rules, refsAdmit, when, _) =>
      if !ContractHolds(w, condition, view) then Skips
      else if rules != [] then
        if AnyLive(w, rules, view) then RuleSays(w, job, rules[TheLive(w, rules, view)], view) else Skips
      else if !refsAdmit then Skips
      else Timed(when, job.allowFailure, job.allowFailure)
  }

  /** It does not matter how the rule is found. */
  lemma TheLiveIs(w: World, rules: seq<Rule>, view: View, n: nat)
    requires FirstLive(w, rules, view, n)
    ensures AnyLive(w, rules, view) && TheLive(w, rules, view) == n
  {
    hide PassedOver;
  }

  lemma FirstLiveDecides(w: World, rules: seq<Rule>, record: Record, allow: bool, view: View, n: nat)
    requires FirstLive(w, rules, view, n)
    ensures var rule := rules[n];
            DecideRules(w, rules, record, allow, view) ==
            if rule.filesystem || !ContractHolds(w, rule.condition, view) then Skip(allow, false)
            else
              match rule.when
              case ByHand => Played(record, rule.allowFailure, !rule.allowFailure)
              case Always => Run(allow || rule.allowFailure)
              case Never => Skip(allow, false)
              case Delayed => Skip(allow, false)
  {
    hide ContractHolds;
    FirstRuleDecides(w, rules, record, allow, view);
    assert [rules[n]][1..] == [];
  }

  lemma NoneLive(w: World, rules: seq<Rule>, record: Record, allow: bool, view: View)
    requires !AnyLive(w, rules, view)
    ensures DecideRules(w, rules, record, allow, view) == Skip(allow, false)
  {
    hide DecideRules, PassedOver;
    FirstRuleDecides(w, rules, record, allow, view);
    if m: nat :| m < |rules| && !PassedOver(w, rules[m], view) {
      var n := EarliestLive(w, rules, view, m);
      assert FirstLive(w, rules, view, n);
    }
  }

  lemma {:induction false} EarliestLive(w: World, rules: seq<Rule>, view: View, m: nat) returns (n: nat)
    requires m < |rules| && !PassedOver(w, rules[m], view)
    ensures FirstLive(w, rules, view, n)
  {
    hide PassedOver;
    if i: nat :| i < m && !PassedOver(w, rules[i], view) {
      n := EarliestLive(w, rules, view, i);
    } else {
      n := m;
    }
  }

  /** Carrying a verdict out on a record; allow is the leave to fail as the walk sees it. */
  function Decided(v: Verdict, record: Record, allow: bool): Decision {
    match v
    case Skips => Skip(allow, false)
    case Starts(a) => Run(a)
    case Holds(blocking) => Played(record, !blocking, blocking)
  }

  /** The decision of a job that was not held before is the verdict of its semantics. */
  lemma DecidesAsSaid(w: World, job: Job, record: Record, statuses: map<Key, Status>, allowed: map<Key, bool>)
    requires Ready(job.deps, statuses)
    ensures Decide(w, job, record, job.allowFailure, statuses, allowed) ==
            Decided(Says(w, job, ViewOf(job, statuses, allowed)), record, job.allowFailure)
  {
    hide ContractHolds, DecideRules, ViewOf, AnyLive, Ready;
    var view := ViewOf(job, statuses, allowed);
    if job.semantics.Frozen? {
      var rules := job.semantics.rules;
      if AnyLive(w, rules, view) {
        FirstLiveDecides(w, rules, record, job.allowFailure, view, TheLive(w, rules, view));
      } else {
        NoneLive(w, rules, record, job.allowFailure, view);
      }
    }
  }

  /** Whatever leave to fail the walk sees, the kind of decision is the kind of verdict. */
  lemma DecidesInKind(w: World, job: Job, record: Record, allow: bool, statuses: map<Key, Status>,
      allowed: map<Key, bool>)
    requires Ready(job.deps, statuses)
    ensures var d := Decide(w, job, record, allow, statuses, allowed);
            var v := Says(w, job, ViewOf(job, statuses, allowed));
            && (d.Skip? <==> v.Skips?)
            && (d.Hold? <==> v.Holds? && !record.played)
            && (d.Run? <==> v.Starts? || (v.Holds? && record.played))
  {
    hide ContractHolds, DecideRules, ViewOf, AnyLive, Ready;
    var view := ViewOf(job, statuses, allowed);
    if job.semantics.Frozen? {
      var rules := job.semantics.rules;
      if AnyLive(w, rules, view) {
        FirstLiveDecides(w, rules, record, allow, view, TheLive(w, rules, view));
      } else {
        NoneLive(w, rules, record, allow, view);
      }
    }
  }

  /** A job is told that a required job has not completed exactly if one has no status yet. */
  lemma MissingExactly(w: World, job: Job, record: Record, allow: bool, statuses: map<Key, Status>,
      allowed: map<Key, bool>)
    ensures var d := Decide(w, job, record, allow, statuses, allowed);
            (d.Skip? && d.missing) <==> !job.semantics.Invalid? && exists k :: k in job.deps && k !in statuses
  {
    hide ContractHolds, ViewOf, OptionalNeeds, DecideRules;
    if job.semantics.Frozen? {
      NeverMissing(w, job.semantics.rules, record, allow, ViewOf(job, statuses, allowed));
    }
  }

  lemma {:induction false} NeverMissing(w: World, rules: seq<Rule>, record: Record, allow: bool, view: View)
    ensures var d := DecideRules(w, rules, record, allow, view); d.Skip? ==> !d.missing
  {
    hide ContractHolds;
    if rules != [] {
      NeverMissing(w, rules[1..], record, allow, view);
    }
  }

  /** The run gave the dependency leave to fail, or not to be played. */
  predicate Leave(d: Key, allowed: map<Key, bool>) {
    d in allowed && allowed[d]
  }

  /** What a job finds: a failure is a dependency that failed without leave; success is that
      each succeeded, failed or stayed held with leave, or was skipped and is optional. */
  lemma FoundExactly(job: Job, statuses: map<Key, Status>, allowed: map<Key, bool>)
    ensures var view := ViewOf(job, statuses, allowed);
            && (view.failure <==> exists d ::
                d in job.deps && d in statuses && statuses[d] == Failed && !Leave(d, allowed))
            && (view.success <==> forall d :: d in job.deps ==>
                  d in statuses && match statuses[d]
                                   case Succeeded => true
                                   case Failed => Leave(d, allowed)
                                   case ManualHold => Leave(d, allowed)
                                   case Skipped => d in OptionalNeeds(job)
                                   case _ => false)
            && !(view.success && view.failure)
  {
    hide OptionalNeeds;
  }

  // ------------------------------------------------------- why a record is as it is

  /** What the job can find of its dependencies when it is decided on. */
  ghost predicate Possible(job: Job, view: View) {
    exists statuses, allowed :: Ready(job.deps, statuses) && view == ViewOf(job, statuses, allowed)
  }

  ghost predicate SaysAt(w: World, job: Job, view: View, v: Verdict) {
    Possible(job, view) && Says(w, job, view) == v
  }

  ghost predicate MayStart(w: World, job: Job) {
    exists view, allow :: SaysAt(w, job, view, Starts(allow))
  }

  ghost predicate MayHold(w: World, job: Job) {
    exists view, blocking :: SaysAt(w, job, view, Holds(blocking))
  }

  ghost predicate MaySkip(w: World, job: Job) {
    (exists view :: SaysAt(w, job, view, Skips)) || exists statuses :: !Ready(job.deps, statuses)
  }

  /** A record came about as the semantics of its job say: an attempt was started, or played
      after a hold; a hold was asked for; a skip was called for, and left no attempt. */
  ghost predicate Explained(w: World, job: Job, r: Record) {
    && (r.status == Succeeded || r.status == Failed <==> r.attempt.Some?)
    && (r.attempt.Some? ==> MayStart(w, job) || (MayHold(w, job) && r.played))
    && (r.played ==> r.blocking.Some?) && (r.status == ManualHold ==> r.blocking.Some?)
    && (r.blocking.Some? ==> MayHold(w, job))
    && (r.status == Skipped ==> MaySkip(w, job))
  }

  ghost predicate AllExplained(w: World, jobs: seq<Job>, records: map<Key, Record>) {
    Recorded(jobs, records) && forall i :: 0 <= i < |jobs| ==> Explained(w, jobs[i], records[jobs[i].key])
  }

  lemma DecisionExplained(w: World, job: Job, record: Record, allow: bool, statuses: map<Key, Status>,
      allowed: map<Key, bool>)
    ensures var d := Decide(w, job, record, allow, statuses, allowed);
            && (d.Run? ==> MayStart(w, job) || (MayHold(w, job) && record.played))
            && (d.Hold? ==> MayHold(w, job) && !record.played)
            && (d.Skip? ==> MaySkip(w, job))
  {
    hide ContractHolds, DecideRules, ViewOf, Ready, Says;
    if Ready(job.deps, statuses) {
      DecidesInKind(w, job, record, allow, statuses, allowed);
      var view := ViewOf(job, statuses, allowed);
      assert Possible(job, view);
      assert SaysAt(w, job, view, Says(w, job, view));
    } else {
      NotReadySkips(w, job, record, allow, statuses, allowed);
    }
  }

  lemma NotReadySkips(w: World, job: Job, record: Record, allow: bool, statuses: map<Key, Status>,
      allowed: map<Key, bool>)
    requires !Ready(job.deps, statuses)
    ensures Decide(w, job, record, allow, statuses, allowed).Skip?
  {
    hide Ready;
  }

  lemma AdvanceExplained(w: World, gates: set<Key>, job: Job, p: Progress)
    requires job.key in p.records && Explained(w, job, p.records[job.key])
    ensures var r := Advance(w, gates, job, p);
            job.key in r.state.records && Explained(w, job, r.state.records[job.key])
    ensures var r := Advance(w, gates, job, p);
            r.Next? ==> Settled(r.state.records[job.key].status) && job.key in r.state.statuses
                        && r.state.statuses[job.key] == r.state.records[job.key].status
  {
    hide Decide, MayStart, MayHold, MaySkip, PersistedAllowed, FailureAllowed;
    var record := p.records[job.key];
    var held := record.blocking.Some?;
    var allow := if held then !record.blocking.value else job.allowFailure;
    var allowed := p.allowed[job.key := if held then !record.blocking.value else PersistedAllowed(job, record)];
    DecisionExplained(w, job, record, allow, p.statuses, allowed);
  }

  predicate Settled(status: Status) {
    Terminal(status) || status == ManualHold
  }

  lemma OthersStay(w: World, gates: set<Key>, job: Job, p: Progress, k: Key)
    requires job.key in p.records && k != job.key
    ensures var r := Advance(w, gates, job, p).state;
            && (k in r.records <==> k in p.records) && (k in p.records ==> r.records[k] == p.records[k])
            && (k in r.statuses <==> k in p.statuses) && (k in p.statuses ==> r.statuses[k] == p.statuses[k])
  {
    hide Decide;
  }

  /** The status the walk knows of a job it has passed is that of the record. */
  ghost predicate Known(jobs: seq<Job>, p: Progress, i: nat) {
    && i < |jobs| && jobs[i].key in p.records && jobs[i].key in p.statuses
    && p.statuses[jobs[i].key] == p.records[jobs[i].key].status && Settled(p.records[jobs[i].key].status)
  }

  lemma StepExplained(w: World, gates: set<Key>, jobs: seq<Job>, i: nat, p: Progress)
    requires i < |jobs| && DistinctKeys(jobs) && AllExplained(w, jobs, p.records)
    requires forall j: nat :: j < i ==> Known(jobs, p, j)
    ensures var r := Advance(w, gates, jobs[i], p);
            && AllExplained(w, jobs, r.state.records) && (forall j: nat :: j < i ==> Known(jobs, r.state, j))
            && (r.Next? ==> Known(jobs, r.state, i))
  {
    hide Advance, Explained, Settled;
    AdvanceExplained(w, gates, jobs[i], p);
    var r := Advance(w, gates, jobs[i], p).state;
    forall j: nat | j < |jobs| && j != i
      ensures jobs[j].key in r.records && r.records[jobs[j].key] == p.records[jobs[j].key] {
      OthersStay(w, gates, jobs[i], p, jobs[j].key);
    }
    forall j: nat | j < i ensures Known(jobs, r, j) {
      assert Known(jobs, p, j) && jobs[j].key != jobs[i].key;
      OthersStay(w, gates, jobs[i], p, jobs[j].key);
    }
  }

  lemma {:induction false} WalkExplained(w: World, gates: set<Key>, jobs: seq<Job>, i: nat, p: Progress)
    requires i <= |jobs| && DistinctKeys(jobs) && AllExplained(w, jobs, p.records)
    requires forall j: nat :: j < i ==> Known(jobs, p, j)
    ensures Recorded(jobs, p.records)
    ensures var e := Walk(w, gates, jobs, i, p);
            AllExplained(w, jobs, e.state.records) &&
                (e.Finished? ==> forall j: nat :: j < |jobs| ==> Known(jobs, e.state, j))
    decreases |jobs| - i
  {
    hide Advance, Walk, Explained, DistinctKeys, Known;
    WalkStep(w, gates, jobs, i, p);
    if i < |jobs| {
      StepExplained(w, gates, jobs, i, p);
      var r := Advance(w, gates, jobs[i], p);
      if r.Next? {
        WalkExplained(w, gates, jobs, i + 1, r.state);
      }
    }
  }

  lemma BetweenExplained(w: World, jobs: seq<Job>, e: Ending, played: bool)
    requires e.Paused? && e.at < |jobs| && AllExplained(w, jobs, e.state.records) && DistinctKeys(jobs)
    ensures AllExplained(w, jobs, Between(jobs, e, played))
  {
    hide MayStart, MayHold, MaySkip;
  }

  /** Over every history, whatever is read back right or wrong, each record is explained; once
      it finishes every job is settled under the status its record has. */
  lemma {:induction false} HistoryExplained(w: World, rounds: seq<Round>, jobs: seq<Job>, records: map<Key, Record>)
    requires rounds != [] && DistinctKeys(jobs) && AllExplained(w, jobs, records)
    ensures var e := Drive(w, rounds, jobs, records);
            AllExplained(w, jobs, e.state.records) &&
                (e.Finished? ==> forall j: nat :: j < |jobs| ==> Known(jobs, e.state, j))
    decreases |rounds|
  {
    hide Walk, Explained, DistinctKeys, Known;
    var p := Progress(records, map[], map[]);
    WalkExplained(w, rounds[0].gates, jobs, 0, p);
    var e := Pass(w, rounds[0].gates, jobs, records);
    if e.Paused? && |rounds| > 1 {
      WalkKeepsRecorded(w, rounds[0].gates, jobs, 0, p);
      BetweenExplained(w, jobs, e, rounds[0].played);
      HistoryExplained(w, rounds[1..], jobs, Between(jobs, e, rounds[0].played));
    }
  }

  lemma FreshExplained(w: World, jobs: seq<Job>, records: map<Key, Record>)
    requires AllFresh(jobs, records)
    ensures AllExplained(w, jobs, records)
  {
    hide MayStart, MayHold, MaySkip;
  }

  // ---------------------------------------------------------------- main results

  /** A job whose rules, conditions or `when` never let it start or be held is never executed,
      and every history that finishes leaves it skipped. */
  lemma BarredNeverRuns(w: World, rounds: seq<Round>, jobs: seq<Job>, records: map<Key, Record>, i: nat)
    requires rounds != [] && DistinctKeys(jobs) && AllFresh(jobs, records) && i < |jobs|
    requires forall view :: Possible(jobs[i], view) ==> Says(w, jobs[i], view) == Skips
    ensures var e := Drive(w, rounds, jobs, records); var k := jobs[i].key;
            && k in e.state.records && e.state.records[k].attempt == None && e.state.records[k].blocking == None
            && (e.Finished? ==> k in e.state.statuses && e.state.statuses[k] == Skipped == e.state.records[k].status)
  {
    hide Drive, Says, Possible, AllFresh, DistinctKeys;
    FreshExplained(w, jobs, records);
    HistoryExplained(w, rounds, jobs, records);
    var e := Drive(w, rounds, jobs, records);
    assert Explained(w, jobs[i], e.state.records[jobs[i].key]);
    assert !MayStart(w, jobs[i]) && !MayHold(w, jobs[i]);
    assert e.Finished? ==> Known(jobs, e.state, i);
  }

  /** A job that is only ever to be held runs only once it was played. */
  lemma HeldRunsOnlyWhenPlayed(w: World, rounds: seq<Round>, jobs: seq<Job>, records: map<Key, Record>, i: nat)
    requires rounds != [] && DistinctKeys(jobs) && AllFresh(jobs, records) && i < |jobs|
    requires forall view :: Possible(jobs[i], view) ==> !Says(w, jobs[i], view).Starts?
    ensures var e := Drive(w, rounds, jobs, records); var k := jobs[i].key;
            k in e.state.records && (e.state.records[k].attempt.Some? ==> e.state.records[k].played)
  {
    hide Drive, Says, Possible, AllFresh, DistinctKeys;
    FreshExplained(w, jobs, records);
    HistoryExplained(w, rounds, jobs, records);
    assert Explained(w, jobs[i], Drive(w, rounds, jobs, records).state.records[jobs[i].key]);
    assert !MayStart(w, jobs[i]);
  }

  /** A job without dependencies has one thing to find: nothing failed. */
  lemma NothingToFind(job: Job, view: View)
    requires job.deps == []
    ensures Possible(job, view) <==> view == View(true, false, map[])
  {
    var statuses: map<Key, Status>, allowed: map<Key, bool> := map[], map[];
    assert Ready(job.deps, statuses) && ViewOf(job, statuses, allowed) == View(true, false, map[]);
    forall s, a | Ready(job.deps, s) ensures ViewOf(job, s, a) == View(true, false, map[]) {
      assert (map d | d in job.deps && d in s :: s[d]) == map[];
    }
  }

  /** What one verdict makes of a job in a history that finishes. */
  ghost predicate EndsAs(w: World, job: Job, v: Verdict, r: Record) {
    match v
    case Skips => r == Record(Skipped, None, false, None)
    case Holds(blocking) =>
      if blocking then RanAs(w, job, r) && r.blocking == Some(true) && r.played
      else r == Record(ManualHold, Some(false), false, None)
    case Starts(_) => RanAs(w, job, r) && r.blocking == None && !r.played
  }

  ghost predicate RanAs(w: World, job: Job, r: Record) {
    var outcome := w.execute(job.key);
    r.status == (if outcome.failed then Failed else Succeeded) && r.attempt == Some(outcome.exitCode)
  }

  lemma SettledAsSaid(w: World, job: Job, s: Ideal)
    requires Ready(job.deps, s.statuses)
    ensures EndsAs(w, job, Says(w, job, ViewOf(job, s.statuses, s.allowed)), SettledRecord(w, job, s))
    ensures var v := Says(w, job, ViewOf(job, s.statuses, s.allowed)); var o := w.execute(job.key);
            && job.key in IdealAdvance(w, job, s).allowed
            && (v == Holds(false) ==> IdealAdvance(w, job, s).allowed[job.key])
            && (v.Starts? || v == Holds(true) ==>
                  (IdealAdvance(w, job, s).allowed[job.key] <==>
                    (v.Starts? && v.allowFailure) ||
                        (o.failed && o.exitCode.Some? && o.exitCode.value in ExitCodes(job))))
  {
    hide Says, Decide, ViewOf, Ready, ExitCodes;
    DecidesAsSaid(w, job, FRESH, s.statuses, s.allowed);
  }

  /** Where nothing is misread in front of a stop, every history that finishes leaves each job as
      its semantics say of the statuses before it: skipped without an attempt, held without
      blocking, or executed, after a play if it was a blocking hold. */
  lemma EndsAsSaid(w: World, rounds: seq<Round>, jobs: seq<Job>, records: map<Key, Record>, i: nat)
    requires rounds != [] && DistinctKeys(jobs) && AllFresh(jobs, records) && Remembers(w, jobs) && i < |jobs|
    requires Drive(w, rounds, jobs, records).Finished? && Ready(jobs[i].deps, IdealAfter(w, jobs, i).statuses)
    ensures var e := Drive(w, rounds, jobs, records); var s := IdealAfter(w, jobs, i); var k := jobs[i].key;
            && k in e.state.records
            && EndsAs(w, jobs[i], Says(w, jobs[i], ViewOf(jobs[i], s.statuses, s.allowed)), e.state.records[k])
  {
    hide Drive, Says, ViewOf, Ready, SettledRecord, IdealAfter, EndsAs, DistinctKeys, Remembers, NoBadFailure, Open,
        StopsAt;
    FreshIsConsistent(w, jobs, records);
    assert Legible(w, jobs, 0, 0);
    DriveInStep(w, rounds, jobs, records, 0);
    AtSettled(w, jobs, Drive(w, rounds, jobs, records).state.records, |jobs|, i);
    SettledAsSaid(w, jobs[i], IdealAfter(w, jobs, i));
  }

  // ------------------------------------------------------------------- pauses

  lemma StoppedAsSaid(w: World, gates: set<Key>, job: Job, p: Progress)
    requires job.key in p.records
    ensures var r := Advance(w, gates, job, p);
            r.Stop? ==> var after := r.state.records;
              job.key in after && after[job.key].attempt == p.records[job.key].attempt
              && if after[job.key].status == Waiting then job.key in gates else after[job.key].status == ManualHold
  {
    hide Decide, PersistedAllowed, FailureAllowed;
  }

  /** A call that stops before the last job leaves the job it stops at waiting, if that is gated, or
      held, without a new attempt, and the jobs behind it as the store had them. */
  lemma {:induction false} PausesAsSaid(w: World, gates: set<Key>, jobs: seq<Job>, i: nat, p: Progress)
    requires i <= |jobs| && DistinctKeys(jobs) && Recorded(jobs, p.records)
    ensures var e := Walk(w, gates, jobs, i, p);
            e.Paused? ==> i <= e.at < |jobs| && StoppedAt(gates, jobs, p.records, e.state.records, e.at)
    decreases |jobs| - i
  {
    hide Advance, DistinctKeys;
    WalkStep(w, gates, jobs, i, p);
    if i < |jobs| {
      var r := Advance(w, gates, jobs[i], p);
      StoppedAsSaid(w, gates, jobs[i], p);
      forall j: nat | i < j < |jobs|
        ensures jobs[j].key in r.state.records && r.state.records[jobs[j].key] == p.records[jobs[j].key] {
        KeysApart(jobs, i, j);
        OthersStay(w, gates, jobs[i], p, jobs[j].key);
      }
      if r.Next? {
        PausesAsSaid(w, gates, jobs, i + 1, r.state);
      }
    }
  }

  ghost predicate StoppedAt(gates: set<Key>, jobs: seq<Job>, before: map<Key, Record>, after: map<Key, Record>, at: nat)
    requires at < |jobs|
  {
    var k := jobs[at].key;
    && k in before && k in after && after[k].attempt == before[k].attempt
    && (if after[k].status == Waiting then k in gates else after[k].status == ManualHold)
    && forall j: nat :: at < j < |jobs| ==>
        jobs[j].key in before && jobs[j].key in after && after[jobs[j].key] == before[jobs[j].key]
  }

  lemma KeysApart(jobs: seq<Job>, i: nat, j: nat)
    requires DistinctKeys(jobs) && i < j < |jobs|
    ensures jobs[i].key != jobs[j].key
  {
  }
}
