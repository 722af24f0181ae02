// Executing a run: the walk over the jobs in order, with skipping, allowed failures,
// manual jobs and pauses, restarted from what the store holds.
module RunMachine {
  import opened Search
  import opened ConditionParser

  type Key = string

  datatype Status = Queued | Waiting | ManualHold | Succeeded | Failed | Skipped

  predicate Terminal(s: Status) {
    s == Succeeded || s == Failed || s == Skipped
  }

  // ------------------------------------------------------------ what is frozen

  datatype Contract = Contract(expression: string, evaluable: bool)

  datatype When = Always | ByHand | Never | Delayed

  /** filesystem: the rule tests changes or existing files, which execution cannot. */
  datatype Rule = Rule(condition: Contract, filesystem: bool, when: When, allowFailure: bool)

  datatype Semantics =
    | Absent
    | Invalid
    | Frozen(condition: Contract, optional: set<Key>, rules: seq<Rule>, refsAdmit: bool, when: When,
        exitCodes: seq<int>)

  datatype Job = Job(key: Key, deps: seq<Key>, allowFailure: bool, semantics: Semantics)

  function OptionalNeeds(job: Job): set<Key> {
    if job.semantics.Frozen? then job.semantics.optional else {}
  }

  function ExitCodes(job: Job): seq<int> {
    if job.semantics.Frozen? then job.semantics.exitCodes else []
  }

  // -------------------------------------------------------- what the store holds

  datatype Option<T> = None | Some(value: T)

  /** blocking: the manual state, once the job was held; attempt: the exit code of the
      latest attempt, once there was one. */
  datatype Record = Record(status: Status, blocking: Option<bool>, played: bool, attempt: Option<Option<int>>)

  const FRESH := Record(Queued, None, false, None)

  // --------------------------------------------------------------- conditions

  /** What a condition may read of a run: results of its dependencies, nothing else. */
  datatype View = View(success: bool, failure: bool, results: map<Key, Status>)

  datatype Outcome = Outcome(failed: bool, exitCode: Option<int>)

  /** evaluate: EvaluateCondition on an expression, None for an error;
      execute: what running a job, retries included, comes to. */
  datatype World = World(evaluate: (string, View) -> Option<bool>, execute: Key -> Outcome)

  function WithoutSpaces(s: string): string {
    if s == "" then "" else (if s[0] == ' ' then "" else [s[0]]) + WithoutSpaces(s[1..])
  }

  predicate UsesStatusFunction(expression: string) {
    var s := Lower(WithoutSpaces(expression));
    Contains(s, "success(") || Contains(s, "failure(") || Contains(s, "cancelled(") || Contains(s, "always(")
  }

  predicate ContractHolds(w: World, c: Contract, view: View) {
    if !c.evaluable then false
    else if c.expression == "" then view.success
    else if !UsesStatusFunction(c.expression) && !view.success then false
    else w.evaluate(c.expression, view) == Some(true)
  }

  // ------------------------------------------------------------- dependencies

  /** A dependency that does not hold its dependant back. */
  predicate Passes(d: Key, statuses: map<Key, Status>, allowed: map<Key, bool>, optional: set<Key>) {
    && d in statuses
    && (|| statuses[d] == Succeeded
        || ((statuses[d] == Failed || statuses[d] == ManualHold) && d in allowed && allowed[d])
        || (statuses[d] == Skipped && d in optional))
  }

  predicate Ready(deps: seq<Key>, statuses: map<Key, Status>) {
    forall d :: d in deps ==> d in statuses
  }

  predicate Successful(deps: seq<Key>, statuses: map<Key, Status>, allowed: map<Key, bool>, optional: set<Key>) {
    forall d :: d in deps ==> Passes(d, statuses, allowed, optional)
  }

  predicate HasFailed(deps: seq<Key>, statuses: map<Key, Status>, allowed: map<Key, bool>, optional: set<Key>) {
    exists d :: d in deps && d in statuses && statuses[d] == Failed && !Passes(d, statuses, allowed, optional)
  }

  function ViewOf(job: Job, statuses: map<Key, Status>, allowed: map<Key, bool>): View {
    View(Successful(job.deps, statuses, allowed, OptionalNeeds(job)),
         HasFailed(job.deps, statuses, allowed, OptionalNeeds(job)),
         map d | d in job.deps && d in statuses :: statuses[d])
  }

  method DependencyState(deps: seq<Key>, statuses: map<Key, Status>, allowed: map<Key, bool>, optional: set<Key>)
    returns (ready: bool, successful: bool, failed: bool)
    ensures ready == Ready(deps, statuses)
    ensures successful == Successful(deps, statuses, allowed, optional)
    ensures failed == HasFailed(deps, statuses, allowed, optional)
  {
    ready, successful, failed := true, true, false;
    for n := 0 to |deps|
      invariant ready == Ready(deps[..n], statuses)
      invariant successful == Successful(deps[..n], statuses, allowed, optional)
      invariant failed == HasFailed(deps[..n], statuses, allowed, optional)
    {
      var d := deps[n];
      assert deps[..n + 1] == deps[..n] + [d];
      if d !in statuses {
        ready, successful := false, false;
        continue;
      }
      var status := statuses[d];
      if status == Succeeded || (status == Failed && d in allowed && allowed[d]) ||
          (status == ManualHold && d in allowed && allowed[d])
         || (status == Skipped && d in optional) {
        assert Passes(d, statuses, allowed, optional);
        continue;
      }
      assert !Passes(d, statuses, allowed, optional);
      successful := false;
      if status == Failed {
        failed := true;
      }
    }
    assert deps[..|deps|] == deps;
  }

  // ----------------------------------------------------------------- decisions

  datatype Decision =
    | Run(allowFailure: bool)
    | Hold(blocking: bool)
    | Skip(allowFailure: bool, missing: bool)

  /** resolvePlayedManualJob: a held job that was played runs. */
  function Played(record: Record, allowFailure: bool, blocking: bool): Decision {
    if !record.played then Hold(blocking)
    else if record.blocking.Some? then Run(!record.blocking.value)
    else Run(allowFailure)
  }

  function DecideRules(w: World, rules: seq<Rule>, record: Record, allow: bool, view: View): Decision {
    if rules == [] then Skip(allow, false)
    else
      var rule := rules[0];
      if rule.filesystem then Skip(allow, false)
      else if !ContractHolds(w, rule.condition, view) then
        if rule.condition.expression != "" && !rule.condition.evaluable then Skip(allow, false)
        else DecideRules(w, rules[1..], record, allow, view)
      else
        match rule.when
        case ByHand => Played(record, rule.allowFailure, !rule.allowFailure)
        case Never => Skip(allow, false)
        case Delayed => Skip(allow, false)
        case Always => Run(allow || rule.allowFailure)
  }

  /** evaluateJobExecution; allow is the job's allow_failure as the walk sees it. */
  function Decide(w: World, job: Job, record: Record, allow: bool, statuses: map<Key, Status>,
      allowed: map<Key, bool>): Decision {
    if job.semantics.Invalid? then Skip(allow, false)
    else if !Ready(job.deps, statuses) then Skip(allow, true)
    else
      var view := ViewOf(job, statuses, allowed);
      match job.semantics
      case Absent => if view.success then Run(allow) else Skip(allow, false)
      case Frozen(condition, _, rules, refsAdmit, when, _) =>
        if !ContractHolds(w, condition, view) then Skip(allow, false)
        else if rules != [] then DecideRules(w, rules, record, allow, view)
        else if !refsAdmit then Skip(allow, false)
        else
          match when
          case ByHand => Played(record, allow, !allow)
          case Never => Skip(allow, false)
          case Delayed => Skip(allow, false)
          case Always => Run(allow)
  }

  /** jobFailureAllowed. */
  predicate FailureAllowed(job: Job, allow: bool, failed: bool, exitCode: Option<int>) {
    allow || (failed && exitCode.Some? && exitCode.value in ExitCodes(job))
  }

  /** persistedJobFailureAllowed. */
  predicate PersistedAllowed(job: Job, record: Record) {
    job.allowFailure ||
    (record.status == Failed && record.attempt.Some? &&
        FailureAllowed(job, job.allowFailure, true, record.attempt.value))
  }

  // -------------------------------------------------------------- the walk

  datatype Progress = Progress(records: map<Key, Record>, statuses: map<Key, Status>, allowed: map<Key, bool>)

  datatype Step = Next(state: Progress) | Stop(state: Progress)

  /** One job of executeRun. gates are the jobs whose approval, timer or lease is pending. */
  function Advance(w: World, gates: set<Key>, job: Job, p: Progress): Step
    requires job.key in p.records
  {
    var k := job.key;
    var record := p.records[k];
    var held := record.blocking.Some?;
    var allow := if held then !record.blocking.value else job.allowFailure;
    var allowed := p.allowed[k := if held then !record.blocking.value else PersistedAllowed(job, record)];
    if Terminal(record.status) then Next(Progress(p.records, p.statuses[k := record.status], allowed))
    else
      Apply(w, gates, job, p, allowed, Decide(w, job, record, allow, p.statuses, allowed))
  }

  /** Carrying out a decision. */
  function Apply(w: World, gates: set<Key>, job: Job, p: Progress, allowed: map<Key, bool>, decision: Decision): Step
    requires job.key in p.records
  {
    var k := job.key;
    var record := p.records[k];
    match decision
    case Hold(blocking) =>
      var records := if record.status == ManualHold then p.records
          else p.records[k := record.(status := ManualHold, blocking := Some(blocking))];
      var next := Progress(records, p.statuses[k := ManualHold], allowed[k := !blocking]);
      if blocking then Stop(next) else Next(next)
    case Skip(allowFailure, _) =>
      Next(Progress(p.records[k := record.(status := Skipped)], p.statuses[k := Skipped], allowed[k := allowFailure]))
    case Run(allowFailure) =>
      if k in gates then Stop(Progress(p.records[k := record.(status := Waiting)], p.statuses,
          allowed[k := allowFailure]))
      else
        var outcome := w.execute(k);
        var status := if outcome.failed then Failed else Succeeded;
        Next(Progress(p.records[k := record.(status := status, attempt := Some(outcome.exitCode))],
                      p.statuses[k := status],
                      allowed[k := FailureAllowed(job, allowFailure, outcome.failed, outcome.exitCode)]))
  }

  datatype Ending = Finished(state: Progress, success: bool) | Paused(state: Progress, at: nat)

  predicate NoBadFailure(statuses: map<Key, Status>, allowed: map<Key, bool>) {
    forall k :: k in statuses && statuses[k] == Failed ==> k in allowed && allowed[k]
  }

  predicate Recorded(jobs: seq<Job>, records: map<Key, Record>) {
    forall i :: 0 <= i < |jobs| ==> jobs[i].key in records
  }

  function Walk(w: World, gates: set<Key>, jobs: seq<Job>, i: nat, p: Progress): Ending
    requires i <= |jobs| && Recorded(jobs, p.records)
    decreases |jobs| - i
  {
    if i == |jobs| then Finished(p, NoBadFailure(p.statuses, p.allowed))
    else
      match Advance(w, gates, jobs[i], p)
      case Stop(q) => Paused(q, i)
      case Next(q) => Walk(w, gates, jobs, i + 1, q)
  }

  /** One call of executeRun on what the store holds. */
  function Pass(w: World, gates: set<Key>, jobs: seq<Job>, records: map<Key, Record>): Ending
    requires Recorded(jobs, records)
  {
    Walk(w, gates, jobs, 0, Progress(records, map[], map[]))
  }

  // -------------------------------------------------- a walk that never pauses

  datatype Ideal = Ideal(statuses: map<Key, Status>, allowed: map<Key, bool>)

  /** The decision when a blocking hold is answered on the spot. */
  function Answered(w: World, job: Job, s: Ideal): Decision {
    match Decide(w, job, FRESH, job.allowFailure, s.statuses, s.allowed)
    case Hold(blocking) => if blocking then Run(false) else Hold(false)
    case decision => decision
  }

  function IdealAdvance(w: World, job: Job, s: Ideal): Ideal {
    var k := job.key;
    match Answered(w, job, s)
    case Hold(_) => Ideal(s.statuses[k := ManualHold], s.allowed[k := true])
    case Skip(allow, _) => Ideal(s.statuses[k := Skipped], s.allowed[k := allow])
    case Run(allow) =>
      var outcome := w.execute(k);
      Ideal(s.statuses[k := if outcome.failed then Failed else Succeeded],
            s.allowed[k := FailureAllowed(job, allow, outcome.failed, outcome.exitCode)])
  }

  /** The state after the first n jobs. */
  function IdealAfter(w: World, jobs: seq<Job>, n: nat): Ideal
    requires n <= |jobs|
  {
    if n == 0 then Ideal(map[], map[]) else IdealAdvance(w, jobs[n - 1], IdealAfter(w, jobs, n - 1))
  }

  /** What the store holds of a job the never-pausing walk is done with. */
  function SettledRecord(w: World, job: Job, s: Ideal): Record {
    var asked := Decide(w, job, FRESH, job.allowFailure, s.statuses, s.allowed);
    match Answered(w, job, s)
    case Hold(_) => Record(ManualHold, Some(false), false, None)
    case Skip(_, _) => Record(Skipped, None, false, None)
    case Run(_) =>
      var outcome := w.execute(job.key);
      Record(if outcome.failed then Failed else Succeeded,
             if asked.Hold? then Some(true) else None, asked.Hold?, Some(outcome.exitCode))
  }

  // ------------------------------------------------------- transparent pauses

  /** The verdict on a failure that a later call starts from. */
  predicate ReadBack(job: Job, record: Record) {
    if record.blocking.Some? then !record.blocking.value else PersistedAllowed(job, record)
  }

  /** The job failed with leave when it ran, and without leave once that is read back. */
  predicate Misread(w: World, job: Job, s: Ideal) {
    var record, next := SettledRecord(w, job, s), IdealAdvance(w, job, s);
    record.status == Failed && job.key in next.allowed && next.allowed[job.key] && !ReadBack(job, record)
  }

  /** The walk can stop at the job: it starts it, or holds it and has to be answered. */
  predicate CanStop(w: World, job: Job, s: Ideal) {
    Answered(w, job, s).Run?
  }

  ghost predicate MisreadAt(w: World, jobs: seq<Job>, i: nat) {
    i < |jobs| && Misread(w, jobs[i], IdealAfter(w, jobs, i))
  }

  ghost predicate StopsAt(w: World, jobs: seq<Job>, j: nat) {
    j < |jobs| && CanStop(w, jobs[j], IdealAfter(w, jobs, j))
  }

  /** No failure from job i up to job n is misread. */
  ghost predicate Legible(w: World, jobs: seq<Job>, i: nat, n: nat) {
    forall m: nat :: i <= m < n ==> !MisreadAt(w, jobs, m)
  }

  /** No failure is misread in front of a job the walk can stop at. */
  ghost predicate Remembers(w: World, jobs: seq<Job>) {
    forall j: nat :: StopsAt(w, jobs, j) ==> Legible(w, jobs, 0, j)
  }

  ghost predicate DistinctKeys(jobs: seq<Job>) {
    forall i, j :: 0 <= i < j < |jobs| ==> jobs[i].key != jobs[j].key
  }

  predicate CanBlock(job: Job) {
    job.semantics.Frozen? &&
    if job.semantics.rules != [] then exists r :: r in job.semantics.rules && r.when.ByHand? && !r.allowFailure
    else job.semantics.when.ByHand? && !job.allowFailure
  }

  /** What a resumed walk recomputes from the store is what the first walk knew: no rule
      that runs the job adds allow_failure, and jobs that can block allow no exit codes. */
  predicate Stable(job: Job) {
    && (job.semantics.Frozen? ==> forall r :: r in job.semantics.rules && r.when.Always? && r.allowFailure ==>
        job.allowFailure)
    && (CanBlock(job) ==> ExitCodes(job) == [])
  }

  ghost predicate AllStable(jobs: seq<Job>) {
    forall i :: 0 <= i < |jobs| ==> Stable(jobs[i])
  }

  /** A job not settled yet: untouched, waiting, held, or a blocking hold that was played. */
  predicate Open(w: World, job: Job, s: Ideal, record: Record) {
    && record.attempt == None
    && match record.blocking
       case None => (record.status == Queued || record.status == Waiting) && !record.played
       case Some(blocking) =>
         && blocking && Decide(w, job, FRESH, job.allowFailure, s.statuses, s.allowed) == Hold(true)
         && if record.played then record.status == Queued || record.status == Waiting else record.status == ManualHold
  }

  /** The store after n jobs are settled and the rest is still ahead. */
  ghost predicate Consistent(w: World, jobs: seq<Job>, records: map<Key, Record>, n: nat)
    requires n <= |jobs|
  {
    && Recorded(jobs, records)
    && (forall i :: 0 <= i < n ==> records[jobs[i].key] == SettledRecord(w, jobs[i], IdealAfter(w, jobs, i)))
    && (n < |jobs| ==> Open(w, jobs[n], IdealAfter(w, jobs, n), records[jobs[n].key]))
    && (forall i :: n < i < |jobs| ==> records[jobs[i].key] == FRESH)
  }

  /** The same verdict on every failure and every hold. */
  ghost predicate Agree(statuses: map<Key, Status>, a: map<Key, bool>, b: map<Key, bool>) {
    forall d :: d in statuses && (statuses[d] == Failed || statuses[d] == ManualHold) ==>
        d in a && d in b && a[d] == b[d]
  }

  lemma AgreeingViews(job: Job, statuses: map<Key, Status>, a: map<Key, bool>, b: map<Key, bool>)
    requires Agree(statuses, a, b)
    ensures ViewOf(job, statuses, a) == ViewOf(job, statuses, b)
  {
    var optional := OptionalNeeds(job);
    assert forall d :: Passes(d, statuses, a, optional) == Passes(d, statuses, b, optional);
  }

  lemma AgreeingDecisions(w: World, job: Job, record: Record, allow: bool, statuses: map<Key, Status>,
      a: map<Key, bool>, b: map<Key, bool>)
    requires Agree(statuses, a, b)
    ensures Decide(w, job, record, allow, statuses, a) == Decide(w, job, record, allow, statuses, b)
  {
    hide ContractHolds, DecideRules, ViewOf;
    AgreeingViews(job, statuses, a, b);
  }

  /** How the record and the seen allow_failure change a decision over rules. */
  lemma {:induction false} RulesWithRecord(w: World, job: Job, rules: seq<Rule>, record: Record, allow: bool,
      view: View)
    ensures match DecideRules(w, rules, FRESH, allow, view)
            case Hold(blocking) =>
              DecideRules(w, rules, record, !blocking, view) ==
              (if !record.played then Hold(blocking) else if record.blocking.Some? then Run(!record.blocking.value)
                  else Run(!blocking))
              && (blocking ==> exists r :: r in rules && r.when.ByHand? && !r.allowFailure)
            case Skip(a, missing) => a == allow && !missing &&
                (!record.played ==> DecideRules(w, rules, record, allow, view) == Skip(a, missing))
            case Run(a) => (!record.played ==> DecideRules(w, rules, record, allow, view) == Run(a))
                           && (a == allow || (a && exists r :: r in rules && r.when.Always? && r.allowFailure))
  {
    if rules != [] {
      RulesWithRecord(w, job, rules[1..], record, allow, view);
      assert rules[0] in rules && forall r :: r in rules[1..] ==> r in rules;
    }
  }

  lemma HeldAgain(w: World, job: Job, record: Record, statuses: map<Key, Status>, allowed: map<Key, bool>)
    requires Decide(w, job, FRESH, job.allowFailure, statuses, allowed).Hold?
    ensures var b := Decide(w, job, FRESH, job.allowFailure, statuses, allowed).blocking;
            && Decide(w, job, record, !b, statuses, allowed) ==
               (if !record.played then Hold(b) else if record.blocking.Some? then Run(!record.blocking.value)
                   else Run(!b))
            && (b ==> CanBlock(job))
  {
    hide ContractHolds, DecideRules, ViewOf;
    var view := ViewOf(job, statuses, allowed);
    if job.semantics.Frozen? {
      RulesWithRecord(w, job, job.semantics.rules, record, job.allowFailure, view);
    }
  }

  lemma UnplayedDecides(w: World, job: Job, record: Record, statuses: map<Key, Status>, allowed: map<Key, bool>)
    requires !record.played
    ensures Decide(w, job, record, job.allowFailure, statuses, allowed) ==
        Decide(w, job, FRESH, job.allowFailure, statuses, allowed)
  {
    hide ContractHolds, DecideRules, ViewOf;
    if job.semantics.Frozen? {
      UnplayedRules(w, job.semantics.rules, record, job.allowFailure, ViewOf(job, statuses, allowed));
    }
  }

  lemma {:induction false} UnplayedRules(w: World, rules: seq<Rule>, record: Record, allow: bool, view: View)
    requires !record.played
    ensures DecideRules(w, rules, record, allow, view) == DecideRules(w, rules, FRESH, allow, view)
  {
    if rules != [] {
      UnplayedRules(w, rules[1..], record, allow, view);
    }
  }

  lemma RunsKeepLeave(w: World, job: Job, statuses: map<Key, Status>, allowed: map<Key, bool>)
    requires Decide(w, job, FRESH, job.allowFailure, statuses, allowed).Run?
    ensures var a := Decide(w, job, FRESH, job.allowFailure, statuses, allowed).allowFailure;
            (job.allowFailure ==> a) && (Stable(job) ==> a == job.allowFailure)
  {
    hide ContractHolds, DecideRules, ViewOf;
    if job.semantics.Frozen? {
      RulesWithRecord(w, job, job.semantics.rules, FRESH, job.allowFailure, ViewOf(job, statuses, allowed));
    }
  }

  /** The walk has seen what the never-pausing walk has seen. */
  ghost predicate InStep(p: Progress, s: Ideal) {
    p.statuses == s.statuses && Agree(s.statuses, p.allowed, s.allowed)
  }

  lemma AgreeUpdated(statuses: map<Key, Status>, a: map<Key, bool>, b: map<Key, bool>, k: Key, status: Status,
      x: bool, y: bool)
    requires Agree(statuses, a, b) && (status == Failed || status == ManualHold ==> x == y)
    ensures Agree(statuses[k := status], a[k := x], b[k := y])
  {
  }

  lemma AgreeElsewhere(statuses: map<Key, Status>, a: map<Key, bool>, b: map<Key, bool>, k: Key, x: bool)
    requires Agree(statuses, a, b) && k !in statuses
    ensures Agree(statuses, a[k := x], b)
  {
  }

  /** A settled job is passed over with the verdict it had. */
  lemma SettledStep(w: World, gates: set<Key>, job: Job, p: Progress, s: Ideal)
    requires !Misread(w, job, s) && InStep(p, s) && job.key !in s.statuses
    requires job.key in p.records && p.records[job.key] == SettledRecord(w, job, s)
    ensures var r := Advance(w, gates, job, p);
            r.Next? && r.state.records == p.records && InStep(r.state, IdealAdvance(w, job, s))
  {
    hide Decide, Misread;
    var k := job.key;
    var record := p.records[k];
    var asked := Decide(w, job, FRESH, job.allowFailure, s.statuses, s.allowed);
    SettledVerdict(w, job, s);
    if asked.Run? {
      AgreeUpdated(s.statuses, p.allowed, s.allowed, k, record.status, PersistedAllowed(job, record),
          IdealAdvance(w, job, s).allowed[k]);
    } else if asked.Hold? {
      HeldAgain(w, job, record, s.statuses, s.allowed);
      if asked.blocking {
        AgreeUpdated(s.statuses, p.allowed, s.allowed, k, record.status, false, IdealAdvance(w, job, s).allowed[k]);
      } else {
        AgreeElsewhere(s.statuses, p.allowed, s.allowed, k, true);
        AgreeingDecisions(w, job, record, true, s.statuses, p.allowed[k := true], s.allowed);
        AgreeUpdated(s.statuses, p.allowed, s.allowed, k, ManualHold, true, true);
      }
    } else {
      AgreeUpdated(s.statuses, p.allowed, s.allowed, k, Skipped, PersistedAllowed(job, record),
          IdealAdvance(w, job, s).allowed[k]);
    }
  }

  /** Reading a verdict back never gives leave; if nothing is misread it is the same verdict. */
  lemma SettledVerdict(w: World, job: Job, s: Ideal)
    ensures var record := SettledRecord(w, job, s); var next := IdealAdvance(w, job, s);
            && job.key in next.allowed
            && (Decide(w, job, FRESH, job.allowFailure, s.statuses, s.allowed).Run? ==> record.blocking == None)
            && (record.status == Failed && !Misread(w, job, s) ==> ReadBack(job, record) == next.allowed[job.key])
  {
    hide Decide;
    if Decide(w, job, FRESH, job.allowFailure, s.statuses, s.allowed).Run? {
      RunsKeepLeave(w, job, s.statuses, s.allowed);
    }
  }

  /** The first open job: settled like the never-pausing walk settles it, or the walk stops
      and, once resumed, the job is open again. */
  lemma OpenStep(w: World, gates: set<Key>, job: Job, p: Progress, s: Ideal)
    requires InStep(p, s) && job.key !in s.statuses
    requires job.key in p.records && Open(w, job, s, p.records[job.key])
    ensures match Advance(w, gates, job, p)
            case Next(q) =>
              && q.records == p.records[job.key := SettledRecord(w, job, s)]
              && InStep(q, IdealAdvance(w, job, s))
            case Stop(q) =>
              && q.records.Keys == p.records.Keys
              && (forall k :: k in p.records && k != job.key ==> q.records[k] == p.records[k])
              && Open(w, job, s, q.records[job.key]) && Open(w, job, s, Resumed(q.records[job.key]))
              && CanStop(w, job, s)
    ensures job.key in gates && CanStop(w, job, s) ==> Advance(w, gates, job, p).Stop?
  {
    hide Decide, Apply, SettledRecord, IdealAdvance, CanStop;
    var k := job.key;
    var record := p.records[k];
    var asked := Decide(w, job, FRESH, job.allowFailure, s.statuses, s.allowed);
    var seen := if record.blocking.Some? then !record.blocking.value else PersistedAllowed(job, record);
    var allow := if record.blocking.Some? then !record.blocking.value else job.allowFailure;
    AgreeElsewhere(s.statuses, p.allowed, s.allowed, k, seen);
    AgreeingDecisions(w, job, record, allow, s.statuses, p.allowed[k := seen], s.allowed);
    if record.blocking.Some? {
      HeldAgain(w, job, record, s.statuses, s.allowed);
    } else {
      UnplayedDecides(w, job, record, s.statuses, s.allowed);
    }
    CarriedOut(w, gates, job, p, p.allowed[k := seen], s, Decide(w, job, record, allow, s.statuses, s.allowed));
  }

  lemma CarriedOut(w: World, gates: set<Key>, job: Job, p: Progress, allowed: map<Key, bool>, s: Ideal,
      decision: Decision)
    requires p.statuses == s.statuses && Agree(s.statuses, allowed, s.allowed)
    requires job.key in p.records && Open(w, job, s, p.records[job.key])
    requires var asked := Decide(w, job, FRESH, job.allowFailure, s.statuses, s.allowed);
             decision == if p.records[job.key].played then Run(false) else asked
    ensures match Apply(w, gates, job, p, allowed, decision)
            case Next(q) =>
              && q.records == p.records[job.key := SettledRecord(w, job, s)]
              && InStep(q, IdealAdvance(w, job, s))
            case Stop(q) =>
              && q.records.Keys == p.records.Keys
              && (forall k :: k in p.records && k != job.key ==> q.records[k] == p.records[k])
              && Open(w, job, s, q.records[job.key]) && Open(w, job, s, Resumed(q.records[job.key]))
              && CanStop(w, job, s)
    ensures job.key in gates && CanStop(w, job, s) ==> Apply(w, gates, job, p, allowed, decision).Stop?
  {
    hide Decide;
    var r := Apply(w, gates, job, p, allowed, decision);
    if r.Next? {
      var k := job.key;
      AgreeUpdated(s.statuses, allowed, s.allowed, k, r.state.statuses[k], r.state.allowed[k],
          IdealAdvance(w, job, s).allowed[k]);
    }
  }

  /** What the answer to a pause leaves in the store: a played hold is queued again. */
  function Resumed(record: Record): Record {
    if record.status == ManualHold then record.(status := Queued, played := true) else record
  }

  // ------------------------------------------------------------- whole runs

  /** One call of executeRun, and whether a hold it stops at is played before the next call. */
  datatype Round = Round(gates: set<Key>, played: bool)

  lemma WalkStep(w: World, gates: set<Key>, jobs: seq<Job>, i: nat, p: Progress)
    requires i <= |jobs| && Recorded(jobs, p.records)
    ensures i == |jobs| ==> Walk(w, gates, jobs, i, p) == Finished(p, NoBadFailure(p.statuses, p.allowed))
    ensures i < |jobs| ==> jobs[i].key in p.records
    ensures i < |jobs| ==>
              match Advance(w, gates, jobs[i], p)
              case Stop(q) => Walk(w, gates, jobs, i, p) == Paused(q, i)
              case Next(q) => Recorded(jobs, q.records) && Walk(w, gates, jobs, i, p) == Walk(w, gates, jobs, i + 1, q)
  {
    hide Decide;
  }

  lemma {:induction false} WalkKeepsRecorded(w: World, gates: set<Key>, jobs: seq<Job>, i: nat, p: Progress)
    requires i <= |jobs| && Recorded(jobs, p.records)
    ensures Recorded(jobs, Walk(w, gates, jobs, i, p).state.records)
    ensures Walk(w, gates, jobs, i, p).Paused? ==> Walk(w, gates, jobs, i, p).at < |jobs|
    decreases |jobs| - i
  {
    WalkStep(w, gates, jobs, i, p);
    hide *;
    if i < |jobs| {
      var r := Advance(w, gates, jobs[i], p);
      if r.Next? {
        WalkKeepsRecorded(w, gates, jobs, i + 1, r.state);
      }
    }
  }

  /** The store between two calls. */
  function Between(jobs: seq<Job>, e: Ending, played: bool): map<Key, Record>
    requires e.Paused? && e.at < |jobs| && Recorded(jobs, e.state.records)
  {
    var k := jobs[e.at].key;
    if played then e.state.records[k := Resumed(e.state.records[k])] else e.state.records
  }

  /** The ending of the last round, or of the first that finishes. */
  ghost function Drive(w: World, rounds: seq<Round>, jobs: seq<Job>, records: map<Key, Record>): Ending
    requires rounds != [] && Recorded(jobs, records)
    decreases |rounds|
  {
    var e := Pass(w, rounds[0].gates, jobs, records);
    if e.Finished? || |rounds| == 1 then e
    else
      WalkKeepsRecorded(w, rounds[0].gates, jobs, 0, Progress(records, map[], map[]));
      Drive(w, rounds[1..], jobs, Between(jobs, e, rounds[0].played))
  }

  lemma {:induction false} IdealKeys(w: World, jobs: seq<Job>, n: nat, key: Key)
    requires n <= |jobs|
    ensures key in IdealAfter(w, jobs, n).statuses <==> exists i :: 0 <= i < n && jobs[i].key == key
  {
    if n > 0 {
      IdealKeys(w, jobs, n - 1, key);
    }
  }

  lemma NewKey(w: World, jobs: seq<Job>, n: nat)
    requires n < |jobs| && DistinctKeys(jobs)
    ensures jobs[n].key !in IdealAfter(w, jobs, n).statuses
  {
    IdealKeys(w, jobs, n, jobs[n].key);
  }

  /** After the walk: the verdict of the never-pausing walk, or a store still in step with it. */
  ghost predicate EndsInStep(w: World, jobs: seq<Job>, e: Ending) {
    var s := IdealAfter(w, jobs, |jobs|);
    match e
    case Finished(q, success) =>
      && q.statuses == s.statuses && success == NoBadFailure(s.statuses, s.allowed)
      && Consistent(w, jobs, q.records, |jobs|)
    case Paused(q, k) =>
      && k < |jobs| && StopsAt(w, jobs, k) && Consistent(w, jobs, q.records, k)
      && Consistent(w, jobs, q.records[jobs[k].key := Resumed(q.records[jobs[k].key])], k)
  }

  lemma SameResult(p: Progress, s: Ideal)
    requires InStep(p, s)
    ensures NoBadFailure(p.statuses, p.allowed) == NoBadFailure(s.statuses, s.allowed)
  {
  }

  lemma OneMoreSettled(w: World, jobs: seq<Job>, records: map<Key, Record>, next: map<Key, Record>, n: nat)
    requires n < |jobs| && DistinctKeys(jobs) && Consistent(w, jobs, records, n)
    requires next == records[jobs[n].key := SettledRecord(w, jobs[n], IdealAfter(w, jobs, n))]
    ensures Consistent(w, jobs, next, n + 1)
  {
    hide IdealAfter, SettledRecord;
  }

  lemma StillOpen(w: World, jobs: seq<Job>, records: map<Key, Record>, next: map<Key, Record>, n: nat)
    requires n < |jobs| && DistinctKeys(jobs) && Consistent(w, jobs, records, n)
    requires next.Keys == records.Keys && (forall k :: k in records && k != jobs[n].key ==> next[k] == records[k])
    requires Open(w, jobs[n], IdealAfter(w, jobs, n), next[jobs[n].key])
    ensures Consistent(w, jobs, next, n)
  {
    hide IdealAfter, SettledRecord, Open;
  }

  /** What Consistent says of one job. */
  lemma AtSettled(w: World, jobs: seq<Job>, records: map<Key, Record>, n: nat, i: nat)
    requires n <= |jobs| && Consistent(w, jobs, records, n)
    ensures Recorded(jobs, records)
    ensures i < n ==>
        jobs[i].key in records && records[jobs[i].key] == SettledRecord(w, jobs[i], IdealAfter(w, jobs, i))
    ensures n < |jobs| ==> jobs[n].key in records && Open(w, jobs[n], IdealAfter(w, jobs, n), records[jobs[n].key])
  {
    hide SettledRecord, Open, IdealAfter;
  }

  lemma IdealNext(w: World, jobs: seq<Job>, i: nat)
    requires i < |jobs|
    ensures IdealAfter(w, jobs, i + 1) == IdealAdvance(w, jobs[i], IdealAfter(w, jobs, i))
  {
    hide IdealAdvance;
  }

  /** One step of a walk in step stays in step, or stops with a store that is. */
  lemma StepInStep(w: World, gates: set<Key>, jobs: seq<Job>, i: nat, p: Progress, n: nat)
    requires i <= n && i < |jobs| && n <= |jobs| && DistinctKeys(jobs) && (i < n ==> !MisreadAt(w, jobs, i))
    requires Consistent(w, jobs, p.records, n) && InStep(p, IdealAfter(w, jobs, i))
    ensures jobs[i].key in p.records
    ensures match Advance(w, gates, jobs[i], p)
            case Next(q) =>
              && Consistent(w, jobs, q.records, if i < n then n else n + 1)
              && InStep(q, IdealAfter(w, jobs, i + 1))
            case Stop(q) =>
              && i == n && jobs[i].key in q.records && Consistent(w, jobs, q.records, i) && StopsAt(w, jobs, i)
              && Consistent(w, jobs, q.records[jobs[i].key := Resumed(q.records[jobs[i].key])], i)
    ensures i == n && jobs[i].key in gates && StopsAt(w, jobs, i) ==> Advance(w, gates, jobs[i], p).Stop?
  {
    hide Advance, IdealAdvance, IdealAfter, SettledRecord, Open, Misread, CanStop, InStep, Recorded, Consistent,
        DistinctKeys;
    AtSettled(w, jobs, p.records, n, i);
    var s, k := IdealAfter(w, jobs, i), jobs[i].key;
    assert k !in s.statuses by { NewKey(w, jobs, i); }
    IdealNext(w, jobs, i);
    var r := Advance(w, gates, jobs[i], p);
    if i < n {
      SettledStep(w, gates, jobs[i], p, s);
    } else {
      OpenStep(w, gates, jobs[i], p, s);
      if r.Next? {
        OneMoreSettled(w, jobs, p.records, r.state.records, n);
      } else {
        StillOpen(w, jobs, p.records, r.state.records, n);
        StillOpen(w, jobs, p.records, r.state.records[k := Resumed(r.state.records[k])], n);
      }
    }
  }

  lemma EndsThere(w: World, jobs: seq<Job>, p: Progress)
    requires Consistent(w, jobs, p.records, |jobs|) && InStep(p, IdealAfter(w, jobs, |jobs|))
    ensures EndsInStep(w, jobs, Finished(p, NoBadFailure(p.statuses, p.allowed)))
  {
    hide IdealAfter, Consistent;
    SameResult(p, IdealAfter(w, jobs, |jobs|));
  }

  lemma StopsThere(w: World, jobs: seq<Job>, q: Progress, k: nat)
    requires k < |jobs| && jobs[k].key in q.records && Consistent(w, jobs, q.records, k) && StopsAt(w, jobs, k)
    requires Consistent(w, jobs, q.records[jobs[k].key := Resumed(q.records[jobs[k].key])], k)
    ensures EndsInStep(w, jobs, Paused(q, k))
  {
    hide IdealAfter, Consistent, StopsAt;
  }

  lemma LegibleStep(w: World, jobs: seq<Job>, i: nat, n: nat)
    requires i <= n && Legible(w, jobs, i, n)
    ensures i < n ==> !MisreadAt(w, jobs, i) && Legible(w, jobs, i + 1, n)
    ensures i == n ==> Legible(w, jobs, i + 1, n + 1)
  {
    hide MisreadAt;
  }

  /** If no failure in front of the place the walk got to before is misread, the walk stays in
      step to its end, or to a job it can stop at; a gate on such a job does stop it. */
  lemma {:induction false} WalkInStep(w: World, gates: set<Key>, jobs: seq<Job>, i: nat, p: Progress, n: nat)
    requires i <= n <= |jobs| && DistinctKeys(jobs) && Legible(w, jobs, i, n)
    requires Consistent(w, jobs, p.records, n) && InStep(p, IdealAfter(w, jobs, i))
    ensures Recorded(jobs, p.records)
    ensures EndsInStep(w, jobs, Walk(w, gates, jobs, i, p))
    ensures Walk(w, gates, jobs, i, p).Paused? ==> n <= Walk(w, gates, jobs, i, p).at
    ensures forall j: nat :: n <= j < |jobs| && StopsAt(w, jobs, j) && jobs[j].key in gates ==>
              Walk(w, gates, jobs, i, p).Paused? && Walk(w, gates, jobs, i, p).at <= j
    decreases |jobs| - i
  {
    hide *;
    LegibleStep(w, jobs, i, n);
    AtSettled(w, jobs, p.records, n, i);
    WalkStep(w, gates, jobs, i, p);
    if i == |jobs| {
      EndsThere(w, jobs, p);
    } else {
      StepInStep(w, gates, jobs, i, p, n);
      var r := Advance(w, gates, jobs[i], p);
      if r.Next? {
        if i < n {
          WalkInStep(w, gates, jobs, i + 1, r.state, n);
        } else {
          WalkInStep(w, gates, jobs, i + 1, r.state, n + 1);
        }
      } else {
        StopsThere(w, jobs, r.state, i);
      }
    }
  }

  lemma {:induction false} DriveInStep(w: World, rounds: seq<Round>, jobs: seq<Job>, records: map<Key, Record>, n: nat)
    requires rounds != [] && DistinctKeys(jobs) && Remembers(w, jobs) && Legible(w, jobs, 0, n)
    requires n <= |jobs| && Consistent(w, jobs, records, n)
    ensures EndsInStep(w, jobs, Drive(w, rounds, jobs, records))
    decreases |rounds|
  {
    hide Walk, Consistent, DistinctKeys, Legible, StopsAt;
    assert Recorded(jobs, records) by { ConsistentRecorded(w, jobs, records, n); }
    var p := Progress(records, map[], map[]);
    WalkInStep(w, rounds[0].gates, jobs, 0, p, n);
    var e := Pass(w, rounds[0].gates, jobs, records);
    if e.Paused? && |rounds| > 1 {
      WalkKeepsRecorded(w, rounds[0].gates, jobs, 0, p);
      DriveInStep(w, rounds[1..], jobs, Between(jobs, e, rounds[0].played), e.at);
    }
  }

  lemma ConsistentRecorded(w: World, jobs: seq<Job>, records: map<Key, Record>, n: nat)
    requires n <= |jobs| && Consistent(w, jobs, records, n)
    ensures Recorded(jobs, records)
  {
  }

  ghost predicate AllFresh(jobs: seq<Job>, records: map<Key, Record>) {
    Recorded(jobs, records) && forall i :: 0 <= i < |jobs| ==> records[jobs[i].key] == FRESH
  }

  /** Pausing is transparent: if no failure is misread in front of a job the walk can stop at,
      then however often a run stopped and was taken up again, once it finishes it has the
      statuses and the result of the walk that never paused. */
  lemma PausesAreTransparent(w: World, rounds: seq<Round>, jobs: seq<Job>, records: map<Key, Record>)
    requires rounds != [] && DistinctKeys(jobs) && Remembers(w, jobs) && AllFresh(jobs, records)
    ensures var e := Drive(w, rounds, jobs, records); var s := IdealAfter(w, jobs, |jobs|);
            e.Finished? ==> e.state.statuses == s.statuses && e.success == NoBadFailure(s.statuses, s.allowed)
  {
    assert Consistent(w, jobs, records, 0);
    DriveInStep(w, rounds, jobs, records, 0);
  }

  /** Two histories of the same run that both finish end alike. */
  lemma HistoriesAgree(w: World, rounds: seq<Round>, others: seq<Round>, jobs: seq<Job>, records: map<Key, Record>)
    requires rounds != [] && others != [] && DistinctKeys(jobs) && Remembers(w, jobs) && AllFresh(jobs, records)
    ensures var e := Drive(w, rounds, jobs, records); var f := Drive(w, others, jobs, records);
            e.Finished? && f.Finished? ==> e.state.statuses == f.state.statuses && e.success == f.success
  {
    PausesAreTransparent(w, rounds, jobs, records);
    PausesAreTransparent(w, others, jobs, records);
  }

  predicate Tolerates(job: Job, code: Option<int>) {
    code.Some? && code.value in ExitCodes(job)
  }

  /** What is misread: the failure of a job that only a rule gave leave to fail, and the failure
      with a tolerated exit code of a job that was a blocking hold. */
  lemma MisreadExactly(w: World, job: Job, s: Ideal)
    ensures var asked := Decide(w, job, FRESH, job.allowFailure, s.statuses, s.allowed); var o := w.execute(job.key);
            Misread(w, job, s) <==>
              && o.failed
              && (|| (asked.Run? && asked.allowFailure && !job.allowFailure && !Tolerates(job, o.exitCode))
                  || (asked.Hold? && asked.blocking && Tolerates(job, o.exitCode)))
  {
    hide Decide, ExitCodes;
    var asked := Decide(w, job, FRESH, job.allowFailure, s.statuses, s.allowed);
    if asked.Run? {
      RunsKeepLeave(w, job, s.statuses, s.allowed);
    }
  }

  lemma StableIsRead(w: World, job: Job, s: Ideal)
    requires Stable(job)
    ensures !Misread(w, job, s)
  {
    hide Decide, Stable;
    var asked := Decide(w, job, FRESH, job.allowFailure, s.statuses, s.allowed);
    if asked.Run? {
      RunsKeepLeave(w, job, s.statuses, s.allowed);
    } else if asked.Hold? {
      HeldAgain(w, job, FRESH, s.statuses, s.allowed);
      if asked.blocking {
        NoCodesWhenBlocking(job);
      }
    }
  }

  lemma NoCodesWhenBlocking(job: Job)
    requires Stable(job) && CanBlock(job)
    ensures ExitCodes(job) == []
  {
  }

  /** In a run of stable jobs nothing is misread, whatever the jobs come to. */
  lemma StableRemembers(w: World, jobs: seq<Job>)
    requires AllStable(jobs)
    ensures Remembers(w, jobs)
  {
    hide Stable, Misread, StopsAt, IdealAfter;
    forall i: nat ensures !MisreadAt(w, jobs, i) {
      if i < |jobs| {
        StableIsRead(w, jobs[i], IdealAfter(w, jobs, i));
      }
    }
  }

  // --------------------------------------------------------- pauses come to an end

  lemma OnlyHoldsStop(w: World, gates: set<Key>, job: Job, p: Progress)
    requires job.key in p.records && job.key !in gates
    ensures var r := Advance(w, gates, job, p);
            r.Stop? ==>
              && !p.records[job.key].played && job.key in r.state.records
              && r.state.records[job.key].status == ManualHold
  {
    hide ContractHolds, ViewOf, PersistedAllowed;
    var record, allow := p.records[job.key], p.allowed;
    forall rules, a, view ensures record.played ==> !DecideRules(w, rules, record, a, view).Hold? {
      PlayedRulesRun(w, rules, record, a, view);
    }
  }

  lemma {:induction false} PlayedRulesRun(w: World, rules: seq<Rule>, record: Record, allow: bool, view: View)
    ensures record.played ==> !DecideRules(w, rules, record, allow, view).Hold?
  {
    if rules != [] {
      PlayedRulesRun(w, rules[1..], record, allow, view);
    }
  }

  /** At a job that is not gated a walk stops only to hold it, and only if it was not played. */
  lemma {:induction false} WaitsOnlyAtGates(w: World, gates: set<Key>, jobs: seq<Job>, i: nat, p: Progress)
    requires i <= |jobs| && Recorded(jobs, p.records) && DistinctKeys(jobs)
    requires Walk(w, gates, jobs, i, p).Paused?
    ensures var e := Walk(w, gates, jobs, i, p);
            && i <= e.at < |jobs| && jobs[e.at].key in p.records && jobs[e.at].key in e.state.records
            && (jobs[e.at].key !in gates ==>
                  !p.records[jobs[e.at].key].played && e.state.records[jobs[e.at].key].status == ManualHold)
    decreases |jobs| - i
  {
    hide Decide, Walk, Apply;
    WalkStep(w, gates, jobs, i, p);
    var r := Advance(w, gates, jobs[i], p);
    if r.Next? {
      assert forall k :: k in p.records && k != jobs[i].key ==>
          k in r.state.records && r.state.records[k] == p.records[k] by {
        OthersKept(w, gates, jobs[i], p);
      }
      WaitsOnlyAtGates(w, gates, jobs, i + 1, r.state);
    } else {
      OthersKept(w, gates, jobs[i], p);
      if jobs[i].key !in gates {
        OnlyHoldsStop(w, gates, jobs[i], p);
      }
    }
  }

  lemma OthersKept(w: World, gates: set<Key>, job: Job, p: Progress)
    requires job.key in p.records
    ensures job.key in Advance(w, gates, job, p).state.records
    ensures var r := Advance(w, gates, job, p);
            forall k :: k in p.records && k != job.key ==> k in r.state.records && r.state.records[k] == p.records[k]
  {
    hide Decide;
  }

  ghost predicate AllAnswered(rounds: seq<Round>) {
    forall i :: 0 <= i < |rounds| ==> rounds[i] == Round({}, true)
  }

  /** The jobs that were not played yet. */
  ghost function Unplayed(jobs: seq<Job>, records: map<Key, Record>): set<nat>
    requires Recorded(jobs, records)
  {
    set i: nat | i < |jobs| && !records[jobs[i].key].played
  }

  lemma AdvanceKeepsPlayed(w: World, gates: set<Key>, job: Job, p: Progress)
    requires job.key in p.records
    ensures var r := Advance(w, gates, job, p).state.records;
            r.Keys == p.records.Keys && forall k :: k in r ==> r[k].played == p.records[k].played
  {
    hide Decide;
  }

  lemma {:induction false} WalkKeepsPlayed(w: World, gates: set<Key>, jobs: seq<Job>, i: nat, p: Progress)
    requires i <= |jobs| && Recorded(jobs, p.records)
    ensures var r := Walk(w, gates, jobs, i, p).state.records;
            r.Keys == p.records.Keys && forall k :: k in r ==> r[k].played == p.records[k].played
    decreases |jobs| - i
  {
    hide Advance, Walk;
    WalkStep(w, gates, jobs, i, p);
    if i < |jobs| {
      AdvanceKeepsPlayed(w, gates, jobs[i], p);
      var r := Advance(w, gates, jobs[i], p);
      if r.Next? {
        WalkKeepsPlayed(w, gates, jobs, i + 1, r.state);
      }
    }
  }

  /** A hold that is played is one job less to play. */
  lemma PlayedOnce(w: World, gates: set<Key>, jobs: seq<Job>, records: map<Key, Record>)
    requires Recorded(jobs, records) && DistinctKeys(jobs)
    requires var e := Pass(w, gates, jobs, records);
             && e.Paused? && e.at < |jobs| && Recorded(jobs, e.state.records)
             && !records[jobs[e.at].key].played && e.state.records[jobs[e.at].key].status == ManualHold
    ensures var e := Pass(w, gates, jobs, records); var later := Between(jobs, e, true);
            Recorded(jobs, later) && |Unplayed(jobs, later)| < |Unplayed(jobs, records)|
  {
    hide Walk;
    var e := Pass(w, gates, jobs, records);
    var later := Between(jobs, e, true);
    WalkKeepsPlayed(w, gates, jobs, 0, Progress(records, map[], map[]));
    assert Unplayed(jobs, later) == Unplayed(jobs, records) - {e.at};
    assert e.at in Unplayed(jobs, records);
  }

  /** From any store: if every hold is played and nothing is gated, one call more than there
      are jobs left to play is enough. */
  lemma {:induction false} DriveFinishes(w: World, rounds: seq<Round>, jobs: seq<Job>, records: map<Key, Record>)
    requires AllAnswered(rounds) && DistinctKeys(jobs) && Recorded(jobs, records)
    requires |rounds| > |Unplayed(jobs, records)|
    ensures Drive(w, rounds, jobs, records).Finished?
    decreases |rounds|
  {
    hide Walk, DistinctKeys, Unplayed;
    var p := Progress(records, map[], map[]);
    var e := Pass(w, {}, jobs, records);
    if e.Paused? {
      WaitsOnlyAtGates(w, {}, jobs, 0, p);
      WalkKeepsRecorded(w, {}, jobs, 0, p);
      PlayedOnce(w, {}, jobs, records);
      DriveFinishes(w, rounds[1..], jobs, Between(jobs, e, true));
    }
  }

  lemma UnplayedAreJobs(jobs: seq<Job>, records: map<Key, Record>)
    requires Recorded(jobs, records)
    ensures |Unplayed(jobs, records)| <= |jobs|
  {
    CountBelow(Unplayed(jobs, records), |jobs|);
  }

  lemma {:induction false} CountBelow(s: set<nat>, n: nat)
    requires forall i :: i in s ==> i < n
    ensures |s| <= n
  {
    if n == 0 {
      assert s == {};
    } else {
      CountBelow(s - {n - 1}, n - 1);
    }
  }

  /** Once every hold is played and nothing is gated, one call more than there are jobs
      finishes the run, whatever it forgets; if nothing is misread in front of a job the walk
      can stop at, it ends like the walk that never paused. */
  lemma AnsweredRunsFinish(w: World, rounds: seq<Round>, jobs: seq<Job>, records: map<Key, Record>)
    requires AllAnswered(rounds) && |rounds| > |jobs|
    requires DistinctKeys(jobs) && AllFresh(jobs, records)
    ensures var e := Drive(w, rounds, jobs, records); var s := IdealAfter(w, jobs, |jobs|);
            && e.Finished?
            && (Remembers(w, jobs) ==>
                e.state.statuses == s.statuses && e.success == NoBadFailure(s.statuses, s.allowed))
  {
    hide Drive, IdealAfter, NoBadFailure;
    UnplayedAreJobs(jobs, records);
    DriveFinishes(w, rounds, jobs, records);
    if Remembers(w, jobs) {
      PausesAreTransparent(w, rounds, jobs, records);
    }
  }

  // ------------------------------------------------ a misread failure stays misread

  /** The store holds a failure that reads back without leave. */
  ghost predicate Tainted(jobs: seq<Job>, records: map<Key, Record>, m: nat) {
    && m < |jobs| && jobs[m].key in records
    && records[jobs[m].key].status == Failed && !ReadBack(jobs[m], records[jobs[m].key])
  }

  ghost predicate Condemned(p: Progress, k: Key) {
    k in p.statuses && p.statuses[k] == Failed && k in p.allowed && !p.allowed[k]
  }

  lemma TaintedStep(w: World, gates: set<Key>, jobs: seq<Job>, i: nat, p: Progress, m: nat)
    requires i < |jobs| && Recorded(jobs, p.records) && DistinctKeys(jobs) && Tainted(jobs, p.records, m)
    requires i > m ==> Condemned(p, jobs[m].key)
    ensures var r := Advance(w, gates, jobs[i], p);
            && Tainted(jobs, r.state.records, m) && (i >= m ==> Condemned(r.state, jobs[m].key))
            && (r.Stop? ==> i != m)
  {
    hide Decide, ReadBack;
    OthersKept(w, gates, jobs[i], p);
    if i == m {
      TerminalStep(w, gates, jobs[m], p);
    }
  }

  lemma TerminalStep(w: World, gates: set<Key>, job: Job, p: Progress)
    requires job.key in p.records && Terminal(p.records[job.key].status)
    ensures Advance(w, gates, job, p) ==
            Next(Progress(p.records, p.statuses[job.key := p.records[job.key].status],
                          p.allowed[job.key := ReadBack(job, p.records[job.key])]))
  {
    hide Decide, PersistedAllowed;
  }

  lemma {:induction false} TaintedWalk(w: World, gates: set<Key>, jobs: seq<Job>, i: nat, p: Progress, m: nat)
    requires i <= |jobs| && Recorded(jobs, p.records) && DistinctKeys(jobs) && Tainted(jobs, p.records, m)
    requires i > m ==> Condemned(p, jobs[m].key)
    ensures var e := Walk(w, gates, jobs, i, p);
            if e.Finished? then !e.success else e.at != m && Tainted(jobs, e.state.records, m)
    decreases |jobs| - i
  {
    hide Advance, Tainted, Walk, DistinctKeys;
    WalkStep(w, gates, jobs, i, p);
    if i < |jobs| {
      TaintedStep(w, gates, jobs, i, p, m);
      var r := Advance(w, gates, jobs[i], p);
      if r.Next? {
        TaintedWalk(w, gates, jobs, i + 1, r.state, m);
      }
    } else {
      TaintIsAJob(jobs, p.records, m);
    }
  }

  lemma TaintIsAJob(jobs: seq<Job>, records: map<Key, Record>, m: nat)
    requires Tainted(jobs, records, m)
    ensures m < |jobs|
  {
  }

  /** From a store with such a failure no history succeeds. */
  lemma {:induction false} TaintedDrive(w: World, rounds: seq<Round>, jobs: seq<Job>, records: map<Key, Record>, m: nat)
    requires rounds != [] && Recorded(jobs, records) && DistinctKeys(jobs) && Tainted(jobs, records, m)
    ensures var e := Drive(w, rounds, jobs, records); e.Finished? ==> !e.success
    decreases |rounds|
  {
    hide Walk, ReadBack;
    var p := Progress(records, map[], map[]);
    TaintedWalk(w, rounds[0].gates, jobs, 0, p, m);
    var e := Pass(w, rounds[0].gates, jobs, records);
    if e.Paused? && |rounds| > 1 {
      WalkKeepsRecorded(w, rounds[0].gates, jobs, 0, p);
      TaintedDrive(w, rounds[1..], jobs, Between(jobs, e, rounds[0].played), m);
    }
  }

  /** A misread failure that is settled is such a failure. */
  lemma MisreadTaints(w: World, jobs: seq<Job>, records: map<Key, Record>, n: nat, m: nat)
    requires n <= |jobs| && Consistent(w, jobs, records, n) && m < n && MisreadAt(w, jobs, m)
    ensures Tainted(jobs, records, m)
  {
    hide IdealAfter, SettledRecord, IdealAdvance, ReadBack, Open, Consistent;
    AtSettled(w, jobs, records, n, m);
  }

  // --------------------------------------------- when pauses are transparent, exactly

  /** No history succeeds where the never-pausing walk fails. */
  lemma {:induction false} HistoryWithinIdeal(w: World, rounds: seq<Round>, jobs: seq<Job>, records: map<Key, Record>,
      n: nat)
    requires rounds != [] && DistinctKeys(jobs) && n <= |jobs| && Consistent(w, jobs, records, n) &&
        Recorded(jobs, records)
    ensures var e := Drive(w, rounds, jobs, records); var s := IdealAfter(w, jobs, |jobs|);
            e.Finished? && e.success ==> NoBadFailure(s.statuses, s.allowed)
    decreases |rounds|
  {
    hide Walk, Consistent, DistinctKeys, StopsAt, MisreadAt, IdealAfter, NoBadFailure, InStep;
    if m: nat :| m < n && MisreadAt(w, jobs, m) {
      MisreadTaints(w, jobs, records, n, m);
      TaintedDrive(w, rounds, jobs, records, m);
    } else {
      var p := Progress(records, map[], map[]);
      NothingSeen(w, jobs, records);
      WalkInStep(w, rounds[0].gates, jobs, 0, p, n);
      var e := Pass(w, rounds[0].gates, jobs, records);
      if e.Paused? && |rounds| > 1 {
        WalkKeepsRecorded(w, rounds[0].gates, jobs, 0, p);
        HistoryWithinIdeal(w, rounds[1..], jobs, Between(jobs, e, rounds[0].played), e.at);
      }
    }
  }

  lemma NothingSeen(w: World, jobs: seq<Job>, records: map<Key, Record>)
    ensures InStep(Progress(records, map[], map[]), IdealAfter(w, jobs, 0))
  {
  }

  function Answers(n: nat): (r: seq<Round>)
    ensures |r| == n && AllAnswered(r)
  {
    if n == 0 then [] else [Round({}, true)] + Answers(n - 1)
  }

  ghost predicate EndsBadly(w: World, rounds: seq<Round>, jobs: seq<Job>, records: map<Key, Record>)
    requires Recorded(jobs, records)
  {
    rounds != [] && Drive(w, rounds, jobs, records).Finished? && !Drive(w, rounds, jobs, records).success
  }

  lemma TaintedHistory(w: World, jobs: seq<Job>, records: map<Key, Record>, m: nat) returns (rounds: seq<Round>)
    requires DistinctKeys(jobs) && Recorded(jobs, records) && Tainted(jobs, records, m)
    ensures EndsBadly(w, rounds, jobs, records)
  {
    hide Drive, Tainted;
    UnplayedAreJobs(jobs, records);
    rounds := Answers(|jobs| + 1);
    DriveFinishes(w, rounds, jobs, records);
    TaintedDrive(w, rounds, jobs, records, m);
  }

  lemma OneMoreRound(w: World, gates: set<Key>, jobs: seq<Job>, records: map<Key, Record>, rounds: seq<Round>)
    requires Recorded(jobs, records)
    requires var e := Pass(w, gates, jobs, records);
             && e.Paused? && e.at < |jobs| && Recorded(jobs, e.state.records)
             && EndsBadly(w, rounds, jobs, Between(jobs, e, true))
    ensures EndsBadly(w, [Round(gates, true)] + rounds, jobs, records)
  {
    hide Walk;
    var all := [Round(gates, true)] + rounds;
    assert all[1..] == rounds && all[0] == Round(gates, true);
  }

  /** With a misread failure in front of a job the walk can stop at, some history fails:
      the one that waits at that job and plays every hold. */
  lemma {:induction false} ForgettingHistory(w: World, jobs: seq<Job>, records: map<Key, Record>, n: nat, i: nat,
      j: nat)
    returns (rounds: seq<Round>)
    requires DistinctKeys(jobs) && Recorded(jobs, records) && n <= |jobs| && Consistent(w, jobs, records, n)
    requires n <= i < j < |jobs| && MisreadAt(w, jobs, i) && StopsAt(w, jobs, j)
    ensures EndsBadly(w, rounds, jobs, records)
    decreases |Unplayed(jobs, records)|
  {
    hide Walk, Consistent, DistinctKeys, StopsAt, MisreadAt, IdealAfter, InStep, Drive, Unplayed, EndsBadly;
    if m: nat :| m < n && MisreadAt(w, jobs, m) {
      MisreadTaints(w, jobs, records, n, m);
      rounds := TaintedHistory(w, jobs, records, m);
    } else {
      var p, gates := Progress(records, map[], map[]), {jobs[j].key};
      NothingSeen(w, jobs, records);
      WalkInStep(w, gates, jobs, 0, p, n);
      WalkKeepsRecorded(w, gates, jobs, 0, p);
      var e := Pass(w, gates, jobs, records);
      var later := Between(jobs, e, true);
      if e.at > i {
        MisreadTaints(w, jobs, later, e.at, i);
        rounds := TaintedHistory(w, jobs, later, i);
      } else {
        WaitsOnlyAtGates(w, gates, jobs, 0, p);
        KeysDiffer(jobs, e.at, j);
        PlayedOnce(w, gates, jobs, records);
        rounds := ForgettingHistory(w, jobs, later, e.at, i, j);
      }
      OneMoreRound(w, gates, jobs, records, rounds);
      rounds := [Round(gates, true)] + rounds;
    }
  }

  lemma KeysDiffer(jobs: seq<Job>, i: nat, j: nat)
    requires DistinctKeys(jobs) && i < j < |jobs|
    ensures jobs[i].key != jobs[j].key
  {
  }

  /** However a run forgets, it forgets only leave to fail: over all histories that finish, the
      result is that of the never-pausing walk exactly if that walk fails, or no failure is
      misread in front of a job it can stop at. */
  lemma TransparentExactly(w: World, jobs: seq<Job>, records: map<Key, Record>)
    requires DistinctKeys(jobs) && AllFresh(jobs, records)
    ensures var s := IdealAfter(w, jobs, |jobs|); var ok := NoBadFailure(s.statuses, s.allowed);
            (forall rounds :: EndsLike(w, rounds, jobs, records, ok)) <==> (ok ==> Remembers(w, jobs))
  {
    hide IdealAfter, NoBadFailure, Drive, EndsBadly, Remembers;
    var s := IdealAfter(w, jobs, |jobs|);
    var ok := NoBadFailure(s.statuses, s.allowed);
    FreshIsConsistent(w, jobs, records);
    if Remembers(w, jobs) {
      forall rounds: seq<Round> ensures EndsLike(w, rounds, jobs, records, ok) {
        if rounds != [] {
          PausesAreTransparent(w, rounds, jobs, records);
        }
      }
    } else if !ok {
      forall rounds: seq<Round> ensures EndsLike(w, rounds, jobs, records, ok) {
        if rounds != [] {
          HistoryWithinIdeal(w, rounds, jobs, records, 0);
        }
      }
    } else {
      var i, j := ForgetsSomewhere(w, jobs);
      var rounds := ForgettingHistory(w, jobs, records, 0, i, j);
      EndsBadlyIs(w, rounds, jobs, records);
      assert !EndsLike(w, rounds, jobs, records, ok);
    }
  }

  /** A history that finishes ends with this result. */
  ghost predicate EndsLike(w: World, rounds: seq<Round>, jobs: seq<Job>, records: map<Key, Record>, ok: bool)
    requires Recorded(jobs, records)
  {
    rounds != [] && Drive(w, rounds, jobs, records).Finished? ==> Drive(w, rounds, jobs, records).success == ok
  }

  lemma EndsBadlyIs(w: World, rounds: seq<Round>, jobs: seq<Job>, records: map<Key, Record>)
    requires Recorded(jobs, records) && EndsBadly(w, rounds, jobs, records)
    ensures !EndsLike(w, rounds, jobs, records, true)
  {
    hide Drive;
  }

  lemma FreshIsConsistent(w: World, jobs: seq<Job>, records: map<Key, Record>)
    requires AllFresh(jobs, records)
    ensures Recorded(jobs, records) && Consistent(w, jobs, records, 0)
  {
  }

  lemma ForgetsSomewhere(w: World, jobs: seq<Job>) returns (i: nat, j: nat)
    requires !Remembers(w, jobs)
    ensures i < j < |jobs| && MisreadAt(w, jobs, i) && StopsAt(w, jobs, j)
  {
    hide MisreadAt;
    j :| StopsAt(w, jobs, j) && !Legible(w, jobs, 0, j);
    i :| i < j && MisreadAt(w, jobs, i);
  }

  // ------------------------------------------------- where the verdict does not survive

  /** The verdict on a failure, when the job runs and when a later call reads it back, is the
      same for every exit code exactly if: a job that was not held got its allow_failure from
      the job itself; a job that was held either tolerates every failure or has no exit codes. */
  lemma VerdictSurvivesExactly(job: Job, blocking: Option<bool>, allow: bool)
    requires match blocking case None => job.allowFailure ==> allow case Some(b) => allow == !b
    ensures (forall code ::
        FailureAllowed(job, allow, true, code) == ReadBack(job, Record(Failed, blocking, true, Some(code)))) <==>
            (match blocking case None => allow == job.allowFailure case Some(b) => !b || ExitCodes(job) == [])
  {
    if blocking.None? {
      assert FailureAllowed(job, allow, true, None) == allow;
      assert ReadBack(job, Record(Failed, blocking, true, Some(None))) == job.allowFailure;
    } else if blocking.value && ExitCodes(job) != [] {
      var code := Some(ExitCodes(job)[0]);
      assert FailureAllowed(job, allow, true, code) != ReadBack(job, Record(Failed, blocking, true, Some(code)));
    }
  }

  const HOLDS := Contract("", true)
  const GENTLE := Job("a", [], false, Frozen(HOLDS, {}, [Rule(HOLDS, false, Always, true)], true, Always, []))
  const GATE := Job("b", [], false, Frozen(HOLDS, {}, [], true, ByHand, []))

  lemma GateDecides(w: World, record: Record, allow: bool, statuses: map<Key, Status>, allowed: map<Key, bool>)
    ensures Decide(w, GATE, record, allow, statuses, allowed) == Played(record, allow, !allow)
  {
  }

  lemma GentleRuns(w: World, record: Record, allow: bool, statuses: map<Key, Status>, allowed: map<Key, bool>)
    ensures Decide(w, GENTLE, record, allow, statuses, allowed) == Run(true)
  {
  }

  /** The never-pausing walk over the two jobs. */
  lemma GentleIdeal(w: World)
    requires w.execute("a") == Outcome(true, None) && w.execute("b") == Outcome(false, None)
    ensures IdealAfter(w, [GENTLE, GATE], 2) ==
        Ideal(map["a" := Failed, "b" := Succeeded], map["a" := true, "b" := false])
  {
    hide Decide;
    var jobs := [GENTLE, GATE];
    GentleRuns(w, FRESH, false, map[], map[]);
    var s1 := IdealAfter(w, jobs, 1);
    assert s1 == IdealAdvance(w, GENTLE, IdealAfter(w, jobs, 0)) == Ideal(map["a" := Failed], map["a" := true]);
    GateDecides(w, FRESH, false, s1.statuses, s1.allowed);
    assert IdealAfter(w, jobs, 2) == IdealAdvance(w, GATE, s1);
  }

  const RAN := Record(Failed, None, false, Some(None))
  const HELD := Record(ManualHold, Some(true), false, None)

  /** The first call runs one job and holds the other. */
  lemma GentleFirst(w: World, records: map<Key, Record>)
    requires w.execute("a") == Outcome(true, None) && records == map["a" := FRESH, "b" := FRESH]
    ensures Recorded([GENTLE, GATE], records)
    ensures var e := Pass(w, {}, [GENTLE, GATE], records);
            e.Paused? && e.at == 1 && e.state.records == map["a" := RAN, "b" := HELD]
  {
    hide Decide, NoBadFailure;
    var jobs := [GENTLE, GATE];
    var p0 := Progress(records, map[], map[]);
    GentleRuns(w, FRESH, false, map[], map["a" := false]);
    var p1 := Advance(w, {}, GENTLE, p0).state;
    assert p1 == Progress(records["a" := RAN], map["a" := Failed], map["a" := true]);
    GateDecides(w, FRESH, false, p1.statuses, p1.allowed["b" := false]);
    WalkStep(w, {}, jobs, 0, p0);
    WalkStep(w, {}, jobs, 1, p1);
  }

  /** The second reads the failure back without leave. */
  lemma GentleSecond(w: World, records: map<Key, Record>)
    requires w.execute("b") == Outcome(false, None) && records == map["a" := RAN, "b" := Resumed(HELD)]
    ensures Recorded([GENTLE, GATE], records)
    ensures var e := Pass(w, {}, [GENTLE, GATE], records);
            e.Finished? && !e.success && e.state.statuses == map["a" := Failed, "b" := Succeeded]
  {
    hide Decide, NoBadFailure;
    var jobs := [GENTLE, GATE];
    var q0 := Progress(records, map[], map[]);
    var q1 := Advance(w, {}, GENTLE, q0).state;
    assert q1 == Progress(records, map["a" := Failed], map["a" := false]);
    GateDecides(w, Resumed(HELD), false, q1.statuses, q1.allowed["b" := false]);
    var q2 := Advance(w, {}, GATE, q1).state;
    assert q2.statuses == map["a" := Failed, "b" := Succeeded] && q2.allowed == map["a" := false, "b" := false];
    WalkStep(w, {}, jobs, 0, q0);
    WalkStep(w, {}, jobs, 1, q1);
    WalkStep(w, {}, jobs, 2, q2);
    NoBadFailureOfTwo(q2.statuses, q2.allowed);
  }

  /** A rule's allow_failure is not persisted: a job that failed under such a rule, followed
      by a hold, fails the run once it is resumed, though the walk that never paused succeeds. */
  lemma RuleAllowanceIsForgotten(w: World)
    requires w.execute("a") == Outcome(true, None) && w.execute("b") == Outcome(false, None)
    ensures var jobs := [GENTLE, GATE]; var s := IdealAfter(w, jobs, 2);
            var e := Drive(w, [Round({}, true), Round({}, true)], jobs, map["a" := FRESH, "b" := FRESH]);
            && NoBadFailure(s.statuses, s.allowed)
            && e.Finished? && e.state.statuses == s.statuses && !e.success
  {
    hide IdealAfter, NoBadFailure, Walk, Decide;
    var jobs := [GENTLE, GATE];
    var records := map["a" := FRESH, "b" := FRESH];
    GentleIdeal(w);
    NoBadFailureOfTwo(IdealAfter(w, jobs, 2).statuses, IdealAfter(w, jobs, 2).allowed);
    GentleFirst(w, records);
    var again := Between(jobs, Pass(w, {}, jobs, records), true);
    assert again == map["a" := RAN, "b" := Resumed(HELD)];
    GentleSecond(w, again);
  }

  lemma NoBadFailureOfTwo(statuses: map<Key, Status>, allowed: map<Key, bool>)
    requires statuses == map["a" := Failed, "b" := Succeeded] && "a" in allowed
    ensures NoBadFailure(statuses, allowed) == allowed["a"]
  {
    assert "a" in statuses && statuses["a"] == Failed;
  }
}
