// The loop of executeRun over the store, proved to compute the walk of RunMachine.
module RunManager {
  import opened RunMachine

  method EvaluateJobExecution(w: World, job: Job, record: Record, allow: bool, statuses: map<Key, Status>,
      allowed: map<Key, bool>)
    returns (decision: Decision)
    ensures decision == Decide(w, job, record, allow, statuses, allowed)
  {
    hide ContractHolds, Ready, Successful, HasFailed, DecideRules;
    if job.semantics.Invalid? {
      return Skip(allow, false);
    }
    var ready, successful, failed := DependencyState(job.deps, statuses, allowed, OptionalNeeds(job));
    if !ready {
      return Skip(allow, true);
    }
    if job.semantics.Absent? {
      return if successful then Run(allow) else Skip(allow, false);
    }
    var view := View(successful, failed, map d | d in job.deps && d in statuses :: statuses[d]);
    assert view == ViewOf(job, statuses, allowed);
    var semantics := job.semantics;
    if !ContractHolds(w, semantics.condition, view) {
      return Skip(allow, false);
    }
    if semantics.rules != [] {
      decision := FirstMatchingRule(w, semantics.rules, record, allow, view);
      return;
    }
    if !semantics.refsAdmit || semantics.when.Never? || semantics.when.Delayed? {
      return Skip(allow, false);
    }
    return if semantics.when.ByHand? then Played(record, allow, !allow) else Run(allow);
  }

  method FirstMatchingRule(w: World, rules: seq<Rule>, record: Record, allow: bool, view: View)
    returns (decision: Decision)
    ensures decision == DecideRules(w, rules, record, allow, view)
  {
    hide ContractHolds;
    for n := 0 to |rules|
      invariant DecideRules(w, rules, record, allow, view) == DecideRules(w, rules[n..], record, allow, view)
    {
      var rule := rules[n];
      assert rules[n..][0] == rule && rules[n..][1..] == rules[n + 1..];
      if rule.filesystem {
        return Skip(allow, false);
      }
      if !ContractHolds(w, rule.condition, view) {
        if rule.condition.expression != "" && !rule.condition.evaluable {
          return Skip(allow, false);
        }
        continue;
      }
      if rule.when.ByHand? {
        return Played(record, rule.allowFailure, !rule.allowFailure);
      }
      if rule.when.Never? || rule.when.Delayed? {
        return Skip(allow, false);
      }
      return Run(allow || rule.allowFailure);
    }
    return Skip(allow, false);
  }

  /** Whether no job failed without leave, found by going over the statuses in any order. */
  method RunResult(statuses: map<Key, Status>, allowed: map<Key, bool>) returns (success: bool)
    ensures success == NoBadFailure(statuses, allowed)
  {
    var remaining := statuses.Keys;
    while remaining != {}
      invariant remaining <= statuses.Keys
      invariant forall k :: k in statuses && k !in remaining && statuses[k] == Failed ==> k in allowed && allowed[k]
      decreases |remaining|
    {
      var k :| k in remaining;
      if statuses[k] == Failed && !(k in allowed && allowed[k]) {
        return false;
      }
      remaining := remaining - {k};
    }
    return true;
  }

  class Manager {
    var records: map<Key, Record>

    constructor (records: map<Key, Record>)
      ensures this.records == records
    {
      this.records := records;
    }

    method PauseManualJob(k: Key, blocking: bool)
      requires k in records
      modifies this
      ensures records == old(records)[k := old(records)[k].(status := ManualHold, blocking := Some(blocking))]
    {
      records := records[k := records[k].(status := ManualHold, blocking := Some(blocking))];
    }

    method SetStatus(k: Key, status: Status)
      requires k in records
      modifies this
      ensures records == old(records)[k := old(records)[k].(status := status)]
    {
      records := records[k := records[k].(status := status)];
    }

    method ExecuteJobWithRetry(w: World, k: Key) returns (outcome: Outcome)
      requires k in records
      modifies this
      ensures outcome == w.execute(k)
      ensures records == old(records)[k := old(records)[k].(status := if outcome.failed then Failed else Succeeded,
                                                            attempt := Some(outcome.exitCode))]
    {
      outcome := w.execute(k);
      records := records[k := records[k].(status := if outcome.failed then Failed else Succeeded,
          attempt := Some(outcome.exitCode))];
    }

    /** What a decision does to the store and to the two maps of the loop. */
    method CarryOut(w: World, gates: set<Key>, job: Job, decision: Decision, before: map<Key, Status>,
        verdicts: map<Key, bool>,
                    ghost p: Progress)
      returns (goOn: bool, statuses: map<Key, Status>, allowed: map<Key, bool>)
      requires job.key in records && p.records == records && p.statuses == before
      modifies this
      ensures Apply(w, gates, job, p, verdicts, decision) ==
              if goOn then Next(Progress(records, statuses, allowed)) else Stop(Progress(records, statuses, allowed))
    {
      hide FailureAllowed;
      var k := job.key;
      match decision
      case Hold(blocking) =>
        if records[k].status != ManualHold {
          PauseManualJob(k, blocking);
        }
        return !blocking, before[k := ManualHold], verdicts[k := !blocking];
      case Skip(allowFailure, _) =>
        SetStatus(k, Skipped);
        return true, before[k := Skipped], verdicts[k := allowFailure];
      case Run(allowFailure) =>
        if k in gates {
          SetStatus(k, Waiting);
          return false, before, verdicts[k := allowFailure];
        }
        var outcome := ExecuteJobWithRetry(w, k);
        var verdict := FailureAllowed(job, allowFailure, outcome.failed, outcome.exitCode);
        return true, before[k := if outcome.failed then Failed else Succeeded], verdicts[k := verdict];
    }

    /** One round of the loop: goOn is false when the run pauses. */
    method ExecuteJob(w: World, gates: set<Key>, job: Job, before: map<Key, Status>, verdicts: map<Key, bool>)
      returns (goOn: bool, statuses: map<Key, Status>, allowed: map<Key, bool>)
      requires job.key in records
      modifies this
      ensures Advance(w, gates, job, Progress(old(records), before, verdicts)) ==
              if goOn then Next(Progress(records, statuses, allowed)) else Stop(Progress(records, statuses, allowed))
    {
      hide Decide, PersistedAllowed, Apply;
      var k, record := job.key, records[job.key];
      var allow, seen := job.allowFailure, PersistedAllowed(job, record);
      if record.blocking.Some? {
        allow := !record.blocking.value;
        seen := allow;
      }
      if Terminal(record.status) {
        return true, before[k := record.status], verdicts[k := seen];
      }
      var decision := EvaluateJobExecution(w, job, record, allow, before, verdicts[k := seen]);
      goOn, statuses, allowed := CarryOut(w, gates, job, decision, before, verdicts[k := seen],
          Progress(records, before, verdicts));
    }

    /** executeRun: the store and the answer are those of a pass over what the store held. */
    method ExecuteRun(w: World, gates: set<Key>, jobs: seq<Job>) returns (finished: bool, success: bool)
      requires Recorded(jobs, records)
      modifies this
      ensures var e := Pass(w, gates, jobs, old(records));
              && records == e.state.records && finished == e.Finished? && (finished ==> success == e.success)
    {
      var statuses: map<Key, Status>, allowed: map<Key, bool> := map[], map[];
      for i := 0 to |jobs|
        invariant Recorded(jobs, records)
        invariant Pass(w, gates, jobs, old(records)) == Walk(w, gates, jobs, i, Progress(records, statuses, allowed))
      {
        WalkStep(w, gates, jobs, i, Progress(records, statuses, allowed));
        hide Advance;
        var goOn;
        goOn, statuses, allowed := ExecuteJob(w, gates, jobs[i], statuses, allowed);
        if !goOn {
          return false, false;
        }
      }
      success := RunResult(statuses, allowed);
      return true, success;
    }
  }
}
