/**
 The executor process itself: the index files as fields that its methods re-read, mark and write
 back, proved against the functions of `StepExecutor`.
 */
module HarnessProcess {
  import opened Wrappers
  import opened StepExecutor

  lemma MarkRowFrom(rows: seq<PhaseRow>, i: nat, dir: string, status: string)
    requires i < |rows|
    ensures rows[..i] + MarkRow(rows[i..], dir, status) ==
      if rows[i].dir == dir then rows[i := rows[i].(status := status)]
          else rows[..i + 1] + MarkRow(rows[i + 1..], dir, status)
  {
  }

  class StepExecutorProcess {
    const phaseDir: string
    const agent: Agent
    var steps: seq<Step>
    var top: Option<seq<PhaseRow>>
    var invoked: seq<Invocation>

    function View(): Disk
      reads this
    {
      Disk(steps, top, invoked)
    }

    constructor (phaseDir: string, agent: Agent, steps: seq<Step>, top: Option<seq<PhaseRow>>)
      ensures this.phaseDir == phaseDir && this.agent == agent && View() == Disk(steps, top, [])
    {
      this.phaseDir, this.agent, this.steps, this.top, this.invoked := phaseDir, agent, steps, top, [];
    }

    method UpdateTopIndex(status: string)
      modifies this`top
      ensures View() == UpdateTop(old(View()), phaseDir, status)
    {
      if top.None? {
        return;
      }
      var rows := top.value;
      ghost var marked := MarkRow(rows, phaseDir, status);
      var i := 0;
      while i < |rows|
        invariant 0 <= i <= |rows| && marked == rows[..i] + MarkRow(rows[i..], phaseDir, status)
      {
        MarkRowFrom(rows, i, phaseDir, status);
        if rows[i].dir == phaseDir {
          rows := rows[i := rows[i].(status := status)];
          break;
        }
        i := i + 1;
      }
      assert rows == marked;
      top := Some(rows);
    }

    method ResetMatching(num: int)
      modifies this`steps
      ensures steps == ResetAll(old(steps), num)
    {
      var i := 0;
      while i < |steps|
        invariant 0 <= i <= |steps| == |old(steps)|
        invariant forall k :: 0 <= k < i ==> steps[k] == ResetRecord(old(steps)[k], num)
        invariant forall k :: i <= k < |steps| ==> steps[k] == old(steps)[k]
      {
        if steps[i].num == num {
          steps := steps[i := steps[i].(status := Pending, errorMessage := None)];
        }
        i := i + 1;
      }
    }

    method FailMatching(num: int, error: string)
      modifies this`steps
      ensures steps == FailAll(old(steps), num, error)
    {
      var i := 0;
      while i < |steps|
        invariant 0 <= i <= |steps| == |old(steps)|
        invariant forall k :: 0 <= k < i ==> steps[k] == FailRecord(old(steps)[k], num, error)
        invariant forall k :: i <= k < |steps| ==> steps[k] == old(steps)[k]
      {
        if steps[i].num == num {
          steps := steps[i := steps[i].(status := Error, errorMessage := Some(FAILURE_PREFIX + error))];
        }
        i := i + 1;
      }
    }

    /** One pass through the retry loop of `_execute_single_step`. */
    method AttemptStep(num: int, p: nat, attempt: nat, prevError: Option<string>) returns (r: Attempted)
      requires p < |steps|
      modifies this
      ensures r == Attempt(old(View()), phaseDir, num, p, attempt, prevError, agent) && View() == r.disk
    {
      var reply := agent(|invoked|, steps);
      if reply.StepFileMissing? {
        return Stopped(View(), Exit(1));
      }
      steps := steps[p := reply.record];
      invoked := invoked + [Invocation(num, attempt, prevError)];
      if reply.Died? {
        return Stopped(View(), Raised);
      }
      var status := StatusOf(steps, num);
      if status.Completed? {
        return Finished(View());
      }
      if status.Blocked? {
        UpdateTopIndex("blocked");
        return Stopped(View(), Exit(2));
      }
      var error := ErrorOf(steps, num);
      if attempt < MAX_RETRIES {
        ResetMatching(num);
        return Again(View(), error);
      }
      FailMatching(num, error);
      UpdateTopIndex("error");
      return Stopped(View(), Exit(1));
    }

    /** `_execute_single_step` for the record at position `p`. */
    method ExecuteSingleStep(p: nat) returns (done: bool, outcome: Outcome)
      requires p < |steps|
      modifies this
      ensures var r := RunStep(old(View()), phaseDir, old(steps[p].num), p, 1, None, agent);
              View() == r.disk && done == r.Finished? && (r.Stopped? ==> outcome == r.outcome)
    {
      var num := steps[p].num;
      var prevError := None;
      ghost var all := RunStep(View(), phaseDir, num, p, 1, None, agent);
      for attempt := 1 to MAX_RETRIES + 1
        invariant p < |steps| && (attempt <= MAX_RETRIES ==>
            all == RunStep(View(), phaseDir, num, p, attempt, prevError, agent))
        invariant attempt <= MAX_RETRIES
      {
        ghost var before := View();
        var r := AttemptStep(num, p, attempt, prevError);
        AfterAttempt(before, phaseDir, num, p, attempt, prevError, agent);
        if r.Finished? {
          return true, Returned;
        }
        if r.Stopped? {
          return false, r.outcome;
        }
        prevError := Some(r.error);
      }
      assert false;
    }

    /** `_execute_all_steps`: it ends because the number of pending steps falls in every turn. */
    method ExecuteAllSteps() returns (outcome: Outcome)
      requires PendingNumbersUnique(steps)
      modifies this
      ensures (View(), outcome) == ExecuteAll(old(View()), phaseDir, agent)
    {
      ghost var all := ExecuteAll(View(), phaseDir, agent);
      while true
        invariant PendingNumbersUnique(steps) && all == ExecuteAll(View(), phaseDir, agent)
        decreases PendingCount(steps)
      {
        var pending := FirstPending(steps);
        if pending.None? {
          return Returned;
        }
        RoundShrinksPending(View(), phaseDir, agent);
        var done, stopped := ExecuteSingleStep(pending.value);
        if !done {
          return stopped;
        }
      }
    }

    /** `_check_blockers`, scanning from the last step. */
    method CheckForBlockers() returns (code: Option<nat>)
      ensures code == CheckBlockers(steps)
    {
      var i := |steps|;
      assert steps[..i] == steps;
      while i > 0
        invariant 0 <= i <= |steps| && CheckBlockers(steps) == CheckBlockers(steps[..i])
      {
        i := i - 1;
        assert steps[..i + 1][..i] == steps[..i];
        match steps[i].status
        case Error => return Some(1);
        case Blocked => return Some(2);
        case Pending =>
        case Completed => return None;
        case Other(_) => return None;
      }
      return None;
    }

    /** `run`. */
    method Execute(env: Env) returns (outcome: Outcome)
      requires PendingNumbersUnique(steps)
      modifies this
      ensures (View(), outcome) == Run(old(View()), phaseDir, agent, env)
    {
      var blocker := CheckForBlockers();
      if blocker.Some? {
        return Exit(blocker.value);
      }
      if !env.branchOk {
        return Exit(1);
      }
      outcome := ExecuteAllSteps();
      if !outcome.Returned? {
        return;
      }
      UpdateTopIndex("completed");
      if !env.pushOk {
        return Exit(1);
      }
    }
  }
}
