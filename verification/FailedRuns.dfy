/**
 Runs of the executor that stop (scripts/execute.py): what they leave, for every agent; exactly when the
 shape of the index survives, and exactly when a rerun is blocked.
 */
module FailedRuns {
  import opened Wrappers
  import opened StepExecutor

  /** The last reply, of those to the remaining attempts at a step, that rewrote the record. */
  function LastWriting(d: Disk, dir: string, num: int, p: nat, attempt: nat, prev: Option<string>, agent: Agent): Reply
    requires p < |d.steps| && 1 <= attempt <= MAX_RETRIES
    decreases MAX_RETRIES - attempt
  {
    var reply := agent(|d.invoked|, d.steps);
    var r := Attempt(d, dir, num, p, attempt, prev, agent);
    if r.Again? && attempt < MAX_RETRIES then
      var later := LastWriting(r.disk, dir, num, p, attempt + 1, Some(r.error), agent);
      if later.StepFileMissing? then reply else later
    else reply
  }

  /** The reply to the last attempt at a step. */
  function LastReply(d: Disk, dir: string, num: int, p: nat, attempt: nat, prev: Option<string>, agent: Agent): Reply
    requires p < |d.steps| && 1 <= attempt <= MAX_RETRIES
    decreases MAX_RETRIES - attempt
  {
    var r := Attempt(d, dir, num, p, attempt, prev, agent);
    if r.Again? && attempt < MAX_RETRIES then LastReply(r.disk, dir, num, p, attempt + 1, Some(r.error), agent)
    else agent(|d.invoked|, d.steps)
  }

  /** Where the loop stops, the last reply there, and the last one that rewrote the record. */
  datatype Stopping = Stopping(at: nat, last: Reply, written: Reply)

  ghost function StopOf(d: Disk, dir: string, agent: Agent): Option<Stopping>
    requires PendingNumbersUnique(d.steps)
    decreases PendingCount(d.steps)
  {
    match OneRound(d, dir, agent)
    case AllDone => None
    case Stop(_, _) =>
      var p := FirstPending(d.steps).value;
      var num := d.steps[p].num;
      Some(Stopping(p, LastReply(d, dir, num, p, 1, None, agent), LastWriting(d, dir, num, p, 1, None, agent)))
    case Next(d1) => RoundShrinksPending(d, dir, agent); StopOf(d1, dir, agent)
  }

  /** The record that a stop leaves, given the one before and the last reply that rewrote it. */
  predicate IsLeft(record: Step, before: Step, num: int, reply: Reply) {
    if reply.StepFileMissing? then record == before
    else if reply.record.num == num then
      record.num == num && (Standard(record.status) <==> (reply.Died? ==> Standard(reply.record.status)))
    else record == reply.record
  }

  /** How the last reply decides the outcome, and the record if its number is kept. */
  predicate IsEnding(record: Step, o: Outcome, num: int, last: Reply) {
    match last
    case StepFileMissing => o == Exit(1) && (record.num == num ==> record.status.Pending?)
    case Died(_) => o == Raised
    case Wrote(_) =>
      || (o == Exit(2) && record.num == num && record.status.Blocked?)
      || (o == Exit(1) && (record.num == num ==>
            record.status.Error? && record.errorMessage.Some? && FAILURE_PREFIX <= record.errorMessage.value))
  }

  lemma AttemptEnds(d: Disk, dir: string, num: int, p: nat, attempt: nat, prev: Option<string>, agent: Agent)
    requires OthersDiffer(d.steps, p, num) && 1 <= attempt <= MAX_RETRIES
    requires d.steps[p].num == num ==> d.steps[p].status.Pending?
    ensures var r := Attempt(d, dir, num, p, attempt, prev, agent);
      && (r.Stopped? ==> p < |r.disk.steps| && IsEnding(r.disk.steps[p], r.outcome, num, agent(|d.invoked|, d.steps)))
      && (r.Again? ==> attempt < MAX_RETRIES && OthersDiffer(r.disk.steps, p, num)
                       && (r.disk.steps[p].num == num ==> r.disk.steps[p].status.Pending?))
  {
    var reply := agent(|d.invoked|, d.steps);
    if !reply.StepFileMissing? {
      MarksEffect(d.steps, p, num, reply.record, ErrorOf(d.steps[p := reply.record], num));
    }
  }

  lemma {:induction false} StepEnds(d: Disk, dir: string, num: int, p: nat, attempt: nat, prev: Option<string>,
                                    agent: Agent)
    requires OthersDiffer(d.steps, p, num) && 1 <= attempt <= MAX_RETRIES
    requires d.steps[p].num == num ==> d.steps[p].status.Pending?
    ensures var r := RunStep(d, dir, num, p, attempt, prev, agent);
      r.Stopped? ==>
        p < |r.disk.steps| && IsEnding(r.disk.steps[p], r.outcome, num, LastReply(d, dir, num, p, attempt, prev, agent))
    decreases MAX_RETRIES - attempt
  {
    AttemptEnds(d, dir, num, p, attempt, prev, agent);
    AfterAttempt(d, dir, num, p, attempt, prev, agent);
    var r := Attempt(d, dir, num, p, attempt, prev, agent);
    if r.Again? {
      StepEnds(r.disk, dir, num, p, attempt + 1, Some(r.error), agent);
    }
  }

  lemma AttemptLeaves(d: Disk, dir: string, num: int, p: nat, attempt: nat, prev: Option<string>, agent: Agent)
    requires OthersDiffer(d.steps, p, num) && 1 <= attempt <= MAX_RETRIES
    ensures var r := Attempt(d, dir, num, p, attempt, prev, agent); var reply := agent(|d.invoked|, d.steps);
      && (!r.Finished? ==> p < |r.disk.steps| && IsLeft(r.disk.steps[p], d.steps[p], num, reply))
      && (r.Again? ==> attempt < MAX_RETRIES && reply.Wrote? && OthersDiffer(r.disk.steps, p, num))
  {
    var reply := agent(|d.invoked|, d.steps);
    if !reply.StepFileMissing? {
      MarksEffect(d.steps, p, num, reply.record, ErrorOf(d.steps[p := reply.record], num));
    }
  }

  lemma {:induction false} StepLeaves(d: Disk, dir: string, num: int, p: nat, attempt: nat, prev: Option<string>,
                                      agent: Agent)
    requires OthersDiffer(d.steps, p, num) && 1 <= attempt <= MAX_RETRIES
    ensures var r := RunStep(d, dir, num, p, attempt, prev, agent);
      r.Stopped? ==>
        && p < |r.disk.steps|
        && IsLeft(r.disk.steps[p], d.steps[p], num, LastWriting(d, dir, num, p, attempt, prev, agent))
    decreases MAX_RETRIES - attempt
  {
    AttemptLeaves(d, dir, num, p, attempt, prev, agent);
    AfterAttempt(d, dir, num, p, attempt, prev, agent);
    var r := Attempt(d, dir, num, p, attempt, prev, agent);
    if r.Again? {
      StepLeaves(r.disk, dir, num, p, attempt + 1, Some(r.error), agent);
    }
  }

  /** What the loop has done where it stops. */
  ghost predicate StoppedAt(d: Disk, after: Disk, o: Outcome, stop: Option<Stopping>, agent: Agent) {
    match stop
    case None => RanTo(d, after, o, |d.steps|, agent)
    case Some(Stopping(q, last, written)) =>
      && q < |d.steps| && d.steps[q].status.Pending? && RanTo(d, after, o, q, agent)
      && IsLeft(after.steps[q], d.steps[q], d.steps[q].num, written)
      && IsEnding(after.steps[q], o, d.steps[q].num, last)
  }

  lemma StopEffect(d: Disk, dir: string, agent: Agent, p: nat)
    requires PendingNumbersUnique(d.steps) && FirstPending(d.steps) == Some(p) && OneRound(d, dir, agent).Stop?
    ensures var r := OneRound(d, dir, agent); StoppedAt(d, r.disk, r.outcome, StopOf(d, dir, agent), agent)
  {
    RoundEffect(d, dir, agent, p);
    StepLeaves(d, dir, d.steps[p].num, p, 1, None, agent);
    StepEnds(d, dir, d.steps[p].num, p, 1, None, agent);
  }

  lemma NextStops(d: Disk, mid: Disk, after: Disk, o: Outcome, p: nat, stop: Option<Stopping>, agent: Agent)
    requires FirstPending(d.steps) == Some(p) && OnlyAt(d.steps, mid.steps, p) && mid.steps[p].status.Completed?
    requires InvokedOnly(d, mid, d.steps[p].num, MAX_RETRIES) && mid.top == d.top
    requires PendingCount(mid.steps) == PendingCount(d.steps) - 1 && StoppedAt(mid, after, o, stop, agent)
    ensures StoppedAt(d, after, o, stop, agent)
  {
    NextRan(d, mid, after, o, p, if stop.Some? then stop.value.at else |d.steps|, agent);
  }

  lemma {:induction false} ExecuteStops(d: Disk, dir: string, agent: Agent)
    requires PendingNumbersUnique(d.steps)
    ensures var (after, o) := ExecuteAll(d, dir, agent); StoppedAt(d, after, o, StopOf(d, dir, agent), agent)
    decreases PendingCount(d.steps)
  {
    var first := FirstPending(d.steps);
    if first.Some? {
      RoundEffect(d, dir, agent, first.value);
      var r := OneRound(d, dir, agent);
      if r.Next? {
        RoundShrinksPending(d, dir, agent);
        ExecuteStops(r.disk, dir, agent);
        var (after, o) := ExecuteAll(r.disk, dir, agent);
        NextStops(d, r.disk, after, o, first.value, StopOf(r.disk, dir, agent), agent);
      } else {
        StopEffect(d, dir, agent, first.value);
      }
    }
  }

  // ----- the shape after a run -----

  /** The last reply does no harm: under the number of the step it may leave anything, unless it is the reply of
      an agent that died; under another number, that must be free; and the status must be a documented one. */
  ghost predicate IsHarmless(steps: seq<Step>, q: nat, reply: Reply)
    requires q < |steps|
  {
    match reply
    case StepFileMissing => true
    case Wrote(record) => record.num == steps[q].num || (OthersDiffer(steps, q, record.num) && Standard(record.status))
    case Died(record) => OthersDiffer(steps, q, record.num) && Standard(record.status)
  }

  /** The run gets to the loop. */
  predicate Starts(d: Disk, env: Env) {
    CheckBlockers(d.steps).None? && env.branchOk
  }

  /** Where a loop that started from a sound index has stopped, all in front is completed and all behind pending. */
  ghost predicate IsSplit(steps: seq<Step>, q: nat) {
    && q < |steps| && (forall i :: 0 <= i < q ==> steps[i].status.Completed?)
    && (forall i :: q < i < |steps| ==> steps[i].status.Pending?)
  }

  lemma SoundSplits(d: Disk, dir: string, after: Disk, o: Outcome, q: nat, agent: Agent)
    requires HistorySound(d, dir) && CheckBlockers(d.steps).None?
    requires q < |d.steps| && d.steps[q].status.Pending? && RanTo(d, after, o, q, agent)
    ensures IsSplit(after.steps, q)
  {
    var k: nat :| ShapeAt(d.steps, k);
    BlockersIff(d.steps);
    assert !LastFailure(d.steps, k);
  }

  lemma SplitIsSoundIff(d: Disk, dir: string, q: nat)
    requires IsSplit(d.steps, q) && (forall i, j :: 0 <= i < j < |d.steps| && i != q && j != q ==>
        d.steps[i].num != d.steps[j].num)
    requires !TopSays(d, dir, "completed")
    ensures HistorySound(d, dir) <==> OthersDiffer(d.steps, q, d.steps[q].num) && Standard(d.steps[q].status)
  {
    if OthersDiffer(d.steps, q, d.steps[q].num) && Standard(d.steps[q].status) {
      assert ShapeAt(d.steps, q);
    }
    if HistorySound(d, dir) {
      var k: nat :| ShapeAt(d.steps, k);
      assert k < q ==> d.steps[q].status.Pending?;
    }
  }

  lemma StoppedIsSoundIff(d: Disk, dir: string, agent: Agent, after: Disk, o: Outcome, stop: Stopping)
    requires HistorySound(d, dir) && CheckBlockers(d.steps).None? && !TopSays(after, dir, "completed")
    requires StoppedAt(d, after, o, Some(stop), agent)
    ensures HistorySound(after, dir) <==> IsHarmless(d.steps, stop.at, stop.written)
  {
    var q := stop.at;
    SoundSplits(d, dir, after, o, q, agent);
    SplitIsSoundIff(after, dir, q);
    assert forall i :: 0 <= i < |d.steps| && i != q ==> after.steps[i].num == d.steps[i].num;
    assert OthersDiffer(d.steps, q, d.steps[q].num);
    assert OthersDiffer(after.steps, q, after.steps[q].num) <==> OthersDiffer(d.steps, q, after.steps[q].num);
  }

  /** For every agent: a run from a sound index leaves a sound index exactly when it does not stop in the loop,
      or the last reply that rewrote the record there does no harm. */
  lemma RunKeepsSoundIff(d: Disk, dir: string, agent: Agent, env: Env)
    requires HistorySound(d, dir)
    ensures PendingNumbersUnique(d.steps)
    ensures HistorySound(Run(d, dir, agent, env).0, dir) <==> IsHarmlessRun(d, dir, agent, env)
  {
    DistinctIsUnique(d.steps);
    if Starts(d, env) {
      ExecuteStops(d, dir, agent);
      ExecuteTop(d, dir, agent);
      var (after, o) := ExecuteAll(d, dir, agent);
      match StopOf(d, dir, agent) {
        case None => ReturnedIsSound(d, dir, after, o, agent);
        case Some(stop) =>
          assert !AllCompleted(d.steps) && !TopSays(after, dir, "completed");
          StoppedIsSoundIff(d, dir, agent, after, o, stop);
      }
    }
  }

  /** The run does not stop in the loop, or the last reply that rewrote the record there does no harm. */
  ghost predicate IsHarmlessRun(d: Disk, dir: string, agent: Agent, env: Env)
    requires PendingNumbersUnique(d.steps)
  {
    Starts(d, env) && StopOf(d, dir, agent).Some? ==>
      var stop := StopOf(d, dir, agent).value; stop.at < |d.steps| && IsHarmless(d.steps, stop.at, stop.written)
  }

  ghost predicate AllHarmless(d: Disk, dir: string, actions: seq<Action>)
    requires IsHistory(d, dir, actions)
    decreases |actions|
  {
    actions != [] ==>
      && (actions[0].RunOnce? ==> IsHarmlessRun(d, dir, actions[0].agent, actions[0].env))
      && AllHarmless(Act(d, dir, actions[0]), dir, actions[1..])
  }

  /** The index is sound after every action. */
  ghost predicate SoundThroughout(d: Disk, dir: string, actions: seq<Action>)
    requires IsHistory(d, dir, actions)
    decreases |actions|
  {
    HistorySound(d, dir) && (actions != [] ==> SoundThroughout(Act(d, dir, actions[0]), dir, actions[1..]))
  }

  /** For all agents, over any sequence of runs and resets: the index stays sound throughout exactly when every run
      is harmless. */
  lemma {:induction false} HistoryIsSoundIff(d: Disk, dir: string, actions: seq<Action>)
    requires HistorySound(d, dir) && IsHistory(d, dir, actions)
    ensures SoundThroughout(d, dir, actions) <==> AllHarmless(d, dir, actions)
    decreases |actions|
  {
    if actions != [] {
      var after := Act(d, dir, actions[0]);
      match actions[0] {
        case RunOnce(agent, env) => RunKeepsSoundIff(d, dir, agent, env);
        case ResetStep(i) => ResetKeepsSound(d, dir, i);
      }
      if HistorySound(after, dir) {
        HistoryIsSoundIff(after, dir, actions[1..]);
      }
    }
  }

  lemma ReturnedIsSound(d: Disk, dir: string, after: Disk, o: Outcome, agent: Agent)
    requires HistorySound(d, dir) && CheckBlockers(d.steps).None? && RanTo(d, after, o, |d.steps|, agent)
    ensures o.Returned? && HistorySound(UpdateTop(after, dir, "completed"), dir)
  {
    var k: nat :| ShapeAt(d.steps, k);
    BlockersIff(d.steps);
    assert !LastFailure(d.steps, k);
    assert AllCompleted(after.steps);
    AllCompletedIsSound(UpdateTop(after, dir, "completed"), dir);
    assert OutcomeSound(UpdateTop(after, dir, "completed"), dir, Returned);
  }

  /** An agent that dies at the first pending step. */
  lemma DeathStops(d: Disk, dir: string, agent: Agent, p: nat, record: Step)
    requires PendingNumbersUnique(d.steps) && FirstPending(d.steps) == Some(p)
    requires agent(|d.invoked|, d.steps) == Died(record)
    ensures StopOf(d, dir, agent) == Some(Stopping(p, Died(record), Died(record)))
  {
    AfterAttempt(d, dir, d.steps[p].num, p, 1, None, agent);
  }

  /** The shape needs a documented status from an agent that dies: from every sound index that can be worked on,
      a death that leaves another status breaks it. */
  lemma UnknownStatusBreaksShape(d: Disk, dir: string, agent: Agent, env: Env, p: nat, status: Status)
    requires HistorySound(d, dir) && Starts(d, env) && FirstPending(d.steps) == Some(p) && status.Other?
    requires forall n, steps :: agent(n, steps) == Died(d.steps[p].(status := status))
    ensures PendingNumbersUnique(d.steps) && !HistorySound(Run(d, dir, agent, env).0, dir)
  {
    RunKeepsSoundIff(d, dir, agent, env);
    DeathStops(d, dir, agent, p, d.steps[p].(status := status));
  }

  /** It needs the number of the step, or a free one: from every sound index in which another step follows, an
      agent that writes that step's number breaks it, without dying and with any status. */
  lemma TakenNumberBreaksShape(d: Disk, dir: string, agent: Agent, env: Env, p: nat, j: nat, record: Step)
    requires HistorySound(d, dir) && Starts(d, env) && FirstPending(d.steps) == Some(p) && j < |d.steps| && j != p
    requires record.num == d.steps[j].num && forall n, steps :: agent(n, steps) == Wrote(record)
    ensures PendingNumbersUnique(d.steps) && !HistorySound(Run(d, dir, agent, env).0, dir)
  {
    RunKeepsSoundIff(d, dir, agent, env);
    RoundEffect(d, dir, agent, p);
    AlwaysWritten(d, dir, d.steps[p].num, p, 1, None, agent, record);
    assert StopOf(d, dir, agent).Some? && StopOf(d, dir, agent).value.at == p;
  }

  lemma {:induction false} AlwaysWritten(d: Disk, dir: string, num: int, p: nat, attempt: nat, prev: Option<string>,
                                         agent: Agent, record: Step)
    requires OthersDiffer(d.steps, p, num) && 1 <= attempt <= MAX_RETRIES && record.num != num
    requires forall n, steps :: agent(n, steps) == Wrote(record)
    ensures RunStep(d, dir, num, p, attempt, prev, agent).Stopped?
    ensures LastWriting(d, dir, num, p, attempt, prev, agent) == Wrote(record)
    decreases MAX_RETRIES - attempt
  {
    AttemptLeaves(d, dir, num, p, attempt, prev, agent);
    AfterAttempt(d, dir, num, p, attempt, prev, agent);
    MarksEffect(d.steps, p, num, record, "");
    var r := Attempt(d, dir, num, p, attempt, prev, agent);
    if r.Again? {
      AlwaysWritten(r.disk, dir, num, p, attempt + 1, Some(r.error), agent, record);
    }
  }

  // ----- reruns -----

  /** No run does anything: no agent call, no change, only an exit. */
  ghost predicate IsBlocked(d: Disk, dir: string) {
    && PendingNumbersUnique(d.steps)
    && forall agent: Agent, env: Env :: Run(d, dir, agent, env).0 == d && Run(d, dir, agent, env).1.Exit?
  }

  /** Runs are blocked exactly by a failed last step that is not pending. */
  lemma BlockedIff(d: Disk, dir: string)
    requires PendingNumbersUnique(d.steps)
    ensures IsBlocked(d, dir) <==> CheckBlockers(d.steps).Some?
  {
    if CheckBlockers(d.steps).None? {
      var agent: Agent := (n, steps) => if steps == [] then StepFileMissing else Died(steps[0]);
      var env := Env(true, true);
      var first := FirstPending(d.steps);
      if first.Some? {
        var p := first.value;
        AfterAttempt(d, dir, d.steps[p].num, p, 1, None, agent);
        assert Run(d, dir, agent, env).0.invoked != d.invoked;
      } else {
        assert Run(d, dir, agent, env).1.Returned?;
      }
      assert Run(d, dir, agent, env).0 != d || !Run(d, dir, agent, env).1.Exit?;
    }
  }

  predicate HasFailed(s: Step) {
    s.status.Error? || s.status.Blocked?
  }

  lemma StopBlocksIff(d: Disk, dir: string, after: Disk, o: Outcome, stop: Stopping, agent: Agent)
    requires HistorySound(d, dir) && CheckBlockers(d.steps).None? && StoppedAt(d, after, o, Some(stop), agent)
    ensures CheckBlockers(after.steps).Some? <==> HasFailed(after.steps[stop.at])
  {
    SoundSplits(d, dir, after, o, stop.at, agent);
    BlockersIff(after.steps);
    assert LastFailure(after.steps, stop.at) <==> HasFailed(after.steps[stop.at]);
  }

  /** A run from a sound index that stops in the loop blocks the next exactly when the record it leaves there is
      failed or blocked. */
  lemma RerunIff(d: Disk, dir: string, agent: Agent, env: Env)
    requires HistorySound(d, dir) && Starts(d, env)
    ensures PendingNumbersUnique(d.steps)
    ensures var after := Run(d, dir, agent, env).0;
      match StopOf(d, dir, agent)
      case None => CheckBlockers(after.steps).None?
      case Some(Stopping(q, _, _)) =>
        && q < |after.steps|
        && (CheckBlockers(after.steps).Some? <==> HasFailed(after.steps[q]))
        && (PendingNumbersUnique(after.steps) ==> (IsBlocked(after, dir) <==> HasFailed(after.steps[q])))
  {
    DistinctIsUnique(d.steps);
    ExecuteStops(d, dir, agent);
    var (after, o) := ExecuteAll(d, dir, agent);
    match StopOf(d, dir, agent) {
      case None =>
        AllCompletedAfter(d, dir, after, o, agent);
        BlockersIff(after.steps);
      case Some(stop) =>
        StopBlocksIff(d, dir, after, o, stop, agent);
        if PendingNumbersUnique(after.steps) {
          BlockedIff(after, dir);
        }
    }
  }

  /** What exit 1 leaves at the step where the loop stopped: an error with the prefix of the harness, which blocks
      the next run, or, exactly when its file was missing, a pending step, which does not; and if the agent has
      changed its number, the record as it wrote it. */
  ghost predicate LeavesAtExitOne(d: Disk, after: Disk, stop: Stopping) {
    var q := stop.at;
    && q < |d.steps| == |after.steps| && IsSplit(after.steps, q) && !stop.last.Died?
    && if after.steps[q].num != d.steps[q].num then
         !stop.written.StepFileMissing? && after.steps[q] == stop.written.record
       else if stop.last.StepFileMissing? then
         after.steps[q].status.Pending? && CheckBlockers(after.steps).None?
       else
         && after.steps[q].status.Error? && after.steps[q].errorMessage.Some?
         && FAILURE_PREFIX <= after.steps[q].errorMessage.value && CheckBlockers(after.steps) == Some(1)
  }

  lemma StopAtExitOne(d: Disk, dir: string, after: Disk, stop: Stopping, agent: Agent)
    requires HistorySound(d, dir) && CheckBlockers(d.steps).None?
    requires StoppedAt(d, after, Exit(1), Some(stop), agent)
    ensures LeavesAtExitOne(d, after, stop)
  {
    SoundSplits(d, dir, after, Exit(1), stop.at, agent);
    BlockersIff(after.steps);
    assert after.steps[stop.at].status.Error? ==> LastFailure(after.steps, stop.at);
  }

  /** What exit 1 of a run from a sound index leaves: the index as it was, when the run did not get to the loop;
      all completed, when only the push failed; else what the stop leaves. */
  lemma ExitOneLeaves(d: Disk, dir: string, agent: Agent, env: Env)
    requires HistorySound(d, dir)
    ensures PendingNumbersUnique(d.steps)
    ensures var (after, o) := Run(d, dir, agent, env);
      o == Exit(1) ==>
        if !Starts(d, env) then after == d
        else if StopOf(d, dir, agent).None? then AllCompleted(after.steps) && !env.pushOk
        else LeavesAtExitOne(d, after, StopOf(d, dir, agent).value)
  {
    DistinctIsUnique(d.steps);
    if Starts(d, env) {
      ExecuteStops(d, dir, agent);
      var (after, o) := ExecuteAll(d, dir, agent);
      match StopOf(d, dir, agent) {
        case None => ReturnedIsSound(d, dir, after, o, agent); AllCompletedAfter(d, dir, after, o, agent);
        case Some(stop) =>
          if o == Exit(1) {
            StopAtExitOne(d, dir, after, stop, agent);
          }
      }
    }
  }

  lemma AllCompletedAfter(d: Disk, dir: string, after: Disk, o: Outcome, agent: Agent)
    requires HistorySound(d, dir) && CheckBlockers(d.steps).None? && RanTo(d, after, o, |d.steps|, agent)
    ensures AllCompleted(after.steps)
  {
    var k: nat :| ShapeAt(d.steps, k);
    BlockersIff(d.steps);
    assert !LastFailure(d.steps, k);
  }
}
