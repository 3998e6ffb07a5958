/**
 The retries of one step (scripts/execute.py): what the agent is asked, when it is asked again, and what the last
 of its replies leaves, stated on the replies alone.
 */
module Retries {
  import opened Wrappers
  import opened StepExecutor

  /** No further call follows: the step file is missing, the agent died, or the step is completed or blocked. */
  predicate IsFinal(reply: Reply, num: int) {
    || !reply.Wrote?
    || (reply.record.num == num && (reply.record.status.Completed? || reply.record.status.Blocked?))
  }

  /** The error message that a reply leaves under the number of the step. */
  function MessageOf(reply: Reply, num: int): string {
    if !reply.StepFileMissing? && reply.record.num == num && reply.record.errorMessage.Some?
    then reply.record.errorMessage.value
    else "Step did not update status"
  }

  /** The records that the agent finds after these replies: its last one, pending and without a message. */
  function Found(steps: seq<Step>, p: nat, num: int, replies: seq<Reply>): seq<Step>
    requires p < |steps|
  {
    if replies == [] || replies[|replies| - 1].StepFileMissing? then steps
    else
      var record := replies[|replies| - 1].record;
      steps[p := if record.num == num then record.(status := Pending, errorMessage := None) else record]
  }

  /** The reply that the agent gives to what it finds after those before. */
  ghost predicate IsAnswer(d: Disk, num: int, p: nat, agent: Agent, replies: seq<Reply>, k: int)
    requires p < |d.steps|
  {
    0 <= k < |replies| && replies[k] == agent(|d.invoked| + k, Found(d.steps, p, num, replies[..k]))
  }

  /** The replies of an agent that is asked until one is final, and `most` times at most. */
  ghost predicate IsConversation(d: Disk, num: int, p: nat, agent: Agent, most: nat, replies: seq<Reply>)
    requires p < |d.steps|
  {
    && 0 < |replies| <= most
    && (forall k :: 0 <= k < |replies| ==> IsAnswer(d, num, p, agent, replies, k))
    && (forall k :: 0 <= k < |replies| - 1 ==> !IsFinal(replies[k], num))
    && (|replies| < most ==> IsFinal(replies[|replies| - 1], num))
  }

  /** The calls: each carries the message that the reply before it left. A missing step file is no call. */
  function CallsOf(num: int, attempt: nat, prev: Option<string>, replies: seq<Reply>): seq<Invocation> {
    var n := |replies|;
    seq(if n > 0 && replies[n - 1].StepFileMissing? then n - 1 else n, k requires 0 <= k < n =>
      Invocation(num, attempt + k, if k == 0 then prev else Some(MessageOf(replies[k - 1], num))))
  }

  /** How the last reply ends the step. */
  function EndOf(d: Disk, dir: string, num: int, p: nat, attempt: nat, prev: Option<string>,
                 replies: seq<Reply>): Attempted
    requires p < |d.steps| && replies != []
  {
    var n := |replies| - 1;
    var found, last := Found(d.steps, p, num, replies[..n]), replies[n];
    var called := d.(invoked := d.invoked + CallsOf(num, attempt, prev, replies));
    match last
    case StepFileMissing => Stopped(called.(steps := found), Exit(1))
    case Died(record) => Stopped(called.(steps := found[p := record]), Raised)
    case Wrote(record) =>
      if record.num != num then Stopped(UpdateTop(called.(steps := found[p := record]), dir, "error"), Exit(1))
      else if record.status.Completed? then Finished(called.(steps := found[p := record]))
      else if record.status.Blocked? then
        Stopped(UpdateTop(called.(steps := found[p := record]), dir, "blocked"), Exit(2))
      else
        var error := FAILURE_PREFIX + MessageOf(last, num);
        var failed := record.(status := Error, errorMessage := Some(error));
        Stopped(UpdateTop(called.(steps := found[p := failed]), dir, "error"), Exit(1))
  }

  /** The conversation, and that it decides the step. */
  ghost predicate IsDecided(d: Disk, dir: string, num: int, p: nat, attempt: nat, prev: Option<string>, agent: Agent,
                            replies: seq<Reply>)
    requires p < |d.steps| && 1 <= attempt <= MAX_RETRIES
  {
    && IsConversation(d, num, p, agent, MAX_RETRIES + 1 - attempt, replies)
    && RunStep(d, dir, num, p, attempt, prev, agent) == EndOf(d, dir, num, p, attempt, prev, replies)
  }

  lemma OneReply(d: Disk, dir: string, num: int, p: nat, attempt: nat, prev: Option<string>, agent: Agent)
    requires OthersDiffer(d.steps, p, num) && 1 <= attempt <= MAX_RETRIES
    requires IsFinal(agent(|d.invoked|, d.steps), num) || attempt == MAX_RETRIES
    ensures IsDecided(d, dir, num, p, attempt, prev, agent, [agent(|d.invoked|, d.steps)])
  {
    var reply := agent(|d.invoked|, d.steps);
    AfterAttempt(d, dir, num, p, attempt, prev, agent);
    assert IsAnswer(d, num, p, agent, [reply], 0);
    if reply.StepFileMissing? {
      assert CallsOf(num, attempt, prev, [reply]) == [];
    } else {
      OneWritten(d, dir, num, p, attempt, prev, agent, reply.record);
    }
  }

  lemma OneWritten(d: Disk, dir: string, num: int, p: nat, attempt: nat, prev: Option<string>, agent: Agent,
                   record: Step)
    requires OthersDiffer(d.steps, p, num) && 1 <= attempt <= MAX_RETRIES
    requires agent(|d.invoked|, d.steps) in {Died(record), Wrote(record)}
    requires IsFinal(agent(|d.invoked|, d.steps), num) || attempt == MAX_RETRIES
    ensures Attempt(d, dir, num, p, attempt, prev, agent) ==
      EndOf(d, dir, num, p, attempt, prev, [agent(|d.invoked|, d.steps)])
  {
    MarksEffect(d.steps, p, num, record, ErrorOf(d.steps[p := record], num));
    MatchAt(d.steps[p := record], p, num);
    assert CallsOf(num, attempt, prev, [agent(|d.invoked|, d.steps)]) == [Invocation(num, attempt, prev)];
  }

  /** The disk before the call that follows a reply. */
  function AfterReply(d: Disk, num: int, p: nat, attempt: nat, prev: Option<string>, reply: Reply): Disk
    requires p < |d.steps|
  {
    d.(steps := Found(d.steps, p, num, [reply]), invoked := d.invoked + [Invocation(num, attempt, prev)])
  }

  lemma RetriedAttempt(d: Disk, dir: string, num: int, p: nat, attempt: nat, prev: Option<string>, agent: Agent)
    requires OthersDiffer(d.steps, p, num) && 1 <= attempt < MAX_RETRIES && !IsFinal(agent(|d.invoked|, d.steps), num)
    ensures var reply := agent(|d.invoked|, d.steps);
      var next := AfterReply(d, num, p, attempt, prev, reply);
      && OthersDiffer(next.steps, p, num)
      && RunStep(d, dir, num, p, attempt, prev, agent) ==
           RunStep(next, dir, num, p, attempt + 1, Some(MessageOf(reply, num)), agent)
  {
    var reply := agent(|d.invoked|, d.steps);
    AfterAttempt(d, dir, num, p, attempt, prev, agent);
    MarksEffect(d.steps, p, num, reply.record, "");
    MatchAt(d.steps[p := reply.record], p, num);
    assert ResetAll(d.steps[p := reply.record], num) == d.steps[p := ResetRecord(reply.record, num)];
  }

  lemma FoundFirst(steps: seq<Step>, p: nat, num: int, reply: Reply, more: seq<Reply>, k: nat)
    requires p < |steps| && !reply.StepFileMissing? && k <= |more|
    requires forall i :: 0 <= i < k ==> !more[i].StepFileMissing?
    ensures Found(Found(steps, p, num, [reply]), p, num, more[..k]) == Found(steps, p, num, ([reply] + more)[..k + 1])
  {
    assert ([reply] + more)[..k + 1] == [reply] + more[..k];
  }

  lemma ConversationFirst(d: Disk, next: Disk, num: int, p: nat, agent: Agent, most: nat, more: seq<Reply>)
    requires p < |d.steps| && !IsFinal(agent(|d.invoked|, d.steps), num)
    requires next.steps == Found(d.steps, p, num, [agent(|d.invoked|, d.steps)])
    requires |next.invoked| == |d.invoked| + 1 && IsConversation(next, num, p, agent, most, more)
    ensures IsConversation(d, num, p, agent, most + 1, [agent(|d.invoked|, d.steps)] + more)
  {
    var reply := agent(|d.invoked|, d.steps);
    var replies := [reply] + more;
    forall k | 0 <= k < |replies| ensures IsAnswer(d, num, p, agent, replies, k) {
      if k > 0 {
        assert IsAnswer(next, num, p, agent, more, k - 1);
        FoundFirst(d.steps, p, num, reply, more, k - 1);
      }
    }
    forall k | 0 <= k < |replies| - 1 ensures !IsFinal(replies[k], num) {
      assert k > 0 ==> replies[k] == more[k - 1];
    }
  }

  lemma CallsFirst(num: int, attempt: nat, prev: Option<string>, reply: Reply, more: seq<Reply>)
    requires more != []
    ensures CallsOf(num, attempt, prev, [reply] + more) ==
      [Invocation(num, attempt, prev)] + CallsOf(num, attempt + 1, Some(MessageOf(reply, num)), more)
  {
  }

  lemma EndFirst(d: Disk, next: Disk, dir: string, num: int, p: nat, attempt: nat, prev: Option<string>, reply: Reply,
                 more: seq<Reply>)
    requires p < |d.steps| && more != [] && !reply.StepFileMissing?
    requires forall i :: 0 <= i < |more| - 1 ==> !more[i].StepFileMissing?
    requires next == AfterReply(d, num, p, attempt, prev, reply)
    ensures EndOf(d, dir, num, p, attempt, prev, [reply] + more) ==
      EndOf(next, dir, num, p, attempt + 1, Some(MessageOf(reply, num)), more)
  {
    CallsFirst(num, attempt, prev, reply, more);
    FoundFirst(d.steps, p, num, reply, more, |more| - 1);
    var calls := CallsOf(num, attempt + 1, Some(MessageOf(reply, num)), more);
    assert d.invoked + ([Invocation(num, attempt, prev)] + calls) == next.invoked + calls;
  }

  lemma RetryIsDecided(d: Disk, dir: string, num: int, p: nat, attempt: nat, prev: Option<string>, agent: Agent,
                       more: seq<Reply>)
    requires OthersDiffer(d.steps, p, num) && 1 <= attempt < MAX_RETRIES && !IsFinal(agent(|d.invoked|, d.steps), num)
    requires var reply := agent(|d.invoked|, d.steps);
      IsDecided(AfterReply(d, num, p, attempt, prev, reply), dir, num, p, attempt + 1, Some(MessageOf(reply, num)),
                agent, more)
    ensures IsDecided(d, dir, num, p, attempt, prev, agent, [agent(|d.invoked|, d.steps)] + more)
  {
    var reply := agent(|d.invoked|, d.steps);
    var next := AfterReply(d, num, p, attempt, prev, reply);
    RetriedAttempt(d, dir, num, p, attempt, prev, agent);
    ConversationFirst(d, next, num, p, agent, MAX_RETRIES - attempt, more);
    EndFirst(d, next, dir, num, p, attempt, prev, reply, more);
  }

  lemma {:induction false} StepFromAttempt(d: Disk, dir: string, num: int, p: nat, attempt: nat, prev: Option<string>,
                                           agent: Agent) returns (replies: seq<Reply>)
    requires OthersDiffer(d.steps, p, num) && 1 <= attempt <= MAX_RETRIES
    ensures IsDecided(d, dir, num, p, attempt, prev, agent, replies)
    decreases MAX_RETRIES - attempt
  {
    var reply := agent(|d.invoked|, d.steps);
    if IsFinal(reply, num) || attempt == MAX_RETRIES {
      OneReply(d, dir, num, p, attempt, prev, agent);
      replies := [reply];
    } else {
      RetriedAttempt(d, dir, num, p, attempt, prev, agent);
      var next, error := AfterReply(d, num, p, attempt, prev, reply), Some(MessageOf(reply, num));
      var more := StepFromAttempt(next, dir, num, p, attempt + 1, error, agent);
      RetryIsDecided(d, dir, num, p, attempt, prev, agent, more);
      replies := [reply] + more;
    }
  }

  /** Where the number is nobody else's: the agent is asked until it died, its file is missing, or it left "completed"
      or "blocked" under the number, and otherwise three times; each further call carries the message that the
      reply before left, and what the step leaves is what its last reply decides. */
  lemma StepIsConversation(d: Disk, dir: string, num: int, p: nat, agent: Agent) returns (replies: seq<Reply>)
    requires OthersDiffer(d.steps, p, num)
    ensures IsConversation(d, num, p, agent, 3, replies)
    ensures RunStep(d, dir, num, p, 1, None, agent) == EndOf(d, dir, num, p, 1, None, replies)
  {
    replies := StepFromAttempt(d, dir, num, p, 1, None, agent);
  }

  lemma {:induction false} SameSoFar(d: Disk, num: int, p: nat, agent: Agent, a: seq<Reply>, b: seq<Reply>, k: nat)
    requires p < |d.steps| && k <= |a| && k <= |b|
    requires forall i :: 0 <= i < k ==> IsAnswer(d, num, p, agent, a, i) && IsAnswer(d, num, p, agent, b, i)
    ensures a[..k] == b[..k] && (k > 0 ==> a[k - 1] == b[k - 1])
  {
    if k > 0 {
      SameSoFar(d, num, p, agent, a, b, k - 1);
      assert IsAnswer(d, num, p, agent, a, k - 1) && IsAnswer(d, num, p, agent, b, k - 1);
      assert a[..k] == a[..k - 1] + [a[k - 1]] && b[..k] == b[..k - 1] + [b[k - 1]];
    }
  }

  lemma NotLonger(d: Disk, num: int, p: nat, agent: Agent, most: nat, a: seq<Reply>, b: seq<Reply>)
    requires p < |d.steps| && IsConversation(d, num, p, agent, most, a) && IsConversation(d, num, p, agent, most, b)
    ensures |b| <= |a|
  {
    if |a| < |b| {
      SameSoFar(d, num, p, agent, a, b, |a|);
    }
  }

  /** An agent has one conversation about a step. */
  lemma ConversationIsUnique(d: Disk, num: int, p: nat, agent: Agent, most: nat, a: seq<Reply>, b: seq<Reply>)
    requires p < |d.steps| && IsConversation(d, num, p, agent, most, a) && IsConversation(d, num, p, agent, most, b)
    ensures a == b
  {
    NotLonger(d, num, p, agent, most, a, b);
    NotLonger(d, num, p, agent, most, b, a);
    SameSoFar(d, num, p, agent, a, b, |a|);
    assert a[..|a|] == a && b[..|b|] == b;
  }

  // ----- the loop and the run -----

  /** The count of pending steps in the bounds on calls and turns. */
  lemma {:induction false} PendingCountIs(steps: seq<Step>, s: Step)
    ensures PendingCount([]) == 0
    ensures PendingCount(steps + [s]) == PendingCount(steps) + if s.status.Pending? then 1 else 0
  {
    if steps == [] {
      assert steps + [s] == [s] && [s][1..] == [];
    } else {
      assert (steps + [s])[1..] == steps[1..] + [s];
      PendingCountIs(steps[1..], s);
    }
  }

  predicate IsNextStep(steps: seq<Step>, p: int) {
    0 <= p < |steps| && steps[p].status.Pending? && forall i :: 0 <= i < p ==> !steps[i].status.Pending?
  }

  /** What the loop does with the end of a step: it goes on, or it stops there. */
  ghost predicate GoesOn(d: Disk, dir: string, agent: Agent, end: Attempted)
    requires PendingNumbersUnique(d.steps)
  {
    match end
    case Finished(next) => PendingNumbersUnique(next.steps) && ExecuteAll(d, dir, agent) == ExecuteAll(next, dir, agent)
    case Stopped(next, o) => ExecuteAll(d, dir, agent) == (next, o)
    case Again(_, _) => false
  }

  /** The loop has one conversation after another, each about the first step that is pending then, until one ends it
      or none is pending. */
  lemma LoopIsConversations(d: Disk, dir: string, agent: Agent)
    requires PendingNumbersUnique(d.steps)
    ensures (forall i :: 0 <= i < |d.steps| ==> !d.steps[i].status.Pending?) ==>
      ExecuteAll(d, dir, agent) == (d, Returned)
    ensures forall p: nat :: IsNextStep(d.steps, p) ==>
      exists replies :: IsConversation(d, d.steps[p].num, p, agent, 3, replies)
        && GoesOn(d, dir, agent, EndOf(d, dir, d.steps[p].num, p, 1, None, replies))
  {
    var first := FirstPending(d.steps);
    if first.Some? {
      var p := first.value;
      assert OthersDiffer(d.steps, p, d.steps[p].num);
      var replies := StepIsConversation(d, dir, d.steps[p].num, p, agent);
      RoundShrinksPending(d, dir, agent);
      assert forall q: nat :: IsNextStep(d.steps, q) ==> q == p;
    }
  }

  /** The first row of the phase has the status, and the other rows are as they were. */
  ghost predicate IsMarked(before: Option<seq<PhaseRow>>, after: Option<seq<PhaseRow>>, dir: string, status: string) {
    match before
    case None => after == None
    case Some(rows) =>
      && after.Some? && |after.value| == |rows|
      && forall i :: 0 <= i < |rows| ==>
           after.value[i] ==
             if rows[i].dir == dir && forall j :: 0 <= j < i ==> rows[j].dir != dir
             then PhaseRow(dir, status) else rows[i]
  }

  lemma UpdateMarks(d: Disk, dir: string, status: string)
    ensures UpdateTop(d, dir, status) == d.(top := UpdateTop(d, dir, status).top)
    ensures IsMarked(d.top, UpdateTop(d, dir, status).top, dir, status)
  {
    if d.top.Some? {
      MarkRowEffect(d.top.value, dir, status);
    }
  }

  /** What a run makes of the end of its loop: the phase is marked completed, and then the push decides. */
  ghost predicate IsFinalised(d: Disk, o: Outcome, after: Disk, result: Outcome, dir: string, pushOk: bool) {
    if o.Returned? then
      && after == d.(top := after.top) && IsMarked(d.top, after.top, dir, "completed")
      && result == if pushOk then Returned else Exit(1)
    else
      after == d && result == o
  }

  /** A run stops at the last step that is not pending if that has failed, with its code, and else if there is no
      branch for it; otherwise it does what its loop does, and finalises. */
  lemma RunIs(d: Disk, dir: string, agent: Agent, env: Env)
    requires PendingNumbersUnique(d.steps)
    ensures forall k :: LastFailure(d.steps, k) ==>
      Run(d, dir, agent, env) == (d, Exit(if d.steps[k].status.Error? then 1 else 2))
    ensures (forall k :: !LastFailure(d.steps, k)) ==>
      var (after, result) := Run(d, dir, agent, env);
      if !env.branchOk then after == d && result == Exit(1)
      else
        var (looped, o) := ExecuteAll(d, dir, agent);
        IsFinalised(looped, o, after, result, dir, env.pushOk)
  {
    BlockersIff(d.steps);
    if CheckBlockers(d.steps).None? && env.branchOk {
      UpdateMarks(ExecuteAll(d, dir, agent).0, dir, "completed");
    }
  }
}
