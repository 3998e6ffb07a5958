/**
 The harness that runs the steps of a phase one after another (scripts/execute.py).

 The index file is shared with an agent process.  One agent call may rewrite the running step's
 record in any way, its number included, may die after doing so, or may never start because the step
 file is missing; an agent is therefore any function from the call count and the index to a reply.
 */
module StepExecutor {
  import opened Wrappers

  const MAX_RETRIES: nat := 3
  const NO_UPDATE := "Step did not update status"
  const FAILURE_PREFIX := "[3회 시도 후 실패] "

  /** A status that the executor does not know. */
  type UnknownText = text: string | text !in ["pending", "completed", "error", "blocked"]

  datatype Status = Pending | Completed | Error | Blocked | Other(text: UnknownText)

  datatype Step = Step(num: int, name: string, status: Status, summary: string,
                       errorMessage: Option<string>, blockedReason: string)

  /** A row of the top-level index. */
  datatype PhaseRow = PhaseRow(dir: string, status: string)

  datatype Invocation = Invocation(num: int, attempt: nat, prevError: Option<string>)

  /** The two index files, and the agent calls made so far. */
  datatype Disk = Disk(steps: seq<Step>, top: Option<seq<PhaseRow>>, invoked: seq<Invocation>)

  datatype Reply = Wrote(record: Step) | Died(record: Step) | StepFileMissing

  type Agent = (nat, seq<Step>) -> Reply

  /** How a run ends: normally, by `sys.exit`, or by an exception that nothing catches. */
  datatype Outcome = Returned | Exit(code: nat) | Raised

  datatype Attempted = Finished(disk: Disk) | Again(disk: Disk, error: string) | Stopped(disk: Disk, outcome: Outcome)

  datatype Round = AllDone | Next(disk: Disk) | Stop(disk: Disk, outcome: Outcome)

  datatype Env = Env(branchOk: bool, pushOk: bool)

  // ----- reading and marking the index -----

  function FirstPending(steps: seq<Step>): (r: Option<nat>)
    ensures r.Some? ==>
      && r.value < |steps| && steps[r.value].status.Pending?
      && forall i :: 0 <= i < r.value ==> !steps[i].status.Pending?
    ensures r.None? ==> forall i :: 0 <= i < |steps| ==> !steps[i].status.Pending?
  {
    if steps == [] then None
    else if steps[0].status.Pending? then Some(0)
    else
      var rest := FirstPending(steps[1..]);
      if rest.Some? then Some(rest.value + 1) else None
  }

  /** The position of the first record with this number. */
  function FirstMatch(steps: seq<Step>, num: int): (r: Option<nat>)
    ensures r.Some? ==>
      r.value < |steps| && steps[r.value].num == num && forall i :: 0 <= i < r.value ==> steps[i].num != num
    ensures r.None? ==> forall i :: 0 <= i < |steps| ==> steps[i].num != num
  {
    if steps == [] then None
    else if steps[0].num == num then Some(0)
    else
      var rest := FirstMatch(steps[1..], num);
      if rest.Some? then Some(rest.value + 1) else None
  }

  function StatusOf(steps: seq<Step>, num: int): Status {
    var m := FirstMatch(steps, num);
    if m.Some? then steps[m.value].status else Pending
  }

  function ErrorOf(steps: seq<Step>, num: int): string {
    var m := FirstMatch(steps, num);
    if m.Some? && steps[m.value].errorMessage.Some? then steps[m.value].errorMessage.value else NO_UPDATE
  }

  function ResetRecord(s: Step, num: int): Step {
    if s.num == num then s.(status := Pending, errorMessage := None) else s
  }

  function ResetAll(steps: seq<Step>, num: int): seq<Step> {
    seq(|steps|, i requires 0 <= i < |steps| => ResetRecord(steps[i], num))
  }

  function FailRecord(s: Step, num: int, error: string): Step {
    if s.num == num then s.(status := Error, errorMessage := Some(FAILURE_PREFIX + error)) else s
  }

  function FailAll(steps: seq<Step>, num: int, error: string): seq<Step> {
    seq(|steps|, i requires 0 <= i < |steps| => FailRecord(steps[i], num, error))
  }

  /** The first row of this phase gets the status; the other rows stay. */
  function MarkRow(rows: seq<PhaseRow>, dir: string, status: string): seq<PhaseRow> {
    if rows == [] then []
    else if rows[0].dir == dir then [rows[0].(status := status)] + rows[1..]
    else [rows[0]] + MarkRow(rows[1..], dir, status)
  }

  function UpdateTop(d: Disk, dir: string, status: string): Disk {
    if d.top.None? then d else d.(top := Some(MarkRow(d.top.value, dir, status)))
  }

  // ----- one attempt, one step, one round, one run -----

  /** One agent call for step `num`, whose record is at position `p`, and what the harness makes of the
      status that it then finds under this number. */
  function Attempt(d: Disk, dir: string, num: int, p: nat, attempt: nat, prev: Option<string>,
                   agent: Agent): (r: Attempted)
    requires p < |d.steps|
    ensures !r.Stopped? ==> |r.disk.steps| == |d.steps|
  {
    var reply := agent(|d.invoked|, d.steps);
    if reply.StepFileMissing? then Stopped(d, Exit(1))
    else
      var steps := d.steps[p := reply.record];
      var d1 := d.(steps := steps, invoked := d.invoked + [Invocation(num, attempt, prev)]);
      if reply.Died? then Stopped(d1, Raised)
      else
        match StatusOf(steps, num)
        case Completed => Finished(d1)
        case Blocked => Stopped(UpdateTop(d1, dir, "blocked"), Exit(2))
        case _ =>
          var error := ErrorOf(steps, num);
          if attempt < MAX_RETRIES then Again(d1.(steps := ResetAll(steps, num)), error)
          else Stopped(UpdateTop(d1.(steps := FailAll(steps, num, error)), dir, "error"), Exit(1))
  }

  /** `_execute_single_step` from attempt number `attempt` on. */
  function RunStep(d: Disk, dir: string, num: int, p: nat, attempt: nat, prev: Option<string>,
                   agent: Agent): (r: Attempted)
    requires p < |d.steps| && 1 <= attempt <= MAX_RETRIES
    ensures !r.Again?
    decreases MAX_RETRIES - attempt
  {
    var r := Attempt(d, dir, num, p, attempt, prev, agent);
    if r.Again? then RunStep(r.disk, dir, num, p, attempt + 1, Some(r.error), agent) else r
  }

  /** One turn of the `while True` loop. */
  function OneRound(d: Disk, dir: string, agent: Agent): Round {
    match FirstPending(d.steps)
    case None => AllDone
    case Some(p) =>
      match RunStep(d, dir, d.steps[p].num, p, 1, None, agent)
      case Finished(d1) => Next(d1)
      case Stopped(d1, o) => Stop(d1, o)
  }

  lemma AfterAttempt(d: Disk, dir: string, num: int, p: nat, attempt: nat, prev: Option<string>, agent: Agent)
    requires p < |d.steps| && 1 <= attempt <= MAX_RETRIES
    ensures var r := Attempt(d, dir, num, p, attempt, prev, agent);
      && (r.Again? ==> attempt < MAX_RETRIES && p < |r.disk.steps|
                       && RunStep(d, dir, num, p, attempt, prev, agent) ==
                           RunStep(r.disk, dir, num, p, attempt + 1, Some(r.error), agent))
      && (!r.Again? ==> RunStep(d, dir, num, p, attempt, prev, agent) == r)
  {
  }

  /** The turns of the loop as a function. */
  function Turn(dir: string, agent: Agent): Disk -> Round {
    (d: Disk) => OneRound(d, dir, agent)
  }

  function Iterate(turn: Disk -> Round, d: Disk, n: nat): Round
    decreases n
  {
    if n == 0 then Next(d)
    else
      match turn(d)
      case Next(d1) => Iterate(turn, d1, n - 1)
      case other => other
  }

  /** What `n` turns of the loop lead to; the loop leaves at the first turn that is not `Next`. */
  function Rounds(d: Disk, dir: string, agent: Agent, n: nat): Round {
    Iterate(Turn(dir, agent), d, n)
  }

  function PendingCount(steps: seq<Step>): nat {
    if steps == [] then 0 else (if steps[0].status.Pending? then 1 else 0) + PendingCount(steps[1..])
  }

  /** No pending record shares its number with another record. */
  ghost predicate PendingNumbersUnique(steps: seq<Step>) {
    forall i, j :: 0 <= i < |steps| && 0 <= j < |steps| && i != j && steps[i].status.Pending? ==>
        steps[i].num != steps[j].num
  }

  /** `_execute_all_steps`. */
  ghost function ExecuteAll(d: Disk, dir: string, agent: Agent): (Disk, Outcome)
    requires PendingNumbersUnique(d.steps)
    decreases PendingCount(d.steps)
  {
    match OneRound(d, dir, agent)
    case AllDone => (d, Returned)
    case Stop(d1, o) => (d1, o)
    case Next(d1) => RoundShrinksPending(d, dir, agent); ExecuteAll(d1, dir, agent)
  }

  /** `_check_blockers`: trailing pending steps are skipped, then a failed step ends the run. */
  function CheckBlockers(steps: seq<Step>): Option<nat> {
    if steps == [] then None
    else
      match steps[|steps| - 1].status
      case Error => Some(1)
      case Blocked => Some(2)
      case Pending => CheckBlockers(steps[..|steps| - 1])
      case _ => None
  }

  /** `run`. */
  ghost function Run(d: Disk, dir: string, agent: Agent, env: Env): (Disk, Outcome)
    requires PendingNumbersUnique(d.steps)
  {
    var blocker := CheckBlockers(d.steps);
    if blocker.Some? then (d, Exit(blocker.value))
    else if !env.branchOk then (d, Exit(1))
    else
      var (d1, o) := ExecuteAll(d, dir, agent);
      if !o.Returned? then (d1, o)
      else (UpdateTop(d1, dir, "completed"), if env.pushOk then Returned else Exit(1))
  }

  // ----- what one step does -----

  /** Only position `p` differs. */
  ghost predicate OnlyAt(before: seq<Step>, after: seq<Step>, p: nat) {
    && p < |before| == |after|
    && before[p].num == after[p].num
    && forall i :: 0 <= i < |before| && i != p ==> after[i] == before[i]
  }

  /** All positions but `p` are as before. */
  ghost predicate OthersKept(before: seq<Step>, after: seq<Step>, p: nat) {
    p < |before| == |after| && forall i :: 0 <= i < |before| && i != p ==> after[i] == before[i]
  }

  /** No record elsewhere has the number. */
  ghost predicate OthersDiffer(steps: seq<Step>, p: nat, num: int) {
    p < |steps| && forall j :: 0 <= j < |steps| && j != p ==> steps[j].num != num
  }

  /** The record at `p` is the one that the loop takes next, and has this number. */
  predicate AtWork(steps: seq<Step>, p: nat, num: int) {
    FirstPending(steps) == Some(p) && steps[p].num == num
  }

  /** An agent that leaves the number of the running step alone. */
  ghost predicate KeepsNumber(agent: Agent) {
    forall n: nat, steps: seq<Step> :: FirstPending(steps).Some? && !agent(n, steps).StepFileMissing? ==>
      agent(n, steps).record.num == steps[FirstPending(steps).value].num
  }

  /** The statuses that a stop can leave in the running record. */
  predicate StopStatus(o: Outcome, s: Step) {
    match o
    case Returned => false
    case Raised => true
    case Exit(code) =>
      || (code == 2 && s.status.Blocked?)
      || (code == 1 && s.status.Error? && s.errorMessage.Some? && FAILURE_PREFIX <= s.errorMessage.value)
      || (code == 1 && s.status.Pending?)
  }

  predicate Standard(s: Status) {
    !s.Other?
  }

  /** An agent that, when it dies, leaves one of the four documented statuses behind. */
  ghost predicate Tidy(agent: Agent) {
    forall n, steps :: agent(n, steps).Died? ==> Standard(agent(n, steps).record.status)
  }

  predicate InvokedOnly(before: Disk, after: Disk, num: int, most: nat) {
    && |before.invoked| <= |after.invoked| <= |before.invoked| + most
    && after.invoked[..|before.invoked|] == before.invoked
    && forall k :: |before.invoked| <= k < |after.invoked| ==> after.invoked[k].num == num
  }

  lemma MatchAt(steps: seq<Step>, p: nat, num: int)
    requires OthersDiffer(steps, p, num)
    ensures FirstMatch(steps, num) == if steps[p].num == num then Some(p) else None
  {
  }

  /** The agent's rewrite, and the harness's marks on top of it, stay at position `p`; under another number
      the harness finds no record and marks none. */
  lemma MarksEffect(before: seq<Step>, p: nat, num: int, record: Step, error: string)
    requires OthersDiffer(before, p, num)
    ensures var steps := before[p := record];
            && OthersKept(before, steps, p)
                && StatusOf(steps, num) == (if record.num == num then record.status else Pending)
            && ResetAll(steps, num) == steps[p := ResetRecord(record, num)]
            && FailAll(steps, num, error) == steps[p := FailRecord(record, num, error)]
  {
    MatchAt(before[p := record], p, num);
  }

  /** What is known after an attempt, or after all of them. If the agent leaves the number alone, so is the
      status that a stop leaves behind. */
  ghost predicate Effect(d: Disk, r: Attempted, num: int, p: nat, most: nat, agent: Agent) {
    && OthersKept(d.steps, r.disk.steps, p) && InvokedOnly(d, r.disk, num, most)
    && (r.Finished? ==> r.disk.steps[p].num == num && r.disk.steps[p].status.Completed? && r.disk.top == d.top)
    && (r.Again? ==> r.disk.top == d.top && (r.disk.steps[p].num == num ==> r.disk.steps[p].status.Pending?))
    && (r.Stopped? && r.disk.steps[p].num == num ==>
          StopStatus(r.outcome, r.disk.steps[p]) && (Tidy(agent) ==> Standard(r.disk.steps[p].status)))
    && (KeepsNumber(agent) && AtWork(d.steps, p, num) ==> StaysAtWork(r, num, p))
  }

  ghost predicate StaysAtWork(r: Attempted, num: int, p: nat) {
    p < |r.disk.steps| && r.disk.steps[p].num == num && (r.Again? ==> AtWork(r.disk.steps, p, num))
  }

  lemma AttemptStaysAtWork(d: Disk, dir: string, num: int, p: nat, attempt: nat, prev: Option<string>, agent: Agent)
    requires OthersDiffer(d.steps, p, num) && 1 <= attempt <= MAX_RETRIES
    requires KeepsNumber(agent) && AtWork(d.steps, p, num)
    ensures StaysAtWork(Attempt(d, dir, num, p, attempt, prev, agent), num, p)
  {
    var reply := agent(|d.invoked|, d.steps);
    if !reply.StepFileMissing? {
      assert reply.record.num == num;
      MarksEffect(d.steps, p, num, reply.record, ErrorOf(d.steps[p := reply.record], num));
    }
  }

  lemma AttemptOthers(d: Disk, dir: string, num: int, p: nat, attempt: nat, prev: Option<string>, agent: Agent)
    requires OthersDiffer(d.steps, p, num)
    ensures var r := Attempt(d, dir, num, p, attempt, prev, agent);
      OthersKept(d.steps, r.disk.steps, p) && InvokedOnly(d, r.disk, num, 1) && (!r.Stopped? ==> r.disk.top == d.top)
  {
    var reply := agent(|d.invoked|, d.steps);
    if !reply.StepFileMissing? {
      MarksEffect(d.steps, p, num, reply.record, ErrorOf(d.steps[p := reply.record], num));
      assert (d.invoked + [Invocation(num, attempt, prev)])[..|d.invoked|] == d.invoked;
    }
  }

  lemma AttemptStatus(d: Disk, dir: string, num: int, p: nat, attempt: nat, prev: Option<string>, agent: Agent)
    requires OthersDiffer(d.steps, p, num) && 1 <= attempt <= MAX_RETRIES
    requires d.steps[p].num == num ==> d.steps[p].status.Pending?
    ensures var r := Attempt(d, dir, num, p, attempt, prev, agent);
      && |r.disk.steps| == |d.steps|
      && (r.Finished? ==> r.disk.steps[p].num == num && r.disk.steps[p].status.Completed?)
      && (r.Again? ==> attempt < MAX_RETRIES && (r.disk.steps[p].num == num ==> r.disk.steps[p].status.Pending?))
      && (r.Stopped? && r.disk.steps[p].num == num ==>
            StopStatus(r.outcome, r.disk.steps[p]) && (Tidy(agent) ==> Standard(r.disk.steps[p].status)))
  {
    var reply := agent(|d.invoked|, d.steps);
    if !reply.StepFileMissing? {
      MarksEffect(d.steps, p, num, reply.record, ErrorOf(d.steps[p := reply.record], num));
    }
  }

  lemma AttemptEffect(d: Disk, dir: string, num: int, p: nat, attempt: nat, prev: Option<string>, agent: Agent)
    requires OthersDiffer(d.steps, p, num) && 1 <= attempt <= MAX_RETRIES
    requires d.steps[p].num == num ==> d.steps[p].status.Pending?
    ensures Effect(d, Attempt(d, dir, num, p, attempt, prev, agent), num, p, 1, agent)
    ensures Attempt(d, dir, num, p, attempt, prev, agent).Again? ==> attempt < MAX_RETRIES
  {
    AttemptOthers(d, dir, num, p, attempt, prev, agent);
    AttemptStatus(d, dir, num, p, attempt, prev, agent);
    if KeepsNumber(agent) && AtWork(d.steps, p, num) {
      AttemptStaysAtWork(d, dir, num, p, attempt, prev, agent);
    }
  }

  lemma {:induction false} RunStepEffect(d: Disk, dir: string, num: int, p: nat, attempt: nat, prev: Option<string>,
                                         agent: Agent)
    requires OthersDiffer(d.steps, p, num) && 1 <= attempt <= MAX_RETRIES
    requires d.steps[p].num == num ==> d.steps[p].status.Pending?
    ensures Effect(d, RunStep(d, dir, num, p, attempt, prev, agent), num, p, MAX_RETRIES + 1 - attempt, agent)
    decreases MAX_RETRIES - attempt
  {
    AttemptEffect(d, dir, num, p, attempt, prev, agent);
    AfterAttempt(d, dir, num, p, attempt, prev, agent);
    var r := Attempt(d, dir, num, p, attempt, prev, agent);
    if r.Again? {
      RunStepEffect(r.disk, dir, num, p, attempt + 1, Some(r.error), agent);
      ComposeEffects(d, r, RunStep(r.disk, dir, num, p, attempt + 1, Some(r.error), agent), num, p,
        MAX_RETRIES - attempt, agent);
    }
  }

  lemma ComposeEffects(d: Disk, r: Attempted, s: Attempted, num: int, p: nat, most: nat, agent: Agent)
    requires r.Again? && Effect(d, r, num, p, 1, agent) && Effect(r.disk, s, num, p, most, agent)
    ensures Effect(d, s, num, p, most + 1, agent)
  {
    assert s.disk.invoked[..|d.invoked|] == r.disk.invoked[..|d.invoked|];
    forall k | |d.invoked| <= k < |r.disk.invoked| ensures s.disk.invoked[k].num == num {
      assert s.disk.invoked[k] == s.disk.invoked[..|r.disk.invoked|][k];
    }
  }

  lemma {:induction false} PendingCountUpdate(before: seq<Step>, after: seq<Step>, p: nat)
    requires OnlyAt(before, after, p) && before[p].status.Pending? && !after[p].status.Pending?
    ensures PendingCount(after) == PendingCount(before) - 1
  {
    if p == 0 {
      assert after[1..] == before[1..];
    } else {
      PendingCountUpdate(before[1..], after[1..], p - 1);
    }
  }

  lemma RoundShrinksPending(d: Disk, dir: string, agent: Agent)
    requires PendingNumbersUnique(d.steps)
    ensures var r := OneRound(d, dir, agent);
            r.Next? ==> PendingNumbersUnique(r.disk.steps) && PendingCount(r.disk.steps) == PendingCount(d.steps) - 1
  {
    var first := FirstPending(d.steps);
    if first.Some? {
      RunStepEffect(d, dir, d.steps[first.value].num, first.value, 1, None, agent);
      var r := OneRound(d, dir, agent);
      if r.Next? {
        PendingCountUpdate(d.steps, r.disk.steps, first.value);
      }
    }
  }

  // ----- what a run does -----

  /** Pending steps before `q` were completed, later ones were not touched, and no other step was;
      `q` is where the loop stopped, or the length when it did not. Only there can a number change. */
  ghost predicate Progressed(before: seq<Step>, after: seq<Step>, q: nat) {
    && q <= |before| == |after|
    && (forall i :: 0 <= i < |before| && i != q ==> after[i].num == before[i].num)
    && (forall i :: 0 <= i < |before| && (i > q || !before[i].status.Pending?) ==> after[i] == before[i])
    && (forall i :: 0 <= i < q && before[i].status.Pending? ==> after[i].status.Completed?)
    && (q < |before| ==> before[q].status.Pending?)
  }

  /** The new agent calls are for steps that were pending. */
  ghost predicate InvokedPending(before: Disk, after: Disk) {
    && |before.invoked| <= |after.invoked|
    && after.invoked[..|before.invoked|] == before.invoked
    && forall k :: |before.invoked| <= k < |after.invoked| ==> NumberIsPending(before.steps, after.invoked[k].num)
  }

  predicate NumberIsPending(steps: seq<Step>, num: int) {
    exists i :: 0 <= i < |steps| && steps[i].status.Pending? && steps[i].num == num
  }

  /** What the loop has done when it leaves at position `q` with this outcome. */
  ghost predicate RanTo(d: Disk, after: Disk, o: Outcome, q: nat, agent: Agent) {
    && Progressed(d.steps, after.steps, q) && InvokedPending(d, after)
    && |after.invoked| <= |d.invoked| + MAX_RETRIES * PendingCount(d.steps)
    && (o.Returned? <==> q == |d.steps|)
    && (o.Returned? ==> after.top == d.top)
    && (KeepsNumber(agent) && q < |d.steps| ==> after.steps[q].num == d.steps[q].num)
    && (q < |d.steps| && after.steps[q].num == d.steps[q].num ==>
          StopStatus(o, after.steps[q]) && (Tidy(agent) ==> Standard(after.steps[q].status)))
  }

  /** What one turn does: it stops the loop at the first pending step, or completes that. */
  lemma RoundEffect(d: Disk, dir: string, agent: Agent, p: nat)
    requires PendingNumbersUnique(d.steps) && FirstPending(d.steps) == Some(p)
    ensures match OneRound(d, dir, agent)
      case AllDone => false
      case Stop(after, o) => RanTo(d, after, o, p, agent)
      case Next(mid) =>
        && OnlyAt(d.steps, mid.steps, p) && mid.steps[p].status.Completed? && mid.top == d.top
        && InvokedOnly(d, mid, d.steps[p].num, MAX_RETRIES)
  {
    RunStepEffect(d, dir, d.steps[p].num, p, 1, None, agent);
    PendingCountPositive(d.steps, p);
  }

  /** The whole effect of `_execute_all_steps`, for any index, any agent and any ending. */
  lemma {:induction false} ExecuteAllEffect(d: Disk, dir: string, agent: Agent) returns (q: nat)
    requires PendingNumbersUnique(d.steps)
    ensures RanTo(d, ExecuteAll(d, dir, agent).0, ExecuteAll(d, dir, agent).1, q, agent)
    decreases PendingCount(d.steps)
  {
    var first := FirstPending(d.steps);
    if first.None? {
      q := |d.steps|;
    } else {
      q := first.value;
      RoundEffect(d, dir, agent, q);
      var r := OneRound(d, dir, agent);
      if r.Next? {
        RoundShrinksPending(d, dir, agent);
        q := ExecuteAllEffect(r.disk, dir, agent);
        var (after, o) := ExecuteAll(r.disk, dir, agent);
        NextRan(d, r.disk, after, o, first.value, q, agent);
      }
    }
  }

  lemma NextRan(d: Disk, mid: Disk, after: Disk, o: Outcome, p: nat, q: nat, agent: Agent)
    requires FirstPending(d.steps) == Some(p) && OnlyAt(d.steps, mid.steps, p) && mid.steps[p].status.Completed?
    requires InvokedOnly(d, mid, d.steps[p].num, MAX_RETRIES) && mid.top == d.top
        && PendingCount(mid.steps) == PendingCount(d.steps) - 1
    requires RanTo(mid, after, o, q, agent)
    ensures RanTo(d, after, o, q, agent)
  {
    ComposeInvoked(d, mid, after, p);
    ComposeProgress(d.steps, mid.steps, after.steps, p, q);
  }

  lemma ComposeProgress(before: seq<Step>, mid: seq<Step>, after: seq<Step>, p: nat, q: nat)
    requires FirstPending(before) == Some(p) && OnlyAt(before, mid, p) && mid[p].status.Completed?
    requires Progressed(mid, after, q)
    ensures Progressed(before, after, q) && (q < |before| ==> q > p && mid[q].num == before[q].num)
  {
  }

  lemma {:induction false} PendingCountPositive(steps: seq<Step>, p: nat)
    requires p < |steps| && steps[p].status.Pending?
    ensures PendingCount(steps) >= 1
  {
    if p > 0 {
      PendingCountPositive(steps[1..], p - 1);
    }
  }

  lemma ComposeInvoked(d: Disk, mid: Disk, after: Disk, p: nat)
    requires p < |d.steps| && d.steps[p].status.Pending? && OnlyAt(d.steps, mid.steps, p)
        && mid.steps[p].status.Completed?
    requires InvokedOnly(d, mid, d.steps[p].num, MAX_RETRIES) && InvokedPending(mid, after)
    ensures InvokedPending(d, after)
  {
  }

  // ----- exit codes -----

  ghost predicate AllCompleted(steps: seq<Step>) {
    forall i :: 0 <= i < |steps| ==> steps[i].status.Completed?
  }

  ghost predicate SettledStepsCompleted(steps: seq<Step>) {
    forall i :: 0 <= i < |steps| && !steps[i].status.Pending? ==> steps[i].status.Completed?
  }

  /** Exit 0 means that every step is completed exactly when every step that was not pending at the
      start was completed: the loop looks only for pending steps, and the blocker check stops at the
      last step that is not pending. */
  lemma ExitZeroIff(d: Disk, dir: string, agent: Agent, env: Env)
    requires PendingNumbersUnique(d.steps)
    requires Run(d, dir, agent, env).1.Returned?
    ensures AllCompleted(Run(d, dir, agent, env).0.steps) <==> SettledStepsCompleted(d.steps)
  {
    var q := ExecuteAllEffect(d, dir, agent);
    var after := ExecuteAll(d, dir, agent).0;
    forall i | 0 <= i < |d.steps| && !d.steps[i].status.Pending? ensures after.steps[i] == d.steps[i] {}
  }

  /** An earlier failed step that a completed one follows is overlooked: exit 0, phase completed. */
  lemma OverlookedFailure(dir: string, agent: Agent, a: Step, b: Step)
    requires a.status.Error? && b.status.Completed?
    ensures var d := Disk([a, b], Some([PhaseRow(dir, "error")]), []);
            && PendingNumbersUnique(d.steps) && !AllCompleted(d.steps)
            && Run(d, dir, agent, Env(true, true)) == (d.(top := Some([PhaseRow(dir, "completed")])), Returned)
  {
    var d := Disk([a, b], Some([PhaseRow(dir, "error")]), []);
    assert FirstPending(d.steps).None?;
    assert MarkRow([PhaseRow(dir, "error")], dir, "completed") == [PhaseRow(dir, "completed")];
    assert d.steps[0].status.Error?;
  }

  // ----- the shape every history keeps -----

  /** completed*, then at most one step of any standard status, then pending*. */
  ghost predicate ShapeAt(steps: seq<Step>, k: nat) {
    && k <= |steps|
    && (forall i :: 0 <= i < k ==> steps[i].status.Completed?)
    && (forall i :: k < i < |steps| ==> steps[i].status.Pending?)
    && (k < |steps| ==> Standard(steps[k].status))
  }

  ghost predicate DistinctNumbers(steps: seq<Step>) {
    forall i, j :: 0 <= i < j < |steps| ==> steps[i].num != steps[j].num
  }

  predicate TopSays(d: Disk, dir: string, status: string) {
    && d.top.Some?
    && exists i :: 0 <= i < |d.top.value| && IsFirstRow(d.top.value, dir, i) && d.top.value[i].status == status
  }

  predicate IsFirstRow(rows: seq<PhaseRow>, dir: string, i: int) {
    0 <= i < |rows| && rows[i].dir == dir && forall j :: 0 <= j < i ==> rows[j].dir != dir
  }

  ghost predicate HistorySound(d: Disk, dir: string) {
    && DistinctNumbers(d.steps)
    && (exists k: nat :: ShapeAt(d.steps, k))
    && (TopSays(d, dir, "completed") ==> AllCompleted(d.steps))
  }

  datatype Action = RunOnce(agent: Agent, env: Env) | ResetStep(index: nat)

  /** The pending numbers are unique, so that the run ends; or the step has failed, so that it may be reset. */
  ghost predicate Allowed(d: Disk, a: Action) {
    match a
    case RunOnce(_, _) => PendingNumbersUnique(d.steps)
    case ResetStep(i) => i < |d.steps| && (d.steps[i].status.Error? || d.steps[i].status.Blocked?)
  }

  ghost function Act(d: Disk, dir: string, a: Action): Disk
    requires Allowed(d, a)
  {
    match a
    case RunOnce(agent, env) => Run(d, dir, agent, env).0
    case ResetStep(i) => d.(steps := d.steps[i := d.steps[i].(status := Pending, errorMessage := None)])
  }

  lemma {:induction false} MarkRowEffect(rows: seq<PhaseRow>, dir: string, status: string)
    ensures var marked := MarkRow(rows, dir, status);
            && |marked| == |rows|
            && forall i :: 0 <= i < |rows| ==>
                 && marked[i].dir == rows[i].dir
                 && (IsFirstRow(rows, dir, i) ==> marked[i].status == status)
                 && (!IsFirstRow(rows, dir, i) ==> marked[i] == rows[i])
  {
    if rows != [] && rows[0].dir != dir {
      MarkRowEffect(rows[1..], dir, status);
      var marked := MarkRow(rows, dir, status);
      assert marked[1..] == MarkRow(rows[1..], dir, status);
      forall i | 0 < i < |rows| ensures IsFirstRow(rows, dir, i) == IsFirstRow(rows[1..], dir, i - 1)
          && marked[i] == marked[1..][i - 1] {
        assert forall j :: 0 <= j < i - 1 ==> rows[1..][j] == rows[j + 1];
        assert forall j :: 0 < j < i ==> rows[j] == rows[1..][j - 1];
      }
    }
  }

  lemma TopAfterUpdate(d: Disk, dir: string, status: string, other: string)
    requires other != status
    ensures !TopSays(UpdateTop(d, dir, status), dir, other)
  {
    if d.top.Some? {
      MarkRowEffect(d.top.value, dir, status);
      var rows, marked := d.top.value, MarkRow(d.top.value, dir, status);
      forall i | 0 <= i < |marked| && IsFirstRow(marked, dir, i) ensures marked[i].status == status {
        assert forall j :: 0 <= j < i ==> marked[j].dir == rows[j].dir;
        assert IsFirstRow(rows, dir, i);
      }
    }
  }

  lemma DistinctIsUnique(steps: seq<Step>)
    requires DistinctNumbers(steps)
    ensures PendingNumbersUnique(steps)
  {
  }

  /** The blocker check stops a run exactly when the last step that is not pending has failed. */
  lemma {:induction false} BlockersIff(steps: seq<Step>)
    ensures CheckBlockers(steps).Some? <==> exists k :: LastFailure(steps, k)
    ensures forall k :: LastFailure(steps, k) ==> CheckBlockers(steps) == Some(if steps[k].status.Error? then 1 else 2)
  {
    if steps != [] {
      var init := steps[..|steps| - 1];
      if steps[|steps| - 1].status.Pending? {
        BlockersIff(init);
        forall k ensures LastFailure(steps, k) == LastFailure(init, k) {}
      } else if CheckBlockers(steps).Some? {
        assert LastFailure(steps, |steps| - 1);
      }
    }
  }

  ghost predicate LastFailure(steps: seq<Step>, k: int) {
    && 0 <= k < |steps|
    && (steps[k].status.Error? || steps[k].status.Blocked?)
    && forall i :: k < i < |steps| ==> steps[i].status.Pending?
  }

  /** After a failure a rerun changes nothing and calls no agent, until that step is reset. */
  lemma RerunDoesNothing(d: Disk, dir: string, agent: Agent, env: Env, k: int)
    requires PendingNumbersUnique(d.steps) && LastFailure(d.steps, k)
    ensures Run(d, dir, agent, env) == (d, Exit(if d.steps[k].status.Error? then 1 else 2))
  {
    BlockersIff(d.steps);
  }

  /** Wherever a history has led: once a step has failed, every run exits with its code, calls no agent and
      changes nothing, so it is blocked until that step is reset. */
  lemma FailureBlocksRuns(d: Disk, dir: string, agent: Agent, env: Env, i: nat)
    requires HistorySound(d, dir) && i < |d.steps| && (d.steps[i].status.Error? || d.steps[i].status.Blocked?)
    ensures PendingNumbersUnique(d.steps)
    ensures Run(d, dir, agent, env) == (d, Exit(if d.steps[i].status.Error? then 1 else 2))
  {
    DistinctIsUnique(d.steps);
    var k: nat :| ShapeAt(d.steps, k);
    assert i == k && LastFailure(d.steps, i);
    RerunDoesNothing(d, dir, agent, env, i);
  }

  /** What a run that ends this way leaves: exit 0 means all completed, exit 2 a blocked step followed by
      pending ones only, exit 1 an error or a pending step followed by pending ones only, or all completed. */
  ghost predicate OutcomeSound(after: Disk, dir: string, o: Outcome) {
    && HistorySound(after, dir)
    && (o.Returned? ==> AllCompleted(after.steps))
    && (o == Exit(2) ==> exists k :: LastFailure(after.steps, k) && after.steps[k].status.Blocked?)
    && (o == Exit(1) ==> AllCompleted(after.steps) || exists k: nat :: FailsAt(after.steps, k))
  }

  /** The shape, with an error or a pending step where the completed ones end. */
  ghost predicate FailsAt(steps: seq<Step>, k: nat) {
    ShapeAt(steps, k) && k < |steps| && (steps[k].status.Error? || steps[k].status.Pending?)
  }

  /** One run from a completed*-X-pending* index, whatever a tidy agent does that keeps the number of its step. */
  lemma RunOutcome(d: Disk, dir: string, agent: Agent, env: Env)
    requires HistorySound(d, dir) && Tidy(agent) && KeepsNumber(agent)
    ensures PendingNumbersUnique(d.steps)
    ensures var (after, o) := Run(d, dir, agent, env); OutcomeSound(after, dir, o)
  {
    DistinctIsUnique(d.steps);
    BlockersIff(d.steps);
    var k: nat :| ShapeAt(d.steps, k);
    if CheckBlockers(d.steps).Some? {
      var j :| LastFailure(d.steps, j);
      assert j == k;
      assert CheckBlockers(d.steps).value == 2 ==> d.steps[j].status.Blocked?;
      assert d.steps[j].status.Error? ==> FailsAt(d.steps, k);
    } else {
      assert !LastFailure(d.steps, k);
      UnfailedShape(d.steps, k);
      if env.branchOk {
        ExecuteOutcome(d, dir, agent, k);
        var (d1, o) := ExecuteAll(d, dir, agent);
        if o.Returned? {
          AllCompletedIsSound(UpdateTop(d1, dir, "completed"), dir);
        }
      }
    }
  }

  lemma UnfailedShape(steps: seq<Step>, k: nat)
    requires ShapeAt(steps, k) && !LastFailure(steps, k)
    ensures AllCompleted(steps) || exists q: nat :: FailsAt(steps, q)
  {
    if k < |steps| && steps[k].status.Pending? {
      assert FailsAt(steps, k);
    } else if k + 1 < |steps| {
      assert FailsAt(steps, k + 1);
    }
  }

  lemma AllCompletedIsSound(d: Disk, dir: string)
    requires AllCompleted(d.steps) && DistinctNumbers(d.steps)
    ensures forall o :: o != Exit(2) ==> OutcomeSound(d, dir, o)
  {
    assert ShapeAt(d.steps, |d.steps|);
  }

  lemma ExecuteOutcome(d: Disk, dir: string, agent: Agent, k: nat)
    requires HistorySound(d, dir) && Tidy(agent) && KeepsNumber(agent) && PendingNumbersUnique(d.steps)
    requires ShapeAt(d.steps, k) && !LastFailure(d.steps, k)
    ensures var (after, o) := ExecuteAll(d, dir, agent);
            && DistinctNumbers(after.steps)
            && (o.Returned? ==> AllCompleted(after.steps))
            && (!o.Returned? ==> OutcomeSound(after, dir, o))
  {
    var q := ExecuteAllEffect(d, dir, agent);
    var (after, o) := ExecuteAll(d, dir, agent);
    if q < |d.steps| {
      assert ShapeAt(after.steps, q);
      assert o == Exit(2) ==> LastFailure(after.steps, q);
      assert o == Exit(1) ==> FailsAt(after.steps, q);
      ExecuteTop(d, dir, agent);
      assert !d.steps[q].status.Completed?;
    }
  }

  /** A stop never writes "completed" into the phase's row. */
  lemma {:induction false} ExecuteTop(d: Disk, dir: string, agent: Agent)
    requires PendingNumbersUnique(d.steps)
    ensures TopSays(ExecuteAll(d, dir, agent).0, dir, "completed") ==> TopSays(d, dir, "completed")
    decreases PendingCount(d.steps)
  {
    var first := FirstPending(d.steps);
    if first.Some? {
      RunStepTop(d, dir, d.steps[first.value].num, first.value, 1, None, agent);
      var r := OneRound(d, dir, agent);
      if r.Next? {
        RoundShrinksPending(d, dir, agent);
        ExecuteTop(r.disk, dir, agent);
      }
    }
  }

  lemma {:induction false} RunStepTop(d: Disk, dir: string, num: int, p: nat, attempt: nat, prev: Option<string>,
                                      agent: Agent)
    requires p < |d.steps| && 1 <= attempt <= MAX_RETRIES
    ensures TopSays(RunStep(d, dir, num, p, attempt, prev, agent).disk, dir, "completed") ==>
        TopSays(d, dir, "completed")
    decreases MAX_RETRIES - attempt
  {
    AttemptTop(d, dir, num, p, attempt, prev, agent);
    var r := Attempt(d, dir, num, p, attempt, prev, agent);
    if r.Again? {
      RunStepTop(r.disk, dir, num, p, attempt + 1, Some(r.error), agent);
    }
  }

  lemma AttemptTop(d: Disk, dir: string, num: int, p: nat, attempt: nat, prev: Option<string>, agent: Agent)
    requires p < |d.steps|
    ensures TopSays(Attempt(d, dir, num, p, attempt, prev, agent).disk, dir, "completed") ==>
        TopSays(d, dir, "completed")
  {
    var reply := agent(|d.invoked|, d.steps);
    if !reply.StepFileMissing? {
      var steps := d.steps[p := reply.record];
      var d1 := d.(steps := steps, invoked := d.invoked + [Invocation(num, attempt, prev)]);
      TopAfterUpdate(d1, dir, "blocked", "completed");
      TopAfterUpdate(d1.(steps := FailAll(steps, num, ErrorOf(steps, num))), dir, "error", "completed");
    }
  }

  ghost predicate IsHistory(d: Disk, dir: string, actions: seq<Action>)
    decreases |actions|
  {
    actions != [] ==> Allowed(d, actions[0]) && IsHistory(Act(d, dir, actions[0]), dir, actions[1..])
  }

  ghost function History(d: Disk, dir: string, actions: seq<Action>): Disk
    requires IsHistory(d, dir, actions)
    decreases |actions|
  {
    if actions == [] then d else History(Act(d, dir, actions[0]), dir, actions[1..])
  }

  /** The agent of a run leaves documented statuses and keeps the number of its step. */
  ghost predicate IsDisciplined(a: Action) {
    a.RunOnce? ==> Tidy(a.agent) && KeepsNumber(a.agent)
  }

  lemma ResetKeepsSound(d: Disk, dir: string, i: nat)
    requires HistorySound(d, dir) && Allowed(d, ResetStep(i))
    ensures HistorySound(Act(d, dir, ResetStep(i)), dir)
  {
    var k: nat :| ShapeAt(d.steps, k);
    assert k == i && !d.steps[i].status.Completed?;
    assert ShapeAt(Act(d, dir, ResetStep(i)).steps, k);
  }

  lemma ActKeepsSound(d: Disk, dir: string, a: Action)
    requires HistorySound(d, dir) && Allowed(d, a) && IsDisciplined(a)
    ensures HistorySound(Act(d, dir, a), dir)
  {
    match a
    case RunOnce(agent, env) => RunOutcome(d, dir, agent, env);
    case ResetStep(i) => ResetKeepsSound(d, dir, i);
  }

  /** Over any sequence of resets and of runs with agents that leave documented statuses and keep the number of
      their step, the index keeps its shape, and the phase is reported completed only while all its steps are. */
  lemma {:induction false} HistoriesAreSound(d: Disk, dir: string, actions: seq<Action>)
    requires HistorySound(d, dir) && IsHistory(d, dir, actions) && forall a :: a in actions ==> IsDisciplined(a)
    ensures HistorySound(History(d, dir, actions), dir)
    decreases |actions|
  {
    if actions != [] {
      ActKeepsSound(d, dir, actions[0]);
      HistoriesAreSound(Act(d, dir, actions[0]), dir, actions[1..]);
    }
  }

  /** A step that was left with an undocumented status is passed over by a run, which completes the steps after
      it and reports the whole phase completed. */
  lemma UnknownStatusIsPassedOver(dir: string, a: Step, b: Step, env: Env)
    requires a.status.Other? && b.status.Pending? && a.num != b.num && env == Env(true, true)
    ensures var d := Disk([a, b], Some([PhaseRow(dir, "pending")]), []);
            && PendingNumbersUnique(d.steps)
            && exists agent ::
                 var (after, o) := Run(d, dir, agent, env);
                 o.Returned? && |after.steps| == 2 && after.steps[0] == a
                   && after.top == Some([PhaseRow(dir, "completed")])
  {
    var d := Disk([a, b], Some([PhaseRow(dir, "pending")]), []);
    var agent: Agent := (n, steps) => Wrote(b.(status := Completed));
    BlockersIff(d.steps);
    assert FirstPending(d.steps) == Some(1);
    CompletesAtOnce(d, dir, 1, b.(status := Completed), agent);
    assert MarkRow([PhaseRow(dir, "pending")], dir, "completed") == [PhaseRow(dir, "completed")];
    var (after, o) := Run(d, dir, agent, env);
    assert o.Returned? && after.steps[0] == a;
  }

  /** An agent that completes the only pending step ends the loop. */
  lemma CompletesAtOnce(d: Disk, dir: string, p: nat, record: Step, agent: Agent)
    requires PendingNumbersUnique(d.steps) && FirstPending(d.steps) == Some(p)
    requires agent(|d.invoked|, d.steps) == Wrote(record) && record.num == d.steps[p].num && record.status.Completed?
    requires forall i :: 0 <= i < |d.steps| && i != p ==> !d.steps[i].status.Pending?
    ensures var (after, o) := ExecuteAll(d, dir, agent);
      o.Returned? && after.steps == d.steps[p := record] && after.top == d.top
  {
    MarksEffect(d.steps, p, d.steps[p].num, record, "");
    AfterAttempt(d, dir, d.steps[p].num, p, 1, None, agent);
    RoundShrinksPending(d, dir, agent);
  }

  /** What renumbering breaks: exit 1 no longer leaves a failed record that blocks the rerun. A record that is
      completed under another number is not found, the run fails, no record says so, and the blocker check lets
      a rerun pass on to the next step. */
  lemma RenumberedStepEscapes(d: Disk, dir: string, a: Step, b: Step, m: int, agent: Agent)
    requires d.steps == [a, b] && a.status.Pending? && b.status.Pending? && a.num != b.num && m != a.num
    requires forall n, steps :: agent(n, steps) == Wrote(a.(num := m, status := Completed))
    ensures PendingNumbersUnique(d.steps)
    ensures var (after, o) := ExecuteAll(d, dir, agent);
      && o == Exit(1) && after.steps == [a.(num := m, status := Completed), b]
      && CheckBlockers(after.steps).None?
  {
    var record := a.(num := m, status := Completed);
    assert FirstPending(d.steps) == Some(0);
    var d1 := FailedAttempt(d, dir, a, b, a.num, 1, None, agent, record);
    AfterAttempt(d, dir, a.num, 0, 1, None, agent);
    var d2 := FailedAttempt(d1, dir, record, b, a.num, 2, Some(NO_UPDATE), agent, record);
    AfterAttempt(d1, dir, a.num, 0, 2, Some(NO_UPDATE), agent);
    var d3 := FailedAttempt(d2, dir, record, b, a.num, 3, Some(NO_UPDATE), agent, record);
    AfterAttempt(d2, dir, a.num, 0, 3, Some(NO_UPDATE), agent);
    assert OneRound(d, dir, agent) == Stop(d3, Exit(1));
    assert d3.steps[..1] == [record];
  }

  lemma FailedAttempt(d: Disk, dir: string, x: Step, b: Step, num: int, attempt: nat, prev: Option<string>,
                      agent: Agent, record: Step)
    returns (after: Disk)
    requires d.steps == [x, b] && b.num != num && record.num != num && 1 <= attempt <= MAX_RETRIES
    requires forall n, steps :: agent(n, steps) == Wrote(record)
    ensures after.steps == [record, b]
    ensures Attempt(d, dir, num, 0, attempt, prev, agent) ==
        if attempt < MAX_RETRIES then Again(after, NO_UPDATE) else Stopped(after, Exit(1))
  {
    MarksEffect(d.steps, 0, num, record, NO_UPDATE);
    MatchAt(d.steps[0 := record], 0, num);
    after := Attempt(d, dir, num, 0, attempt, prev, agent).disk;
  }

  // ----- agent calls -----

  /** A run calls the agent at most MAX_RETRIES times per pending step, and never for a step that
      was completed before. */
  lemma RunInvocations(d: Disk, dir: string, agent: Agent, env: Env)
    requires DistinctNumbers(d.steps) && PendingNumbersUnique(d.steps)
    ensures var after := Run(d, dir, agent, env).0;
            && |d.invoked| <= |after.invoked| <= |d.invoked| + MAX_RETRIES * PendingCount(d.steps)
            && forall i :: 0 <= i < |d.steps| && !d.steps[i].status.Pending? ==>
                 forall k :: |d.invoked| <= k < |after.invoked| ==> after.invoked[k].num != d.steps[i].num
  {
    var q := ExecuteAllEffect(d, dir, agent);
    var after := Run(d, dir, agent, env).0;
    forall i, k | 0 <= i < |d.steps| && !d.steps[i].status.Pending? && |d.invoked| <= k < |after.invoked|
      ensures after.invoked[k].num != d.steps[i].num
    {
      assert NumberIsPending(d.steps, after.invoked[k].num);
    }
  }
}
