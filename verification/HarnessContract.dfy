/**
 The validator and the executor together: metadata that the validator accepts is metadata on which
 the executor ends, and a run leaves metadata that the validator accepts again.
 */
module HarnessContract {
  import opened Wrappers
  import opened TextTools
  import opened StepExecutor
  import opened LoopTermination
  import opened FailedRuns
  import V = PhaseValidator

  function TextOf(t: V.RawText): string {
    if t.Text? then t.s else ""
  }

  function ReadStatus(t: V.RawText): Status {
    var s := TextOf(t);
    if s == "pending" then Pending
    else if s == "completed" then Completed
    else if s == "error" then Error
    else if s == "blocked" then Blocked
    else Other(s)
  }

  function StatusText(s: Status): string {
    match s
    case Pending => "pending"
    case Completed => "completed"
    case Error => "error"
    case Blocked => "blocked"
    case Other(text) => text
  }

  /** The executor's reading of a record of the index file. */
  function Load(r: V.RawStep): Step
    requires V.ValidNumber(r)
  {
    Step(r.step.n, TextOf(r.name), ReadStatus(r.status), TextOf(r.summary),
         if r.errorMessage.Text? then Some(r.errorMessage.s) else None, TextOf(r.blockedReason))
  }

  /** The record that the executor writes back. */
  function Dump(s: Step): V.RawStep {
    V.Object(V.Int(s.num), V.Text(s.name), V.Text(StatusText(s.status)), V.Text(s.summary),
             if s.errorMessage.Some? then V.Text(s.errorMessage.value) else V.NotText, V.Text(s.blockedReason))
  }

  function LoadAll(raw: seq<V.RawStep>): seq<Step>
    requires forall i :: 0 <= i < |raw| ==> V.ValidNumber(raw[i])
  {
    seq(|raw|, i requires 0 <= i < |raw| => Load(raw[i]))
  }

  function DumpAll(steps: seq<Step>): seq<V.RawStep> {
    seq(|steps|, i requires 0 <= i < |steps| => Dump(steps[i]))
  }

  /** Reading undoes writing; and writing undoes reading where all texts are there, but for those that are optional. */
  lemma ReadingUndoesWriting(s: Step)
    requires s.num >= 0
    ensures V.ValidNumber(Dump(s)) && Load(Dump(s)) == s
  {
  }

  lemma WritingUndoesReading(r: V.RawStep)
    requires V.ValidNumber(r) && r.name.Text? && r.status.Text? && r.summary.Text? && r.blockedReason.Text?
    ensures Dump(Load(r)) == r
  {
  }

  /** A text that is missing is read as an empty one, and a missing error message as none. */
  lemma MissingIsEmpty(r: V.RawStep)
    requires V.ValidNumber(r)
    ensures r.name == V.NotText ==> Load(r).name == ""
    ensures r.summary == V.NotText ==> Load(r).summary == ""
    ensures r.blockedReason == V.NotText ==> Load(r).blockedReason == ""
    ensures r.errorMessage == V.NotText <==> Load(r).errorMessage == None
  {
  }

  lemma WellFormedIsDistinct(dir: V.PhaseDir, hasFile: int -> bool)
    requires V.WellFormed(dir, hasFile)
    ensures forall i :: 0 <= i < |dir.steps.value| ==> V.ValidNumber(dir.steps.value[i])
    ensures DistinctNumbers(LoadAll(dir.steps.value))
  {
  }

  lemma DistinctStops(steps: seq<Step>)
    requires DistinctNumbers(steps)
    ensures StopsForEveryAgent(steps)
  {
    DistinctIsUnique(steps);
    forall d: Disk, dir: string, agent: Agent | d.steps == steps ensures Stops(d, dir, agent) {
      UniqueNumbersStop(d, dir, agent);
    }
  }

  /** What the validator accepts, the executor runs to an end for every agent. */
  lemma ValidatedPhaseStops(dir: V.PhaseDir, hasFile: int -> bool)
    requires V.ReportPhase([], dir, hasFile) == []
    ensures dir.Index? && dir.steps.Some?
    ensures forall i :: 0 <= i < |dir.steps.value| ==> V.ValidNumber(dir.steps.value[i])
    ensures StopsForEveryAgent(LoadAll(dir.steps.value))
  {
    V.NoProblemsIff([], dir, hasFile);
    WellFormedIsDistinct(dir, hasFile);
    DistinctStops(LoadAll(dir.steps.value));
  }

  predicate Ready(s: Step, hasFile: int -> bool) {
    V.Documented(Dump(s), hasFile)
  }

  predicate AllReady(steps: seq<Step>, hasFile: int -> bool) {
    forall i :: 0 <= i < |steps| ==> Ready(steps[i], hasFile)
  }

  /** The agent follows its instructions: a summary with "completed", a reason with "blocked"; if it
      dies, the record it leaves is in order. */
  ghost predicate Documents(agent: Agent) {
    forall n, steps :: ReplyDocumented(agent(n, steps))
  }

  predicate ReplyDocumented(r: Reply) {
    match r
    case StepFileMissing => true
    case Died(s) => HasText(s.name) && Standard(s.status) && TextsReady(s)
    case Wrote(s) => HasText(s.name) && (s.status.Completed? || s.status.Blocked? ==> TextsReady(s))
  }

  predicate TextsReady(s: Step) {
    && (s.status.Completed? ==> HasText(s.summary))
    && (s.status.Error? ==> s.errorMessage.Some? && HasText(s.errorMessage.value))
    && (s.status.Blocked? ==> HasText(s.blockedReason))
  }

  lemma ReadyIff(s: Step, hasFile: int -> bool)
    ensures Ready(s, hasFile) <==>
      Standard(s.status) && s.num >= 0 && hasFile(s.num) && HasText(s.name) && TextsReady(s)
  {
    assert |"pending"| == 7 && |"completed"| == 9 && |"error"| == 5 && |"blocked"| == 7;
    assert "pending"[0] == 'p' && "blocked"[0] == 'b';
  }

  lemma FailureHasText(error: string)
    ensures HasText(FAILURE_PREFIX + error)
  {
    assert (FAILURE_PREFIX + error)[0] == '[';
  }

  // ----- the record that a turn leaves -----

  /** The reply keeps the number and is documented; or nothing was written. */
  predicate IsAccepted(num: int, reply: Reply) {
    reply.StepFileMissing? || (reply.record.num == num && ReplyDocumented(reply))
  }

  /** The record after a last writing reply: as before if there is none, under the number of the reply, and if that
      is the number of the step in order exactly when the reply is documented. */
  ghost predicate IsWritten(after: Step, before: Step, num: int, reply: Reply, hasFile: int -> bool) {
    if reply.StepFileMissing? then after == before
    else
      && after.num == reply.record.num
      && (after.num == num && num >= 0 && hasFile(num) ==> (Ready(after, hasFile) <==> ReplyDocumented(reply)))
  }

  /** The marks of the harness leave a record in order that has a name. */
  lemma MarksReadyIff(s: Step, num: int, error: string, hasFile: int -> bool)
    ensures s.num == num && num >= 0 && hasFile(num) ==>
      && (Ready(s, hasFile) <==> Standard(s.status) && HasText(s.name) && TextsReady(s))
      && (Ready(ResetRecord(s, num), hasFile) <==> HasText(s.name))
      && (Ready(FailRecord(s, num, error), hasFile) <==> HasText(s.name))
  {
    FailureHasText(error);
    ReadyIff(s, hasFile);
    ReadyIff(ResetRecord(s, num), hasFile);
    ReadyIff(FailRecord(s, num, error), hasFile);
  }

  lemma AttemptWrites(d: Disk, dir: string, num: int, p: nat, attempt: nat, prev: Option<string>, agent: Agent,
                      hasFile: int -> bool)
    requires OthersDiffer(d.steps, p, num) && 1 <= attempt <= MAX_RETRIES
    ensures var r := Attempt(d, dir, num, p, attempt, prev, agent);
      && OthersKept(d.steps, r.disk.steps, p)
      && IsWritten(r.disk.steps[p], d.steps[p], num, agent(|d.invoked|, d.steps), hasFile)
  {
    AttemptOthers(d, dir, num, p, attempt, prev, agent);
    var reply := agent(|d.invoked|, d.steps);
    if !reply.StepFileMissing? {
      var error := ErrorOf(d.steps[p := reply.record], num);
      MarksEffect(d.steps, p, num, reply.record, error);
      MarksReadyIff(reply.record, num, error, hasFile);
    }
  }

  lemma {:induction false} StepWrites(d: Disk, dir: string, num: int, p: nat, attempt: nat, prev: Option<string>,
                                      agent: Agent, hasFile: int -> bool)
    requires OthersDiffer(d.steps, p, num) && 1 <= attempt <= MAX_RETRIES
    ensures var r := RunStep(d, dir, num, p, attempt, prev, agent);
      && OthersKept(d.steps, r.disk.steps, p)
      && IsWritten(r.disk.steps[p], d.steps[p], num, LastWriting(d, dir, num, p, attempt, prev, agent), hasFile)
    decreases MAX_RETRIES - attempt
  {
    AttemptWrites(d, dir, num, p, attempt, prev, agent, hasFile);
    AttemptLeaves(d, dir, num, p, attempt, prev, agent);
    AfterAttempt(d, dir, num, p, attempt, prev, agent);
    var r := Attempt(d, dir, num, p, attempt, prev, agent);
    if r.Again? {
      StepWrites(r.disk, dir, num, p, attempt + 1, Some(r.error), agent, hasFile);
    }
  }

  // ----- the metadata that a run leaves -----

  /** The last writing reply of every turn of the loop is accepted. */
  ghost predicate TurnsAccepted(d: Disk, dir: string, agent: Agent)
    requires PendingNumbersUnique(d.steps)
    decreases PendingCount(d.steps)
  {
    match FirstPending(d.steps)
    case None => true
    case Some(p) =>
      && IsAccepted(d.steps[p].num, LastWriting(d, dir, d.steps[p].num, p, 1, None, agent))
      && match OneRound(d, dir, agent)
         case Next(mid) => RoundShrinksPending(d, dir, agent); TurnsAccepted(mid, dir, agent)
         case _ => true
  }

  /** All records are in order, and the numbers a permutation. */
  ghost predicate IsValid(steps: seq<Step>, hasFile: int -> bool) {
    AllReady(steps, hasFile) && V.NumbersAreAPermutation(DumpAll(steps))
  }

  lemma ValidIsUnique(steps: seq<Step>, hasFile: int -> bool)
    requires IsValid(steps, hasFile)
    ensures DistinctNumbers(steps) && PendingNumbersUnique(steps)
  {
    var raw := DumpAll(steps);
    forall i, j | 0 <= i < j < |steps| ensures steps[i].num != steps[j].num {
      assert V.ValidNumber(raw[i]) && V.ValidNumber(raw[j]) && raw[i].step.n != raw[j].step.n;
    }
    DistinctIsUnique(steps);
  }

  /** A change of one record keeps the metadata valid exactly when its number stays and it is in order. */
  lemma ChangedIsValidIff(before: seq<Step>, after: seq<Step>, p: nat, hasFile: int -> bool)
    requires IsValid(before, hasFile) && OthersKept(before, after, p)
    ensures IsValid(after, hasFile) <==> after[p].num == before[p].num && Ready(after[p], hasFile)
  {
    ValidIsUnique(before, hasFile);
    if after[p].num == before[p].num && Ready(after[p], hasFile) {
      assert AllReady(after, hasFile);
      SameNumbers(before, after, hasFile);
    }
    if IsValid(after, hasFile) {
      var b, a := DumpAll(before), DumpAll(after);
      assert V.ValidNumber(b[p]) && b[p].step.n < |a| && V.HasNumber(a, b[p].step.n);
      var i :| 0 <= i < |a| && V.ValidNumber(a[i]) && a[i].step.n == b[p].step.n;
      assert after[i].num == before[p].num;
    }
  }

  lemma TurnIsValidIff(d: Disk, dir: string, agent: Agent, p: nat, hasFile: int -> bool)
    requires IsValid(d.steps, hasFile) && FirstPending(d.steps) == Some(p)
    ensures var num := d.steps[p].num; var after := RunStep(d, dir, num, p, 1, None, agent).disk.steps;
      && OthersKept(d.steps, after, p)
      && (IsValid(after, hasFile) <==> IsAccepted(num, LastWriting(d, dir, num, p, 1, None, agent)))
  {
    var num := d.steps[p].num;
    ValidIsUnique(d.steps, hasFile);
    StepWrites(d, dir, num, p, 1, None, agent, hasFile);
    var after := RunStep(d, dir, num, p, 1, None, agent).disk.steps;
    ChangedIsValidIff(d.steps, after, p, hasFile);
    assert Ready(d.steps[p], hasFile);
    ReadyIff(d.steps[p], hasFile);
  }

  /** What a turn has completed wrongly stays so. */
  lemma StaysInvalid(d: Disk, dir: string, agent: Agent, p: nat, hasFile: int -> bool)
    requires PendingNumbersUnique(d.steps) && p < |d.steps| && d.steps[p].status.Completed?
    requires !Ready(d.steps[p], hasFile)
    ensures !IsValid(ExecuteAll(d, dir, agent).0.steps, hasFile)
  {
    var q := ExecuteAllEffect(d, dir, agent);
    assert ExecuteAll(d, dir, agent).0.steps[p] == d.steps[p];
  }

  lemma {:induction false} LoopIsValidIff(d: Disk, dir: string, agent: Agent, hasFile: int -> bool)
    requires IsValid(d.steps, hasFile) && PendingNumbersUnique(d.steps)
    ensures IsValid(ExecuteAll(d, dir, agent).0.steps, hasFile) <==> TurnsAccepted(d, dir, agent)
    decreases PendingCount(d.steps)
  {
    var first := FirstPending(d.steps);
    if first.Some? {
      var p := first.value;
      TurnIsValidIff(d, dir, agent, p, hasFile);
      RoundShrinksPending(d, dir, agent);
      RoundEffect(d, dir, agent, p);
      var r := OneRound(d, dir, agent);
      if r.Next? {
        if IsValid(r.disk.steps, hasFile) {
          LoopIsValidIff(r.disk, dir, agent, hasFile);
        } else {
          ChangedIsValidIff(d.steps, r.disk.steps, p, hasFile);
          StaysInvalid(r.disk, dir, agent, p, hasFile);
        }
      }
    }
  }

  /** The run does not get to the loop, or the last writing reply of every turn is accepted. */
  ghost predicate RunAccepted(d: Disk, dir: string, agent: Agent, env: Env)
    requires PendingNumbersUnique(d.steps)
  {
    Starts(d, env) ==> TurnsAccepted(d, dir, agent)
  }

  function IndexOf(project: V.RawText, phase: V.RawText, steps: seq<Step>): V.PhaseDir {
    V.Index(project, phase, Some(DumpAll(steps)))
  }

  lemma ReportIff(project: V.RawText, phase: V.RawText, steps: seq<Step>, hasFile: int -> bool)
    requires V.Filled(project) && V.Filled(phase)
    ensures V.ReportPhase([], IndexOf(project, phase, steps), hasFile) == [] <==> IsValid(steps, hasFile)
  {
    V.NoProblemsIff([], IndexOf(project, phase, steps), hasFile);
    var raw := DumpAll(steps);
    assert forall i :: 0 <= i < |steps| ==> raw[i] == Dump(steps[i]);
  }

  lemma RunSteps(d: Disk, dir: string, agent: Agent, env: Env)
    requires PendingNumbersUnique(d.steps)
    ensures Run(d, dir, agent, env).0.steps == if Starts(d, env) then ExecuteAll(d, dir, agent).0.steps else d.steps
  {
  }

  /** For every agent: a run from metadata that the validator accepts leaves metadata that it accepts, however the run
      ends, exactly when it does not get to the loop, or in each of its turns the last reply that rewrote the
      record kept the number, a name, the texts of "completed" and "blocked", and a documented status if the
      agent died. The text of an "error" is the harness's own. */
  lemma RunStaysValidIff(d: Disk, dir: string, agent: Agent, env: Env, project: V.RawText, phase: V.RawText,
                         hasFile: int -> bool)
    requires V.ReportPhase([], IndexOf(project, phase, d.steps), hasFile) == []
    ensures PendingNumbersUnique(d.steps)
    ensures V.ReportPhase([], IndexOf(project, phase, Run(d, dir, agent, env).0.steps), hasFile) == [] <==>
      RunAccepted(d, dir, agent, env)
  {
    V.NoProblemsIff([], IndexOf(project, phase, d.steps), hasFile);
    ReportIff(project, phase, d.steps, hasFile);
    ValidIsUnique(d.steps, hasFile);
    LoopIsValidIff(d, dir, agent, hasFile);
    RunSteps(d, dir, agent, env);
    ReportIff(project, phase, Run(d, dir, agent, env).0.steps, hasFile);
  }

  lemma {:induction false} WritesAccepted(d: Disk, dir: string, num: int, p: nat, attempt: nat, prev: Option<string>,
                                          agent: Agent)
    requires AtWork(d.steps, p, num) && OthersDiffer(d.steps, p, num) && 1 <= attempt <= MAX_RETRIES
    requires Documents(agent) && KeepsNumber(agent)
    ensures IsAccepted(num, LastWriting(d, dir, num, p, attempt, prev, agent))
    decreases MAX_RETRIES - attempt
  {
    AttemptEffect(d, dir, num, p, attempt, prev, agent);
    assert ReplyDocumented(agent(|d.invoked|, d.steps));
    var r := Attempt(d, dir, num, p, attempt, prev, agent);
    if r.Again? {
      WritesAccepted(r.disk, dir, num, p, attempt + 1, Some(r.error), agent);
    }
  }

  lemma {:induction false} AllTurnsAccepted(d: Disk, dir: string, agent: Agent)
    requires PendingNumbersUnique(d.steps) && Documents(agent) && KeepsNumber(agent)
    ensures TurnsAccepted(d, dir, agent)
    decreases PendingCount(d.steps)
  {
    var first := FirstPending(d.steps);
    if first.Some? {
      WritesAccepted(d, dir, d.steps[first.value].num, first.value, 1, None, agent);
      RoundShrinksPending(d, dir, agent);
      var r := OneRound(d, dir, agent);
      if r.Next? {
        AllTurnsAccepted(r.disk, dir, agent);
      }
    }
  }

  /** A run with a documenting agent that keeps its number keeps the metadata valid. */
  lemma RunKeepsMetadataValid(d: Disk, dir: string, agent: Agent, env: Env, project: V.RawText, phase: V.RawText,
                              hasFile: int -> bool)
    requires PendingNumbersUnique(d.steps) && Documents(agent) && KeepsNumber(agent)
    requires V.ReportPhase([], IndexOf(project, phase, d.steps), hasFile) == []
    ensures V.ReportPhase([], IndexOf(project, phase, Run(d, dir, agent, env).0.steps), hasFile) == []
  {
    RunStaysValidIff(d, dir, agent, env, project, phase, hasFile);
    AllTurnsAccepted(d, dir, agent);
  }

  /** Reading a record that the validator accepts and writing it back gives one that it accepts. */
  lemma LoadedIsDocumented(r: V.RawStep, hasFile: int -> bool)
    requires V.Documented(r, hasFile)
    ensures V.ValidNumber(r) && V.Documented(Dump(Load(r)), hasFile) && Dump(Load(r)).step == r.step
  {
    assert StatusText(ReadStatus(r.status)) == TextOf(r.status);
  }

  lemma LoadedIsWellFormed(project: V.RawText, phase: V.RawText, raw: seq<V.RawStep>, hasFile: int -> bool)
    requires V.WellFormed(V.Index(project, phase, Some(raw)), hasFile)
    ensures forall i :: 0 <= i < |raw| ==> V.ValidNumber(raw[i])
    ensures V.WellFormed(V.Index(project, phase, Some(DumpAll(LoadAll(raw)))), hasFile)
  {
    WellFormedIsDistinct(V.Index(project, phase, Some(raw)), hasFile);
    var back := DumpAll(LoadAll(raw));
    forall i | 0 <= i < |raw| ensures V.Documented(back[i], hasFile) && back[i].step == raw[i].step {
      assert V.Documented(raw[i], hasFile);
      LoadedIsDocumented(raw[i], hasFile);
    }
    forall n | 0 <= n < |back| ensures V.HasNumber(back, n) {
      assert V.HasNumber(raw, n);
      var i :| 0 <= i < |raw| && V.ValidNumber(raw[i]) && raw[i].step.n == n;
      assert V.ValidNumber(back[i]) && back[i].step.n == n;
    }
    assert V.NoDuplicates(back);
  }

  /** The same from every index file that the validator accepts, with optional texts or without. */
  lemma ValidatedRunStaysValidIff(project: V.RawText, phase: V.RawText, raw: seq<V.RawStep>,
                                  top: Option<seq<PhaseRow>>, dir: string, agent: Agent, env: Env,
                                  hasFile: int -> bool)
    requires V.ReportPhase([], V.Index(project, phase, Some(raw)), hasFile) == []
    ensures forall i :: 0 <= i < |raw| ==> V.ValidNumber(raw[i])
    ensures PendingNumbersUnique(LoadAll(raw))
    ensures var d := Disk(LoadAll(raw), top, []);
      V.ReportPhase([], IndexOf(project, phase, Run(d, dir, agent, env).0.steps), hasFile) == [] <==>
        RunAccepted(d, dir, agent, env)
  {
    var index := V.Index(project, phase, Some(raw));
    V.NoProblemsIff([], index, hasFile);
    WellFormedIsDistinct(index, hasFile);
    LoadedIsWellFormed(project, phase, raw, hasFile);
    V.NoProblemsIff([], IndexOf(project, phase, LoadAll(raw)), hasFile);
    RunStaysValidIff(Disk(LoadAll(raw), top, []), dir, agent, env, project, phase, hasFile);
  }

  lemma ValidatedRunStaysValid(project: V.RawText, phase: V.RawText, raw: seq<V.RawStep>, top: Option<seq<PhaseRow>>,
                               dir: string, agent: Agent, env: Env, hasFile: int -> bool)
    requires V.ReportPhase([], V.Index(project, phase, Some(raw)), hasFile) == []
    requires Documents(agent) && KeepsNumber(agent)
    ensures forall i :: 0 <= i < |raw| ==> V.ValidNumber(raw[i])
    ensures PendingNumbersUnique(LoadAll(raw))
    ensures var after := Run(Disk(LoadAll(raw), top, []), dir, agent, env).0;
      V.ReportPhase([], IndexOf(project, phase, after.steps), hasFile) == []
  {
    ValidatedRunStaysValidIff(project, phase, raw, top, dir, agent, env, hasFile);
    AllTurnsAccepted(Disk(LoadAll(raw), top, []), dir, agent);
  }

  lemma SameNumbers(before: seq<Step>, after: seq<Step>, hasFile: int -> bool)
    requires |after| == |before| && (forall i :: 0 <= i < |before| ==> after[i].num == before[i].num)
    requires V.NumbersAreAPermutation(DumpAll(before))
    requires AllReady(after, hasFile)
    ensures V.NumbersAreAPermutation(DumpAll(after))
    ensures forall i :: 0 <= i < |after| ==> V.Documented(DumpAll(after)[i], hasFile)
  {
    var b, a := DumpAll(before), DumpAll(after);
    forall i | 0 <= i < |a| ensures V.Documented(a[i], hasFile) && a[i].step == b[i].step {
      assert Ready(after[i], hasFile);
    }
    forall n | 0 <= n < |a| ensures V.HasNumber(a, n) {
      assert V.HasNumber(b, n);
      var i :| 0 <= i < |b| && V.ValidNumber(b[i]) && b[i].step.n == n;
      assert V.ValidNumber(a[i]) && a[i].step.n == n;
    }
    assert V.NoDuplicates(a);
  }
}
