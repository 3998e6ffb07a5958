/**
 When the `while True` loop of the executor ends (scripts/execute.py), for an index of any statuses and an
 agent that may do anything to the record of its step.
 */
module LoopTermination {
  import opened Wrappers
  import opened StepExecutor

  /** Whatever the agent does, the loop leaves after finitely many turns. */
  ghost predicate StopsForEveryAgent(steps: seq<Step>) {
    forall d: Disk, dir: string, agent: Agent :: d.steps == steps ==> Stops(d, dir, agent)
  }

  ghost predicate Stops(d: Disk, dir: string, agent: Agent) {
    exists n: nat :: !Rounds(d, dir, agent, n).Next?
  }

  lemma {:induction false} UniqueNumbersStop(d: Disk, dir: string, agent: Agent)
    requires PendingNumbersUnique(d.steps)
    ensures !Rounds(d, dir, agent, PendingCount(d.steps) + 1).Next?
    decreases PendingCount(d.steps)
  {
    var first := FirstPending(d.steps);
    if first.Some? {
      RoundShrinksPending(d, dir, agent);
      var r := OneRound(d, dir, agent);
      if r.Next? {
        UniqueNumbersStop(r.disk, dir, agent);
      }
    }
  }

  // ----- the condition -----

  /** The record is the first one with its number. */
  predicate IsFirst(steps: seq<Step>, i: int) {
    0 <= i < |steps| && forall f :: 0 <= f < i ==> steps[f].num != steps[i].num
  }

  /** Neither pending nor completed. */
  predicate IsFailed(s: Status) {
    !s.Pending? && !s.Completed?
  }

  /** A pending record whose number the lookup finds earlier, at a failed record: its turn ends the loop. */
  predicate Doomed(steps: seq<Step>, b: int) {
    && 0 <= b < |steps| && steps[b].status.Pending?
    && exists f :: 0 <= f < b && IsFirst(steps, f) && steps[f].num == steps[b].num && IsFailed(steps[f].status)
  }

  /** No record before this position ends the loop. */
  ghost predicate Reachable(steps: seq<Step>, j: int) {
    forall b :: 0 <= b < j ==> !Doomed(steps, b)
  }

  /** Two records with one number, of which the first can become completed while the second is pending. */
  ghost predicate IsPair(steps: seq<Step>, i: int, j: int) {
    && 0 <= i < j < |steps| && steps[i].num == steps[j].num && IsFirst(steps, i) && !IsFailed(steps[i].status)
    && (steps[i].status.Pending? || steps[j].status.Pending?)
    && Reachable(steps, j)
  }

  /** `l` is the next record with the number of `i`. */
  predicate IsTwin(steps: seq<Step>, i: int, l: int) {
    && 0 <= i < l < |steps| && steps[l].num == steps[i].num
    && forall k :: i < k < l ==> steps[k].num != steps[i].num
  }

  /** A pending record that its completed twin lets the agent renumber without being noticed, and a record
      whose number it can take then. */
  ghost predicate IsEscape(steps: seq<Step>, i: int, l: int, x: int) {
    && IsFirst(steps, i) && steps[i].status.Pending? && Reachable(steps, i)
    && IsTwin(steps, i, l) && steps[l].status.Completed?
    && IsFirst(steps, x) && steps[x].num != steps[i].num
    && (steps[x].status.Completed? || (Reachable(steps, x) && (steps[x].status.Pending? || i < x)))
  }

  ghost predicate CanGoOn(steps: seq<Step>) {
    (exists i, j :: IsPair(steps, i, j)) || (exists i, l, x :: IsEscape(steps, i, l, x))
  }

  // ----- what one turn can do -----

  /** An earlier record with the number that is not completed: no attempt finds "completed". */
  lemma {:induction false} MatchedEarlier(d: Disk, dir: string, num: int, f: nat, p: nat, attempt: nat,
                                          prev: Option<string>, agent: Agent)
    requires f < p < |d.steps| && FirstMatch(d.steps, num) == Some(f) && !d.steps[f].status.Completed?
    requires 1 <= attempt <= MAX_RETRIES
    ensures RunStep(d, dir, num, p, attempt, prev, agent).Stopped?
    decreases MAX_RETRIES - attempt
  {
    AfterAttempt(d, dir, num, p, attempt, prev, agent);
    AttemptMatchedEarlier(d, dir, num, f, p, attempt, prev, agent);
    var r := Attempt(d, dir, num, p, attempt, prev, agent);
    if r.Again? {
      MatchedEarlier(r.disk, dir, num, f, p, attempt + 1, Some(r.error), agent);
    }
  }

  lemma AttemptMatchedEarlier(d: Disk, dir: string, num: int, f: nat, p: nat, attempt: nat, prev: Option<string>,
                              agent: Agent)
    requires f < p < |d.steps| && FirstMatch(d.steps, num) == Some(f) && !d.steps[f].status.Completed?
    ensures var r := Attempt(d, dir, num, p, attempt, prev, agent);
      && !r.Finished?
      && (r.Again? ==>
            && p < |r.disk.steps| && FirstMatch(r.disk.steps, num) == Some(f)
            && !r.disk.steps[f].status.Completed?)
  {
    var reply := agent(|d.invoked|, d.steps);
    if !reply.StepFileMissing? {
      var steps := d.steps[p := reply.record];
      MatchIs(steps, num, f);
      MatchIs(ResetAll(steps, num), num, f);
    }
  }

  lemma MatchIs(steps: seq<Step>, num: int, f: nat)
    requires f < |steps| && steps[f].num == num && forall g :: 0 <= g < f ==> steps[g].num != num
    ensures FirstMatch(steps, num) == Some(f)
  {
  }

  lemma DoomedStops(d: Disk, dir: string, agent: Agent, p: nat)
    requires FirstPending(d.steps) == Some(p) && Doomed(d.steps, p)
    ensures !OneRound(d, dir, agent).Next?
  {
    var f: nat :| f < p && IsFirst(d.steps, f) && d.steps[f].num == d.steps[p].num && IsFailed(d.steps[f].status);
    MatchIs(d.steps, d.steps[p].num, f);
    MatchedEarlier(d, dir, d.steps[p].num, f, p, 1, None, agent);
  }

  /** The step is completed under its number; others with that number may have been reset. */
  ghost predicate IsCompletion(before: seq<Step>, after: seq<Step>, p: nat, num: int) {
    && p < |before| == |after| && after[p].num == num && after[p].status.Completed?
    && forall i :: 0 <= i < |before| && i != p ==> after[i] == before[i] || after[i] == ResetRecord(before[i], num)
  }

  /** The record has got another number, and the completed twin was taken for it. */
  ghost predicate IsRenumbering(before: seq<Step>, after: seq<Step>, p: nat, num: int) {
    && OthersKept(before, after, p) && after[p].num != num
    && exists l :: p < l < |before| && before[l].num == num && before[l].status.Completed?
         && forall k :: 0 <= k < l && k != p ==> before[k].num != num
  }

  /** Other records with the number are all pending. */
  ghost predicate TwinsPending(steps: seq<Step>, p: nat, num: int) {
    p < |steps| && forall i :: 0 <= i < |steps| && i != p && steps[i].num == num ==> steps[i].status.Pending?
  }

  ghost predicate NoneBefore(steps: seq<Step>, p: nat, num: int) {
    p < |steps| && forall f :: 0 <= f < p ==> steps[f].num != num
  }

  /** What the harness finds under the number when no earlier record has it. */
  lemma AloneStatus(before: seq<Step>, p: nat, num: int, record: Step)
    requires NoneBefore(before, p, num)
    ensures var steps := before[p := record];
      StatusOf(steps, num).Completed? ==>
        IsCompletion(before, steps, p, num) || (IsRenumbering(before, steps, p, num) && !TwinsPending(before, p, num))
  {
    var steps := before[p := record];
    var m := FirstMatch(steps, num);
    if record.num == num {
      MatchIs(steps, num, p);
    } else if m.Some? {
      var l := m.value;
      assert p < l < |before| && before[l] == steps[l];
      assert forall k :: 0 <= k < l && k != p ==> before[k] == steps[k] && before[k].num != num;
    }
  }

  lemma AloneReset(before: seq<Step>, p: nat, num: int, record: Step)
    requires NoneBefore(before, p, num)
    ensures var reset := ResetAll(before[p := record], num);
      NoneBefore(reset, p, num) && TwinsPending(reset, p, num) && MaybeReset(before, reset, p, num)
  {
  }

  /** One attempt at a step without an earlier record of its number. */
  lemma AttemptAlone(d: Disk, dir: string, num: int, p: nat, attempt: nat, prev: Option<string>, agent: Agent)
    requires NoneBefore(d.steps, p, num)
    ensures var r := Attempt(d, dir, num, p, attempt, prev, agent);
      && (r.Finished? ==> IsCompletion(d.steps, r.disk.steps, p, num)
                          || (IsRenumbering(d.steps, r.disk.steps, p, num) && !TwinsPending(d.steps, p, num)))
      && (r.Again? ==>
            && NoneBefore(r.disk.steps, p, num) && TwinsPending(r.disk.steps, p, num)
            && MaybeReset(d.steps, r.disk.steps, p, num))
  {
    var reply := agent(|d.invoked|, d.steps);
    if !reply.StepFileMissing? {
      AloneStatus(d.steps, p, num, reply.record);
      AloneReset(d.steps, p, num, reply.record);
    }
  }

  ghost predicate MaybeReset(before: seq<Step>, after: seq<Step>, p: nat, num: int) {
    && p < |before| == |after|
    && forall i :: 0 <= i < |before| && i != p ==> after[i] == before[i] || after[i] == ResetRecord(before[i], num)
  }

  lemma {:induction false} LaterAttempts(d: Disk, dir: string, num: int, p: nat, attempt: nat, prev: Option<string>,
                                         agent: Agent)
    requires NoneBefore(d.steps, p, num) && TwinsPending(d.steps, p, num) && 1 <= attempt <= MAX_RETRIES
    ensures var r := RunStep(d, dir, num, p, attempt, prev, agent);
        r.Finished? ==> IsCompletion(d.steps, r.disk.steps, p, num)
    decreases MAX_RETRIES - attempt
  {
    AfterAttempt(d, dir, num, p, attempt, prev, agent);
    AttemptAlone(d, dir, num, p, attempt, prev, agent);
    var r := Attempt(d, dir, num, p, attempt, prev, agent);
    if r.Again? {
      LaterAttempts(r.disk, dir, num, p, attempt + 1, Some(r.error), agent);
      var s := RunStep(r.disk, dir, num, p, attempt + 1, Some(r.error), agent);
      if s.Finished? {
        ResetTwice(d.steps, r.disk.steps, s.disk.steps, p, num);
      }
    }
  }

  lemma ResetTwice(a: seq<Step>, b: seq<Step>, c: seq<Step>, p: nat, num: int)
    requires MaybeReset(a, b, p, num) && IsCompletion(b, c, p, num)
    ensures IsCompletion(a, c, p, num)
  {
  }

  /** What a turn can do to the first pending record, if it is also the first with its number. */
  lemma AloneRound(d: Disk, dir: string, agent: Agent, p: nat)
    requires FirstPending(d.steps) == Some(p) && IsFirst(d.steps, p)
    ensures var r := OneRound(d, dir, agent); var num := d.steps[p].num;
      r.Next? ==> IsCompletion(d.steps, r.disk.steps, p, num) || IsRenumbering(d.steps, r.disk.steps, p, num)
  {
    var num := d.steps[p].num;
    AfterAttempt(d, dir, num, p, 1, None, agent);
    AttemptAlone(d, dir, num, p, 1, None, agent);
    var r := Attempt(d, dir, num, p, 1, None, agent);
    if r.Again? {
      LaterAttempts(r.disk, dir, num, p, 2, Some(r.error), agent);
      var s := RunStep(r.disk, dir, num, p, 2, Some(r.error), agent);
      if s.Finished? {
        ResetTwice(d.steps, r.disk.steps, s.disk.steps, p, num);
      }
    }
  }

  // ----- the loop ends -----

  /** Up to `b`, where the loop ends, every pending record is alone with its number and has no completed
      twin behind `b`. */
  ghost predicate IsTame(steps: seq<Step>, b: nat) {
    && b <= |steps| && (b < |steps| ==> Doomed(steps, b))
    && forall i :: 0 <= i < b && steps[i].status.Pending? ==> IsAlone(steps, i, b)
  }

  ghost predicate IsAlone(steps: seq<Step>, i: int, b: nat) {
    && 0 <= i < b <= |steps|
    && (forall j :: 0 <= j < b && j != i ==> steps[j].num != steps[i].num)
    && (forall l :: IsTwin(steps, i, l) ==> !steps[l].status.Completed?)
  }

  /** A completion in front of `b` keeps the index tame. */
  lemma CompletionStaysTame(before: seq<Step>, after: seq<Step>, p: nat, b: nat)
    requires IsTame(before, b) && p < b && before[p].status.Pending? && IsCompletion(before, after, p, before[p].num)
    ensures IsTame(after, b) && OnlyAt(before[..b], after[..b], p)
  {
  }

  lemma NotCompletedTwin(before: seq<Step>, after: seq<Step>, p: nat, b: nat)
    requires IsTame(before, b) && p < b && before[p].status.Pending?
    ensures !IsRenumbering(before, after, p, before[p].num)
  {
  }

  lemma TameRound(d: Disk, dir: string, agent: Agent, b: nat)
    requires IsTame(d.steps, b)
    ensures var r := OneRound(d, dir, agent);
      r.Next? ==> IsTame(r.disk.steps, b) && PendingCount(r.disk.steps[..b]) < PendingCount(d.steps[..b])
  {
    var first := FirstPending(d.steps);
    if first.Some? {
      var p := first.value;
      if p < b {
        assert IsAlone(d.steps, p, b);
        AloneRound(d, dir, agent, p);
        var r := OneRound(d, dir, agent);
        if r.Next? {
          NotCompletedTwin(d.steps, r.disk.steps, p, b);
          CompletionStaysTame(d.steps, r.disk.steps, p, b);
          PendingCountUpdate(d.steps[..b], r.disk.steps[..b], p);
        }
      } else {
        assert b < |d.steps| && p == b;
        DoomedStops(d, dir, agent, p);
      }
    }
  }

  lemma {:induction false} TameStops(d: Disk, dir: string, agent: Agent, b: nat) returns (n: nat)
    requires IsTame(d.steps, b)
    ensures !Rounds(d, dir, agent, n).Next?
    decreases PendingCount(d.steps[..b])
  {
    TameRound(d, dir, agent, b);
    var r := OneRound(d, dir, agent);
    if r.Next? {
      n := TameStops(r.disk, dir, agent, b);
      n := n + 1;
      RoundsNext(d, dir, agent, n);
    } else {
      n := 1;
      OneRoundStops(d, dir, agent);
    }
  }

  lemma RoundsNext(d: Disk, dir: string, agent: Agent, n: nat)
    requires n > 0 && OneRound(d, dir, agent).Next?
    ensures Rounds(d, dir, agent, n) == Rounds(OneRound(d, dir, agent).disk, dir, agent, n - 1)
  {
  }

  /** The first record that ends the loop, or the length. */
  function End(steps: seq<Step>, from: nat): (b: nat)
    requires from <= |steps|
    ensures from <= b <= |steps| && (b < |steps| ==> Doomed(steps, b))
        && forall i :: from <= i < b ==> !Doomed(steps, i)
    decreases |steps| - from
  {
    if from == |steps| || Doomed(steps, from) then from else End(steps, from + 1)
  }

  /** In an index that cannot go on, nothing in front of the end shares the number of a pending record. */
  lemma NoPairIsAlone(steps: seq<Step>, b: nat, i: nat, j: nat)
    requires !CanGoOn(steps) && b == End(steps, 0) && i < b && j < b && i != j && steps[i].status.Pending?
    ensures steps[i].num != steps[j].num
  {
    if steps[i].num == steps[j].num {
      var m := FirstMatch(steps, steps[i].num).value;
      assert IsFirst(steps, m);
      if m == i {
        assert IsPair(steps, i, j);
      } else {
        assert IsFailed(steps[m].status) ==> Doomed(steps, i);
        assert IsPair(steps, m, i);
      }
    }
  }

  /** A pending record with a completed twin, in an index that cannot go on. */
  ghost predicate IsLoose(steps: seq<Step>, p: nat, l: int) {
    && p < End(steps, 0) && steps[p].status.Pending? && IsTwin(steps, p, l) && steps[l].status.Completed?
  }

  lemma LooseFacts(steps: seq<Step>, p: nat, l: int, x: nat)
    requires !CanGoOn(steps) && IsLoose(steps, p, l)
    ensures IsFirst(steps, p) && End(steps, 0) <= l
    ensures x < |steps| && IsFirst(steps, x) && steps[x].num != steps[p].num ==>
      !steps[x].status.Completed? && (x < End(steps, 0) ==> x < p && !steps[x].status.Pending?)
  {
    var b := End(steps, 0);
    forall f | 0 <= f < p ensures steps[f].num != steps[p].num {
      NoPairIsAlone(steps, b, p, f);
    }
    if l < b {
      NoPairIsAlone(steps, b, p, l);
    }
    if x < |steps| && IsFirst(steps, x) && steps[x].num != steps[p].num {
      assert !IsEscape(steps, p, l, x);
    }
  }

  /** In an index that cannot go on, a loose record is the only pending one in front of the end. */
  lemma LooseIsAlone(steps: seq<Step>, p: nat, l: int, x: nat)
    requires !CanGoOn(steps) && IsLoose(steps, p, l) && x < End(steps, 0) && x != p
    ensures !steps[x].status.Pending?
  {
    var b := End(steps, 0);
    if steps[x].status.Pending? {
      forall f | 0 <= f < x ensures steps[f].num != steps[x].num {
        NoPairIsAlone(steps, b, x, f);
      }
      NoPairIsAlone(steps, b, p, x);
      LooseFacts(steps, p, l, x);
    }
  }

  /** The record at the end stays doomed when a loose record is renumbered. */
  lemma RenumberedKeepsEnd(steps: seq<Step>, after: seq<Step>, p: nat, l: int)
    requires !CanGoOn(steps) && IsLoose(steps, p, l) && IsRenumbering(steps, after, p, steps[p].num)
    ensures End(steps, 0) < |steps| && Doomed(after, End(steps, 0))
  {
    var b := End(steps, 0);
    LooseFacts(steps, p, l, p);
    var f: nat :| f < b && IsFirst(steps, f) && steps[f].num == steps[b].num && IsFailed(steps[f].status);
    assert f != p && steps[f].num != steps[p].num;
    LooseFacts(steps, p, l, f);
    assert f < p && IsFirst(after, f);
  }

  /** After the renumbering the index is tame, up to the same end or to the renumbered record. */
  lemma RenumberedIsTame(steps: seq<Step>, after: seq<Step>, p: nat, l: int) returns (b: nat)
    requires !CanGoOn(steps) && IsLoose(steps, p, l) && IsRenumbering(steps, after, p, steps[p].num)
    requires forall i :: 0 <= i < p ==> !steps[i].status.Pending?
    ensures IsTame(after, b)
  {
    b := End(steps, 0);
    RenumberedKeepsEnd(steps, after, p, l);
    forall i: nat | i < b && i != p ensures !after[i].status.Pending? {
      LooseIsAlone(steps, p, l, i);
    }
    if after[p].status.Pending? {
      var m := FirstMatch(after, after[p].num).value;
      if m < p {
        LooseFacts(steps, p, l, m);
        assert IsFirst(steps, m) && IsFirst(after, m) && IsFailed(after[m].status);
        b := p;
        assert Doomed(after, p);
      } else {
        RenumberedIsAlone(steps, after, p, l);
      }
    }
  }

  lemma RenumberedIsAlone(steps: seq<Step>, after: seq<Step>, p: nat, l: int)
    requires !CanGoOn(steps) && IsLoose(steps, p, l) && IsRenumbering(steps, after, p, steps[p].num)
    requires IsFirst(after, p)
    ensures IsAlone(after, p, End(steps, 0))
  {
    var b, k := End(steps, 0), after[p].num;
    LooseFacts(steps, p, l, p);
    forall j | p < j && IsTwin(after, p, j) ensures j >= b && !after[j].status.Completed? {
      assert IsFirst(steps, j);
      LooseFacts(steps, p, l, j);
    }
    forall j | 0 <= j < b && j != p ensures after[j].num != k {
      if j > p && after[j].num == k {
        var t := NextTwin(after, p, j);
        assert false;
      }
    }
  }

  lemma {:induction false} NextTwin(steps: seq<Step>, p: nat, j: nat) returns (t: nat)
    requires p < j < |steps| && steps[j].num == steps[p].num
    ensures t <= j && IsTwin(steps, p, t)
    decreases j
  {
    t := j;
    if k: nat :| p < k < j && steps[k].num == steps[p].num {
      t := NextTwin(steps, p, k);
    }
  }

  /** An index that cannot go on stops, whatever the agent does. */
  lemma CannotGoOnStops(d: Disk, dir: string, agent: Agent)
    requires !CanGoOn(d.steps)
    ensures Stops(d, dir, agent)
  {
    var b := End(d.steps, 0);
    if p: nat, l :| IsLoose(d.steps, p, l) {
      LooseStops(d, dir, agent, p, l);
    } else {
      forall i | 0 <= i < b && d.steps[i].status.Pending? ensures IsAlone(d.steps, i, b) {
        forall j | 0 <= j < b && j != i ensures d.steps[j].num != d.steps[i].num {
          NoPairIsAlone(d.steps, b, i, j);
        }
        forall l | IsTwin(d.steps, i, l) ensures !d.steps[l].status.Completed? {
          assert !IsLoose(d.steps, i, l);
        }
      }
      var n := TameStops(d, dir, agent, b);
    }
  }

  lemma LooseStops(d: Disk, dir: string, agent: Agent, p: nat, l: int)
    requires !CanGoOn(d.steps) && IsLoose(d.steps, p, l)
    ensures Stops(d, dir, agent)
  {
    var b := End(d.steps, 0);
    forall i: nat | i < b && i != p ensures !d.steps[i].status.Pending? {
      LooseIsAlone(d.steps, p, l, i);
    }
    LooseFacts(d.steps, p, l, p);
    assert FirstPending(d.steps) == Some(p);
    AloneRound(d, dir, agent, p);
    var r := OneRound(d, dir, agent);
    if r.Next? {
      if IsRenumbering(d.steps, r.disk.steps, p, d.steps[p].num) {
        b := RenumberedIsTame(d.steps, r.disk.steps, p, l);
      } else {
        CompletedLooseIsTame(d.steps, r.disk.steps, p, l);
      }
      ThenTameStops(d, dir, agent, r.disk, b);
    } else {
      OneRoundStops(d, dir, agent);
    }
  }

  lemma ThenTameStops(d: Disk, dir: string, agent: Agent, next: Disk, b: nat)
    requires OneRound(d, dir, agent) == Next(next) && IsTame(next.steps, b)
    ensures Stops(d, dir, agent)
  {
    var n := TameStops(next, dir, agent, b);
    RoundsNext(d, dir, agent, n + 1);
  }

  lemma OneRoundStops(d: Disk, dir: string, agent: Agent)
    requires !OneRound(d, dir, agent).Next?
    ensures !Rounds(d, dir, agent, 1).Next?
  {
  }

  lemma CompletedLooseIsTame(steps: seq<Step>, after: seq<Step>, p: nat, l: int)
    requires !CanGoOn(steps) && IsLoose(steps, p, l) && IsCompletion(steps, after, p, steps[p].num)
    requires forall i :: 0 <= i < End(steps, 0) && i != p ==> !steps[i].status.Pending?
    ensures IsTame(after, End(steps, 0))
  {
    var b := End(steps, 0);
    LooseFacts(steps, p, l, p);
    forall i | 0 <= i < b && i != p ensures after[i] == steps[i] {
      NoPairIsAlone(steps, b, p, i);
    }
    var f: nat :| f < b && IsFirst(steps, f) && steps[f].num == steps[b].num && IsFailed(steps[f].status);
    assert f != p && after[f] == steps[f] && IsFirst(after, f) && after[b].num == steps[b].num;
  }

  // ----- the loop goes on -----

  /** The loop never leaves while each turn keeps a condition under which it goes on. */
  lemma {:induction false} InvariantNeverStops(turn: Disk -> Round, d: Disk, n: nat, inv: Disk -> bool)
    requires inv(d)
    requires forall x: Disk {:trigger turn(x)} :: inv(x) ==> turn(x).Next? && inv(turn(x).disk)
    ensures Iterate(turn, d, n).Next?
    decreases n
  {
    if n > 0 {
      InvariantNeverStops(turn, turn(d).disk, n - 1, inv);
    }
  }

  lemma NeverStops(steps: seq<Step>, agent: Agent, inv: seq<Step> -> bool)
    requires inv(steps)
    requires forall d: Disk :: inv(d.steps) ==> OneRound(d, "", agent).Next? && inv(OneRound(d, "", agent).disk.steps)
    ensures !StopsForEveryAgent(steps)
  {
    var d := Disk(steps, None, []);
    forall n: nat ensures Rounds(d, "", agent, n).Next? {
      InvariantNeverStops(Turn("", agent), d, n, (x: Disk) => inv(x.steps));
    }
    assert !Stops(d, "", agent);
  }

  /** One call that leaves "completed" under the number of the step finishes the turn. */
  lemma FinishesAtOnce(d: Disk, dir: string, agent: Agent, p: nat, record: Step)
    requires FirstPending(d.steps) == Some(p) && agent(|d.invoked|, d.steps) == Wrote(record)
    requires StatusOf(d.steps[p := record], d.steps[p].num).Completed?
    ensures var r := OneRound(d, dir, agent); r.Next? && r.disk.steps == d.steps[p := record]
  {
    AfterAttempt(d, dir, d.steps[p].num, p, 1, None, agent);
  }

  predicate IsMatchedEarlier(steps: seq<Step>, p: nat)
    requires p < |steps|
  {
    exists f :: 0 <= f < p && steps[f].num == steps[p].num
  }

  /** An earlier completed record with its number: whatever the agent writes, the turn is finished. */
  lemma LeavesAnything(d: Disk, dir: string, agent: Agent, p: nat, record: Step)
    requires FirstPending(d.steps) == Some(p) && IsMatchedEarlier(d.steps, p) && !Doomed(d.steps, p)
    requires agent(|d.invoked|, d.steps) == Wrote(record)
    ensures var r := OneRound(d, dir, agent); r.Next? && r.disk.steps == d.steps[p := record]
  {
    var m := FirstMatch(d.steps, d.steps[p].num).value;
    assert m < p && IsFirst(d.steps, m) && d.steps[m].status.Completed?;
    MatchIs(d.steps[p := record], d.steps[p].num, m);
    FinishesAtOnce(d, dir, agent, p, record);
  }

  lemma CompletesIt(d: Disk, dir: string, agent: Agent, p: nat, record: Step)
    requires FirstPending(d.steps) == Some(p) && !Doomed(d.steps, p)
    requires record == d.steps[p].(status := Completed) && agent(|d.invoked|, d.steps) == Wrote(record)
    ensures var r := OneRound(d, dir, agent); r.Next? && r.disk.steps == d.steps[p := record]
  {
    if IsMatchedEarlier(d.steps, p) {
      LeavesAnything(d, dir, agent, p, record);
    } else {
      MatchIs(d.steps[p := record], record.num, p);
      FinishesAtOnce(d, dir, agent, p, record);
    }
  }

  lemma Renumbers(d: Disk, dir: string, agent: Agent, p: nat, l: nat, record: Step)
    requires FirstPending(d.steps) == Some(p) && IsFirst(d.steps, p) && IsTwin(d.steps, p, l)
        && d.steps[l].status.Completed?
    requires record.num != d.steps[p].num && agent(|d.invoked|, d.steps) == Wrote(record)
    ensures var r := OneRound(d, dir, agent); r.Next? && r.disk.steps == d.steps[p := record]
  {
    MatchIs(d.steps[p := record], d.steps[p].num, l);
    FinishesAtOnce(d, dir, agent, p, record);
  }

  // ----- with a pair -----

  /** Completes a step, but first lets the retry reset the others with its number. */
  function StubbornReply(steps: seq<Step>): Reply {
    match FirstPending(steps)
    case None => StepFileMissing
    case Some(p) =>
      var s := steps[p];
      if IsMatchedEarlier(steps, p) || exists j :: p < j < |steps| && steps[j].num == s.num && !steps[j].status.Pending?
      then Wrote(s)
      else Wrote(s.(status := Completed))
  }

  /** The agent is stubborn on this index, and on what a retry makes of it. */
  ghost predicate IsStubborn(agent: Agent, steps: seq<Step>, p: nat) {
    && p < |steps|
    && (forall n: nat :: agent(n, steps) == StubbornReply(steps))
    && (IsFirst(steps, p) ==>
          forall n: nat :: agent(n, ResetAll(steps, steps[p].num)) == StubbornReply(ResetAll(steps, steps[p].num)))
  }

  /** The step is completed, and the others with its number are pending now. */
  ghost predicate IsRevival(before: seq<Step>, after: seq<Step>, p: nat, num: int) {
    IsCompletion(before, after, p, num) && TwinsPending(after, p, num)
  }

  lemma RevivedReply(steps: seq<Step>, p: nat)
    requires FirstPending(steps) == Some(p) && IsFirst(steps, p)
    ensures var reset := ResetAll(steps, steps[p].num);
      && StubbornReply(reset) == Wrote(reset[p].(status := Completed))
      && IsRevival(steps, reset[p := reset[p].(status := Completed)], p, steps[p].num)
  {
    var reset := ResetAll(steps, steps[p].num);
    assert forall f :: 0 <= f < p ==> reset[f] == steps[f];
    assert reset[p].status.Pending? && FirstPending(reset) == Some(p);
  }

  lemma SecondTry(d: Disk, dir: string, num: int, p: nat, prev: Option<string>, agent: Agent, record: Step)
    requires NoneBefore(d.steps, p, num) && record.num == num && record.status.Completed?
    requires agent(|d.invoked|, d.steps) == Wrote(record)
    ensures var r := RunStep(d, dir, num, p, 2, prev, agent); r.Finished? && r.disk.steps == d.steps[p := record]
  {
    AfterAttempt(d, dir, num, p, 2, prev, agent);
    MatchIs(d.steps[p := record], num, p);
  }

  lemma StubbornCompletes(d: Disk, dir: string, agent: Agent, p: nat)
    requires FirstPending(d.steps) == Some(p) && IsFirst(d.steps, p) && IsStubborn(agent, d.steps, p)
    ensures var r := OneRound(d, dir, agent); r.Next? && IsRevival(d.steps, r.disk.steps, p, d.steps[p].num)
  {
    var num := d.steps[p].num;
    if exists j :: p < j < |d.steps| && d.steps[j].num == num && !d.steps[j].status.Pending? {
      var r := Attempt(d, dir, num, p, 1, None, agent);
      FirstTryResets(d, dir, agent, p);
      AfterAttempt(d, dir, num, p, 1, None, agent);
      RevivedReply(d.steps, p);
      SecondTry(r.disk, dir, num, p, Some(r.error), agent, r.disk.steps[p].(status := Completed));
    } else {
      var record := d.steps[p].(status := Completed);
      CompletesIt(d, dir, agent, p, record);
    }
  }

  lemma FirstTryResets(d: Disk, dir: string, agent: Agent, p: nat)
    requires FirstPending(d.steps) == Some(p) && IsFirst(d.steps, p)
    requires agent(|d.invoked|, d.steps) == Wrote(d.steps[p])
    ensures var r := Attempt(d, dir, d.steps[p].num, p, 1, None, agent);
      r.Again? && r.disk.steps == ResetAll(d.steps, d.steps[p].num)
  {
    assert d.steps[p := d.steps[p]] == d.steps;
    MatchIs(d.steps, d.steps[p].num, p);
  }

  lemma RevivalKeepsPair(before: seq<Step>, after: seq<Step>, p: nat, i: int, j: int)
    requires IsPair(before, i, j) && FirstPending(before) == Some(p) && IsFirst(before, p)
    requires IsRevival(before, after, p, before[p].num)
    ensures IsPair(after, i, j)
  {
    var num := before[p].num;
    assert forall k :: 0 <= k < |before| ==> after[k].num == before[k].num;
    assert forall k :: 0 <= k < |before| && k != p && before[k].num != num ==> after[k] == before[k];
    assert before[i].num == num ==> i == p;
    forall b | 0 <= b < j ensures !Doomed(after, b) {
      assert !Doomed(before, b);
    }
  }

  /** With a pair, a turn of a stubborn agent goes on and leaves a pair; numbers and what is in front of the
      step stay as they are. */
  lemma StubbornRound(d: Disk, dir: string, agent: Agent, p: nat, i: int, j: int)
    requires IsPair(d.steps, i, j) && FirstPending(d.steps) == Some(p) && IsStubborn(agent, d.steps, p)
    ensures var r := OneRound(d, dir, agent);
      && r.Next? && IsPair(r.disk.steps, i, j) && |r.disk.steps| == |d.steps|
      && (forall k :: 0 <= k < |d.steps| ==> r.disk.steps[k].num == d.steps[k].num)
      && (forall k :: 0 <= k < p ==> r.disk.steps[k] == d.steps[k])
  {
    assert p <= j;
    if IsMatchedEarlier(d.steps, p) {
      assert p == j ==> !Doomed(d.steps, p);
      LeavesAnything(d, dir, agent, p, d.steps[p]);
      assert d.steps[p := d.steps[p]] == d.steps;
    } else {
      StubbornCompletes(d, dir, agent, p);
      RevivalKeepsPair(d.steps, OneRound(d, dir, agent).disk.steps, p, i, j);
    }
  }

  function Stubborn(): Agent {
    (n, steps) => StubbornReply(steps)
  }

  lemma PairGoesOn(steps: seq<Step>, i: int, j: int)
    requires IsPair(steps, i, j)
    ensures !StopsForEveryAgent(steps)
  {
    var inv: seq<Step> -> bool := (s: seq<Step>) => IsPair(s, i, j);
    forall d: Disk | inv(d.steps) ensures OneRound(d, "", Stubborn()).Next?
        && inv(OneRound(d, "", Stubborn()).disk.steps) {
      var p := FirstPending(d.steps).value;
      StubbornRound(d, "", Stubborn(), p, i, j);
    }
    NeverStops(steps, Stubborn(), inv);
  }

  // ----- with an escape -----

  /** Completes what is in front of `i`; renumbers `i` from `n` to `k`; is stubborn otherwise. */
  function SwappingReply(steps: seq<Step>, i: nat, n: int, k: int): Reply {
    match FirstPending(steps)
    case None => StepFileMissing
    case Some(p) =>
      if p < i then Wrote(steps[p].(status := Completed))
      else if p == i && steps[i].num == n then Wrote(steps[i].(num := k))
      else StubbornReply(steps)
  }

  /** On the way to an escape that makes a pair. */
  ghost predicate IsApproach(steps: seq<Step>, i: int, l: int, x: int, n: int, k: int) {
    && IsFirst(steps, i) && steps[i].status.Pending? && steps[i].num == n && Reachable(steps, i)
    && IsTwin(steps, i, l) && steps[l].status.Completed?
    && IsFirst(steps, x) && steps[x].num == k != n
    && (if x < i then !IsFailed(steps[x].status) else Reachable(steps, x))
  }

  /** Behind the escape: nothing in front of `i` is pending, and there is a pair. */
  ghost predicate IsBehind(steps: seq<Step>, i: int, n: int, a: int, b: int) {
    && 0 <= i < |steps| && steps[i].num != n && (forall f :: 0 <= f < i ==> !steps[f].status.Pending?)
        && IsPair(steps, a, b)
  }

  lemma CompletionKeepsDoom(before: seq<Step>, p: nat, b: int)
    requires p < |before| && before[p].status.Pending?
    ensures Doomed(before[p := before[p].(status := Completed)], b) ==> Doomed(before, b)
  {
    var after := before[p := before[p].(status := Completed)];
    if Doomed(after, b) {
      var f :| 0 <= f < b && IsFirst(after, f) && after[f].num == after[b].num && IsFailed(after[f].status);
      assert f != p && before[f] == after[f];
      assert forall g :: 0 <= g < |before| ==> after[g].num == before[g].num;
      assert IsFirst(before, f);
    }
  }

  lemma ApproachRound(d: Disk, agent: Agent, i: nat, l: int, x: int, n: int, k: int, p: nat)
    requires IsApproach(d.steps, i, l, x, n, k) && FirstPending(d.steps) == Some(p) && p < i
    requires agent(|d.invoked|, d.steps) == SwappingReply(d.steps, i, n, k)
    ensures var r := OneRound(d, "", agent); r.Next? && IsApproach(r.disk.steps, i, l, x, n, k)
  {
    var record := d.steps[p].(status := Completed);
    CompletesIt(d, "", agent, p, record);
    var after := d.steps[p := record];
    forall b | 0 <= b < |after| ensures Doomed(after, b) ==> Doomed(d.steps, b) {
      CompletionKeepsDoom(d.steps, p, b);
    }
    assert forall j :: 0 <= j < |after| ==> after[j].num == d.steps[j].num;
  }

  /** The pair that the renumbering makes. */
  lemma SwapMakesPair(before: seq<Step>, i: nat, l: int, x: int, n: int, k: int)
    requires IsApproach(before, i, l, x, n, k) && FirstPending(before) == Some(i)
    ensures IsBehind(before[i := before[i].(num := k)], i, n, if x < i then x else i, if x < i then i else x)
  {
    var after := before[i := before[i].(num := k)];
    forall b | 0 <= b < x && i < x ensures !Doomed(after, b) {
      assert !Doomed(before, b);
      forall f | 0 <= f < b && IsFirst(after, f) && after[f].num == after[b].num && after[b].status.Pending?
        ensures !IsFailed(after[f].status)
      {
        assert f > l ==> after[l].num == n;
        assert f > i ==> after[i].num == k;
        assert forall g :: 0 <= g < |after| && g != i ==> after[g] == before[g];
        if f != l && f != i {
          assert IsFirst(before, f);
        }
      }
    }
  }

  lemma SwapRound(d: Disk, agent: Agent, i: nat, l: int, x: int, n: int, k: int)
    requires IsApproach(d.steps, i, l, x, n, k) && FirstPending(d.steps) == Some(i)
    requires agent(|d.invoked|, d.steps) == SwappingReply(d.steps, i, n, k)
    ensures var r := OneRound(d, "", agent);
      r.Next? && IsBehind(r.disk.steps, i, n, if x < i then x else i, if x < i then i else x)
  {
    Renumbers(d, "", agent, i, l, d.steps[i].(num := k));
    SwapMakesPair(d.steps, i, l, x, n, k);
  }

  lemma BehindRound(d: Disk, agent: Agent, i: nat, n: int, k: int, a: int, b: int)
    requires IsBehind(d.steps, i, n, a, b)
    requires forall m: nat, s :: agent(m, s) == SwappingReply(s, i, n, k)
    ensures var r := OneRound(d, "", agent); r.Next? && IsBehind(r.disk.steps, i, n, a, b)
  {
    var p := FirstPending(d.steps).value;
    var reset := ResetAll(d.steps, d.steps[p].num);
    assert p >= i;
    if IsFirst(d.steps, p) {
      assert forall f :: 0 <= f < p ==> reset[f] == d.steps[f];
      assert reset[p].status.Pending? && FirstPending(reset) == Some(p);
    }
    StubbornRound(d, "", agent, p, a, b);
  }

  lemma SwappingGoesOn(steps: seq<Step>, i: nat, l: int, x: int, n: int, k: int)
    requires IsApproach(steps, i, l, x, n, k)
    ensures !StopsForEveryAgent(steps)
  {
    var agent: Agent := (m, s) => SwappingReply(s, i, n, k);
    var a, b := if x < i then x else i, if x < i then i else x;
    var inv: seq<Step> -> bool := (s: seq<Step>) => IsApproach(s, i, l, x, n, k) || IsBehind(s, i, n, a, b);
    forall d: Disk | inv(d.steps) ensures OneRound(d, "", agent).Next? && inv(OneRound(d, "", agent).disk.steps) {
      if IsApproach(d.steps, i, l, x, n, k) {
        var p := FirstPending(d.steps).value;
        if p < i {
          ApproachRound(d, agent, i, l, x, n, k, p);
        } else {
          SwapRound(d, agent, i, l, x, n, k);
        }
      } else {
        BehindRound(d, agent, i, n, k, a, b);
      }
    }
    NeverStops(steps, agent, inv);
  }

  /** Completes what is in front of `i`, and renumbers `i` to and fro. */
  function AlternatingReply(steps: seq<Step>, i: nat, n: int, k: int): Reply {
    match FirstPending(steps)
    case None => StepFileMissing
    case Some(p) =>
      var s := steps[p];
      if p == i then Wrote(s.(num := if s.num == n then k else n)) else Wrote(s.(status := Completed))
  }

  /** `i` has one of two numbers, and each of them has a completed record behind as its next. */
  ghost predicate IsTurning(steps: seq<Step>, i: nat, l: nat, x: nat, n: int, k: int) {
    && i < |steps| && steps[i].status.Pending? && Reachable(steps, i) && n != k
        && (steps[i].num == n || steps[i].num == k)
    && IsNextCompleted(steps, i, l, n) && IsNextCompleted(steps, i, x, k)
  }

  ghost predicate IsNextCompleted(steps: seq<Step>, i: nat, l: nat, n: int) {
    && i < l < |steps| && steps[l].num == n && steps[l].status.Completed?
    && forall f :: 0 <= f < l && f != i ==> steps[f].num != n
  }

  lemma TurningRound(d: Disk, agent: Agent, i: nat, l: nat, x: nat, n: int, k: int)
    requires IsTurning(d.steps, i, l, x, n, k) && agent(|d.invoked|, d.steps) == AlternatingReply(d.steps, i, n, k)
    ensures var r := OneRound(d, "", agent); r.Next? && IsTurning(r.disk.steps, i, l, x, n, k)
  {
    var p := FirstPending(d.steps).value;
    if p == i {
      var record := d.steps[i].(num := if d.steps[i].num == n then k else n);
      Renumbers(d, "", agent, i, if d.steps[i].num == n then l else x, record);
      TurnedIsReachable(d.steps, i, record);
    } else {
      var record := d.steps[p].(status := Completed);
      CompletesIt(d, "", agent, p, record);
      var after := d.steps[p := record];
      forall b | 0 <= b < i ensures !Doomed(after, b) {
        CompletionKeepsDoom(d.steps, p, b);
      }
    }
  }

  lemma TurnedIsReachable(steps: seq<Step>, i: nat, record: Step)
    requires i < |steps| && Reachable(steps, i) && forall f :: 0 <= f < i ==> !steps[f].status.Pending?
    ensures Reachable(steps[i := record], i)
  {
  }

  lemma AlternatingGoesOn(steps: seq<Step>, i: nat, l: nat, x: nat, n: int, k: int)
    requires IsTurning(steps, i, l, x, n, k)
    ensures !StopsForEveryAgent(steps)
  {
    var agent: Agent := (m, s) => AlternatingReply(s, i, n, k);
    var inv: seq<Step> -> bool := (s: seq<Step>) => IsTurning(s, i, l, x, n, k);
    forall d: Disk | inv(d.steps) ensures OneRound(d, "", agent).Next? && inv(OneRound(d, "", agent).disk.steps) {
      TurningRound(d, agent, i, l, x, n, k);
    }
    NeverStops(steps, agent, inv);
  }

  lemma EscapeGoesOn(steps: seq<Step>, i: int, l: int, x: int)
    requires IsEscape(steps, i, l, x)
    ensures !StopsForEveryAgent(steps)
  {
    var n, k := steps[i].num, steps[x].num;
    if x < i || Reachable(steps, x) {
      SwappingGoesOn(steps, i, l, x, n, k);
    } else {
      AlternatingGoesOn(steps, i, l, x, n, k);
    }
  }

  /** For every index: the loop ends for every agent exactly when there are neither two records with one
      number, the first of them pending or completed and one of the two pending, nor a pending record whose
      completed twin lets the agent give it the number of a third one; each within reach. */
  lemma StopsIff(steps: seq<Step>)
    ensures StopsForEveryAgent(steps) <==> !CanGoOn(steps)
  {
    if CanGoOn(steps) {
      if i, j :| IsPair(steps, i, j) {
        PairGoesOn(steps, i, j);
      } else {
        var i, l, x :| IsEscape(steps, i, l, x);
        EscapeGoesOn(steps, i, l, x);
      }
    } else {
      forall d: Disk, dir: string, agent: Agent | d.steps == steps ensures Stops(d, dir, agent) {
        CannotGoOnStops(d, dir, agent);
      }
    }
  }

  /** The second clause is needed: an index without such a pair on which the loop need not end. */
  lemma EscapeWithoutPair(a: Step, b: Step, c: Step, d: Step, e: Step)
    requires a.num == 7 && a.status.Completed? && b.num == 0 && b.status.Error? && c.num == 1 && c.status.Pending?
    requires d.num == 0 && d.status.Pending? && e.num == 1 && e.status.Completed?
    ensures !StopsForEveryAgent([a, b, c, d, e]) && forall i, j :: !IsPair([a, b, c, d, e], i, j)
  {
    var steps := [a, b, c, d, e];
    assert steps[1] == b && steps[2] == c && steps[3] == d && steps[4] == e;
    assert IsFirst(steps, 1) && Doomed(steps, 3);
    assert IsEscape(steps, 2, 4, 0);
    EscapeGoesOn(steps, 2, 4, 0);
  }

  /** Without failed records that is: no pending record shares its number. */
  lemma StopsIffUnique(steps: seq<Step>)
    requires forall i :: 0 <= i < |steps| ==> !IsFailed(steps[i].status)
    ensures StopsForEveryAgent(steps) <==> PendingNumbersUnique(steps)
  {
    StopsIff(steps);
    if PendingNumbersUnique(steps) {
      forall i, l, x ensures !IsPair(steps, i, l) && !IsEscape(steps, i, l, x) {
      }
    } else {
      var i, j :| 0 <= i < |steps| && 0 <= j < |steps| && i != j && steps[i].status.Pending?
          && steps[i].num == steps[j].num;
      var m := FirstMatch(steps, steps[i].num).value;
      assert IsFirst(steps, m);
      assert IsPair(steps, m, if m == i then j else i);
    }
  }
}
