/**
 Which problems the validator of phase metadata reports (scripts/validate_phases.py): for each kind, exactly when.
 */
module PhaseReports {
  import opened Wrappers
  import opened TextTools
  import opened PhaseValidator

  /** A text with a character other than a space, a tab and the line and page breaks after it in ASCII. */
  predicate HasContent(t: RawText) {
    t.Text? && exists i :: 0 <= i < |t.s| && t.s[i] != ' ' && !(9 <= t.s[i] as int <= 13)
  }

  lemma ContentIff(t: RawText)
    ensures HasContent(t) <==> Filled(t)
  {
    if t.Text? {
      forall i | 0 <= i < |t.s| ensures IsSpace(t.s[i]) <==> t.s[i] == ' ' || 9 <= t.s[i] as int <= 13 {
      }
    }
  }

  predicate IsNumbered(steps: seq<RawStep>, i: int) {
    0 <= i < |steps| && steps[i].Object? && steps[i].step.Int? && steps[i].step.n >= 0
  }

  /** The step has a number and one of the four statuses; only then are its texts and its file looked at. */
  predicate HasStatus(steps: seq<RawStep>, i: int) {
    IsNumbered(steps, i) && steps[i].status in [Text("pending"), Text("completed"), Text("error"), Text("blocked")]
  }

  /** The step has this status but not the text that the field is for. */
  predicate LacksText(step: RawStep, field: string)
    requires step.Object?
  {
    || (field == "summary" && step.status == Text("completed") && !HasContent(step.summary))
    || (field == "error_message" && step.status == Text("error") && !HasContent(step.errorMessage))
    || (field == "blocked_reason" && step.status == Text("blocked") && !HasContent(step.blockedReason))
  }

  /** The problem is one of the step at this place. */
  ghost predicate IsStepProblem(steps: seq<RawStep>, hasFile: int -> bool, i: nat, p: Problem)
    requires i < |steps|
  {
    match p
    case StepNotAnObject(at) => at == i && steps[i].NotObject?
    case BadNumber(at) => at == i && steps[i].Object? && !IsNumbered(steps, i)
    case DuplicateNumber(n) =>
      && IsNumbered(steps, i) && steps[i].step.n == n
      && exists j :: 0 <= j < i && IsNumbered(steps, j) && steps[j].step.n == n
    case BadName(at) => at == i && IsNumbered(steps, i) && !HasContent(steps[i].name)
    case BadStatus(at) => at == i && IsNumbered(steps, i) && !HasStatus(steps, i)
    case TextMissing(at, field) => at == i && HasStatus(steps, i) && LacksText(steps[i], field)
    case FileMissing(n) => HasStatus(steps, i) && steps[i].step.n == n && !hasFile(n)
    case _ => false
  }

  function NumbersOf(steps: seq<RawStep>): set<int> {
    set i | 0 <= i < |steps| && IsNumbered(steps, i) :: steps[i].step.n
  }

  /** In ascending order, once each, the numbers that steps have. */
  ghost predicate AreNumbers(steps: seq<RawStep>, actual: seq<int>) {
    && |actual| == |NumbersOf(steps)| && (forall n :: n in actual <==> n in NumbersOf(steps))
    && (forall a, b :: 0 <= a < b < |actual| ==> actual[a] < actual[b])
  }

  ghost predicate IsProblem(dir: PhaseDir, hasFile: int -> bool, p: Problem) {
    match dir
    case NoDirectory => p == DirectoryMissing
    case NoIndex => p == IndexUnreadable
    case Index(project, phase, steps) =>
      || (p == BadField("project") && !HasContent(project))
      || (p == BadField("phase") && !HasContent(phase))
      || (p == StepsNotAList && steps.None?)
      || (steps.Some? && exists i: nat :: i < |steps.value| && IsStepProblem(steps.value, hasFile, i, p))
      || (steps.Some? && p.NotContiguous? && AreNumbers(steps.value, p.actual)
          && exists k :: 0 <= k < |p.actual| && p.actual[k] != k)
  }

  // ----- the report of one step -----

  lemma SeenBefore(steps: seq<RawStep>, i: nat, n: int)
    requires i <= |steps|
    ensures n in Seen(steps[..i]) <==> exists j :: 0 <= j < i && IsNumbered(steps, j) && steps[j].step.n == n
  {
    SeenIff(steps[..i], n);
    if j :| 0 <= j < i && IsNumbered(steps, j) && steps[j].step.n == n {
      assert steps[..i][j] == steps[j] && ValidNumber(steps[..i][j]);
    }
    if j :| 0 <= j < i && ValidNumber(steps[..i][j]) && steps[..i][j].step.n == n {
      assert IsNumbered(steps, j);
    }
  }

  lemma OneStep(e: seq<Problem>, steps: seq<RawStep>, i: nat, hasFile: int -> bool, p: Problem)
    requires i < |steps|
    ensures p in ReportStep(e, steps[i], i, Seen(steps[..i]), hasFile) <==>
      p in e || IsStepProblem(steps, hasFile, i, p)
  {
    if IsNumbered(steps, i) {
      SeenBefore(steps, i, steps[i].step.n);
      NumberedStep(e, steps, i, hasFile, p);
    }
  }

  lemma LacksIff(step: RawStep, field: string)
    requires step.Object?
    ensures LacksText(step, field) <==>
      || (field == "summary" && !CompletedDocumented(step))
      || (field == "error_message" && !ErrorDocumented(step))
      || (field == "blocked_reason" && !BlockedDocumented(step))
  {
    ContentIff(step.summary);
    ContentIff(step.errorMessage);
    ContentIff(step.blockedReason);
  }

  lemma StepReportIff(e: seq<Problem>, r: RawStep, i: nat, seen: set<int>, hasFile: int -> bool, p: Problem)
    requires ValidNumber(r)
    ensures p in ReportStep(e, r, i, seen, hasFile) <==>
      || p in e || (p == DuplicateNumber(r.step.n) && r.step.n in seen) || (p == BadName(i) && !Filled(r.name))
      || (if !ValidStatus(r.status) then p == BadStatus(i)
          else
            || (p == TextMissing(i, "summary") && !CompletedDocumented(r))
            || (p == TextMissing(i, "error_message") && !ErrorDocumented(r))
            || (p == TextMissing(i, "blocked_reason") && !BlockedDocumented(r))
            || (p == FileMissing(r.step.n) && !hasFile(r.step.n)))
  {
  }

  lemma NumberedStep(e: seq<Problem>, steps: seq<RawStep>, i: nat, hasFile: int -> bool, p: Problem)
    requires i < |steps| && IsNumbered(steps, i)
    requires steps[i].step.n in Seen(steps[..i]) <==>
      exists j :: 0 <= j < i && IsNumbered(steps, j) && steps[j].step.n == steps[i].step.n
    ensures p in ReportStep(e, steps[i], i, Seen(steps[..i]), hasFile) <==>
      p in e || IsStepProblem(steps, hasFile, i, p)
  {
    StepReportIff(e, steps[i], i, Seen(steps[..i]), hasFile, p);
    assert ValidStatus(steps[i].status) <==> HasStatus(steps, i);
    ContentIff(steps[i].name);
    if p.TextMissing? {
      LacksIff(steps[i], p.field);
    }
  }

  lemma SameProblem(steps: seq<RawStep>, more: seq<RawStep>, hasFile: int -> bool, i: nat, p: Problem)
    requires i < |steps| <= |more| && forall j :: 0 <= j < |steps| ==> more[j] == steps[j]
    ensures IsStepProblem(steps, hasFile, i, p) <==> IsStepProblem(more, hasFile, i, p)
  {
    assert forall j :: 0 <= j < |steps| ==> (IsNumbered(steps, j) <==> IsNumbered(more, j));
  }

  lemma {:induction false} AllSteps(e: seq<Problem>, steps: seq<RawStep>, hasFile: int -> bool, p: Problem)
    ensures p in ReportSteps(e, steps, hasFile) <==>
      p in e || exists i: nat :: i < |steps| && IsStepProblem(steps, hasFile, i, p)
  {
    if steps != [] {
      var last := |steps| - 1;
      AllSteps(e, steps[..last], hasFile, p);
      OneStep(ReportSteps(e, steps[..last], hasFile), steps, last, hasFile, p);
      forall i: nat | i < last
        ensures IsStepProblem(steps[..last], hasFile, i, p) <==> IsStepProblem(steps, hasFile, i, p)
      {
        SameProblem(steps[..last], steps, hasFile, i, p);
      }
    }
  }

  // ----- the report of a phase -----

  lemma SortedAre(steps: seq<RawStep>)
    ensures AreNumbers(steps, Sorted(Seen(steps)))
  {
    forall n ensures n in Seen(steps) <==> n in NumbersOf(steps) {
      SeenBefore(steps, |steps|, n);
      assert steps[..|steps|] == steps;
    }
    assert Seen(steps) == NumbersOf(steps);
  }

  lemma {:induction false} SameAscending(a: seq<int>, b: seq<int>)
    requires |a| == |b| && forall n :: n in a <==> n in b
    requires forall i, j :: 0 <= i < j < |a| ==> a[i] < a[j]
    requires forall i, j :: 0 <= i < j < |b| ==> b[i] < b[j]
    ensures a == b
  {
    if a != [] {
      assert a[0] in b && b[0] in a;
      assert a[0] == b[0];
      forall n ensures n in a[1..] <==> n in b[1..] {
        assert n in a <==> n == a[0] || n in a[1..];
        assert n in b <==> n == b[0] || n in b[1..];
      }
      SameAscending(a[1..], b[1..]);
    }
  }

  lemma GapIff(steps: seq<RawStep>)
    ensures var sorted := Sorted(Seen(steps));
      sorted != Range(|Seen(steps)|) <==> exists k :: 0 <= k < |sorted| && sorted[k] != k
  {
    var sorted, range := Sorted(Seen(steps)), Range(|Seen(steps)|);
    assert |sorted| == |range|;
    if sorted != range {
      var k :| 0 <= k < |sorted| && sorted[k] != range[k];
    }
  }

  lemma ListReportedIff(e: seq<Problem>, steps: seq<RawStep>, hasFile: int -> bool, p: Problem)
    ensures var seen := Seen(steps);
      p in Require(ReportSteps(e, steps, hasFile), Sorted(seen) == Range(|seen|), NotContiguous(Sorted(seen))) <==>
        || p in e
        || (exists i: nat :: i < |steps| && IsStepProblem(steps, hasFile, i, p))
        || (p.NotContiguous? && AreNumbers(steps, p.actual) && exists k :: 0 <= k < |p.actual| && p.actual[k] != k)
  {
    AllSteps(e, steps, hasFile, p);
    SortedAre(steps);
    GapIff(steps);
    if p.NotContiguous? && AreNumbers(steps, p.actual) {
      SameAscending(p.actual, Sorted(Seen(steps)));
    }
  }

  function FieldReport(project: RawText, phase: RawText): seq<Problem> {
    Require(Require([], Filled(project), BadField("project")), Filled(phase), BadField("phase"))
  }

  lemma FieldsReportedIff(project: RawText, phase: RawText, p: Problem)
    ensures p in FieldReport(project, phase) <==>
      || (p == BadField("project") && !HasContent(project))
      || (p == BadField("phase") && !HasContent(phase))
  {
    ContentIff(project);
    ContentIff(phase);
  }

  /** For every problem: it is reported exactly when there is it. */
  lemma ReportedIff(dir: PhaseDir, hasFile: int -> bool, p: Problem)
    ensures p in ReportPhase([], dir, hasFile) <==> IsProblem(dir, hasFile, p)
  {
    if dir.Index? {
      var e := FieldReport(dir.project, dir.phase);
      FieldsReportedIff(dir.project, dir.phase, p);
      if dir.steps.Some? {
        ListReportedIff(e, dir.steps.value, hasFile, p);
      }
    }
  }
}
