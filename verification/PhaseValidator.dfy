/**
 The validator of phase metadata (scripts/validate_phases.py), on decoded JSON of any shape.
 */
module PhaseValidator {
  import opened Wrappers
  import opened TextTools

  datatype RawNumber = NotInt | Int(n: int)

  datatype RawText = NotText | Text(s: string)

  datatype RawStep =
    | NotObject
    | Object(step: RawNumber, name: RawText, status: RawText, summary: RawText, errorMessage: RawText,
      blockedReason: RawText)

  /** `steps` is absent when it is not a list. */
  datatype PhaseDir = NoDirectory | NoIndex | Index(project: RawText, phase: RawText, steps: Option<seq<RawStep>>)

  datatype Problem =
    | DirectoryMissing
    | IndexUnreadable
    | BadField(field: string)
    | StepsNotAList
    | StepNotAnObject(i: nat)
    | BadNumber(i: nat)
    | DuplicateNumber(n: int)
    | BadName(i: nat)
    | BadStatus(i: nat)
    | TextMissing(i: nat, field: string)
    | FileMissing(n: int)
    | NotContiguous(actual: seq<int>)

  predicate Filled(t: RawText) {
    t.Text? && HasText(t.s)
  }

  predicate ValidStatus(t: RawText) {
    t == Text("pending") || t == Text("completed") || t == Text("error") || t == Text("blocked")
  }

  /** The text that the status calls for is there. */
  predicate CompletedDocumented(r: RawStep)
    requires r.Object?
  {
    r.status == Text("completed") ==> Filled(r.summary)
  }

  predicate ErrorDocumented(r: RawStep)
    requires r.Object?
  {
    r.status == Text("error") ==> Filled(r.errorMessage)
  }

  predicate BlockedDocumented(r: RawStep)
    requires r.Object?
  {
    r.status == Text("blocked") ==> Filled(r.blockedReason)
  }

  predicate ValidNumber(r: RawStep) {
    r.Object? && r.step.Int? && r.step.n >= 0
  }

  function Require(e: seq<Problem>, ok: bool, p: Problem): seq<Problem> {
    if ok then e else e + [p]
  }

  /** The report after one step, given the numbers seen before it. */
  function ReportStep(e: seq<Problem>, r: RawStep, i: nat, seen: set<int>, hasFile: int -> bool): seq<Problem> {
    if r.NotObject? then e + [StepNotAnObject(i)]
    else if !ValidNumber(r) then e + [BadNumber(i)]
    else
      var e1 := Require(e, r.step.n !in seen, DuplicateNumber(r.step.n));
      var e2 := Require(e1, Filled(r.name), BadName(i));
      if !ValidStatus(r.status) then e2 + [BadStatus(i)]
      else
        var e3 := Require(e2, CompletedDocumented(r), TextMissing(i, "summary"));
        var e4 := Require(e3, ErrorDocumented(r), TextMissing(i, "error_message"));
        var e5 := Require(e4, BlockedDocumented(r), TextMissing(i, "blocked_reason"));
        Require(e5, hasFile(r.step.n), FileMissing(r.step.n))
  }

  function SeenAfter(r: RawStep, seen: set<int>): set<int> {
    if ValidNumber(r) then seen + {r.step.n} else seen
  }

  function Seen(steps: seq<RawStep>): set<int> {
    if steps == [] then {} else SeenAfter(steps[|steps| - 1], Seen(steps[..|steps| - 1]))
  }

  function ReportSteps(e: seq<Problem>, steps: seq<RawStep>, hasFile: int -> bool): seq<Problem> {
    if steps == [] then e
    else
      var init := steps[..|steps| - 1];
      ReportStep(ReportSteps(e, init, hasFile), steps[|steps| - 1], |steps| - 1, Seen(init), hasFile)
  }

  /** `list(range(n))`. */
  function Range(n: nat): seq<int> {
    seq(n, i => i)
  }

  predicate IsMinimum(m: int, s: set<int>) {
    m in s && forall x :: x in s ==> m <= x
  }

  lemma HasMember(s: set<int>)
    ensures s == {} || exists x: int :: x in s
  {
    if forall x: int :: x !in s {
      assert s == {};
    }
  }

  lemma MinimumWith(rest: set<int>, x: int)
    requires rest == {} || exists m :: IsMinimum(m, rest)
    ensures exists m :: IsMinimum(m, rest + {x})
  {
    if m :| IsMinimum(m, rest) {
      assert IsMinimum(if m <= x then m else x, rest + {x});
    } else {
      assert IsMinimum(x, rest + {x});
    }
  }

  lemma {:induction false} MinimumExists(s: set<int>)
    requires s != {}
    ensures exists m :: IsMinimum(m, s)
    decreases |s|
  {
    HasMember(s);
    var x :| x in s;
    if s - {x} != {} {
      MinimumExists(s - {x});
    }
    MinimumWith(s - {x}, x);
    assert s - {x} + {x} == s;
  }

  lemma MinimumIsUnique(s: set<int>)
    ensures forall m, n :: IsMinimum(m, s) && IsMinimum(n, s) ==> m == n
  {
  }

  /** The sequence lists the numbers of the set in increasing order. */
  ghost predicate IsSorted(r: seq<int>, s: set<int>) {
    |r| == |s| && (forall x :: x in r <==> x in s) && (forall i, j :: 0 <= i < j < |r| ==> r[i] < r[j])
  }

  lemma MinimumFirst(m: int, s: set<int>, rest: seq<int>)
    requires IsMinimum(m, s) && IsSorted(rest, s - {m})
    ensures IsSorted([m] + rest, s)
  {
    var r := [m] + rest;
    assert s == s - {m} + {m};
    forall j | 0 < j < |r| ensures m < r[j] {
      assert r[j] in rest;
    }
  }

  /** `sorted` of a set of numbers. */
  function Sorted(s: set<int>): (r: seq<int>)
    ensures IsSorted(r, s)
    decreases |s|
  {
    if s == {} then []
    else
      (MinimumExists(s);
       MinimumIsUnique(s);
       var m :| m in s && IsMinimum(m, s);
       MinimumFirst(m, s, Sorted(s - {m}));
       [m] + Sorted(s - {m}))
  }

  function ReportPhase(e: seq<Problem>, dir: PhaseDir, hasFile: int -> bool): seq<Problem> {
    match dir
    case NoDirectory => e + [DirectoryMissing]
    case NoIndex => e + [IndexUnreadable]
    case Index(project, phase, steps) =>
      var e1 := Require(Require(e, Filled(project), BadField("project")), Filled(phase), BadField("phase"));
      if steps.None? then e1 + [StepsNotAList]
      else
        var e2 := ReportSteps(e1, steps.value, hasFile);
        var seen := Seen(steps.value);
        Require(e2, Sorted(seen) == Range(|seen|), NotContiguous(Sorted(seen)))
  }

  /** The shared list of errors that the loops append to. */
  class Report {
    var errors: seq<Problem>

    constructor ()
      ensures errors == []
    {
      errors := [];
    }

    method Add(p: Problem)
      modifies this
      ensures errors == old(errors) + [p]
    {
      errors := errors + [p];
    }

    method ValidateStep(r: RawStep, i: nat, seen: set<int>, hasFile: int -> bool)
      modifies this
      ensures errors == ReportStep(old(errors), r, i, seen, hasFile)
    {
      if r.NotObject? {
        Add(StepNotAnObject(i));
        return;
      }
      if !ValidNumber(r) {
        Add(BadNumber(i));
        return;
      }
      var n := r.step.n;
      if n in seen {
        Add(DuplicateNumber(n));
      }
      if !Filled(r.name) {
        Add(BadName(i));
      }
      if !ValidStatus(r.status) {
        Add(BadStatus(i));
        return;
      }
      if !CompletedDocumented(r) {
        Add(TextMissing(i, "summary"));
      }
      if !ErrorDocumented(r) {
        Add(TextMissing(i, "error_message"));
      }
      if !BlockedDocumented(r) {
        Add(TextMissing(i, "blocked_reason"));
      }
      if !hasFile(n) {
        Add(FileMissing(n));
      }
    }

    method ValidatePhaseDir(dir: PhaseDir, hasFile: int -> bool)
      modifies this
      ensures errors == ReportPhase(old(errors), dir, hasFile)
    {
      if dir.NoDirectory? {
        Add(DirectoryMissing);
        return;
      }
      if dir.NoIndex? {
        Add(IndexUnreadable);
        return;
      }
      if !Filled(dir.project) {
        Add(BadField("project"));
      }
      if !Filled(dir.phase) {
        Add(BadField("phase"));
      }
      if dir.steps.None? {
        Add(StepsNotAList);
        return;
      }
      var steps := dir.steps.value;
      ghost var before := errors;
      var seen: set<int> := {};
      var i := 0;
      while i < |steps|
        invariant 0 <= i <= |steps| && seen == Seen(steps[..i])
        invariant errors == ReportSteps(before, steps[..i], hasFile)
      {
        assert steps[..i + 1][..i] == steps[..i];
        ValidateStep(steps[i], i, seen, hasFile);
        if ValidNumber(steps[i]) {
          seen := seen + {steps[i].step.n};
        }
        i := i + 1;
      }
      assert steps[..i] == steps;
      if Sorted(seen) != Range(|seen|) {
        Add(NotContiguous(Sorted(seen)));
      }
    }
  }

  // ----- what an empty report means -----

  /** Every number below the length occurs at exactly one position. */
  ghost predicate NumbersAreAPermutation(steps: seq<RawStep>) {
    && (forall i :: 0 <= i < |steps| ==> ValidNumber(steps[i]) && steps[i].step.n < |steps|)
    && NoDuplicates(steps)
    && (forall n :: 0 <= n < |steps| ==> HasNumber(steps, n))
  }

  predicate HasNumber(steps: seq<RawStep>, n: int) {
    exists i :: 0 <= i < |steps| && ValidNumber(steps[i]) && steps[i].step.n == n
  }

  /** What the documentation asks of one step: name, status, the text its status needs, its file. */
  predicate Documented(r: RawStep, hasFile: int -> bool) {
    && ValidNumber(r) && Filled(r.name) && ValidStatus(r.status) && hasFile(r.step.n)
    && CompletedDocumented(r) && ErrorDocumented(r) && BlockedDocumented(r)
  }

  ghost predicate WellFormed(dir: PhaseDir, hasFile: int -> bool) {
    && dir.Index? && Filled(dir.project) && Filled(dir.phase) && dir.steps.Some?
    && (forall i :: 0 <= i < |dir.steps.value| ==> Documented(dir.steps.value[i], hasFile))
    && NumbersAreAPermutation(dir.steps.value)
  }

  lemma {:induction false} SeenIff(steps: seq<RawStep>, n: int)
    ensures n in Seen(steps) <==> HasNumber(steps, n)
  {
    if steps != [] {
      var init := steps[..|steps| - 1];
      SeenIff(init, n);
      assert HasNumber(steps, n) <==>
          HasNumber(init, n) || (ValidNumber(steps[|init|]) && steps[|init|].step.n == n) by {
        if i :| 0 <= i < |steps| && ValidNumber(steps[i]) && steps[i].step.n == n {
          assert i < |init| ==> init[i] == steps[i];
        }
        if i :| 0 <= i < |init| && ValidNumber(init[i]) && init[i].step.n == n {
          assert init[i] == steps[i];
        }
      }
    }
  }

  /** Errors are only ever appended. */
  ghost predicate Grew(e: seq<Problem>, r: seq<Problem>) {
    |e| <= |r| && r[..|e|] == e
  }

  lemma OneStepIff(e: seq<Problem>, r: RawStep, i: nat, seen: set<int>, hasFile: int -> bool)
    ensures Grew(e, ReportStep(e, r, i, seen, hasFile))
    ensures |ReportStep(e, r, i, seen, hasFile)| == |e| <==> Documented(r, hasFile) && r.step.n !in seen
  {
  }

  /** The loop adds no error exactly when every step is documented and no number repeats. */
  ghost predicate AllDocumented(steps: seq<RawStep>, hasFile: int -> bool) {
    forall i :: 0 <= i < |steps| ==> Documented(steps[i], hasFile)
  }

  lemma AllDocumentedSnoc(init: seq<RawStep>, last: RawStep, hasFile: int -> bool)
    ensures AllDocumented(init + [last], hasFile) <==> AllDocumented(init, hasFile) && Documented(last, hasFile)
  {
    var steps := init + [last];
    assert steps[|init|] == last && forall i :: 0 <= i < |init| ==> steps[i] == init[i];
  }

  lemma GrewTwice(e: seq<Problem>, before: seq<Problem>, after: seq<Problem>)
    requires Grew(e, before) && Grew(before, after)
    ensures Grew(e, after) && (|after| == |e| <==> |before| == |e| && |after| == |before|)
  {
    assert after[..|e|] == before[..|e|];
  }

  lemma SeenSnoc(init: seq<RawStep>, last: RawStep)
    requires |Seen(init)| <= |init|
    ensures |Seen(init + [last])| <= |init| + 1
    ensures ValidNumber(last) ==> (|Seen(init + [last])| == |init| + 1 <==>
        |Seen(init)| == |init| && last.step.n !in Seen(init))
  {
    assert (init + [last])[..|init|] == init;
  }

  lemma ReportSnoc(e: seq<Problem>, init: seq<RawStep>, last: RawStep, hasFile: int -> bool)
    ensures ReportSteps(e, init + [last], hasFile) ==
        ReportStep(ReportSteps(e, init, hasFile), last, |init|, Seen(init), hasFile)
  {
    assert (init + [last])[..|init|] == init;
  }

  /** Nothing was added for these steps exactly if they are documented and their numbers differ. */
  ghost predicate StepsReported(e: seq<Problem>, report: seq<Problem>, steps: seq<RawStep>, hasFile: int -> bool) {
    && Grew(e, report) && |Seen(steps)| <= |steps|
    && (|report| == |e| <==> AllDocumented(steps, hasFile) && |Seen(steps)| == |steps|)
  }

  lemma StepsReportedSnoc(e: seq<Problem>, report: seq<Problem>, init: seq<RawStep>, last: RawStep,
                          hasFile: int -> bool)
    requires StepsReported(e, report, init, hasFile)
    ensures StepsReported(e, ReportStep(report, last, |init|, Seen(init), hasFile), init + [last], hasFile)
  {
    AllDocumentedSnoc(init, last, hasFile);
    SeenSnoc(init, last);
    StepReported(e, report, last, |init|, Seen(init), hasFile);
  }

  lemma {:induction false} NoStepProblemsIff(e: seq<Problem>, steps: seq<RawStep>, hasFile: int -> bool)
    ensures StepsReported(e, ReportSteps(e, steps, hasFile), steps, hasFile)
  {
    if steps != [] {
      var init, last := steps[..|steps| - 1], steps[|steps| - 1];
      NoStepProblemsIff(e, init, hasFile);
      StepsReportedSnoc(e, ReportSteps(e, init, hasFile), init, last, hasFile);
      ReportSnoc(e, init, last, hasFile);
      assert steps == init + [last];
    }
  }

  lemma StepReported(e: seq<Problem>, before: seq<Problem>, last: RawStep, i: nat, seen: set<int>, hasFile: int -> bool)
    requires Grew(e, before)
    ensures var after := ReportStep(before, last, i, seen, hasFile);
      Grew(e, after) && (|after| == |e| <==> |before| == |e| && Documented(last, hasFile) && last.step.n !in seen)
  {
    OneStepIff(before, last, i, seen, hasFile);
    GrewTwice(e, before, ReportStep(before, last, i, seen, hasFile));
  }

  /** Comparing the sorted set with the range decides contiguity from 0. */
  lemma ContiguousIff(s: set<int>)
    ensures Sorted(s) == Range(|s|) <==> forall n :: n in s <==> 0 <= n < |s|
  {
    SortedIsRangeIff(Sorted(s), s);
  }

  lemma SortedIsRangeIff(r: seq<int>, s: set<int>)
    requires IsSorted(r, s)
    ensures r == Range(|s|) <==> forall n :: n in s <==> 0 <= n < |s|
  {
    if r == Range(|s|) {
      forall n ensures n in s <==> 0 <= n < |s| {
        assert 0 <= n < |s| ==> r[n] == n;
      }
    }
    if forall n :: n in s <==> 0 <= n < |s| {
      forall i | 0 <= i < |r| ensures r[i] == i {
        IncreasingAbove(r, i);
        IncreasingBelow(r, i, |s|);
      }
    }
  }

  lemma {:induction false} IncreasingAbove(r: seq<int>, i: nat)
    requires i < |r| && (forall x :: x in r ==> 0 <= x) && forall a, b :: 0 <= a < b < |r| ==> r[a] < r[b]
    ensures i <= r[i]
  {
    assert r[i] in r;
    if i > 0 {
      IncreasingAbove(r, i - 1);
    }
  }

  lemma {:induction false} IncreasingBelow(r: seq<int>, i: nat, n: nat)
    requires i < |r| == n && (forall x :: x in r ==> x < n) && forall a, b :: 0 <= a < b < |r| ==> r[a] < r[b]
    ensures r[i] <= i
    decreases n - i
  {
    assert r[i] in r;
    if i + 1 < n {
      IncreasingBelow(r, i + 1, n);
    }
  }

  ghost predicate NoDuplicates(steps: seq<RawStep>) {
    forall i, j :: 0 <= i < j < |steps| && ValidNumber(steps[i]) && ValidNumber(steps[j]) ==>
        steps[i].step.n != steps[j].step.n
  }

  /** The numbers of a duplicate-free list are as many as its steps, and only then. */
  lemma {:induction false} SeenSizeIff(steps: seq<RawStep>)
    requires forall i :: 0 <= i < |steps| ==> ValidNumber(steps[i])
    ensures |Seen(steps)| == |steps| <==> NoDuplicates(steps)
    ensures |Seen(steps)| <= |steps|
  {
    if steps != [] {
      var init, last := steps[..|steps| - 1], steps[|steps| - 1];
      assert forall i :: 0 <= i < |init| ==> init[i] == steps[i];
      SeenSizeIff(init);
      SeenIff(init, last.step.n);
      assert Seen(steps) == Seen(init) + {last.step.n};
      assert NoDuplicates(steps) <==> NoDuplicates(init) && !HasNumber(init, last.step.n) by {
        assert steps[|init|] == last;
      }
    }
  }

  lemma PermutationIff(steps: seq<RawStep>)
    requires forall i :: 0 <= i < |steps| ==> ValidNumber(steps[i])
    ensures NumbersAreAPermutation(steps) <==> |Seen(steps)| == |steps| && Sorted(Seen(steps)) == Range(|Seen(steps)|)
  {
    SeenSizeIff(steps);
    ContiguousIff(Seen(steps));
    forall n ensures n in Seen(steps) <==> HasNumber(steps, n) {
      SeenIff(steps, n);
    }
    forall i | 0 <= i < |steps| ensures HasNumber(steps, steps[i].step.n) {}
    forall n | HasNumber(steps, n) && NumbersAreAPermutation(steps) ensures 0 <= n < |steps| {}
  }

  lemma NoStepsReportedIff(e: seq<Problem>, steps: seq<RawStep>, hasFile: int -> bool)
    ensures var sorted := Sorted(Seen(steps));
            var r := Require(ReportSteps(e, steps, hasFile), sorted == Range(|Seen(steps)|), NotContiguous(sorted));
            && Grew(e, r)
            && (|r| == |e| <==>
                  && (forall i :: 0 <= i < |steps| ==> Documented(steps[i], hasFile))
                  && NumbersAreAPermutation(steps))
  {
    NoStepProblemsIff(e, steps, hasFile);
    if forall i :: 0 <= i < |steps| ==> Documented(steps[i], hasFile) {
      PermutationIff(steps);
    }
  }

  lemma FieldsReportedIff(e: seq<Problem>, project: RawText, phase: RawText)
    ensures var r := Require(Require(e, Filled(project), BadField("project")), Filled(phase), BadField("phase"));
            Grew(e, r) && (|r| == |e| <==> Filled(project) && Filled(phase))
  {
  }

  /** The validator is sound and complete: it adds nothing exactly on well-formed metadata, and it
      never drops an earlier error. */
  lemma NoProblemsIff(e: seq<Problem>, dir: PhaseDir, hasFile: int -> bool)
    ensures ReportPhase(e, dir, hasFile) == e <==> WellFormed(dir, hasFile)
    ensures Grew(e, ReportPhase(e, dir, hasFile))
  {
    if dir.Index? {
      FieldsReportedIff(e, dir.project, dir.phase);
      var mid := Require(Require(e, Filled(dir.project), BadField("project")), Filled(dir.phase), BadField("phase"));
      if dir.steps.Some? {
        NoStepsReportedIff(mid, dir.steps.value, hasFile);
      }
      GrewTwice(e, mid, ReportPhase(e, dir, hasFile));
    }
  }
}
