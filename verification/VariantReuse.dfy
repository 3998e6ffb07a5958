/**
 Which existing variant a row of the merchant form is given (frontend/components/MerchantDashboard.jsx), in all
 four ways: by option values, by display values, by label, and by position.
 */
module VariantReuse {
  import opened Wrappers
  import opened TextTools
  import opened VariantCombinations

  /** The variant has an id, which no earlier row was given. */
  ghost predicate IsFree(f: Form, rows: seq<Row>, k: nat, v: Variant) {
    v.publicVariantId != "" && forall j: nat :: j < k ==> !GivenId(Choosing(f), rows, j, v.publicVariantId)
  }

  datatype Match = ByValues | ByDisplay | ByLabel

  predicate Matches(f: Form, row: Row, way: Match, v: Variant) {
    match way
    case ByValues => v.optionValues == row.optionValues
    case ByDisplay => v.optionValues == row.displayOptionValues
    case ByLabel =>
      var text := LabelText(row.labels, f.lower);
      text != "" && VariantLabelText(v, f.lower) == text
  }

  ghost predicate IsCandidate(f: Form, rows: seq<Row>, k: nat, way: Match, i: int)
    requires k < |rows|
  {
    0 <= i < |f.variants| && IsFree(f, rows, k, f.variants[i]) && Matches(f, rows[k], way, f.variants[i])
  }

  ghost predicate HasCandidate(f: Form, rows: seq<Row>, k: nat, way: Match)
    requires k < |rows|
  {
    exists i :: IsCandidate(f, rows, k, way, i)
  }

  /** The row is given the first free variant that matches in this way. */
  ghost predicate TakesFirst(f: Form, rows: seq<Row>, k: nat, way: Match, given: Option<Variant>)
    requires k < |rows|
  {
    exists i :: IsCandidate(f, rows, k, way, i) && given == Some(f.variants[i])
      && forall j :: 0 <= j < i ==> !IsCandidate(f, rows, k, way, j)
  }

  // ----- the searches -----

  /** A search finds the first variant that passes a test, if there is one. */
  ghost predicate Finds(variants: seq<Variant>, test: Variant -> bool, r: Option<Variant>) {
    match r
    case None => forall i :: 0 <= i < |variants| ==> !test(variants[i])
    case Some(v) => exists i :: IsFirst(variants, test, i) && variants[i] == v
  }

  ghost predicate IsFirst(variants: seq<Variant>, test: Variant -> bool, i: int) {
    0 <= i < |variants| && test(variants[i]) && forall j :: 0 <= j < i ==> !test(variants[j])
  }

  lemma FindsLater(variants: seq<Variant>, test: Variant -> bool, r: Option<Variant>)
    requires variants != [] && !test(variants[0]) && Finds(variants[1..], test, r)
    ensures Finds(variants, test, r)
  {
    if r.Some? {
      var i :| IsFirst(variants[1..], test, i) && variants[1..][i] == r.value;
      assert forall j :: 0 < j <= i ==> variants[j] == variants[1..][j - 1];
      assert IsFirst(variants, test, i + 1);
    } else {
      assert forall j :: 0 < j < |variants| ==> variants[j] == variants[1..][j - 1];
    }
  }

  function ValuesTest(used: set<string>, m: map<string, string>): Variant -> bool {
    (v: Variant) => IsOpen(v, used) && v.optionValues == m
  }

  function LabelTest(used: set<string>, text: string, lower: string -> string): Variant -> bool {
    (v: Variant) => IsOpen(v, used) && text != "" && VariantLabelText(v, lower) == text
  }

  predicate IsOpen(v: Variant, used: set<string>) {
    v.publicVariantId != "" && v.publicVariantId !in used
  }

  function Open(variants: seq<Variant>, used: set<string>): seq<Variant> {
    Available(Existing(variants), used)
  }

  lemma OpenFirst(variants: seq<Variant>, used: set<string>)
    requires variants != []
    ensures Open(variants, used) ==
      (if IsOpen(variants[0], used) then [variants[0]] else []) + Open(variants[1..], used)
  {
    var v, rest := variants[0], Existing(variants[1..]);
    if v.publicVariantId != "" {
      assert ([v] + rest)[1..] == rest;
    }
  }

  lemma FirstByValues(first: seq<Variant>, rest: seq<Variant>, m: map<string, string>)
    requires |first| <= 1
    ensures FindByValues(first + rest, m) ==
      if first != [] && first[0].optionValues == m then Some(first[0]) else FindByValues(rest, m)
  {
    if first == [] {
      assert first + rest == rest;
    } else {
      assert (first + rest)[1..] == rest;
      SameOptionValuesIff(first[0].optionValues, m);
    }
  }

  lemma FirstByLabel(first: seq<Variant>, rest: seq<Variant>, text: string, lower: string -> string)
    requires |first| <= 1 && text != ""
    ensures FindByLabel(first + rest, text, lower) ==
      if first != [] && VariantLabelText(first[0], lower) == text then Some(first[0])
      else FindByLabel(rest, text, lower)
  {
    if first == [] {
      assert first + rest == rest;
    } else {
      assert (first + rest)[1..] == rest;
    }
  }

  lemma FoundFirst(variants: seq<Variant>, test: Variant -> bool, all: Option<Variant>, later: Option<Variant>)
    requires variants != [] && Finds(variants[1..], test, later)
    requires all == if test(variants[0]) then Some(variants[0]) else later
    ensures Finds(variants, test, all)
  {
    if test(variants[0]) {
      assert IsFirst(variants, test, 0);
    } else {
      FindsLater(variants, test, later);
    }
  }

  lemma {:induction false} ValuesFound(variants: seq<Variant>, used: set<string>, m: map<string, string>)
    ensures Finds(variants, ValuesTest(used, m), FindByValues(Open(variants, used), m))
  {
    if variants != [] {
      ValuesFound(variants[1..], used, m);
      OpenFirst(variants, used);
      var first := if IsOpen(variants[0], used) then [variants[0]] else [];
      FirstByValues(first, Open(variants[1..], used), m);
      FoundFirst(variants, ValuesTest(used, m), FindByValues(Open(variants, used), m),
        FindByValues(Open(variants[1..], used), m));
    }
  }

  lemma {:induction false} LabelFound(variants: seq<Variant>, used: set<string>, text: string, lower: string -> string)
    ensures Finds(variants, LabelTest(used, text, lower), FindByLabel(Open(variants, used), text, lower))
  {
    if variants != [] && text != "" {
      LabelFound(variants[1..], used, text, lower);
      OpenFirst(variants, used);
      var first := if IsOpen(variants[0], used) then [variants[0]] else [];
      FirstByLabel(first, Open(variants[1..], used), text, lower);
      FoundFirst(variants, LabelTest(used, text, lower), FindByLabel(Open(variants, used), text, lower),
        FindByLabel(Open(variants[1..], used), text, lower));
    }
  }

  lemma FreeIff(f: Form, rows: seq<Row>, k: nat, v: Variant)
    requires k <= |rows|
    ensures IsFree(f, rows, k, v) <==> v.publicVariantId != "" && v.publicVariantId !in UsedBefore(Choosing(f), rows, k)
  {
    UsedIff(Choosing(f), rows, k, v.publicVariantId);
  }

  lemma FoundIsCandidate(f: Form, rows: seq<Row>, k: nat, way: Match, test: Variant -> bool, r: Option<Variant>)
    requires k < |rows| && Finds(f.variants, test, r)
    requires forall v :: test(v) <==> IsFree(f, rows, k, v) && Matches(f, rows[k], way, v)
    ensures r.Some? <==> HasCandidate(f, rows, k, way)
    ensures r.Some? ==> TakesFirst(f, rows, k, way, r)
  {
    forall i | 0 <= i < |f.variants| ensures IsCandidate(f, rows, k, way, i) <==> test(f.variants[i]) {
    }
    if r.Some? {
      var i :| IsFirst(f.variants, test, i) && f.variants[i] == r.value;
      assert IsCandidate(f, rows, k, way, i);
    }
  }

  // ----- the variant of a row -----

  /** A search decides whether there is a candidate, and finds the first. */
  ghost predicate IsSearch(f: Form, rows: seq<Row>, k: nat, way: Match, r: Option<Variant>)
    requires k < |rows|
  {
    (r.Some? <==> HasCandidate(f, rows, k, way)) && (r.Some? ==> TakesFirst(f, rows, k, way, r))
  }

  lemma SearchByValues(f: Form, rows: seq<Row>, k: nat, way: Match, m: map<string, string>)
    requires k < |rows| && way != ByLabel
    requires m == if way == ByValues then rows[k].optionValues else rows[k].displayOptionValues
    ensures IsSearch(f, rows, k, way, FindByValues(Open(f.variants, UsedBefore(Choosing(f), rows, k)), m))
  {
    var used := UsedBefore(Choosing(f), rows, k);
    var test := ValuesTest(used, m);
    ValuesFound(f.variants, used, m);
    forall v ensures test(v) <==> IsFree(f, rows, k, v) && Matches(f, rows[k], way, v) {
      FreeIff(f, rows, k, v);
    }
    FoundIsCandidate(f, rows, k, way, test, FindByValues(Open(f.variants, used), m));
  }

  lemma LabelTestIff(f: Form, rows: seq<Row>, k: nat, v: Variant)
    requires k < |rows|
    ensures LabelTest(UsedBefore(Choosing(f), rows, k), LabelText(rows[k].labels, f.lower), f.lower)(v) <==>
      IsFree(f, rows, k, v) && Matches(f, rows[k], ByLabel, v)
  {
    FreeIff(f, rows, k, v);
  }

  lemma SearchByLabel(f: Form, rows: seq<Row>, k: nat)
    requires k < |rows|
    ensures IsSearch(f, rows, k, ByLabel,
      FindByLabel(Open(f.variants, UsedBefore(Choosing(f), rows, k)), LabelText(rows[k].labels, f.lower), f.lower))
  {
    var used, text := UsedBefore(Choosing(f), rows, k), LabelText(rows[k].labels, f.lower);
    var test := LabelTest(used, text, f.lower);
    LabelFound(f.variants, used, text, f.lower);
    forall v ensures test(v) <==> IsFree(f, rows, k, v) && Matches(f, rows[k], ByLabel, v) {
      LabelTestIff(f, rows, k, v);
    }
    FoundIsCandidate(f, rows, k, ByLabel, test, FindByLabel(Open(f.variants, used), text, f.lower));
  }

  /** A row is given the first free variant with its option values; else the first with its display values; else the
      first with its label; else, when a product with as many variants as rows is edited, the variant at its
      position if that is free; else none. */
  lemma GivenIs(f: Form, rows: seq<Row>, k: nat)
    requires k < |rows|
    ensures var given := Given(Choosing(f), rows, k);
      if HasCandidate(f, rows, k, ByValues) then TakesFirst(f, rows, k, ByValues, given)
      else if HasCandidate(f, rows, k, ByDisplay) then TakesFirst(f, rows, k, ByDisplay, given)
      else if HasCandidate(f, rows, k, ByLabel) then TakesFirst(f, rows, k, ByLabel, given)
      else if f.editing && |Saved(f)| == f.rowCount && k < |Saved(f)| && IsFree(f, rows, k, Saved(f)[k])
      then given == Some(Saved(f)[k])
      else given == None
  {
    SearchByValues(f, rows, k, ByValues, rows[k].optionValues);
    SearchByValues(f, rows, k, ByDisplay, rows[k].displayOptionValues);
    SearchByLabel(f, rows, k);
    if k < |Saved(f)| {
      FreeIff(f, rows, k, Saved(f)[k]);
    }
  }

  /** When a product with as many variants as rows is edited, a row goes without a variant only if an earlier row
      has taken the one at its position. */
  lemma NoneOnlyIfTaken(f: Form, rows: seq<Row>, k: nat)
    requires k < |rows| == f.rowCount == |Saved(f)| && f.editing && Given(Choosing(f), rows, k).None?
    ensures exists j: nat :: j < k && GivenId(Choosing(f), rows, j, Saved(f)[k].publicVariantId)
  {
    GivenIs(f, rows, k);
  }

  /** The variants with an id, in order. */
  lemma {:induction false} ExistingAppend(variants: seq<Variant>, v: Variant)
    ensures Existing(variants + [v]) == Existing(variants) + if v.publicVariantId == "" then [] else [v]
  {
    if variants == [] {
      assert variants + [v] == [v];
    } else {
      assert (variants + [v])[1..] == variants[1..] + [v];
      ExistingAppend(variants[1..], v);
    }
  }

  // ----- labels -----

  /** A text without a slash that `trim` leaves alone. */
  predicate IsPlain(s: string) {
    s != [] && !IsSpace(s[0]) && !IsSpace(s[|s| - 1]) && '/' !in s
  }

  predicate ArePlain(labels: seq<string>) {
    forall i :: 0 <= i < |labels| ==> IsPlain(labels[i])
  }

  lemma {:induction false} PlainTrimmed(labels: seq<string>)
    requires ArePlain(labels)
    ensures TrimAll(labels) == labels
  {
    if labels != [] {
      PlainTrimmed(labels[1..]);
      assert Strip(labels[0], IsSpace) == labels[0];
    }
  }

  lemma LeftStripped(s: string, t: string)
    requires s != [] && !IsSpace(s[0]) && (t == s || t == " " + s)
    ensures StripLeft(t, IsSpace) == s
  {
    if t == " " + s {
      assert t[1..] == s;
    }
  }

  lemma RightStripped(s: string, t: string)
    requires s != [] && !IsSpace(s[|s| - 1]) && (t == s || t == s + " ")
    ensures StripRight(t, IsSpace) == s
  {
    if t == s + " " {
      assert t[..|t| - 1] == s;
    }
  }

  function Spaced(before: bool): string {
    if before then " " else ""
  }

  /** The parts of a joined name between its slashes. */
  function Padded(parts: seq<string>, before: bool): (r: seq<string>)
    ensures |r| == |parts|
  {
    if parts == [] then []
    else [Spaced(before) + parts[0] + Spaced(|parts| > 1)] + Padded(parts[1..], true)
  }

  lemma {:induction false} PaddedJoin(parts: seq<string>, before: bool)
    requires parts != []
    ensures Join(Padded(parts, before), "/") == Spaced(before) + Join(parts, " / ")
  {
    var padded := Padded(parts, before);
    if |parts| == 1 {
      assert Spaced(before) + parts[0] + "" == Spaced(before) + parts[0];
    } else {
      PaddedJoin(parts[1..], true);
      assert padded[1..] == Padded(parts[1..], true);
      var rest := Join(parts[1..], " / ");
      assert (Spaced(before) + parts[0] + " ") + "/" + (" " + rest) == Spaced(before) + (parts[0] + " / " + rest);
    }
  }

  lemma {:induction false} PaddedPlain(parts: seq<string>, before: bool)
    requires ArePlain(parts)
    ensures forall i :: 0 <= i < |Padded(parts, before)| ==> '/' !in Padded(parts, before)[i]
  {
    if parts != [] {
      PaddedPlain(parts[1..], true);
    }
  }

  lemma TrimFirst(first: string, more: seq<string>, trimmed: string)
    requires Strip(first, IsSpace) == trimmed != ""
    ensures TrimAll([first] + more) == [trimmed] + TrimAll(more)
  {
    assert ([first] + more)[1..] == more;
  }

  lemma PartStripped(part: string, before: bool, after: bool)
    requires IsPlain(part)
    ensures Strip(Spaced(before) + part + Spaced(after), IsSpace) == part
  {
    var u := part + Spaced(after);
    assert u == part || u == part + " ";
    var t := Spaced(before) + part + Spaced(after);
    assert t == Spaced(before) + u;
    assert t == u || t == " " + u;
    LeftStripped(u, t);
    RightStripped(part, u);
  }

  lemma TrimPart(part: string, before: bool, after: bool, more: seq<string>)
    requires IsPlain(part)
    ensures TrimAll([Spaced(before) + part + Spaced(after)] + more) == [part] + TrimAll(more)
  {
    PartStripped(part, before, after);
    TrimFirst(Spaced(before) + part + Spaced(after), more, part);
  }

  lemma TrimPadded(parts: seq<string>, before: bool, after: bool, more: seq<string>)
    requires parts != [] && IsPlain(parts[0]) && TrimAll(more) == parts[1..]
    ensures TrimAll([Spaced(before) + parts[0] + Spaced(after)] + more) == parts
  {
    TrimPart(parts[0], before, after, more);
  }

  lemma {:induction false} PaddedTrimmed(parts: seq<string>, before: bool)
    requires ArePlain(parts)
    ensures TrimAll(Padded(parts, before)) == parts
  {
    if parts != [] {
      PaddedTrimmed(parts[1..], true);
      TrimPadded(parts, before, |parts| > 1, Padded(parts[1..], true));
    }
  }

  /** Splitting a joined name at the slashes and trimming gives its parts. */
  lemma NameParts(parts: seq<string>)
    requires parts != [] && ArePlain(parts)
    ensures TrimAll(Split(Join(parts, " / "), '/')) == parts
  {
    PaddedJoin(parts, false);
    PaddedPlain(parts, false);
    SplitJoin(Padded(parts, false), '/');
    PaddedTrimmed(parts, false);
    assert "" + Join(parts, " / ") == Join(parts, " / ");
  }

  /** Blank labels are left out, wherever they stand. */
  lemma {:induction false} BlankLeftOut(before: seq<string>, blank: string, after: seq<string>)
    requires Strip(blank, IsSpace) == ""
    ensures TrimAll(before + [blank] + after) == TrimAll(before + after)
  {
    if before == [] {
      assert before + [blank] + after == [blank] + after && before + after == after;
      assert ([blank] + after)[1..] == after;
    } else {
      assert (before + [blank] + after)[1..] == before[1..] + [blank] + after;
      assert (before + after)[1..] == before[1..] + after;
      BlankLeftOut(before[1..], blank, after);
    }
  }

  /** A price delta counts if it is finite and positive, and is nothing otherwise. */
  lemma AmountIs(x: real)
    ensures OptionAmount(NotFinite) == 0.0
    ensures OptionAmount(Finite(x)) >= 0.0 && OptionAmount(Finite(x)) >= x && OptionAmount(Finite(x)) in {0.0, x}
  {
  }

  lemma JoinedLabels(labels: seq<string>, lower: string -> string)
    requires ArePlain(labels)
    ensures LabelText(labels, lower) == lower(Join(labels, " / "))
  {
    PlainTrimmed(labels);
  }

  /** The label text of a row is its labels, joined; that of a variant what its name has after the first part, or all
      of a name of one part. So a variant that is called "title / label / label" has the text of its labels. */
  lemma LabelTextIs(parts: seq<string>, v: Variant, lower: string -> string)
    requires parts != [] && ArePlain(parts) && v.displayName == Join(parts, " / ")
    ensures LabelText(parts, lower) == lower(Join(parts, " / "))
    ensures VariantLabelText(v, lower) == lower(Join(if |parts| > 1 then parts[1..] else parts, " / "))
  {
    NameParts(parts);
    JoinedLabels(parts, lower);
    JoinedLabels(if |parts| > 1 then parts[1..] else parts, lower);
  }
}
