/**
 When choosing options can dead-end (frontend/components/ProductDetail.jsx): the exact condition on
 the product. The catalogue does not compare the keys of a variant with the options of its product
 (app/token_payments/contexts/store_catalog/application/service.py, lines 1468-1488).
 */
module DeadEnds {
  import opened Wrappers
  import opened OptionSelection

  /** No sequence of changes by enabled controls leads to a state without a next step. */
  ghost predicate NeverStuck(p: Product) {
    forall changes :: IsUse(p, map[], changes) ==> NotStuck(p, AfterUse(p, map[], changes))
  }

  // ----- the condition -----

  predicate HasValue(o: ProductOption, text: string) {
    text != "" && exists v :: v in o.values && v.value == text
  }

  /** One listed value for each of the first required options. */
  predicate IsChoice(p: Product, texts: seq<string>) {
    |texts| <= |Required(p)| && forall j :: 0 <= j < |texts| ==> HasValue(Required(p)[j], texts[j])
  }

  /** The variant carries every text of the choice, by value or display value. */
  predicate Fits(p: Product, variant: Variant, texts: seq<string>)
    requires |texts| <= |Required(p)|
  {
    forall j :: 0 <= j < |texts| ==> Carries(Required(p)[j], variant, texts[j])
  }

  predicate IsMatched(p: Product, texts: seq<string>)
    requires |texts| <= |Required(p)|
  {
    exists variant :: variant in p.variants && Fits(p, variant, texts)
  }

  /** The next option has a value that a variant agrees with too; or, at the end, one of the variants that fit
      has as many keys as there are required options. */
  predicate GoesOn(p: Product, texts: seq<string>)
    requires |texts| <= |Required(p)|
  {
    if |texts| < |Required(p)| then
      exists v :: v in Required(p)[|texts|].values && v.value != "" && IsMatched(p, texts + [v.value])
    else
      exists variant :: variant in p.variants && Fits(p, variant, texts) && |variant| == |Required(p)|
  }

  /** Every choice that some variant matches goes on. */
  ghost predicate EveryChoiceGoesOn(p: Product) {
    forall texts :: IsChoice(p, texts) && IsMatched(p, texts) ==> GoesOn(p, texts)
  }

  // ----- choices as selections -----

  function Picked(required: seq<ProductOption>, texts: seq<string>): Selection
    requires |texts| <= |required|
  {
    if texts == [] then map[]
    else
      var last := |texts| - 1;
      Picked(required, texts[..last])[required[last].key := One(texts[last])]
  }

  /** The selection holds this choice for the first required options, and nothing for the others. */
  ghost predicate Holds(required: seq<ProductOption>, sel: Selection, texts: seq<string>) {
    && |texts| <= |required|
    && (forall j :: 0 <= j < |texts| ==> required[j].key in sel && sel[required[j].key] == One(texts[j]))
    && (forall j :: |texts| <= j < |required| ==> required[j].key !in sel)
  }

  lemma {:induction false} PickedKeys(required: seq<ProductOption>, texts: seq<string>, key: string)
    requires |texts| <= |required|
    ensures key in Picked(required, texts) <==> exists j :: 0 <= j < |texts| && required[j].key == key
  {
    if texts != [] {
      PickedKeys(required, texts[..|texts| - 1], key);
    }
  }

  lemma {:induction false} PickedAt(required: seq<ProductOption>, texts: seq<string>, j: nat)
    requires DistinctKeys(required) && j < |texts| <= |required|
    ensures required[j].key in Picked(required, texts) && Picked(required, texts)[required[j].key] == One(texts[j])
  {
    if j < |texts| - 1 {
      PickedAt(required, texts[..|texts| - 1], j);
    }
  }

  lemma PickedHolds(required: seq<ProductOption>, texts: seq<string>)
    requires DistinctKeys(required) && |texts| <= |required|
    ensures Holds(required, Picked(required, texts), texts)
  {
    forall j | 0 <= j < |texts|
      ensures required[j].key in Picked(required, texts) && Picked(required, texts)[required[j].key] == One(texts[j])
    {
      PickedAt(required, texts, j);
    }
    forall j | |texts| <= j < |required| ensures required[j].key !in Picked(required, texts) {
      PickedKeys(required, texts, required[j].key);
    }
  }

  /** What is chosen of a selection that holds a choice is the choice. */
  lemma ChosenIsPicked(required: seq<ProductOption>, sel: Selection, texts: seq<string>)
    requires Holds(required, sel, texts) && forall j :: 0 <= j < |texts| ==> texts[j] != ""
    ensures Chosen(required[..|texts|], sel) == Picked(required, texts)
  {
    ChosenUpTo(required, sel, texts, |texts|);
    assert texts[..|texts|] == texts;
  }

  lemma {:induction false} ChosenUpTo(required: seq<ProductOption>, sel: Selection, texts: seq<string>, n: nat)
    requires Holds(required, sel, texts) && n <= |texts| && forall j :: 0 <= j < |texts| ==> texts[j] != ""
    ensures Chosen(required[..n], sel) == Picked(required, texts[..n])
  {
    if n > 0 {
      ChosenUpTo(required, sel, texts, n - 1);
      assert required[..n][..n - 1] == required[..n - 1] && texts[..n][..n - 1] == texts[..n - 1];
    }
  }

  lemma PickedAgreesIff(p: Product, variant: Variant, texts: seq<string>)
    requires DistinctKeys(p.options) && IsChoice(p, texts)
    ensures AgreesOnAll(p, variant, Picked(Required(p), texts)) <==> Fits(p, variant, texts)
  {
    FilterKeepsDistinct(p.options);
    var required := Required(p);
    var sel := Picked(required, texts);
    PickedHolds(required, texts);
    forall j | 0 <= j < |texts|
      ensures Agrees(p, variant, required[j].key, sel[required[j].key]) <==> Carries(required[j], variant, texts[j])
      ensures IsSet(sel, required[j].key)
    {
      assert required[j] in required && HasValue(required[j], texts[j]);
      AgreesIff(p, required[j], variant, texts[j]);
    }
    forall key | key in sel ensures exists j :: 0 <= j < |texts| && required[j].key == key {
      PickedKeys(required, texts, key);
    }
  }

  lemma MatchedIff(p: Product, texts: seq<string>)
    requires DistinctKeys(p.options) && IsChoice(p, texts)
    ensures MatchingVariants(p, Picked(Required(p), texts)) != [] <==> IsMatched(p, texts)
  {
    FilterKeepsDistinct(p.options);
    var matching := MatchingVariants(p, Picked(Required(p), texts));
    forall variant ensures variant in matching <==> variant in p.variants && Fits(p, variant, texts) {
      PickedAgreesIff(p, variant, texts);
    }
    assert matching != [] ==> matching[0] in matching;
  }

  /** A value of the next option is enabled exactly when a variant matches the choice with it. */
  lemma SelectableIff(p: Product, sel: Selection, texts: seq<string>, v: Value)
    requires DistinctKeys(p.options) && IsChoice(p, texts) && Holds(Required(p), sel, texts)
    requires |texts| < |Required(p)| && v in Required(p)[|texts|].values && v.value != ""
    ensures Selectable(p, Required(p)[|texts|], |texts|, v, sel) <==> IsMatched(p, texts + [v.value])
  {
    FilterKeepsDistinct(p.options);
    var k := |texts|;
    ChosenIsPicked(Required(p), sel, texts);
    assert (texts + [v.value])[..k] == texts;
    assert Candidate(p, Required(p)[k], k, v, sel) == Picked(Required(p), texts + [v.value]);
    MatchedIff(p, texts + [v.value]);
    assert Required(p)[k] in Required(p);
  }

  lemma SelectedIff(p: Product, sel: Selection, texts: seq<string>)
    requires DistinctKeys(p.options) && IsChoice(p, texts) && Holds(Required(p), sel, texts)
    requires |texts| == |Required(p)|
    ensures SelectedVariant(p, sel).Some? <==> GoesOn(p, texts)
  {
    var required := Required(p);
    FilterKeepsDistinct(p.options);
    assert required[..|required|] == required;
    ChosenIsPicked(required, sel, texts);
    CompleteKeys(p, sel);
    forall variant ensures
        variant in MatchingVariants(p, Picked(required, texts)) <==> variant in p.variants && Fits(p, variant, texts) {
      PickedAgreesIff(p, variant, texts);
    }
  }

  // ----- which variant is selected -----

  /** The variant carries every chosen text and has as many keys as there are required options. */
  predicate IsExact(p: Product, texts: seq<string>, variant: Variant)
    requires |texts| <= |Required(p)|
  {
    Fits(p, variant, texts) && |variant| == |Required(p)|
  }

  /** This is the first variant that is exact. */
  ghost predicate IsSelected(p: Product, texts: seq<string>, i: int)
    requires |texts| <= |Required(p)|
  {
    && 0 <= i < |p.variants| && IsExact(p, texts, p.variants[i])
    && forall j :: 0 <= j < i ==> !IsExact(p, texts, p.variants[j])
  }

  lemma {:induction false} FirstOfSize(p: Product, sel: Selection, from: nat, n: nat)
    requires from <= |p.variants|
    requires forall j :: 0 <= j < from ==> !(AgreesOnAll(p, p.variants[j], sel) && |p.variants[j]| == n)
    ensures match FindBySize(Matching(p, p.variants[from..], sel), n)
      case None => forall j :: 0 <= j < |p.variants| ==> !(AgreesOnAll(p, p.variants[j], sel) && |p.variants[j]| == n)
      case Some(v) => exists i :: 0 <= i < |p.variants| && IsFirstOfSize(p, sel, i, n) && p.variants[i] == v
    decreases |p.variants| - from
  {
    if from < |p.variants| {
      assert p.variants[from..][1..] == p.variants[from + 1..];
      if AgreesOnAll(p, p.variants[from], sel) && |p.variants[from]| == n {
        assert IsFirstOfSize(p, sel, from, n);
      } else {
        FirstOfSize(p, sel, from + 1, n);
      }
    }
  }

  ghost predicate IsFirstOfSize(p: Product, sel: Selection, i: int, n: nat) {
    && 0 <= i < |p.variants| && AgreesOnAll(p, p.variants[i], sel) && |p.variants[i]| == n
    && forall j :: 0 <= j < i ==> !(AgreesOnAll(p, p.variants[j], sel) && |p.variants[j]| == n)
  }

  /** The variant that a complete choice selects. */
  ghost predicate IsSelection(p: Product, texts: seq<string>, r: Option<Variant>)
    requires |texts| <= |Required(p)|
  {
    match r
    case None => forall i :: 0 <= i < |p.variants| ==> !IsExact(p, texts, p.variants[i])
    case Some(v) => exists i :: 0 <= i < |p.variants| && IsSelected(p, texts, i) && p.variants[i] == v
  }

  lemma FirstIsSelected(p: Product, texts: seq<string>)
    requires DistinctKeys(p.options) && IsChoice(p, texts)
    ensures var picked := Picked(Required(p), texts);
      IsSelection(p, texts, FindBySize(MatchingVariants(p, picked), |Required(p)|))
  {
    var picked, n := Picked(Required(p), texts), |Required(p)|;
    forall i | 0 <= i < |p.variants|
      ensures AgreesOnAll(p, p.variants[i], picked) <==> Fits(p, p.variants[i], texts)
    {
      PickedAgreesIff(p, p.variants[i], texts);
    }
    assert p.variants[0..] == p.variants;
    FirstOfSize(p, picked, 0, n);
    forall i | 0 <= i < |p.variants| && IsFirstOfSize(p, picked, i, n) ensures IsSelected(p, texts, i) {
    }
  }

  /** A complete choice selects the first variant that carries every chosen text, by value or display value, and
      has as many keys as there are required options; and none if there is no such variant. */
  lemma SelectedVariantIs(p: Product, sel: Selection, texts: seq<string>)
    requires DistinctKeys(p.options) && IsChoice(p, texts) && Holds(Required(p), sel, texts)
    requires |texts| == |Required(p)|
    ensures IsSelection(p, texts, SelectedVariant(p, sel))
  {
    FilterKeepsDistinct(p.options);
    assert Required(p)[..|Required(p)|] == Required(p);
    ChosenIsPicked(Required(p), sel, texts);
    CompleteKeys(p, sel);
    FirstIsSelected(p, texts);
  }

  /** So it holds, under the key of each required option, the value or the display value of the listed value that
      was chosen there. */
  lemma SelectedVariantHolds(p: Product, sel: Selection, texts: seq<string>, j: nat)
    requires DistinctKeys(p.options) && IsChoice(p, texts) && Holds(Required(p), sel, texts)
    requires j < |texts| == |Required(p)| && SelectedVariant(p, sel).Some?
    ensures var v, o := SelectedVariant(p, sel).value, Required(p)[j];
      && v in p.variants
      && exists w :: w in o.values && sel[o.key] == One(w.value)
           && (o.key in v ==> v[o.key] == w.value || v[o.key] == Shown(w))
           && (o.key !in v ==> "undefined" in [w.value, Shown(w)])
  {
    SelectedVariantIs(p, sel, texts);
    var o := Required(p)[j];
    var i :| 0 <= i < |p.variants| && IsSelected(p, texts, i) && p.variants[i] == SelectedVariant(p, sel).value;
    assert HasValue(o, texts[j]) && Carries(o, p.variants[i], texts[j]);
  }

  /** A selection that holds a choice is not stuck exactly when a variant matches the choice and it goes on. */
  lemma NotStuckIff(p: Product, sel: Selection, texts: seq<string>)
    requires DistinctKeys(p.options) && IsChoice(p, texts) && Holds(Required(p), sel, texts)
    ensures NotStuck(p, sel) <==> IsMatched(p, texts) && GoesOn(p, texts)
  {
    var required, n := Required(p), |texts|;
    FilterKeepsDistinct(p.options);
    ChosenIsPicked(required, sel, texts);
    MatchedIff(p, texts);
    assert PrefixChosen(p, sel, n) <==> IsMatched(p, texts);
    assert forall j :: 0 <= j < |required| ==> (required[j].key in sel <==> j < n);
    assert forall k :: PrefixChosen(p, sel, k) ==> k == n;
    if n < |required| {
      forall v | v in required[n].values && v.value != ""
        ensures Selectable(p, required[n], n, v, sel) <==> IsMatched(p, texts + [v.value])
      {
        SelectableIff(p, sel, texts, v);
      }
    } else {
      SelectedIff(p, sel, texts);
    }
  }

  // ----- what can be reached -----

  /** What is selected under required keys are listed values. */
  ghost predicate IsListed(p: Product, sel: Selection) {
    forall o :: o in Required(p) && o.key in sel ==> sel[o.key].One? && HasValue(o, sel[o.key].text)
  }

  lemma ChangeKeepsListed(p: Product, sel: Selection, c: Change)
    requires DistinctKeys(p.options) && IsListed(p, sel) && Enabled(p, sel, c)
    ensures IsListed(p, Changed(p, sel, c))
  {
    var next := Changed(p, sel, c);
    FilterKeepsDistinct(p.options);
    match c
    case PickRequired(i, value) =>
      forall o | o in Required(p) && o.key in next ensures next[o.key].One? && HasValue(o, next[o.key].text) {
        var j :| 0 <= j < |Required(p)| && Required(p)[j] == o;
        assert j != i ==> o.key != Required(p)[i].key;
      }
    case PickOptional(o, value) => OtherKeysListed(p, sel, o, next);
    case ToggleOptional(o, value, checked) => OtherKeysListed(p, sel, o, next);
  }

  lemma OtherKeysListed(p: Product, sel: Selection, o: ProductOption, next: Selection)
    requires DistinctKeys(p.options) && IsListed(p, sel) && o in p.options && IsOptional(o)
    requires forall key :: key != o.key && key in next ==> key in sel && next[key] == sel[key]
    ensures IsListed(p, next)
  {
    OptionalKeyIsOther(p, o);
    forall r | r in Required(p) ensures r.key != o.key {
      assert r.key in KeysOf(Required(p));
    }
  }

  lemma {:induction false} UseKeepsListed(p: Product, sel: Selection, changes: seq<Change>)
    requires DistinctKeys(p.options) && IsListed(p, sel) && IsUse(p, sel, changes)
    ensures IsListed(p, AfterUse(p, sel, changes))
    decreases |changes|
  {
    if changes != [] {
      ChangeKeepsListed(p, sel, changes[0]);
      UseKeepsListed(p, Changed(p, sel, changes[0]), changes[1..]);
    }
  }

  /** Every reachable selection holds a choice that a variant matches. */
  lemma ReachedHolds(p: Product, changes: seq<Change>) returns (texts: seq<string>)
    requires DistinctKeys(p.options) && p.variants != [] && IsUse(p, map[], changes)
    ensures IsChoice(p, texts) && IsMatched(p, texts) && Holds(Required(p), AfterUse(p, map[], changes), texts)
  {
    var required, sel := Required(p), AfterUse(p, map[], changes);
    FilterKeepsDistinct(p.options);
    StartIsPrefix(p);
    var k := UseKeepsPrefix(p, map[], 0, changes);
    UseKeepsListed(p, map[], changes);
    forall j | 0 <= j < k ensures sel[required[j].key].One? && HasValue(required[j], sel[required[j].key].text) {
      assert IsSet(sel, required[j].key) && required[j] in required;
    }
    texts := seq(k, j requires 0 <= j < k => sel[required[j].key].text);
    ChosenIsPicked(required, sel, texts);
    MatchedIff(p, texts);
  }

  function Picks(texts: seq<string>): seq<Change> {
    if texts == [] then []
    else
      var last := |texts| - 1;
      Picks(texts[..last]) + [PickRequired(last, texts[last])]
  }

  lemma {:induction false} UseAppend(p: Product, sel: Selection, changes: seq<Change>, c: Change)
    requires IsUse(p, sel, changes) && Enabled(p, AfterUse(p, sel, changes), c)
    ensures IsUse(p, sel, changes + [c])
    ensures AfterUse(p, sel, changes + [c]) == Changed(p, AfterUse(p, sel, changes), c)
    decreases |changes|
  {
    if changes != [] {
      assert (changes + [c])[1..] == changes[1..] + [c];
      UseAppend(p, Changed(p, sel, changes[0]), changes[1..], c);
    } else {
      assert changes + [c] == [c] && [c][1..] == [];
    }
  }

  lemma FitsShorter(p: Product, texts: seq<string>, n: nat)
    requires IsChoice(p, texts) && IsMatched(p, texts) && n <= |texts|
    ensures IsChoice(p, texts[..n]) && IsMatched(p, texts[..n])
  {
    var variant :| variant in p.variants && Fits(p, variant, texts);
    assert Fits(p, variant, texts[..n]);
  }

  lemma NoLaterKeys(required: seq<ProductOption>, texts: seq<string>)
    requires DistinctKeys(required) && |texts| <= |required|
    ensures Picked(required, texts) - KeysOf(required[|texts|..]) == Picked(required, texts)
  {
    var later := required[|texts|..];
    forall key | key in KeysOf(later) ensures key !in Picked(required, texts) {
      var o :| o in later && o.key == key;
      var j :| 0 <= j < |later| && later[j] == o;
      assert required[|texts| + j] == o;
      PickedKeys(required, texts, key);
    }
  }

  lemma PickAdds(p: Product, init: seq<string>, text: string)
    requires DistinctKeys(Required(p)) && |init| < |Required(p)| && text != ""
    ensures ChangedOption(p, Picked(Required(p), init), |init|, Required(p)[|init|].key, text, true) ==
      Picked(Required(p), init + [text])
  {
    assert (init + [text])[..|init|] == init;
    NoLaterKeys(Required(p), init + [text]);
  }

  /** The next value of a choice that a variant matches can be picked. */
  lemma NextIsEnabled(p: Product, sel: Selection, texts: seq<string>, text: string)
    requires DistinctKeys(p.options) && IsChoice(p, texts) && Holds(Required(p), sel, texts)
    requires IsChoice(p, texts + [text]) && IsMatched(p, texts + [text])
    ensures Enabled(p, sel, PickRequired(|texts|, text))
  {
    FilterKeepsDistinct(p.options);
    var required, k := Required(p), |texts|;
    assert HasValue(required[k], (texts + [text])[k]);
    var v :| v in required[k].values && v.value == text;
    SelectableIff(p, sel, texts, v);
    forall j | 0 <= j < k ensures IsSet(sel, required[j].key) {
      assert HasValue(required[j], texts[j]);
    }
  }

  lemma LastIsEnabled(p: Product, texts: seq<string>, init: seq<string>, text: string)
    requires DistinctKeys(p.options) && texts == init + [text] && IsChoice(p, texts) && IsMatched(p, texts)
    requires IsChoice(p, init)
    ensures Enabled(p, Picked(Required(p), init), PickRequired(|init|, text))
  {
    FilterKeepsDistinct(p.options);
    PickedHolds(Required(p), init);
    NextIsEnabled(p, Picked(Required(p), init), init, text);
  }

  ghost predicate IsReached(p: Product, texts: seq<string>)
    requires |texts| <= |Required(p)|
  {
    IsUse(p, map[], Picks(texts)) && AfterUse(p, map[], Picks(texts)) == Picked(Required(p), texts)
  }

  lemma NextIsReached(p: Product, init: seq<string>, text: string)
    requires |init| < |Required(p)| && IsReached(p, init)
    requires Enabled(p, Picked(Required(p), init), PickRequired(|init|, text))
    requires Changed(p, Picked(Required(p), init), PickRequired(|init|, text)) == Picked(Required(p), init + [text])
    ensures IsReached(p, init + [text])
  {
    assert (init + [text])[..|init|] == init;
    UseAppend(p, map[], Picks(init), PickRequired(|init|, text));
  }

  lemma ChoiceIsReached(p: Product, init: seq<string>, text: string)
    requires DistinctKeys(p.options) && IsChoice(p, init + [text]) && IsMatched(p, init + [text])
    requires IsChoice(p, init) && IsReached(p, init)
    ensures IsReached(p, init + [text])
  {
    var texts := init + [text];
    FilterKeepsDistinct(p.options);
    LastIsEnabled(p, texts, init, text);
    assert HasValue(Required(p)[|init|], texts[|init|]);
    PickAdds(p, init, text);
    NextIsReached(p, init, text);
  }

  /** Every choice that a variant matches is reached by picking its values in order. */
  lemma {:induction false} MatchedIsReached(p: Product, texts: seq<string>)
    requires DistinctKeys(p.options) && IsChoice(p, texts) && IsMatched(p, texts)
    ensures IsReached(p, texts)
  {
    if texts != [] {
      var init, text := texts[..|texts| - 1], texts[|texts| - 1];
      assert texts == init + [text];
      FitsShorter(p, texts, |init|);
      MatchedIsReached(p, init);
      ChoiceIsReached(p, init, text);
    }
  }

  /** For every product with distinct option keys: choosing never dead-ends exactly when there is a variant and
      every choice of listed values for the first required options that some variant matches goes on. */
  lemma NeverStuckIff(p: Product)
    requires DistinctKeys(p.options)
    ensures NeverStuck(p) <==> p.variants != [] && EveryChoiceGoesOn(p)
  {
    FilterKeepsDistinct(p.options);
    if NeverStuck(p) {
      assert IsUse(p, map[], []) && NotStuck(p, AfterUse(p, map[], []));
      NotStuckIff(p, map[], []);
      forall texts | IsChoice(p, texts) && IsMatched(p, texts) ensures GoesOn(p, texts) {
        MatchedIsReached(p, texts);
        PickedHolds(Required(p), texts);
        NotStuckIff(p, Picked(Required(p), texts), texts);
      }
    }
    if p.variants != [] && EveryChoiceGoesOn(p) {
      forall changes | IsUse(p, map[], changes) ensures NotStuck(p, AfterUse(p, map[], changes)) {
        var texts := ReachedHolds(p, changes);
        NotStuckIff(p, AfterUse(p, map[], changes), texts);
      }
    }
  }

  // ----- examples -----

  lemma OnlyRequired(o: ProductOption, value: Value, variants: seq<Variant>)
    requires o == ProductOption(o.key, true, VariantKind, [value])
    ensures var p := Product([o], variants);
      Required(p) == [o] && DistinctKeys(p.options) && DisplayOf(p, o.key, One(value.value)) == Shown(value)
  {
    assert Filter([o]) == [o] + Filter([]);
  }

  lemma BothRequired(first: ProductOption, v: Value, second: ProductOption, w: Value, variants: seq<Variant>)
    requires first == ProductOption(first.key, true, VariantKind, [v])
    requires second == ProductOption(second.key, true, VariantKind, [w]) && first.key != second.key
    ensures var p := Product([first, second], variants);
      Required(p) == [first, second] && DistinctKeys(p.options)
  {
    OnlyRequired(second, w, variants);
    assert Filter([first, second]) == [first] + Filter([second]);
  }

  /** A variant with a key that no required option has, as one keeps when an option becomes inactive, lets the
      choice be completed but is not selected. */
  lemma ExtraKeyDeadEnds(a: string, c: string, v: Value, x: string)
    requires a != c && v.value != ""
    ensures var p := Product([ProductOption(a, true, VariantKind, [v])], [map[a := v.value, c := x]]);
      !NeverStuck(p)
  {
    var o, variant := ProductOption(a, true, VariantKind, [v]), map[a := v.value, c := x];
    var p := Product([o], [variant]);
    OnlyRequired(o, v, p.variants);
    assert v in o.values && IsChoice(p, [v.value]);
    assert variant in p.variants && Fits(p, variant, [v.value]);
    assert variant.Keys == {a, c} && |variant.Keys| == |variant|;
    assert !GoesOn(p, [v.value]);
    NeverStuckIff(p);
  }

  /** The variant carries the only value of every required option. */
  predicate CarriesOnly(p: Product, variant: Variant) {
    forall j :: 0 <= j < |Required(p)| ==>
      var o := Required(p)[j];
      |o.values| == 1 && o.values[0].value != "" && Carries(o, variant, o.values[0].value)
  }

  lemma OnlyChoiceFits(p: Product, variant: Variant, texts: seq<string>)
    requires CarriesOnly(p, variant) && IsChoice(p, texts)
    ensures Fits(p, variant, texts)
  {
    forall j | 0 <= j < |texts| ensures Carries(Required(p)[j], variant, texts[j]) {
      assert HasValue(Required(p)[j], texts[j]);
    }
  }

  lemma NextChoice(p: Product, texts: seq<string>, v: Value)
    requires IsChoice(p, texts) && |texts| < |Required(p)| && v in Required(p)[|texts|].values && v.value != ""
    ensures IsChoice(p, texts + [v.value])
  {
    assert HasValue(Required(p)[|texts|], v.value);
  }

  lemma OnlyChoiceGoesOn(p: Product, variant: Variant, texts: seq<string>)
    requires variant in p.variants && |variant| == |Required(p)| && CarriesOnly(p, variant) && IsChoice(p, texts)
    ensures GoesOn(p, texts)
  {
    OnlyChoiceFits(p, variant, texts);
    if |texts| < |Required(p)| {
      var next := Required(p)[|texts|].values[0];
      NextChoice(p, texts, next);
      OnlyChoiceFits(p, variant, texts + [next.value]);
      assert IsMatched(p, texts + [next.value]);
    }
  }

  /** An incomplete variant does no harm beside a complete one that agrees with it. */
  lemma IncompleteBesideComplete(a: string, b: string, v: Value, w: Value)
    requires a != b && v.value != "" && w.value != ""
    ensures var first := ProductOption(a, true, VariantKind, [v]);
            var second := ProductOption(b, true, VariantKind, [w]);
            var p := Product([first, second], [map[a := v.value], map[a := v.value, b := w.value]]);
            !VariantComplete(p, p.variants[0]) && NeverStuck(p)
  {
    var first, second := ProductOption(a, true, VariantKind, [v]), ProductOption(b, true, VariantKind, [w]);
    var incomplete, complete := map[a := v.value], map[a := v.value, b := w.value];
    var p := Product([first, second], [incomplete, complete]);
    BothRequired(first, v, second, w, p.variants);
    assert second in Required(p) && b in KeysOf(Required(p)) && b !in incomplete;
    assert complete.Keys == {a, b} && |complete.Keys| == |complete| && complete in p.variants;
    forall texts | IsChoice(p, texts) ensures GoesOn(p, texts) {
      OnlyChoiceGoesOn(p, complete, texts);
    }
    NeverStuckIff(p);
  }
}
