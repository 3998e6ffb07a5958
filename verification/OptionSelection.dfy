/**
 Choosing product options one after another (frontend/components/ProductDetail.jsx): which values
 are offered, what a change clears, and which variant a complete choice selects.
 */
module OptionSelection {
  import opened Wrappers
  import opened TextTools

  /** An absent display value is the empty string. */
  datatype Value = Value(value: string, displayValue: string)

  datatype Kind = VariantKind | AddOnKind | OtherKind

  datatype ProductOption = ProductOption(key: string, required: bool, kind: Kind, values: seq<Value>)

  type Variant = map<string, string>

  datatype Product = Product(options: seq<ProductOption>, variants: seq<Variant>)

  /** What is selected under a key: one value, or the list of a multi-choice option. */
  datatype Choice = One(text: string) | Many(items: seq<string>)

  type Selection = map<string, Choice>

  // ----- helpers of the component -----

  /** The key holds a truthy value. */
  predicate IsSet(sel: Selection, key: string) {
    key in sel && (sel[key].Many? || sel[key].text != "")
  }

  /** `String(value)`. */
  function ChoiceText(c: Choice): string {
    match c
    case One(text) => text
    case Many(items) => Join(items, ",")
  }

  function Filter(options: seq<ProductOption>): (r: seq<ProductOption>)
    ensures forall o :: o in r <==> o in options && o.required && o.kind.VariantKind?
  {
    if options == [] then []
    else if options[0].required && options[0].kind.VariantKind? then [options[0]] + Filter(options[1..])
    else Filter(options[1..])
  }

  /** `requiredVariantOptions`. */
  function Required(p: Product): seq<ProductOption> {
    Filter(p.options)
  }

  predicate IsOptional(o: ProductOption) {
    !o.required || o.kind.AddOnKind?
  }

  predicate PreviousOptionsSelected(options: seq<ProductOption>, i: nat, sel: Selection)
    requires i <= |options|
  {
    forall j :: 0 <= j < i ==> IsSet(sel, options[j].key)
  }

  /** The selection restricted to the set keys of the given options. */
  function Chosen(options: seq<ProductOption>, sel: Selection): Selection {
    if options == [] then map[]
    else
      var key, rest := options[|options| - 1].key, Chosen(options[..|options| - 1], sel);
      if IsSet(sel, key) then rest[key := sel[key]] else rest
  }

  function Candidate(p: Product, o: ProductOption, i: nat, v: Value, sel: Selection): Selection
    requires i <= |Required(p)|
  {
    Chosen(Required(p)[..i], sel)[o.key := One(v.value)]
  }

  /** `optionCandidateSelection`, which fills the object in a loop. */
  method OptionCandidateSelection(p: Product, o: ProductOption, i: nat, v: Value, sel: Selection)
    returns (candidate: Selection)
    requires i <= |Required(p)|
    ensures candidate == Candidate(p, o, i, v, sel)
  {
    var previous := Required(p)[..i];
    candidate := map[];
    var j := 0;
    while j < |previous|
      invariant 0 <= j <= |previous| && candidate == Chosen(previous[..j], sel)
    {
      assert previous[..j + 1][..j] == previous[..j];
      if IsSet(sel, previous[j].key) {
        candidate := candidate[previous[j].key := sel[previous[j].key]];
      }
      j := j + 1;
    }
    assert previous[..j] == previous;
    candidate := candidate[o.key := One(v.value)];
  }

  function FindOption(options: seq<ProductOption>, key: string): Option<ProductOption> {
    if options == [] then None else if options[0].key == key then Some(options[0]) else FindOption(options[1..], key)
  }

  function FindValue(values: seq<Value>, value: string): Option<Value> {
    if values == [] then None else if values[0].value == value then Some(values[0]) else FindValue(values[1..], value)
  }

  /** The display value, or the value when there is none. */
  function Shown(v: Value): string {
    if v.displayValue != "" then v.displayValue else v.value
  }

  function DisplayOf(p: Product, key: string, c: Choice): string {
    var o := FindOption(p.options, key);
    if o.None? || c.Many? then ""
    else
      var v := FindValue(o.value.values, c.text);
      if v.None? then "" else Shown(v.value)
  }

  function VariantText(v: Variant, key: string): string {
    if key in v then v[key] else "undefined"
  }

  /** The variant has this choice under the key, by value or by display value. */
  predicate Agrees(p: Product, v: Variant, key: string, c: Choice) {
    var display := DisplayOf(p, key, c);
    VariantText(v, key) == ChoiceText(c) || (display != "" && VariantText(v, key) == display)
  }

  predicate AgreesOnAll(p: Product, v: Variant, sel: Selection) {
    forall key :: key in sel ==> IsSet(sel, key) ==> Agrees(p, v, key, sel[key])
  }

  function Matching(p: Product, variants: seq<Variant>, sel: Selection): (r: seq<Variant>)
    ensures forall v :: v in r <==> v in variants && AgreesOnAll(p, v, sel)
  {
    if variants == [] then []
    else if AgreesOnAll(p, variants[0], sel) then [variants[0]] + Matching(p, variants[1..], sel)
    else Matching(p, variants[1..], sel)
  }

  /** `matchingVariantsForSelection`; with no entries every variant matches. */
  function MatchingVariants(p: Product, sel: Selection): seq<Variant> {
    Matching(p, p.variants, sel)
  }

  predicate Selectable(p: Product, o: ProductOption, i: nat, v: Value, sel: Selection)
    requires i <= |Required(p)|
  {
    o.kind.VariantKind? ==> MatchingVariants(p, Candidate(p, o, i, v, sel)) != []
  }

  function FindBySize(variants: seq<Variant>, n: nat): (r: Option<Variant>)
    ensures r.Some? ==> r.value in variants && |r.value| == n
    ensures r.None? ==> forall v :: v in variants ==> |v| != n
  {
    if variants == [] then None else if |variants[0]| == n then Some(variants[0]) else FindBySize(variants[1..], n)
  }

  function VariantForSelection(p: Product, sel: Selection): Option<Variant> {
    FindBySize(MatchingVariants(p, sel), |sel|)
  }

  predicate SelectionComplete(options: seq<ProductOption>, sel: Selection) {
    forall j :: 0 <= j < |options| ==> IsSet(sel, options[j].key)
  }

  /** `selectedVariantForOptions`. */
  function SelectedVariant(p: Product, sel: Selection): Option<Variant> {
    if SelectionComplete(Required(p), sel) then VariantForSelection(p, Chosen(Required(p), sel)) else None
  }

  // ----- changes -----

  function KeysOf(options: seq<ProductOption>): set<string> {
    set o | o in options :: o.key
  }

  function SetOrDelete(sel: Selection, key: string, value: string): Selection {
    if value != "" then sel[key := One(value)] else sel - {key}
  }

  function Later(p: Product, i: nat): seq<ProductOption> {
    if i + 1 <= |Required(p)| then Required(p)[i + 1..] else []
  }

  function ChangedOption(p: Product, sel: Selection, i: nat, key: string, value: string, clearLater: bool): Selection {
    var next := SetOrDelete(sel, key, value);
    if clearLater then next - KeysOf(Later(p, i)) else next
  }

  function Without(items: seq<string>, value: string): seq<string> {
    if items == [] then []
    else if items[0] == value then Without(items[1..], value)
    else [items[0]] + Without(items[1..], value)
  }

  /** `Array.from(new Set(items))`: the first occurrences, in order. */
  function Distinct(items: seq<string>): seq<string> {
    if items == [] then []
    else
      var before, last := Distinct(items[..|items| - 1]), items[|items| - 1];
      if last in before then before else before + [last]
  }

  /** The list under a key, if there is one. */
  function ItemsAt(sel: Selection, key: string): seq<string> {
    if key in sel && sel[key].Many? then sel[key].items else []
  }

  function ChangedMulti(sel: Selection, key: string, value: string, checked: bool): Selection {
    var current := ItemsAt(sel, key);
    var next := if checked then Distinct(current + [value]) else Without(current, value);
    if next != [] then sel[key := Many(next)] else sel - {key}
  }

  lemma {:induction false} DistinctContents(items: seq<string>)
    ensures forall v :: v in Distinct(items) <==> v in items
    ensures forall i, j :: 0 <= i < j < |Distinct(items)| ==> Distinct(items)[i] != Distinct(items)[j]
  {
    if items != [] {
      DistinctContents(items[..|items| - 1]);
      assert items == items[..|items| - 1] + [items[|items| - 1]];
    }
  }

  lemma {:induction false} WithoutContents(items: seq<string>, value: string)
    ensures forall v :: v in Without(items, value) <==> v in items && v != value
  {
    if items != [] {
      WithoutContents(items[1..], value);
      assert items == [items[0]] + items[1..];
    }
  }

  method FirstOccurrences(items: seq<string>) returns (r: seq<string>)
    ensures r == Distinct(items)
  {
    r := [];
    for n := 0 to |items|
      invariant r == Distinct(items[..n])
    {
      assert items[..n + 1][..n] == items[..n];
      if items[n] !in r {
        r := r + [items[n]];
      }
    }
    assert items[..|items|] == items;
  }

  method OtherEntries(items: seq<string>, value: string) returns (r: seq<string>)
    ensures r == Without(items, value)
  {
    r := [];
    assert items[0..] == items;
    for n := 0 to |items|
      invariant Without(items, value) == r + Without(items[n..], value)
    {
      assert items[n..][1..] == items[n + 1..];
      if items[n] != value {
        r := r + [items[n]];
      }
    }
  }

  /** Checking a value adds it to the list of its key, where it is once; unchecking removes it; a list that
      gets empty goes; other values and other keys stay. */
  lemma ToggledContents(sel: Selection, key: string, value: string, checked: bool)
    ensures var next := ChangedMulti(sel, key, value, checked);
      && (forall v :: v in ItemsAt(next, key) <==> if v == value then checked else v in ItemsAt(sel, key))
      && (checked ==> forall i, j :: 0 <= i < j < |ItemsAt(next, key)| ==>
          ItemsAt(next, key)[i] != ItemsAt(next, key)[j])
      && (key in next ==> next[key].Many? && next[key].items != [])
      && next - {key} == sel - {key}
  {
    DistinctContents(ItemsAt(sel, key) + [value]);
    WithoutContents(ItemsAt(sel, key), value);
  }

  lemma KeysOfNext(options: seq<ProductOption>, j: nat)
    requires j < |options|
    ensures KeysOf(options[..j + 1]) == KeysOf(options[..j]) + {options[j].key}
  {
    assert options[..j + 1] == options[..j] + [options[j]];
  }

  lemma ClearNext(sel: Selection, options: seq<ProductOption>, j: nat)
    requires j < |options|
    ensures sel - KeysOf(options[..j + 1]) == sel - KeysOf(options[..j]) - {options[j].key}
  {
    KeysOfNext(options, j);
  }

  /** The selection as the component holds it. */
  class OptionPicker {
    const product: Product
    var selected: Selection

    constructor (product: Product)
      ensures this.product == product && selected == map[]
    {
      this.product, selected := product, map[];
    }

    method ChangeOptionValue(i: nat, key: string, value: string, clearLater: bool)
      modifies this
      ensures selected == ChangedOption(product, old(selected), i, key, value, clearLater)
    {
      var next := selected;
      if value != "" {
        next := next[key := One(value)];
      } else {
        next := next - {key};
      }
      if clearLater {
        var later := Later(product, i);
        ghost var start := next;
        var j := 0;
        while j < |later|
          invariant 0 <= j <= |later| && next == start - KeysOf(later[..j])
        {
          ClearNext(start, later, j);
          next := next - {later[j].key};
          j := j + 1;
        }
        assert later[..j] == later;
      }
      selected := next;
    }

    method ChangeMultiOptionValue(key: string, value: string, checked: bool)
      modifies this
      ensures selected == ChangedMulti(old(selected), key, value, checked)
    {
      var currentValues: seq<string> := [];
      if key in selected && selected[key].Many? {
        currentValues := selected[key].items;
      }
      var nextValues: seq<string>;
      if checked {
        nextValues := FirstOccurrences(currentValues + [value]);
      } else {
        nextValues := OtherEntries(currentValues, value);
      }
      selected := if nextValues != [] then selected[key := Many(nextValues)] else selected - {key};
    }
  }

  datatype Change =
    | PickRequired(i: nat, value: string)
    | PickOptional(o: ProductOption, value: string)
    | ToggleOptional(o: ProductOption, value: string, checked: bool)

  /** The change is one that an enabled control makes. */
  predicate Enabled(p: Product, sel: Selection, c: Change) {
    match c
    case PickRequired(i, value) =>
      && i < |Required(p)|
      && PreviousOptionsSelected(Required(p), i, sel)
      && (value == "" ||
          exists v :: v in Required(p)[i].values && v.value == value && Selectable(p, Required(p)[i], i, v, sel))
    case PickOptional(o, _) => o in p.options && IsOptional(o)
    case ToggleOptional(o, _, _) => o in p.options && IsOptional(o)
  }

  function Changed(p: Product, sel: Selection, c: Change): Selection
    requires Enabled(p, sel, c)
  {
    match c
    case PickRequired(i, value) => ChangedOption(p, sel, i, Required(p)[i].key, value, true)
    case PickOptional(o, value) => ChangedOption(p, sel, |Required(p)|, o.key, value, false)
    case ToggleOptional(o, value, checked) => ChangedMulti(sel, o.key, value, checked)
  }

  /** An option has at most one control, and none exactly if it is required and neither a variant nor an add-on. */
  lemma OneControl(p: Product, o: ProductOption)
    requires o in p.options
    ensures !(o in Required(p) && IsOptional(o))
    ensures o !in Required(p) && !IsOptional(o) <==> o.required && o.kind == OtherKind
  {
  }

  /** A change of an optional option touches its key alone: a choice is set, or deleted if it is empty; a list gains or
      loses the value. */
  lemma OptionalChangeIs(p: Product, sel: Selection, c: Change)
    requires !c.PickRequired? && Enabled(p, sel, c)
    ensures var next := Changed(p, sel, c); var key := c.o.key;
      && next - {key} == sel - {key}
      && match c
         case PickOptional(_, value) => if value == "" then key !in next else key in next && next[key] == One(value)
         case ToggleOptional(_, value, checked) =>
           && (key in next ==> next[key].Many? && next[key].items != [])
           && forall v :: v in ItemsAt(next, key) <==> if v == value then checked else v in ItemsAt(sel, key)
         case _ => true
  {
    match c
    case ToggleOptional(o, value, checked) => ToggledContents(sel, o.key, value, checked);
    case PickOptional(_, _) => assert Later(p, |Required(p)|) == [];
  }

  predicate IsUse(p: Product, sel: Selection, changes: seq<Change>)
    decreases |changes|
  {
    changes != [] ==> Enabled(p, sel, changes[0]) && IsUse(p, Changed(p, sel, changes[0]), changes[1..])
  }

  function AfterUse(p: Product, sel: Selection, changes: seq<Change>): Selection
    requires IsUse(p, sel, changes)
    decreases |changes|
  {
    if changes == [] then sel else AfterUse(p, Changed(p, sel, changes[0]), changes[1..])
  }

  // ----- products whose variants are complete -----

  predicate Lists(o: ProductOption, text: string) {
    exists v :: v in o.values && (v.value == text || Shown(v) == text)
  }

  ghost predicate DistinctKeys(options: seq<ProductOption>) {
    forall i, j :: 0 <= i < j < |options| ==> options[i].key != options[j].key
  }

  ghost predicate DistinctValues(o: ProductOption) {
    && (forall i, j :: 0 <= i < j < |o.values| ==> o.values[i].value != o.values[j].value)
    && (forall v :: v in o.values ==> v.value != "")
  }

  /** Each variant gives every required option a listed value, and has no other key. */
  ghost predicate WellFormed(p: Product) {
    && DistinctKeys(p.options)
    && p.variants != []
    && (forall o :: o in Required(p) ==> DistinctValues(o))
    && (forall v :: v in p.variants ==> VariantComplete(p, v))
  }

  ghost predicate VariantComplete(p: Product, v: Variant) {
    && v.Keys == KeysOf(Required(p))
    && forall o :: o in Required(p) ==> o.key in v && Lists(o, v[o.key])
  }

  // ----- no dead end -----

  /** The first `k` required options are chosen, the others are not, and some variant agrees. */
  ghost predicate PrefixChosen(p: Product, sel: Selection, k: nat) {
    && k <= |Required(p)|
    && (forall j :: 0 <= j < k ==> IsSet(sel, Required(p)[j].key))
    && (forall j :: k <= j < |Required(p)| ==> Required(p)[j].key !in sel)
    && MatchingVariants(p, Chosen(Required(p)[..k], sel)) != []
  }

  /** The chosen required options are a matched prefix, and there is a value to go on with or a selected variant. */
  ghost predicate NotStuck(p: Product, sel: Selection) {
    exists k :: 0 <= k && PrefixChosen(p, sel, k)
                && (k < |Required(p)| ==>
                      exists v :: v in Required(p)[k].values && v.value != ""
                                  && Selectable(p, Required(p)[k], k, v, sel))
                && (k == |Required(p)| ==> SelectedVariant(p, sel).Some?)
  }

  lemma {:induction false} FilterKeepsDistinct(options: seq<ProductOption>)
    requires DistinctKeys(options)
    ensures DistinctKeys(Filter(options))
  {
    if options != [] {
      assert forall i :: 0 <= i < |options[1..]| ==> options[1..][i] == options[i + 1];
      FilterKeepsDistinct(options[1..]);
      var rest := Filter(options[1..]);
      forall j | 0 <= j < |rest| ensures rest[j].key != options[0].key {
        assert rest[j] in options[1..];
      }
    }
  }

  lemma {:induction false} FindOptionIs(options: seq<ProductOption>, o: ProductOption)
    requires DistinctKeys(options) && o in options
    ensures FindOption(options, o.key) == Some(o)
  {
    assert forall i :: 0 <= i < |options[1..]| ==> options[1..][i] == options[i + 1];
    if options[0] != o {
      var i :| 0 <= i < |options| && options[i] == o;
      assert options[1..][i - 1] == o;
      FindOptionIs(options[1..], o);
    }
  }

  lemma {:induction false} FindValueIs(values: seq<Value>, v: Value)
    requires v in values && forall i, j :: 0 <= i < j < |values| ==> values[i].value != values[j].value
    ensures FindValue(values, v.value) == Some(v)
  {
    assert forall i :: 0 <= i < |values[1..]| ==> values[1..][i] == values[i + 1];
    if values[0] != v {
      var i :| 0 <= i < |values| && values[i] == v;
      assert values[1..][i - 1] == v;
      FindValueIs(values[1..], v);
    }
  }

  /** This is the first listed value with the text. */
  predicate IsFirstWith(o: ProductOption, k: int, text: string) {
    0 <= k < |o.values| && o.values[k].value == text && forall l :: 0 <= l < k ==> o.values[l].value != text
  }

  /** Under the key of the option the variant holds the text, or what the first listed value with it shows. */
  predicate Carries(o: ProductOption, variant: Variant, text: string) {
    var held := if o.key in variant then variant[o.key] else "undefined";
    || held == text
    || exists k :: 0 <= k < |o.values| && IsFirstWith(o, k, text) && o.values[k].displayValue == held != ""
  }

  lemma {:induction false} FindValueFirst(o: ProductOption, n: nat, text: string)
    requires n <= |o.values| && forall l :: 0 <= l < n ==> o.values[l].value != text
    ensures match FindValue(o.values[n..], text)
      case None => forall l :: 0 <= l < |o.values| ==> o.values[l].value != text
      case Some(v) => exists k :: 0 <= k < |o.values| && IsFirstWith(o, k, text) && o.values[k] == v
    decreases |o.values| - n
  {
    if n < |o.values| {
      assert o.values[n..][1..] == o.values[n + 1..];
      if o.values[n].value == text {
        assert IsFirstWith(o, n, text);
      } else {
        FindValueFirst(o, n + 1, text);
      }
    }
  }

  /** A variant agrees with a chosen text exactly when it carries it. */
  lemma AgreesIff(p: Product, o: ProductOption, variant: Variant, text: string)
    requires DistinctKeys(p.options) && o in p.options && text != ""
    ensures Agrees(p, variant, o.key, One(text)) <==> Carries(o, variant, text)
  {
    FindOptionIs(p.options, o);
    FindValueFirst(o, 0, text);
    assert o.values[0..] == o.values;
  }

  /** Choosing keeps the set keys of the options and their choices, nothing else. */
  lemma {:induction false} ChosenIs(options: seq<ProductOption>, sel: Selection)
    ensures forall key :: key in Chosen(options, sel) <==> IsSet(sel, key) && key in KeysOf(options)
    ensures forall key :: key in Chosen(options, sel) ==> key in sel && Chosen(options, sel)[key] == sel[key]
  {
    if options != [] {
      var init, last := options[..|options| - 1], options[|options| - 1];
      ChosenIs(init, sel);
      assert options == init + [last];
      assert KeysOf(options) == KeysOf(init) + {last.key};
    }
  }

  lemma KeysOfPrefix(options: seq<ProductOption>, k: nat, key: string)
    requires k <= |options|
    ensures key in KeysOf(options[..k]) <==> exists j :: 0 <= j < k && options[j].key == key
  {
    if j :| 0 <= j < k && options[j].key == key {
      assert options[..k][j] in options[..k];
    }
  }

  /** A variant agrees with an option's choice of the value it was given, by value or display value. */
  lemma AgreesWithListed(p: Product, o: ProductOption, v: Variant, w: Value)
    requires WellFormed(p) && o in Required(p) && w in o.values
    requires o.key in v && (v[o.key] == w.value || v[o.key] == Shown(w))
    ensures Agrees(p, v, o.key, One(w.value))
  {
    FindOptionIs(p.options, o);
    assert DistinctValues(o);
    FindValueIs(o.values, w);
  }

  /** From a matched prefix the next option has a value that can be selected. */
  lemma NextIsSelectable(p: Product, sel: Selection, k: nat)
    requires WellFormed(p) && PrefixChosen(p, sel, k) && k < |Required(p)|
    ensures exists v :: v in Required(p)[k].values && v.value != "" && Selectable(p, Required(p)[k], k, v, sel)
  {
    var o, chosen := Required(p)[k], Chosen(Required(p)[..k], sel);
    var variant := MatchingVariants(p, chosen)[0];
    assert variant in MatchingVariants(p, chosen);
    assert VariantComplete(p, variant) && o in Required(p);
    var w :| w in o.values && (w.value == variant[o.key] || Shown(w) == variant[o.key]);
    AgreesWithListed(p, o, variant, w);
    assert AgreesOnAll(p, variant, Candidate(p, o, k, w, sel));
    assert variant in MatchingVariants(p, Candidate(p, o, k, w, sel));
    assert Selectable(p, o, k, w, sel);
  }

  lemma LastKeyIsNew(options: seq<ProductOption>)
    requires DistinctKeys(options) && options != []
    ensures options[|options| - 1].key !in KeysOf(options[..|options| - 1])
  {
    var init := options[..|options| - 1];
    forall o | o in init ensures o.key != options[|init|].key {
      var j :| 0 <= j < |init| && init[j] == o;
      assert options[j].key != options[|init|].key;
    }
  }

  lemma {:induction false} KeysCount(options: seq<ProductOption>)
    requires DistinctKeys(options)
    ensures |KeysOf(options)| == |options|
  {
    if options != [] {
      var init, last := options[..|options| - 1], options[|options| - 1];
      KeysCount(init);
      KeysOfNext(options, |init|);
      assert options[..|options|] == options;
      LastKeyIsNew(options);
    }
  }

  lemma CompleteKeys(p: Product, sel: Selection)
    requires DistinctKeys(p.options) && SelectionComplete(Required(p), sel)
    ensures Chosen(Required(p), sel).Keys == KeysOf(Required(p))
    ensures |Chosen(Required(p), sel)| == |Required(p)|
  {
    var required := Required(p);
    FilterKeepsDistinct(p.options);
    KeysCount(required);
    ChosenIs(required, sel);
    forall key | key in KeysOf(required) ensures IsSet(sel, key) {
      var o :| o in required && o.key == key;
      var j :| 0 <= j < |required| && required[j] == o;
    }
    assert |Chosen(required, sel).Keys| == |Chosen(required, sel)|;
  }

  lemma VariantSize(p: Product, v: Variant)
    requires WellFormed(p) && v in p.variants
    ensures |v| == |Required(p)|
  {
    assert VariantComplete(p, v);
    FilterKeepsDistinct(p.options);
    KeysCount(Required(p));
    assert |v.Keys| == |v|;
  }

  /** A complete choice selects a variant, and one that agrees with every choice. */
  lemma CompleteSelectsVariant(p: Product, sel: Selection)
    requires WellFormed(p) && PrefixChosen(p, sel, |Required(p)|)
    ensures SelectedVariant(p, sel).Some?
    ensures SelectedVariant(p, sel).value in p.variants
        && AgreesOnAll(p, SelectedVariant(p, sel).value, Chosen(Required(p), sel))
  {
    var required := Required(p);
    assert required[..|required|] == required;
    var matching := MatchingVariants(p, Chosen(required, sel));
    CompleteKeys(p, sel);
    assert matching[0] in matching;
    VariantSize(p, matching[0]);
    assert FindBySize(matching, |required|).Some?;
  }

  lemma StartIsPrefix(p: Product)
    requires p.variants != []
    ensures PrefixChosen(p, map[], 0)
  {
    assert p.variants[0] in MatchingVariants(p, Chosen(Required(p)[..0], map[]));
  }

  /** Selections with the same required part have the same prefix. */
  lemma SamePrefix(p: Product, a: Selection, b: Selection, k: nat)
    requires PrefixChosen(p, a, k)
    requires forall o :: o in Required(p) ==> (o.key in a <==> o.key in b) && (o.key in a ==> a[o.key] == b[o.key])
    ensures PrefixChosen(p, b, k)
  {
    SameChosen(Required(p)[..k], a, b);
  }

  lemma SameChosen(options: seq<ProductOption>, a: Selection, b: Selection)
    requires forall o :: o in options ==> (o.key in a <==> o.key in b) && (o.key in a ==> a[o.key] == b[o.key])
    ensures Chosen(options, a) == Chosen(options, b)
  {
  }

  lemma OptionalKeyIsOther(p: Product, o: ProductOption)
    requires DistinctKeys(p.options) && o in p.options && IsOptional(o)
    ensures o.key !in KeysOf(Required(p))
  {
    forall r | r in Required(p) ensures r.key != o.key {
      var i :| 0 <= i < |p.options| && p.options[i] == r;
      var j :| 0 <= j < |p.options| && p.options[j] == o;
      assert i != j;
    }
  }

  lemma OptionalKeepsPrefix(p: Product, a: Selection, k: nat, o: ProductOption, b: Selection)
    requires DistinctKeys(p.options) && PrefixChosen(p, a, k) && o in p.options && IsOptional(o)
    requires forall key :: key != o.key ==> (key in a <==> key in b) && (key in a && key in b ==> a[key] == b[key])
    ensures PrefixChosen(p, b, k)
  {
    OptionalKeyIsOther(p, o);
    forall r | r in Required(p) ensures r.key != o.key {
      assert r.key in KeysOf(Required(p));
    }
    SamePrefix(p, a, b, k);
  }

  /** After a change at option `i`, the earlier required keys are as before and the later ones gone. */
  lemma ChangedKeys(p: Product, sel: Selection, i: nat, value: string)
    requires DistinctKeys(p.options) && i < |Required(p)|
    ensures var b := ChangedOption(p, sel, i, Required(p)[i].key, value, true);
            && (forall j :: 0 <= j < i ==> SameAt(sel, b, Required(p)[j].key))
            && (forall j :: i < j < |Required(p)| ==> Required(p)[j].key !in b)
            && (if value != "" then Required(p)[i].key in b && b[Required(p)[i].key] == One(value)
                else Required(p)[i].key !in b)
  {
    FilterKeepsDistinct(p.options);
    LaterKeys(Required(p), i);
  }

  lemma LaterKeys(required: seq<ProductOption>, i: nat)
    requires DistinctKeys(required) && i < |required|
    ensures forall j :: 0 <= j <= i ==> required[j].key !in KeysOf(required[i + 1..])
    ensures forall j :: i < j < |required| ==> required[j].key in KeysOf(required[i + 1..])
  {
  }

  predicate SameAt(a: Selection, b: Selection, key: string) {
    (key in a <==> key in b) && (key in a && key in b ==> a[key] == b[key])
  }

  lemma {:induction false} SamePrefixChosen(required: seq<ProductOption>, i: nat, a: Selection, b: Selection)
    requires i <= |required| && forall j :: 0 <= j < i ==> SameAt(a, b, required[j].key)
    ensures Chosen(required[..i], a) == Chosen(required[..i], b)
  {
    if i > 0 {
      assert required[..i][..i - 1] == required[..i - 1];
      assert SameAt(a, b, required[i - 1].key);
      SamePrefixChosen(required, i - 1, a, b);
    }
  }

  lemma ChosenNext(required: seq<ProductOption>, i: nat, sel: Selection, b: Selection, value: string)
    requires i < |required| && forall j :: 0 <= j < i ==> SameAt(sel, b, required[j].key)
    requires value != "" && required[i].key in b && b[required[i].key] == One(value)
    ensures Chosen(required[..i + 1], b) == Chosen(required[..i], sel)[required[i].key := One(value)]
  {
    SamePrefixChosen(required, i, sel, b);
    assert required[..i + 1][..i] == required[..i];
  }

  lemma PickKeepsPrefix(p: Product, sel: Selection, k: nat, i: nat, value: string)
    requires DistinctKeys(p.options) && PrefixChosen(p, sel, k)
    requires Enabled(p, sel, PickRequired(i, value)) && value != ""
    ensures PrefixChosen(p, Changed(p, sel, PickRequired(i, value)), i + 1)
  {
    var required, b := Required(p), Changed(p, sel, PickRequired(i, value));
    var v :| v in required[i].values && v.value == value && Selectable(p, required[i], i, v, sel);
    ChangedKeys(p, sel, i, value);
    ChosenNext(required, i, sel, b, value);
    StillSet(required, i, sel, b, value);
    assert Chosen(required[..i + 1], b) == Candidate(p, required[i], i, v, sel);
    assert required[i] in required && required[i].kind.VariantKind?;
  }

  lemma StillSet(required: seq<ProductOption>, i: nat, sel: Selection, b: Selection, value: string)
    requires i < |required| && forall j :: 0 <= j < i ==> SameAt(sel, b, required[j].key) && IsSet(sel, required[j].key)
    requires value != "" && required[i].key in b && b[required[i].key] == One(value)
    ensures forall j :: 0 <= j < i + 1 ==> IsSet(b, required[j].key)
  {
    forall j | 0 <= j < i + 1 ensures IsSet(b, required[j].key) {
      assert j < i ==> SameAt(sel, b, required[j].key) && IsSet(sel, required[j].key);
    }
  }

  /** A variant that agrees with a longer prefix agrees with a shorter one. */
  lemma ShorterPrefixMatches(p: Product, sel: Selection, i: nat, k: nat)
    requires i <= k <= |Required(p)| && MatchingVariants(p, Chosen(Required(p)[..k], sel)) != []
    ensures MatchingVariants(p, Chosen(Required(p)[..i], sel)) != []
  {
    var longer, shorter := Chosen(Required(p)[..k], sel), Chosen(Required(p)[..i], sel);
    ChosenIs(Required(p)[..k], sel);
    ChosenIs(Required(p)[..i], sel);
    var v := MatchingVariants(p, longer)[0];
    assert v in MatchingVariants(p, longer);
    forall key | key in shorter ensures key in longer && longer[key] == shorter[key] {
      KeysOfPrefix(Required(p), i, key);
      KeysOfPrefix(Required(p), k, key);
    }
    assert AgreesOnAll(p, v, shorter);
    assert v in MatchingVariants(p, shorter);
  }

  lemma ClearKeepsPrefix(p: Product, sel: Selection, k: nat, i: nat)
    requires DistinctKeys(p.options) && PrefixChosen(p, sel, k) && Enabled(p, sel, PickRequired(i, ""))
    ensures PrefixChosen(p, Changed(p, sel, PickRequired(i, "")), i)
  {
    var required, b := Required(p), Changed(p, sel, PickRequired(i, ""));
    ChangedKeys(p, sel, i, "");
    SamePrefixChosen(required, i, sel, b);
    assert i <= k by {
      assert k < i ==> IsSet(sel, required[k].key);
    }
    ShorterPrefixMatches(p, sel, i, k);
    forall j | 0 <= j < i ensures IsSet(b, required[j].key) {
      assert SameAt(sel, b, required[j].key) && IsSet(sel, required[j].key);
    }
  }

  /** Every change that an enabled control makes keeps a matched prefix. */
  lemma ChangeKeepsPrefix(p: Product, sel: Selection, k: nat, c: Change) returns (k': nat)
    requires DistinctKeys(p.options) && PrefixChosen(p, sel, k) && Enabled(p, sel, c)
    ensures PrefixChosen(p, Changed(p, sel, c), k')
  {
    match c
    case PickRequired(i, value) =>
      if value == "" {
        ClearKeepsPrefix(p, sel, k, i);
        k' := i;
      } else {
        PickKeepsPrefix(p, sel, k, i, value);
        k' := i + 1;
      }
    case PickOptional(o, value) =>
      OptionalKeepsPrefix(p, sel, k, o, Changed(p, sel, c));
      k' := k;
    case ToggleOptional(o, value, checked) =>
      OptionalKeepsPrefix(p, sel, k, o, Changed(p, sel, c));
      k' := k;
  }

  lemma PrefixIsNotStuck(p: Product, sel: Selection, k: nat)
    requires WellFormed(p) && PrefixChosen(p, sel, k)
    ensures NotStuck(p, sel)
  {
    if k < |Required(p)| {
      NextIsSelectable(p, sel, k);
    } else {
      CompleteSelectsVariant(p, sel);
    }
  }

  lemma {:induction false} UseKeepsPrefix(p: Product, sel: Selection, k: nat, changes: seq<Change>) returns (k': nat)
    requires DistinctKeys(p.options) && PrefixChosen(p, sel, k) && IsUse(p, sel, changes)
    ensures PrefixChosen(p, AfterUse(p, sel, changes), k')
    decreases |changes|
  {
    if changes == [] {
      k' := k;
    } else {
      var next := ChangeKeepsPrefix(p, sel, k, changes[0]);
      k' := UseKeepsPrefix(p, Changed(p, sel, changes[0]), next, changes[1..]);
    }
  }

  /** With complete variants selection never dead-ends: after any enabled changes the chosen required options
      form a prefix that a variant matches, the next option offers a selectable value, and a complete choice
      selects a variant. */
  lemma NoDeadEnd(p: Product, changes: seq<Change>)
    requires WellFormed(p) && IsUse(p, map[], changes)
    ensures NotStuck(p, AfterUse(p, map[], changes))
  {
    StartIsPrefix(p);
    var k := UseKeepsPrefix(p, map[], 0, changes);
    PrefixIsNotStuck(p, AfterUse(p, map[], changes), k);
  }

  /** An example where variants do not cover every required option: with only one, that leaves the second option
      open, the first choice leads to a state where nothing can be selected. */
  lemma IncompleteVariantDeadEnds(a: string, b: string, v: Value, w: Value)
    requires a != b && v.value != "" && w.value != "" && w.value != "undefined" && Shown(w) != "undefined"
    ensures var first := ProductOption(a, true, VariantKind, [v]);
            var second := ProductOption(b, true, VariantKind, [w]);
            var p := Product([first, second], [map[a := v.value]]);
            var sel := map[a := One(v.value)];
            && Enabled(p, map[], PickRequired(0, v.value))
            && Changed(p, map[], PickRequired(0, v.value)) == sel
            && !Selectable(p, second, 1, w, sel)
            && SelectedVariant(p, sel).None?
  {
    var first := ProductOption(a, true, VariantKind, [v]);
    var second := ProductOption(b, true, VariantKind, [w]);
    var variant := map[a := v.value];
    var p := Product([first, second], [variant]);
    var sel: Selection := map[a := One(v.value)];
    assert Filter([second]) == [second] + Filter([]);
    assert Filter([first, second]) == [first] + Filter([second]);
    assert Required(p) == [first, second];
    var c0 := Candidate(p, first, 0, v, map[]);
    assert c0 == map[a := One(v.value)];
    assert AgreesOnAll(p, variant, c0);
    assert variant in MatchingVariants(p, c0);
    assert v in first.values && Selectable(p, first, 0, v, map[]);
    assert Later(p, 0) == [second];
    assert KeysOf([second]) == {b};
    var c1 := Candidate(p, second, 1, w, sel);
    assert c1[b] == One(w.value) && IsSet(c1, b);
    assert FindOption([first, second], b) == Some(second);
    assert !Agrees(p, variant, b, One(w.value));
    assert variant !in MatchingVariants(p, c1);
    assert !IsSet(sel, Required(p)[1].key);
    assert Enabled(p, map[], PickRequired(0, v.value));
    assert SetOrDelete(map[], a, v.value) == sel;
    assert sel - KeysOf(Later(p, 0)) == sel;
    assert Changed(p, map[], PickRequired(0, v.value)) == sel;
    assert Matching(p, [variant], c1) == Matching(p, [], c1) == [];
    assert !Selectable(p, second, 1, w, sel);
    assert SelectedVariant(p, sel).None?;
  }
}
