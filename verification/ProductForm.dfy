/**
 The rows of the product form as a whole (frontend/components/MerchantDashboard.jsx): from the options that
 the form holds, usable or not, to the variants that its rows are given.
 */
module ProductForm {
  import opened Wrappers
  import opened TextTools
  import opened VariantCombinations

  /** The option takes part: it is a variant option with a key and a usable value. */
  predicate IsUsable(o: ProductOption) {
    o.isVariant && HasText(o.key) && FilterValues(o.values) != []
  }

  predicate IsUsableValue(v: OptionValue) {
    HasText(v.value) && HasText(v.displayValue)
  }

  /** The option with its usable values only. */
  function Trimmed(o: ProductOption): ProductOption {
    o.(values := FilterValues(o.values))
  }

  // ----- what filtering keeps -----

  lemma {:induction false} RequiredAppend(a: seq<ProductOption>, b: seq<ProductOption>)
    ensures RequiredOptions(a + b) == RequiredOptions(a) + RequiredOptions(b)
  {
    if a == [] {
      assert a + b == b;
    } else {
      assert (a + b)[1..] == a[1..] + b;
      RequiredAppend(a[1..], b);
    }
  }

  /** The options that take part are the usable ones, each with its usable values. */
  lemma {:induction false} RequiredMembers(options: seq<ProductOption>)
    ensures forall r :: r in RequiredOptions(options) <==> ComesFrom(r, options)
  {
    if options != [] {
      RequiredMembers(options[1..]);
      forall r ensures ComesFrom(r, options) <==>
          ComesFrom(r, options[1..]) || (IsUsable(options[0]) && Trimmed(options[0]) == r) {
        assert forall o :: o in options <==> o == options[0] || o in options[1..];
      }
    }
  }

  predicate ComesFrom(r: ProductOption, options: seq<ProductOption>) {
    exists o :: o in options && IsUsable(o) && Trimmed(o) == r
  }

  lemma RequiredIsNonEmpty(options: seq<ProductOption>)
    ensures NonEmpty(RequiredOptions(options))
  {
  }

  /** No two usable options share a key. */
  ghost predicate DistinctUsableKeys(options: seq<ProductOption>) {
    forall i, j :: 0 <= i < j < |options| && IsUsable(options[i]) && IsUsable(options[j]) ==>
        options[i].key != options[j].key
  }

  lemma {:induction false} RequiredKeysIff(options: seq<ProductOption>)
    ensures DistinctKeys(RequiredOptions(options)) <==> DistinctUsableKeys(options)
  {
    if options != [] {
      var tail := options[1..];
      RequiredKeysIff(tail);
      RequiredMembers(tail);
      KeysFirst(options);
      if IsUsable(options[0]) {
        RequiredKeysFirst(Trimmed(options[0]), RequiredOptions(tail));
        assert (forall r :: r in RequiredOptions(tail) ==> r.key != options[0].key) <==>
               (forall o :: o in tail && IsUsable(o) ==> o.key != options[0].key) by {
          FirstKeyIff(options[0].key, tail);
        }
      }
    }
  }

  lemma KeysFirst(options: seq<ProductOption>)
    requires options != []
    ensures DistinctUsableKeys(options) <==>
      && DistinctUsableKeys(options[1..])
      && (IsUsable(options[0]) ==> forall o :: o in options[1..] && IsUsable(o) ==> o.key != options[0].key)
  {
  }

  lemma RequiredKeysFirst(r: ProductOption, rest: seq<ProductOption>)
    ensures DistinctKeys([r] + rest) <==> DistinctKeys(rest) && forall o :: o in rest ==> o.key != r.key
  {
    var all := [r] + rest;
    assert forall i :: 0 <= i < |rest| ==> all[i + 1] == rest[i];
    if DistinctKeys(all) {
      forall i, j | 0 <= i < j < |rest| ensures rest[i].key != rest[j].key {
        assert all[i + 1].key != all[j + 1].key;
      }
      forall o | o in rest ensures o.key != r.key {
        var i :| 0 <= i < |rest| && rest[i] == o;
        assert all[0].key != all[i + 1].key;
      }
    }
  }

  lemma FirstKeyIff(key: string, tail: seq<ProductOption>)
    ensures (forall r :: r in RequiredOptions(tail) ==> r.key != key) <==>
        (forall o :: o in tail && IsUsable(o) ==> o.key != key)
  {
  }

  /** No usable option lists a usable value twice. */
  ghost predicate DistinctUsableValues(options: seq<ProductOption>) {
    forall o :: o in options && IsUsable(o) ==> UsableValuesDiffer(o.values)
  }

  ghost predicate UsableValuesDiffer(values: seq<OptionValue>) {
    forall a, b :: 0 <= a < b < |values| && IsUsableValue(values[a]) && IsUsableValue(values[b]) ==>
        values[a].value != values[b].value
  }

  lemma {:induction false} FilteredMembers(values: seq<OptionValue>)
    ensures forall v :: v in FilterValues(values) <==> v in values && IsUsableValue(v)
  {
    if values != [] {
      FilteredMembers(values[1..]);
      assert forall v :: v in values <==> v == values[0] || v in values[1..];
    }
  }

  ghost predicate AllDiffer(values: seq<OptionValue>) {
    forall a, b :: 0 <= a < b < |values| ==> values[a].value != values[b].value
  }

  lemma {:induction false} FilteredDifferIff(values: seq<OptionValue>)
    ensures AllDiffer(FilterValues(values)) <==> UsableValuesDiffer(values)
  {
    if values != [] {
      var tail, rest := values[1..], FilterValues(values[1..]);
      FilteredDifferIff(tail);
      FilteredMembers(tail);
      ValuesFirst(values);
      if IsUsableValue(values[0]) {
        DifferFirst(values[0], rest);
      }
    }
  }

  lemma ValuesFirst(values: seq<OptionValue>)
    requires values != []
    ensures UsableValuesDiffer(values) <==>
      && UsableValuesDiffer(values[1..])
      && (IsUsableValue(values[0]) ==> forall v :: v in values[1..] && IsUsableValue(v) ==> v.value != values[0].value)
  {
  }

  lemma DifferFirst(v: OptionValue, rest: seq<OptionValue>)
    ensures AllDiffer([v] + rest) <==> AllDiffer(rest) && forall w :: w in rest ==> w.value != v.value
  {
    var all := [v] + rest;
    assert forall i :: 0 <= i < |rest| ==> all[i + 1] == rest[i];
    if AllDiffer(all) {
      forall a, b | 0 <= a < b < |rest| ensures rest[a].value != rest[b].value {
        assert all[a + 1].value != all[b + 1].value;
      }
      forall w | w in rest ensures w.value != v.value {
        var i :| 0 <= i < |rest| && rest[i] == w;
        assert all[0].value != all[i + 1].value;
      }
    }
  }

  ghost predicate AllDistinctValues(options: seq<ProductOption>) {
    forall k :: 0 <= k < |options| ==> DistinctValues(options[k])
  }

  lemma RequiredValuesIff(options: seq<ProductOption>)
    ensures AllDistinctValues(RequiredOptions(options)) <==> DistinctUsableValues(options)
  {
    var required := RequiredOptions(options);
    RequiredMembers(options);
    if DistinctUsableValues(options) {
      forall k | 0 <= k < |required| ensures DistinctValues(required[k]) {
        assert required[k] in required && ComesFrom(required[k], options);
        var o :| o in options && IsUsable(o) && Trimmed(o) == required[k];
        FilteredDifferIff(o.values);
        assert AllDiffer(required[k].values);
      }
    }
    if AllDistinctValues(required) {
      forall o | o in options && IsUsable(o) ensures UsableValuesDiffer(o.values) {
        assert ComesFrom(Trimmed(o), options) && Trimmed(o) in required;
        var k :| 0 <= k < |required| && required[k] == Trimmed(o);
        assert DistinctValues(required[k]) && AllDiffer(required[k].values);
        FilteredDifferIff(o.values);
      }
    }
  }

  lemma Removed<T>(a: seq<T>, b: seq<T>, j: nat)
    requires multiset(a) == multiset(b) && a != [] && j < |b| && b[j] == a[0]
    ensures multiset(a[1..]) == multiset(b[..j] + b[j + 1..])
  {
    assert a == [a[0]] + a[1..] && b == b[..j] + [b[j]] + b[j + 1..];
    assert multiset(a) == multiset([a[0]]) + multiset(a[1..]);
    assert multiset(b) == multiset(b[..j]) + multiset([b[j]]) + multiset(b[j + 1..]);
    assert multiset(a[1..]) == multiset(a) - multiset([a[0]]);
  }

  lemma RequiredInserted(before: seq<ProductOption>, o: ProductOption, after: seq<ProductOption>)
    ensures multiset(RequiredOptions(before + ([o] + after))) ==
      multiset(RequiredOptions([o])) + multiset(RequiredOptions(before + after))
  {
    RequiredAppend(before, after);
    RequiredAppend(before, [o] + after);
    RequiredAppend([o], after);
  }

  /** Filtering commutes with reordering. */
  lemma {:induction false} RequiredReordered(a: seq<ProductOption>, b: seq<ProductOption>)
    requires multiset(a) == multiset(b)
    ensures multiset(RequiredOptions(a)) == multiset(RequiredOptions(b))
    decreases |a|
  {
    if a != [] {
      assert a[0] in multiset(b);
      var j :| 0 <= j < |b| && b[j] == a[0];
      var before, after := b[..j], b[j + 1..];
      assert b == before + ([a[0]] + after) && a == [a[0]] + a[1..];
      Removed(a, b, j);
      RequiredReordered(a[1..], before + after);
      RequiredInserted(before, a[0], after);
      RequiredAppend([a[0]], a[1..]);
    } else {
      assert |multiset(b)| == |b| == 0;
    }
  }

  // ----- the rows -----

  /** No row without a usable option; otherwise as many as the numbers of usable values multiply to. */
  lemma RowCount(options: seq<ProductOption>)
    ensures |CombinationRows(options)| ==
      if exists o :: o in options && IsUsable(o) then Product(RequiredOptions(options)) else 0
  {
    RequiredMembers(options);
    RequiredIsNonEmpty(options);
    CombinationCount(RequiredOptions(options));
    var required := RequiredOptions(options);
    if o :| o in options && IsUsable(o) {
      assert ComesFrom(Trimmed(o), options) && Trimmed(o) in required;
    }
    assert required != [] ==> required[0] in required && ComesFrom(required[0], options);
  }

  /** Row `i` is the mixed-radix expansion of `i` over the usable options: labels and sum always, and every
      entry if the usable options have distinct keys. */
  lemma RowOfIndex(options: seq<ProductOption>, i: nat)
    requires i < |CombinationRows(options)|
    ensures var required := RequiredOptions(options);
      && i < Product(required) && HoldsLast(CombinationRows(options)[i], required, Digits(required, i))
      && (DistinctUsableKeys(options) ==> Holds(CombinationRows(options)[i], required, Digits(required, i)))
  {
    var required := RequiredOptions(options);
    CombinationCount(required);
    RowAtLast(required, i);
    RequiredKeysIff(options);
    if DistinctUsableKeys(options) {
      RowAt(required, i);
    }
  }

  /** Every choice of one usable value per usable option appears in exactly one row. */
  lemma EveryUsableChoiceOnce(options: seq<ProductOption>, d: seq<nat>)
    requires CombinationRows(options) != [] && IsChoice(RequiredOptions(options), d)
    ensures var required := RequiredOptions(options);
      exists i: nat :: i < |CombinationRows(options)| && Digits(required, i) == d
        && HoldsLast(CombinationRows(options)[i], required, d)
        && forall j: nat :: j < |CombinationRows(options)| && Digits(required, j) == d ==> i == j
  {
    var required := RequiredOptions(options);
    IndexOfDigits(required, d);
    var i := Index(required, d);
    CombinationCount(required);
    RowOfIndex(options, i);
    OnlyIndex(required, d);
  }

  /** With distinct keys, the rows have distinct option values exactly when no usable option lists a usable
      value twice. */
  lemma DistinctRowsIff(options: seq<ProductOption>)
    requires DistinctUsableKeys(options)
    ensures DistinctRows(CombinationRows(options)) <==>
        (CombinationRows(options) == [] || DistinctUsableValues(options))
    ensures DistinctUsableValues(options) ==> DistinctRows(CombinationRows(options))
  {
    RequiredKeysIff(options);
    RequiredValuesIff(options);
    if CombinationRows(options) != [] {
      RowsDistinctIff(RequiredOptions(options));
    }
  }

  // ----- the variants of the rows -----

  /** `requiredOptionCombinations`: the rows, and the existing variant that each of them is given. */
  method RequiredOptionCombinations(options: seq<ProductOption>, variants: seq<Variant>, editing: bool,
                                    lower: string -> string)
    returns (rows: seq<Row>, given: seq<Option<Variant>>)
    ensures rows == CombinationRows(options)
    ensures given == GivenTo(FormOf(variants, rows, editing, lower), rows)
  {
    rows := CombinationRows(options);
    given := ReuseVariants(Choosing(FormOf(variants, rows, editing, lower)), rows);
    GivenToIs(FormOf(variants, rows, editing, lower), rows, given);
  }

  function FormOf(variants: seq<Variant>, rows: seq<Row>, editing: bool, lower: string -> string): Form {
    Form(variants, |rows|, editing, lower)
  }

  function GivenTo(f: Form, rows: seq<Row>): (given: seq<Option<Variant>>)
    ensures |given| == |rows|
  {
    seq(|rows|, k requires 0 <= k < |rows| => Given(Choosing(f), rows, k))
  }

  lemma GivenToIs(f: Form, rows: seq<Row>, given: seq<Option<Variant>>)
    requires |given| == |rows| && forall k :: 0 <= k < |rows| ==> given[k] == Given(Choosing(f), rows, k)
    ensures given == GivenTo(f, rows)
  {
  }

  ghost predicate AllGetOwn(f: Form, rows: seq<Row>) {
    forall k :: 0 <= k < |rows| ==> GetsOwn(f, rows[k], GivenTo(f, rows)[k])
  }

  /** All rows are given their own variants exactly when every row has one. */
  lemma AllGetOwnIff(f: Form, options: seq<ProductOption>)
    requires DistinctUsableKeys(options) && DistinctUsableValues(options) && DistinctVariants(Saved(f))
    ensures var rows := CombinationRows(options);
      AllGetOwn(f, rows) <==> forall k :: 0 <= k < |rows| ==> HasOwn(f, rows[k])
  {
    var rows := CombinationRows(options);
    DistinctRowsIff(options);
    if forall k :: 0 <= k < |rows| ==> HasOwn(f, rows[k]) {
      forall k | 0 <= k < |rows| ensures GetsOwn(f, rows[k], GivenTo(f, rows)[k]) {
        EachRowKeepsItsOwn(f, rows, k);
      }
    }
    if AllGetOwn(f, rows) {
      forall k | 0 <= k < |rows| ensures HasOwn(f, rows[k]) {
        assert IsOwn(f, rows[k], GivenTo(f, rows)[k].value);
      }
    }
  }

  /** The options of the form in another order: rows with the same option values come out. */
  lemma ReorderedRows(options: seq<ProductOption>, reordered: seq<ProductOption>, k: nat) returns (j: nat)
    requires DistinctUsableKeys(options) && DistinctUsableKeys(reordered) && multiset(options) == multiset(reordered)
    requires k < |CombinationRows(reordered)|
    ensures j < |CombinationRows(options)|
        && CombinationRows(options)[j].optionValues == CombinationRows(reordered)[k].optionValues
  {
    var a, b := RequiredOptions(options), RequiredOptions(reordered);
    RequiredReordered(options, reordered);
    RequiredKeysIff(options);
    RequiredKeysIff(reordered);
    forall o ensures o in a <==> o in b {
      assert o in multiset(a) <==> o in multiset(b);
    }
    assert a != [] by {
      assert b[0] in a;
    }
    var m := CombinationRows(reordered)[k].optionValues;
    assert IsRowMap(m, b);
    RowMapIff(m, b);
    FitsReordered(m, b, a);
    RowMapIff(m, a);
    j :| 0 <= j < |Combinations(a)| && Combinations(a)[j].optionValues == m;
  }

  /** Reordering the options of a saved product, whatever unusable ones are among them, keeps every variant:
      if each row had a variant with its option values, each new row is given the one with its own, and no two
      rows the same. */
  lemma ReorderedFormKeepsVariants(f: Form, options: seq<ProductOption>, reordered: seq<ProductOption>)
    requires DistinctUsableKeys(options) && DistinctUsableValues(options) && DistinctVariants(Saved(f))
    requires multiset(options) == multiset(reordered)
    requires forall k :: 0 <= k < |CombinationRows(options)| ==> HasOwn(f, CombinationRows(options)[k])
    ensures var rows := CombinationRows(reordered);
      && AllGetOwn(f, rows)
      && forall a, b :: 0 <= a < b < |rows| ==> GivenTo(f, rows)[a] != GivenTo(f, rows)[b]
  {
    var rows := CombinationRows(reordered);
    ReorderedIsDistinct(options, reordered);
    forall k | 0 <= k < |rows| ensures HasOwn(f, rows[k]) {
      var j := ReorderedRows(options, reordered, k);
      var v :| IsOwn(f, CombinationRows(options)[j], v);
      assert IsOwn(f, rows[k], v);
    }
    AllGetOwnIff(f, reordered);
    forall a, b | 0 <= a < b < |rows| ensures GivenTo(f, rows)[a] != GivenTo(f, rows)[b] {
      ReuseIsInjective(f, rows, a, b);
    }
  }

  lemma OneOptionRows(o: ProductOption, a: OptionValue, b: OptionValue)
    requires o == ProductOption(o.key, true, [a, b]) && HasText(o.key) && IsUsableValue(a) && IsUsableValue(b)
    ensures var rows := CombinationRows([o]);
      && |rows| == 2 && rows[0].optionValues == map[o.key := a.value] && rows[1].optionValues == map[o.key := b.value]
      && rows[0].displayOptionValues == map[o.key := a.displayValue]
  {
    assert [a, b][1..] == [b] && FilterValues([b]) == [b] + FilterValues([]);
    assert FilterValues(o.values) == [a] + FilterValues([b]) == o.values;
    assert o.(values := FilterValues(o.values)) == o && [o][1..] == [];
    assert RequiredOptions([o]) == [o] + RequiredOptions([]);
    assert Combinations([o]) == FlatMap(Combinations([]), o);
  }

  lemma OnlySaved(v: Variant)
    requires v.publicVariantId != ""
    ensures Existing([v]) == [v]
  {
    assert Existing([v]) == [v] + Existing([]);
  }

  lemma TwoRowsLose(f: Form, rows: seq<Row>, v: Variant)
    requires Saved(f) == [v] && |rows| == 2 && rows[1].optionValues == v.optionValues
    requires rows[0].optionValues != v.optionValues && rows[0].displayOptionValues == v.optionValues
    ensures IsOwn(f, rows[1], v) && GivenTo(f, rows)[0] == Some(v) && GivenTo(f, rows)[1] != Some(v)
  {
    assert rows == [rows[0], rows[1]];
    LaterExactMatchIsLost(f, v, rows[0], rows[1]);
  }

  /** A row need not get the variant with its own option values: where a value is shown as the next one is stored,
      the variant saved for the next goes to the first, although keys and values are distinct. */
  lemma LaterVariantIsLost(key: string, a: OptionValue, b: OptionValue, v: Variant, editing: bool,
                           lower: string -> string)
    requires HasText(key) && IsUsableValue(a) && IsUsableValue(b) && a.value != b.value && a.displayValue == b.value
    requires v.publicVariantId != "" && v.optionValues == map[key := b.value]
    ensures var options := [ProductOption(key, true, [a, b])]; var rows := CombinationRows(options);
      var f := FormOf([v], rows, editing, lower);
      && DistinctUsableKeys(options) && DistinctUsableValues(options) && |rows| == 2
      && IsOwn(f, rows[1], v) && GivenTo(f, rows)[0] == Some(v) && GivenTo(f, rows)[1] != Some(v)
  {
    var o := ProductOption(key, true, [a, b]);
    OneOptionRows(o, a, b);
    OnlySaved(v);
    var rows := CombinationRows([o]);
    assert rows[0].optionValues[key] != v.optionValues[key];
    TwoRowsLose(FormOf([v], rows, editing, lower), rows, v);
  }

  lemma ReorderedIsDistinct(options: seq<ProductOption>, reordered: seq<ProductOption>)
    requires DistinctUsableKeys(options) && DistinctUsableValues(options) && multiset(options) == multiset(reordered)
    ensures DistinctUsableKeys(reordered) && DistinctUsableValues(reordered)
  {
    forall o ensures o in options <==> o in reordered {
      assert o in multiset(options) <==> o in multiset(reordered);
    }
    ReorderedKeys(options, reordered);
  }

  lemma InsertedKeys(options: seq<ProductOption>, j: nat)
    requires j < |options| && DistinctUsableKeys(options[..j] + options[j + 1..])
    requires forall o :: o in options[..j] + options[j + 1..] && IsUsable(o) && IsUsable(options[j]) ==>
      o.key != options[j].key
    ensures DistinctUsableKeys(options)
  {
    var rest := options[..j] + options[j + 1..];
    forall i, k | 0 <= i < k < |options| && IsUsable(options[i]) && IsUsable(options[k])
        ensures options[i].key != options[k].key {
      if i == j {
        assert options[k] == rest[k - 1] && rest[k - 1] in rest;
      } else if k == j {
        assert options[i] == rest[i] && rest[i] in rest;
      } else {
        assert options[i] == rest[if i < j then i else i - 1] && options[k] == rest[if k < j then k else k - 1];
      }
    }
  }

  lemma {:induction false} ReorderedKeys(options: seq<ProductOption>, reordered: seq<ProductOption>)
    requires DistinctUsableKeys(options) && multiset(options) == multiset(reordered)
    ensures DistinctUsableKeys(reordered)
    decreases |options|
  {
    if options != [] {
      assert options[0] in multiset(reordered);
      var j :| 0 <= j < |reordered| && reordered[j] == options[0];
      var rest := reordered[..j] + reordered[j + 1..];
      Removed(options, reordered, j);
      KeysFirst(options);
      ReorderedKeys(options[1..], rest);
      forall o ensures o in options[1..] <==> o in rest {
        assert o in multiset(options[1..]) <==> o in multiset(rest);
      }
      InsertedKeys(reordered, j);
    } else {
      assert |multiset(reordered)| == |reordered| == 0;
    }
  }
}
