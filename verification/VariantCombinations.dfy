/**
 The option combinations of a product form and the reuse of existing variants for them
 (frontend/components/MerchantDashboard.jsx).
 */
module VariantCombinations {
  import opened Wrappers
  import opened TextTools
  import opened Arithmetic
  import S = StringSets

  // ----- combinations -----

  /** A number field of a form: `Number(value)`, which may not be finite. */
  datatype Amount = NotFinite | Finite(value: real)

  datatype OptionValue = OptionValue(value: string, displayValue: string, priceDelta: Amount)

  datatype ProductOption = ProductOption(key: string, isVariant: bool, values: seq<OptionValue>)

  datatype Row = Row(labels: seq<string>, optionValues: map<string, string>,
                     displayOptionValues: map<string, string>, priceDelta: real)

  function OptionAmount(a: Amount): real {
    if a.Finite? && a.value > 0.0 then a.value else 0.0
  }

  function FilterValues(values: seq<OptionValue>): (r: seq<OptionValue>)
    ensures forall i :: 0 <= i < |r| ==> HasText(r[i].value) && HasText(r[i].displayValue)
  {
    if values == [] then []
    else
      var rest := FilterValues(values[1..]);
      if HasText(values[0].value) && HasText(values[0].displayValue) then [values[0]] + rest else rest
  }

  /** The options that take part: variant options with a key and at least one usable value. */
  function RequiredOptions(options: seq<ProductOption>): (r: seq<ProductOption>)
    ensures forall i :: 0 <= i < |r| ==> r[i].isVariant && |r[i].values| > 0
  {
    if options == [] then []
    else
      var rest := RequiredOptions(options[1..]);
      var o := options[0].(values := FilterValues(options[0].values));
      if o.isVariant && HasText(o.key) && o.values != [] then [o] + rest else rest
  }

  function Extend(row: Row, key: string, v: OptionValue): Row {
    Row(row.labels + [v.displayValue], row.optionValues[key := v.value],
        row.displayOptionValues[key := v.displayValue], row.priceDelta + OptionAmount(v.priceDelta))
  }

  const EMPTY_ROW := Row([], map[], map[], 0.0)

  function ExtendAll(row: Row, key: string, values: seq<OptionValue>): seq<Row> {
    seq(|values|, i requires 0 <= i < |values| => Extend(row, key, values[i]))
  }

  /** `rows.flatMap(row => option.values.map(...))`. */
  function FlatMap(rows: seq<Row>, o: ProductOption): seq<Row> {
    if rows == [] then [] else ExtendAll(rows[0], o.key, o.values) + FlatMap(rows[1..], o)
  }

  /** The `reduce` over the options, from the single empty row. */
  function Combinations(options: seq<ProductOption>): seq<Row> {
    if options == [] then [EMPTY_ROW]
    else FlatMap(Combinations(options[..|options| - 1]), options[|options| - 1])
  }

  /** `requiredOptionCombinations` up to the reuse of variants. */
  function CombinationRows(options: seq<ProductOption>): seq<Row> {
    var required := RequiredOptions(options);
    if required == [] then [] else Combinations(required)
  }

  // ----- mixed radix -----

  function Product(options: seq<ProductOption>): nat {
    if options == [] then 1 else Product(options[..|options| - 1]) * |options[|options| - 1].values|
  }

  ghost predicate NonEmpty(options: seq<ProductOption>) {
    forall i :: 0 <= i < |options| ==> |options[i].values| > 0
  }

  /** The digits of `i`, one per option, the last option varying fastest. */
  function Digits(options: seq<ProductOption>, i: nat): (d: seq<nat>)
    requires NonEmpty(options)
    ensures |d| == |options|
  {
    if options == [] then []
    else
      var n := |options[|options| - 1].values|;
      Digits(options[..|options| - 1], i / n) + [i % n]
  }

  /** The number with the given digits. */
  function Index(options: seq<ProductOption>, d: seq<nat>): nat
    requires |d| == |options|
  {
    if options == [] then 0
    else Index(options[..|options| - 1], d[..|d| - 1]) * |options[|options| - 1].values| + d[|d| - 1]
  }

  /** A choice of one value per option. */
  ghost predicate IsChoice(options: seq<ProductOption>, d: seq<nat>) {
    |d| == |options| && forall k :: 0 <= k < |d| ==> d[k] < |options[k].values|
  }

  lemma {:induction false} FlatMapAt(rows: seq<Row>, o: ProductOption)
    requires |o.values| > 0
    ensures |FlatMap(rows, o)| == |rows| * |o.values|
    ensures forall i :: 0 <= i < |rows| * |o.values| ==>
              0 <= i / |o.values| < |rows| && |FlatMap(rows, o)| > i
              && FlatMap(rows, o)[i] == Extend(rows[i / |o.values|], o.key, o.values[i % |o.values|])
  {
    var n := |o.values|;
    if rows != [] {
      FlatMapAt(rows[1..], o);
      assert |rows| * n == n + |rows[1..]| * n;
      forall i | 0 <= i < |rows| * n
        ensures 0 <= i / n < |rows| && |FlatMap(rows, o)| > i
            && FlatMap(rows, o)[i] == Extend(rows[i / n], o.key, o.values[i % n])
      {
        if i < n {
          DivModUnique(0, i, n);
        } else {
          DivModShift(i, n);
          assert FlatMap(rows, o)[i] == FlatMap(rows[1..], o)[i - n];
        }
      }
    }
  }

  /** There are as many rows as the product of the value counts. */
  lemma {:induction false} CombinationCount(options: seq<ProductOption>)
    requires NonEmpty(options)
    ensures |Combinations(options)| == Product(options)
  {
    if options != [] {
      CombinationCount(options[..|options| - 1]);
      FlatMapAt(Combinations(options[..|options| - 1]), options[|options| - 1]);
    }
  }

  lemma IndexSnoc(init: seq<ProductOption>, last: ProductOption, d: seq<nat>, c: nat)
    requires |d| == |init|
    ensures Index(init + [last], d + [c]) == Index(init, d) * |last.values| + c
    ensures Product(init + [last]) == Product(init) * |last.values|
    ensures IsChoice(init + [last], d + [c]) <==> IsChoice(init, d) && c < |last.values|
  {
    var options, e := init + [last], d + [c];
    assert options[..|options| - 1] == init && e[..|e| - 1] == d;
    assert IsChoice(options, e) ==> e[|init|] < |options[|init|].values|;
    assert forall k :: 0 <= k < |init| ==> options[k] == init[k] && e[k] == d[k];
  }

  lemma DigitsSnoc(init: seq<ProductOption>, last: ProductOption, i: nat)
    requires NonEmpty(init + [last])
    ensures NonEmpty(init) && |last.values| > 0
    ensures Digits(init + [last], i) == Digits(init, i / |last.values|) + [i % |last.values|]
  {
    var options := init + [last];
    assert options[..|options| - 1] == init && options[|init|] == last;
    assert forall k :: 0 <= k < |init| ==> init[k] == options[k];
  }

  /** The digits of a row number are a choice, and the row number is recovered from them. */
  lemma {:induction false} DigitsOfIndex(options: seq<ProductOption>, i: nat)
    requires NonEmpty(options) && i < Product(options)
    ensures IsChoice(options, Digits(options, i)) && Index(options, Digits(options, i)) == i
    decreases |options|
  {
    if options != [] {
      var init, last := options[..|options| - 1], options[|options| - 1];
      var n := |last.values|;
      assert options == init + [last];
      DigitsSnoc(init, last, i);
      IndexSnoc(init, last, Digits(init, i / n), i % n);
      DivBound(i, n, Product(init));
      DivMod(i, n);
      DigitsOfIndex(init, i / n);
    }
  }

  lemma IndexOfDigitsSnoc(init: seq<ProductOption>, last: ProductOption, front: seq<nat>, c: nat)
    requires NonEmpty(init + [last]) && NonEmpty(init) && |front| == |init| && c < |last.values|
    requires Index(init, front) < Product(init) && Digits(init, Index(init, front)) == front
    ensures Index(init + [last], front + [c]) < Product(init + [last])
    ensures Digits(init + [last], Index(init + [last], front + [c])) == front + [c]
  {
    var options, q, n := init + [last], Index(init, front), |last.values|;
    var i := Index(options, front + [c]);
    assert i == q * n + c && Product(options) == Product(init) * n by {
      IndexSnoc(init, last, front, c);
    }
    MulLess(q, Product(init), n);
    QuotientOf(i, q, c, n);
    DigitsSnoc(init, last, i);
  }

  /** Every choice is the digits of exactly one row number. */
  lemma {:induction false} IndexOfDigits(options: seq<ProductOption>, d: seq<nat>)
    requires NonEmpty(options) && IsChoice(options, d)
    ensures Index(options, d) < Product(options) && Digits(options, Index(options, d)) == d
    decreases |options|
  {
    if options != [] {
      var init, last := options[..|options| - 1], options[|options| - 1];
      var front, c := d[..|d| - 1], d[|d| - 1];
      assert options == init + [last] && d == front + [c];
      assert IsChoice(init, front) && c < |last.values| by {
        IndexSnoc(init, last, front, c);
      }
      IndexOfDigits(init, front);
      IndexOfDigitsSnoc(init, last, front, c);
    }
  }

  // ----- what each row holds -----

  function SumOfAmounts(options: seq<ProductOption>, d: seq<nat>): real
    requires |d| == |options|
  {
    if options == [] then 0.0
    else
      var o, k := options[|options| - 1], d[|d| - 1];
      SumOfAmounts(options[..|options| - 1], d[..|d| - 1])
        + (if k < |o.values| then OptionAmount(o.values[k].priceDelta) else 0.0)
  }

  ghost predicate DistinctKeys(options: seq<ProductOption>) {
    forall i, j :: 0 <= i < j < |options| ==> options[i].key != options[j].key
  }

  ghost predicate DistinctValues(o: ProductOption) {
    forall a, b :: 0 <= a < b < |o.values| ==> o.values[a].value != o.values[b].value
  }

  function Keys(options: seq<ProductOption>): set<string> {
    set o | o in options :: o.key
  }

  /** The row holds, for every option, the value that the choice `d` picks. */
  ghost predicate Holds(row: Row, options: seq<ProductOption>, d: seq<nat>) {
    && HoldsTotals(row, options, d)
    && forall k :: 0 <= k < |options| ==> HoldsAt(row, options[k], k, d[k])
  }

  /** One label and one entry per option, and the sum of the clamped price deltas. */
  ghost predicate HoldsTotals(row: Row, options: seq<ProductOption>, d: seq<nat>) {
    && IsChoice(options, d)
    && |row.labels| == |options|
    && row.optionValues.Keys == row.displayOptionValues.Keys == Keys(options)
    && row.priceDelta == SumOfAmounts(options, d)
  }

  ghost predicate HoldsAt(row: Row, o: ProductOption, k: nat, choice: nat)
    requires choice < |o.values| && k < |row.labels|
  {
    && row.labels[k] == o.values[choice].displayValue
    && o.key in row.optionValues && row.optionValues[o.key] == o.values[choice].value
    && o.key in row.displayOptionValues && row.displayOptionValues[o.key] == o.values[choice].displayValue
  }

  /** No later option has the key of option `k`. */
  ghost predicate IsLast(options: seq<ProductOption>, k: nat) {
    k < |options| && forall m :: k < m < |options| ==> options[m].key != options[k].key
  }

  /** Labels and the sum are those of the choice; of options with the same key the last one counts. */
  ghost predicate HoldsLast(row: Row, options: seq<ProductOption>, d: seq<nat>) {
    && HoldsTotals(row, options, d)
    && forall k :: 0 <= k < |options| ==>
         && row.labels[k] == options[k].values[d[k]].displayValue
         && (IsLast(options, k) ==> HoldsAt(row, options[k], k, d[k]))
  }

  /** Row `i` is the mixed-radix expansion of `i`, whatever the keys are. */
  lemma {:induction false} RowAtLast(options: seq<ProductOption>, i: nat)
    requires NonEmpty(options) && i < Product(options)
    ensures |Combinations(options)| == Product(options)
    ensures HoldsLast(Combinations(options)[i], options, Digits(options, i))
    decreases |options|
  {
    CombinationCount(options);
    if options != [] {
      var init, last := options[..|options| - 1], options[|options| - 1];
      var n := |last.values|;
      assert options == init + [last];
      DigitsSnoc(init, last, i);
      CombinationCount(init);
      FlatMapAt(Combinations(init), last);
      DivBound(i, n, Product(init));
      DivMod(i, n);
      RowAtLast(init, i / n);
      ExtendHolds(Combinations(init)[i / n], init, Digits(init, i / n), last, i % n);
    }
  }

  /** With distinct keys every option has its entries in the row. */
  lemma RowAt(options: seq<ProductOption>, i: nat)
    requires NonEmpty(options) && DistinctKeys(options) && i < Product(options)
    ensures |Combinations(options)| == Product(options)
    ensures Holds(Combinations(options)[i], options, Digits(options, i))
  {
    RowAtLast(options, i);
    forall k: nat | k < |options| ensures IsLast(options, k) {
    }
  }

  lemma SumSnoc(init: seq<ProductOption>, d: seq<nat>, last: ProductOption, c: nat)
    requires |d| == |init| && c < |last.values|
    ensures SumOfAmounts(init + [last], d + [c]) == SumOfAmounts(init, d) + OptionAmount(last.values[c].priceDelta)
    ensures Keys(init + [last]) == Keys(init) + {last.key}
  {
    var options, e := init + [last], d + [c];
    assert options[..|options| - 1] == init && e[..|e| - 1] == d;
    assert forall o :: o in options <==> o in init || o == last;
  }

  lemma ExtendHolds(row: Row, init: seq<ProductOption>, d: seq<nat>, last: ProductOption, c: nat)
    requires HoldsLast(row, init, d) && c < |last.values|
    ensures HoldsLast(Extend(row, last.key, last.values[c]), init + [last], d + [c])
  {
    var options, e, after := init + [last], d + [c], Extend(row, last.key, last.values[c]);
    ExtendTotals(row, init, d, last, c);
    forall k | 0 <= k < |options|
      ensures after.labels[k] == options[k].values[e[k]].displayValue
      ensures IsLast(options, k) ==> HoldsAt(after, options[k], k, e[k])
    {
      ExtendHoldsAt(row, init, d, last, c, k);
    }
  }

  lemma ExtendTotals(row: Row, init: seq<ProductOption>, d: seq<nat>, last: ProductOption, c: nat)
    requires HoldsTotals(row, init, d) && c < |last.values|
    ensures HoldsTotals(Extend(row, last.key, last.values[c]), init + [last], d + [c])
  {
    IndexSnoc(init, last, d, c);
    SumSnoc(init, d, last, c);
  }

  lemma ExtendHoldsAt(row: Row, init: seq<ProductOption>, d: seq<nat>, last: ProductOption, c: nat, k: nat)
    requires HoldsLast(row, init, d) && c < |last.values| && k <= |init|
    ensures var options, e, after := init + [last], d + [c], Extend(row, last.key, last.values[c]);
      && e[k] < |options[k].values| && k < |after.labels|
      && after.labels[k] == options[k].values[e[k]].displayValue
      && (IsLast(options, k) ==> HoldsAt(after, options[k], k, e[k]))
  {
    var options := init + [last];
    if k < |init| {
      assert options[k] == init[k] && options[|init|] == last;
      if IsLast(options, k) {
        assert forall m :: k < m < |init| ==> options[m] == init[m];
        assert IsLast(init, k);
        ExtendKeeps(row, init[k], k, d[k], last.key, last.values[c]);
      }
    }
  }

  lemma ExtendKeeps(row: Row, o: ProductOption, k: nat, choice: nat, key: string, v: OptionValue)
    requires choice < |o.values| && k < |row.labels| && HoldsAt(row, o, k, choice) && o.key != key
    ensures HoldsAt(Extend(row, key, v), o, k, choice)
  {
  }

  /** Every choice of one value per option appears in exactly one row. */
  lemma EveryChoiceOnce(options: seq<ProductOption>, d: seq<nat>)
    requires NonEmpty(options) && DistinctKeys(options) && IsChoice(options, d)
    ensures |Combinations(options)| == Product(options)
    ensures exists i: nat ::
      && i < Product(options) && Digits(options, i) == d && Holds(Combinations(options)[i], options, d)
      && forall j: nat :: j < Product(options) && Digits(options, j) == d ==> i == j
  {
    IndexOfDigits(options, d);
    RowAt(options, Index(options, d));
    OnlyIndex(options, d);
  }

  lemma OnlyIndex(options: seq<ProductOption>, d: seq<nat>)
    requires NonEmpty(options) && IsChoice(options, d)
    ensures forall i: nat :: i < Product(options) && Digits(options, i) == d ==> i == Index(options, d)
  {
    forall i: nat | i < Product(options) && Digits(options, i) == d ensures i == Index(options, d) {
      DigitsOfIndex(options, i);
    }
  }

  ghost predicate RowsDistinct(options: seq<ProductOption>) {
    forall i, j :: 0 <= i < j < |Combinations(options)| ==>
        Combinations(options)[i].optionValues != Combinations(options)[j].optionValues
  }

  /** With distinct option keys, the rows have distinct option values exactly when no option lists
      a value twice. */
  lemma RowsDistinctIff(options: seq<ProductOption>)
    requires NonEmpty(options) && DistinctKeys(options)
    ensures RowsDistinct(options) <==> forall k :: 0 <= k < |options| ==> DistinctValues(options[k])
  {
    CombinationCount(options);
    if forall k :: 0 <= k < |options| ==> DistinctValues(options[k]) {
      forall i, j | 0 <= i < j < |Combinations(options)|
        ensures Combinations(options)[i].optionValues != Combinations(options)[j].optionValues
      {
        RowsDiffer(options, i, j);
      }
    } else {
      var k :| 0 <= k < |options| && !DistinctValues(options[k]);
      var a, b :| 0 <= a < b < |options[k].values| && options[k].values[a].value == options[k].values[b].value;
      RowsCoincide(options, k, a, b);
    }
  }

  lemma RowsDiffer(options: seq<ProductOption>, i: nat, j: nat)
    requires NonEmpty(options) && DistinctKeys(options) && i < Product(options) && j < Product(options) && i != j
    requires forall k :: 0 <= k < |options| ==> DistinctValues(options[k])
    ensures |Combinations(options)| == Product(options)
    ensures Combinations(options)[i].optionValues != Combinations(options)[j].optionValues
  {
    RowAt(options, i);
    RowAt(options, j);
    DigitsOfIndex(options, i);
    DigitsOfIndex(options, j);
    var d, e := Digits(options, i), Digits(options, j);
    assert d != e;
    var k :| 0 <= k < |options| && d[k] != e[k];
    assert HoldsAt(Combinations(options)[i], options[k], k, d[k])
        && HoldsAt(Combinations(options)[j], options[k], k, e[k]);
    assert DistinctValues(options[k]);
    assert options[k].values[d[k]].value != options[k].values[e[k]].value;
  }

  lemma RowsCoincide(options: seq<ProductOption>, k: nat, a: nat, b: nat)
    requires NonEmpty(options) && DistinctKeys(options) && k < |options|
    requires a < b < |options[k].values| && options[k].values[a].value == options[k].values[b].value
    ensures !RowsDistinct(options)
  {
    var d, e := OneChoice(options, k, a), OneChoice(options, k, b);
    IndexOfDigits(options, d);
    IndexOfDigits(options, e);
    assert d[k] != e[k];
    RowsOfChoicesCoincide(options, d, e, Index(options, d), Index(options, e));
  }

  /** The first value of every option, except that of option `k`. */
  function OneChoice(options: seq<ProductOption>, k: nat, a: nat): (d: seq<nat>)
    requires NonEmpty(options) && k < |options| && a < |options[k].values|
    ensures IsChoice(options, d) && forall x :: 0 <= x < |options| ==> d[x] == if x == k then a else 0
  {
    seq(|options|, x requires 0 <= x < |options| => if x == k then a else 0)
  }

  lemma RowsOfChoicesCoincide(options: seq<ProductOption>, d: seq<nat>, e: seq<nat>, i: nat, j: nat)
    requires NonEmpty(options) && DistinctKeys(options) && i < Product(options) && j < Product(options) && i != j
    requires IsChoice(options, d) && IsChoice(options, e) && Digits(options, i) == d && Digits(options, j) == e
    requires forall x :: 0 <= x < |options| ==> options[x].values[d[x]].value == options[x].values[e[x]].value
    ensures !RowsDistinct(options)
  {
    RowAt(options, i);
    RowAt(options, j);
    TwoRowsCoincide(Combinations(options), options, d, e, i, j);
  }

  lemma TwoRowsCoincide(rows: seq<Row>, options: seq<ProductOption>, d: seq<nat>, e: seq<nat>, i: nat, j: nat)
    requires i < |rows| && j < |rows| && i != j && Holds(rows[i], options, d) && Holds(rows[j], options, e)
    requires forall x :: 0 <= x < |options| ==> options[x].values[d[x]].value == options[x].values[e[x]].value
    ensures exists lo, hi :: 0 <= lo < hi < |rows| && rows[lo].optionValues == rows[hi].optionValues
  {
    SameChoiceSameValues(rows[i], rows[j], options, d, e);
    var lo, hi := if i < j then i else j, if i < j then j else i;
    assert 0 <= lo < hi < |rows| && rows[lo].optionValues == rows[hi].optionValues;
  }

  lemma SameChoiceSameValues(p: Row, q: Row, options: seq<ProductOption>, d: seq<nat>, e: seq<nat>)
    requires Holds(p, options, d) && Holds(q, options, e)
    requires forall x :: 0 <= x < |options| ==> options[x].values[d[x]].value == options[x].values[e[x]].value
    ensures p.optionValues == q.optionValues
  {
    forall key | key in Keys(options) ensures p.optionValues[key] == q.optionValues[key] {
      var o :| o in options && o.key == key;
      var x :| 0 <= x < |options| && options[x] == o;
      assert HoldsAt(p, options[x], x, d[x]) && HoldsAt(q, options[x], x, e[x]);
    }
  }

  // ----- the set of rows does not depend on the order of the options -----

  /** A map that gives every option one of its values, and nothing else. */
  ghost predicate Fits(m: map<string, string>, options: seq<ProductOption>) {
    && m.Keys == Keys(options)
    && forall k :: 0 <= k < |options| ==> Offers(options[k], m)
  }

  ghost predicate Offers(o: ProductOption, m: map<string, string>) {
    o.key in m && exists c: nat :: c < |o.values| && o.values[c].value == m[o.key]
  }

  ghost predicate IsRowMap(m: map<string, string>, options: seq<ProductOption>) {
    exists i :: 0 <= i < |Combinations(options)| && Combinations(options)[i].optionValues == m
  }

  /** The rows are exactly the maps that fit the options. */
  lemma RowMapIff(m: map<string, string>, options: seq<ProductOption>)
    requires NonEmpty(options) && DistinctKeys(options)
    ensures IsRowMap(m, options) <==> Fits(m, options)
  {
    CombinationCount(options);
    if i :| 0 <= i < |Combinations(options)| && Combinations(options)[i].optionValues == m {
      RowAt(options, i);
      var d := Digits(options, i);
      forall k | 0 <= k < |options| ensures Offers(options[k], m) {
        assert HoldsAt(Combinations(options)[i], options[k], k, d[k]);
      }
    }
    if Fits(m, options) {
      var i := RowOfMap(m, options);
      assert IsRowMap(m, options);
    }
  }

  lemma RowOfMap(m: map<string, string>, options: seq<ProductOption>) returns (i: nat)
    requires NonEmpty(options) && DistinctKeys(options) && Fits(m, options)
    ensures i < |Combinations(options)| && Combinations(options)[i].optionValues == m
  {
    var d := ChoiceOf(m, options);
    IndexOfDigits(options, d);
    i := Index(options, d);
    RowAt(options, i);
    HeldMap(Combinations(options)[i], options, d, m);
  }

  lemma HeldMap(row: Row, options: seq<ProductOption>, d: seq<nat>, m: map<string, string>)
    requires Holds(row, options, d) && Fits(m, options)
    requires forall k :: 0 <= k < |options| ==>
        options[k].key in m && options[k].values[d[k]].value == m[options[k].key]
    ensures row.optionValues == m
  {
    forall key | key in Keys(options) ensures row.optionValues[key] == m[key] {
      var o :| o in options && o.key == key;
      var k :| 0 <= k < |options| && options[k] == o;
      assert HoldsAt(row, options[k], k, d[k]);
    }
  }

  lemma {:induction false} ChoiceOf(m: map<string, string>, options: seq<ProductOption>) returns (d: seq<nat>)
    requires forall k :: 0 <= k < |options| ==> Offers(options[k], m)
    ensures IsChoice(options, d)
    ensures forall k :: 0 <= k < |options| ==> options[k].key in m && options[k].values[d[k]].value == m[options[k].key]
  {
    if options == [] {
      d := [];
    } else {
      assert Offers(options[0], m);
      var c: nat :| c < |options[0].values| && options[0].values[c].value == m[options[0].key];
      assert forall k :: 0 <= k < |options[1..]| ==> options[1..][k] == options[k + 1];
      var rest := ChoiceOf(m, options[1..]);
      d := [c] + rest;
      forall k | 0 <= k < |options|
        ensures d[k] < |options[k].values| && options[k].key in m && options[k].values[d[k]].value == m[options[k].key]
      {
        if k > 0 {
          assert options[k] == options[1..][k - 1] && d[k] == rest[k - 1];
        }
      }
    }
  }

  // ----- reuse of existing variants -----

  /** Two option maps agree when their sorted keys and the values under them do. */
  predicate SameOptionValues(left: map<string, string>, right: map<string, string>) {
    var l, r := S.Sorted(left.Keys), S.Sorted(right.Keys);
    && |l| == |r|
    && forall i :: 0 <= i < |l| ==> SameEntry(left, right, l[i], r[i])
  }

  predicate SameEntry(left: map<string, string>, right: map<string, string>, a: string, b: string) {
    a == b && a in left && a in right && left[a] == right[a]
  }

  /** The comparison by sorted keys is equality of maps. */
  lemma SameOptionValuesIff(left: map<string, string>, right: map<string, string>)
    ensures SameOptionValues(left, right) <==> left == right
  {
    if SameOptionValues(left, right) {
      SameEntriesSameMap(left, right, S.Sorted(left.Keys), S.Sorted(right.Keys));
    }
    if left == right {
      var l := S.Sorted(left.Keys);
      forall i | 0 <= i < |l| ensures SameEntry(left, right, l[i], l[i]) {
        assert l[i] in l;
      }
    }
  }

  lemma SameEntriesSameMap(left: map<string, string>, right: map<string, string>, l: seq<string>, r: seq<string>)
    requires (forall k :: k in l <==> k in left) && (forall k :: k in r <==> k in right)
    requires |l| == |r| && forall i :: 0 <= i < |l| ==> SameEntry(left, right, l[i], r[i])
    ensures left == right
  {
  }

  datatype Variant = Variant(publicVariantId: string, displayName: string, optionValues: map<string, string>)

  function TrimAll(labels: seq<string>): seq<string> {
    if labels == [] then []
    else
      var text := Strip(labels[0], IsSpace);
      (if text == [] then [] else [text]) + TrimAll(labels[1..])
  }

  /** `optionLabelText`; lower-casing is a parameter. */
  function LabelText(labels: seq<string>, lower: string -> string): string {
    lower(Join(TrimAll(labels), " / "))
  }

  /** `variantOptionLabelText`: the display name without its first part. */
  function VariantLabelText(v: Variant, lower: string -> string): string {
    var labels := TrimAll(Split(v.displayName, '/'));
    LabelText(if |labels| > 1 then labels[1..] else labels, lower)
  }

  function Existing(variants: seq<Variant>): (r: seq<Variant>)
    ensures forall i :: 0 <= i < |r| ==> r[i] in variants && r[i].publicVariantId != ""
  {
    if variants == [] then []
    else if variants[0].publicVariantId != "" then [variants[0]] + Existing(variants[1..])
    else Existing(variants[1..])
  }

  function Available(existing: seq<Variant>, used: set<string>): (r: seq<Variant>)
    ensures forall v :: v in r <==> v in existing && v.publicVariantId !in used
  {
    if existing == [] then []
    else if existing[0].publicVariantId in used then Available(existing[1..], used)
    else [existing[0]] + Available(existing[1..], used)
  }

  /** `find` by option values. */
  function FindByValues(vs: seq<Variant>, m: map<string, string>): (r: Option<Variant>)
    ensures r.Some? ==> r.value in vs && SameOptionValues(r.value.optionValues, m)
    ensures r.None? ==> forall v :: v in vs ==> !SameOptionValues(v.optionValues, m)
  {
    if vs == [] then None else if SameOptionValues(vs[0].optionValues, m) then Some(vs[0]) else FindByValues(vs[1..], m)
  }

  /** `find` by label text, which an empty text never matches. */
  function FindByLabel(vs: seq<Variant>, text: string, lower: string -> string): (r: Option<Variant>)
    ensures r.Some? ==> r.value in vs && text != "" && VariantLabelText(r.value, lower) == text
    ensures r.None? ==> text == "" || forall v :: v in vs ==> VariantLabelText(v, lower) != text
  {
    if vs == [] || text == "" then None
    else if VariantLabelText(vs[0], lower) == text then Some(vs[0])
    else FindByLabel(vs[1..], text, lower)
  }

  /** The product that the form edits: its variants, with or without an id, and how many rows there are. */
  datatype Form = Form(variants: seq<Variant>, rowCount: nat, editing: bool, lower: string -> string)

  /** The variants that have an id. */
  function Saved(f: Form): seq<Variant> {
    Existing(f.variants)
  }

  /** `existingVariantForCombination`: by values, by display values, by label, by position. */
  function VariantFor(f: Form, row: Row, index: nat, used: set<string>): (r: Option<Variant>)
    ensures r.Some? ==> r.value in Saved(f) && r.value.publicVariantId !in used
  {
    var available := Available(Saved(f), used);
    var exact := FindByValues(available, row.optionValues);
    var shown := FindByValues(available, row.displayOptionValues);
    var labelled := FindByLabel(available, LabelText(row.labels, f.lower), f.lower);
    if exact.Some? then exact
    else if shown.Some? then shown
    else if labelled.Some? then labelled
    else if f.editing && |Saved(f)| == f.rowCount && index < |Saved(f)| && Saved(f)[index].publicVariantId !in used
    then Some(Saved(f)[index])
    else None
  }

  /** How a row, its position and the ids in use determine the variant that the row is given. */
  type Chooser = (Row, nat, set<string>) -> Option<Variant>

  function Choosing(f: Form): Chooser {
    (row: Row, index: nat, used: set<string>) => VariantFor(f, row, index, used)
  }

  function Mark(used: set<string>, given: Option<Variant>): set<string> {
    if given.Some? then used + {given.value.publicVariantId} else used
  }

  /** The ids in `usedVariantIds` when row `k` is mapped. */
  function UsedBefore(choose: Chooser, rows: seq<Row>, k: nat): set<string>
    requires k <= |rows|
    decreases k, 0
  {
    if k == 0 then {} else Mark(UsedBefore(choose, rows, k - 1), Given(choose, rows, k - 1))
  }

  /** The existing variant that row `k` is given. */
  function Given(choose: Chooser, rows: seq<Row>, k: nat): Option<Variant>
    requires k < |rows|
    decreases k, 1
  {
    choose(rows[k], k, UsedBefore(choose, rows, k))
  }

  /** The loop that maps the rows while it fills `usedVariantIds`. */
  method ReuseVariants(choose: Chooser, rows: seq<Row>) returns (given: seq<Option<Variant>>)
    ensures |given| == |rows| && forall k :: 0 <= k < |rows| ==> given[k] == Given(choose, rows, k)
  {
    var used: set<string> := {};
    var i := 0;
    given := [];
    while i < |rows|
      invariant 0 <= i <= |rows| && |given| == i
      invariant used == UsedBefore(choose, rows, i)
      invariant forall k :: 0 <= k < i ==> given[k] == Given(choose, rows, k)
    {
      var v := choose(rows[i], i, used);
      given := given + [v];
      if v.Some? {
        used := used + {v.value.publicVariantId};
      }
      i := i + 1;
    }
  }

  predicate GivenId(choose: Chooser, rows: seq<Row>, j: nat, id: string) {
    j < |rows| && Given(choose, rows, j).Some? && Given(choose, rows, j).value.publicVariantId == id
  }

  /** The ids in use are those of the rows before. */
  lemma {:induction false} UsedIff(choose: Chooser, rows: seq<Row>, k: nat, id: string)
    requires k <= |rows|
    ensures id in UsedBefore(choose, rows, k) <==> exists j: nat :: j < k && GivenId(choose, rows, j, id)
  {
    if k > 0 {
      UsedIff(choose, rows, k - 1, id);
      assert GivenId(choose, rows, k - 1, id) ==> id in UsedBefore(choose, rows, k);
    }
  }

  /** No existing variant id is given to two rows. */
  lemma ReuseIsInjective(f: Form, rows: seq<Row>, i: nat, k: nat)
    requires i < k < |rows| && Given(Choosing(f), rows, i).Some? && Given(Choosing(f), rows, k).Some?
    ensures Given(Choosing(f), rows, i).value.publicVariantId != Given(Choosing(f), rows, k).value.publicVariantId
  {
    var id := Given(Choosing(f), rows, i).value.publicVariantId;
    assert GivenId(Choosing(f), rows, i, id);
    UsedIff(Choosing(f), rows, k, id);
  }

  ghost predicate DistinctVariants(existing: seq<Variant>) {
    forall v, w :: v in existing && w in existing && v != w ==>
      v.publicVariantId != w.publicVariantId && v.optionValues != w.optionValues
  }

  ghost predicate IsOwn(f: Form, row: Row, v: Variant) {
    v in Saved(f) && v.optionValues == row.optionValues
  }

  ghost predicate HasOwn(f: Form, row: Row) {
    exists v :: IsOwn(f, row, v)
  }

  ghost predicate DistinctRows(rows: seq<Row>) {
    forall i, j :: 0 <= i < j < |rows| ==> rows[i].optionValues != rows[j].optionValues
  }

  /** A row whose own variant is still free gets it. */
  lemma OwnIfFree(f: Form, row: Row, index: nat, used: set<string>, v: Variant)
    requires DistinctVariants(Saved(f)) && IsOwn(f, row, v)
    ensures VariantFor(f, row, index, used) == Some(v) <==> v.publicVariantId !in used
  {
    var available := Available(Saved(f), used);
    var exact := FindByValues(available, row.optionValues);
    if v.publicVariantId !in used {
      assert v in available;
      SameOptionValuesIff(v.optionValues, row.optionValues);
      SameOptionValuesIff(exact.value.optionValues, row.optionValues);
    }
  }

  ghost predicate GetsOwn(f: Form, row: Row, given: Option<Variant>) {
    given.Some? && IsOwn(f, row, given.value)
  }

  /** A row gets its own variant exactly when no earlier row was given it. */
  lemma GetsOwnIff(f: Form, rows: seq<Row>, k: nat, v: Variant)
    requires k < |rows| && DistinctVariants(Saved(f)) && IsOwn(f, rows[k], v)
    ensures Given(Choosing(f), rows, k) == Some(v) <==>
        forall j: nat :: j < k ==> !GivenId(Choosing(f), rows, j, v.publicVariantId)
  {
    OwnIfFree(f, rows[k], k, UsedBefore(Choosing(f), rows, k), v);
    UsedIff(Choosing(f), rows, k, v.publicVariantId);
  }

  /** As long as every row up to `k` has an exact match, each of them gets precisely its own variant. */
  lemma {:induction false} EachRowKeepsItsOwn(f: Form, rows: seq<Row>, k: nat)
    requires k < |rows| && DistinctVariants(Saved(f)) && DistinctRows(rows)
    requires forall j :: 0 <= j <= k ==> HasOwn(f, rows[j])
    ensures GetsOwn(f, rows[k], Given(Choosing(f), rows, k))
  {
    assert HasOwn(f, rows[k]);
    var v :| IsOwn(f, rows[k], v);
    forall j: nat | j < k ensures !GivenId(Choosing(f), rows, j, v.publicVariantId) {
      EachRowKeepsItsOwn(f, rows, j);
      assert rows[j].optionValues != rows[k].optionValues;
    }
    GetsOwnIff(f, rows, k, v);
  }

  /** A later row's exact match can be lost: an earlier row without an exact match, but whose display
      values equal it, takes the variant. */
  lemma LaterExactMatchIsLost(f: Form, v: Variant, first: Row, second: Row)
    requires Saved(f) == [v]
    requires IsOwn(f, second, v) && first.optionValues != v.optionValues && first.displayOptionValues == v.optionValues
    ensures var rows := [first, second];
            Given(Choosing(f), rows, 0) == Some(v) && Given(Choosing(f), rows, 1) != Some(v)
  {
    var rows := [first, second];
    SameOptionValuesIff(v.optionValues, first.optionValues);
    SameOptionValuesIff(v.optionValues, first.displayOptionValues);
    var available := Available([v], {});
    assert v in available;
    var exact := FindByValues(available, first.optionValues);
    assert exact.None?;
    assert Given(Choosing(f), rows, 0) == VariantFor(f, first, 0, {});
    assert GivenId(Choosing(f), rows, 0, v.publicVariantId);
    GetsOwnIffLost(f, rows, v);
  }

  lemma GetsOwnIffLost(f: Form, rows: seq<Row>, v: Variant)
    requires |rows| == 2 && GivenId(Choosing(f), rows, 0, v.publicVariantId)
    ensures Given(Choosing(f), rows, 1) != Some(v)
  {
    UsedIff(Choosing(f), rows, 1, v.publicVariantId);
  }

  lemma FitsReordered(m: map<string, string>, a: seq<ProductOption>, b: seq<ProductOption>)
    requires Fits(m, a) && forall o :: o in a <==> o in b
    ensures Fits(m, b)
  {
  }
}
