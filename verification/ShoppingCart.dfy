/**
 The cart: its stored lines (frontend/lib/cart.js), and the cart page with its store groups, edits and
 checkouts (frontend/components/Cart.jsx).
 */
module ShoppingCart {
  import opened Wrappers
  import opened TextTools

  /** A value that should be a text. */
  datatype Field = Str(s: string) | NotStr

  /** A product as the cart sees it, with the keys of the payment options that it accepts. */
  datatype Product = Product(id: Field, publicProductId: Field, title: Field,
                             publicStoreId: string, storePublicId: string, options: seq<string>)

  /** `Number(quantity)` of the quantity that was asked for. */
  datatype Requested = NotANumber | Unbounded(positive: bool) | Number(x: real)

  datatype Quantity = Num(x: real) | Infinity

  /** A cart line; `None` is the option `null`. */
  datatype Line = Line(product: Product, option: Option<string>, quantity: Quantity)

  type Cart = seq<Line>

  const DEFAULT_OPTION := "기본 옵션"

  // ----- frontend/lib/cart.js -----

  function Filter(items: Cart, keep: Line -> bool): Cart {
    if items == [] then []
    else if keep(items[0]) then [items[0]] + Filter(items[1..], keep)
    else Filter(items[1..], keep)
  }

  predicate IsCartItem(line: Line) {
    line.product.id.Str? && line.product.publicProductId.Str? && line.product.title.Str? && line.quantity.Num?
      && line.quantity.x > 0.0
  }

  /** What `saveCart` stores and `loadCart` returns. */
  function Saved(items: Cart): Cart {
    Filter(items, IsCartItem)
  }

  /** `Math.max(1, Number(quantity) || 1)`. */
  function Clamped(requested: Requested): Quantity {
    match requested
    case NotANumber => Num(1.0)
    case Unbounded(positive) => if positive then Infinity else Num(1.0)
    case Number(x) => if x > 1.0 then Num(x) else Num(1.0)
  }

  function Plus(a: Quantity, b: Quantity): Quantity {
    if a.Num? && b.Num? then Num(a.x + b.x) else Infinity
  }

  predicate Same(line: Line, id: Field, option: Option<string>) {
    line.product.id == id && line.option == option
  }

  function Raise(items: Cart, id: Field, option: Option<string>, more: Quantity): (r: Cart)
    ensures |r| == |items|
  {
    if items == [] then []
    else
      [if Same(items[0], id, option) then items[0].(quantity := Plus(items[0].quantity, more)) else items[0]]
      + Raise(items[1..], id, option, more)
  }

  /** The list that `addCartItem` computes. */
  function Added(current: Cart, product: Product, requested: Requested, option: Option<string>): Cart {
    if exists i :: 0 <= i < |current| && Same(current[i], product.id, option)
    then Raise(current, product.id, option, Clamped(requested))
    else current + [Line(product, option, Clamped(requested))]
  }

  // ----- the cart page -----

  function KeyOf(line: Line): string {
    (if line.product.id.Str? then line.product.id.s else "undefined") + ":" + ShownOption(line.option)
  }

  function ShownOption(option: Option<string>): string {
    if option.None? || option.value == "" then DEFAULT_OPTION else option.value
  }

  /** `Math.max(1, item.quantity + delta)`. */
  function Changed(q: Quantity, delta: real): Quantity {
    match q
    case Infinity => Infinity
    case Num(x) => if x + delta > 1.0 then Num(x + delta) else Num(1.0)
  }

  function Updated(items: Cart, key: string, delta: real): (r: Cart)
    ensures |r| == |items|
  {
    if items == [] then []
    else
      [if KeyOf(items[0]) == key then items[0].(quantity := Changed(items[0].quantity, delta)) else items[0]]
      + Updated(items[1..], key, delta)
  }

  function NotKey(key: string): Line -> bool {
    (line: Line) => KeyOf(line) != key
  }

  function Removed(items: Cart, key: string): Cart {
    Filter(items, NotKey(key))
  }

  function StoreOf(line: Line): string {
    if line.product.publicStoreId != "" then line.product.publicStoreId else line.product.storePublicId
  }

  /** The stores of the cart, in the order of their first lines. */
  function Stores(items: Cart): seq<string> {
    if items == [] then []
    else
      var before := Stores(items[..|items| - 1]);
      var store := StoreOf(items[|items| - 1]);
      if store in before then before else before + [store]
  }

  function InStore(store: string): Line -> bool {
    (line: Line) => StoreOf(line) == store
  }

  function OfStore(items: Cart, store: string): Cart {
    Filter(items, InStore(store))
  }

  datatype Group = Group(storeId: string, items: Cart)

  function GroupsOf(items: Cart, stores: seq<string>): (groups: seq<Group>)
    ensures |groups| == |stores|
    ensures forall i :: 0 <= i < |stores| ==> groups[i] == Group(stores[i], OfStore(items, stores[i]))
  {
    if stores == [] then [] else [Group(stores[0], OfStore(items, stores[0]))] + GroupsOf(items, stores[1..])
  }

  /** The options of a group without repetitions, in order. */
  function OptionsOf(items: Cart): seq<string> {
    if items == [] then []
    else WithoutRepeats(OptionsOf(items[..|items| - 1]), items[|items| - 1].product.options)
  }

  function WithoutRepeats(before: seq<string>, more: seq<string>): seq<string>
    decreases more
  {
    if more == [] then before
    else WithoutRepeats(if more[0] in before then before else before + [more[0]], more[1..])
  }

  /** The option in effect: the selected one if it is offered, otherwise the first. */
  function ChosenOption(items: Cart, selected: string): Option<string> {
    var options := OptionsOf(items);
    if selected in options then Some(selected)
    else if options != [] then Some(options[0])
    else None
  }

  predicate Supports(line: Line, chosen: Option<string>) {
    chosen.None? || chosen.value in line.product.options
  }

  function Supporting(chosen: Option<string>): Line -> bool {
    (line: Line) => Supports(line, chosen)
  }

  function Active(items: Cart, chosen: Option<string>): Cart {
    Filter(items, Supporting(chosen))
  }

  /** The lines that an order of a store takes. */
  predicate IsOrdered(line: Line, store: string, chosen: Option<string>) {
    StoreOf(line) == store && Supports(line, chosen)
  }

  function NotOrdered(store: string, chosen: Option<string>): Line -> bool {
    (line: Line) => !IsOrdered(line, store, chosen)
  }

  function Remaining(items: Cart, store: string, chosen: Option<string>): Cart {
    Filter(items, NotOrdered(store, chosen))
  }

  function NotIn(ordered: Cart): Line -> bool {
    (line: Line) => line !in ordered
  }

  /** The lines that are not among those ordered. */
  function Without(items: Cart, ordered: Cart): Cart {
    Filter(items, NotIn(ordered))
  }

  datatype Refusal = NoGroup | NoStore | NoUser | NoPaymentOption | NoWallet | NoItems

  /** A checkout that waits for the server: the cart it started from, and what it orders. */
  datatype Ticket = Ticket(snapshot: Cart, store: string, chosen: Option<string>, ordered: Cart)

  function StartedCheckout(shown: Cart, store: string, selected: string, user: bool,
                           wallet: bool): Result<Ticket, Refusal> {
    var items := OfStore(shown, store);
    var chosen := ChosenOption(items, selected);
    if store !in Stores(shown) then Err(NoGroup)
    else if store == "" then Err(NoStore)
    else if !user then Err(NoUser)
    else if chosen.None? then Err(NoPaymentOption)
    else if !wallet then Err(NoWallet)
    else if Active(items, chosen) == [] then Err(NoItems)
    else Ok(Ticket(shown, store, chosen, Active(items, chosen)))
  }

  /** The filter of `saveCart`. */
  method SavedItems(items: Cart) returns (kept: Cart)
    ensures kept == Saved(items)
  {
    kept := [];
    assert items[0..] == items;
    for n := 0 to |items|
      invariant Saved(items) == kept + Saved(items[n..])
    {
      assert items[n..][1..] == items[n + 1..];
      if IsCartItem(items[n]) {
        kept := kept + [items[n]];
      }
    }
  }

  /** The stored cart and the page that shows it. */
  class CartPage {
    var stored: Cart
    var shown: Cart

    constructor ()
      ensures stored == [] && shown == []
    {
      stored, shown := [], [];
    }

    /** `addCartItem`, on a product page. */
    method AddCartItem(product: Product, requested: Requested, option: Option<string>) returns (next: Cart)
      modifies this`stored
      ensures next == Added(Saved(old(stored)), product, requested, option)
      ensures stored == Saved(next)
    {
      var current := Saved(stored);
      var nextQuantity := Clamped(requested);
      if exists i :: 0 <= i < |current| && Same(current[i], product.id, option) {
        next := Raise(current, product.id, option, nextQuantity);
      } else {
        next := current + [Line(product, option, nextQuantity)];
      }
      stored := Saved(next);
    }

    method Open()
      modifies this`shown
      ensures shown == Saved(stored)
    {
      shown := Saved(stored);
    }

    method UpdateQuantity(key: string, delta: real)
      modifies this
      ensures shown == Updated(old(shown), key, delta) && stored == Saved(shown)
    {
      var nextItems: Cart := [];
      assert shown[0..] == shown;
      for n := 0 to |shown|
        invariant Updated(shown, key, delta) == nextItems + Updated(shown[n..], key, delta)
      {
        assert shown[n..][1..] == shown[n + 1..];
        var line := shown[n];
        nextItems := nextItems
          + [if KeyOf(line) == key then line.(quantity := Changed(line.quantity, delta)) else line];
      }
      shown := nextItems;
      stored := SavedItems(nextItems);
    }

    method RemoveItem(key: string)
      modifies this
      ensures shown == Removed(old(shown), key) && stored == Saved(shown)
    {
      var nextItems: Cart := [];
      assert shown[0..] == shown;
      for n := 0 to |shown|
        invariant Removed(shown, key) == nextItems + Removed(shown[n..], key)
      {
        assert shown[n..][1..] == shown[n + 1..];
        if KeyOf(shown[n]) != key {
          nextItems := nextItems + [shown[n]];
        }
      }
      shown := nextItems;
      stored := SavedItems(nextItems);
    }

    /** The grouping loop: a map from store to group, kept in the order of insertion. */
    method StoreGroups() returns (groups: seq<Group>)
      ensures groups == GroupsOf(shown, Stores(shown))
    {
      var order: seq<string> := [];
      var members: map<string, Cart> := map[];
      for n := 0 to |shown|
        invariant IsGrouping(shown[..n], order, members)
      {
        var store := StoreOf(shown[n]);
        assert shown[..n + 1] == shown[..n] + [shown[n]];
        GroupingStep(shown[..n], shown[n], order, members);
        if store !in members {
          members := members[store := []];
          order := order + [store];
        }
        members := members[store := members[store] + [shown[n]]];
      }
      assert shown[..|shown|] == shown;
      groups := [];
      for k := 0 to |order|
        invariant groups == GroupsOf(shown, order[..k])
      {
        assert order[..k + 1] == order[..k] + [order[k]];
        GroupsOfAppend(shown, order[..k], order[k]);
        groups := groups + [Group(order[k], members[order[k]])];
      }
      assert order[..|order|] == order;
    }

    /** `startCheckout` up to its request. */
    method StartCheckout(store: string, selected: string, user: bool, wallet: bool) returns (r: Result<Ticket, Refusal>)
      ensures r == StartedCheckout(shown, store, selected, user, wallet)
    {
      var groups := StoreGroups();
      if !exists i :: 0 <= i < |groups| && groups[i].storeId == store {
        assert forall i :: 0 <= i < |Stores(shown)| ==> groups[i].storeId == Stores(shown)[i];
        return Err(NoGroup);
      }
      var i :| 0 <= i < |groups| && groups[i].storeId == store;
      var items := groups[i].items;
      var chosen := ChosenOption(items, selected);
      var active := Active(items, chosen);
      if store == "" {
        return Err(NoStore);
      } else if !user {
        return Err(NoUser);
      } else if chosen.None? {
        return Err(NoPaymentOption);
      } else if !wallet {
        return Err(NoWallet);
      } else if active == [] {
        return Err(NoItems);
      }
      return Ok(Ticket(shown, store, chosen, active));
    }

    /** The rest of `startCheckout`, when the server has answered: it goes on from the cart it started with. */
    method FinishCheckout(ticket: Ticket, created: bool)
      modifies this
      ensures shown == if created then Without(ticket.snapshot, ticket.ordered) else old(shown)
      ensures stored == if created then Saved(shown) else old(stored)
    {
      if created {
        var items := ticket.snapshot;
        var remaining: Cart := [];
        assert items[0..] == items;
        for n := 0 to |items|
          invariant Without(items, ticket.ordered) == remaining + Without(items[n..], ticket.ordered)
        {
          assert items[n..][1..] == items[n + 1..];
          if items[n] !in ticket.ordered {
            remaining := remaining + [items[n]];
          }
        }
        shown := remaining;
        stored := SavedItems(remaining);
      }
    }
  }

  // ----- filtering -----

  lemma {:induction false} FilterAppend(a: Cart, b: Cart, keep: Line -> bool)
    ensures Filter(a + b, keep) == Filter(a, keep) + Filter(b, keep)
  {
    if a == [] {
      assert a + b == b;
    } else {
      assert (a + b)[1..] == a[1..] + b;
      FilterAppend(a[1..], b, keep);
    }
  }

  lemma {:induction false} FilterMembers(items: Cart, keep: Line -> bool)
    ensures forall line :: line in Filter(items, keep) <==> line in items && keep(line)
  {
    if items != [] {
      FilterMembers(items[1..], keep);
    }
  }

  lemma {:induction false} FilterAll(items: Cart, keep: Line -> bool)
    requires forall line :: line in items ==> keep(line)
    ensures Filter(items, keep) == items
  {
    if items != [] {
      FilterAll(items[1..], keep);
    }
  }

  lemma {:induction false} FilterNone(items: Cart, keep: Line -> bool)
    requires forall line :: line in items ==> !keep(line)
    ensures Filter(items, keep) == []
  {
    if items != [] {
      FilterNone(items[1..], keep);
    }
  }

  lemma {:induction false} FilterCount(items: Cart, keep: Line -> bool, x: Line)
    ensures multiset(Filter(items, keep))[x] == if keep(x) then multiset(items)[x] else 0
  {
    if items != [] {
      FilterCount(items[1..], keep, x);
      assert items == [items[0]] + items[1..];
    }
  }

  lemma OfStoreAppend(items: Cart, line: Line, store: string)
    ensures OfStore(items + [line], store) == OfStore(items, store) + if StoreOf(line) == store then [line] else []
  {
    FilterAppend(items, [line], InStore(store));
    assert Filter([line][1..], InStore(store)) == [];
  }

  // ----- store groups -----

  /** The map of groups while they are filled. */
  ghost predicate IsGrouping(items: Cart, order: seq<string>, members: map<string, Cart>) {
    && order == Stores(items)
    && (forall s :: s in members <==> s in order)
    && (forall s :: s in members ==> members[s] == OfStore(items, s))
  }

  lemma GroupingStep(items: Cart, line: Line, order: seq<string>, members: map<string, Cart>)
    requires IsGrouping(items, order, members)
    ensures var store := StoreOf(line);
      var members' := if store in members then members else members[store := []];
      IsGrouping(items + [line], if store in members then order else order + [store],
        members'[store := members'[store] + [line]])
  {
    var store := StoreOf(line);
    assert (items + [line])[..|items|] == items;
    forall s ensures OfStore(items + [line], s) == OfStore(items, s) + if store == s then [line] else [] {
      OfStoreAppend(items, line, s);
    }
    if store !in members {
      NoneOfStore(items, store);
    }
  }

  lemma {:induction false} StoresCover(items: Cart)
    ensures forall s :: s in Stores(items) <==> exists i :: 0 <= i < |items| && StoreOf(items[i]) == s
    ensures forall i, j :: 0 <= i < j < |Stores(items)| ==> Stores(items)[i] != Stores(items)[j]
  {
    if items != [] {
      StoresCover(items[..|items| - 1]);
    }
  }

  lemma NoneOfStore(items: Cart, store: string)
    requires store !in Stores(items)
    ensures OfStore(items, store) == []
  {
    StoresCover(items);
    FilterNone(items, InStore(store));
  }

  lemma GroupsOfAppend(items: Cart, stores: seq<string>, store: string)
    ensures GroupsOf(items, stores + [store]) == GroupsOf(items, stores) + [Group(store, OfStore(items, store))]
  {
  }

  function Flattened(groups: seq<Group>): Cart {
    if groups == [] then [] else groups[0].items + Flattened(groups[1..])
  }

  lemma {:induction false} FlattenedCount(items: Cart, stores: seq<string>, x: Line)
    requires forall i, j :: 0 <= i < j < |stores| ==> stores[i] != stores[j]
    ensures multiset(Flattened(GroupsOf(items, stores)))[x] == if StoreOf(x) in stores then multiset(items)[x] else 0
  {
    if stores != [] {
      FlattenedFirst(items, stores);
      FlattenedCount(items, stores[1..], x);
      FilterCount(items, InStore(stores[0]), x);
      assert StoreOf(x) in stores <==> StoreOf(x) == stores[0] || StoreOf(x) in stores[1..];
    }
  }

  lemma FlattenedFirst(items: Cart, stores: seq<string>)
    requires stores != []
    ensures Flattened(GroupsOf(items, stores)) == OfStore(items, stores[0]) + Flattened(GroupsOf(items, stores[1..]))
  {
    assert GroupsOf(items, stores)[1..] == GroupsOf(items, stores[1..]);
  }

  /** The groups partition the cart: stores are distinct, no group is empty, every line is in the group
      of its store as often as in the cart, and a group lists its lines in the order of the cart. */
  lemma GroupsPartition(items: Cart)
    ensures var groups := GroupsOf(items, Stores(items));
      && (forall i, j :: 0 <= i < j < |groups| ==> groups[i].storeId != groups[j].storeId)
      && (forall i :: 0 <= i < |groups| ==>
          groups[i].items != [] && groups[i].items == Filter(items, InStore(groups[i].storeId)))
      && multiset(Flattened(groups)) == multiset(items)
  {
    var groups := GroupsOf(items, Stores(items));
    StoresCover(items);
    forall i | 0 <= i < |groups| ensures groups[i].items != [] {
      assert Stores(items)[i] in Stores(items);
      var k :| 0 <= k < |items| && StoreOf(items[k]) == Stores(items)[i];
      FilterMembers(items, InStore(Stores(items)[i]));
      assert items[k] in groups[i].items;
    }
    forall x ensures multiset(Flattened(groups))[x] == multiset(items)[x] {
      FlattenedCount(items, Stores(items), x);
      if x in multiset(items) {
        assert x in items;
      }
    }
  }

  // ----- the lines of a cart -----

  predicate SameLine(a: Line, b: Line) {
    a.product.id == b.product.id && a.option == b.option
  }

  /** At most one line for a product and an option, and every line has a finite quantity of at least 1. */
  ghost predicate GoodCart(items: Cart) {
    && (forall i :: 0 <= i < |items| ==> IsCartItem(items[i]) && items[i].quantity.x >= 1.0)
    && (forall i, j :: 0 <= i < j < |items| ==> !SameLine(items[i], items[j]))
  }

  lemma SavedGood(items: Cart)
    requires GoodCart(items)
    ensures Saved(items) == items
  {
    FilterAll(items, IsCartItem);
  }

  lemma {:induction false} FilterGood(items: Cart, keep: Line -> bool)
    requires GoodCart(items)
    ensures GoodCart(Filter(items, keep))
  {
    if items != [] {
      FilterGood(items[1..], keep);
      FilterMembers(items[1..], keep);
      var rest := Filter(items[1..], keep);
      forall j | 0 <= j < |rest| ensures !SameLine(items[0], rest[j]) {
        assert rest[j] in items[1..];
      }
    }
  }

  lemma {:induction false} RaiseAt(items: Cart, id: Field, option: Option<string>, more: Quantity)
    ensures forall i :: 0 <= i < |items| ==>
      Raise(items, id, option, more)[i] == if Same(items[i], id, option)
        then items[i].(quantity := Plus(items[i].quantity, more)) else items[i]
  {
    if items != [] {
      RaiseAt(items[1..], id, option, more);
    }
  }

  lemma {:induction false} UpdatedAt(items: Cart, key: string, delta: real)
    ensures forall i :: 0 <= i < |items| ==>
      Updated(items, key, delta)[i] == if KeyOf(items[i]) == key
        then items[i].(quantity := Changed(items[i].quantity, delta)) else items[i]
  {
    if items != [] {
      UpdatedAt(items[1..], key, delta);
    }
  }

  lemma UpdatedGood(items: Cart, key: string, delta: real)
    requires GoodCart(items)
    ensures GoodCart(Updated(items, key, delta))
  {
    UpdatedAt(items, key, delta);
    forall i, j | 0 <= i < j < |items| ensures !SameLine(Updated(items, key, delta)[i], Updated(items, key, delta)[j]) {
      assert !SameLine(items[i], items[j]);
    }
  }

  predicate Holds(items: Cart, id: Field, option: Option<string>) {
    exists i :: 0 <= i < |items| && Same(items[i], id, option)
  }

  /** What adding does to a stored cart, by cases. A line of the product and option is raised, or lost when
      the quantity is infinite; otherwise a line is appended, if it is one that can be stored. Nothing else changes. */
  ghost predicate AddOutcome(before: Cart, after: Cart, product: Product, option: Option<string>, more: Quantity) {
    && (!Holds(before, product.id, option) ==>
         after == if IsCartItem(Line(product, option, more)) then before + [Line(product, option, more)] else before)
    && (forall i :: 0 <= i < |before| && Same(before[i], product.id, option) ==>
         after == if more.Num? then before[i := before[i].(quantity := Plus(before[i].quantity, more))]
                  else before[..i] + before[i + 1..])
  }

  lemma FilterOne(items: Cart, i: nat, line: Line, keep: Line -> bool)
    requires i < |items| && forall j :: 0 <= j < |items| && j != i ==> keep(items[j])
    ensures Filter(items[i := line], keep) == if keep(line) then items[i := line] else items[..i] + items[i + 1..]
  {
    var a, b := items[..i], items[i + 1..];
    assert items[i := line] == a + ([line] + b);
    FilterAppend(a, [line] + b, keep);
    assert ([line] + b)[1..] == b;
    FilterAll(a, keep);
    FilterAll(b, keep);
  }

  lemma RaiseOne(before: Cart, i: nat, id: Field, option: Option<string>, more: Quantity)
    requires GoodCart(before) && i < |before| && Same(before[i], id, option)
    ensures Raise(before, id, option, more) == before[i := before[i].(quantity := Plus(before[i].quantity, more))]
  {
    RaiseAt(before, id, option, more);
    forall j | 0 <= j < |before| && j != i ensures !Same(before[j], id, option) {
      assert j < i ==> !SameLine(before[j], before[i]);
      assert i < j ==> !SameLine(before[i], before[j]);
    }
  }

  lemma AddByCases(before: Cart, product: Product, requested: Requested, option: Option<string>)
    requires GoodCart(before)
    ensures AddOutcome(before, Saved(Added(before, product, requested, option)), product, option, Clamped(requested))
  {
    var more := Clamped(requested);
    forall i | 0 <= i < |before| && Same(before[i], product.id, option)
      ensures Saved(Raise(before, product.id, option, more)) ==
        if more.Num? then before[i := before[i].(quantity := Plus(before[i].quantity, more))]
            else before[..i] + before[i + 1..]
    {
      RaiseOne(before, i, product.id, option, more);
      FilterOne(before, i, before[i].(quantity := Plus(before[i].quantity, more)), IsCartItem);
    }
    var line := Line(product, option, more);
    FilterAppend(before, [line], IsCartItem);
    FilterAll(before, IsCartItem);
    assert Filter([line][1..], IsCartItem) == [];
  }

  lemma AddGood(before: Cart, product: Product, requested: Requested, option: Option<string>)
    requires GoodCart(before)
    ensures GoodCart(Saved(Added(before, product, requested, option)))
  {
    AddByCases(before, product, requested, option);
    var after := Saved(Added(before, product, requested, option));
    if i :| 0 <= i < |before| && Same(before[i], product.id, option) {
      if !Clamped(requested).Num? {
        WithoutOneGood(before, i);
      }
    } else {
      assert !Holds(before, product.id, option);
    }
  }

  lemma WithoutOneGood(items: Cart, i: nat)
    requires GoodCart(items) && i < |items|
    ensures GoodCart(items[..i] + items[i + 1..])
  {
    var rest := items[..i] + items[i + 1..];
    forall j, k | 0 <= j < k < |rest| ensures !SameLine(rest[j], rest[k]) {
      assert rest[j] == items[if j < i then j else j + 1] && rest[k] == items[if k < i then k else k + 1];
    }
  }

  function Total(items: Cart): real {
    if items == [] then 0.0
    else (if items[0].quantity.Num? then items[0].quantity.x else 0.0) + Total(items[1..])
  }

  lemma {:induction false} TotalAppend(a: Cart, b: Cart)
    ensures Total(a + b) == Total(a) + Total(b)
  {
    if a == [] {
      assert a + b == b;
    } else {
      assert (a + b)[1..] == a[1..] + b;
      TotalAppend(a[1..], b);
    }
  }

  lemma TotalAround(items: Cart, i: nat, line: Line)
    requires i < |items| && items[i].quantity.Num? && line.quantity.Num?
    ensures Total(items[i := line]) == Total(items) - items[i].quantity.x + line.quantity.x
    ensures Total(items[..i] + items[i + 1..]) == Total(items) - items[i].quantity.x
  {
    var a, b := items[..i], items[i + 1..];
    assert items == a + ([items[i]] + b) && items[i := line] == a + ([line] + b);
    TotalAppend(a, b);
    TotalAppend(a, [items[i]] + b);
    TotalAppend(a, [line] + b);
    TotalAppend([items[i]], b);
    TotalAppend([line], b);
    assert Total([items[i]][1..]) == 0.0 && Total([line][1..]) == 0.0;
  }

  /** An add raises the total by exactly the clamped quantity if and only if that is finite and the cart
      has the line already or the product has its three texts. */
  lemma AddRaisesTotalIff(before: Cart, product: Product, requested: Requested, option: Option<string>)
    requires GoodCart(before)
    ensures var more, after := Clamped(requested), Saved(Added(before, product, requested, option));
      (more.Num? && Total(after) == Total(before) + more.x) <==>
      more.Num? && (Holds(before, product.id, option)
        || (product.id.Str? && product.publicProductId.Str? && product.title.Str?))
  {
    AddByCases(before, product, requested, option);
    var more := Clamped(requested);
    if more.Num? {
      if i :| 0 <= i < |before| && Same(before[i], product.id, option) {
        TotalAround(before, i, before[i].(quantity := Plus(before[i].quantity, more)));
      } else {
        assert !Holds(before, product.id, option);
        TotalAppend(before, [Line(product, option, more)]);
        assert Total([Line(product, option, more)][1..]) == 0.0;
      }
    }
  }

  // ----- the keys of the page -----

  /** Two lines share a key exactly when they show the same id and option, or one id continues the other
      after a colon and the options make up the difference. */
  lemma KeysCollideIff(a: Line, b: Line)
    requires a.product.id.Str? && b.product.id.Str?
    ensures var x, y, o, p := a.product.id.s, b.product.id.s, ShownOption(a.option), ShownOption(b.option);
      KeyOf(a) == KeyOf(b) <==> (x == y && o == p) || Shifted(x, o, y, p, ':') || Shifted(y, p, x, o, ':')
  {
    JoinedCollideIff(a.product.id.s, ShownOption(a.option), b.product.id.s, ShownOption(b.option), ':');
  }

  /** Of lines with ids without a colon, only those that show the same id and option share a key. */
  lemma PlainIdsSeparate(a: Line, b: Line)
    requires a.product.id.Str? && b.product.id.Str? && ':' !in a.product.id.s && ':' !in b.product.id.s
    ensures KeyOf(a) == KeyOf(b) <==> a.product.id == b.product.id && ShownOption(a.option) == ShownOption(b.option)
  {
    KeysCollideIff(a, b);
  }

  /** No other line has the key of line `i`. */
  predicate OwnKey(items: Cart, i: nat)
    requires i < |items|
  {
    forall j :: 0 <= j < |items| && j != i ==> KeyOf(items[j]) != KeyOf(items[i])
  }

  /** Removing a line by its key removes just that line exactly when no other line has the key. */
  lemma RemovesOneIff(items: Cart, i: nat)
    requires GoodCart(items) && i < |items|
    ensures Removed(items, KeyOf(items[i])) == items[..i] + items[i + 1..] <==> OwnKey(items, i)
  {
    if OwnKey(items, i) {
      FilterOne(items, i, items[i], NotKey(KeyOf(items[i])));
      assert items[i := items[i]] == items;
    } else {
      var j :| 0 <= j < |items| && j != i && KeyOf(items[j]) == KeyOf(items[i]);
      FilterMembers(items, NotKey(KeyOf(items[i])));
      OthersStay(items, i, j);
    }
  }

  lemma OthersStay(items: Cart, i: nat, j: nat)
    requires i < |items| && j < |items| && j != i
    ensures items[j] in items[..i] + items[i + 1..]
  {
    assert (items[..i] + items[i + 1..])[if j < i then j else j - 1] == items[j];
  }

  /** A change of quantity by the key of a line changes that line alone exactly when every other line with the
      key has a quantity that the change leaves as it is; with an own key it always does. No quantity falls
      below 1. */
  lemma UpdatesOneIff(items: Cart, i: nat, delta: real)
    requires GoodCart(items) && i < |items|
    ensures var after := Updated(items, KeyOf(items[i]), delta);
      && (after == items[i := items[i].(quantity := Changed(items[i].quantity, delta))] <==>
          forall j :: 0 <= j < |items| && j != i && KeyOf(items[j]) == KeyOf(items[i]) ==>
            Changed(items[j].quantity, delta) == items[j].quantity)
      && forall j :: 0 <= j < |after| ==> after[j].quantity.Num? && after[j].quantity.x >= 1.0
  {
    UpdatedAt(items, KeyOf(items[i]), delta);
    var after := Updated(items, KeyOf(items[i]), delta);
    var one := items[i := items[i].(quantity := Changed(items[i].quantity, delta))];
    forall j | 0 <= j < |items| && j != i && KeyOf(items[j]) == KeyOf(items[i])
      ensures after[j] == one[j] <==> Changed(items[j].quantity, delta) == items[j].quantity
    {
    }
  }

  /** With an own key the total changes by as much as the quantity of the line. */
  lemma UpdatesOne(items: Cart, i: nat, delta: real)
    requires GoodCart(items) && i < |items| && OwnKey(items, i)
    ensures var after := Updated(items, KeyOf(items[i]), delta);
      && after == items[i := items[i].(quantity := Changed(items[i].quantity, delta))]
      && Total(after) - Total(items) == after[i].quantity.x - items[i].quantity.x
  {
    UpdatesOneIff(items, i, delta);
    TotalAround(items, i, items[i].(quantity := Changed(items[i].quantity, delta)));
  }

  // ----- checkouts -----

  lemma {:induction false} WithoutRepeatsMembers(before: seq<string>, more: seq<string>)
    ensures forall x :: x in WithoutRepeats(before, more) <==> x in before || x in more
    decreases more
  {
    if more != [] {
      WithoutRepeatsMembers(if more[0] in before then before else before + [more[0]], more[1..]);
    }
  }

  lemma {:induction false} OptionsOfMembers(items: Cart)
    ensures forall x :: x in OptionsOf(items) <==> exists i :: 0 <= i < |items| && x in items[i].product.options
  {
    if items != [] {
      OptionsOfMembers(items[..|items| - 1]);
      WithoutRepeatsMembers(OptionsOf(items[..|items| - 1]), items[|items| - 1].product.options);
    }
  }

  /** The check for an empty order never fires: some line of the group supports the option in effect. */
  lemma ChosenIsSupported(items: Cart, selected: string)
    requires ChosenOption(items, selected).Some?
    ensures Active(items, ChosenOption(items, selected)) != []
  {
    var chosen := ChosenOption(items, selected);
    OptionsOfMembers(items);
    assert chosen.value in OptionsOf(items);
    var i :| 0 <= i < |items| && chosen.value in items[i].product.options;
    FilterMembers(items, Supporting(chosen));
    assert items[i] in Active(items, chosen);
  }

  /** What a ticket holds: its order is the non-empty part of the snapshot that the order takes. */
  ghost predicate IsTicket(t: Ticket) {
    && t.store != "" && t.chosen.Some? && t.ordered != []
    && multiset(t.ordered) + multiset(Without(t.snapshot, t.ordered)) == multiset(t.snapshot)
    && (forall line :: line in t.ordered ==> IsOrdered(line, t.store, t.chosen))
    && (forall line :: line in Without(t.snapshot, t.ordered) ==> !IsOrdered(line, t.store, t.chosen))
  }

  /** A checkout splits the cart: the ordered lines are all of the store and support the chosen option, the
      others are not, and together they are the lines of the cart, each as often as there. */
  lemma CheckoutSplits(shown: Cart, store: string, selected: string, user: bool, wallet: bool)
    ensures var r := StartedCheckout(shown, store, selected, user, wallet);
      && r != Err(NoItems)
      && (r.Ok? ==> r.value.snapshot == shown && r.value.store == store && IsTicket(r.value)
                    && Without(shown, r.value.ordered) == Remaining(shown, store, r.value.chosen))
  {
    var items := OfStore(shown, store);
    var chosen := ChosenOption(items, selected);
    var ordered := Active(items, chosen);
    if chosen.Some? {
      ChosenIsSupported(items, selected);
    }
    OrderSplits(shown, store, chosen);
  }

  lemma OrderSplits(shown: Cart, store: string, chosen: Option<string>)
    ensures var ordered := Active(OfStore(shown, store), chosen);
      && multiset(ordered) + multiset(Without(shown, ordered)) == multiset(shown)
      && (forall line :: line in ordered ==> IsOrdered(line, store, chosen))
      && (forall line :: line in Without(shown, ordered) ==> !IsOrdered(line, store, chosen))
      && Without(shown, ordered) == Remaining(shown, store, chosen)
  {
    var items := OfStore(shown, store);
    var ordered := Active(items, chosen);
    FilterMembers(shown, InStore(store));
    FilterMembers(items, Supporting(chosen));
    FilterAgree(shown, NotIn(ordered), NotOrdered(store, chosen));
    FilterMembers(shown, NotIn(ordered));
    forall x ensures (multiset(ordered) + multiset(Without(shown, ordered)))[x] == multiset(shown)[x] {
      OrderCount(shown, store, chosen, x);
    }
  }

  lemma OrderCount(shown: Cart, store: string, chosen: Option<string>, x: Line)
    ensures var ordered := Active(OfStore(shown, store), chosen);
      multiset(ordered)[x] + multiset(Without(shown, ordered))[x] == multiset(shown)[x]
  {
    var items := OfStore(shown, store);
    var ordered := Active(items, chosen);
    FilterCount(shown, InStore(store), x);
    FilterCount(items, Supporting(chosen), x);
    FilterCount(shown, NotIn(ordered), x);
    assert x in multiset(ordered) <==> x in ordered;
    assert x in multiset(shown) <==> x in shown;
  }

  lemma {:induction false} FilterAgree(items: Cart, keep: Line -> bool, other: Line -> bool)
    requires forall line :: line in items ==> keep(line) == other(line)
    ensures Filter(items, keep) == Filter(items, other)
  {
    if items != [] {
      FilterAgree(items[1..], keep, other);
    }
  }

  /** Two checkouts that wait at the same time: whichever finishes last puts the lines that the other
      has ordered back into the cart, all of them, whatever happened to the cart in between. */
  lemma OverlappingCheckoutsRestore(shown: Cart, a: Ticket, b: Ticket)
    requires IsTicket(a) && IsTicket(b) && a.snapshot == shown && b.snapshot == shown && a.store != b.store
    ensures a.ordered != [] && forall line :: line in a.ordered ==> line in Without(b.snapshot, b.ordered)
  {
    forall line | line in a.ordered ensures line in Without(b.snapshot, b.ordered) {
      assert line in multiset(a.ordered) + multiset(Without(a.snapshot, a.ordered));
      assert line in multiset(shown);
      FilterMembers(b.snapshot, NotIn(b.ordered));
    }
  }

  /** A checkout the server confirms before anything else happens: the store, and the option selected there. */
  datatype Purchase = Purchase(store: string, selected: string)

  /** The cart and the ordered lines after purchases one after the other. */
  function Bought(items: Cart, purchases: seq<Purchase>): (Cart, Cart)
    decreases purchases
  {
    if purchases == [] then (items, [])
    else
      var r := StartedCheckout(items, purchases[0].store, purchases[0].selected, true, true);
      if r.Err? then Bought(items, purchases[1..])
      else
        var rest := Bought(Without(items, r.value.ordered), purchases[1..]);
        (rest.0, r.value.ordered + rest.1)
  }

  /** Over any sequence of purchases one at a time, no line is lost, ordered twice or both ordered and kept. */
  lemma {:induction false} PurchasesConserve(items: Cart, purchases: seq<Purchase>)
    ensures multiset(Bought(items, purchases).0) + multiset(Bought(items, purchases).1) == multiset(items)
    decreases purchases
  {
    if purchases != [] {
      var r := StartedCheckout(items, purchases[0].store, purchases[0].selected, true, true);
      CheckoutSplits(items, purchases[0].store, purchases[0].selected, true, true);
      if r.Err? {
        PurchasesConserve(items, purchases[1..]);
      } else {
        PurchasesConserve(Without(items, r.value.ordered), purchases[1..]);
      }
    }
  }

  // ----- runs -----

  datatype State = State(stored: Cart, shown: Cart, tickets: seq<Ticket>)

  datatype Event =
    | Add(product: Product, requested: Requested, option: Option<string>)
    | Open
    | Update(key: string, delta: real)
    | Remove(key: string)
    | Start(store: string, selected: string, user: bool, wallet: bool)
    | Finish(i: nat, created: bool)

  /** The methods of `CartPage` as steps; waiting checkouts may finish in any order, or never. */
  function Step(s: State, e: Event): State {
    match e
    case Add(product, requested, option) => s.(stored := Saved(Added(Saved(s.stored), product, requested, option)))
    case Open => s.(shown := Saved(s.stored))
    case Update(key, delta) => var items := Updated(s.shown, key, delta); s.(shown := items, stored := Saved(items))
    case Remove(key) => var items := Removed(s.shown, key); s.(shown := items, stored := Saved(items))
    case Start(store, selected, user, wallet) =>
      var r := StartedCheckout(s.shown, store, selected, user, wallet);
      if r.Ok? then s.(tickets := s.tickets + [r.value]) else s
    case Finish(i, created) =>
      if i >= |s.tickets| then s
      else
        var waiting := s.tickets[..i] + s.tickets[i + 1..];
        var items := Without(s.tickets[i].snapshot, s.tickets[i].ordered);
        if created then State(Saved(items), items, waiting) else s.(tickets := waiting)
  }

  function Run(s: State, events: seq<Event>): State {
    if events == [] then s else Step(Run(s, events[..|events| - 1]), events[|events| - 1])
  }

  ghost predicate GoodState(s: State) {
    GoodCart(s.stored) && GoodCart(s.shown) && forall i :: 0 <= i < |s.tickets| ==>
      GoodCart(s.tickets[i].snapshot) && IsTicket(s.tickets[i])
  }

  lemma StepKeepsGood(s: State, e: Event)
    requires GoodState(s)
    ensures GoodState(Step(s, e))
  {
    SavedGood(s.stored);
    match e
    case Add(product, requested, option) => AddGood(s.stored, product, requested, option);
    case Open =>
    case Update(key, delta) => UpdatedGood(s.shown, key, delta); SavedGood(Updated(s.shown, key, delta));
    case Remove(key) => FilterGood(s.shown, NotKey(key)); SavedGood(Removed(s.shown, key));
    case Start(store, selected, user, wallet) => CheckoutSplits(s.shown, store, selected, user, wallet);
    case Finish(i, created) =>
      if i < |s.tickets| {
        var t := s.tickets[i];
        FilterGood(t.snapshot, NotIn(t.ordered));
        SavedGood(Without(t.snapshot, t.ordered));
      }
  }

  /** In every run from the empty cart, whatever overlaps, the stored and the shown cart have at most one
      line for a product and an option, and every quantity is at least 1. */
  lemma {:induction false} RunsKeepGood(events: seq<Event>)
    ensures GoodState(Run(State([], [], []), events))
  {
    if events != [] {
      RunsKeepGood(events[..|events| - 1]);
      StepKeepsGood(Run(State([], [], []), events[..|events| - 1]), events[|events| - 1]);
    }
  }

  // ----- overlapping checkouts -----

  /** A run with its orders: for each waiting ticket how many orders were confirmed when it started, the orders
      confirmed so far, and for each of them whether another was confirmed between its start and its own. */
  datatype Book = Book(state: State, since: seq<nat>, orders: seq<Cart>, late: seq<bool>)

  function Noted(b: Book, e: Event): Book {
    var next := Step(b.state, e);
    match e
    case Start(_, _, _, _) =>
      b.(state := next, since := if |next.tickets| > |b.state.tickets| then b.since + [|b.orders|] else b.since)
    case Finish(i, created) =>
      if i >= |b.state.tickets| || i >= |b.since| then b.(state := next)
      else
        var waiting := b.since[..i] + b.since[i + 1..];
        if created
        then Book(next, waiting, b.orders + [b.state.tickets[i].ordered], b.late + [b.since[i] != |b.orders|])
        else b.(state := next, since := waiting)
    case _ => b.(state := next)
  }

  function Booked(s: State, events: seq<Event>): Book {
    if events == [] then Book(s, [], [], [])
    else Noted(Booked(s, events[..|events| - 1]), events[|events| - 1])
  }

  function Lines(orders: seq<Cart>): multiset<Line> {
    if orders == [] then multiset{} else Lines(orders[..|orders| - 1]) + multiset(orders[|orders| - 1])
  }

  ghost predicate NoneLate(late: seq<bool>, n: nat) {
    forall k :: 0 <= k < n && k < |late| ==> !late[k]
  }

  /** The lines of a cart and of the first `n` orders: at least those of the start, and just those exactly
      when none of these orders was late. */
  ghost predicate Conserves(start: Cart, items: Cart, b: Book, n: nat) {
    && n <= |b.orders|
    && multiset(start) <= multiset(items) + Lines(b.orders[..n])
    && (multiset(items) + Lines(b.orders[..n]) == multiset(start) <==> NoneLate(b.late, n))
  }

  ghost predicate BookSound(start: Cart, b: Book) {
    && GoodState(b.state) && |b.since| == |b.state.tickets| && |b.late| == |b.orders|
    && (forall k :: 0 <= k < |b.orders| ==> b.orders[k] != [])
    && Conserves(start, b.state.shown, b, |b.orders|)
    && forall i :: 0 <= i < |b.since| ==> TicketSound(start, b, b.state.tickets[i], b.since[i])
  }

  ghost predicate TicketSound(start: Cart, b: Book, t: Ticket, n: nat) {
    Conserves(start, t.snapshot, b, n) && (n == |b.orders| ==> t.snapshot == b.state.shown)
  }

  predicate IsCheckout(e: Event) {
    e.Start? || e.Finish?
  }

  lemma {:induction false} LinesGrow(orders: seq<Cart>, n: nat)
    requires n <= |orders|
    ensures Lines(orders[..n]) <= Lines(orders)
    ensures n < |orders| && (forall k :: 0 <= k < |orders| ==> orders[k] != []) ==> Lines(orders[..n]) != Lines(orders)
    decreases |orders|
  {
    if n < |orders| {
      var init := orders[..|orders| - 1];
      LinesGrow(init, n);
      assert init[..n] == orders[..n];
      assert orders[|orders| - 1] != [] ==> multiset(orders[|orders| - 1])[orders[|orders| - 1][0]] > 0;
    } else {
      assert orders[..n] == orders;
    }
  }

  lemma Balance(start: multiset<Line>, snapshot: multiset<Line>, rest: multiset<Line>, ordered: multiset<Line>,
                part: multiset<Line>, whole: multiset<Line>, exact: bool)
    requires start <= snapshot + part && (snapshot + part == start <==> exact)
    requires part <= whole && ordered + rest == snapshot
    ensures start <= rest + (whole + ordered)
    ensures rest + (whole + ordered) == start <==> exact && part == whole
  {
    assert rest + (whole + ordered) == snapshot + whole;
    assert forall x :: (snapshot + part)[x] <= (snapshot + whole)[x];
    if snapshot + whole == start {
      forall x ensures part[x] == whole[x] {
        assert start[x] <= (snapshot + part)[x] <= (snapshot + whole)[x];
      }
    }
  }

  lemma LateAppend(late: seq<bool>, n: nat, last: bool)
    requires n <= |late| && last == (n != |late|)
    ensures NoneLate(late + [last], |late| + 1) <==> n == |late| && NoneLate(late, n)
  {
    var more := late + [last];
    assert more[|late|] == last && forall k :: 0 <= k < |late| ==> more[k] == late[k];
  }

  /** A confirmed order conserves the lines exactly when those of its start did and it is not late. */
  lemma ConfirmConserves(start: Cart, b: Book, t: Ticket, n: nat, c: Book)
    requires BookSound(start, b) && TicketSound(start, b, t, n) && IsTicket(t)
    requires c.orders == b.orders + [t.ordered] && c.late == b.late + [n != |b.orders|]
    ensures Conserves(start, Without(t.snapshot, t.ordered), c, |c.orders|)
  {
    LinesGrow(b.orders, n);
    LateAppend(b.late, n, n != |b.orders|);
    assert c.orders[..|c.orders|] == c.orders && c.orders[..|b.orders|] == b.orders;
    assert n == |b.orders| ==> b.orders[..n] == b.orders;
    Balance(multiset(start), multiset(t.snapshot), multiset(Without(t.snapshot, t.ordered)), multiset(t.ordered),
            Lines(b.orders[..n]), Lines(b.orders), NoneLate(b.late, n));
  }

  lemma KeepsConserving(start: Cart, items: Cart, b: Book, c: Book, n: nat)
    requires Conserves(start, items, b, n) && |b.late| == |b.orders| && |b.orders| <= |c.orders| && |b.late| <= |c.late|
    requires c.orders[..|b.orders|] == b.orders && c.late[..|b.late|] == b.late
    ensures Conserves(start, items, c, n)
  {
    assert c.orders[..n] == b.orders[..n];
    assert forall k :: 0 <= k < n ==> c.late[k] == b.late[k];
  }

  /** Nothing was confirmed, or one order more. */
  ghost predicate IsLonger(b: Book, c: Book) {
    && |b.late| == |b.orders|
    && ((c.orders == b.orders && c.late == b.late && c.state.shown == b.state.shown)
        || (exists order, last :: c.orders == b.orders + [order] && c.late == b.late + [last]))
  }

  lemma TicketStaysSound(start: Cart, b: Book, c: Book, t: Ticket, n: nat)
    requires TicketSound(start, b, t, n) && IsLonger(b, c)
    ensures TicketSound(start, c, t, n)
  {
    KeepsConserving(start, t.snapshot, b, c, n);
  }

  /** The book after a start, which may have been refused. */
  ghost predicate Begins(b: Book, c: Book) {
    && c.state.shown == b.state.shown && c.orders == b.orders && c.late == b.late
    && ((c.state.tickets == b.state.tickets && c.since == b.since)
        || (exists t: Ticket ::
              t.snapshot == b.state.shown && c.state.tickets == b.state.tickets + [t]
                && c.since == b.since + [|b.orders|]))
  }

  lemma StartBegins(b: Book, e: Event)
    requires e.Start?
    ensures Begins(b, Noted(b, e))
  {
    CheckoutSplits(b.state.shown, e.store, e.selected, e.user, e.wallet);
  }

  lemma BegunStaysSound(start: Cart, b: Book, c: Book, i: nat)
    requires Begins(b, c) && |b.since| == |b.state.tickets| && |b.late| == |b.orders|
    requires i < |b.since| ==> TicketSound(start, b, b.state.tickets[i], b.since[i])
    requires Conserves(start, b.state.shown, b, |b.orders|) && i < |c.since|
    ensures |c.since| == |c.state.tickets| && TicketSound(start, c, c.state.tickets[i], c.since[i])
  {
    if i < |b.since| {
      TicketStaysSound(start, b, c, b.state.tickets[i], b.since[i]);
    }
  }

  lemma StartKeepsBook(start: Cart, b: Book, e: Event)
    requires BookSound(start, b) && e.Start?
    ensures BookSound(start, Noted(b, e))
  {
    var c := Noted(b, e);
    StepKeepsGood(b.state, e);
    StartBegins(b, e);
    forall i: nat | i < |c.since| ensures TicketSound(start, c, c.state.tickets[i], c.since[i]) {
      BegunStaysSound(start, b, c, i);
    }
  }

  function Drop<T>(items: seq<T>, i: nat): seq<T>
    requires i < |items|
  {
    items[..i] + items[i + 1..]
  }

  /** The book after ticket `i` has finished. */
  ghost predicate Follows(b: Book, c: Book, i: nat, created: bool) {
    && i < |b.since| == |b.state.tickets|
    && c.since == Drop(b.since, i) && c.state.tickets == Drop(b.state.tickets, i)
    && c.orders == (if created then b.orders + [b.state.tickets[i].ordered] else b.orders)
    && c.late == (if created then b.late + [b.since[i] != |b.orders|] else b.late)
    && c.state.shown == if created then Without(b.state.tickets[i].snapshot, b.state.tickets[i].ordered)
        else b.state.shown
  }

  lemma FinishFollows(b: Book, e: Event)
    requires e.Finish? && e.i < |b.since| == |b.state.tickets|
    ensures Follows(b, Noted(b, e), e.i, e.created)
  {
  }

  lemma DropAt<T>(items: seq<T>, i: nat, j: nat)
    requires i < |items| && j < |items| - 1
    ensures |Drop(items, i)| == |items| - 1 && Drop(items, i)[j] == items[if j < i then j else j + 1]
  {
  }

  lemma FollowsIsLonger(b: Book, c: Book, i: nat, created: bool)
    requires Follows(b, c, i, created) && |b.late| == |b.orders|
    ensures IsLonger(b, c)
  {
  }

  /** The tickets that go on waiting when one is finished. */
  lemma WaitingStaySound(start: Cart, b: Book, c: Book, i: nat, created: bool, j: nat, from: nat)
    requires Follows(b, c, i, created) && |b.late| == |b.orders| && j < |c.since|
        && from == (if j < i then j else j + 1)
    requires from < |b.since| ==> TicketSound(start, b, b.state.tickets[from], b.since[from])
    ensures TicketSound(start, c, c.state.tickets[j], c.since[j])
  {
    DropAt(b.since, i, j);
    DropAt(b.state.tickets, i, j);
    FollowsIsLonger(b, c, i, created);
    TicketStaysSound(start, b, c, b.state.tickets[from], b.since[from]);
  }

  lemma FinishConserves(start: Cart, b: Book, c: Book, i: nat, created: bool)
    requires BookSound(start, b) && Follows(b, c, i, created)
    ensures |c.late| == |c.orders| && (forall k :: 0 <= k < |c.orders| ==> c.orders[k] != [])
    ensures Conserves(start, c.state.shown, c, |c.orders|)
  {
    var t, n := b.state.tickets[i], b.since[i];
    assert TicketSound(start, b, t, n);
    if created {
      ConfirmConserves(start, b, t, n, c);
    }
  }

  lemma FinishKeepsBook(start: Cart, b: Book, e: Event)
    requires BookSound(start, b) && e.Finish? && e.i < |b.since|
    ensures BookSound(start, Noted(b, e))
  {
    var c := Noted(b, e);
    StepKeepsGood(b.state, e);
    FinishFollows(b, e);
    FinishConserves(start, b, c, e.i, e.created);
    forall j: nat | j < |c.since| ensures TicketSound(start, c, c.state.tickets[j], c.since[j]) {
      WaitingStaySound(start, b, c, e.i, e.created, j, if j < e.i then j else j + 1);
    }
  }

  lemma {:induction false} BooksAreSound(s: State, events: seq<Event>)
    requires GoodState(s) && s.tickets == [] && forall e :: e in events ==> IsCheckout(e)
    ensures BookSound(s.shown, Booked(s, events)) && Booked(s, events).state == Run(s, events)
  {
    if events != [] {
      var init, e := events[..|events| - 1], events[|events| - 1];
      BooksAreSound(s, init);
      var b := Booked(s, init);
      assert e in events;
      if e.Start? {
        StartKeepsBook(s.shown, b, e);
      } else if e.i < |b.since| {
        FinishKeepsBook(s.shown, b, e);
      }
    }
  }

  /** Over every run of checkouts that start, are confirmed or fail in any order: the shown cart and the
      confirmed orders together are the lines of the first cart, each as often as there, exactly when no order
      was confirmed between the start of another one and its confirmation. */
  lemma CheckoutsConserveIff(s: State, events: seq<Event>)
    requires GoodState(s) && s.tickets == [] && forall e :: e in events ==> IsCheckout(e)
    ensures var b := Booked(s, events);
      && b.state == Run(s, events) && |b.late| == |b.orders|
      && (multiset(b.state.shown) + Lines(b.orders) == multiset(s.shown) <==>
            forall k :: 0 <= k < |b.late| ==> !b.late[k])
  {
    BooksAreSound(s, events);
    var b := Booked(s, events);
    assert b.orders[..|b.orders|] == b.orders;
  }

  /** A confirmation that is not late takes just its order out of the shown cart. */
  lemma TimelyFinish(s: State, events: seq<Event>, i: nat)
    requires GoodState(s) && s.tickets == [] && forall e :: e in events ==> IsCheckout(e)
    requires var b := Booked(s, events); i < |b.since| && b.since[i] == |b.orders|
    ensures var b := Booked(s, events);
      && i < |b.state.tickets|
      && Noted(b, Finish(i, true)).state.shown == Without(b.state.shown, b.state.tickets[i].ordered)
  {
    BooksAreSound(s, events);
    var b := Booked(s, events);
    assert TicketSound(s.shown, b, b.state.tickets[i], b.since[i]);
  }

  lemma FinishTwo(s: State, waiting: seq<Ticket>, a: Ticket, b: Ticket)
    requires s.tickets == waiting + [a] + [b]
    ensures Step(Step(s, Finish(|waiting|, true)), Finish(|waiting|, true)).shown == Without(b.snapshot, b.ordered)
  {
    var n := |waiting|;
    assert s.tickets[..n] + s.tickets[n + 1..] == waiting + [b];
  }

  lemma StartAppends(s: State, store: string, selected: string, t: Ticket)
    requires StartedCheckout(s.shown, store, selected, true, true) == Ok(t)
    ensures Step(s, Start(store, selected, true, true)) == s.(tickets := s.tickets + [t])
    ensures IsTicket(t) && t.snapshot == s.shown && t.store == store
  {
    CheckoutSplits(s.shown, store, selected, true, true);
  }

  /** Such an overlap is possible from every state in which two stores can be ordered from. */
  lemma OverlapBringsBack(s: State, storeA: string, selectedA: string, a: Ticket, storeB: string, selectedB: string,
                          b: Ticket)
    requires storeA != storeB
    requires StartedCheckout(s.shown, storeA, selectedA, true, true) == Ok(a)
    requires StartedCheckout(s.shown, storeB, selectedB, true, true) == Ok(b)
    ensures var n := |s.tickets|;
      var started := Step(Step(s, Start(storeA, selectedA, true, true)), Start(storeB, selectedB, true, true));
      var finished := Step(Step(started, Finish(n, true)), Finish(n, true));
      a.ordered != [] && forall line :: line in a.ordered ==> line in finished.shown
  {
    StartAppends(s, storeA, selectedA, a);
    StartAppends(s.(tickets := s.tickets + [a]), storeB, selectedB, b);
    FinishTwo(s.(tickets := s.tickets + [a] + [b]), s.tickets, a, b);
    OverlappingCheckoutsRestore(s.shown, a, b);
  }
}
