/**
 Quantities, keys and storage of the cart (frontend/lib/cart.js, frontend/components/Cart.jsx), and the state after
 each event of the page, stated on the lines alone.
 */
module CartRules {
  import opened Wrappers
  import opened ShoppingCart
  import opened CheckoutRules

  /** `q` is the larger of 1 and `x`. */
  predicate IsAtLeastOne(q: Quantity, x: real) {
    q.Num? && q.x >= 1.0 && q.x >= x && (q.x == 1.0 || q.x == x)
  }

  /** A requested quantity is the larger of 1 and what was asked for; 1 for what is no number; and without bound only
      if that was asked for. */
  lemma RequestedIs(requested: Requested)
    ensures requested.Number? ==> IsAtLeastOne(Clamped(requested), requested.x)
    ensures requested == NotANumber ==> Clamped(requested) == Num(1.0)
    ensures requested.Unbounded? ==> Clamped(requested) == if requested.positive then Infinity else Num(1.0)
  {
  }

  /** A changed quantity is the larger of 1 and the sum. */
  lemma ChangedIs(x: real, delta: real)
    ensures IsAtLeastOne(Changed(Num(x), delta), x + delta) && Changed(Infinity, delta) == Infinity
  {
  }

  /** The page key of a line: its id and its option, or the default text without one. */
  lemma KeyIs(line: Line)
    requires line.product.id.Str?
    ensures KeyOf(line) ==
      line.product.id.s + ":" + if line.option in {None, Some("")} then "기본 옵션" else line.option.value
  {
  }

  /** A line can be stored: it has an id, a public id and a title, and a finite positive quantity. */
  predicate CanBeStored(line: Line) {
    && line.product.id.Str? && line.product.publicProductId.Str? && line.product.title.Str?
    && line.quantity.Num? && line.quantity.x > 0.0
  }

  /** What is stored of a cart are the lines that can be, as often as there. */
  lemma StoredIs(items: Cart, line: Line)
    ensures multiset(Saved(items))[line] == if CanBeStored(line) then multiset(items)[line] else 0
  {
    FilterCount(items, IsCartItem, line);
  }

  // ----- the state after an event -----

  /** The shown cart is stored, as far as it can be. */
  ghost predicate IsStored(s: State) {
    s.stored == Saved(s.shown)
  }

  /** The lines with the key have a quantity changed by `delta`, the others are as they were. */
  ghost predicate IsUpdated(before: Cart, after: Cart, key: string, delta: real) {
    && |after| == |before|
    && forall i :: 0 <= i < |before| ==>
         if KeyOf(before[i]) == key then
           && after[i] == before[i].(quantity := after[i].quantity)
           && (before[i].quantity == Infinity ==> after[i].quantity == Infinity)
           && (before[i].quantity.Num? ==> IsAtLeastOne(after[i].quantity, before[i].quantity.x + delta))
         else after[i] == before[i]
  }

  /** The ticket with this number is gone, and the others wait on. */
  predicate IsWithout(tickets: seq<Ticket>, rest: seq<Ticket>, i: nat) {
    && i < |tickets| && |rest| == |tickets| - 1
    && (forall j :: 0 <= j < i ==> rest[j] == tickets[j])
    && (forall j :: i <= j < |rest| ==> rest[j] == tickets[j + 1])
  }

  /** What an event makes of the state. */
  ghost predicate IsNext(s: State, e: Event, t: State) {
    match e
    case Add(_, _, _) => t.shown == s.shown && t.tickets == s.tickets
    case Open => t == s.(shown := Saved(s.stored))
    case Update(key, delta) => IsUpdated(s.shown, t.shown, key, delta) && IsStored(t) && t.tickets == s.tickets
    case Remove(key) =>
      && (forall line :: multiset(t.shown)[line] == if KeyOf(line) == key then 0 else multiset(s.shown)[line])
      && IsStored(t) && t.tickets == s.tickets
    case Start(store, selected, user, wallet) =>
      if Missing(s.shown, store, user, wallet).Some? then t == s
      else
        && |t.tickets| == |s.tickets| + 1 && t == s.(tickets := s.tickets + [t.tickets[|s.tickets|]])
        && IsTicketOf(t.tickets[|s.tickets|], s.shown, store, selected)
    case Finish(i, created) =>
      if i >= |s.tickets| then t == s
      else
        && IsWithout(s.tickets, t.tickets, i)
        && if created then
             && IsStored(t)
             && forall line :: multiset(t.shown)[line] ==
                  if line in s.tickets[i].ordered then 0 else multiset(s.tickets[i].snapshot)[line]
           else t.shown == s.shown && t.stored == s.stored
  }

  lemma UpdateIs(items: Cart, key: string, delta: real)
    ensures IsUpdated(items, Updated(items, key, delta), key, delta)
  {
    UpdatedAt(items, key, delta);
  }

  lemma FilteredIs(items: Cart, keep: Line -> bool)
    ensures forall line :: multiset(Filter(items, keep))[line] == if keep(line) then multiset(items)[line] else 0
  {
    forall line ensures multiset(Filter(items, keep))[line] == if keep(line) then multiset(items)[line] else 0 {
      FilterCount(items, keep, line);
    }
  }

  /** Every event has its effect on the shown and the stored cart and on the waiting checkouts, and no other. */
  lemma StepIs(s: State, e: Event)
    ensures IsNext(s, e, Step(s, e))
  {
    match e
    case Update(key, delta) => UpdateIs(s.shown, key, delta);
    case Remove(key) => FilteredIs(s.shown, NotKey(key));
    case Start(store, selected, user, wallet) => CheckoutDecides(s.shown, store, selected, user, wallet);
    case Finish(i, created) =>
      if i < |s.tickets| {
        FilteredIs(s.tickets[i].snapshot, NotIn(s.tickets[i].ordered));
      }
    case _ =>
  }

  /** A purchase takes its order out of the cart and the next ones buy from the rest; one that cannot start changes
      nothing. */
  lemma PurchaseIs(items: Cart, p: Purchase, more: seq<Purchase>)
    ensures Missing(items, p.store, true, true).Some? ==> Bought(items, [p] + more) == Bought(items, more)
    ensures Missing(items, p.store, true, true).None? ==>
      exists t: Ticket :: IsTicketOf(t, items, p.store, p.selected)
        && Bought(items, [p] + more).0 == Bought(Without(items, t.ordered), more).0
        && Bought(items, [p] + more).1 == t.ordered + Bought(Without(items, t.ordered), more).1
  {
    assert ([p] + more)[1..] == more;
    CheckoutDecides(items, p.store, p.selected, true, true);
  }
}
