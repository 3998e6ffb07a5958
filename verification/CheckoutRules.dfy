/**
 Which checkout starts and what it orders (frontend/components/Cart.jsx), stated on the lines of the cart alone.
 */
module CheckoutRules {
  import opened Wrappers
  import opened ShoppingCart

  /** The line is of this store, by its public id or else by the other. */
  predicate BelongsTo(line: Line, store: string) {
    store == if line.product.publicStoreId == "" then line.product.storePublicId else line.product.publicStoreId
  }

  ghost predicate HasLine(shown: Cart, store: string) {
    exists i :: 0 <= i < |shown| && BelongsTo(shown[i], store)
  }

  /** Some line of the store can be paid with this option. */
  ghost predicate IsOffered(shown: Cart, store: string, option: string) {
    exists i :: 0 <= i < |shown| && BelongsTo(shown[i], store) && option in shown[i].product.options
  }

  ghost predicate HasOption(shown: Cart, store: string) {
    exists option :: IsOffered(shown, store, option)
  }

  /** The first option of the first line of the store that has one. */
  ghost predicate IsFirstOption(shown: Cart, store: string, option: string) {
    exists i :: 0 <= i < |shown| && BelongsTo(shown[i], store) && shown[i].product.options != []
      && option == shown[i].product.options[0]
      && forall j :: 0 <= j < i && BelongsTo(shown[j], store) ==> shown[j].product.options == []
  }

  function Takes(store: string, option: string): Line -> bool {
    (line: Line) => BelongsTo(line, store) && option in line.product.options
  }

  // ----- options -----

  lemma {:induction false} FirstStays(before: seq<string>, more: seq<string>)
    ensures before != [] ==> WithoutRepeats(before, more) != [] && WithoutRepeats(before, more)[0] == before[0]
    ensures before == [] && more != [] ==>
      WithoutRepeats(before, more) != [] && WithoutRepeats(before, more)[0] == more[0]
    ensures before == [] && more == [] ==> WithoutRepeats(before, more) == []
    decreases more
  {
    if more != [] {
      FirstStays(if more[0] in before then before else before + [more[0]], more[1..]);
    }
  }

  predicate IsFirstWithOption(items: Cart, i: int) {
    && 0 <= i < |items| && items[i].product.options != []
    && forall j :: 0 <= j < i ==> items[j].product.options == []
  }

  lemma {:induction false} NoOptions(items: Cart)
    requires OptionsOf(items) == []
    ensures forall i :: 0 <= i < |items| ==> items[i].product.options == []
  {
    if items != [] {
      var init, last := items[..|items| - 1], |items| - 1;
      FirstStays(OptionsOf(init), items[last].product.options);
      NoOptions(init);
      assert forall i :: 0 <= i < last ==> items[i] == init[i];
    }
  }

  lemma {:induction false} FirstOption(items: Cart) returns (k: nat)
    requires OptionsOf(items) != []
    ensures IsFirstWithOption(items, k) && OptionsOf(items)[0] == items[k].product.options[0]
  {
    var init, last := items[..|items| - 1], |items| - 1;
    FirstStays(OptionsOf(init), items[last].product.options);
    if OptionsOf(init) != [] {
      k := FirstOption(init);
    } else {
      NoOptions(init);
      k := last;
      assert forall j :: 0 <= j < last ==> items[j] == init[j];
    }
  }

  /** The lines of a store are a part of the cart, in its order. */
  lemma {:induction false} StoreLine(shown: Cart, store: string, k: nat) returns (i: nat)
    requires k < |OfStore(shown, store)|
    ensures i < |shown| && shown[i] == OfStore(shown, store)[k] && BelongsTo(shown[i], store)
    ensures forall j :: 0 <= j < i && BelongsTo(shown[j], store) ==>
      exists l :: 0 <= l < k && OfStore(shown, store)[l] == shown[j]
  {
    var items, rest := OfStore(shown, store), OfStore(shown[1..], store);
    if InStore(store)(shown[0]) {
      if k == 0 {
        i := 0;
      } else {
        i := StoreLine(shown[1..], store, k - 1);
        i := i + 1;
        forall j | 0 <= j < i && BelongsTo(shown[j], store) ensures exists l :: 0 <= l < k && items[l] == shown[j] {
          if j == 0 {
            assert items[0] == shown[0];
          } else {
            var l :| 0 <= l < k - 1 && rest[l] == shown[1..][j - 1];
            assert items[l + 1] == shown[j];
          }
        }
      }
    } else {
      i := StoreLine(shown[1..], store, k);
      i := i + 1;
      forall j | 0 <= j < i && BelongsTo(shown[j], store) ensures exists l :: 0 <= l < k && items[l] == shown[j] {
        var l :| 0 <= l < k && rest[l] == shown[1..][j - 1];
        assert items[l] == shown[j];
      }
    }
  }

  lemma StoreMembers(shown: Cart, store: string, line: Line)
    ensures line in OfStore(shown, store) <==> line in shown && BelongsTo(line, store)
  {
    FilterMembers(shown, InStore(store));
  }

  lemma OfferedIff(shown: Cart, store: string, option: string)
    ensures option in OptionsOf(OfStore(shown, store)) <==> IsOffered(shown, store, option)
  {
    var items := OfStore(shown, store);
    OptionsOfMembers(items);
    if i :| 0 <= i < |items| && option in items[i].product.options {
      StoreMembers(shown, store, items[i]);
      assert items[i] in items;
      var j :| 0 <= j < |shown| && shown[j] == items[i];
    }
    if i :| 0 <= i < |shown| && BelongsTo(shown[i], store) && option in shown[i].product.options {
      StoreMembers(shown, store, shown[i]);
      var j :| 0 <= j < |items| && items[j] == shown[i];
    }
  }

  lemma DefaultIsFirst(shown: Cart, store: string)
    requires OptionsOf(OfStore(shown, store)) != []
    ensures IsFirstOption(shown, store, OptionsOf(OfStore(shown, store))[0])
  {
    var items := OfStore(shown, store);
    var k := FirstOption(items);
    var i := StoreLine(shown, store, k);
  }

  lemma {:induction false} OrderedIs(shown: Cart, store: string, option: string)
    ensures Active(OfStore(shown, store), Some(option)) == Filter(shown, Takes(store, option))
  {
    if shown != [] {
      OrderedIs(shown[1..], store, option);
    }
  }

  /** The option of a checkout: the selected one, if some line of the store can be paid with it, or the first. */
  ghost predicate IsInEffect(shown: Cart, store: string, selected: string, option: string) {
    if IsOffered(shown, store, selected) then option == selected else IsFirstOption(shown, store, option)
  }

  /** The ticket orders, in the order of the cart, all lines of the store that can be paid with the option in effect. */
  ghost predicate IsTicketOf(t: Ticket, shown: Cart, store: string, selected: string) {
    && t.snapshot == shown && t.store == store && t.chosen.Some?
    && IsInEffect(shown, store, selected, t.chosen.value)
    && t.ordered == Filter(shown, Takes(store, t.chosen.value)) && t.ordered != []
  }

  /** What is missing first: a line of the store, its name, a user, an option, a wallet. */
  ghost function Missing(shown: Cart, store: string, user: bool, wallet: bool): Option<Refusal> {
    if !HasLine(shown, store) then Some(NoGroup)
    else if store == "" then Some(NoStore)
    else if !user then Some(NoUser)
    else if !HasOption(shown, store) then Some(NoPaymentOption)
    else if !wallet then Some(NoWallet)
    else None
  }

  /** A checkout starts exactly if nothing is missing, and what is missing first is the refusal. */
  lemma CheckoutDecides(shown: Cart, store: string, selected: string, user: bool, wallet: bool)
    ensures var r := StartedCheckout(shown, store, selected, user, wallet);
      var missing := Missing(shown, store, user, wallet);
      && (missing.Some? ==> r == Err(missing.value))
      && (missing.None? ==> r.Ok? && IsTicketOf(r.value, shown, store, selected))
  {
    var items := OfStore(shown, store);
    var options := OptionsOf(items);
    StoreIsListedIff(shown, store);
    OfferedIff(shown, store, selected);
    if options != [] {
      OfferedIff(shown, store, options[0]);
      DefaultIsFirst(shown, store);
      var option := if selected in options then selected else options[0];
      OrderedIs(shown, store, option);
      ChosenIsSupported(items, selected);
    } else {
      forall option ensures !IsOffered(shown, store, option) {
        OfferedIff(shown, store, option);
      }
    }
  }

  lemma {:induction false} StoreIsListedIff(shown: Cart, store: string)
    ensures store in Stores(shown) <==> HasLine(shown, store)
  {
    if shown != [] {
      var last := |shown| - 1;
      StoreIsListedIff(shown[..last], store);
      if i :| 0 <= i < |shown| && BelongsTo(shown[i], store) {
        assert i < last ==> shown[..last][i] == shown[i];
      }
    }
  }
}
