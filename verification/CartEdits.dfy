/**
 Edits of the cart page while a checkout waits (frontend/components/Cart.jsx): exactly when its confirmation,
 which puts the cart of its start without the ordered lines in place, leaves them as they are.
 */
module CartEdits {
  import opened Wrappers
  import opened ShoppingCart

  predicate IsEdit(e: Event) {
    e.Update? || e.Remove?
  }

  /** A book with the edits since the start of each waiting checkout. */
  datatype Watch = Watch(book: Book, edits: seq<seq<Event>>)

  function Watched(w: Watch, e: Event): Watch {
    var next := Noted(w.book, e);
    match e
    case Start(_, _, _, _) => Watch(next, if |next.since| > |w.book.since| then w.edits + [[]] else w.edits)
    case Finish(i, _) => Watch(next, if i < |w.edits| then Drop(w.edits, i) else w.edits)
    case Update(_, _) => Watch(next, NoteAll(w.edits, e))
    case Remove(_) => Watch(next, NoteAll(w.edits, e))
    case _ => w.(book := next)
  }

  function NoteAll(edits: seq<seq<Event>>, e: Event): seq<seq<Event>> {
    seq(|edits|, i requires 0 <= i < |edits| => edits[i] + [e])
  }

  function WatchedAll(s: State, events: seq<Event>): Watch {
    if events == [] then Watch(Booked(s, []), [])
    else Watched(WatchedAll(s, events[..|events| - 1]), events[|events| - 1])
  }

  // ----- what edits do to a cart, and to one line -----

  function Edit(items: Cart, e: Event): Cart {
    match e
    case Update(key, delta) => Updated(items, key, delta)
    case Remove(key) => Removed(items, key)
    case _ => items
  }

  function Edited(items: Cart, edits: seq<Event>): Cart {
    if edits == [] then items else Edit(Edited(items, edits[..|edits| - 1]), edits[|edits| - 1])
  }

  /** What becomes of one line, which keeps its key. */
  function EditLine(line: Line, e: Event): Option<Line> {
    match e
    case Update(key, delta) =>
      Some(if KeyOf(line) == key then line.(quantity := Changed(line.quantity, delta)) else line)
    case Remove(key) => if KeyOf(line) == key then None else Some(line)
    case _ => Some(line)
  }

  function LineAfter(line: Line, edits: seq<Event>): Option<Line> {
    if edits == [] then Some(line)
    else
      var before := LineAfter(line, edits[..|edits| - 1]);
      if before.None? then None else EditLine(before.value, edits[|edits| - 1])
  }

  function Rest(line: Option<Line>): Cart {
    if line.Some? then [line.value] else []
  }

  function LinesAfter(items: Cart, edits: seq<Event>): Cart {
    if items == [] then [] else Rest(LineAfter(items[0], edits)) + LinesAfter(items[1..], edits)
  }

  lemma {:induction false} EditOne(line: Line, items: Cart, e: Event)
    ensures Edit([line] + items, e) == Rest(EditLine(line, e)) + Edit(items, e)
  {
    assert ([line] + items)[1..] == items;
  }

  lemma {:induction false} EditRest(line: Option<Line>, items: Cart, e: Event)
    ensures Edit(Rest(line) + items, e) == Rest(if line.Some? then EditLine(line.value, e) else None) + Edit(items, e)
  {
    if line.Some? {
      EditOne(line.value, items, e);
    } else {
      assert Rest(line) + items == items;
    }
  }

  lemma {:induction false} EditLines(items: Cart, edits: seq<Event>, e: Event)
    ensures Edit(LinesAfter(items, edits), e) == LinesAfter(items, edits + [e])
  {
    if items != [] {
      EditLines(items[1..], edits, e);
      EditRest(LineAfter(items[0], edits), LinesAfter(items[1..], edits), e);
      assert (edits + [e])[..|edits|] == edits;
    }
  }

  lemma {:induction false} NoEdits(items: Cart)
    ensures LinesAfter(items, []) == items
  {
    if items != [] {
      NoEdits(items[1..]);
    }
  }

  /** Edits act line by line. */
  lemma {:induction false} EditedIs(items: Cart, edits: seq<Event>)
    ensures Edited(items, edits) == LinesAfter(items, edits)
  {
    if edits == [] {
      NoEdits(items);
    } else {
      var init := edits[..|edits| - 1];
      EditedIs(items, init);
      EditLines(items, init, edits[|edits| - 1]);
      assert init + [edits[|edits| - 1]] == edits;
    }
  }

  lemma {:induction false} LineStaysSame(line: Line, edits: seq<Event>)
    ensures LineAfter(line, edits).Some? ==> SameLine(LineAfter(line, edits).value, line)
  {
    if edits != [] {
      LineStaysSame(line, edits[..|edits| - 1]);
    }
  }

  lemma {:induction false} LinesAfterMembers(items: Cart, edits: seq<Event>, x: Line)
    ensures x in LinesAfter(items, edits) <==> exists line :: line in items && LineAfter(line, edits) == Some(x)
  {
    if items != [] {
      LinesAfterMembers(items[1..], edits, x);
      assert forall line :: line in items <==> line == items[0] || line in items[1..];
      assert x in Rest(LineAfter(items[0], edits)) <==> LineAfter(items[0], edits) == Some(x);
      if line :| line in items[1..] && LineAfter(line, edits) == Some(x) {
        assert line in items;
      }
    }
  }

  // ----- when a confirmation leaves the edits as they are -----

  /** The edits leave the line as it was, or remove it and it was ordered. */
  predicate Untouched(line: Line, edits: seq<Event>, ordered: Cart) {
    LineAfter(line, edits) == Some(line) || (LineAfter(line, edits) == None && line in ordered)
  }

  lemma {:induction false} UntouchedIsSame(items: Cart, edits: seq<Event>, ordered: Cart)
    requires forall line :: line in items ==> Untouched(line, edits, ordered)
    ensures Without(LinesAfter(items, edits), ordered) == Without(items, ordered)
  {
    if items != [] {
      UntouchedIsSame(items[1..], edits, ordered);
      assert items[0] in items && Untouched(items[0], edits, ordered);
      FilterAppend(Rest(LineAfter(items[0], edits)), LinesAfter(items[1..], edits), NotIn(ordered));
    }
  }

  lemma OnlyOne(items: Cart, x: Line, y: Line)
    requires GoodCart(items) && x in items && y in items && SameLine(x, y)
    ensures x == y
  {
    var i :| 0 <= i < |items| && items[i] == x;
    var j :| 0 <= j < |items| && items[j] == y;
  }

  lemma SameIsUntouched(items: Cart, edits: seq<Event>, ordered: Cart, line: Line)
    requires GoodCart(items) && line in items && forall x :: x in ordered ==> x in items
    requires Without(LinesAfter(items, edits), ordered) == Without(items, ordered)
    ensures Untouched(line, edits, ordered)
  {
    var keep := NotIn(ordered);
    FilterMembers(items, keep);
    FilterMembers(LinesAfter(items, edits), keep);
    var after := LineAfter(line, edits);
    LineStaysSame(line, edits);
    if line !in ordered {
      assert line in Without(items, ordered);
      LinesAfterMembers(items, edits, line);
      var x :| x in items && LineAfter(x, edits) == Some(line);
      LineStaysSame(x, edits);
      OnlyOne(items, line, x);
    } else if after.Some? {
      LinesAfterMembers(items, edits, after.value);
      assert after.value in ordered || after.value in Without(items, ordered);
      OnlyOne(items, line, after.value);
    }
  }

  lemma TicketLines(t: Ticket)
    requires IsTicket(t)
    ensures forall x :: x in t.ordered ==> x in t.snapshot
  {
    forall x | x in t.ordered ensures x in t.snapshot {
      assert x in multiset(t.ordered) + multiset(Without(t.snapshot, t.ordered));
    }
  }

  // ----- over whole runs -----

  /** The page is not loaded again. */
  predicate IsPageEvent(e: Event) {
    !e.Open?
  }

  ghost predicate WatchSound(w: Watch) {
    var b := w.book;
    && GoodState(b.state) && |w.edits| == |b.since| == |b.state.tickets|
    && forall i :: 0 <= i < |b.since| ==> EditsSound(b, b.state.tickets[i], b.since[i], w.edits[i])
  }

  /** With no order confirmed since the start, the shown cart is that of the start with the edits since. */
  ghost predicate EditsSound(b: Book, t: Ticket, n: nat, edits: seq<Event>) {
    n <= |b.orders| && (n == |b.orders| ==> b.state.shown == Edited(t.snapshot, edits))
  }

  lemma EditNoted(b: Book, t: Ticket, n: nat, edits: seq<Event>, e: Event)
    requires EditsSound(b, t, n, edits) && IsEdit(e)
    ensures EditsSound(Noted(b, e), t, n, edits + [e])
  {
    assert (edits + [e])[..|edits|] == edits;
  }

  lemma StartWatched(w: Watch, e: Event)
    requires WatchSound(w) && e.Start?
    ensures WatchSound(Watched(w, e))
  {
    StepKeepsGood(w.book.state, e);
    StartBegins(w.book, e);
  }

  lemma FinishWatched(w: Watch, e: Event)
    requires WatchSound(w) && e.Finish?
    ensures WatchSound(Watched(w, e))
  {
    StepKeepsGood(w.book.state, e);
    var b, c := w.book, Watched(w, e);
    if e.i < |b.since| {
      FinishFollows(b, e);
      forall j | 0 <= j < |c.book.since|
        ensures EditsSound(c.book, c.book.state.tickets[j], c.book.since[j], c.edits[j])
      {
        DropAt(b.since, e.i, j);
        DropAt(b.state.tickets, e.i, j);
        DropAt(w.edits, e.i, j);
        var from := if j < e.i then j else j + 1;
        assert EditsSound(b, b.state.tickets[from], b.since[from], w.edits[from]);
      }
    }
  }

  lemma EditWatched(w: Watch, e: Event)
    requires WatchSound(w) && IsEdit(e)
    ensures WatchSound(Watched(w, e))
  {
    StepKeepsGood(w.book.state, e);
    var c := Watched(w, e);
    forall i | 0 <= i < |c.book.since|
      ensures EditsSound(c.book, c.book.state.tickets[i], c.book.since[i], c.edits[i])
    {
      EditNoted(w.book, w.book.state.tickets[i], w.book.since[i], w.edits[i], e);
    }
  }

  lemma {:induction false} WatchesAreSound(s: State, events: seq<Event>)
    requires GoodState(s) && s.tickets == [] && forall e :: e in events ==> IsPageEvent(e)
    ensures WatchSound(WatchedAll(s, events)) && WatchedAll(s, events).book.state == Run(s, events)
  {
    if events != [] {
      var init, e := events[..|events| - 1], events[|events| - 1];
      assert e in events;
      WatchesAreSound(s, init);
      var w := WatchedAll(s, init);
      if e.Start? {
        StartWatched(w, e);
      } else if e.Finish? {
        FinishWatched(w, e);
      } else if IsEdit(e) {
        EditWatched(w, e);
      } else {
        StepKeepsGood(w.book.state, e);
      }
    }
  }

  /** Over every run of adds, edits and checkouts: a confirmation with no other since its start takes just its order
      out of the shown cart, and so leaves the edits since as they are, exactly when they leave every line of
      the start as it was or remove it and it was ordered; all other edits are undone. */
  lemma EditsSurviveIff(s: State, events: seq<Event>, i: nat)
    requires GoodState(s) && s.tickets == [] && forall e :: e in events ==> IsPageEvent(e)
    requires var b := WatchedAll(s, events).book; i < |b.since| && b.since[i] == |b.orders|
    ensures var w := WatchedAll(s, events);
      && i < |w.edits| == |w.book.state.tickets|
      && var t := w.book.state.tickets[i];
         && w.book.state.shown == Edited(t.snapshot, w.edits[i])
         && (Noted(w.book, Finish(i, true)).state.shown == Without(w.book.state.shown, t.ordered) <==>
               forall line :: line in t.snapshot ==> Untouched(line, w.edits[i], t.ordered))
  {
    WatchesAreSound(s, events);
    var w := WatchedAll(s, events);
    var t, edits := w.book.state.tickets[i], w.edits[i];
    assert EditsSound(w.book, t, w.book.since[i], edits);
    EditedIs(t.snapshot, edits);
    TicketLines(t);
    if Without(LinesAfter(t.snapshot, edits), t.ordered) == Without(t.snapshot, t.ordered) {
      forall line | line in t.snapshot ensures Untouched(line, edits, t.ordered) {
        SameIsUntouched(t.snapshot, edits, t.ordered, line);
      }
    } else {
      if forall line :: line in t.snapshot ==> Untouched(line, edits, t.ordered) {
        UntouchedIsSame(t.snapshot, edits, t.ordered);
      }
    }
  }
}
