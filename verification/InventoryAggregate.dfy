/**
 The stock of a product variant and its reservations (app/token_payments/contexts/inventory/domain/model.py):
 a value that is checked whenever a new one is made.
 */
module InventoryAggregate {
  import opened Wrappers

  datatype Error = ValueError

  datatype Status = Pending | Confirmed | Cancelled

  datatype Reservation = Reservation(id: int, order: int, quantity: nat, status: Status)

  datatype Inventory = Inventory(available: nat, reserved: nat, total: nat, active: bool,
    reservations: seq<Reservation>)

  type Outcome = Result<Inventory, Error>

  // ----- the checks of a new value -----

  function SumOf(reservations: seq<Reservation>, status: Status): nat {
    if reservations == [] then 0
    else
      var last := reservations[|reservations| - 1];
      SumOf(reservations[..|reservations| - 1], status) + if last.status == status then last.quantity else 0
  }

  /** The loop of `_validate_reserved_stock_matches_pending_reservations`. */
  method PendingQuantity(reservations: seq<Reservation>) returns (sum: nat)
    ensures sum == SumOf(reservations, Pending)
  {
    sum := 0;
    for n := 0 to |reservations|
      invariant sum == SumOf(reservations[..n], Pending)
    {
      assert reservations[..n + 1][..n] == reservations[..n];
      if reservations[n].status.Pending? {
        sum := sum + reservations[n].quantity;
      }
    }
    assert reservations[..|reservations|] == reservations;
  }

  /** No two reservations share an order, or an id. */
  predicate HasIdentity(reservations: seq<Reservation>) {
    forall i, j :: 0 <= i < j < |reservations| ==>
      reservations[i].order != reservations[j].order && reservations[i].id != reservations[j].id
  }

  /** What `ProductInventory.__post_init__` accepts. */
  predicate IsInventory(v: Inventory) {
    && v.available + v.reserved == v.total && HasIdentity(v.reservations)
    && v.reserved == SumOf(v.reservations, Pending)
    && forall i :: 0 <= i < |v.reservations| ==> v.reservations[i].quantity > 0
  }

  /** A new value, if its quantities are not negative and the checks pass. */
  function Checked(available: int, reserved: int, total: int, active: bool, reservations: seq<Reservation>): Outcome {
    if available < 0 || reserved < 0 || total < 0 then Err(ValueError)
    else
      var v := Inventory(available, reserved, total, active, reservations);
      if IsInventory(v) then Ok(v) else Err(ValueError)
  }

  // ----- the operations -----

  function Find(reservations: seq<Reservation>, order: int): (r: Option<nat>)
    ensures r.Some? ==> r.value < |reservations| && reservations[r.value].order == order
    ensures r.None? ==> forall i :: 0 <= i < |reservations| ==> reservations[i].order != order
  {
    if reservations == [] then None
    else if reservations[0].order == order then Some(0)
    else
      var rest := Find(reservations[1..], order);
      if rest.Some? then Some(rest.value + 1) else None
  }

  /** `_replace_reservation`: by id. */
  function Replaced(reservations: seq<Reservation>, r: Reservation): (s: seq<Reservation>)
    ensures |s| == |reservations|
  {
    seq(|reservations|, i requires 0 <= i < |reservations| => if reservations[i].id == r.id then r else reservations[i])
  }

  function Reserve(v: Inventory, order: int, quantity: int, id: int): Outcome {
    if quantity <= 0 then Err(ValueError)
    else if Find(v.reservations, order).Some? then Ok(v)
    else if v.available < quantity then Err(ValueError)
    else
      Checked(v.available - quantity, v.reserved + quantity, v.total, v.active,
              v.reservations + [Reservation(id, order, quantity, Pending)])
  }

  function Release(v: Inventory, order: int): Outcome {
    var at := Find(v.reservations, order);
    if at.None? then Err(ValueError)
    else
      var r := v.reservations[at.value];
      match r.status
      case Cancelled => Ok(v)
      case Confirmed => Err(ValueError)
      case Pending =>
        Checked(v.available + r.quantity, v.reserved - r.quantity, v.total, v.active,
                Replaced(v.reservations, r.(status := Cancelled)))
  }

  function Confirm(v: Inventory, order: int): Outcome {
    var at := Find(v.reservations, order);
    if at.None? then Err(ValueError)
    else
      var r := v.reservations[at.value];
      match r.status
      case Confirmed => Ok(v)
      case Cancelled => Err(ValueError)
      case Pending =>
        Checked(v.available, v.reserved - r.quantity, v.total - r.quantity, v.active,
                Replaced(v.reservations, r.(status := Confirmed)))
  }

  function Increase(v: Inventory, quantity: int): Outcome {
    if quantity <= 0 then Err(ValueError)
    else Checked(v.available + quantity, v.reserved, v.total + quantity, v.active, v.reservations)
  }

  function Decrease(v: Inventory, quantity: int): Outcome {
    if quantity <= 0 then Err(ValueError)
    else Checked(v.available - quantity, v.reserved, v.total - quantity, v.active, v.reservations)
  }

  function CorrectTotal(v: Inventory, target: int): Outcome {
    if target < v.reserved then Err(ValueError)
    else Checked(target - v.reserved, v.reserved, target, v.active, v.reservations)
  }

  // ----- the checks never refuse what an operation makes -----

  lemma {:induction false} SumUpdate(before: seq<Reservation>, i: nat, r: Reservation, status: Status)
    requires i < |before|
    ensures SumOf(before[i := r], status) ==
      SumOf(before, status) - (if before[i].status == status then before[i].quantity else 0)
        + (if r.status == status then r.quantity else 0)
    ensures before[i].status == status ==> before[i].quantity <= SumOf(before, status)
  {
    var last := |before| - 1;
    if i == last {
      assert before[i := r][..last] == before[..last];
    } else {
      assert before[i := r][..last] == before[..last][i := r];
      SumUpdate(before[..last], i, r, status);
    }
  }

  lemma ReplacedIsUpdate(reservations: seq<Reservation>, i: nat, r: Reservation)
    requires HasIdentity(reservations) && i < |reservations| && r.id == reservations[i].id
    ensures Replaced(reservations, r) == reservations[i := r]
    ensures r.order == reservations[i].order ==> HasIdentity(reservations[i := r])
  {
  }

  /** What an accepted inventory is: no negative quantity, available and reserved stock make up the total, an order and
      an id have one reservation each, of a positive quantity; and without reservations nothing is reserved. */
  lemma AcceptedIs(v: Inventory, i: nat, j: nat)
    requires IsInventory(v) && i < |v.reservations| && j < |v.reservations|
    ensures v.available + v.reserved == v.total && v.reservations[i].quantity >= 1
    ensures i != j ==>
      v.reservations[i].order != v.reservations[j].order && v.reservations[i].id != v.reservations[j].id
  {
  }

  lemma EmptyAcceptedIff(available: int, reserved: int, total: int, active: bool)
    ensures Checked(available, reserved, total, active, []).Ok? <==> reserved == 0 && available == total >= 0
  {
  }

  lemma IdentityIff(reservations: seq<Reservation>, r: Reservation)
    requires HasIdentity(reservations)
    ensures HasIdentity(reservations + [r]) <==> forall s :: s in reservations ==> s.order != r.order && s.id != r.id
  {
    var more := reservations + [r];
    if s :| s in reservations && (s.order == r.order || s.id == r.id) {
      var i :| 0 <= i < |reservations| && reservations[i] == s;
      assert more[i] == s && more[|reservations|] == r;
    }
  }

  /** One reservation more is accepted exactly if its order and id are new and its quantity is positive and, as long as
      it is pending, reserved besides what was. */
  lemma OneMoreAcceptedIff(v: Inventory, reserved: nat, r: Reservation)
    requires IsInventory(v) && reserved <= v.total
    ensures Checked(v.total - reserved, reserved, v.total, v.active, v.reservations + [r]).Ok? <==>
      && r.quantity > 0 && reserved == v.reserved + (if r.status == Pending then r.quantity else 0)
      && forall s :: s in v.reservations ==> s.order != r.order && s.id != r.id
  {
    SumAppend(v.reservations, r, Pending);
    IdentityIff(v.reservations, r);
    assert forall i :: 0 <= i < |v.reservations| ==> (v.reservations + [r])[i] == v.reservations[i];
    assert (v.reservations + [r])[|v.reservations|] == r;
  }

  lemma NewReservation(reservations: seq<Reservation>, r: Reservation)
    requires HasIdentity(reservations) && Find(reservations, r.order).None?
    ensures HasIdentity(reservations + [r]) <==> forall s :: s in reservations ==> s.id != r.id
    ensures SumOf(reservations + [r], Pending) ==
      SumOf(reservations, Pending) + if r.status.Pending? then r.quantity else 0
  {
    SumAppend(reservations, r, Pending);
    IdentityIff(reservations, r);
    forall s | s in reservations ensures s.order != r.order {
      var i :| 0 <= i < |reservations| && reservations[i] == s;
    }
  }

  lemma ReserveNew(v: Inventory, order: int, quantity: nat, id: int)
    requires IsInventory(v) && quantity > 0 && Find(v.reservations, order).None?
    ensures Reserve(v, order, quantity, id) ==
      if quantity <= v.available && forall r :: r in v.reservations ==> r.id != id then
        Ok(v.(available := v.available - quantity, reserved := v.reserved + quantity,
              reservations := v.reservations + [Reservation(id, order, quantity, Pending)]))
      else Err(ValueError)
  {
    NewReservation(v.reservations, Reservation(id, order, quantity, Pending));
  }

  /** A reservation is accepted exactly for a positive quantity of an order that has one already, or that the
      available stock covers and whose id is new. A known order changes nothing, whatever its quantity; a new one
      moves the quantity from available to reserved. */
  lemma ReserveIff(v: Inventory, order: int, quantity: int, id: int)
    requires IsInventory(v)
    ensures var known := Find(v.reservations, order).Some?;
      && (Reserve(v, order, quantity, id).Ok? <==>
            quantity > 0 && (known || (quantity <= v.available && forall r :: r in v.reservations ==> r.id != id)))
      && (quantity > 0 && known ==> Reserve(v, order, quantity, id) == Ok(v))
      && (Reserve(v, order, quantity, id).Ok? && !known ==>
            Reserve(v, order, quantity, id).value ==
              v.(available := v.available - quantity, reserved := v.reserved + quantity,
                 reservations := v.reservations + [Reservation(id, order, quantity, Pending)]))
  {
    if quantity > 0 && Find(v.reservations, order).None? {
      ReserveNew(v, order, quantity, id);
    }
  }

  /** A release is refused only for an unknown order or a confirmed reservation; it gives the quantity back. */
  lemma ReleaseIff(v: Inventory, order: int)
    requires IsInventory(v)
    ensures var at := Find(v.reservations, order);
      && (Release(v, order).Ok? <==> at.Some? && !v.reservations[at.value].status.Confirmed?)
      && (at.Some? && v.reservations[at.value].status.Pending? ==>
            var q := v.reservations[at.value].quantity;
            && q <= v.reserved
            && Release(v, order) == Ok(v.(available := v.available + q, reserved := v.reserved - q,
                                          reservations := Settled(v.reservations, at.value, Cancelled))))
  {
    var at := Find(v.reservations, order);
    if at.Some? {
      ReplacedIsUpdate(v.reservations, at.value, v.reservations[at.value].(status := Cancelled));
      SumUpdate(v.reservations, at.value, v.reservations[at.value].(status := Cancelled), Pending);
    }
  }

  /** A confirmation is refused only for an unknown order or a cancelled reservation; the quantity leaves the stock. */
  lemma ConfirmIff(v: Inventory, order: int)
    requires IsInventory(v)
    ensures var at := Find(v.reservations, order);
      && (Confirm(v, order).Ok? <==> at.Some? && !v.reservations[at.value].status.Cancelled?)
      && (at.Some? && v.reservations[at.value].status.Pending? ==>
            var q := v.reservations[at.value].quantity;
            && q <= v.reserved
            && Confirm(v, order) == Ok(v.(reserved := v.reserved - q, total := v.total - q,
                                          reservations := Settled(v.reservations, at.value, Confirmed))))
  {
    var at := Find(v.reservations, order);
    if at.Some? {
      ReplacedIsUpdate(v.reservations, at.value, v.reservations[at.value].(status := Confirmed));
      SumUpdate(v.reservations, at.value, v.reservations[at.value].(status := Confirmed), Pending);
    }
  }

  function Settled(reservations: seq<Reservation>, i: nat, status: Status): seq<Reservation>
    requires i < |reservations|
  {
    reservations[i := reservations[i].(status := status)]
  }

  /** Stock changes are refused exactly when the quantity is not positive, more than is available, or the target
      is below what is reserved; else available and total stock change by the quantity, or total is the target and
      available what of it is not reserved. Reservations and what they hold stay. */
  lemma StockIff(v: Inventory, quantity: int)
    requires IsInventory(v)
    ensures Increase(v, quantity) ==
      if quantity > 0 then Ok(v.(available := v.available + quantity, total := v.total + quantity)) else Err(ValueError)
    ensures Decrease(v, quantity) ==
      if 0 < quantity <= v.available then Ok(v.(available := v.available - quantity, total := v.total - quantity))
      else Err(ValueError)
    ensures CorrectTotal(v, quantity) ==
      if v.reserved <= quantity then Ok(v.(available := quantity - v.reserved, total := quantity)) else Err(ValueError)
  {
  }

  // ----- runs -----

  datatype Command =
    | ReserveFor(order: int, quantity: int, id: int)
    | ReleaseOf(order: int)
    | ConfirmOf(order: int)
    | IncreaseBy(quantity: int)
    | DecreaseBy(quantity: int)
    | CorrectTo(target: int)
    | SetActive(active: bool)

  function Execute(v: Inventory, c: Command): Outcome {
    match c
    case ReserveFor(order, quantity, id) => Reserve(v, order, quantity, id)
    case ReleaseOf(order) => Release(v, order)
    case ConfirmOf(order) => Confirm(v, order)
    case IncreaseBy(quantity) => Increase(v, quantity)
    case DecreaseBy(quantity) => Decrease(v, quantity)
    case CorrectTo(target) => CorrectTotal(v, target)
    case SetActive(active) => Ok(v.(active := active))
  }

  /** A command that raises leaves the inventory as it is. */
  function Step(v: Inventory, c: Command): Inventory {
    var r := Execute(v, c);
    if r.Ok? then r.value else v
  }

  function Run(v: Inventory, commands: seq<Command>): Inventory {
    if commands == [] then v else Step(Run(v, commands[..|commands| - 1]), commands[|commands| - 1])
  }

  /** What commands for the stock itself have added to it; negative for a decrease. */
  function Adjusted(v: Inventory, commands: seq<Command>): int {
    if commands == [] then 0
    else
      var before, c := Run(v, commands[..|commands| - 1]), commands[|commands| - 1];
      Adjusted(v, commands[..|commands| - 1])
      + if ChangesStock(c) then Step(before, c).total - before.total else 0
  }

  /** The reservations of `v` are still there, in their places; only a pending one can have changed its status. */
  ghost predicate KeepsReservations(v: Inventory, w: Inventory) {
    && |v.reservations| <= |w.reservations|
    && forall i :: 0 <= i < |v.reservations| ==> IsLaterThan(w.reservations[i], v.reservations[i])
  }

  predicate IsLaterThan(now: Reservation, before: Reservation) {
    now == before || (before.status.Pending? && now == before.(status := now.status))
  }

  lemma {:induction false} SumAppend(reservations: seq<Reservation>, r: Reservation, status: Status)
    ensures SumOf(reservations + [r], status) == SumOf(reservations, status)
        + if r.status == status then r.quantity else 0
  {
    assert (reservations + [r])[..|reservations|] == reservations;
  }

  predicate ChangesStock(c: Command) {
    c.IncreaseBy? || c.DecreaseBy? || c.CorrectTo?
  }

  /** What one command keeps: the checks, the reservations, and total and confirmed quantities together, except
      that a command for the stock itself changes the total. */
  ghost predicate IsStep(v: Inventory, w: Inventory, stock: bool) {
    && IsInventory(w) && KeepsReservations(v, w)
    && (if stock then SumOf(w.reservations, Confirmed) == SumOf(v.reservations, Confirmed)
        else w.total + SumOf(w.reservations, Confirmed) == v.total + SumOf(v.reservations, Confirmed))
  }

  lemma ReserveEffect(v: Inventory, order: int, quantity: int, id: int)
    requires IsInventory(v) && Reserve(v, order, quantity, id).Ok?
    ensures IsStep(v, Reserve(v, order, quantity, id).value, false)
  {
    ReserveIff(v, order, quantity, id);
    SumAppend(v.reservations, Reservation(id, order, quantity, Pending), Confirmed);
  }

  lemma ReleaseEffect(v: Inventory, order: int)
    requires IsInventory(v) && Release(v, order).Ok?
    ensures IsStep(v, Release(v, order).value, false)
  {
    ReleaseIff(v, order);
    SettledSums(v.reservations, order, Cancelled);
  }

  lemma ConfirmEffect(v: Inventory, order: int)
    requires IsInventory(v) && Confirm(v, order).Ok?
    ensures IsStep(v, Confirm(v, order).value, false)
  {
    ConfirmIff(v, order);
    SettledSums(v.reservations, order, Confirmed);
  }

  lemma StepEffect(v: Inventory, c: Command)
    requires IsInventory(v)
    ensures IsStep(v, Step(v, c), ChangesStock(c))
  {
    if Execute(v, c).Ok? {
      match c
      case ReserveFor(order, quantity, id) => ReserveEffect(v, order, quantity, id);
      case ReleaseOf(order) => ReleaseEffect(v, order);
      case ConfirmOf(order) => ConfirmEffect(v, order);
      case _ =>
    }
  }

  lemma SettledSums(reservations: seq<Reservation>, order: int, status: Status)
    ensures var at := Find(reservations, order);
      at.Some? ==>
        SumOf(Settled(reservations, at.value, status), Confirmed) ==
          SumOf(reservations, Confirmed)
          - (if reservations[at.value].status.Confirmed? then reservations[at.value].quantity else 0)
          + (if status.Confirmed? then reservations[at.value].quantity else 0)
  {
    var at := Find(reservations, order);
    if at.Some? {
      SumUpdate(reservations, at.value, reservations[at.value].(status := status), Confirmed);
    }
  }

  /** Over any run of commands, refused ones included: available and reserved stock make up the total, reserved
      is what pending reservations hold, and what was confirmed has left the stock exactly once: the total and
      all confirmed quantities together are those of the start and what was added since. */
  lemma {:induction false} RunsConserve(v: Inventory, commands: seq<Command>)
    requires IsInventory(v)
    ensures var w := Run(v, commands);
      && IsInventory(w)
      && w.total + SumOf(w.reservations, Confirmed) == v.total + SumOf(v.reservations, Confirmed)
          + Adjusted(v, commands)
  {
    if commands != [] {
      var init := commands[..|commands| - 1];
      RunsConserve(v, init);
      StepEffect(Run(v, init), commands[|commands| - 1]);
    }
  }

  /** The pending reservation of an order. */
  predicate IsPendingOf(w: Inventory, order: int, i: int) {
    0 <= i < |w.reservations| && w.reservations[i].order == order && w.reservations[i].status == Pending
  }

  /** What the inventory is after one more command, in any run. */
  ghost predicate IsAfter(w: Inventory, c: Command, next: Inventory) {
    match c
    case ReserveFor(order, quantity, id) =>
      next ==
        if 0 < quantity <= w.available && forall r :: r in w.reservations ==> r.order != order && r.id != id then
          w.(available := w.available - quantity, reserved := w.reserved + quantity,
             reservations := w.reservations + [Reservation(id, order, quantity, Pending)])
        else w
    case ReleaseOf(order) =>
      && ((forall i :: !IsPendingOf(w, order, i)) ==> next == w)
      && forall i :: IsPendingOf(w, order, i) ==>
           var r := w.reservations[i];
           && r.quantity <= w.reserved
           && next == w.(available := w.available + r.quantity, reserved := w.reserved - r.quantity,
                         reservations := w.reservations[i := r.(status := Cancelled)])
    case ConfirmOf(order) =>
      && ((forall i :: !IsPendingOf(w, order, i)) ==> next == w)
      && forall i :: IsPendingOf(w, order, i) ==>
           var r := w.reservations[i];
           && r.quantity <= w.reserved <= w.total
           && next == w.(reserved := w.reserved - r.quantity, total := w.total - r.quantity,
                         reservations := w.reservations[i := r.(status := Confirmed)])
    case IncreaseBy(quantity) =>
      next ==
        if quantity > 0 then w.(available := w.available + quantity, total := w.total + quantity) else w
    case DecreaseBy(quantity) =>
      next ==
        if 0 < quantity <= w.available <= w.total
        then w.(available := w.available - quantity, total := w.total - quantity) else w
    case CorrectTo(target) =>
      next == if w.reserved <= target then w.(available := target - w.reserved, total := target) else w
    case SetActive(active) => next == w.(active := active)
  }

  lemma ReserveIsAfter(w: Inventory, c: Command)
    requires IsInventory(w) && c.ReserveFor?
    ensures IsAfter(w, c, Step(w, c))
  {
    ReserveIff(w, c.order, c.quantity, c.id);
    var at := Find(w.reservations, c.order);
    if at.Some? {
      assert w.reservations[at.value] in w.reservations;
    } else {
      forall r | r in w.reservations ensures r.order != c.order {
        var i :| 0 <= i < |w.reservations| && w.reservations[i] == r;
      }
    }
  }

  lemma FoundIsOnly(w: Inventory, order: int, i: int)
    requires IsInventory(w) && IsPendingOf(w, order, i)
    ensures Find(w.reservations, order) == Some(i)
  {
  }

  lemma SettleIsAfter(w: Inventory, c: Command)
    requires IsInventory(w) && (c.ReleaseOf? || c.ConfirmOf?)
    ensures IsAfter(w, c, Step(w, c))
  {
    ReleaseIff(w, c.order);
    ConfirmIff(w, c.order);
    var at := Find(w.reservations, c.order);
    forall i | IsPendingOf(w, c.order, i) ensures at == Some(i) {
      FoundIsOnly(w, c.order, i);
    }
    if at.Some? && w.reservations[at.value].status.Pending? {
      assert IsPendingOf(w, c.order, at.value);
    }
  }

  lemma StockIsAfter(w: Inventory, c: Command)
    requires IsInventory(w) && !c.ReserveFor? && !c.ReleaseOf? && !c.ConfirmOf?
    ensures IsAfter(w, c, Step(w, c))
  {
    match c
    case IncreaseBy(quantity) => StockIff(w, quantity);
    case DecreaseBy(quantity) => StockIff(w, quantity);
    case CorrectTo(target) => StockIff(w, target);
    case _ =>
  }

  /** Every command of a run has its effect, or none if it is refused. */
  lemma LastCommandIs(v: Inventory, commands: seq<Command>, c: Command)
    requires IsInventory(v)
    ensures IsAfter(Run(v, commands), c, Run(v, commands + [c]))
  {
    RunsConserve(v, commands);
    assert (commands + [c])[..|commands|] == commands;
    if c.ReserveFor? {
      ReserveIsAfter(Run(v, commands), c);
    } else if c.ReleaseOf? || c.ConfirmOf? {
      SettleIsAfter(Run(v, commands), c);
    } else {
      StockIsAfter(Run(v, commands), c);
    }
  }

  /** A settled reservation stays settled, over any run; no reservation is lost or changes its order or quantity. */
  lemma {:induction false} RunsKeepReservations(v: Inventory, commands: seq<Command>)
    requires IsInventory(v)
    ensures KeepsReservations(v, Run(v, commands))
  {
    if commands != [] {
      var init := commands[..|commands| - 1];
      RunsKeepReservations(v, init);
      RunsConserve(v, init);
      StepEffect(Run(v, init), commands[|commands| - 1]);
      var mid, w := Run(v, init), Run(v, commands);
      forall i | 0 <= i < |v.reservations| ensures IsLaterThan(w.reservations[i], v.reservations[i]) {
        assert IsLaterThan(w.reservations[i], mid.reservations[i])
            && IsLaterThan(mid.reservations[i], v.reservations[i]);
      }
    }
  }

  /** A reservation, release or confirmation that is delivered again changes nothing. */
  lemma RedeliveryChangesNothing(v: Inventory, c: Command)
    requires IsInventory(v) && (c.ReserveFor? || c.ReleaseOf? || c.ConfirmOf?) && Execute(v, c).Ok?
    ensures Execute(Execute(v, c).value, c) == Execute(v, c)
  {
    var w := Execute(v, c).value;
    StepEffect(v, c);
    match c
    case ReserveFor(order, quantity, id) =>
      ReserveIff(v, order, quantity, id);
      assert Find(v.reservations, order).None? ==> w.reservations[|v.reservations|].order == order;
    case ReleaseOf(order) =>
      ReleaseIff(v, order);
      SettledIsFound(v.reservations, order, Cancelled);
    case ConfirmOf(order) =>
      ConfirmIff(v, order);
      SettledIsFound(v.reservations, order, Confirmed);
  }

  lemma SettledIsFound(reservations: seq<Reservation>, order: int, status: Status)
    requires HasIdentity(reservations)
    ensures var at := Find(reservations, order);
      at.Some? ==>
        var after := Settled(reservations, at.value, status);
        Find(after, order) == at && after[at.value].status == status
  {
  }
}
