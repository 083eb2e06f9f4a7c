/**
 * Checkout: `create_reservation` turns the cart into reservations and
 * blocks the vehicles (user.py:409-456), and `confirmation_page` shows the
 * reservations of the latest checkout (user.py:461-495).
 *
 * Every vehicle update commits on its own (`update_availability_after_reservation`
 * calls `commit`), so a cart whose k-th vehicle has disappeared leaves the
 * first k items booked and committed, and keeps the cart.
 */
module Booking {
  import opened Common
  import opened Availability
  import opened Fleet
  import opened Cart

  /** The reservation a cart item becomes: pending, at the item's price, for the item's interval. */
  function NewReservation(id: nat, customerId: nat, item: CartItem, payment: Option<string>, createdAt: Time): Reservation
  {
    Reservation(id, customerId, item.vehicleId, item.start, item.end, HoursBetween(item.start, item.end),
                item.totalPrice, payment, createdAt, Pending)
  }

  /** `r` is the pending reservation a checkout makes for `item`: its vehicle, customer, interval and price. */
  predicate BooksItem(r: Reservation, item: CartItem, customerId: nat)
  {
    && r.status == Pending && r.price == item.totalPrice
    && r.vehicleId == item.vehicleId && r.customerId == customerId
    && r.start == item.start && r.end == item.end
  }

  /** The reservations created for `items`, with consecutive ids from `firstId`. */
  function Created(firstId: nat, items: seq<CartItem>, customerId: nat, payment: Option<string>, createdAt: Time): (rs: seq<Reservation>)
    ensures |rs| == |items|
  {
    seq(|items|, k requires 0 <= k < |items| => NewReservation(firstId + k, customerId, items[k], payment, createdAt))
  }

  /** One iteration of the checkout loop, or `None` when the item's vehicle is not found. */
  function BookItem(l: Ledger, item: CartItem, customerId: nat, payment: Option<string>, createdAt: Time): Option<Ledger>
  {
    match FindRow(l.rows, item.vehicleId)
    case None => None
    case Some(p) =>
      Some(Ledger(l.rows[p := l.rows[p].(avail := Reserve(l.rows[p].avail, item.end))],
                  l.reservations + [NewReservation(l.nextId, customerId, item, payment, createdAt)],
                  l.nextId + 1))
  }

  /** The state the checkout loop leaves, and the position of the item it stopped at, if any. */
  datatype BookingRun = BookingRun(ledger: Ledger, failedAt: Option<nat>)

  function BookItems(l: Ledger, items: seq<CartItem>, customerId: nat, payment: Option<string>, createdAt: Time): (run: BookingRun)
    ensures run.failedAt.Some? ==> run.failedAt.value < |items|
    decreases |items|
  {
    if items == [] then BookingRun(l, None)
    else
      var n := |items| - 1;
      var r := BookItems(l, items[..n], customerId, payment, createdAt);
      if r.failedAt.Some? then r
      else match BookItem(r.ledger, items[n], customerId, payment, createdAt)
        case None => BookingRun(r.ledger, Some(n))
        case Some(l') => BookingRun(l', None)
  }

  /** How many items a run booked. */
  function Done(run: BookingRun, items: seq<CartItem>): nat
  {
    if run.failedAt.Some? then run.failedAt.value else |items|
  }

  lemma CreatedSnoc(firstId: nat, items: seq<CartItem>, n: nat, customerId: nat, payment: Option<string>, createdAt: Time)
    requires n < |items|
    ensures Created(firstId, items[..n + 1], customerId, payment, createdAt)
            == Created(firstId, items[..n], customerId, payment, createdAt)
               + [NewReservation(firstId + n, customerId, items[n], payment, createdAt)]
  {
  }

  /**
   * A run books a prefix of the cart: each booked item adds one pending
   * reservation at the item's price, with the next id, after the existing
   * ones.
   */
  lemma {:induction false} BookedReservations(l: Ledger, items: seq<CartItem>, customerId: nat,
                                              payment: Option<string>, createdAt: Time)
    ensures var run := BookItems(l, items, customerId, payment, createdAt);
            var done := Done(run, items);
            && done <= |items|
            && run.ledger.reservations == l.reservations + Created(l.nextId, items[..done], customerId, payment, createdAt)
            && run.ledger.nextId == l.nextId + done
    decreases |items|
  {
    if items != [] {
      var n := |items| - 1;
      var r := BookItems(l, items[..n], customerId, payment, createdAt);
      BookedReservations(l, items[..n], customerId, payment, createdAt);
      if r.failedAt.Some? {
        var d := r.failedAt.value;
        assert items[..n][..d] == items[..d];
      } else {
        assert items[..n][..n] == items[..n];
        if BookItem(r.ledger, items[n], customerId, payment, createdAt).Some? {
          CreatedSnoc(l.nextId, items, n, customerId, payment, createdAt);
          assert items[..n + 1] == items;
        }
      }
    }
  }

  /** A run keeps every vehicle's id in place. */
  lemma {:induction false} BookedSameIds(l: Ledger, items: seq<CartItem>, customerId: nat,
                                         payment: Option<string>, createdAt: Time)
    ensures SameIds(l.rows, BookItems(l, items, customerId, payment, createdAt).ledger.rows)
    decreases |items|
  {
    if items != [] {
      var n := |items| - 1;
      BookedSameIds(l, items[..n], customerId, payment, createdAt);
    }
  }

  /** Every item a run booked names a vehicle that exists. */
  lemma {:induction false} BookedVehiclesExist(l: Ledger, items: seq<CartItem>, customerId: nat,
                                               payment: Option<string>, createdAt: Time)
    ensures var run := BookItems(l, items, customerId, payment, createdAt);
            forall k :: 0 <= k < Done(run, items) ==> FindRow(l.rows, items[k].vehicleId).Some?
    decreases |items|
  {
    if items != [] {
      var n := |items| - 1;
      var r := BookItems(l, items[..n], customerId, payment, createdAt);
      BookedVehiclesExist(l, items[..n], customerId, payment, createdAt);
      forall k | 0 <= k < Done(r, items[..n])
        ensures FindRow(l.rows, items[k].vehicleId).Some?
      {
        assert items[..n][k] == items[k];
      }
      if r.failedAt.None? && BookItem(r.ledger, items[n], customerId, payment, createdAt).Some? {
        BookedSameIds(l, items[..n], customerId, payment, createdAt);
        assert FindRow(r.ledger.rows, items[n].vehicleId).Some?;
        FindRowSameIds(l.rows, r.ledger.rows, items[n].vehicleId);
      }
    }
  }

  /** A run stops only at an item whose vehicle does not exist. */
  lemma {:induction false} BookedStopsAtMissing(l: Ledger, items: seq<CartItem>, customerId: nat,
                                                payment: Option<string>, createdAt: Time)
    ensures var run := BookItems(l, items, customerId, payment, createdAt);
            run.failedAt.Some? ==> FindRow(l.rows, items[run.failedAt.value].vehicleId).None?
    decreases |items|
  {
    if items != [] {
      var n := |items| - 1;
      var r := BookItems(l, items[..n], customerId, payment, createdAt);
      BookedStopsAtMissing(l, items[..n], customerId, payment, createdAt);
      if r.failedAt.None? {
        BookedSameIds(l, items[..n], customerId, payment, createdAt);
        FindRowSameIds(l.rows, r.ledger.rows, items[n].vehicleId);
      } else {
        assert items[..n][r.failedAt.value] == items[r.failedAt.value];
      }
    }
  }

  /** The row of a vehicle after the items for it have been booked, in cart order. */
  function ApplyItems(row: VehicleRow, items: seq<CartItem>): (r: VehicleRow)
    ensures r.(avail := row.avail) == row
    decreases |items|
  {
    if items == [] then row
    else
      var n := |items| - 1;
      var r := ApplyItems(row, items[..n]);
      if items[n].vehicleId == row.id then r.(avail := Reserve(r.avail, items[n].end)) else r
  }

  /** Each row after a run is the row before it with that vehicle's booked items applied. */
  lemma {:induction false} BookedRows(l: Ledger, items: seq<CartItem>, customerId: nat,
                                      payment: Option<string>, createdAt: Time)
    requires UniqueRowIds(l.rows)
    ensures var run := BookItems(l, items, customerId, payment, createdAt);
            var done := Done(run, items);
            && |run.ledger.rows| == |l.rows|
            && forall j :: 0 <= j < |l.rows| ==> run.ledger.rows[j] == ApplyItems(l.rows[j], items[..done])
    decreases |items|
  {
    if items != [] {
      var n := |items| - 1;
      var r := BookItems(l, items[..n], customerId, payment, createdAt);
      BookedRows(l, items[..n], customerId, payment, createdAt);
      var d := Done(r, items[..n]);
      assert items[..n][..d] == items[..d];
      if r.failedAt.None? {
        match FindRow(r.ledger.rows, items[n].vehicleId)
        case None =>
        case Some(q) =>
          assert items[..n + 1] == items;
          assert items[..n] == items[..n + 1][..n];
          forall j | 0 <= j < |l.rows|
            ensures BookItems(l, items, customerId, payment, createdAt).ledger.rows[j] == ApplyItems(l.rows[j], items)
          {
            assert r.ledger.rows[j].id == l.rows[j].id;
            assert r.ledger.rows[q].id == l.rows[q].id;
            if j != q {
              assert l.rows[j].id != l.rows[q].id;
            }
          }
      }
    }
  }

  /** Items for other vehicles leave a row alone. */
  lemma {:induction false} ApplyItemsNone(row: VehicleRow, items: seq<CartItem>)
    requires forall m :: 0 <= m < |items| ==> items[m].vehicleId != row.id
    ensures ApplyItems(row, items) == row
    decreases |items|
  {
    if items != [] {
      ApplyItemsNone(row, items[..|items| - 1]);
    }
  }

  /** A vehicle with exactly one item in the cart ends up reserved until that item's end. */
  lemma {:induction false} ApplyItemsOnce(row: VehicleRow, items: seq<CartItem>, k: nat)
    requires k < |items| && items[k].vehicleId == row.id
    requires forall m :: 0 <= m < |items| && m != k ==> items[m].vehicleId != row.id
    ensures ApplyItems(row, items) == row.(avail := Reserve(row.avail, items[k].end))
    decreases |items|
  {
    var n := |items| - 1;
    if k == n {
      ApplyItemsNone(row, items[..n]);
    } else {
      ApplyItemsOnce(row, items[..n], k);
    }
  }

  /**
   * `after` is `before` followed by one reservation per item, each the
   * pending reservation a checkout makes for that item.
   */
  predicate AppendsBookings(before: seq<Reservation>, after: seq<Reservation>, items: seq<CartItem>, customerId: nat)
  {
    && |after| == |before| + |items|
    && after[..|before|] == before
    && (forall k :: 0 <= k < |items| ==> BooksItem(after[|before| + k], items[k], customerId))
  }

  /**
   * A complete checkout adds, after the existing reservations, one pending
   * reservation per cart item, at the item's price, for the item's vehicle,
   * customer and interval.
   */
  lemma CheckoutReservations(l: Ledger, items: seq<CartItem>, customerId: nat, payment: Option<string>, createdAt: Time)
    requires BookItems(l, items, customerId, payment, createdAt).failedAt.None?
    ensures AppendsBookings(l.reservations, BookItems(l, items, customerId, payment, createdAt).ledger.reservations, items, customerId)
  {
    BookedReservations(l, items, customerId, payment, createdAt);
    assert items[..|items|] == items;
    AppendCreated(l.reservations, l.nextId, items, customerId, payment, createdAt);
  }

  /**
   * A complete checkout of a cart without duplicates reserves every vehicle
   * in the cart until its item's end (inactive, `is_reserved` set) and
   * leaves every other vehicle untouched.
   */
  lemma CheckoutVehicles(l: Ledger, items: seq<CartItem>, customerId: nat, payment: Option<string>, createdAt: Time)
    requires UniqueRowIds(l.rows) && UniqueVehicles(items)
    requires BookItems(l, items, customerId, payment, createdAt).failedAt.None?
    ensures var after := BookItems(l, items, customerId, payment, createdAt).ledger;
            && |after.rows| == |l.rows|
            && (forall j, k :: 0 <= j < |l.rows| && 0 <= k < |items| && l.rows[j].id == items[k].vehicleId ==>
                  after.rows[j] == l.rows[j].(avail := Reserve(l.rows[j].avail, items[k].end)))
            && (forall j :: 0 <= j < |l.rows| && !HasVehicle(items, l.rows[j].id) ==> after.rows[j] == l.rows[j])
  {
    BookedRows(l, items, customerId, payment, createdAt);
    assert items[..|items|] == items;
    forall j, k | 0 <= j < |l.rows| && 0 <= k < |items| && l.rows[j].id == items[k].vehicleId
      ensures ApplyItems(l.rows[j], items) == l.rows[j].(avail := Reserve(l.rows[j].avail, items[k].end))
    {
      ApplyItemsOnce(l.rows[j], items, k);
    }
    forall j | 0 <= j < |l.rows| && !HasVehicle(items, l.rows[j].id)
      ensures ApplyItems(l.rows[j], items) == l.rows[j]
    {
      ApplyItemsNone(l.rows[j], items);
    }
  }

  /** The reservations `Created` describes are the ones a checkout makes for the items. */
  lemma AppendCreated(rs: seq<Reservation>, firstId: nat, items: seq<CartItem>, customerId: nat,
                      payment: Option<string>, createdAt: Time)
    ensures AppendsBookings(rs, rs + Created(firstId, items, customerId, payment, createdAt), items, customerId)
  {
    var created := Created(firstId, items, customerId, payment, createdAt);
    assert forall k :: 0 <= k < |items| ==> (rs + created)[|rs| + k] == created[k];
  }

  datatype CheckoutOutcome =
    | EmptyCart                        // "Não existe veículos no carrinho."
    | Booked                           // "Reserva(s) realizada(s) com sucesso!"
    | VehicleMissing(position: nat)    // "Erro ao criar reserva: ..." after the first `position` items were committed

  /** `create_reservation` for the logged-in customer, at the instant `createdAt`. */
  method CreateReservation(db: Db, session: ReservationSession, customerId: nat, payment: Option<string>, createdAt: Time)
    returns (outcome: CheckoutOutcome)
    requires db.Valid()
    modifies db, session, set v | v in db.vehicles
    ensures db.Valid() && db.vehicles == old(db.vehicles)
    ensures var run := BookItems(Ledger(old(db.Rows()), old(db.reservations), old(db.nextReservationId)),
                                 old(session.cart), customerId, payment, createdAt);
            && Ledger(db.Rows(), db.reservations, db.nextReservationId) == run.ledger
            && outcome == (if old(session.cart) == [] then EmptyCart
                           else if run.failedAt.Some? then VehicleMissing(run.failedAt.value)
                           else Booked)
    ensures session.cart == (if outcome == Booked then [] else old(session.cart))
    ensures session.editing == old(session.editing) && session.saved == old(session.saved)
  {
    var items := session.cart;
    if items == [] {
      outcome := EmptyCart;
      return;
    }
    var failedAt := BookCart(db, items, customerId, payment, createdAt);
    if failedAt.Some? {
      outcome := VehicleMissing(failedAt.value);
    } else {
      session.cart := [];
      outcome := Booked;
    }
  }

  /**
   * The loop of `create_reservation`: books the items in order, committing
   * each one, and stops at the first item whose vehicle is missing.
   */
  method BookCart(db: Db, items: seq<CartItem>, customerId: nat, payment: Option<string>, createdAt: Time)
    returns (failedAt: Option<nat>)
    requires db.Valid()
    modifies db, set v | v in db.vehicles
    ensures db.Valid() && db.vehicles == old(db.vehicles)
    ensures BookItems(Ledger(old(db.Rows()), old(db.reservations), old(db.nextReservationId)), items, customerId, payment, createdAt)
            == BookingRun(Ledger(db.Rows(), db.reservations, db.nextReservationId), failedAt)
  {
    ghost var start := Ledger(db.Rows(), db.reservations, db.nextReservationId);
    var i := 0;
    while i < |items|
      invariant 0 <= i <= |items|
      invariant db.Valid() && db.vehicles == old(db.vehicles)
      invariant BookItems(start, items[..i], customerId, payment, createdAt)
                == BookingRun(Ledger(db.Rows(), db.reservations, db.nextReservationId), None)
    {
      var booked := BookAt(db, start, items, i, customerId, payment, createdAt);
      if !booked {
        return Some(i);
      }
      i := i + 1;
    }
    assert items[..|items|] == items;
    failedAt := None;
  }

  /** Item `i` of the checkout loop, stated as a step of `BookItems` from the ledger `start`. */
  method BookAt(db: Db, ghost start: Ledger, items: seq<CartItem>, i: nat, customerId: nat, payment: Option<string>, createdAt: Time)
    returns (booked: bool)
    requires db.Valid() && i < |items|
    requires BookItems(start, items[..i], customerId, payment, createdAt)
             == BookingRun(Ledger(db.Rows(), db.reservations, db.nextReservationId), None)
    modifies db, set v | v in db.vehicles
    ensures db.Valid() && db.vehicles == old(db.vehicles)
    ensures booked ==> BookItems(start, items[..i + 1], customerId, payment, createdAt)
                       == BookingRun(Ledger(db.Rows(), db.reservations, db.nextReservationId), None)
    ensures !booked ==> BookItems(start, items, customerId, payment, createdAt)
                        == BookingRun(Ledger(db.Rows(), db.reservations, db.nextReservationId), Some(i))
  {
    ghost var before := Ledger(db.Rows(), db.reservations, db.nextReservationId);
    booked := BookNext(db, items[i], customerId, payment, createdAt);
    if booked {
      BookedStep(start, items, i, before, Ledger(db.Rows(), db.reservations, db.nextReservationId),
                 customerId, payment, createdAt);
    } else {
      BookedPrefix(start, items, i, customerId, payment, createdAt);
    }
  }

  /** One iteration of the checkout loop: looks the item's vehicle up and books it when it is there. */
  method BookNext(db: Db, item: CartItem, customerId: nat, payment: Option<string>, createdAt: Time)
    returns (booked: bool)
    requires db.Valid()
    modifies db, set v | v in db.vehicles
    ensures db.Valid() && db.vehicles == old(db.vehicles)
    ensures BookItem(Ledger(old(db.Rows()), old(db.reservations), old(db.nextReservationId)), item, customerId, payment, createdAt)
            == if booked then Some(Ledger(db.Rows(), db.reservations, db.nextReservationId)) else None
    ensures !booked ==> Ledger(db.Rows(), db.reservations, db.nextReservationId)
                        == Ledger(old(db.Rows()), old(db.reservations), old(db.nextReservationId))
  {
    var found := db.Lookup(item.vehicleId);
    if found.None? {
      return false;
    }
    BookOne(db, found.value, item, customerId, payment, createdAt);
    booked := true;
  }

  /** One iteration of the checkout loop, for an item whose vehicle is at `index`. */
  method BookOne(db: Db, index: nat, item: CartItem, customerId: nat, payment: Option<string>, createdAt: Time)
    requires db.Valid() && index < |db.vehicles| && FindRow(db.Rows(), item.vehicleId) == Some(index)
    modifies db, db.vehicles[index]
    ensures db.Valid() && db.vehicles == old(db.vehicles)
    ensures BookItem(Ledger(old(db.Rows()), old(db.reservations), old(db.nextReservationId)), item, customerId, payment, createdAt)
            == Some(Ledger(db.Rows(), db.reservations, db.nextReservationId))
  {
    BookItemAt(Ledger(db.Rows(), db.reservations, db.nextReservationId), item, index, customerId, payment, createdAt);
    assert db.vehicles[index].id == item.vehicleId;
    db.ReserveAt(index, item.end);
    assert item.vehicleId in db.VehicleIds();
    db.AddReservation(NewReservation(db.nextReservationId, customerId, item, payment, createdAt));
  }

  /** `BookItem` for an item whose vehicle is found at `index`. */
  lemma BookItemAt(l: Ledger, item: CartItem, index: nat, customerId: nat, payment: Option<string>, createdAt: Time)
    requires FindRow(l.rows, item.vehicleId) == Some(index)
    ensures index < |l.rows|
    ensures BookItem(l, item, customerId, payment, createdAt)
            == Some(Ledger(l.rows[index := l.rows[index].(avail := Reserve(l.rows[index].avail, item.end))],
                           l.reservations + [NewReservation(l.nextId, customerId, item, payment, createdAt)],
                           l.nextId + 1))
  {
  }

  /** A run that books item `i` after the first `i` items continues without failure. */
  lemma BookedStep(l: Ledger, items: seq<CartItem>, i: nat, before: Ledger, after: Ledger,
                   customerId: nat, payment: Option<string>, createdAt: Time)
    requires i < |items|
    requires BookItems(l, items[..i], customerId, payment, createdAt) == BookingRun(before, None)
    requires BookItem(before, items[i], customerId, payment, createdAt) == Some(after)
    ensures BookItems(l, items[..i + 1], customerId, payment, createdAt) == BookingRun(after, None)
  {
    assert items[..i + 1][..i] == items[..i];
  }

  /** A run that fails at item `i` is the run over the first `i` items, flagged at `i`. */
  lemma BookedPrefix(l: Ledger, items: seq<CartItem>, i: nat, customerId: nat, payment: Option<string>, createdAt: Time)
    requires i < |items|
    requires BookItems(l, items[..i], customerId, payment, createdAt).failedAt.None?
    requires BookItem(BookItems(l, items[..i], customerId, payment, createdAt).ledger, items[i], customerId, payment, createdAt).None?
    ensures BookItems(l, items, customerId, payment, createdAt)
            == BookingRun(BookItems(l, items[..i], customerId, payment, createdAt).ledger, Some(i))
    decreases |items| - i
  {
    if i + 1 < |items| {
      assert items[..|items| - 1][..i] == items[..i];
      BookedPrefix(l, items[..|items| - 1], i, customerId, payment, createdAt);
    } else {
      assert items[..|items| - 1] == items[..i];
    }
  }

  // ---------------------------------------------------------------------
  // `confirmation_page`

  /** The customer's reservations by descending id, for a table kept in increasing id order. */
  function CustomerDesc(rs: seq<Reservation>, customerId: nat): (desc: seq<Reservation>)
    ensures |desc| <= |rs|
    decreases |rs|
  {
    if rs == [] then []
    else
      var n := |rs| - 1;
      (if rs[n].customerId == customerId then [rs[n]] else []) + CustomerDesc(rs[..n], customerId)
  }

  /** The customer's listing holds exactly that customer's reservations of the table. */
  lemma {:induction false} CustomerDescMembers(rs: seq<Reservation>, customerId: nat)
    ensures forall r :: r in CustomerDesc(rs, customerId) <==> r in rs && r.customerId == customerId
    decreases |rs|
  {
    if rs != [] {
      var n := |rs| - 1;
      CustomerDescMembers(rs[..n], customerId);
      assert rs == rs[..n] + [rs[n]];
    }
  }

  /** Reservation ids strictly decrease along the sequence, as `order_by(Reservation.id.desc())` returns them. */
  predicate IdsDecreasing(rs: seq<Reservation>)
  {
    forall i, j :: 0 <= i < j < |rs| ==> rs[i].id > rs[j].id
  }

  /** On a table kept in increasing id order, the customer's listing is in decreasing id order. */
  lemma {:induction false} CustomerDescDescending(rs: seq<Reservation>, customerId: nat)
    requires IdsIncreasing(rs)
    ensures IdsDecreasing(CustomerDesc(rs, customerId))
    decreases |rs|
  {
    if rs != [] {
      var n := |rs| - 1;
      var rest := CustomerDesc(rs[..n], customerId);
      CustomerDescDescending(rs[..n], customerId);
      CustomerDescMembers(rs[..n], customerId);
      if rs[n].customerId == customerId {
        var d := CustomerDesc(rs, customerId);
        assert d == [rs[n]] + rest;
        forall j | 0 <= j < |rest| ensures rest[j].id < rs[n].id {
          assert rest[j] in rs[..n];
          var m :| 0 <= m < n && rs[..n][m] == rest[j];
        }
        forall i, j | 0 <= i < j < |d| ensures d[i].id > d[j].id {
          assert d[j] == rest[j - 1];
          if i > 0 {
            assert d[i] == rest[i - 1];
          }
        }
      }
    }
  }

  /** The first entry of the listing is the customer's reservation with the highest id. */
  lemma CustomerDescFirstNewest(rs: seq<Reservation>, customerId: nat)
    requires IdsIncreasing(rs) && CustomerDesc(rs, customerId) != []
    ensures var d := CustomerDesc(rs, customerId);
            && d[0] in rs && d[0].customerId == customerId
            && forall r :: r in rs && r.customerId == customerId ==> r.id <= d[0].id
  {
    var d := CustomerDesc(rs, customerId);
    CustomerDescMembers(rs, customerId);
    CustomerDescDescending(rs, customerId);
    assert d[0] in d;
    forall r | r in rs && r.customerId == customerId ensures r.id <= d[0].id {
      assert r in d;
      var m :| 0 <= m < |d| && d[m] == r;
    }
  }

  /** The reservations created less than one second away from `latest`. */
  function SameSecond(rs: seq<Reservation>, latest: Time): (batch: seq<Reservation>)
    ensures |batch| <= |rs|
  {
    if rs == [] then []
    else (if -MicrosPerSecond < rs[0].createdAt - latest < MicrosPerSecond then [rs[0]] else [])
         + SameSecond(rs[1..], latest)
  }

  /** The batch keeps exactly the entries created less than one second away from `latest`. */
  lemma {:induction false} SameSecondMembers(rs: seq<Reservation>, latest: Time)
    ensures forall r :: r in SameSecond(rs, latest) <==>
              r in rs && -MicrosPerSecond < r.createdAt - latest < MicrosPerSecond
  {
    if rs != [] {
      SameSecondMembers(rs[1..], latest);
      assert rs == [rs[0]] + rs[1..];
    }
  }

  /** The batch is a filter, so it keeps decreasing id order. */
  lemma {:induction false} SameSecondKeepsOrder(rs: seq<Reservation>, latest: Time)
    requires IdsDecreasing(rs)
    ensures IdsDecreasing(SameSecond(rs, latest))
  {
    if rs != [] {
      var rest := SameSecond(rs[1..], latest);
      assert IdsDecreasing(rs[1..]) by {
        forall i, j | 0 <= i < j < |rs[1..]| ensures rs[1..][i].id > rs[1..][j].id {
          assert rs[1..][i] == rs[i + 1] && rs[1..][j] == rs[j + 1];
        }
      }
      SameSecondKeepsOrder(rs[1..], latest);
      SameSecondMembers(rs[1..], latest);
      if -MicrosPerSecond < rs[0].createdAt - latest < MicrosPerSecond {
        var b := SameSecond(rs, latest);
        assert b == [rs[0]] + rest;
        forall j | 0 <= j < |rest| ensures rest[j].id < rs[0].id {
          assert rest[j] in rs[1..];
          var m :| 0 <= m < |rs[1..]| && rs[1..][m] == rest[j];
          assert rs[1..][m] == rs[m + 1];
        }
        forall i, j | 0 <= i < j < |b| ensures b[i].id > b[j].id {
          assert b[j] == rest[j - 1];
          if i > 0 {
            assert b[i] == rest[i - 1];
          }
        }
      }
    }
  }

  lemma SameSecondStep(rs: seq<Reservation>, k: nat, latest: Time)
    requires k < |rs|
    ensures SameSecond(rs[k..], latest)
            == (if -MicrosPerSecond < rs[k].createdAt - latest < MicrosPerSecond then [rs[k]] else [])
               + SameSecond(rs[k + 1..], latest)
  {
    assert rs[k..][1..] == rs[k + 1..];
  }

  /** `sum(item.price for item in latest_reservations)`. */
  function SumPrices(rs: seq<Reservation>): real
  {
    if rs == [] then 0.0 else rs[0].price + SumPrices(rs[1..])
  }

  /**
   * What the confirmation page shows, stated without the listing: the
   * customer's reservation with the highest id is `newest`, and `batch`
   * holds exactly the customer's reservations created less than one
   * second away from it, by decreasing id.
   */
  ghost predicate LatestBatch(rs: seq<Reservation>, customerId: nat, newest: Reservation, batch: seq<Reservation>)
  {
    && newest in rs && newest.customerId == customerId
    && (forall r :: r in rs && r.customerId == customerId ==> r.id <= newest.id)
    && IdsDecreasing(batch)
    && forall r :: r in batch <==>
         && r in rs && r.customerId == customerId
         && -MicrosPerSecond < r.createdAt - newest.createdAt < MicrosPerSecond
  }

  /** The listing's first entry and the batch around it are what `LatestBatch` describes. */
  lemma ConfirmationBatch(rs: seq<Reservation>, customerId: nat)
    requires IdsIncreasing(rs) && CustomerDesc(rs, customerId) != []
    ensures var desc := CustomerDesc(rs, customerId);
            LatestBatch(rs, customerId, desc[0], SameSecond(desc, desc[0].createdAt))
  {
    var desc := CustomerDesc(rs, customerId);
    CustomerDescMembers(rs, customerId);
    CustomerDescFirstNewest(rs, customerId);
    CustomerDescDescending(rs, customerId);
    SameSecondMembers(desc, desc[0].createdAt);
    SameSecondKeepsOrder(desc, desc[0].createdAt);
  }

  /** A customer without reservations has an empty listing, and the converse. */
  lemma CustomerDescEmpty(rs: seq<Reservation>, customerId: nat)
    ensures CustomerDesc(rs, customerId) == [] <==> forall r :: r in rs ==> r.customerId != customerId
  {
    CustomerDescMembers(rs, customerId);
    if CustomerDesc(rs, customerId) != [] {
      assert CustomerDesc(rs, customerId)[0] in CustomerDesc(rs, customerId);
    }
  }

  /** Appending a complete checkout's rows to a table in increasing id order keeps it in increasing id order. */
  lemma CreatedIncreasing(rs: seq<Reservation>, firstId: nat, items: seq<CartItem>, customerId: nat,
                          payment: Option<string>, createdAt: Time)
    requires IdsIncreasing(rs) && forall k :: 0 <= k < |rs| ==> rs[k].id < firstId
    ensures IdsIncreasing(rs + Created(firstId, items, customerId, payment, createdAt))
  {
    var all := rs + Created(firstId, items, customerId, payment, createdAt);
    forall i, j | 0 <= i < j < |all| ensures all[i].id < all[j].id {
      if j >= |rs| {
        assert all[j].id == firstId + (j - |rs|);
        if i >= |rs| {
          assert all[i].id == firstId + (i - |rs|);
        }
      }
    }
  }

  /** Every row a checkout creates belongs to the customer, carries the checkout's instant and a fresh id. */
  lemma CreatedMembers(firstId: nat, items: seq<CartItem>, customerId: nat, payment: Option<string>, createdAt: Time)
    ensures forall r :: r in Created(firstId, items, customerId, payment, createdAt) ==>
              r.customerId == customerId && r.createdAt == createdAt && r.id >= firstId
  {
    var created := Created(firstId, items, customerId, payment, createdAt);
    forall r | r in created ensures r.customerId == customerId && r.createdAt == createdAt && r.id >= firstId {
      var k :| 0 <= k < |created| && created[k] == r;
    }
  }

  /** The newest reservation of the customer after the rows of a non-empty checkout are appended is one of those rows. */
  lemma NewestIsCreated(rs: seq<Reservation>, firstId: nat, items: seq<CartItem>, customerId: nat,
                        payment: Option<string>, createdAt: Time)
    requires IdsIncreasing(rs) && forall k :: 0 <= k < |rs| ==> rs[k].id < firstId
    requires items != []
    ensures var all := rs + Created(firstId, items, customerId, payment, createdAt);
            && IdsIncreasing(all)
            && CustomerDesc(all, customerId) != []
            && CustomerDesc(all, customerId)[0] in Created(firstId, items, customerId, payment, createdAt)
  {
    var created := Created(firstId, items, customerId, payment, createdAt);
    var all := rs + created;
    CreatedIncreasing(rs, firstId, items, customerId, payment, createdAt);
    var last := created[|items| - 1];
    assert last in all && last.customerId == customerId;
    CustomerDescEmpty(all, customerId);
    CustomerDescFirstNewest(all, customerId);
    var newest := CustomerDesc(all, customerId)[0];
    assert newest.id >= last.id >= firstId;
    assert forall r :: r in rs ==> r.id < firstId;
  }

  /**
   * The same-second batch after a non-empty checkout, when every earlier
   * reservation of the customer is at least one second older: exactly the
   * checkout's rows, by decreasing id.
   */
  lemma BatchOfAppended(rs: seq<Reservation>, firstId: nat, items: seq<CartItem>, customerId: nat,
                        payment: Option<string>, createdAt: Time)
    requires IdsIncreasing(rs) && forall k :: 0 <= k < |rs| ==> rs[k].id < firstId
    requires items != []
    requires forall r :: r in rs && r.customerId == customerId ==> r.createdAt <= createdAt - MicrosPerSecond
    ensures var desc := CustomerDesc(rs + Created(firstId, items, customerId, payment, createdAt), customerId);
            && desc != []
            && IdsDecreasing(SameSecond(desc, desc[0].createdAt))
            && forall r :: r in SameSecond(desc, desc[0].createdAt) <==>
                 r in Created(firstId, items, customerId, payment, createdAt)
  {
    var created := Created(firstId, items, customerId, payment, createdAt);
    var all := rs + created;
    NewestIsCreated(rs, firstId, items, customerId, payment, createdAt);
    var desc := CustomerDesc(all, customerId);
    assert desc[0].createdAt == createdAt by {
      CreatedMembers(firstId, items, customerId, payment, createdAt);
    }
    CustomerDescDescending(all, customerId);
    SameSecondKeepsOrder(desc, createdAt);
    var batch := SameSecond(desc, createdAt);
    forall r ensures r in batch <==> r in created {
      assert r in desc <==> r in all && r.customerId == customerId by {
        CustomerDescMembers(all, customerId);
      }
      assert r in batch <==> r in desc && -MicrosPerSecond < r.createdAt - createdAt < MicrosPerSecond by {
        SameSecondMembers(desc, createdAt);
      }
      assert r in all <==> r in rs || r in created;
      if r in created {
        assert r.customerId == customerId && r.createdAt == createdAt by {
          CreatedMembers(firstId, items, customerId, payment, createdAt);
        }
      }
    }
  }

  /**
   * A complete checkout followed by `confirmation_page`: when every
   * earlier reservation of the customer was created at least one second
   * before the checkout, the page lists exactly the reservations that
   * checkout created, by decreasing id.
   */
  lemma CheckoutThenConfirmation(l: Ledger, items: seq<CartItem>, customerId: nat, payment: Option<string>,
                                 createdAt: Time)
    requires IdsIncreasing(l.reservations) && forall k :: 0 <= k < |l.reservations| ==> l.reservations[k].id < l.nextId
    requires items != [] && BookItems(l, items, customerId, payment, createdAt).failedAt.None?
    requires forall r :: r in l.reservations && r.customerId == customerId ==> r.createdAt <= createdAt - MicrosPerSecond
    ensures var desc := CustomerDesc(BookItems(l, items, customerId, payment, createdAt).ledger.reservations, customerId);
            && desc != []
            && IdsDecreasing(SameSecond(desc, desc[0].createdAt))
            && forall r :: r in SameSecond(desc, desc[0].createdAt) <==>
                 r in Created(l.nextId, items, customerId, payment, createdAt)
  {
    BookedReservations(l, items, customerId, payment, createdAt);
    assert items[..|items|] == items;
    BatchOfAppended(l.reservations, l.nextId, items, customerId, payment, createdAt);
  }

  datatype Confirmation = Confirmation(reservations: seq<Reservation>, totalPrice: real)

  /**
   * `confirmation_page`: nothing when the customer has no reservation;
   * otherwise the customer's reservations created within one second of
   * the newest one, newest first, and their total price.
   */
  method ConfirmationPage(db: Db, customerId: nat) returns (result: Option<Confirmation>)
    requires db.Valid()
    ensures var desc := CustomerDesc(db.reservations, customerId);
            && (result.None? <==> desc == [])
            && (result.Some? ==>
                  && result.value.reservations == SameSecond(desc, desc[0].createdAt)
                  && result.value.totalPrice == SumPrices(result.value.reservations))
    ensures result.None? <==> forall r :: r in db.reservations ==> r.customerId != customerId
    ensures result.Some? ==>
              LatestBatch(db.reservations, customerId, CustomerDesc(db.reservations, customerId)[0],
                          result.value.reservations)
  {
    var desc := CustomerDesc(db.reservations, customerId);
    CustomerDescEmpty(db.reservations, customerId);
    if desc == [] {
      return None;
    }
    var batch := CollectBatch(desc, desc[0].createdAt);
    result := Some(Confirmation(batch, SumPrices(batch)));
    ConfirmationBatch(db.reservations, customerId);
  }

  /** The `for res in reservations` loop that gathers the same-second batch. */
  method CollectBatch(desc: seq<Reservation>, latest: Time) returns (batch: seq<Reservation>)
    ensures batch == SameSecond(desc, latest)
  {
    batch := [];
    var k := 0;
    while k < |desc|
      invariant 0 <= k <= |desc|
      invariant batch + SameSecond(desc[k..], latest) == SameSecond(desc, latest)
    {
      SameSecondStep(desc, k, latest);
      if -MicrosPerSecond < desc[k].createdAt - latest < MicrosPerSecond {
        batch := batch + [desc[k]];
      }
      k := k + 1;
    }
    assert desc[|desc|..] == [];
  }
}
