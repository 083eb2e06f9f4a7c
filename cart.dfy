/**
 * The customer's reservation cart kept in the session (user.py): adding
 * and editing items in `reserve_vehicle`, leaving an edit, removing a
 * vehicle, and the cart totals. The three edit markers of the session
 * (`is_editing`, `edit_item_index`, `edit_item_original`) are a
 * `SessionState` value; the two markers that are always set and popped
 * together form one `Snapshot`.
 */
module Cart {
  import opened Common
  import opened Availability
  import opened Pricing
  import Fleet
  import Images

  /** One entry of `session['reservation_cart']`. */
  datatype CartItem = CartItem(
    vehicleId: nat,
    brand: string,
    model: string,
    start: Time,
    end: Time,
    totalPrice: real,
    days: int,
    remainingHours: real,
    reserveIva: real,
    pricePerDay: real,
    imagens: seq<string>)

  /** The item `reserve_vehicle` builds for a vehicle and a parsed interval, or `None` when start is not before end. */
  function MakeItem(v: Fleet.VehicleRow, start: Time, end: Time): (item: Option<CartItem>)
    ensures item.None? <==> start >= end
    ensures item.Some? ==>
              && item.value.vehicleId == v.id && item.value.start == start && item.value.end == end
              && item.value.totalPrice == PriceQuote(start, end, v.pricePerDay).value.totalPrice
              && item.value.pricePerDay == v.pricePerDay
  {
    match PriceQuote(start, end, v.pricePerDay)
    case None => None
    case Some(q) =>
      Some(CartItem(v.id, v.brand, v.model, start, end, q.totalPrice, q.days, q.remainingHours,
                    q.reserveIva, v.pricePerDay, Images.DecodeImages(v.imagens)))
  }

  /** `edit_item_index` and `edit_item_original`. */
  datatype Snapshot = Snapshot(index: nat, original: CartItem)

  /** The cart and the edit markers of one customer's session. */
  datatype SessionState = SessionState(cart: seq<CartItem>, editing: bool, saved: Option<Snapshot>)

  /** A saved snapshot only exists while editing: every path that clears `is_editing` pops the snapshot too. */
  predicate Coherent(s: SessionState)
  {
    s.saved.Some? ==> s.editing
  }

  predicate HasVehicle(cart: seq<CartItem>, vehicleId: nat)
  {
    exists k :: 0 <= k < |cart| && cart[k].vehicleId == vehicleId
  }

  /** No vehicle is in the cart twice. */
  predicate UniqueVehicles(cart: seq<CartItem>)
  {
    forall i, j :: 0 <= i < j < |cart| ==> cart[i].vehicleId != cart[j].vehicleId
  }

  /** The position of the first item for the vehicle, as the `enumerate` loop with `break` finds it. */
  function FirstIndex(cart: seq<CartItem>, vehicleId: nat): (r: Option<nat>)
    ensures r.None? <==> !HasVehicle(cart, vehicleId)
    ensures r.Some? ==> r.value < |cart| && cart[r.value].vehicleId == vehicleId
    ensures r.Some? ==> forall k :: 0 <= k < r.value ==> cart[k].vehicleId != vehicleId
  {
    if cart == [] then None
    else if cart[0].vehicleId == vehicleId then Some(0)
    else match FirstIndex(cart[1..], vehicleId)
      case None =>
        assert forall k :: 1 <= k < |cart| ==> cart[k] == cart[1..][k - 1];
        None
      case Some(k) => Some(k + 1)
  }

  // ---------------------------------------------------------------------
  // `reserve_vehicle`

  /**
   * The edit-mode detection every request of `reserve_vehicle` starts
   * with: the session enters edit mode when asked (`edit=true`), and while
   * editing, the first cart item of this vehicle is saved with its
   * position unless a snapshot is saved already.
   */
  function EnterEdit(s: SessionState, vehicleId: nat, editArg: bool): SessionState
  {
    var editing := editArg || s.editing;
    var idx := FirstIndex(s.cart, vehicleId);
    if editing && idx.Some? && s.saved.None? then
      SessionState(s.cart, true, Some(Snapshot(idx.value, s.cart[idx.value])))
    else
      s.(editing := editing)
  }

  datatype PostOutcome =
    | BadDateFormat    // "Formato de data ou hora inválido." (`strptime` raised ValueError)
    | DatesRejected    // "A data de início deve ser anterior à data do fim."
    | Duplicate        // "Este veículo já está no seu carrinho. ..."
    | Added            // "Veículo adicionado ao carrinho com sucesso!"
    | Replaced         // "Reserva atualizada com sucesso!"
    | EditIndexError   // `cart[cart_index] = ...` raises IndexError

  datatype Step<O> = Step(state: SessionState, outcome: O)

  /**
   * A POST of `reserve_vehicle` for vehicle `v`, with the form's two
   * instants as `strptime` parsed them (`None` when either raised
   * ValueError). With a saved snapshot the
   * new item overwrites the saved position, whatever vehicle it holds;
   * without one the item is appended unless the vehicle is already in the
   * cart. An out-of-range saved position raises, and the session is then
   * left as it was before the request.
   */
  function PostStep(s: SessionState, v: Fleet.VehicleRow, editArg: bool, window: Option<(Time, Time)>): Step<PostOutcome>
  {
    var s1 := EnterEdit(s, v.id, editArg);
    if window.None? then Step(s1, BadDateFormat)
    else
    match MakeItem(v, window.value.0, window.value.1)
    case None => Step(s1, DatesRejected)
    case Some(item) =>
      if s1.editing && s1.saved.Some? then
        var index := s1.saved.value.index;
        if index < |s1.cart| then Step(SessionState(s1.cart[index := item], false, None), Replaced)
        else Step(s, EditIndexError)
      else if HasVehicle(s1.cart, v.id) then Step(s1, Duplicate)
      else Step(s1.(cart := s1.cart + [item]), Added)
  }

  datatype GetAction = NoAction | CancelEdit | ViewCart | OtherAction

  datatype GetOutcome =
    | EditLeft      // redirect to the cart after `cancel` or `view_cart`
    | NotBookable   // "Este veículo não está disponível para reserva."
    | FormShown

  /**
   * Leaving edit mode: on `cancel` the saved original goes back to its
   * position when that position is still inside the cart; all markers are
   * cleared in either case.
   */
  function LeaveEdit(s: SessionState, cancel: bool): SessionState
  {
    var cart :=
      if cancel && s.saved.Some? && s.saved.value.index < |s.cart|
      then s.cart[s.saved.value.index := s.saved.value.original]
      else s.cart;
    SessionState(cart, false, None)
  }

  /** A GET of `reserve_vehicle`: leave an edit on request, else refuse an unavailable vehicle or show the form. */
  function GetStep(s: SessionState, v: Fleet.VehicleRow, editArg: bool, action: GetAction, now: Time): Step<GetOutcome>
  {
    var s1 := EnterEdit(s, v.id, editArg);
    if s1.editing && (action == CancelEdit || action == ViewCart) then
      Step(LeaveEdit(s1, action == CancelEdit), EditLeft)
    else if !IsAvailable(v.avail, now) then Step(s1, NotBookable)
    else Step(s1, FormShown)
  }

  // ---------------------------------------------------------------------
  // `remove_from_cart` and the totals

  /** `[item for item in cart if item['vehicle_id'] != vehicle_id]`. */
  function Without(cart: seq<CartItem>, vehicleId: nat): (rest: seq<CartItem>)
    ensures |rest| <= |cart|
  {
    if cart == [] then []
    else (if cart[0].vehicleId != vehicleId then [cart[0]] else []) + Without(cart[1..], vehicleId)
  }

  datatype RemoveOutcome =
    | CartEmptied                          // "Não há nenhum veículo adicionado. ..."
    | Removed(removed: Option<CartItem>)   // the first matching item, named in the message

  function RemoveStep(s: SessionState, vehicleId: nat): Step<RemoveOutcome>
  {
    var rest := Without(s.cart, vehicleId);
    var found := FirstIndex(s.cart, vehicleId);
    Step(s.(cart := rest),
         if rest == [] then CartEmptied
         else Removed(if found.Some? then Some(s.cart[found.value]) else None))
  }

  /** `sum(float(item['total_price']) for item in cart)`. */
  function Total(cart: seq<CartItem>): real
  {
    if cart == [] then 0.0 else cart[0].totalPrice + Total(cart[1..])
  }

  // ---------------------------------------------------------------------
  // The session object

  /** The customer's session as far as the cart is concerned. */
  class ReservationSession {
    var cart: seq<CartItem>
    var editing: bool
    var saved: Option<Snapshot>

    function State(): SessionState
      reads this
    {
      SessionState(cart, editing, saved)
    }

    /** `init_reservation_cart` on a fresh session. */
    constructor ()
      ensures State() == SessionState([], false, None)
    {
      cart := [];
      editing := false;
      saved := None;
    }

    /** The `enumerate` search of edit mode. */
    method FindInCart(vehicleId: nat) returns (index: Option<nat>)
      ensures index == FirstIndex(cart, vehicleId)
    {
      index := None;
      var k := 0;
      while k < |cart|
        invariant 0 <= k <= |cart|
        invariant forall j :: 0 <= j < k ==> cart[j].vehicleId != vehicleId
      {
        if cart[k].vehicleId == vehicleId {
          index := Some(k);
          return;
        }
        k := k + 1;
      }
    }

    /** The `is_duplicate` loop. */
    method ContainsVehicle(vehicleId: nat) returns (found: bool)
      ensures found <==> HasVehicle(cart, vehicleId)
    {
      found := false;
      var k := 0;
      while k < |cart|
        invariant 0 <= k <= |cart|
        invariant forall j :: 0 <= j < k ==> cart[j].vehicleId != vehicleId
      {
        if cart[k].vehicleId == vehicleId {
          found := true;
          return;
        }
        k := k + 1;
      }
    }

    /** A POST of `reserve_vehicle` for the vehicle `v` with the parsed form instants. */
    method ReserveVehiclePost(v: Fleet.VehicleRow, editArg: bool, window: Option<(Time, Time)>) returns (outcome: PostOutcome)
      modifies this
      ensures Step(State(), outcome) == PostStep(old(State()), v, editArg, window)
    {
      var editingNow := editArg || editing;
      var savedNow := saved;
      if editingNow {
        var idx := FindInCart(v.id);
        if idx.Some? && savedNow.None? {
          savedNow := Some(Snapshot(idx.value, cart[idx.value]));
        }
      }
      if window.None? {
        editing, saved := editingNow, savedNow;
        outcome := BadDateFormat;
        return;
      }
      var item := MakeItem(v, window.value.0, window.value.1);
      if item.None? {
        editing, saved := editingNow, savedNow;
        outcome := DatesRejected;
        return;
      }
      if editingNow && savedNow.Some? {
        var index := savedNow.value.index;
        if index >= |cart| {
          outcome := EditIndexError;
          return;
        }
        cart := cart[index := item.value];
        editing, saved := false, None;
        outcome := Replaced;
      } else {
        editing, saved := editingNow, savedNow;
        var duplicate := ContainsVehicle(v.id);
        if duplicate {
          outcome := Duplicate;
        } else {
          cart := cart + [item.value];
          outcome := Added;
        }
      }
    }

    /** A GET of `reserve_vehicle` for the vehicle `v`. */
    method ReserveVehicleGet(v: Fleet.VehicleRow, editArg: bool, action: GetAction, now: Time) returns (outcome: GetOutcome)
      modifies this
      ensures Step(State(), outcome) == GetStep(old(State()), v, editArg, action, now)
    {
      editing := editArg || editing;
      if editing {
        var idx := FindInCart(v.id);
        if idx.Some? && saved.None? {
          saved := Some(Snapshot(idx.value, cart[idx.value]));
        }
      }
      if editing && (action == CancelEdit || action == ViewCart) {
        if action == CancelEdit && saved.Some? && saved.value.index < |cart| {
          cart := cart[saved.value.index := saved.value.original];
        }
        editing, saved := false, None;
        outcome := EditLeft;
      } else if !IsAvailable(v.avail, now) {
        outcome := NotBookable;
      } else {
        outcome := FormShown;
      }
    }

    /** `remove_from_cart`. */
    method RemoveFromCart(vehicleId: nat) returns (outcome: RemoveOutcome)
      modifies this
      ensures Step(State(), outcome) == RemoveStep(old(State()), vehicleId)
    {
      var found := FindInCart(vehicleId);
      var removed := if found.Some? then Some(cart[found.value]) else None;
      cart := Without(cart, vehicleId);
      outcome := if cart == [] then CartEmptied else Removed(removed);
    }
  }

  // ---------------------------------------------------------------------
  // Properties of the transitions

  /** Every transition keeps the snapshot tied to edit mode. */
  lemma TransitionsKeepCoherent(s: SessionState, v: Fleet.VehicleRow, editArg: bool, window: Option<(Time, Time)>,
                                action: GetAction, now: Time, vehicleId: nat)
    requires Coherent(s)
    ensures Coherent(PostStep(s, v, editArg, window).state)
    ensures Coherent(GetStep(s, v, editArg, action, now).state)
    ensures Coherent(RemoveStep(s, vehicleId).state)
  {
  }

  /**
   * Form instants `strptime` cannot parse are refused: the cart is not
   * touched and the edit markers stay as the request's edit detection
   * left them.
   */
  lemma PostRejectsBadFormat(s: SessionState, v: Fleet.VehicleRow, editArg: bool)
    ensures var r := PostStep(s, v, editArg, None);
            && r.outcome == BadDateFormat
            && r.state.cart == s.cart
            && r.state.editing == (editArg || s.editing)
            && (s.saved.Some? ==> r.state.saved == s.saved)
  {
  }

  /** An interval whose start is not before its end is refused and the cart is not touched. */
  lemma PostRejectsBadDates(s: SessionState, v: Fleet.VehicleRow, editArg: bool, start: Time, end: Time)
    requires start >= end
    ensures PostStep(s, v, editArg, Some((start, end))).outcome == DatesRejected
    ensures PostStep(s, v, editArg, Some((start, end))).state.cart == s.cart
  {
  }

  /**
   * Without a saved snapshot, a valid POST for a vehicle already in the
   * cart is refused and changes no item, and one for a new vehicle appends
   * its item at the end.
   */
  lemma PostAddsOrRejectsDuplicate(s: SessionState, v: Fleet.VehicleRow, editArg: bool, start: Time, end: Time)
    requires start < end
    requires var s1 := EnterEdit(s, v.id, editArg); !(s1.editing && s1.saved.Some?)
    ensures var r := PostStep(s, v, editArg, Some((start, end)));
            && (r.outcome == Duplicate <==> HasVehicle(s.cart, v.id))
            && (r.outcome == Duplicate ==> r.state.cart == s.cart)
            && (r.outcome == Added <==> !HasVehicle(s.cart, v.id))
            && (r.outcome == Added ==> r.state.cart == s.cart + [MakeItem(v, start, end).value]
                                       && |r.state.cart| == |s.cart| + 1)
  {
  }

  /**
   * With a saved snapshot, a valid POST overwrites exactly the saved
   * position, keeps the length and every other item, and clears all edit
   * markers; a position beyond the end leaves the whole session as it was.
   */
  lemma PostReplacesSavedPosition(s: SessionState, v: Fleet.VehicleRow, editArg: bool, start: Time, end: Time)
    requires start < end
    requires var s1 := EnterEdit(s, v.id, editArg); s1.editing && s1.saved.Some?
    ensures var s1 := EnterEdit(s, v.id, editArg);
            var index := s1.saved.value.index;
            var r := PostStep(s, v, editArg, Some((start, end)));
            && (index < |s.cart| ==>
                  && r.outcome == Replaced
                  && |r.state.cart| == |s.cart|
                  && r.state.cart[index] == MakeItem(v, start, end).value
                  && (forall k :: 0 <= k < |s.cart| && k != index ==> r.state.cart[k] == s.cart[k])
                  && !r.state.editing && r.state.saved.None?)
            && (index >= |s.cart| ==> r == Step(s, EditIndexError))
  {
  }

  /**
   * Starting an edit and cancelling it, with nothing in between, gives
   * back the cart unchanged and leaves edit mode.
   */
  lemma EditThenCancel(s: SessionState, v: Fleet.VehicleRow, v': Fleet.VehicleRow, now: Time, now': Time)
    requires s.saved.None? && HasVehicle(s.cart, v.id)
    ensures var s1 := GetStep(s, v, true, NoAction, now).state;
            && s1.editing && s1.saved.Some?
            && GetStep(s1, v', false, CancelEdit, now').state == SessionState(s.cart, false, None)
  {
    var s1 := GetStep(s, v, true, NoAction, now).state;
    var snap := s1.saved.value;
    assert s.cart[snap.index := snap.original] == s.cart;
  }

  /** Cancelling restores the saved original when its position is still inside the cart, touching nothing else. */
  lemma CancelRestores(s: SessionState)
    requires s.saved.Some? && s.saved.value.index < |s.cart|
    ensures var r := LeaveEdit(s, true);
            && |r.cart| == |s.cart|
            && r.cart[s.saved.value.index] == s.saved.value.original
            && (forall k :: 0 <= k < |s.cart| && k != s.saved.value.index ==> r.cart[k] == s.cart[k])
            && !r.editing && r.saved.None?
  {
  }

  /** Leaving an edit by `view_cart` only clears the markers. */
  lemma ViewCartKeepsCart(s: SessionState)
    ensures LeaveEdit(s, false) == SessionState(s.cart, false, None)
  {
  }

  /** What `Without` keeps: every other vehicle's items, and none of this vehicle's. */
  lemma {:induction false} WithoutFacts(cart: seq<CartItem>, vehicleId: nat)
    ensures forall x :: x in Without(cart, vehicleId) <==> x in cart && x.vehicleId != vehicleId
    ensures !HasVehicle(Without(cart, vehicleId), vehicleId)
  {
    if cart != [] {
      WithoutFacts(cart[1..], vehicleId);
      assert cart == [cart[0]] + cart[1..];
    }
    var rest := Without(cart, vehicleId);
    forall k | 0 <= k < |rest| ensures rest[k].vehicleId != vehicleId {
      assert rest[k] in rest;
    }
  }

  /** Filtering distributes over concatenation, so the items left keep their order. */
  lemma {:induction false} WithoutAppend(a: seq<CartItem>, b: seq<CartItem>, vehicleId: nat)
    ensures Without(a + b, vehicleId) == Without(a, vehicleId) + Without(b, vehicleId)
  {
    if a != [] {
      assert (a + b)[1..] == a[1..] + b;
      WithoutAppend(a[1..], b, vehicleId);
    } else {
      assert a + b == b;
    }
  }

  lemma {:induction false} TotalAppend(a: seq<CartItem>, b: seq<CartItem>)
    ensures Total(a + b) == Total(a) + Total(b)
  {
    if a != [] {
      assert (a + b)[1..] == a[1..] + b;
      TotalAppend(a[1..], b);
    } else {
      assert a + b == b;
    }
  }

  /** The total of a cart is the total before a position, that item, and the total after it. */
  lemma TotalSplit(cart: seq<CartItem>, k: nat)
    requires k < |cart|
    ensures Total(cart) == Total(cart[..k]) + cart[k].totalPrice + Total(cart[k + 1..])
  {
    assert cart == cart[..k] + ([cart[k]] + cart[k + 1..]);
    TotalAppend(cart[..k], [cart[k]] + cart[k + 1..]);
    TotalAppend([cart[k]], cart[k + 1..]);
  }

  /** In a cart without duplicates, removing a vehicle removes exactly its one item, in place. */
  lemma RemoveUniqueItem(cart: seq<CartItem>, k: nat)
    requires UniqueVehicles(cart) && k < |cart|
    ensures Without(cart, cart[k].vehicleId) == cart[..k] + cart[k + 1..]
  {
    OnlyOnce(cart, k);
    WithoutOnlyAt(cart, k);
  }

  /** Filtering out a vehicle held only at position `k` drops that position. */
  lemma WithoutOnlyAt(cart: seq<CartItem>, k: nat)
    requires k < |cart|
    requires !HasVehicle(cart[..k], cart[k].vehicleId) && !HasVehicle(cart[k + 1..], cart[k].vehicleId)
    ensures Without(cart, cart[k].vehicleId) == cart[..k] + cart[k + 1..]
  {
    assert cart == cart[..k] + ([cart[k]] + cart[k + 1..]);
    WithoutAround(cart[..k], cart[k], cart[k + 1..]);
  }

  /** Filtering out the vehicle of `x` from `pre + [x] + post`, when neither side holds it, leaves `pre + post`. */
  lemma WithoutAround(pre: seq<CartItem>, x: CartItem, post: seq<CartItem>)
    requires !HasVehicle(pre, x.vehicleId) && !HasVehicle(post, x.vehicleId)
    ensures Without(pre + ([x] + post), x.vehicleId) == pre + post
  {
    WithoutAppend(pre, [x] + post, x.vehicleId);
    WithoutAppend([x], post, x.vehicleId);
    WithoutAbsent(pre, x.vehicleId);
    WithoutAbsent(post, x.vehicleId);
    assert Without([x], x.vehicleId) == [];
  }

  /** Removing a vehicle kept once takes exactly its price off the cart total. */
  lemma RemoveUniqueTotal(cart: seq<CartItem>, k: nat)
    requires UniqueVehicles(cart) && k < |cart|
    ensures Total(Without(cart, cart[k].vehicleId)) == Total(cart) - cart[k].totalPrice
  {
    RemoveUniqueItem(cart, k);
    TotalSplit(cart, k);
    TotalAppend(cart[..k], cart[k + 1..]);
  }

  /** In a cart without duplicates, the vehicle at position `k` occurs neither before nor after it. */
  lemma OnlyOnce(cart: seq<CartItem>, k: nat)
    requires UniqueVehicles(cart) && k < |cart|
    ensures !HasVehicle(cart[..k], cart[k].vehicleId) && !HasVehicle(cart[k + 1..], cart[k].vehicleId)
  {
    var pre, post := cart[..k], cart[k + 1..];
    forall j | 0 <= j < |pre| ensures pre[j].vehicleId != cart[k].vehicleId {
      assert pre[j] == cart[j];
    }
    forall j | 0 <= j < |post| ensures post[j].vehicleId != cart[k].vehicleId {
      assert post[j] == cart[k + 1 + j];
    }
  }

  /** Filtering out a vehicle that is not in the cart leaves the cart as it is. */
  lemma {:induction false} WithoutAbsent(cart: seq<CartItem>, vehicleId: nat)
    requires !HasVehicle(cart, vehicleId)
    ensures Without(cart, vehicleId) == cart
  {
    if cart != [] {
      assert !HasVehicle(cart[1..], vehicleId) by {
        forall k | 0 <= k < |cart[1..]| ensures cart[1..][k].vehicleId != vehicleId {
          assert cart[1..][k] == cart[k + 1];
        }
      }
      WithoutAbsent(cart[1..], vehicleId);
      assert cart == [cart[0]] + cart[1..];
    }
  }

  /** How the total moves when an item is appended or overwritten. */
  lemma TotalAfterAddOrReplace(cart: seq<CartItem>, item: CartItem, index: nat)
    ensures Total(cart + [item]) == Total(cart) + item.totalPrice
    ensures index < |cart| ==> Total(cart[index := item]) == Total(cart) - cart[index].totalPrice + item.totalPrice
  {
    TotalAppend(cart, [item]);
    if index < |cart| {
      var c := cart[index := item];
      TotalSplit(cart, index);
      TotalSplit(c, index);
      assert c[..index] == cart[..index] && c[index + 1..] == cart[index + 1..];
    }
  }

  /** Overwriting an item with one for the same vehicle keeps the vehicles distinct. */
  lemma OverwriteSameVehicle(cart: seq<CartItem>, i: nat, x: CartItem)
    requires UniqueVehicles(cart) && i < |cart| && cart[i].vehicleId == x.vehicleId
    ensures UniqueVehicles(cart[i := x])
  {
    var c := cart[i := x];
    forall a, b | 0 <= a < b < |c| ensures c[a].vehicleId != c[b].vehicleId {
      assert c[a].vehicleId == cart[a].vehicleId && c[b].vehicleId == cart[b].vehicleId;
    }
  }

  /** The saved position, while inside the cart, still holds an item for the saved original's vehicle. */
  predicate SnapshotAligned(s: SessionState)
  {
    s.saved.Some? && s.saved.value.index < |s.cart| ==>
      s.cart[s.saved.value.index].vehicleId == s.saved.value.original.vehicleId
  }

  /**
   * Every request of `reserve_vehicle` keeps the saved position aligned
   * with the saved original. `remove_from_cart` does not: see
   * `RemoveDuringEditDuplicates`.
   */
  lemma RequestsKeepAligned(s: SessionState, v: Fleet.VehicleRow, editArg: bool, window: Option<(Time, Time)>,
                            action: GetAction, now: Time)
    requires Coherent(s) && SnapshotAligned(s)
    ensures SnapshotAligned(PostStep(s, v, editArg, window).state)
    ensures SnapshotAligned(GetStep(s, v, editArg, action, now).state)
  {
  }

  /**
   * A GET, including a cancel that writes the saved original back, keeps
   * each vehicle in the cart at most once, as long as the saved position
   * still holds the original's vehicle.
   */
  lemma GetKeepsUnique(s: SessionState, v: Fleet.VehicleRow, editArg: bool, action: GetAction, now: Time)
    requires UniqueVehicles(s.cart) && SnapshotAligned(s)
    ensures UniqueVehicles(GetStep(s, v, editArg, action, now).state.cart)
  {
    var s1 := EnterEdit(s, v.id, editArg);
    if s1.saved.Some? && s1.saved.value.index < |s1.cart| {
      OverwriteSameVehicle(s1.cart, s1.saved.value.index, s1.saved.value.original);
    }
  }

  /**
   * A POST keeps each vehicle in the cart at most once, unless it commits
   * an edit whose saved position holds another vehicle.
   */
  lemma PostKeepsUnique(s: SessionState, v: Fleet.VehicleRow, editArg: bool, start: Time, end: Time)
    requires UniqueVehicles(s.cart)
    ensures var s1 := EnterEdit(s, v.id, editArg);
            (s1.saved.Some? && s1.saved.value.index < |s.cart| && s.cart[s1.saved.value.index].vehicleId == v.id)
              || !(s1.editing && s1.saved.Some?)
            ==> UniqueVehicles(PostStep(s, v, editArg, Some((start, end))).state.cart)
  {
    var s1 := EnterEdit(s, v.id, editArg);
    var r := PostStep(s, v, editArg, Some((start, end)));
    if r.outcome == Replaced && s.cart[s1.saved.value.index].vehicleId == v.id {
      OverwriteSameVehicle(s.cart, s1.saved.value.index, MakeItem(v, start, end).value);
    } else if r.outcome == Added {
      assert !HasVehicle(s.cart, v.id);
      assert r.state.cart == s.cart + [MakeItem(v, start, end).value];
    }
  }

  /** Removing a vehicle keeps each remaining vehicle in the cart at most once. */
  lemma {:induction false} WithoutKeepsUnique(cart: seq<CartItem>, vehicleId: nat)
    requires UniqueVehicles(cart)
    ensures UniqueVehicles(Without(cart, vehicleId))
  {
    if cart != [] {
      WithoutKeepsUnique(cart[1..], vehicleId);
      WithoutFacts(cart[1..], vehicleId);
      var rest := Without(cart[1..], vehicleId);
      if cart[0].vehicleId != vehicleId {
        forall j | 0 <= j < |rest| ensures rest[j].vehicleId != cart[0].vehicleId {
          assert rest[j] in rest;
          var m :| 0 <= m < |cart[1..]| && cart[1..][m] == rest[j];
          assert cart[1..][m] == cart[m + 1];
        }
        assert Without(cart, vehicleId) == [cart[0]] + rest;
      }
    }
  }

  /**
   * The edit commit overwrites the saved position whatever vehicle the
   * POST is for: with vehicle 1 saved for editing, a POST for vehicle 2,
   * which is already in the cart, puts vehicle 2 in the cart twice and
   * drops vehicle 1.
   */
  lemma EditCommitIgnoresVehicle(a: CartItem, b: CartItem, v: Fleet.VehicleRow, start: Time, end: Time)
    requires a.vehicleId == 1 && b.vehicleId == 2 && v.id == 2 && start < end
    ensures var s := SessionState([a, b], true, Some(Snapshot(0, a)));
            var r := PostStep(s, v, false, Some((start, end)));
            && UniqueVehicles(s.cart)
            && r.outcome == Replaced
            && !UniqueVehicles(r.state.cart)
            && !HasVehicle(r.state.cart, 1)
  {
    var s := SessionState([a, b], true, Some(Snapshot(0, a)));
    var item := MakeItem(v, start, end).value;
    assert EnterEdit(s, v.id, false) == s;
    var r := PostStep(s, v, false, Some((start, end)));
    assert r.state.cart == [item, b];
    assert r.state.cart[0].vehicleId == r.state.cart[1].vehicleId;
  }

  /**
   * `remove_from_cart` leaves the edit markers alone, so removing an
   * earlier item during an edit shifts the cart under the saved position;
   * a cancel then writes the original over its neighbour. From the cart
   * [A, B, C], editing B, removing A and cancelling gives [B, B].
   */
  lemma RemoveDuringEditDuplicates(a: CartItem, b: CartItem, c: CartItem, vb: Fleet.VehicleRow, now: Time)
    requires a.vehicleId == 1 && b.vehicleId == 2 && c.vehicleId == 3 && vb.id == 2
    ensures var s0 := SessionState([a, b, c], false, None);
            var s1 := GetStep(s0, vb, true, NoAction, now).state;
            var s2 := RemoveStep(s1, 1).state;
            var s3 := GetStep(s2, vb, false, CancelEdit, now).state;
            && UniqueVehicles(s0.cart)
            && s1.saved == Some(Snapshot(1, b))
            && s2.cart == [b, c] && !SnapshotAligned(s2)
            && s3.cart == [b, b] && !UniqueVehicles(s3.cart)
  {
    var s0 := SessionState([a, b, c], false, None);
    assert FirstIndex(s0.cart, 2) == Some(1);
    var s1 := SessionState([a, b, c], true, Some(Snapshot(1, b)));
    assert EnterEdit(s0, vb.id, true) == s1;
    assert GetStep(s0, vb, true, NoAction, now).state == s1;
    assert Without(s1.cart, 1) == [b, c] by {
      assert s1.cart == [a] + [b, c];
      WithoutAppend([a], [b, c], 1);
      WithoutAbsent([b, c], 1);
    }
    var s2 := SessionState([b, c], true, Some(Snapshot(1, b)));
    assert RemoveStep(s1, 1).state == s2;
    assert EnterEdit(s2, vb.id, false) == s2;
    assert GetStep(s2, vb, false, CancelEdit, now).state == SessionState([b, b], false, None);
    assert s2.cart[1].vehicleId != b.vehicleId;
    var bb := [b, b];
    assert bb[0].vehicleId == bb[1].vehicleId;
  }
}
