/**
 * The persisted entities of models.py that the core mutates: `Veiculos`
 * (a class whose availability fields are updated in place), `Reservation`
 * (rows of a table) and the in-memory database holding both, with the two
 * batch jobs that run over it: `update_all_vehicles_availability` and
 * `update_completed_reservations`.
 */
module Fleet {
  import opened Common
  import opened Availability
  import Images

  /** The value of one `veiculos` row as far as the core is concerned. */
  datatype VehicleRow = VehicleRow(
    id: nat,
    brand: string,
    model: string,
    pricePerDay: real,
    avail: Availability,
    imagens: Option<string>)

  /** A `Veiculos` object. Identity and catalogue data do not change in the core. */
  class Vehicle {
    const id: nat
    const brand: string
    const model: string
    const pricePerDay: real
    var status: bool
    var inMaintenance: bool
    var maintenanceStart: Option<Time>
    var maintenanceEnd: Option<Time>
    var isReserved: bool
    var availableFrom: Option<Time>
    var imagens: Option<string>

    function Avail(): Availability
      reads this
    {
      Availability(status, inMaintenance, maintenanceStart, maintenanceEnd, isReserved, availableFrom)
    }

    function Row(): VehicleRow
      reads this
    {
      VehicleRow(id, brand, model, pricePerDay, Avail(), imagens)
    }

    /** `Veiculos.__init__` followed by the insert's column defaults (`is_reserved=False`). */
    constructor (id: nat, brand: string, model: string, pricePerDay: real,
                 status: bool, maintenanceStart: Option<Time>, maintenanceEnd: Option<Time>)
      ensures Row() == VehicleRow(id, brand, model, pricePerDay,
                                  Availability(status, false, maintenanceStart, maintenanceEnd, false, None),
                                  Some(""))
    {
      this.id := id;
      this.brand := brand;
      this.model := model;
      this.pricePerDay := pricePerDay;
      this.status := status;
      this.inMaintenance := false;
      this.maintenanceStart := maintenanceStart;
      this.maintenanceEnd := maintenanceEnd;
      this.isReserved := false;
      this.availableFrom := None;
      this.imagens := Some("");
    }

    /** What booking a cart item does to the vehicle: `is_reserved = True`, then the update above. */
    method Book(end: Time)
      modifies this
      ensures Row() == old(Row()).(avail := Reserve(old(Avail()), end))
    {
      isReserved := true;
      UpdateAvailabilityAfterReservation(end);
    }

    /** Writes every mutable column of the vehicle from `row`, as the admin's status and image edits do. */
    method Assign(row: VehicleRow)
      requires row.id == id && row.brand == brand && row.model == model && row.pricePerDay == pricePerDay
      modifies this
      ensures Row() == row
    {
      status := row.avail.status;
      inMaintenance := row.avail.inMaintenance;
      maintenanceStart := row.avail.maintenanceStart;
      maintenanceEnd := row.avail.maintenanceEnd;
      isReserved := row.avail.isReserved;
      availableFrom := row.avail.availableFrom;
      imagens := row.imagens;
    }

    /** `update_availability_after_reservation(end)`: blocked until `end`, nothing else touched. */
    method UpdateAvailabilityAfterReservation(end: Time)
      modifies this
      ensures Avail() == AfterReservation(old(Avail()), end)
      ensures imagens == old(imagens)
    {
      availableFrom := Some(end);
      status := false;
    }

    /**
     * `check_and_update_availability`: re-activates an inactive vehicle whose
     * available_from has been reached and says whether it did; afterwards it
     * would not fire again.
     */
    method CheckAndUpdateAvailability(now: Time) returns (updated: bool)
      modifies this
      ensures updated == ReadyToActivate(old(Avail()), now)
      ensures updated ==> Avail() == old(Avail()).(status := true, availableFrom := None)
      ensures !updated ==> Avail() == old(Avail())
      ensures !ReadyToActivate(Avail(), now)
      ensures imagens == old(imagens)
    {
      updated := false;
      if !status && availableFrom.Some? {
        if now >= availableFrom.value {
          status := true;
          availableFrom := None;
          updated := true;
        }
      }
    }

    /** `set_imagens`. */
    method SetImagens(paths: seq<string>)
      modifies this
      ensures imagens == Some(Images.EncodeImages(paths))
      ensures Avail() == old(Avail())
    {
      imagens := Some(Images.EncodeImages(paths));
    }

    /**
     * The body of the loop in `update_all_vehicles_availability` for this
     * vehicle; the result is what it adds to the counter.
     */
    method SweepStep(now: Time) returns (updates: nat)
      modifies this
      ensures Avail() == Sweep(old(Avail()), now)
      ensures updates == SweepUpdates(old(Avail()), now)
      ensures imagens == old(imagens)
    {
      updates := 0;
      if !status || availableFrom.Some? || maintenanceEnd.Some? || isReserved {
        if maintenanceEnd.Some? && now > maintenanceEnd.value {
          inMaintenance := false;
          maintenanceStart := None;
          maintenanceEnd := None;
          updates := updates + 1;
        }
        if isReserved && availableFrom.Some? && now >= availableFrom.value {
          isReserved := false;
          status := true;
          availableFrom := None;
          updates := updates + 1;
        } else if !isReserved && availableFrom.Some? && now >= availableFrom.value {
          status := true;
          availableFrom := None;
          updates := updates + 1;
        }
      }
    }

    /** The body of the refresh loop at the top of `list_vehicle` for this vehicle. */
    method RefreshStep(now: Time)
      modifies this
      ensures Avail() == Refresh(old(Avail()), now)
      ensures imagens == old(imagens)
    {
      if availableFrom.Some? || maintenanceEnd.Some? {
        if maintenanceEnd.Some? && now > maintenanceEnd.value {
          inMaintenance := false;
          status := true;
        }
        if availableFrom.Some? && now >= availableFrom.value {
          status := true;
          availableFrom := None;
        }
      }
    }

    /** `get_imagens`. */
    function GetImagens(): (paths: seq<string>)
      reads this
      ensures Images.AllClean(paths)
    {
      Images.DecodeImages(imagens)
    }
  }

  /** The rows of a list of vehicle objects, in order. */
  function RowsOf(vs: seq<Vehicle>): (rows: seq<VehicleRow>)
    reads set v | v in vs
    ensures |rows| == |vs|
    ensures forall k :: 0 <= k < |vs| ==> rows[k] == vs[k].Row()
  {
    if vs == [] then [] else [vs[0].Row()] + RowsOf(vs[1..])
  }

  /** The ids of a sequence of vehicles (ids are constant, so nothing is read). */
  function IdsOf(vs: seq<Vehicle>): (ids: seq<nat>)
    ensures |ids| == |vs| && forall k :: 0 <= k < |vs| ==> ids[k] == vs[k].id
  {
    seq(|vs|, k requires 0 <= k < |vs| => vs[k].id)
  }

  predicate DistinctIds(vs: seq<Vehicle>)
  {
    forall i, j :: 0 <= i < j < |vs| ==> vs[i].id != vs[j].id
  }

  /** Removing the vehicle at `p` removes its row. */
  lemma RowsOfRemove(vs: seq<Vehicle>, p: nat)
    requires p < |vs|
    ensures RowsOf(vs[..p] + vs[p + 1..]) == RowsOf(vs)[..p] + RowsOf(vs)[p + 1..]
  {
    var rest := vs[..p] + vs[p + 1..];
    var rows := RowsOf(vs);
    var target := rows[..p] + rows[p + 1..];
    forall i | 0 <= i < |rest| ensures RowsOf(rest)[i] == target[i] {
      if i < p {
        assert rest[i] == vs[i] && target[i] == rows[i];
      } else {
        assert rest[i] == vs[i + 1] && target[i] == rows[i + 1];
      }
    }
  }

  /** Removing the vehicle at `p` removes its id and keeps the others distinct. */
  lemma IdsOfRemove(vs: seq<Vehicle>, p: nat)
    requires p < |vs|
    ensures IdsOf(vs[..p] + vs[p + 1..]) == IdsOf(vs)[..p] + IdsOf(vs)[p + 1..]
    ensures DistinctIds(vs) ==> DistinctIds(vs[..p] + vs[p + 1..])
  {
    var rest := vs[..p] + vs[p + 1..];
    forall i | 0 <= i < |rest| ensures rest[i] == vs[if i < p then i else i + 1] {
    }
    var ids := IdsOf(vs);
    var target := ids[..p] + ids[p + 1..];
    forall i | 0 <= i < |rest| ensures IdsOf(rest)[i] == target[i] {
    }
  }

  /** `Veiculos.query.get(id)`: the position of the row with that id, if any. */
  function FindRow(rows: seq<VehicleRow>, id: nat): (r: Option<nat>)
    ensures r.Some? ==> r.value < |rows| && rows[r.value].id == id
    ensures r.None? ==> forall k :: 0 <= k < |rows| ==> rows[k].id != id
    ensures r.Some? ==> forall k :: 0 <= k < r.value ==> rows[k].id != id
  {
    if rows == [] then None
    else if rows[0].id == id then Some(0)
    else match FindRow(rows[1..], id)
      case None => None
      case Some(k) => Some(k + 1)
  }

  predicate SameIds(rows: seq<VehicleRow>, rows': seq<VehicleRow>)
  {
    |rows| == |rows'| && forall k :: 0 <= k < |rows| ==> rows[k].id == rows'[k].id
  }

  predicate UniqueRowIds(rows: seq<VehicleRow>)
  {
    forall i, j :: 0 <= i < j < |rows| ==> rows[i].id != rows[j].id
  }

  /** With distinct ids, the row found is the only one with that id. */
  lemma FindRowUnique(rows: seq<VehicleRow>, id: nat, k: nat)
    requires UniqueRowIds(rows)
    requires k < |rows| && rows[k].id == id
    ensures FindRow(rows, id) == Some(k)
  {
  }

  /** A lookup depends on the ids only, so rewriting availability fields never moves it. */
  lemma {:induction false} FindRowSameIds(rows: seq<VehicleRow>, rows': seq<VehicleRow>, id: nat)
    requires SameIds(rows, rows')
    ensures FindRow(rows, id) == FindRow(rows', id)
  {
    if rows != [] {
      FindRowSameIds(rows[1..], rows'[1..], id);
    }
  }

  /** An id other than the one removed is still among the remaining ones. */
  lemma IdInRemaining(ids: seq<nat>, p: nat, x: nat)
    requires p < |ids| && x in ids && x != ids[p]
    ensures x in ids[..p] + ids[p + 1..]
  {
    var i :| 0 <= i < |ids| && ids[i] == x;
    if i < p {
      assert (ids[..p] + ids[p + 1..])[i] == x;
    } else {
      assert (ids[..p] + ids[p + 1..])[i - 1] == x;
    }
  }

  datatype ReservationStatus = Pending | Completed   // "Pendente" / "Concluída"

  /** A `reservation` row; start and end carry both the date and the time column. */
  datatype Reservation = Reservation(
    id: nat,
    customerId: nat,
    vehicleId: nat,
    start: Time,
    end: Time,
    duration: real,
    price: real,
    paymentMethod: Option<string>,
    createdAt: Time,
    status: ReservationStatus)

  /** The filter of `update_completed_reservations`. */
  predicate IsFinished(r: Reservation, today: int)
  {
    DayOf(r.end) < today && r.status != Completed
  }

  function Complete(r: Reservation, today: int): Reservation
  {
    if IsFinished(r, today) then r.(status := Completed) else r
  }

  /**
   * Completion only ever sets the status, and sets it exactly for the
   * reservations whose end date is before today; completing twice is
   * completing once.
   */
  lemma CompleteEffect(r: Reservation, today: int)
    ensures Complete(r, today).(status := r.status) == r
    ensures Complete(r, today).status == (if DayOf(r.end) < today then Completed else r.status)
    ensures Complete(Complete(r, today), today) == Complete(r, today)
  {
  }

  predicate IdsIncreasing(rs: seq<Reservation>)
  {
    forall i, j :: 0 <= i < j < |rs| ==> rs[i].id < rs[j].id
  }

  /** The database contents as values: the vehicle rows, the reservation table and the next reservation id. */
  datatype Ledger = Ledger(rows: seq<VehicleRow>, reservations: seq<Reservation>, nextId: nat)

  /** The whole database: the vehicle objects and the reservation table. */
  class Db {
    var vehicles: seq<Vehicle>
    var reservations: seq<Reservation>
    var nextReservationId: nat

    /** The ids of the stored vehicles, in order. */
    function VehicleIds(): (ids: seq<nat>)
      reads this
      ensures |ids| == |vehicles| && forall k :: 0 <= k < |vehicles| ==> ids[k] == vehicles[k].id
    {
      IdsOf(vehicles)
    }

    /**
     * Vehicle ids are a key (so the objects are distinct); reservation ids
     * grow with insertion order and stay below the next id to hand out; every
     * reservation refers to a stored vehicle (the foreign key that
     * `delete_vehicle` keeps by cascading).
     */
    ghost predicate Valid()
      reads this
    {
      && DistinctIds(vehicles)
      && IdsIncreasing(reservations)
      && (forall k :: 0 <= k < |reservations| ==> reservations[k].id < nextReservationId)
      && (forall k :: 0 <= k < |reservations| ==> reservations[k].vehicleId in VehicleIds())
    }

    function Rows(): seq<VehicleRow>
      reads this, set v | v in vehicles
    {
      RowsOf(vehicles)
    }

    /** `Veiculos.query.get(id)`: the position of the vehicle with that id. */
    method Lookup(id: nat) returns (index: Option<nat>)
      ensures index == FindRow(Rows(), id)
      ensures index.Some? ==> index.value < |vehicles| && vehicles[index.value].id == id
    {
      var k := 0;
      while k < |vehicles|
        invariant 0 <= k <= |vehicles|
        invariant forall j :: 0 <= j < k ==> vehicles[j].id != id
      {
        if vehicles[k].id == id {
          index := Some(k);
          return;
        }
        k := k + 1;
      }
      index := None;
    }

    /** Books the vehicle at `index`; the other rows are untouched. */
    method ReserveAt(index: nat, end: Time)
      requires Valid() && index < |vehicles|
      modifies vehicles[index]
      ensures Rows() == old(Rows())[index := old(Rows()[index]).(avail := Reserve(old(Rows()[index].avail), end))]
    {
      ghost var rows := Rows();
      vehicles[index].Book(end);
      forall j | 0 <= j < |vehicles| && j != index
        ensures vehicles[j].Row() == rows[j]
      {
        assert vehicles[j].id != vehicles[index].id;
      }
    }

    /** Replaces the row at `index` by one for the same vehicle; the other rows are untouched. */
    method UpdateRowAt(index: nat, row: VehicleRow)
      requires Valid() && index < |vehicles|
      requires row.(avail := Rows()[index].avail, imagens := Rows()[index].imagens) == Rows()[index]
      modifies vehicles[index]
      ensures Rows() == old(Rows())[index := row]
    {
      ghost var rows := Rows();
      vehicles[index].Assign(row);
      forall j | 0 <= j < |vehicles| && j != index
        ensures vehicles[j].Row() == rows[j]
      {
        assert vehicles[j].id != vehicles[index].id;
      }
    }

    /** `db.session.add(reservation)` for the next id and a stored vehicle. */
    method AddReservation(r: Reservation)
      requires Valid() && r.id == nextReservationId && r.vehicleId in VehicleIds()
      modifies this
      ensures Valid() && vehicles == old(vehicles) && Rows() == old(Rows())
      ensures reservations == old(reservations) + [r] && nextReservationId == old(nextReservationId) + 1
    {
      reservations := reservations + [r];
      nextReservationId := nextReservationId + 1;
    }

    /** Deletes reservations: the table becomes `rs`, a selection of its rows in their order. */
    method KeepReservations(rs: seq<Reservation>)
      requires Valid() && IdsIncreasing(rs)
      requires forall k :: 0 <= k < |rs| ==> rs[k] in reservations
      modifies this
      ensures Valid() && vehicles == old(vehicles) && Rows() == old(Rows())
      ensures reservations == rs && nextReservationId == old(nextReservationId)
    {
      reservations := rs;
    }

    /** `db.session.delete(vehicle)` for a vehicle no reservation refers to any more. */
    method RemoveVehicleAt(p: nat)
      requires Valid() && p < |vehicles|
      requires forall k :: 0 <= k < |reservations| ==> reservations[k].vehicleId != vehicles[p].id
      modifies this
      ensures Valid() && reservations == old(reservations) && nextReservationId == old(nextReservationId)
      ensures vehicles == old(vehicles[..p] + vehicles[p + 1..])
      ensures Rows() == old(Rows()[..p] + Rows()[p + 1..])
    {
      ghost var ids := VehicleIds();
      RowsOfRemove(vehicles, p);
      IdsOfRemove(vehicles, p);
      vehicles := vehicles[..p] + vehicles[p + 1..];
      forall k | 0 <= k < |reservations| ensures reservations[k].vehicleId in VehicleIds() {
        IdInRemaining(ids, p, reservations[k].vehicleId);
      }
    }

    constructor ()
      ensures Valid() && vehicles == [] && reservations == []
    {
      vehicles := [];
      reservations := [];
      nextReservationId := 1;
    }

    /**
     * `Veiculos.update_all_vehicles_availability`: every selected vehicle
     * goes through the sweep's body; the counter is zero exactly when no
     * vehicle changed (the case in which nothing is committed).
     */
    method UpdateAllVehiclesAvailability(now: Time) returns (updatedCount: nat)
      requires Valid()
      modifies set v | v in vehicles
      ensures |vehicles| == |old(vehicles)|
      ensures forall k :: 0 <= k < |vehicles| ==>
                vehicles[k].Row() == old(vehicles[k].Row()).(avail := Sweep(old(vehicles[k].Avail()), now))
      ensures updatedCount == 0 <==> forall k :: 0 <= k < |vehicles| ==> vehicles[k].Row() == old(vehicles[k].Row())
    {
      updatedCount := 0;
      var i := 0;
      while i < |vehicles|
        invariant 0 <= i <= |vehicles|
        invariant forall k :: 0 <= k < i ==>
                    vehicles[k].Row() == old(vehicles[k].Row()).(avail := Sweep(old(vehicles[k].Avail()), now))
        invariant forall k :: i <= k < |vehicles| ==> vehicles[k].Row() == old(vehicles[k].Row())
        invariant updatedCount == 0 <==> forall k :: 0 <= k < i ==> vehicles[k].Row() == old(vehicles[k].Row())
      {
        var vehicle := vehicles[i];
        var updates := vehicle.SweepStep(now);
        SweepUpdatesCountsChanges(old(vehicle.Avail()), now);
        updatedCount := updatedCount + updates;
        i := i + 1;
      }
    }

    /**
     * `Reservation.update_completed_reservations`: exactly the reservations
     * that ended before today and are not yet completed become completed;
     * every other row is unchanged.
     */
    method UpdateCompletedReservations(today: int)
      requires Valid()
      modifies this
      ensures Valid()
      ensures vehicles == old(vehicles) && nextReservationId == old(nextReservationId)
      ensures |reservations| == |old(reservations)|
      ensures forall k :: 0 <= k < |reservations| ==> reservations[k] == Complete(old(reservations)[k], today)
    {
      var i := 0;
      while i < |reservations|
        invariant 0 <= i <= |reservations| == |old(reservations)|
        invariant vehicles == old(vehicles) && nextReservationId == old(nextReservationId)
        invariant forall k :: 0 <= k < i ==> reservations[k] == Complete(old(reservations)[k], today)
        invariant forall k :: i <= k < |reservations| ==> reservations[k] == old(reservations)[k]
        invariant Valid()
      {
        var r := reservations[i];
        if DayOf(r.end) < today && r.status != Completed {
          reservations := reservations[i := r.(status := Completed)];
        }
        i := i + 1;
      }
    }
  }
}
