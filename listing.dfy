/**
 * The refresh that `list_vehicle` (app.py:100-117) runs over the fleet
 * before listing it: every vehicle with an availability date or a
 * maintenance end goes through `Refresh` at the request's instant, and the
 * changes are committed together.
 */
module Listing {
  import opened Common
  import opened Availability
  import opened Fleet

  /** The rows after the refresh: only the availability fields change. */
  function RefreshRows(rows: seq<VehicleRow>, now: Time): (r: seq<VehicleRow>)
    ensures |r| == |rows|
    ensures SameIds(rows, r)
  {
    seq(|rows|, k requires 0 <= k < |rows| => rows[k].(avail := Refresh(rows[k].avail, now)))
  }

  /**
   * Refreshing the listing twice at one instant is refreshing it once, no
   * live reservation is lost, and vehicles the query does not select are
   * left exactly as they were.
   */
  lemma RefreshRowsSettles(rows: seq<VehicleRow>, now: Time)
    ensures RefreshRows(RefreshRows(rows, now), now) == RefreshRows(rows, now)
    ensures forall k :: 0 <= k < |rows| && IsCurrentlyReserved(rows[k].avail, now) ==>
              IsCurrentlyReserved(RefreshRows(rows, now)[k].avail, now)
    ensures forall k :: 0 <= k < |rows| && !RefreshSelects(rows[k].avail) ==> RefreshRows(rows, now)[k] == rows[k]
  {
    var once := RefreshRows(rows, now);
    forall k | 0 <= k < |rows|
      ensures RefreshRows(once, now)[k] == once[k]
      ensures IsCurrentlyReserved(rows[k].avail, now) ==> IsCurrentlyReserved(once[k].avail, now)
    {
      RefreshSettles(rows[k].avail, now);
    }
  }

  /**
   * After the refresh no vehicle shown is held back by a window that has
   * already ended: a maintenance end in the past has re-activated it and
   * an availability date already reached has been cleared.
   */
  lemma RefreshClearsEndedWindows(rows: seq<VehicleRow>, now: Time)
    ensures forall k :: 0 <= k < |rows| && MaintenanceOver(rows[k].avail, now) ==>
              !RefreshRows(rows, now)[k].avail.inMaintenance && RefreshRows(rows, now)[k].avail.status
    ensures forall k :: 0 <= k < |rows| && AvailableFromReached(rows[k].avail, now) ==>
              RefreshRows(rows, now)[k].avail.availableFrom.None? && RefreshRows(rows, now)[k].avail.status
  {
    forall k | 0 <= k < |rows| {
      RefreshEffect(rows[k].avail, now);
    }
  }

  /** The loop of `list_vehicle` over the selected vehicles, followed by the commit. */
  method RefreshListedVehicles(db: Db, now: Time)
    requires db.Valid()
    modifies set v | v in db.vehicles
    ensures db.Rows() == RefreshRows(old(db.Rows()), now)
  {
    ghost var rows := db.Rows();
    var i := 0;
    while i < |db.vehicles|
      invariant 0 <= i <= |db.vehicles|
      invariant forall k :: 0 <= k < i ==> db.vehicles[k].Row() == rows[k].(avail := Refresh(rows[k].avail, now))
      invariant forall k :: i <= k < |db.vehicles| ==> db.vehicles[k].Row() == rows[k]
    {
      var vehicle := db.vehicles[i];
      vehicle.RefreshStep(now);
      forall k | 0 <= k < |db.vehicles| && k != i ensures db.vehicles[k] != vehicle {
        assert db.vehicles[k].id != vehicle.id;
      }
      i := i + 1;
    }
  }
}
