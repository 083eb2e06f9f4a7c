/**
 * The availability fields of a vehicle (`Veiculos` in models.py) and the
 * rules that read and rewrite them: the real-time predicates, the ordered
 * status label, and the field assignments made by reservations, the
 * background sweep, the listing refresh and the admin status workflow.
 * Everything here is a pure function of the fields and of "now".
 */
module Availability {
  import opened Common

  /** The columns of `veiculos` that decide whether a vehicle can be booked. */
  datatype Availability = Availability(
    status: bool,                    // true = nominally active
    inMaintenance: bool,
    maintenanceStart: Option<Time>,
    maintenanceEnd: Option<Time>,
    isReserved: bool,
    availableFrom: Option<Time>)     // "not bookable before this instant"

  /**
   * The label pair returned by `get_availability_status`: "Reservado",
   * "Em Manutenção", "Indisponível até <date>", "Disponível", "Indisponível".
   */
  datatype StatusLabel =
    | ShowsReserved
    | ShowsInMaintenance
    | ShowsUnavailableUntil(until: Time)
    | ShowsAvailable
    | ShowsUnavailable

  /** `is_currently_reserved` (models.py:164-168). */
  predicate IsCurrentlyReserved(a: Availability, now: Time)
  {
    a.isReserved && a.availableFrom.Some? && now < a.availableFrom.value
  }

  /** `is_in_maintenance` (models.py:170-175); the `in_maintenance` flag itself is not consulted. */
  predicate IsInMaintenance(a: Availability, now: Time)
  {
    && a.maintenanceStart.Some? && a.maintenanceEnd.Some?
    && a.maintenanceStart.value <= now <= a.maintenanceEnd.value
  }

  /** `get_availability_status` (models.py:180-203): the first matching case wins. */
  function AvailabilityStatus(a: Availability, now: Time): StatusLabel
  {
    if IsCurrentlyReserved(a, now) then ShowsReserved
    else if IsInMaintenance(a, now) then ShowsInMaintenance
    else if !a.status && a.availableFrom.Some? then
      if now < a.availableFrom.value then ShowsUnavailableUntil(a.availableFrom.value)
      else ShowsAvailable
    else if !a.status then ShowsUnavailable
    else ShowsAvailable
  }

  /** `is_available` (models.py:224-240), with its early returns. */
  predicate IsAvailable(a: Availability, now: Time)
  {
    if IsInMaintenance(a, now) then false
    else if !a.status then false
    else if a.availableFrom.Some? && now < a.availableFrom.value then false
    else a.status
  }

  /**
   * Each label, characterised by the fields: the label is decided by the
   * first of reservation, maintenance window and status/available_from
   * that applies.
   */
  lemma StatusLabelCases(a: Availability, now: Time)
    ensures AvailabilityStatus(a, now) == ShowsReserved <==> IsCurrentlyReserved(a, now)
    ensures AvailabilityStatus(a, now) == ShowsInMaintenance <==>
              !IsCurrentlyReserved(a, now) && IsInMaintenance(a, now)
    ensures AvailabilityStatus(a, now).ShowsUnavailableUntil? <==>
              && !IsCurrentlyReserved(a, now) && !IsInMaintenance(a, now)
              && !a.status && a.availableFrom.Some? && now < a.availableFrom.value
    ensures AvailabilityStatus(a, now).ShowsUnavailableUntil? ==>
              Some(AvailabilityStatus(a, now).until) == a.availableFrom
    ensures AvailabilityStatus(a, now) == ShowsUnavailable <==>
              !IsCurrentlyReserved(a, now) && !IsInMaintenance(a, now) && !a.status && a.availableFrom.None?
    ensures AvailabilityStatus(a, now) == ShowsAvailable <==>
              && !IsCurrentlyReserved(a, now) && !IsInMaintenance(a, now)
              && (a.status || (a.availableFrom.Some? && now >= a.availableFrom.value))
  {
  }

  /** A live reservation is reported even when a maintenance window is open too. */
  lemma ReservedBeatsMaintenance(a: Availability, now: Time)
    requires a.isReserved && a.availableFrom.Some? && now < a.availableFrom.value
    requires IsInMaintenance(a, now)
    ensures AvailabilityStatus(a, now) == ShowsReserved
  {
  }

  /**
   * A bookable vehicle is one outside any maintenance window, active, and
   * whose available_from is unset or reached; it is always labelled
   * available.
   */
  lemma AvailableMeansAvailableLabel(a: Availability, now: Time)
    ensures IsAvailable(a, now) <==>
              && !IsInMaintenance(a, now) && a.status
              && (a.availableFrom.None? || a.availableFrom.value <= now)
    ensures IsAvailable(a, now) ==> AvailabilityStatus(a, now) == ShowsAvailable
  {
  }

  /**
   * The converse does not hold: an inactive vehicle whose available_from
   * has passed is labelled available but cannot be booked until something
   * resets its status.
   */
  lemma AvailableLabelNotBookable()
    ensures var a := Availability(false, false, None, None, false, Some(0));
            AvailabilityStatus(a, 1) == ShowsAvailable && !IsAvailable(a, 1)
  {
  }

  // ---------------------------------------------------------------------
  // Reservation end and re-activation (models.py:242-263)

  /** The fields written by `update_availability_after_reservation(end)`. */
  function AfterReservation(a: Availability, end: Time): (r: Availability)
    ensures r.availableFrom == Some(end) && !r.status
    ensures r.(status := a.status, availableFrom := a.availableFrom) == a
  {
    a.(availableFrom := Some(end), status := false)
  }

  /**
   * A vehicle's fields once `create_reservation` books a cart item for it:
   * `is_reserved` is set, then `update_availability_after_reservation(end)`.
   */
  function Reserve(a: Availability, end: Time): (r: Availability)
    ensures r.isReserved && !r.status && r.availableFrom == Some(end)
    ensures r.(isReserved := a.isReserved, status := a.status, availableFrom := a.availableFrom) == a
  {
    AfterReservation(a.(isReserved := true), end)
  }

  /** The guard of `check_and_update_availability`. */
  predicate ReadyToActivate(a: Availability, now: Time)
  {
    !a.status && a.availableFrom.Some? && now >= a.availableFrom.value
  }

  /** The fields written when `check_and_update_availability` fires. */
  function Activate(a: Availability): Availability
  {
    a.(status := true, availableFrom := None)
  }

  /**
   * Until its end the reserved vehicle cannot be booked and is labelled as
   * reserved (or in maintenance, or unavailable until the end); from the end
   * on, `check_and_update_availability` fires.
   */
  lemma AfterReservationBlocksUntilEnd(a: Availability, end: Time, now: Time)
    ensures now < end ==> !IsAvailable(AfterReservation(a, end), now)
    ensures now < end && a.isReserved ==> AvailabilityStatus(AfterReservation(a, end), now) == ShowsReserved
    ensures now < end && !IsInMaintenance(a, now) && !a.isReserved ==>
              AvailabilityStatus(AfterReservation(a, end), now) == ShowsUnavailableUntil(end)
    ensures now >= end <==> ReadyToActivate(AfterReservation(a, end), now)
  {
  }

  /**
   * Activation fires at most once, and it does not change the label shown
   * at that moment: an inactive vehicle whose available_from has passed was
   * already labelled as available.
   */
  lemma ActivateOnce(a: Availability, now: Time, later: Time)
    requires ReadyToActivate(a, now)
    ensures !ReadyToActivate(Activate(a), later)
    ensures AvailabilityStatus(Activate(a), now) == AvailabilityStatus(a, now)
    ensures !IsInMaintenance(a, now) ==> IsAvailable(Activate(a), now)
  {
  }

  // ---------------------------------------------------------------------
  // Background sweep: `update_all_vehicles_availability` (models.py:266-313)

  /** The query filter of the sweep. */
  predicate SweepSelects(a: Availability)
  {
    !a.status || a.availableFrom.Some? || a.maintenanceEnd.Some? || a.isReserved
  }

  predicate MaintenanceOver(a: Availability, now: Time)
  {
    a.maintenanceEnd.Some? && now > a.maintenanceEnd.value
  }

  predicate AvailableFromReached(a: Availability, now: Time)
  {
    a.availableFrom.Some? && now >= a.availableFrom.value
  }

  /** The sweep's body for one vehicle. */
  function Sweep(a: Availability, now: Time): Availability
  {
    if !SweepSelects(a) then a
    else
      var m := if MaintenanceOver(a, now)
               then a.(inMaintenance := false, maintenanceStart := None, maintenanceEnd := None)
               else a;
      if m.isReserved && AvailableFromReached(m, now) then
        m.(isReserved := false, status := true, availableFrom := None)
      else if !m.isReserved && AvailableFromReached(m, now) then
        m.(status := true, availableFrom := None)
      else m
  }

  /** The counter increments of the sweep's body for one vehicle. */
  function SweepUpdates(a: Availability, now: Time): nat
  {
    if !SweepSelects(a) then 0
    else (if MaintenanceOver(a, now) then 1 else 0) + (if AvailableFromReached(a, now) then 1 else 0)
  }

  /**
   * What the sweep does to one selected vehicle: an ended maintenance window
   * is cleared, a reached available_from is cleared and re-activates the
   * vehicle and drops its reservation flag, and nothing else changes.
   * Unselected vehicles are untouched.
   */
  lemma SweepEffect(a: Availability, now: Time)
    ensures !SweepSelects(a) ==> Sweep(a, now) == a
    ensures SweepSelects(a) && MaintenanceOver(a, now) ==>
              && !Sweep(a, now).inMaintenance
              && Sweep(a, now).maintenanceStart.None? && Sweep(a, now).maintenanceEnd.None?
    ensures SweepSelects(a) && !MaintenanceOver(a, now) ==>
              && Sweep(a, now).inMaintenance == a.inMaintenance
              && Sweep(a, now).maintenanceStart == a.maintenanceStart
              && Sweep(a, now).maintenanceEnd == a.maintenanceEnd
    ensures SweepSelects(a) && AvailableFromReached(a, now) ==>
              Sweep(a, now).availableFrom.None? && Sweep(a, now).status && !Sweep(a, now).isReserved
    ensures SweepSelects(a) && !AvailableFromReached(a, now) ==>
              && Sweep(a, now).availableFrom == a.availableFrom
              && Sweep(a, now).status == a.status
              && Sweep(a, now).isReserved == a.isReserved
  {
  }

  /** The sweep's counter is zero exactly when the vehicle is left as it was. */
  lemma SweepUpdatesCountsChanges(a: Availability, now: Time)
    ensures SweepUpdates(a, now) == 0 <==> Sweep(a, now) == a
  {
  }

  /**
   * After a sweep no expired marker remains, a second sweep at the same
   * instant changes nothing, and the label shown at that instant is the
   * same as before: the sweep only makes the stored fields agree with what
   * the label already reported.
   */
  lemma SweepSettles(a: Availability, now: Time)
    ensures var r := Sweep(a, now);
            SweepSelects(a) ==> !MaintenanceOver(r, now) && !AvailableFromReached(r, now)
    ensures Sweep(Sweep(a, now), now) == Sweep(a, now)
    ensures AvailabilityStatus(Sweep(a, now), now) == AvailabilityStatus(a, now)
  {
  }

  // ---------------------------------------------------------------------
  // Listing refresh: the loop at the top of `list_vehicle` (app.py:100-114)

  /** The query filter of the listing refresh. */
  predicate RefreshSelects(a: Availability)
  {
    a.availableFrom.Some? || a.maintenanceEnd.Some?
  }

  /** The listing refresh's body for one vehicle. */
  function Refresh(a: Availability, now: Time): Availability
  {
    if !RefreshSelects(a) then a
    else
      var m := if MaintenanceOver(a, now) then a.(inMaintenance := false, status := true) else a;
      if AvailableFromReached(m, now) then m.(status := true, availableFrom := None) else m
  }

  /**
   * What the listing refresh does to one vehicle. Unlike the sweep it keeps
   * the maintenance bounds and the reservation flag, and an ended
   * maintenance window re-activates the vehicle.
   */
  lemma RefreshEffect(a: Availability, now: Time)
    ensures !RefreshSelects(a) ==> Refresh(a, now) == a
    ensures var r := Refresh(a, now);
            && r.maintenanceStart == a.maintenanceStart && r.maintenanceEnd == a.maintenanceEnd
            && r.isReserved == a.isReserved
    ensures MaintenanceOver(a, now) ==> !Refresh(a, now).inMaintenance && Refresh(a, now).status
    ensures !MaintenanceOver(a, now) ==> Refresh(a, now).inMaintenance == a.inMaintenance
    ensures AvailableFromReached(a, now) ==> Refresh(a, now).status && Refresh(a, now).availableFrom.None?
    ensures !AvailableFromReached(a, now) ==> Refresh(a, now).availableFrom == a.availableFrom
    ensures !MaintenanceOver(a, now) && !AvailableFromReached(a, now) ==> Refresh(a, now) == a
  {
  }

  /** Refreshing twice at one instant is refreshing once; a live reservation survives it. */
  lemma RefreshSettles(a: Availability, now: Time)
    ensures Refresh(Refresh(a, now), now) == Refresh(a, now)
    ensures IsCurrentlyReserved(a, now) ==> IsCurrentlyReserved(Refresh(a, now), now)
  {
  }

  // ---------------------------------------------------------------------
  // Admin status targets (admin.py:568-583, 626-637, 664-668, 687-692)

  /** Every availability field as the "active" target (and "revert") sets them. */
  const ActiveFields: Availability := Availability(true, false, None, None, false, None)

  /** The fields written when a maintenance window [start, end] is saved. */
  function MaintenanceFields(start: Time, end: Time): Availability
  {
    Availability(false, true, Some(start), Some(end), false, Some(end))
  }

  /** The fields written when an admin reservation [start, end] is saved. */
  function ReservedFields(start: Time, end: Time): Availability
  {
    Availability(false, false, None, None, true, Some(end))
  }

  /** An activated vehicle is bookable at every instant. */
  lemma ActiveIsBookable(now: Time)
    ensures IsAvailable(ActiveFields, now)
    ensures AvailabilityStatus(ActiveFields, now) == ShowsAvailable
  {
  }

  /**
   * A saved maintenance window shows "unavailable until end" before it
   * starts, "in maintenance" inside it, and cannot be booked until its end;
   * after the end it is labelled available but stays unbookable until the
   * sweep or the listing refresh re-activates it.
   */
  lemma MaintenanceTimeline(start: Time, end: Time, now: Time)
    requires start <= end
    ensures now < start ==> AvailabilityStatus(MaintenanceFields(start, end), now) == ShowsUnavailableUntil(end)
    ensures start <= now <= end ==> AvailabilityStatus(MaintenanceFields(start, end), now) == ShowsInMaintenance
    ensures now > end ==> AvailabilityStatus(MaintenanceFields(start, end), now) == ShowsAvailable
    ensures !IsAvailable(MaintenanceFields(start, end), now)
    ensures now > end ==> IsAvailable(Sweep(MaintenanceFields(start, end), now), now)
  {
  }

  /**
   * A saved admin reservation shows "reserved" until its end and
   * "available" from then on; the sweep makes it bookable at its end.
   */
  lemma ReservedTimeline(start: Time, end: Time, now: Time)
    requires start <= end
    ensures now < end ==> AvailabilityStatus(ReservedFields(start, end), now) == ShowsReserved
    ensures now >= end ==> AvailabilityStatus(ReservedFields(start, end), now) == ShowsAvailable
    ensures !IsAvailable(ReservedFields(start, end), now)
    ensures now >= end ==> IsAvailable(Sweep(ReservedFields(start, end), now), now)
  {
  }
}
