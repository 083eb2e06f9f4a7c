/**
 * The administrator's side of admin.py: the vehicle form validator
 * (`validate_vehicle_data`, admin.py:308-365), the two-phase status editor
 * (`toggle_vehicle_status` with `_clear_session_data`, admin.py:525-732),
 * the removal of one image (`delete_vehicle_image`, admin.py:797-825) and
 * the deletion of a vehicle with its reservations (`delete_vehicle`,
 * admin.py:829-849).
 */
module AdminPanel {
  import opened Common
  import opened Text
  import opened Availability
  import opened Images
  import opened Fleet
  import opened Pricing

  // ---------------------------------------------------------------------
  // `validate_vehicle_data`

  /**
   * The fields the validator reads. The price and the maintenance instants
   * arrive already converted: `None` where `float(...)` or `strptime(...)`
   * raises ValueError. The year is converted here, as `int(...)` does.
   */
  datatype VehicleForm = VehicleForm(
    year: string,
    price: Option<real>,
    maintenanceStart: string,
    maintenanceEnd: string,
    maintenanceWindow: Option<(Time, Time)>)

  datatype FormError =
    | YearOutOfRange      // "Ano inválido!"
    | YearNotANumber      // "Ano deve ser um número válido!"
    | PriceNotPositive    // "Preço por dia deve ser maior que zero!"
    | PriceNotANumber     // "Preço deve ser um número válido!"
    | MaintenanceOrder    // "A data de fim da manutenção deve ser posterior à data de início!"
    | MaintenanceFormat   // "Formato de data/hora inválido!"

  /** Which of the three checks reports the error: year, price, maintenance window. */
  function CheckOf(e: FormError): nat
  {
    match e
    case YearOutOfRange | YearNotANumber => 0
    case PriceNotPositive | PriceNotANumber => 1
    case MaintenanceOrder | MaintenanceFormat => 2
  }

  /** A year, once converted, between 1900 and the current year. */
  predicate YearOk(year: Option<int>, currentYear: int)
  {
    year.Some? && 1900 <= year.value <= currentYear
  }

  predicate PriceOk(form: VehicleForm)
  {
    form.price.Some? && form.price.value > 0.0
  }

  /** The window is checked only when both dates are filled in. */
  predicate MaintenanceGiven(form: VehicleForm)
  {
    form.maintenanceStart != "" && form.maintenanceEnd != ""
  }

  /** No window, or a well-formed one that ends strictly after it starts. */
  predicate MaintenanceOk(form: VehicleForm)
  {
    !MaintenanceGiven(form)
    || (form.maintenanceWindow.Some? && form.maintenanceWindow.value.0 < form.maintenanceWindow.value.1)
  }

  /**
   * The validator: each check contributes at most one message, in the
   * order year, price, maintenance, and names the reason; the list is empty
   * exactly when the form is acceptable.
   */
  method ValidateVehicleData(form: VehicleForm, currentYear: int) returns (errors: seq<FormError>)
    ensures var year := ParseInt(form.year);
            && (YearNotANumber in errors <==> year.None?)
            && (YearOutOfRange in errors <==> year.Some? && !YearOk(year, currentYear))
            && (errors == [] <==> YearOk(year, currentYear) && PriceOk(form) && MaintenanceOk(form))
    ensures PriceNotANumber in errors <==> form.price.None?
    ensures PriceNotPositive in errors <==> form.price.Some? && !PriceOk(form)
    ensures MaintenanceFormat in errors <==> MaintenanceGiven(form) && form.maintenanceWindow.None?
    ensures MaintenanceOrder in errors <==> form.maintenanceWindow.Some? && !MaintenanceOk(form)
    ensures forall i, j :: 0 <= i < j < |errors| ==> CheckOf(errors[i]) < CheckOf(errors[j])
  {
    var year := ParseInt(form.year);
    errors := CollectErrors(year, form, currentYear);
  }

  /** The three checks in order, with the year already converted; each appends its message. */
  method CollectErrors(year: Option<int>, form: VehicleForm, currentYear: int) returns (errors: seq<FormError>)
    ensures YearNotANumber in errors <==> year.None?
    ensures YearOutOfRange in errors <==> year.Some? && !YearOk(year, currentYear)
    ensures PriceNotANumber in errors <==> form.price.None?
    ensures PriceNotPositive in errors <==> form.price.Some? && !PriceOk(form)
    ensures MaintenanceFormat in errors <==> MaintenanceGiven(form) && form.maintenanceWindow.None?
    ensures MaintenanceOrder in errors <==> form.maintenanceWindow.Some? && !MaintenanceOk(form)
    ensures forall i, j :: 0 <= i < j < |errors| ==> CheckOf(errors[i]) < CheckOf(errors[j])
    ensures errors == [] <==> YearOk(year, currentYear) && PriceOk(form) && MaintenanceOk(form)
  {
    var y := YearCheck(year, currentYear);
    var p := PriceCheck(form);
    var m := MaintenanceCheck(form);
    errors := [];
    errors := errors + y;
    errors := errors + p;
    errors := errors + m;
    assert errors == y + p + m;
    forall i, j | 0 <= i < j < |errors| ensures CheckOf(errors[i]) < CheckOf(errors[j]) {
      assert CheckOf(errors[i]) == if i < |y| then 0 else if i < |y| + |p| then 1 else 2;
      assert CheckOf(errors[j]) == if j < |y| then 0 else if j < |y| + |p| then 1 else 2;
    }
  }

  /** The year check: at most one message, naming why the year is refused. */
  function YearCheck(year: Option<int>, currentYear: int): (e: seq<FormError>)
    ensures |e| <= 1 && (e == [] <==> YearOk(year, currentYear))
    ensures forall k :: 0 <= k < |e| ==> CheckOf(e[k]) == 0
    ensures YearNotANumber in e <==> year.None?
    ensures YearOutOfRange in e <==> year.Some? && !YearOk(year, currentYear)
  {
    if year.None? then [YearNotANumber]
    else if year.value < 1900 || year.value > currentYear then [YearOutOfRange]
    else []
  }

  /** The price check: at most one message, naming why the price is refused. */
  function PriceCheck(form: VehicleForm): (e: seq<FormError>)
    ensures |e| <= 1 && (e == [] <==> PriceOk(form))
    ensures forall k :: 0 <= k < |e| ==> CheckOf(e[k]) == 1
    ensures PriceNotANumber in e <==> form.price.None?
    ensures PriceNotPositive in e <==> form.price.Some? && !PriceOk(form)
  {
    if form.price.None? then [PriceNotANumber]
    else if form.price.value <= 0.0 then [PriceNotPositive]
    else []
  }

  /** The maintenance check, run only when both dates are given. */
  function MaintenanceCheck(form: VehicleForm): (e: seq<FormError>)
    ensures |e| <= 1 && (e == [] <==> MaintenanceOk(form))
    ensures forall k :: 0 <= k < |e| ==> CheckOf(e[k]) == 2
    ensures MaintenanceFormat in e <==> MaintenanceGiven(form) && form.maintenanceWindow.None?
    ensures MaintenanceOrder in e <==> form.maintenanceWindow.Some? && !MaintenanceOk(form)
  {
    if !MaintenanceGiven(form) then []
    else if form.maintenanceWindow.None? then [MaintenanceFormat]
    else if form.maintenanceWindow.value.0 >= form.maintenanceWindow.value.1 then [MaintenanceOrder]
    else []
  }

  // ---------------------------------------------------------------------
  // Pending reservations of a vehicle

  predicate PendingFor(r: Reservation, vehicleId: nat)
  {
    r.vehicleId == vehicleId && r.status == Pending
  }

  /** `Reservation.query.filter_by(veiculo_id=..., status='Pendente').first()`, in table order. */
  function FirstPending(rs: seq<Reservation>, vehicleId: nat): (k: Option<nat>)
    ensures k.Some? ==> k.value < |rs| && PendingFor(rs[k.value], vehicleId)
    ensures k.Some? ==> forall j :: 0 <= j < k.value ==> !PendingFor(rs[j], vehicleId)
    ensures k.None? ==> forall j :: 0 <= j < |rs| ==> !PendingFor(rs[j], vehicleId)
  {
    if rs == [] then None
    else if PendingFor(rs[0], vehicleId) then Some(0)
    else
      match FirstPending(rs[1..], vehicleId)
      case None => None
      case Some(k) => Some(k + 1)
  }

  /** The table after deleting that first pending reservation, if there is one. */
  function DeletePending(rs: seq<Reservation>, vehicleId: nat): seq<Reservation>
  {
    match FirstPending(rs, vehicleId)
    case None => rs
    case Some(k) => rs[..k] + rs[k + 1..]
  }

  /**
   * Deleting the first pending reservation removes exactly that one row,
   * keeps the others in order (so ids stay increasing), and deletes nothing
   * when the vehicle has no pending reservation.
   */
  lemma DeletePendingEffect(rs: seq<Reservation>, vehicleId: nat)
    ensures FirstPending(rs, vehicleId).None? ==> DeletePending(rs, vehicleId) == rs
    ensures FirstPending(rs, vehicleId).Some? ==>
              var k := FirstPending(rs, vehicleId).value;
              && |DeletePending(rs, vehicleId)| == |rs| - 1
              && multiset(DeletePending(rs, vehicleId)) + multiset{rs[k]} == multiset(rs)
    ensures forall i :: 0 <= i < |DeletePending(rs, vehicleId)| ==> DeletePending(rs, vehicleId)[i] in rs
    ensures IdsIncreasing(rs) ==> IdsIncreasing(DeletePending(rs, vehicleId))
  {
    if FirstPending(rs, vehicleId).Some? {
      RemoveAt(rs, FirstPending(rs, vehicleId).value);
    }
  }

  /** Removing the row at `k` keeps the others, in order. */
  lemma RemoveAt(rs: seq<Reservation>, k: nat)
    requires k < |rs|
    ensures var rest := rs[..k] + rs[k + 1..];
            && |rest| == |rs| - 1
            && multiset(rest) + multiset{rs[k]} == multiset(rs)
            && (forall i :: 0 <= i < |rest| ==> rest[i] in rs)
            && (IdsIncreasing(rs) ==> IdsIncreasing(rest))
  {
    var rest := rs[..k] + rs[k + 1..];
    assert rs == rs[..k] + [rs[k]] + rs[k + 1..];
    forall i | 0 <= i < |rest| ensures rest[i] == rs[if i < k then i else i + 1] {
    }
  }

  // ---------------------------------------------------------------------
  // `toggle_vehicle_status`: the pure specification

  /** The status an administrator chose and still has to give dates for. */
  datatype Target = ToMaintenance | ToReserved

  /** The `status` field of the "alterar_status" form; anything else is `ChooseOther`. */
  datatype StatusChoice = ChooseActive | ChooseMaintenance | ChooseReserved | ChooseOther

  /** A form field, absent or present with some text (possibly empty). */
  datatype Field = Absent | Given(text: string)

  /**
   * The "salvar_alteracoes" form: two dates and two times, and the two
   * instants `strptime` makes of them (`None` when either does not parse).
   */
  datatype DateTimeForm = DateTimeForm(
    startDate: Field,
    startTime: Field,
    endDate: Field,
    endTime: Field,
    window: Option<(Time, Time)>)

  /** Which button was pressed; `ShowForm` is a GET or a POST with none of them. */
  datatype AdminAction =
    | Select(choice: StatusChoice)
    | Save(form: DateTimeForm)
    | Revert
    | Cancel
    | ShowForm

  datatype ToggleOutcome =
    | VehicleNotFound            // `get_or_404`
    | StatusUndefined            // an unknown status leaves `actual_status` unbound
    | Activated                  // "Status do veículo atualizado para \"Ativo\" com sucesso!"
    | AwaitingDetails(target: Target)
    | FieldsMissing              // "Todos os campos de data e hora ... são obrigatórios."
    | BadDateTime                // `strptime` raised; rolled back
    | StartAfterEnd              // "A data/hora de início não pode ser posterior ..."
    | Saved                      // "Status do veículo atualizado com sucesso!"
    | Reverted                   // "Status do veículo revertido para \"Ativo\"!"
    | Cancelled
    | FormShown

  /** The database, the administrator's pending choice and what the request answered. */
  datatype ToggleResult = ToggleResult(ledger: Ledger, pending: Option<Target>, outcome: ToggleOutcome)

  function FieldOr(f: Field, default: string): string
  {
    match f
    case Absent => default
    case Given(text) => text
  }

  /** `all([...])`: every field present and non-empty, the times defaulting to 00:00 and 23:59. */
  predicate Filled(form: DateTimeForm)
  {
    && FieldOr(form.startDate, "") != ""
    && FieldOr(form.startTime, "00:00") != ""
    && FieldOr(form.endDate, "") != ""
    && FieldOr(form.endTime, "23:59") != ""
  }

  /** The reservation an administrator's "reserved" save inserts, charged by `AdminPrice`. */
  function AdminReservation(id: nat, adminId: nat, row: VehicleRow, start: Time, end: Time, createdAt: Time): Reservation
  {
    Reservation(id, adminId, row.id, start, end, HoursBetween(start, end),
                AdminPrice(start, end, row.pricePerDay), Some("Admin Reservation"), createdAt, Pending)
  }

  /** Sets the vehicle at `p` active, first deleting its first pending reservation when asked to. */
  function ActivateRow(l: Ledger, p: nat, dropPending: bool): Ledger
    requires p < |l.rows|
  {
    Ledger(l.rows[p := l.rows[p].(avail := ActiveFields)],
           if dropPending then DeletePending(l.reservations, l.rows[p].id) else l.reservations,
           l.nextId)
  }

  /** "alterar_status": active is applied at once, the other two wait for their dates. */
  function SelectStep(l: Ledger, pending: Option<Target>, p: nat, choice: StatusChoice): ToggleResult
    requires p < |l.rows|
  {
    match choice
    case ChooseActive => ToggleResult(ActivateRow(l, p, l.rows[p].avail.isReserved), None, Activated)
    case ChooseMaintenance => ToggleResult(l, Some(ToMaintenance), AwaitingDetails(ToMaintenance))
    case ChooseReserved => ToggleResult(l, Some(ToReserved), AwaitingDetails(ToReserved))
    case ChooseOther => ToggleResult(l, pending, StatusUndefined)
  }

  /** The database after a save of `target` for the window from `start` to `end`. */
  function SavedLedger(l: Ledger, p: nat, target: Target, start: Time, end: Time, adminId: nat, createdAt: Time): Ledger
    requires p < |l.rows|
  {
    match target
    case ToMaintenance =>
      Ledger(l.rows[p := l.rows[p].(avail := MaintenanceFields(start, end))], l.reservations, l.nextId)
    case ToReserved =>
      Ledger(l.rows[p := l.rows[p].(avail := ReservedFields(start, end))],
             l.reservations + [AdminReservation(l.nextId, adminId, l.rows[p], start, end, createdAt)],
             l.nextId + 1)
  }

  /** "salvar_alteracoes": applies the pending choice with the dates of the form. */
  function SaveStep(l: Ledger, pending: Option<Target>, p: nat, form: DateTimeForm, adminId: nat, createdAt: Time): ToggleResult
    requires p < |l.rows|
  {
    if pending.None? then ToggleResult(l, pending, FormShown)
    else if !Filled(form) then ToggleResult(l, pending, FieldsMissing)
    else if form.window.None? then ToggleResult(l, pending, BadDateTime)
    else if form.window.value.0 > form.window.value.1 then ToggleResult(l, pending, StartAfterEnd)
    else ToggleResult(SavedLedger(l, p, pending.value, form.window.value.0, form.window.value.1, adminId, createdAt),
                      None, Saved)
  }

  /** "reverter_status": back to active, deleting the first pending reservation. */
  function RevertStep(l: Ledger, pending: Option<Target>, p: nat): ToggleResult
    requires p < |l.rows|
  {
    if pending.None? then ToggleResult(l, pending, FormShown)
    else ToggleResult(ActivateRow(l, p, true), None, Reverted)
  }

  /** One request to `toggle_vehicle_status` for `vehicleId`. */
  function Toggle(l: Ledger, pending: Option<Target>, vehicleId: nat, action: AdminAction,
                  adminId: nat, createdAt: Time): ToggleResult
  {
    match FindRow(l.rows, vehicleId)
    case None => ToggleResult(l, pending, VehicleNotFound)
    case Some(p) =>
      match action
      case Select(choice) => SelectStep(l, pending, p, choice)
      case Save(form) => SaveStep(l, pending, p, form, adminId, createdAt)
      case Revert => RevertStep(l, pending, p)
      case Cancel => ToggleResult(l, None, Cancelled)
      case ShowForm => ToggleResult(l, pending, FormShown)
  }

  // ---------------------------------------------------------------------
  // What a toggle request does

  /**
   * A request only ever touches the vehicle it names: every other row is
   * unchanged, the named row keeps its identity, catalogue data and images,
   * and the reservation table is left alone, loses the vehicle's first
   * pending reservation, or gains one administrator's reservation for it.
   * An unknown vehicle changes nothing.
   */
  lemma ToggleTouchesOneVehicle(l: Ledger, pending: Option<Target>, vehicleId: nat, action: AdminAction,
                                adminId: nat, createdAt: Time)
    ensures var r := Toggle(l, pending, vehicleId, action, adminId, createdAt);
            && |r.ledger.rows| == |l.rows|
            && (forall k :: 0 <= k < |l.rows| && l.rows[k].id != vehicleId ==> r.ledger.rows[k] == l.rows[k])
            && (forall k :: 0 <= k < |l.rows| ==> r.ledger.rows[k] == l.rows[k].(avail := r.ledger.rows[k].avail))
    ensures var r := Toggle(l, pending, vehicleId, action, adminId, createdAt);
            || (r.ledger.reservations == l.reservations && r.ledger.nextId == l.nextId)
            || (r.ledger.reservations == DeletePending(l.reservations, vehicleId) && r.ledger.nextId == l.nextId)
            || (&& |r.ledger.reservations| == |l.reservations| + 1
                && r.ledger.reservations[..|l.reservations|] == l.reservations
                && var added := r.ledger.reservations[|l.reservations|];
                && added.id == l.nextId && r.ledger.nextId == l.nextId + 1
                && added.vehicleId == vehicleId && added.customerId == adminId
                && added.status == Pending && added.paymentMethod == Some("Admin Reservation"))
    ensures FindRow(l.rows, vehicleId).None? ==>
              Toggle(l, pending, vehicleId, action, adminId, createdAt) == ToggleResult(l, pending, VehicleNotFound)
  {
    var r := Toggle(l, pending, vehicleId, action, adminId, createdAt);
    if FindRow(l.rows, vehicleId).Some? && action.Save? && r.ledger.nextId == l.nextId + 1 {
      assert r.ledger.reservations[..|l.reservations|] == l.reservations;
    }
  }

  /**
   * Choosing "active" takes effect at once: the vehicle becomes active and
   * bookable, the choice is cleared, and when the vehicle was flagged as
   * reserved its first pending reservation is deleted; an unknown status
   * changes nothing.
   */
  lemma SelectActiveEffect(l: Ledger, pending: Option<Target>, p: nat, now: Time)
    requires p < |l.rows|
    ensures var r := SelectStep(l, pending, p, ChooseActive);
            && r.outcome == Activated && r.pending.None?
            && r.ledger.rows[p].avail == ActiveFields
            && IsAvailable(r.ledger.rows[p].avail, now)
            && AvailabilityStatus(r.ledger.rows[p].avail, now) == ShowsAvailable
            && r.ledger.reservations == (if l.rows[p].avail.isReserved then DeletePending(l.reservations, l.rows[p].id)
                                         else l.reservations)
    ensures SelectStep(l, pending, p, ChooseOther) == ToggleResult(l, pending, StatusUndefined)
  {
    ActiveIsBookable(now);
  }

  /**
   * Choosing maintenance or reserved changes nothing in the database: it
   * only records the choice, which the next save (for whichever vehicle
   * it names) applies.
   */
  lemma SelectDefers(l: Ledger, pending: Option<Target>, p: nat, choice: StatusChoice)
    requires p < |l.rows| && (choice == ChooseMaintenance || choice == ChooseReserved)
    ensures var r := SelectStep(l, pending, p, choice);
            && r.ledger == l
            && r.pending == Some(if choice == ChooseMaintenance then ToMaintenance else ToReserved)
            && r.outcome == AwaitingDetails(r.pending.value)
  {
  }

  /**
   * A save succeeds exactly when a choice is pending, every field is filled,
   * both instants parse and the start is not after the end; every refused
   * save leaves the database and the pending choice as they were.
   */
  lemma SaveAcceptance(l: Ledger, pending: Option<Target>, p: nat, form: DateTimeForm, adminId: nat, createdAt: Time)
    requires p < |l.rows|
    ensures var r := SaveStep(l, pending, p, form, adminId, createdAt);
            r.outcome == Saved <==>
              pending.Some? && Filled(form) && form.window.Some? && form.window.value.0 <= form.window.value.1
    ensures var r := SaveStep(l, pending, p, form, adminId, createdAt);
            r.outcome != Saved ==> r.ledger == l && r.pending == pending
    ensures var r := SaveStep(l, pending, p, form, adminId, createdAt);
            r.outcome == Saved ==> r.pending.None?
  {
  }

  /**
   * A saved maintenance window puts the vehicle in maintenance for the
   * window and makes it unbookable, without touching the reservations.
   */
  lemma SaveMaintenanceEffect(l: Ledger, p: nat, form: DateTimeForm, adminId: nat, createdAt: Time, now: Time)
    requires p < |l.rows|
    requires Filled(form) && form.window.Some? && form.window.value.0 <= form.window.value.1
    ensures var r := SaveStep(l, Some(ToMaintenance), p, form, adminId, createdAt);
            var (start, end) := form.window.value;
            && r.ledger.rows[p].avail == MaintenanceFields(start, end)
            && r.ledger.reservations == l.reservations && r.ledger.nextId == l.nextId
            && !IsAvailable(r.ledger.rows[p].avail, now)
            && (start <= now <= end ==> AvailabilityStatus(r.ledger.rows[p].avail, now) == ShowsInMaintenance)
  {
    MaintenanceTimeline(form.window.value.0, form.window.value.1, now);
  }

  /**
   * A saved reservation marks the vehicle reserved until its end and
   * appends one pending reservation in the administrator's name, for the
   * saved window, charged the prorated untaxed price.
   */
  lemma SaveReservedEffect(l: Ledger, p: nat, form: DateTimeForm, adminId: nat, createdAt: Time, now: Time)
    requires p < |l.rows|
    requires Filled(form) && form.window.Some? && form.window.value.0 <= form.window.value.1
    ensures var r := SaveStep(l, Some(ToReserved), p, form, adminId, createdAt);
            var (start, end) := form.window.value;
            && r.ledger.rows[p].avail == ReservedFields(start, end)
            && r.ledger.nextId == l.nextId + 1
            && r.ledger.reservations == l.reservations + [r.ledger.reservations[|l.reservations|]]
            && var added := r.ledger.reservations[|l.reservations|];
            && added.id == l.nextId && added.customerId == adminId && added.vehicleId == l.rows[p].id
            && added.start == start && added.end == end && added.status == Pending
            && added.duration * MicrosPerHour as real == (end - start) as real
            && added.price == AdminPrice(start, end, l.rows[p].pricePerDay)
            && !IsAvailable(r.ledger.rows[p].avail, now)
            && (now < end ==> AvailabilityStatus(r.ledger.rows[p].avail, now) == ShowsReserved)
  {
    ReservedTimeline(form.window.value.0, form.window.value.1, now);
  }

  /**
   * The status editor and the vehicle form disagree on an empty window:
   * a save whose start equals its end is accepted, while the validator
   * refuses a maintenance window with equal ends.
   */
  lemma EmptyWindowAcceptedBySave(l: Ledger, pending: Option<Target>, p: nat, form: DateTimeForm,
                                  adminId: nat, createdAt: Time, vehicleForm: VehicleForm, t: Time)
    requires p < |l.rows| && pending.Some? && Filled(form) && form.window == Some((t, t))
    requires MaintenanceGiven(vehicleForm) && vehicleForm.maintenanceWindow == Some((t, t))
    ensures SaveStep(l, pending, p, form, adminId, createdAt).outcome == Saved
    ensures !MaintenanceOk(vehicleForm)
  {
  }

  /**
   * Reverting with a pending choice forces the vehicle active and deletes
   * its first pending reservation whatever its flags; without one it only
   * shows the form. Cancelling clears the choice and nothing else.
   */
  lemma RevertAndCancel(l: Ledger, pending: Option<Target>, p: nat, adminId: nat, createdAt: Time)
    requires p < |l.rows|
    ensures pending.Some? ==>
              var r := RevertStep(l, pending, p);
              && r.ledger.rows[p].avail == ActiveFields
              && r.ledger.reservations == DeletePending(l.reservations, l.rows[p].id)
              && r.pending.None? && r.outcome == Reverted
    ensures pending.None? ==> RevertStep(l, pending, p) == ToggleResult(l, None, FormShown)
    ensures Toggle(l, pending, l.rows[p].id, Cancel, adminId, createdAt).ledger == l
    ensures FindRow(l.rows, l.rows[p].id).Some? ==>
              Toggle(l, pending, l.rows[p].id, Cancel, adminId, createdAt).pending.None?
  {
  }

  /**
   * The two-phase protocol: choosing maintenance and then saving a filled,
   * well-ordered form puts the vehicle in maintenance and clears the choice;
   * choosing and then cancelling leaves the database as it was, with no
   * choice pending.
   */
  lemma SelectThenSave(l: Ledger, pending: Option<Target>, vehicleId: nat, form: DateTimeForm, adminId: nat, createdAt: Time)
    requires FindRow(l.rows, vehicleId).Some?
    requires Filled(form) && form.window.Some? && form.window.value.0 <= form.window.value.1
    ensures var r1 := Toggle(l, pending, vehicleId, Select(ChooseMaintenance), adminId, createdAt);
            var r2 := Toggle(r1.ledger, r1.pending, vehicleId, Save(form), adminId, createdAt);
            && r2.outcome == Saved && r2.pending.None?
            && r2.ledger.rows[FindRow(l.rows, vehicleId).value].avail == MaintenanceFields(form.window.value.0, form.window.value.1)
            && r2.ledger.reservations == l.reservations
    ensures var r1 := Toggle(l, pending, vehicleId, Select(ChooseReserved), adminId, createdAt);
            var r2 := Toggle(r1.ledger, r1.pending, vehicleId, Cancel, adminId, createdAt);
            r2 == ToggleResult(l, None, Cancelled)
  {
  }

  /**
   * The pending choice belongs to the administrator's session, not to a
   * vehicle: a choice made on one vehicle is applied by a save on another,
   * and the first vehicle is left as it was.
   */
  lemma PendingCarriesAcrossVehicles(l: Ledger, pending: Option<Target>, first: nat, second: nat,
                                     form: DateTimeForm, adminId: nat, createdAt: Time)
    requires FindRow(l.rows, first).Some? && FindRow(l.rows, second).Some? && first != second
    requires Filled(form) && form.window.Some? && form.window.value.0 <= form.window.value.1
    ensures var r1 := Toggle(l, pending, first, Select(ChooseMaintenance), adminId, createdAt);
            var r2 := Toggle(r1.ledger, r1.pending, second, Save(form), adminId, createdAt);
            && r2.outcome == Saved
            && r2.ledger.rows[FindRow(l.rows, second).value].avail == MaintenanceFields(form.window.value.0, form.window.value.1)
            && r2.ledger.rows[FindRow(l.rows, first).value] == l.rows[FindRow(l.rows, first).value]
  {
  }

  // ---------------------------------------------------------------------
  // `toggle_vehicle_status` on the database

  /** The part of the Flask session the status editor uses (`temp_*` and `status_changed`). */
  class AdminSession {
    var pending: Option<Target>

    constructor ()
      ensures pending.None?
    {
      pending := None;
    }
  }

  /** The first index at which the scan for a pending reservation stops is what `FirstPending` finds. */
  lemma {:induction false} FirstPendingAt(rs: seq<Reservation>, vehicleId: nat, k: nat)
    requires k <= |rs| && forall j :: 0 <= j < k ==> !PendingFor(rs[j], vehicleId)
    requires k < |rs| ==> PendingFor(rs[k], vehicleId)
    ensures FirstPending(rs, vehicleId) == if k < |rs| then Some(k) else None
    decreases k
  {
    if rs != [] && k > 0 {
      FirstPendingAt(rs[1..], vehicleId, k - 1);
    }
  }

  /** `filter_by(veiculo_id=..., status='Pendente').first()`: a scan in table order. */
  method FindFirstPending(rs: seq<Reservation>, vehicleId: nat) returns (k: Option<nat>)
    ensures k == FirstPending(rs, vehicleId)
  {
    var i := 0;
    while i < |rs| && !PendingFor(rs[i], vehicleId)
      invariant 0 <= i <= |rs|
      invariant forall j :: 0 <= j < i ==> !PendingFor(rs[j], vehicleId)
    {
      i := i + 1;
    }
    FirstPendingAt(rs, vehicleId, i);
    k := if i < |rs| then Some(i) else None;
  }

  /** The first pending reservation of the vehicle, found and deleted. */
  method DeleteFirstPending(db: Db, vehicleId: nat)
    requires db.Valid()
    modifies db
    ensures db.Valid() && db.vehicles == old(db.vehicles) && db.Rows() == old(db.Rows())
    ensures db.reservations == DeletePending(old(db.reservations), vehicleId)
    ensures db.nextReservationId == old(db.nextReservationId)
  {
    var k := FindFirstPending(db.reservations, vehicleId);
    DeletePendingEffect(db.reservations, vehicleId);
    if k.Some? {
      db.KeepReservations(db.reservations[..k.value] + db.reservations[k.value + 1..]);
    }
  }

  /** The database and session as values, for stating what a step did. */
  function Snapshot(db: Db, session: AdminSession, outcome: ToggleOutcome): ToggleResult
    reads db, session, set v | v in db.vehicles
  {
    ToggleResult(Ledger(db.Rows(), db.reservations, db.nextReservationId), session.pending, outcome)
  }

  /** Sets the vehicle at `p` active, deleting its first pending reservation when asked to. */
  method ActivateAt(db: Db, p: nat, dropPending: bool)
    requires db.Valid() && p < |db.vehicles|
    modifies db, db.vehicles[p]
    ensures db.Valid() && db.vehicles == old(db.vehicles)
    ensures p < |old(db.Rows())| &&
            Ledger(db.Rows(), db.reservations, db.nextReservationId)
            == ActivateRow(Ledger(old(db.Rows()), old(db.reservations), old(db.nextReservationId)), p, dropPending)
  {
    var row := db.Rows()[p];
    db.UpdateRowAt(p, row.(avail := ActiveFields));
    if dropPending {
      DeleteFirstPending(db, row.id);
    }
  }

  method SelectStatus(db: Db, session: AdminSession, p: nat, choice: StatusChoice) returns (outcome: ToggleOutcome)
    requires db.Valid() && p < |db.vehicles|
    modifies db, session, db.vehicles[p]
    ensures db.Valid() && db.vehicles == old(db.vehicles)
    ensures p < |old(db.Rows())| &&
            Snapshot(db, session, outcome)
            == SelectStep(Ledger(old(db.Rows()), old(db.reservations), old(db.nextReservationId)), old(session.pending), p, choice)
  {
    match choice
    case ChooseActive =>
      outcome := SelectActive(db, session, p);
    case ChooseMaintenance =>
      session.pending := Some(ToMaintenance);
      outcome := AwaitingDetails(ToMaintenance);
    case ChooseReserved =>
      session.pending := Some(ToReserved);
      outcome := AwaitingDetails(ToReserved);
    case ChooseOther =>
      outcome := StatusUndefined;
  }

  /** Choosing "active": applied at once, and the session's choice is cleared. */
  method SelectActive(db: Db, session: AdminSession, p: nat) returns (outcome: ToggleOutcome)
    requires db.Valid() && p < |db.vehicles|
    modifies db, session, db.vehicles[p]
    ensures db.Valid() && db.vehicles == old(db.vehicles)
    ensures p < |old(db.Rows())| &&
            Snapshot(db, session, outcome)
            == SelectStep(Ledger(old(db.Rows()), old(db.reservations), old(db.nextReservationId)), old(session.pending), p, ChooseActive)
  {
    ActivateAt(db, p, db.vehicles[p].isReserved);
    session.pending := None;
    outcome := Activated;
  }

  method SaveStatus(db: Db, session: AdminSession, p: nat, form: DateTimeForm, adminId: nat, createdAt: Time)
    returns (outcome: ToggleOutcome)
    requires db.Valid() && p < |db.vehicles|
    modifies db, session, db.vehicles[p]
    ensures db.Valid() && db.vehicles == old(db.vehicles)
    ensures p < |old(db.Rows())| &&
            Snapshot(db, session, outcome)
            == SaveStep(Ledger(old(db.Rows()), old(db.reservations), old(db.nextReservationId)), old(session.pending),
                        p, form, adminId, createdAt)
  {
    if session.pending.None? {
      return FormShown;
    }
    if !Filled(form) {
      return FieldsMissing;
    }
    if form.window.None? {
      return BadDateTime;
    }
    var start := form.window.value.0;
    var end := form.window.value.1;
    if start > end {
      return StartAfterEnd;
    }
    ApplySave(db, p, session.pending.value, start, end, adminId, createdAt);
    session.pending := None;
    outcome := Saved;
  }

  /** The writes of a save that passed its checks. */
  method ApplySave(db: Db, p: nat, target: Target, start: Time, end: Time, adminId: nat, createdAt: Time)
    requires db.Valid() && p < |db.vehicles|
    modifies db, db.vehicles[p]
    ensures db.Valid() && db.vehicles == old(db.vehicles)
    ensures p < |old(db.Rows())| &&
            Ledger(db.Rows(), db.reservations, db.nextReservationId)
            == SavedLedger(Ledger(old(db.Rows()), old(db.reservations), old(db.nextReservationId)),
                           p, target, start, end, adminId, createdAt)
  {
    var row := db.Rows()[p];
    match target {
      case ToMaintenance =>
        db.UpdateRowAt(p, row.(avail := MaintenanceFields(start, end)));
      case ToReserved =>
        db.UpdateRowAt(p, row.(avail := ReservedFields(start, end)));
        assert row.id == db.VehicleIds()[p];
        db.AddReservation(AdminReservation(db.nextReservationId, adminId, row, start, end, createdAt));
    }
  }

  method RevertStatus(db: Db, session: AdminSession, p: nat) returns (outcome: ToggleOutcome)
    requires db.Valid() && p < |db.vehicles|
    modifies db, session, db.vehicles[p]
    ensures db.Valid() && db.vehicles == old(db.vehicles)
    ensures p < |old(db.Rows())| &&
            Snapshot(db, session, outcome)
            == RevertStep(Ledger(old(db.Rows()), old(db.reservations), old(db.nextReservationId)), old(session.pending), p)
  {
    if session.pending.None? {
      return FormShown;
    }
    ActivateAt(db, p, true);
    session.pending := None;
    outcome := Reverted;
  }

  /**
   * `toggle_vehicle_status`: one request, as the pure `Toggle` describes it,
   * and the database invariant (keys, increasing reservation ids, every
   * reservation naming a stored vehicle) is kept.
   */
  method ToggleVehicleStatus(db: Db, session: AdminSession, vehicleId: nat, action: AdminAction,
                             adminId: nat, createdAt: Time) returns (outcome: ToggleOutcome)
    requires db.Valid()
    modifies db, session, set v | v in db.vehicles
    ensures db.Valid() && db.vehicles == old(db.vehicles)
    ensures Snapshot(db, session, outcome)
            == Toggle(Ledger(old(db.Rows()), old(db.reservations), old(db.nextReservationId)), old(session.pending),
                      vehicleId, action, adminId, createdAt)
  {
    var index := db.Lookup(vehicleId);
    if index.None? {
      return VehicleNotFound;
    }
    var p := index.value;
    match action
    case Select(choice) =>
      outcome := SelectStatus(db, session, p, choice);
    case Save(form) =>
      outcome := SaveStatus(db, session, p, form, adminId, createdAt);
    case Revert =>
      outcome := RevertStatus(db, session, p);
    case Cancel =>
      session.pending := None;
      outcome := Cancelled;
    case ShowForm =>
      outcome := FormShown;
  }

  // ---------------------------------------------------------------------
  // `delete_vehicle_image` and `delete_vehicle`

  /**
   * `delete_vehicle_image`: `None` when the vehicle does not exist;
   * otherwise the image column goes through `RemoveImage`, and only a
   * successful removal writes the vehicle's new column value.
   */
  method DeleteVehicleImage(db: Db, vehicleId: nat, filename: string) returns (outcome: Option<RemoveImageResult>)
    requires db.Valid()
    modifies set v | v in db.vehicles
    ensures db.Valid()
    ensures FindRow(old(db.Rows()), vehicleId).None? ==> outcome.None? && db.Rows() == old(db.Rows())
    ensures FindRow(old(db.Rows()), vehicleId).Some? ==>
              var p := FindRow(old(db.Rows()), vehicleId).value;
              var before := old(db.Rows())[p];
              && outcome == Some(RemoveImage(before.imagens, filename))
              && db.Rows() == if outcome.value.ImageRemoved?
                              then old(db.Rows())[p := before.(imagens := outcome.value.stored)]
                              else old(db.Rows())
  {
    var index := db.Lookup(vehicleId);
    if index.None? {
      return None;
    }
    var p := index.value;
    var row := db.Rows()[p];
    var result := RemoveImage(row.imagens, filename);
    if result.ImageRemoved? {
      db.UpdateRowAt(p, row.(imagens := result.stored));
    }
    outcome := Some(result);
  }

  /** The reservation table without the rows of `vehicleId`, in order. */
  function WithoutVehicle(rs: seq<Reservation>, vehicleId: nat): seq<Reservation>
    decreases |rs|
  {
    if rs == [] then []
    else
      var n := |rs| - 1;
      WithoutVehicle(rs[..n], vehicleId) + (if rs[n].vehicleId == vehicleId then [] else [rs[n]])
  }

  /**
   * The cascade deletes exactly the vehicle's reservations: what is kept
   * are rows of the table not naming the vehicle, and every row not naming
   * it is kept.
   */
  lemma {:induction false} WithoutVehicleFacts(rs: seq<Reservation>, vehicleId: nat)
    ensures forall i :: 0 <= i < |WithoutVehicle(rs, vehicleId)| ==>
              WithoutVehicle(rs, vehicleId)[i] in rs && WithoutVehicle(rs, vehicleId)[i].vehicleId != vehicleId
    ensures forall k :: 0 <= k < |rs| && rs[k].vehicleId != vehicleId ==> rs[k] in WithoutVehicle(rs, vehicleId)
    decreases |rs|
  {
    if rs != [] {
      var n := |rs| - 1;
      var front := rs[..n];
      WithoutVehicleFacts(front, vehicleId);
      var kept := WithoutVehicle(front, vehicleId);
      var all := WithoutVehicle(rs, vehicleId);
      assert rs == front + [rs[n]];
      forall i | 0 <= i < |all| ensures all[i] in rs && all[i].vehicleId != vehicleId {
        if i < |kept| {
          assert all[i] == kept[i];
        }
      }
      forall k | 0 <= k < |rs| && rs[k].vehicleId != vehicleId ensures rs[k] in all {
        if k < n {
          assert rs[k] == front[k];
        }
      }
    }
  }

  /** The cascade keeps the reservation ids increasing. */
  lemma {:induction false} WithoutVehicleIncreasing(rs: seq<Reservation>, vehicleId: nat)
    requires IdsIncreasing(rs)
    ensures IdsIncreasing(WithoutVehicle(rs, vehicleId))
    decreases |rs|
  {
    if rs != [] {
      var n := |rs| - 1;
      var front := rs[..n];
      WithoutVehicleIncreasing(front, vehicleId);
      WithoutVehicleFacts(front, vehicleId);
      var kept := WithoutVehicle(front, vehicleId);
      var all := WithoutVehicle(rs, vehicleId);
      forall i, j | 0 <= i < j < |all| ensures all[i].id < all[j].id {
        if j >= |kept| {
          var a :| 0 <= a < |front| && front[a] == kept[i];
          assert rs[a] == kept[i];
        }
      }
    }
  }

  /** The loop of `delete_vehicle` over `filter_by(veiculo_id=id).all()`: what it keeps. */
  method ReservationsToKeep(rs: seq<Reservation>, vehicleId: nat) returns (kept: seq<Reservation>)
    ensures kept == WithoutVehicle(rs, vehicleId)
  {
    kept := [];
    var i := 0;
    while i < |rs|
      invariant 0 <= i <= |rs|
      invariant kept == WithoutVehicle(rs[..i], vehicleId)
    {
      assert rs[..i + 1][..i] == rs[..i];
      if rs[i].vehicleId != vehicleId {
        kept := kept + [rs[i]];
      }
      i := i + 1;
    }
    assert rs[..|rs|] == rs;
  }

  /**
   * Why the cascade comes first: with it, every remaining reservation still
   * names a stored vehicle; without it, a vehicle with a reservation would
   * leave that reservation pointing at no vehicle.
   */
  lemma CascadeKeepsForeignKey(ids: seq<nat>, rs: seq<Reservation>, p: nat)
    requires p < |ids| && forall k :: 0 <= k < |rs| ==> rs[k].vehicleId in ids
    ensures forall k :: 0 <= k < |WithoutVehicle(rs, ids[p])| ==>
              WithoutVehicle(rs, ids[p])[k].vehicleId in ids[..p] + ids[p + 1..]
    ensures (forall i :: 0 <= i < |ids| && i != p ==> ids[i] != ids[p]) &&
            (exists k :: 0 <= k < |rs| && rs[k].vehicleId == ids[p]) ==>
              exists k :: 0 <= k < |rs| && rs[k].vehicleId !in ids[..p] + ids[p + 1..]
  {
    WithoutVehicleFacts(rs, ids[p]);
    var kept := WithoutVehicle(rs, ids[p]);
    forall k | 0 <= k < |kept| ensures kept[k].vehicleId in ids[..p] + ids[p + 1..] {
      IdInRemaining(ids, p, kept[k].vehicleId);
    }
    if (forall i :: 0 <= i < |ids| && i != p ==> ids[i] != ids[p]) &&
       (exists k :: 0 <= k < |rs| && rs[k].vehicleId == ids[p]) {
      var k :| 0 <= k < |rs| && rs[k].vehicleId == ids[p];
      var rest := ids[..p] + ids[p + 1..];
      forall i | 0 <= i < |rest| ensures rest[i] != ids[p] {
        assert rest[i] == ids[if i < p then i else i + 1];
      }
    }
  }

  /**
   * `delete_vehicle`: an unknown vehicle changes nothing; otherwise its
   * reservations are deleted first and then its row, which keeps every
   * remaining reservation pointing at a stored vehicle.
   */
  method DeleteVehicle(db: Db, vehicleId: nat) returns (found: bool)
    requires db.Valid()
    modifies db
    ensures db.Valid() && db.nextReservationId == old(db.nextReservationId)
    ensures found <==> FindRow(old(db.Rows()), vehicleId).Some?
    ensures !found ==> db.vehicles == old(db.vehicles) && db.reservations == old(db.reservations)
    ensures found ==>
              var p := FindRow(old(db.Rows()), vehicleId).value;
              && db.Rows() == old(db.Rows())[..p] + old(db.Rows())[p + 1..]
              && db.reservations == WithoutVehicle(old(db.reservations), vehicleId)
  {
    var index := db.Lookup(vehicleId);
    if index.None? {
      return false;
    }
    DeleteReservationsOf(db, vehicleId);
    assert db.vehicles[index.value].id == vehicleId;
    db.RemoveVehicleAt(index.value);
    found := true;
  }

  /** The cascade: every reservation of the vehicle is deleted, the rest are kept in order. */
  method DeleteReservationsOf(db: Db, vehicleId: nat)
    requires db.Valid()
    modifies db
    ensures db.Valid() && db.vehicles == old(db.vehicles) && db.Rows() == old(db.Rows())
    ensures db.reservations == WithoutVehicle(old(db.reservations), vehicleId)
    ensures db.nextReservationId == old(db.nextReservationId)
    ensures forall k :: 0 <= k < |db.reservations| ==> db.reservations[k].vehicleId != vehicleId
  {
    var kept := ReservationsToKeep(db.reservations, vehicleId);
    WithoutVehicleFacts(db.reservations, vehicleId);
    WithoutVehicleIncreasing(db.reservations, vehicleId);
    db.KeepReservations(kept);
  }
}
