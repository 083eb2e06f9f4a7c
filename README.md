# Luxury Wheels: availability, cart and checkout, verified in Dafny

This project models the core of Luxury Wheels, a Flask vehicle-rental application.

**Vehicle availability.** A vehicle's availability lives in six fields:
- `status`
- `in_maintenance`
- `maintenance_start` and `maintenance_end`
- `is_reserved`
- `available_from`

The rules that read these fields are the real-time checks `is_currently_reserved`, `is_in_maintenance` and `is_available`, plus the ordered label of `get_availability_status`. Four jobs rewrite the fields:
- a cart checkout;
- the background sweep `update_all_vehicles_availability`;
- the refresh at the top of `list_vehicle`;
- the administrator's two-phase status editor.

**The customer's cart.** The cart lives in the session. Its operations are:
- `reserve_vehicle`: add, edit in place, or cancel or leave an edit;
- `remove_from_cart` and the cart total;
- `create_reservation`: checkout;
- `confirmation_page`: the latest batch of reservations and its total.

A cart item is priced with the two-tier rule plus IVA, the 23% value-added tax.

**The administrator's side:**
- the vehicle-form validator;
- the status editor (`toggle_vehicle_status`);
- removal of one image from the comma-separated `imagens` column;
- deletion of a vehicle, which cascades to its reservations.

**Utilities:**
- `allowed_file`, the check on upload file names;
- `load_user`, which reads back the `admin_<id>` / `client_<id>` session identifiers that `get_id` writes.

**How the code maps to Dafny:**
- Vehicles are objects whose fields are updated in place: class `Fleet.Vehicle`.
- The database is class `Fleet.Db`. It holds the vehicle objects, the reservation table and the next reservation id.
- The customer's cart session is class `Cart.ReservationSession`, and the administrator's pending choice is class `AdminPanel.AdminSession`.
- Each operation that changes state is a method. The method is proved equal to a pure function over the database as a value (`Fleet.Ledger`) or over the session as a value. The properties of that function are then proved as lemmas.
- The database invariant is `Fleet.Db.Valid`:
  - vehicle ids are a key;
  - reservation ids increase;
  - every reservation names a stored vehicle.

  Every method that writes the database keeps it.

**Modelling choices:**
- Instants are integers in microseconds.
- Money and hours are exact reals.
- The current time, the current year and the logged-in user's id are parameters.

In the places below, the code does something other than what its own comments, messages or neighbouring checks show was meant. The model follows the code, and each item names that evidence:

- **Checkout is not atomic.** `update_availability_after_reservation` commits after every item. A cart whose k-th vehicle no longer exists therefore keeps the first k bookings and the cart is not cleared. The model returns `VehicleMissing(k)` with exactly that state (`Booking.CreateReservation`, `Booking.BookCart`). Evidence: `create_reservation` commits once after its loop (user.py:448) and rolls back on any error (user.py:454), so the checkout was meant to succeed or fail as a whole.
- **Edit commit ignores the vehicle.** With a saved edit position, a POST for *any* vehicle overwrites that position. This can put one vehicle in the cart twice (`Cart.EditCommitIgnoresVehicle`). Evidence: the edit position is found by searching for the edited vehicle (user.py:86-90), and a new item for a vehicle already in the cart is refused (user.py:173-184). So the cart was meant to hold each vehicle once, with an edit touching only its own vehicle.
- **Removing an item during an edit shifts the saved position.** `remove_from_cart` leaves the edit markers alone. If an earlier item is removed while another is being edited, a cancel writes the saved original over its neighbour: editing B in [A, B, C], removing A and cancelling gives [B, B] (`Cart.RemoveDuringEditDuplicates`). Evidence: the same duplicate refusal (user.py:173-184) shows one item per vehicle was meant.
- **The status editor accepts an empty window.** A save whose start equals its end succeeds, while the vehicle-form validator refuses such a maintenance window (`AdminPanel.EmptyWindowAcceptedBySave`). Evidence: the validator's message (admin.py:356-357) requires the end to be strictly after the start, while the status editor only refuses a start after the end (admin.py:622).
- **Only one pending reservation is deleted.** Choosing "active" on a reserved vehicle, or reverting, deletes only the first pending reservation of the vehicle, not all of them (`AdminPanel.DeletePending`). Evidence: the comment at admin.py:570 says the change to active cancels any existing reservation, but the code deletes only the `.first()` match (admin.py:572-575).
- **The pending status choice is session-wide.** It is kept in the session, not per vehicle: a choice made on one vehicle is applied by a save on another (`AdminPanel.PendingCarriesAcrossVehicles`). Evidence: the choice is made on one vehicle's page (`toggle_vehicle_status(id)`, admin.py:527), but it is stored under the shared key `temp_status` (admin.py:562, 601).
- **The "available" label is not the same as bookable.** An inactive vehicle whose `available_from` has passed is labelled available but `is_available` refuses it until the sweep or the listing refresh re-activates it (`Availability.AvailableLabelNotBookable`). Evidence: the label "Disponível" (models.py:195-196) tells the customer the vehicle can be booked.

## Model

| member | source | states |
|---|---|---|
| Availability.StatusLabelCases | Luxury_Wheels/models.py:180-203 | each of the five labels is shown exactly when its case is the first that applies, in the order: live reservation, open maintenance window, inactive with `available_from` (future: "unavailable until" that date; past: available), inactive, active |
| Availability.ReservedBeatsMaintenance | Luxury_Wheels/models.py:180-187 | a live reservation is reported even inside an open maintenance window |
| Availability.AvailableMeansAvailableLabel | Luxury_Wheels/models.py:224-240 | bookable iff outside every maintenance window, active, and `available_from` unset or reached; a bookable vehicle is labelled available |
| Availability.AvailableLabelNotBookable | Luxury_Wheels/models.py:190-195 | the converse fails: an inactive vehicle past its `available_from` is labelled available but is not bookable |
| Availability.AfterReservation | Luxury_Wheels/models.py:242-246 | the update sets `available_from` to the end and deactivates; every other field is unchanged |
| Availability.Reserve | Luxury_Wheels/user.py:429-446 | a booked vehicle is reserved, inactive and blocked until the end; every other field is unchanged |
| Availability.AfterReservationBlocksUntilEnd | Luxury_Wheels/models.py:242-263 | before the end the vehicle is not bookable and is labelled reserved (or unavailable until the end); `check_and_update_availability` fires exactly from the end on |
| Availability.ActivateOnce | Luxury_Wheels/models.py:248-263 | re-activation fires at most once, does not change the label shown at that instant, and makes the vehicle bookable outside maintenance |
| Availability.SweepEffect | Luxury_Wheels/models.py:266-305 | the sweep clears an ended maintenance window; it clears a reached `available_from`, re-activating the vehicle and dropping its reservation flag; nothing else changes, and unselected vehicles are untouched |
| Availability.SweepUpdatesCountsChanges | Luxury_Wheels/models.py:283-309 | the sweep's counter for a vehicle is zero exactly when the vehicle is left unchanged, so a commit happens exactly when something changed |
| Availability.SweepSettles | Luxury_Wheels/models.py:286-305 | after a sweep no expired marker remains; a second sweep at the same instant changes nothing; the label shown is unchanged |
| Availability.RefreshEffect | Luxury_Wheels/app.py:102-114 | the listing refresh re-activates after an ended maintenance window or a reached `available_from`, and clears the latter; it keeps the maintenance bounds and the reservation flag |
| Availability.RefreshSettles | Luxury_Wheels/app.py:105-114 | refreshing twice at one instant equals refreshing once, and a live reservation survives the refresh |
| Availability.ActiveIsBookable | Luxury_Wheels/admin.py:577-582 | the fields written by "active" make the vehicle bookable and labelled available at every instant |
| Availability.MaintenanceTimeline | Luxury_Wheels/admin.py:626-631 | a saved maintenance window shows "unavailable until end" before it starts and "in maintenance" inside it, and is never bookable; after the end, the sweep makes it bookable |
| Availability.ReservedTimeline | Luxury_Wheels/admin.py:632-637 | an admin reservation shows "reserved" until its end and "available" from then on, and is never bookable; at its end, the sweep makes it bookable |
| Pricing.PriceQuote | Luxury_Wheels/user.py:113-136 | a quote exists exactly when the start is before the end |
| Pricing.QuoteFacts | Luxury_Wheels/user.py:117-136 | the hours are the interval's length; under 24 hours one daily rate is charged, from 24 hours the rate is prorated by the hour; the tax is 23% of one daily rate; days and remaining hours are `// 24` and `% 24` |
| Pricing.AtLeastOneDay | Luxury_Wheels/user.py:123-129 | the pre-tax price is never below one daily rate |
| Pricing.LongerCostsMore | Luxury_Wheels/user.py:123-129 | extending a rental never lowers its total price |
| Pricing.AdminPrice | Luxury_Wheels/admin.py:640-641 | the administrator's prorated price is non-negative for an ordered window and a non-negative rate |
| Pricing.AdminPriceVersusCart | Luxury_Wheels/admin.py:639-641 | from one day on, the admin price equals the customer's pre-tax price and the customer pays IVA on top; under a day, it is at most the customer's pre-tax price |
| Text.Split | Luxury_Wheels/models.py:218 | `split` returns at least one part and no part holds the separator |
| Text.SplitJoin | Luxury_Wheels/models.py:209-218 | splitting a join of separator-free parts gives the parts back |
| Text.StripFacts | Luxury_Wheels/models.py:222 | `strip()` returns text that is empty or has no white space at either end, made of the input's characters; it is idempotent |
| Text.NatToString | Luxury_Wheels/models.py:64 | `str(n)` is a non-empty string of decimal digits |
| Text.ParseInt | Luxury_Wheels/admin.py:315 | `int(text)` succeeds only on text that is not blank |
| Text.ParseIntOfNatToString | Luxury_Wheels/app.py:66 | `int(str(n)) == n` |
| Text.Lower | Luxury_Wheels/utils.py:9 | lower-casing keeps the length and maps every character |
| Images.KeepStripped | Luxury_Wheels/models.py:222 | the stripped, non-empty pieces are clean paths, no more than the pieces |
| Images.DecodeImages | Luxury_Wheels/models.py:212-222 | `get_imagens` returns clean paths, and none for a NULL or empty column |
| Images.DecodeEncode | Luxury_Wheels/models.py:206-222 | `get_imagens` after `set_imagens` of clean paths gives the same paths in the same order |
| Images.EncodeDecodeStable | Luxury_Wheels/models.py:206-222 | re-storing what `get_imagens` read is a fixed point, whatever the column held |
| Images.RemoveFirst | Luxury_Wheels/admin.py:815 | `list.remove` drops exactly one occurrence |
| Images.RemoveImageEffect | Luxury_Wheels/admin.py:797-825 | a removal deletes one occurrence of the name from the raw comma pieces and re-joins the rest; the column becomes NULL exactly when that was the only piece; a name holding a comma is never found |
| Fleet.Vehicle.constructor | Luxury_Wheels/models.py:138-158 | a new vehicle keeps the given status and maintenance dates, is not reserved, not flagged in maintenance, has no `available_from` and an empty image column |
| Fleet.Vehicle.Book | Luxury_Wheels/user.py:429-446 | booking rewrites the availability fields as `Reserve` says and nothing else |
| Fleet.Vehicle.UpdateAvailabilityAfterReservation | Luxury_Wheels/models.py:242-246 | the fields become `AfterReservation` of the old ones; the images are kept |
| Fleet.Vehicle.CheckAndUpdateAvailability | Luxury_Wheels/models.py:248-263 | returns true exactly when an inactive vehicle's `available_from` is reached, and then activates it and clears the date; otherwise nothing changes; afterwards it would not fire again |
| Fleet.Vehicle.SetImagens | Luxury_Wheels/models.py:206-209 | the column holds the comma join (empty for no paths); availability is unchanged |
| Fleet.Vehicle.GetImagens | Luxury_Wheels/models.py:212-222 | every path returned is clean |
| Fleet.Vehicle.SweepStep | Luxury_Wheels/models.py:286-305 | one iteration of the sweep: the fields become `Sweep` of the old ones and the counter grows by `SweepUpdates` |
| Fleet.Vehicle.RefreshStep | Luxury_Wheels/app.py:105-114 | one iteration of the listing refresh: the fields become `Refresh` of the old ones |
| Fleet.FindRow | Luxury_Wheels/user.py:427 | `query.get` finds the first row with the id, or reports that no row has it |
| Fleet.FindRowSameIds | Luxury_Wheels/user.py:427 | lookups depend on the ids only, so availability writes never move them |
| Fleet.CompleteEffect | Luxury_Wheels/models.py:349-361 | completion only sets the status, and sets it exactly for reservations whose end date is before today; it is idempotent |
| Fleet.Db.Lookup | Luxury_Wheels/admin.py:538 | the scan finds the position `FindRow` describes |
| Fleet.Db.ReserveAt | Luxury_Wheels/user.py:427-446 | booking one vehicle rewrites only its row |
| Fleet.Db.UpdateRowAt | Luxury_Wheels/admin.py:577-583 | writing one vehicle's mutable columns rewrites only its row |
| Fleet.Db.AddReservation | Luxury_Wheels/user.py:445 | the insert appends one row with the next id and keeps the invariant |
| Fleet.Db.KeepReservations | Luxury_Wheels/admin.py:572-575 | deleting rows leaves the selected rows in order and keeps the invariant |
| Fleet.Db.RemoveVehicleAt | Luxury_Wheels/admin.py:842-843 | deleting a vehicle no reservation names removes exactly its row and keeps the invariant |
| Fleet.Db.UpdateAllVehiclesAvailability | Luxury_Wheels/models.py:266-313 | every vehicle's fields become `Sweep` of the old ones; the counter is zero exactly when no vehicle changed |
| Fleet.Db.UpdateCompletedReservations | Luxury_Wheels/models.py:349-361 | each reservation becomes `Complete` of the old one; the invariant is kept |
| Cart.MakeItem | Luxury_Wheels/user.py:108-157 | an item exists exactly when the start is before the end; it carries the vehicle, the interval, the daily rate and the quoted total |
| Cart.FirstIndex | Luxury_Wheels/user.py:84-90 | the `enumerate`/`break` search finds the first item for the vehicle, or reports that there is none |
| Cart.ReservationSession.constructor | Luxury_Wheels/user.py:11-13 | a fresh session has an empty cart and no edit markers |
| Cart.ReservationSession.FindInCart | Luxury_Wheels/user.py:86-90 | the loop returns `FirstIndex` |
| Cart.ReservationSession.ContainsVehicle | Luxury_Wheels/user.py:173-179 | the `is_duplicate` loop is true exactly when the vehicle is in the cart |
| Cart.ReservationSession.ReserveVehiclePost | Luxury_Wheels/user.py:64-198 | a POST, including one whose date or time fields fail to parse, leaves the session and outcome `PostStep` describes |
| Cart.PostRejectsBadFormat | Luxury_Wheels/user.py:196-198 | form instants that fail to parse are refused: the cart is untouched and the edit markers stay as the edit detection set them |
| Cart.ReservationSession.ReserveVehicleGet | Luxury_Wheels/user.py:200-232 | a GET leaves the session and outcome `GetStep` describes |
| Cart.ReservationSession.RemoveFromCart | Luxury_Wheels/user.py:316-341 | removal leaves the session and outcome `RemoveStep` describes |
| Cart.TransitionsKeepCoherent | Luxury_Wheels/user.py:160-218 | every request keeps the saved edit snapshot tied to edit mode |
| Cart.PostRejectsBadDates | Luxury_Wheels/user.py:113-115 | a start not before the end is refused and the cart is untouched |
| Cart.PostAddsOrRejectsDuplicate | Luxury_Wheels/user.py:171-187 | without a saved edit, a vehicle already in the cart is refused with the cart unchanged, and a new one is appended at the end |
| Cart.PostReplacesSavedPosition | Luxury_Wheels/user.py:160-170 | with a saved edit, the item replaces exactly the saved position and the markers are cleared; a stale position leaves the session as it was |
| Cart.EditThenCancel | Luxury_Wheels/user.py:73-223 | entering an edit and then cancelling gives back the original cart and leaves edit mode |
| Cart.CancelRestores | Luxury_Wheels/user.py:201-218 | cancel writes the saved original back at its position, touching no other item, and clears the markers |
| Cart.ViewCartKeepsCart | Luxury_Wheels/user.py:201-223 | leaving an edit by "view cart" only clears the markers |
| Cart.WithoutFacts | Luxury_Wheels/user.py:326 | the filter keeps exactly the items of other vehicles |
| Cart.WithoutAppend | Luxury_Wheels/user.py:326 | the filter distributes over concatenation, so order is kept |
| Cart.TotalAppend | Luxury_Wheels/user.py:354 | the total of a concatenation is the sum of the totals |
| Cart.TotalSplit | Luxury_Wheels/user.py:354 | the total splits around any position |
| Cart.RemoveUniqueItem | Luxury_Wheels/user.py:326 | in a cart without duplicates, removal drops exactly that vehicle's item, in place |
| Cart.RemoveUniqueTotal | Luxury_Wheels/user.py:326-354 | removing a vehicle kept once lowers the total by exactly its price |
| Cart.WithoutKeepsUnique | Luxury_Wheels/user.py:326 | removal keeps the cart free of duplicates |
| Cart.TotalAfterAddOrReplace | Luxury_Wheels/user.py:164-186 | appending raises the total by the item's price; replacing changes it by the difference |
| Cart.SnapshotAligned | Luxury_Wheels/user.py:84-97 | (predicate) the saved edit position, while inside the cart, holds an item for the saved original's vehicle |
| Cart.RequestsKeepAligned | Luxury_Wheels/user.py:73-218 | every GET and POST of `reserve_vehicle` keeps the saved position aligned with the saved original |
| Cart.GetKeepsUnique | Luxury_Wheels/user.py:200-218 | for a session whose saved position is aligned with its original, a GET, including a cancel that writes the original back, keeps the cart free of duplicates |
| Cart.PostKeepsUnique | Luxury_Wheels/user.py:160-187 | for any duplicate-free cart, a POST keeps the cart free of duplicates unless it commits an edit whose saved position holds another vehicle |
| Cart.RemoveDuringEditDuplicates | Luxury_Wheels/user.py:73-341 | removing an earlier item during an edit misaligns the saved position, and the cancel that follows puts one vehicle in the cart twice: [A, B, C] becomes [B, B] |
| Cart.EditCommitIgnoresVehicle | Luxury_Wheels/user.py:160-165 | an edit of vehicle 1 committed by a POST for vehicle 2 leaves vehicle 2 twice and vehicle 1 not at all |
| Booking.BookItems | Luxury_Wheels/user.py:420-446 | a checkout run stops, if at all, at a position inside the cart |
| Booking.BookedReservations | Luxury_Wheels/user.py:420-448 | a run books a prefix of the cart: one pending reservation per booked item, with consecutive ids, after the existing rows |
| Booking.BookedSameIds | Luxury_Wheels/user.py:420-446 | a run keeps every vehicle's id in place |
| Booking.BookedVehiclesExist | Luxury_Wheels/user.py:427-446 | every booked item names an existing vehicle |
| Booking.BookedStopsAtMissing | Luxury_Wheels/user.py:427-429 | a run stops only at an item whose vehicle does not exist |
| Booking.ApplyItems | Luxury_Wheels/user.py:429-446 | booking items changes only a row's availability fields |
| Booking.BookedRows | Luxury_Wheels/user.py:429-446 | each row after a run is the old row with that vehicle's booked items applied |
| Booking.CheckoutReservations | Luxury_Wheels/user.py:420-448 | a complete checkout appends, after the old rows, one pending reservation per item, with the item's vehicle, customer, interval and price |
| Booking.CheckoutVehicles | Luxury_Wheels/user.py:420-446 | a complete checkout of a cart without duplicates reserves each cart vehicle until its item's end and leaves every other vehicle untouched |
| Booking.AppendCreated | Luxury_Wheels/user.py:432-445 | the created reservations are those the checkout makes for the items, in order |
| Booking.CreateReservation | Luxury_Wheels/user.py:409-456 | an empty cart changes nothing; otherwise the database becomes the run's result; the outcome names the missing item's position if there is one; the cart is cleared only on full success |
| Booking.BookCart | Luxury_Wheels/user.py:418-448 | the loop leaves the database `BookItems` describes and reports where it stopped |
| Booking.BookAt | Luxury_Wheels/user.py:420-446 | one iteration extends the run by one item or ends it at this item |
| Booking.BookNext | Luxury_Wheels/user.py:427-446 | one item: booked as `BookItem` says, or nothing changes when its vehicle is missing |
| Booking.BookOne | Luxury_Wheels/user.py:429-446 | booking an item whose vehicle exists is `BookItem` |
| Booking.CustomerDescMembers | Luxury_Wheels/user.py:463 | the listing holds exactly the customer's reservations of the table |
| Booking.CustomerDescDescending | Luxury_Wheels/user.py:463 | on a table in increasing id order, the listing is in strictly decreasing id order, as `order_by(Reservation.id.desc())` returns it |
| Booking.CustomerDescFirstNewest | Luxury_Wheels/user.py:463-470 | the listing's first entry is the customer's reservation with the highest id |
| Booking.CustomerDescEmpty | Luxury_Wheels/user.py:463-467 | the listing is empty exactly when the customer has no reservation |
| Booking.SameSecondMembers | Luxury_Wheels/user.py:471-475 | the batch holds exactly the listed reservations created less than one second away from the anchor |
| Booking.SameSecondKeepsOrder | Luxury_Wheels/user.py:471-475 | the batch keeps the listing's decreasing id order |
| Booking.CollectBatch | Luxury_Wheels/user.py:472-475 | the loop gathers the same-second batch `SameSecond` describes |
| Booking.ConfirmationBatch | Luxury_Wheels/user.py:463-475 | the page's anchor is the customer's newest reservation and the batch is exactly the customer's reservations within one second of it, by decreasing id (`LatestBatch`) |
| Booking.ConfirmationPage | Luxury_Wheels/user.py:461-489 | nothing exactly when the customer has no reservation; otherwise the batch `LatestBatch` describes around the customer's highest-id reservation, and its summed price |
| Booking.CreatedIncreasing | Luxury_Wheels/user.py:432-445 | the rows a checkout appends keep the table's ids increasing |
| Booking.CreatedMembers | Luxury_Wheels/user.py:432-445 | every row a checkout creates belongs to the customer, carries the checkout's instant and an id from the next one on |
| Booking.NewestIsCreated | Luxury_Wheels/user.py:432-463 | after a non-empty checkout, the customer's newest reservation is one it created |
| Booking.BatchOfAppended | Luxury_Wheels/user.py:432-475 | after a non-empty checkout whose rows all carry one creation instant, with the customer's earlier reservations at least one second older, the batch is exactly the checkout's rows, by decreasing id |
| Booking.CheckoutThenConfirmation | Luxury_Wheels/user.py:409-489 | a complete checkout followed by the confirmation page shows exactly the reservations that checkout created, newest first, when all its rows carry one creation instant and the customer's earlier ones are at least one second older |
| Identity.SplitPrefixed | Luxury_Wheels/app.py:64-69 | after `word_`, splitting on `_` gives the word and then the parts of the rest |
| Identity.NumberOfAdminId | Luxury_Wheels/models.py:63-64 | the number read back from an administrator's identifier is its id |
| Identity.NumberOfClientId | Luxury_Wheels/models.py:41-42 | the number read back from a client's identifier is its id, and the identifier is not read as an administrator's |
| Identity.LoadUserGetId | Luxury_Wheels/app.py:60-70 | loading what `get_id` stored gives the same user while the row exists, and no user otherwise; the two tables are never confused |
| Identity.LoadUserIgnoresTail | Luxury_Wheels/app.py:64-66 | only the text up to the second underscore is read |
| Identity.AdminNumberIsWholeTail | Luxury_Wheels/app.py:64-66 | the whole tail goes to `int(...)`: a tail it refuses is an error, not a missing user |
| Uploads.Extension | Luxury_Wheels/utils.py:9 | `rsplit('.', 1)[1]` exists exactly when the name has a dot; it is the dot-free suffix after the last dot |
| Uploads.ExtensionOfDotted | Luxury_Wheels/utils.py:9 | the extension of `base.ext` is `ext` whenever `ext` has no dot |
| Uploads.AllowedFileDotted | Luxury_Wheels/utils.py:7-9 | `base.ext` is allowed exactly when `ext`, lower-cased, is png, jpg, jpeg or gif |
| Uploads.ExtensionOfLower | Luxury_Wheels/utils.py:9 | lower-casing a name commutes with taking its extension |
| Uploads.AllowedIgnoresCase | Luxury_Wheels/utils.py:7-9 | whether a file is allowed does not depend on letter case |
| Uploads.UpperCaseAccepted | Luxury_Wheels/utils.py:7-9 | "A.PNG" is allowed |
| Uploads.LastExtensionRefused | Luxury_Wheels/utils.py:7-9 | "x.png.exe" is refused: only the last extension counts |
| Uploads.LastExtensionAccepted | Luxury_Wheels/utils.py:7-9 | "x.exe.png" is allowed |
| Uploads.DotRequired | Luxury_Wheels/utils.py:7-9 | "x." and "png" are refused |
| Listing.RefreshRows | Luxury_Wheels/app.py:102-114 | the refresh keeps every row's position and id |
| Listing.RefreshRowsSettles | Luxury_Wheels/app.py:98-117 | refreshing the listing twice equals refreshing it once; live reservations are kept; unselected vehicles are untouched |
| Listing.RefreshClearsEndedWindows | Luxury_Wheels/app.py:105-114 | after the refresh no vehicle is held back by an ended maintenance window or a reached `available_from` |
| Listing.RefreshListedVehicles | Luxury_Wheels/app.py:98-117 | the loop leaves exactly `RefreshRows` of the old rows |
| AdminPanel.ValidateVehicleData | Luxury_Wheels/admin.py:308-365 | each message appears exactly when its condition holds, in the order year, price, maintenance; the list is empty exactly when the form is acceptable |
| AdminPanel.CollectErrors | Luxury_Wheels/admin.py:310-365 | the three checks in order, with the same characterisation for an already converted year |
| AdminPanel.YearCheck | Luxury_Wheels/admin.py:312-325 | at most one message; none exactly for a year from 1900 to the current year; it names why |
| AdminPanel.PriceCheck | Luxury_Wheels/admin.py:327-340 | at most one message; none exactly for a positive price; it names why |
| AdminPanel.MaintenanceCheck | Luxury_Wheels/admin.py:342-362 | checked only when both dates are given; a window must parse and end strictly after it starts |
| AdminPanel.FirstPending | Luxury_Wheels/admin.py:572 | `.first()` finds the first pending reservation of the vehicle in table order, or reports there is none |
| AdminPanel.DeletePendingEffect | Luxury_Wheels/admin.py:572-575 | with a pending reservation exactly that one row is removed (as a multiset), every remaining row comes from the table and ids stay increasing; with none nothing is deleted |
| AdminPanel.ToggleTouchesOneVehicle | Luxury_Wheels/admin.py:525-721 | a request changes only the named vehicle's availability fields; the reservations are untouched, lose that vehicle's first pending row, or gain one admin reservation for it; an unknown vehicle changes nothing |
| AdminPanel.SelectActiveEffect | Luxury_Wheels/admin.py:545-589 | choosing "active" makes the vehicle active and bookable at once and clears the choice; a vehicle flagged reserved loses its first pending reservation; an unknown status changes nothing |
| AdminPanel.SelectDefers | Luxury_Wheels/admin.py:553-596 | choosing maintenance or reserved changes no data, only the pending choice |
| AdminPanel.SaveAcceptance | Luxury_Wheels/admin.py:599-681 | a save succeeds exactly when a choice is pending, all fields are filled, both instants parse and start is not after end; a refused save changes neither data nor choice |
| AdminPanel.SaveMaintenanceEffect | Luxury_Wheels/admin.py:626-631 | a saved maintenance window writes the maintenance fields, keeps the reservations, and makes the vehicle unbookable |
| AdminPanel.SaveReservedEffect | Luxury_Wheels/admin.py:632-655 | a saved reservation marks the vehicle reserved until its end and appends one pending reservation in the admin's name, for the window's hours, at the prorated price |
| AdminPanel.EmptyWindowAcceptedBySave | Luxury_Wheels/admin.py:622-624 | a save with start equal to end is accepted although the validator refuses such a maintenance window |
| AdminPanel.RevertAndCancel | Luxury_Wheels/admin.py:684-714 | revert with a pending choice forces the vehicle active and deletes its first pending reservation; without a choice it only shows the form; cancel only clears the choice |
| AdminPanel.SelectThenSave | Luxury_Wheels/admin.py:545-676 | choose maintenance then save writes the window and clears the choice, keeping the reservations; choose reserved then cancel leaves the data as before with no choice pending |
| AdminPanel.PendingCarriesAcrossVehicles | Luxury_Wheels/admin.py:599-676 | a choice made on one vehicle is applied by a save on another, and the first is left alone |
| AdminPanel.AdminSession.constructor | Luxury_Wheels/admin.py:724-732 | a session starts, as after `_clear_session_data`, with no pending choice |
| AdminPanel.FindFirstPending | Luxury_Wheels/admin.py:572 | the scan returns `FirstPending` |
| AdminPanel.DeleteFirstPending | Luxury_Wheels/admin.py:572-575 | the table becomes `DeletePending` of the old one; the invariant is kept |
| AdminPanel.ActivateAt | Luxury_Wheels/admin.py:568-583 | the database becomes `ActivateRow` of the old one |
| AdminPanel.SelectStatus | Luxury_Wheels/admin.py:545-596 | a status choice leaves the state `SelectStep` describes |
| AdminPanel.SelectActive | Luxury_Wheels/admin.py:568-589 | choosing "active" leaves the state `SelectStep` describes |
| AdminPanel.SaveStatus | Luxury_Wheels/admin.py:599-681 | a save leaves the state `SaveStep` describes |
| AdminPanel.ApplySave | Luxury_Wheels/admin.py:605-670 | an accepted save writes `SavedLedger` |
| AdminPanel.RevertStatus | Luxury_Wheels/admin.py:684-709 | a revert leaves the state `RevertStep` describes |
| AdminPanel.ToggleVehicleStatus | Luxury_Wheels/admin.py:525-721 | one request leaves the state `Toggle` describes and keeps the invariant |
| AdminPanel.DeleteVehicleImage | Luxury_Wheels/admin.py:797-825 | an unknown vehicle changes nothing; otherwise the column goes through `RemoveImage` and only a successful removal writes it |
| AdminPanel.WithoutVehicleFacts | Luxury_Wheels/admin.py:837-839 | the cascade keeps exactly the rows that do not name the vehicle |
| AdminPanel.WithoutVehicleIncreasing | Luxury_Wheels/admin.py:837-839 | the cascade keeps reservation ids increasing |
| AdminPanel.ReservationsToKeep | Luxury_Wheels/admin.py:837-839 | the loop keeps `WithoutVehicle` of the table |
| AdminPanel.CascadeKeepsForeignKey | Luxury_Wheels/admin.py:836-843 | with the cascade every remaining reservation names a stored vehicle; without it, a reservation of the deleted vehicle would dangle |
| AdminPanel.DeleteVehicle | Luxury_Wheels/admin.py:831-849 | an unknown vehicle changes nothing; otherwise its reservations and then its row are deleted, keeping the invariant |
| AdminPanel.DeleteReservationsOf | Luxury_Wheels/admin.py:837-839 | the table keeps exactly the other vehicles' rows, in order; the invariant is kept |

## Left out

- **Framework and infrastructure.** Flask routing, templates, flash messages, redirects, authentication decorators, SQLAlchemy sessions and the scheduler thread are not modelled. Each operation works on an in-memory database and session objects.
- **Time and identity as parameters.** `datetime.now()`, `date.today()`, `datetime.now().year` and `current_user.id` become parameters.
- **Form parsing taken as input:**
  - `strptime` and `float(...)` form parsing is modelled as already-converted `Option` inputs (`None` for ValueError). This covers the cart POST (`Cart.PostStep`'s window), the status editor's form and the vehicle-form validator.
  - `int(...)` is modelled for ASCII digits with an optional sign and surrounding white space. Underscore separators and non-ASCII digits are not accepted.
  - NaN and infinite prices are not modelled. The source accepts `float('inf')` as a positive price, and the model's prices are finite reals.
- **Missing form keys.** A missing form key (`KeyError` in the validator) is not modelled.
- **File-system effects.** `os.remove` and any failure it raises in `delete_vehicle_image` are not modelled, and neither is file upload itself.
- **Storage failures.** Commit failures and the rollbacks in `delete_vehicle` and in the status editor are not modelled. A storage error is not an outcome of the model.
- Booking.CreateReservation: all items of one checkout share one `createdAt` instant. The code takes each row's `created_at` at its own insert (models.py:337), which the per-item commit flushes (models.py:246).
- Booking.BatchOfAppended, Booking.CheckoutThenConfirmation: hold for a checkout whose rows are all created within one second of each other. If the first insert of a checkout lands one second or more before its last, the confirmation page shows only the rows created within one second of the newest. The one-second filter of user.py:474 is what drops the others.
- **`.first()` order.** `Reservation.query...first()` is modelled as the first row in table order.
- **Session after an exception.** An `EditIndexError` leaves the session as it was before the request. That holds because the application runs with `debug=True` (app.py:247), where Flask re-raises the IndexError and never saves the session. Without debug mode, Flask's error handler would save the session with `edit_item_index` already popped (user.py:162). An unknown status choice (`StatusUndefined`) raises after only the default `status_changed = False` has been written (admin.py:541-542). The model already reads that default as no pending choice, so it changes nothing in either mode.
- Text.Lower: lowers ASCII letters only, while Python's `str.lower()` folds every Unicode letter and can change the length. The answer of `allowed_file` is the same, because no other character lowers into the letters of png, jpg, jpeg or gif.
- Fleet.Vehicle.constructor: stores `brand` and `model` as given. The source stores `brand.upper()` and `model.title()` (models.py:142-143). These catalogue fields play no part in availability, pricing or booking.
- **Missing `created_at`.** `created_at` is never NULL in the model: the column is `nullable=False` with the insert time as default (models.py:337). So the fallback of `confirmation_page` to the first reservation alone (user.py:476-478) is not modelled.
- **Display-only figures.** The cart total of `view_cart` and `confirm_reserve` is `Cart.Total`, and the item count is the cart's length. The per-item tax and pre-tax figures those pages recompute for display are not modelled.
- **Unreachable save branch.** The "save as active" branch of `salvar_alteracoes` (admin.py:657-668) is unreachable, because choosing "active" is applied and cleared at once, so it is not modelled.
- **Admin reservation customer id.** An administrator's reservation stores the administrator's id as its customer id, and the model keeps that value without interpreting it.
- **`status_changed` default.** The session flag `status_changed` and its default `False` are folded into `AdminSession.pending`. The flag and the `temp_*` keys are always set and cleared together.
- **Other admin and customer pages.** The client CRUD pages, vehicle search, type editing, `add_vehicles` / `edit_vehicle` (beyond the validator they call), `replace_img`, `payment_method` and the rendering side of `confirm_reserve` are not part of this model.
