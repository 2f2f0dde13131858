# Hotel front desk: booking and availability model

A Dafny model of the booking and availability logic of a hotel front-desk
application, with proofs about it. It covers:

- the room-status cascade (blocked, then occupied, then booked, then free) over half-open stays;
- the voucher lookup;
- the booking-creation validator of the booking dialog: required fields, blocked room, date range, capacity of overlapping stays, initial status and guest reuse;
- the open-dialog form reset;
- the per-room queries of the booking details dialog: current bookings, the add-guest gate, the effective booking, the check-in/out target, free rooms, the transfer list and its order, and the second-guest booking;
- the calendar: the seven-day window, week navigation, bookings per cell, the occupancy bar, the building alias in the floor filter, and the two-click range selection;
- the guest card: stay statistics, amount spent, full-name composition, the age / date-of-birth edits and the history excerpt;
- the dashboard: booking append, the room-status update, the room filters, the status counts, the room-click gate and the recent-bookings excerpt;
- the 8 × 8 floor grid;
- the generated room inventory.

Modelling choices:

- **Dates.** Dates are whole day numbers (`Day = int`). Normalising a date to midnight is the identity, so a stay from `checkIn` to `checkOut` covers the days `checkIn <= d < checkOut`.
- **Ambient values are parameters.** "Today", the `Date.now()` ids, the creation time and the current year are passed in. So is every random draw of the room generator.
- **Optional fields.** Optional record fields are `Option`. Where a field is missing its JavaScript reading is kept:
  - a room without `capacity` never fails the capacity test (`n >= undefined` is false);
  - a room without `capacity` cannot take a second guest;
  - a room without `blocked` is not blocked.
- **Legacy room status.** The application also reads and writes a legacy room `status` (`available`, `occupied`, `booked`, `reserved`). The room record in `src/types/booking.ts` does not declare it. The model carries it as an optional field, `Room.status`, and keeps it apart from the computed `RoomStatus`.
- **Alerts** become the error alternatives of a `Result`.
- **Open-dialog form.** When the booking dialog opens, the source resets its form state field by field. The model stores those fields in a `BookingForm` class whose `Open` method updates them.
- **Other state.** The calendar's selection state, the details dialog's guest selection and add-guest form, and the dashboard's lists are classes as well. The grid is an `array2` filled in place. The room generator is a triple loop.

Modules and files:

| module | file | source |
|---|---|---|
| `Wrappers` | wrappers.dfy | `Option`, `Result` |
| `Seqs` | seqs.dfy | `filter`, `find`, `some` and counting, with their laws |
| `Text` | text.dfy | `trim`, `toLowerCase`, `includes`, `localeCompare` (as code-unit order), `parseInt` and `toString` of integers |
| `BookingTypes` | booking.dfy | src/types/booking.ts |
| `BookingDialog` | booking_dialog.dfy | src/components/booking/BookingDialog.tsx |
| `BookingDetails` | booking_details.dfy | src/components/booking/BookingDetailsDialog.tsx |
| `CalendarView` | calendar_view.dfy | src/components/booking/CalendarView.tsx |
| `GuestCard` | guest_card.dfy | src/components/guest/GuestCard.tsx |
| `BookingSystem` | booking_system.dfy | src/components/booking/BookingSystem.tsx |
| `RoomGrid` | room_grid.dfy | src/components/booking/RoomGrid.tsx |
| `RoomsData` | rooms_data.dfy | src/data/rooms.ts |

The capacity check counts only the existing overlapping stays (`overlapping.length >= capacity`). So a room for two that holds one stay on days 1–5 accepts a second stay on days 3–7 (`BookingDialog.SecondOverlappingStayAccepted`). It rejects a further stay once two stays overlap the request (`BookingDialog.CapacityScenario`).

## Model

| member | source | states |
|---|---|---|
| BookingTypes.ComputeRoomStatus | src/types/booking.ts:148-203 | A room's status on a day. Blocked iff the room is blocked. Occupied iff it is unblocked and some checked-in booking of the room covers the day. Booked iff it is unblocked, no such booking exists, and some booked or confirmed booking of the room covers the day. Free iff none of these holds. |
| BookingTypes.BlockedIgnoresBookings | src/types/booking.ts:154-156 | A blocked room is blocked whatever the bookings are. |
| BookingTypes.CheckedInMeansOccupied | src/types/booking.ts:163-178 | A checked-in booking of an unblocked room covering the day makes the room occupied. |
| BookingTypes.NoBookingsFree | src/types/booking.ts:202 | An unblocked room with no bookings is free. |
| BookingTypes.NeutralBookingIgnored | src/types/booking.ts:163-200 | Inserting, anywhere in the list, a booking that neither occupies nor reserves the room that day leaves the status unchanged. |
| BookingTypes.OtherRoomIgnored | src/types/booking.ts:163-185 | A booking of another room never changes the status. |
| BookingTypes.ClosedBookingIgnored | src/types/booking.ts:163-185 | A cancelled or completed booking never changes the status. |
| BookingTypes.OutsideStayIgnored | src/types/booking.ts:168-195 | A booking does not count on its check-out day or before its check-in day (half-open stay). |
| BookingTypes.GetVoucherStatus | src/types/booking.ts:246-277 | The voucher number is echoed. With no booking carrying this voucher of this organisation the result is inactive and has no booking id, guest or dates; the booking id is absent only then. Otherwise the first such booking decides: the id, guest name and dates are copied, and the result is active iff that booking is checked in, booked or confirmed. |
| BookingDialog.FindRoom | src/components/booking/BookingDialog.tsx:140 | The found room is the first room in the list with the requested id: it has the id and no earlier room does. None iff no room has the id. |
| BookingDialog.OverlappingBookings | src/components/booking/BookingDialog.tsx:172-187 | Exactly the bookings of the room that are neither cancelled nor completed and satisfy `checkIn < b.checkOut && checkOut > b.checkIn`. |
| BookingDialog.ExistingGuestId | src/components/booking/BookingDialog.tsx:198-204 | None iff no guest matches by phone or by a non-empty passport. Otherwise the result is the id of a matching guest, the first one. |
| BookingDialog.InitialStatus | src/components/booking/BookingDialog.tsx:207 | Confirmed iff the check-in is after today; booked iff it is today or earlier. |
| BookingDialog.AgeValue | src/components/booking/BookingDialog.tsx:215 | `parseInt(age) \|\| 0`: the parsed number, or 0 when the text is no number. |
| BookingDialog.PrefilledAgeReadBack | src/components/booking/BookingDialog.tsx:99 | An age written out as text by the form reads back as the same number. |
| BookingDialog.CreateBooking | src/components/booking/BookingDialog.tsx:128-231 | The checks run in order and each error is an iff with the earlier checks passing. Missing fields reject iff the room id, name, phone, age or address is empty. A blocked room rejects iff the fields are present and the found room is blocked. An invalid date range rejects iff it gets that far and check-out is not after check-in. Capacity rejects iff it gets that far, the room is found and has a capacity, and the overlapping count reaches it. On success the duration is positive and every modelled field of the booking is set from the form (the always-empty `services` list is not modelled). That includes the reused or fresh guest id, the initial status, `undefined` for an empty voucher, and `undefined` for the organisation "none". |
| BookingDialog.UnknownRoomSkipsRoomChecks | src/components/booking/BookingDialog.tsx:140-170 | With complete fields and a valid range, a room id that matches no room is always accepted: the blocked and capacity checks are both skipped. |
| BookingDialog.NonOverlappingNeverCounted | src/components/booking/BookingDialog.tsx:173-178 | Adding a booking of another room, or a cancelled or completed one, leaves the overlap list unchanged. |
| BookingDialog.BackToBackDoesNotOverlap | src/components/booking/BookingDialog.tsx:186 | A stay starting on an existing stay's check-out day does not overlap it. |
| BookingDialog.OverlapSharesANight | src/components/booking/BookingDialog.tsx:186 | Two non-empty overlapping stays share a night: the later of the two check-ins lies inside both. |
| BookingDialog.CapacityScenario | src/components/booking/BookingDialog.tsx:170-195 | A room for two holding stays 1–5 and 3–7 rejects a stay 4–6 and accepts 7–9. |
| BookingDialog.FullRoomRefuses | src/components/booking/BookingDialog.tsx:170-195 | A room for two holding stays 1–5 and 3–7 rejects a stay 4–6: both stays overlap it and the count reaches the capacity. |
| BookingDialog.FullRoomFreesAtCheckOut | src/components/booking/BookingDialog.tsx:170-195 | The same room accepts a stay 7–9, which starts on the later stay's check-out day. |
| BookingDialog.SecondOverlappingStayAccepted | src/components/booking/BookingDialog.tsx:189 | A room for two holding one stay 1–5 accepts a second stay 3–7. |
| BookingDialog.OpenedRoomId | src/components/booking/BookingDialog.tsx:82-93 | The preselected room: the id passed in if any, else the passed room's id, else none. |
| BookingDialog.OpenedSearchTerm | src/components/booking/BookingDialog.tsx:82-93 | The room search text. With an id passed in, it is the number of the room with that id, or empty if there is none. Otherwise it is the passed room's number, or empty. |
| BookingDialog.OpenedForm | src/components/booking/BookingDialog.tsx:60-104 | The form on opening. Guest fields are empty, or copied from the prefilled guest. Check-in is the selected date or today, and check-out the day after. The voucher is empty and the organisation is "none". |
| BookingDialog.PrefilledFormHasAge | src/components/booking/BookingDialog.tsx:96-103 | A prefilled form has a non-empty age text that reads back as the guest's age. |
| BookingDialog.PrefilledGuestKeepsAge | src/components/booking/BookingDialog.tsx:99-215 | A booking created from a prefilled form records the guest's age. |
| BookingDialog.BookingForm.constructor | src/components/booking/BookingDialog.tsx:60-104 | The initial form state. |
| BookingDialog.BookingForm.Open | src/components/booking/BookingDialog.tsx:60-104 | Closed: nothing changes. Open: the form becomes `OpenedForm` and the search text becomes `OpenedSearchTerm`. |
| BookingDetails.TargetDay | src/components/booking/BookingDetailsDialog.tsx:112-113 | The selected date if given, else the current date. |
| BookingDetails.CanAddGuest | src/components/booking/BookingDetailsDialog.tsx:140-142 | When a guest can be added, the room has a capacity with room for one more. A single room, or a room without a capacity, never takes another guest. |
| BookingDetails.CurrentBookings | src/components/booking/BookingDetailsDialog.tsx:110-135 | Exactly the booked, checked-in or confirmed bookings of the room whose stay covers the target day. |
| BookingDetails.NoCurrentBookingIffFree | src/components/booking/BookingDetailsDialog.tsx:110-135 | For an unblocked room, no current booking iff the computed status is free: the dialog's query and the status cascade agree. |
| BookingDetails.EffectiveBooking | src/components/booking/BookingDetailsDialog.tsx:145 | The supplied booking, else the first current one. None iff there is neither, which is also when nothing is shown. |
| BookingDetails.EffectiveIsFirstCurrent | src/components/booking/BookingDetailsDialog.tsx:110-145 | Opened for a room without a booking, the dialog falls back on the first current booking in the stored order. |
| BookingDetails.ActionTarget | src/components/booking/BookingDetailsDialog.tsx:187-201 | Check-in and check-out act on the selected guest when one is selected, else on the effective booking's id, else on nothing (None iff both are absent). |
| BookingDetails.ToggleSelection | src/components/booking/BookingDetailsDialog.tsx:429-433 | Clicking the selected guest clears the selection; clicking another selects it. |
| BookingDetails.ClickThenAct | src/components/booking/BookingDetailsDialog.tsx:187-433 | After clicking a new guest, check-in and check-out act on that guest. After clicking the selected guest again, they act on the effective booking. |
| BookingDetails.AvailableRooms | src/components/booking/BookingDetailsDialog.tsx:291-294 | Exactly the other rooms whose status today is free. |
| BookingDetails.AvailableRoomsAreEmpty | src/components/booking/BookingDetailsDialog.tsx:291-294 | A room offered as available is unblocked and has no current booking today. |
| BookingDetails.CompareForTransfer | src/components/booking/BookingDetailsDialog.tsx:832-840 | For two rooms of the same building kind (both with a building or both without), the comparator returns 0 only when they are equal in building, floor and number. A defined building on the left against none on the right is ordered by comparing it with the text "undefined". |
| BookingDetails.CompareForTransferFlip | src/components/booking/BookingDetailsDialog.tsx:832-840 | The comparator is antisymmetric. |
| BookingDetails.NotAfterTotal | src/components/booking/BookingDetailsDialog.tsx:832-840 | Any two rooms are ordered one way or the other. |
| BookingDetails.NotAfterTransitive | src/components/booking/BookingDetailsDialog.tsx:832-840 | The order is transitive, so sorting by it is well defined. |
| BookingDetails.SortedForTransferPairwise | src/components/booking/BookingDetailsDialog.tsx:832-840 | In a sorted list every earlier room comes no later than every later one. |
| BookingDetails.Insert | src/components/booking/BookingDetailsDialog.tsx:832-840 | Inserting into a sorted list keeps it sorted and adds exactly that room (multiset). |
| BookingDetails.SortForTransfer | src/components/booking/BookingDetailsDialog.tsx:832-840 | The result is a sorted permutation of the input. |
| BookingDetails.TransferCandidates | src/components/booking/BookingDetailsDialog.tsx:830-840 | A permutation of every room but the current one, ordered by building, then floor, then number. It requires only the rooms left after the current one is removed to share a building kind. |
| BookingDetails.AddGuest | src/components/booking/BookingDetailsDialog.tsx:242-275 | Rejected iff a field is empty. Otherwise the result is a booked stay in this room under the fresh guest id, with the form's guest data and `parseInt` of the age. It copies the effective booking's dates and voucher, or uses today for both dates with duration 0 and no voucher. |
| BookingDetails.AddedGuestIsCurrent | src/components/booking/BookingDetailsDialog.tsx:254-275 | A guest added beside a current booking is itself current: the room's current list grows by exactly that booking. |
| BookingDetails.CanAddGuestKeepsCapacity | src/components/booking/BookingDetailsDialog.tsx:140-142 | When `canAddGuest` holds, one more stored booking keeps the current count within the capacity. |
| BookingDetails.DetailsState.constructor | src/components/booking/BookingDetailsDialog.tsx:93-104 | No guest selected, the add-guest form is closed and empty. |
| BookingDetails.DetailsState.ClickGuest | src/components/booking/BookingDetailsDialog.tsx:429-433 | The selection becomes the toggle of the clicked guest; nothing else changes. |
| BookingDetails.DetailsState.SubmitAddGuest | src/components/booking/BookingDetailsDialog.tsx:242-286 | Returns `AddGuest` of the current form. A rejection leaves the state unchanged. Success closes the form and resets every field, the gender to male. |
| CalendarView.WeekFrom | src/components/booking/CalendarView.tsx:118-126 | Seven days, the `i`-th being the first day plus `i`. |
| CalendarView.Navigate | src/components/booking/CalendarView.tsx:159-163 | Seven days forward or back. |
| CalendarView.NavigateRoundTrip | src/components/booking/CalendarView.tsx:159-163 | Moving back undoes moving forward and the other way round. |
| CalendarView.NextWeekContinues | src/components/booking/CalendarView.tsx:118-163 | This week followed by the next is fourteen consecutive days. |
| CalendarView.BookingsForRoomAndDate | src/components/booking/CalendarView.tsx:138-151 | Exactly the checked-in, booked or confirmed bookings of the room whose stay covers the day. |
| CalendarView.RoomBookings | src/components/booking/CalendarView.tsx:248-256 | Exactly the active bookings of the room, whatever their dates. |
| CalendarView.CellIsSliceOfRoomList | src/components/booking/CalendarView.tsx:138-256 | A cell's list is the room's list filtered by the day, in the same order. |
| CalendarView.CellMatchesDetailsDialog | src/components/booking/CalendarView.tsx:138-151 | On whole days, a cell lists the same bookings, in the same order, as the details dialog's current bookings for that day. The calendar compares raw times, which day numbers do not capture (see Left out). |
| CalendarView.EmptyCellIffFree | src/components/booking/CalendarView.tsx:138-151 | On whole days, for an unblocked room, a cell is empty iff the computed status that day is free. |
| CalendarView.OccupancyRate | src/components/booking/CalendarView.tsx:316-323 | 1 iff single or improved single, 3 iff family or improved family, 4 iff luxury, 2 otherwise. |
| CalendarView.FloorRooms | src/components/booking/CalendarView.tsx:129-135 | Exactly the rooms on the floor whose building is the selected one, or "A" when "1" is selected, or "B" when "2" is selected. |
| CalendarView.AliasIsOneWay | src/components/booking/CalendarView.tsx:129-135 | Rooms of "A" show under "1", rooms of "1" do not show under "A", and rooms without a building never show. |
| CalendarView.InSelection | src/components/booking/CalendarView.tsx:223-226 | No range selects nothing, and a range of another room selects nothing. In the range's room a cell is selected iff its day lies between the two ends, both included. |
| CalendarView.CompletedRangeCells | src/components/booking/CalendarView.tsx:197-226 | The range two clicks complete covers exactly the cells of that room between the two days, whichever was clicked first, both ends included. |
| CalendarView.Calendar.constructor | src/components/booking/CalendarView.tsx:96-114 | The window starts at the date handed in, else today, with no selection. |
| CalendarView.Calendar.SyncExternal | src/components/booking/CalendarView.tsx:100-103 | A date handed in replaces the shown one; nothing else changes. |
| CalendarView.Calendar.GenerateDays | src/components/booking/CalendarView.tsx:118-126 | The loop returns `WeekFrom(currentDate)`. |
| CalendarView.Calendar.NavigateWeek | src/components/booking/CalendarView.tsx:159-163 | The window start moves by `Navigate`; the selection is untouched. |
| CalendarView.Calendar.CellClick | src/components/booking/CalendarView.tsx:191-218 | Idle: the selection starts with a one-day range and nothing fires. Selecting with a start in the same room: the range from the earlier to the later day is set and fired once, and it goes idle. Otherwise the selection is dropped and nothing fires. The validity invariant is kept. |
| CalendarView.Calendar.ExpireSelectionAsWritten | src/components/booking/CalendarView.tsx:209-212 | The delayed reset as written: it clears the start and the range and keeps `isSelecting`. |
| CalendarView.Calendar.ExpireSelection | src/components/booking/CalendarView.tsx:209-212 | The delayed reset as intended: it clears a finished selection only. |
| CalendarView.Calendar.IsCellInSelection | src/components/booking/CalendarView.tsx:223-226 | While a selection is pending, exactly its start cell is highlighted. With no range, no cell is. |
| CalendarView.LateResetCancelsNextSelection | src/components/booking/CalendarView.tsx:191-218 | Clicks on days 1, 3 and 5, then the reset as written, then a click on day 7: no range fires. |
| CalendarView.LateResetKeepsNextSelection | src/components/booking/CalendarView.tsx:191-218 | The same clicks with the intended reset fire the range from day 5 to day 7. |
| GuestCard.ActiveBookings | src/components/guest/GuestCard.tsx:66-68 | Exactly the checked-in bookings. |
| GuestCard.CompletedBookings | src/components/guest/GuestCard.tsx:69 | Exactly the completed bookings. |
| GuestCard.TotalStays | src/components/guest/GuestCard.tsx:70 | The number of completed bookings, at most the number of bookings. |
| GuestCard.ActiveAndCompletedWithinBookings | src/components/guest/GuestCard.tsx:66-70 | Active plus completed stays never exceed the bookings. |
| GuestCard.Amount | src/components/guest/GuestCard.tsx:71-74 | `totalAmount \|\| 0`: the booking's amount, or 0 when it has none. |
| GuestCard.TotalSpent | src/components/guest/GuestCard.tsx:71-74 | The `reduce` from 0 as a left fold (the total of all but the last booking, plus the last amount): 0 for no bookings, the one amount for a single booking, and never negative when no amount is. `TotalSpentFront`, `TotalSpentAppend`, `TotalSpentBounds` and `UnpricedBookingsAddNothing` are its laws. |
| GuestCard.TotalSpentFront | src/components/guest/GuestCard.tsx:71-74 | Folding from the front gives the same total: the first amount plus the total of the rest. |
| GuestCard.TotalSpentAppend | src/components/guest/GuestCard.tsx:71-74 | The total over two lists is the sum of their totals. |
| GuestCard.TotalSpentBounds | src/components/guest/GuestCard.tsx:71-74 | With no negative amount, the total is non-negative and at least every single amount. |
| GuestCard.UnpricedBookingsAddNothing | src/components/guest/GuestCard.tsx:71-74 | Bookings without an amount add up to 0. |
| GuestCard.FullName | src/components/guest/GuestCard.tsx:83-87 | The composed name neither starts nor ends with whitespace. |
| GuestCard.FullNameWithoutMiddle | src/components/guest/GuestCard.tsx:83-87 | Without a middle name, clean parts give "Last First". |
| GuestCard.FullNameWithMiddle | src/components/guest/GuestCard.tsx:83-87 | With a middle name, clean parts give "Last First Middle". |
| GuestCard.SaveEdit | src/components/guest/GuestCard.tsx:81-93 | The edited record with only its full name recomposed from its parts. |
| GuestCard.SaveEditIdempotent | src/components/guest/GuestCard.tsx:81-93 | Saving twice equals saving once. |
| GuestCard.EditDateOfBirth | src/components/guest/GuestCard.tsx:242-248 | Age plus birth year is the current year; every other field is unchanged. |
| GuestCard.DateConstructorYear | src/components/guest/GuestCard.tsx:269-270 | `new Date(year, 0, 1)` never lands in a two-digit year: a year from 0 to 99 moves to 1900–1999, and any other year stays. |
| GuestCard.EditAge | src/components/guest/GuestCard.tsx:267-273 | None iff the text is no number. Otherwise the age is the parsed number, and the birth date is 1 January of the current year minus the age, as `new Date(year, 0, 1)` reads that year. Every other field is unchanged. |
| GuestCard.AgeAndBirthDateAgree | src/components/guest/GuestCard.tsx:242-273 | When the birth year is not a two-digit year, an age entered as text yields a birth date whose derived age is that age again. |
| GuestCard.AgeWithTwoDigitBirthYear | src/components/guest/GuestCard.tsx:242-273 | When the current year minus the age is 0–99, the birth date lands 1900 years later, and it gives back an age 1900 lower. |
| GuestCard.BirthDateThenAge | src/components/guest/GuestCard.tsx:242-273 | For a birth year outside 0–99, entering a birth date and then its derived age keeps the birth year, moved to 1 January. |
| GuestCard.TwoDigitBirthDateThenAge | src/components/guest/GuestCard.tsx:242-273 | A typed birth date in the years 0–99 comes back from its derived age 1900 years later, on 1 January. |
| GuestCard.History | src/components/guest/GuestCard.tsx:535 | The first ten bookings, or all of them when there are fewer. |
| BookingSystem.FilteredRooms | src/components/booking/BookingSystem.tsx:66-76 | Exactly the rooms matching all three filters: the search, ignoring case, with "" for any number; the status, with "all" for any; and the type, with "all" for any. |
| BookingSystem.NoFilterListsAll | src/components/booking/BookingSystem.tsx:66-76 | With no constraint every room is listed, in order. |
| BookingSystem.EmptySearchMatchesAnyway | src/components/booking/BookingSystem.tsx:67-69 | The empty-term shortcut agrees with the substring test. |
| BookingSystem.StatusChoiceNarrows | src/components/booking/BookingSystem.tsx:66-76 | Choosing a status filters the unconstrained list by that status. |
| BookingSystem.CountStatus | src/components/booking/BookingSystem.tsx:80-83 | A count never exceeds the number of rooms. |
| BookingSystem.GetStats | src/components/booking/BookingSystem.tsx:78-86 | The total is the number of rooms. |
| BookingSystem.StatsPartition | src/components/booking/BookingSystem.tsx:78-86 | The four counts and the rooms without a status add up to the total. |
| BookingSystem.StatsWithinTotal | src/components/booking/BookingSystem.tsx:78-86 | available + occupied + booked + reserved ≤ total. |
| BookingSystem.MarkBooked | src/components/booking/BookingSystem.tsx:56-62 | Same length. The room with the booked id is marked booked, with everything else about it kept, and every other room is unchanged. |
| BookingSystem.MarkBookedIdempotent | src/components/booking/BookingSystem.tsx:56-62 | Marking a room twice is marking it once. |
| BookingSystem.MarkBookedCount | src/components/booking/BookingSystem.tsx:56-62 | The booked count grows by the number of rooms with that id that were not booked yet. |
| BookingSystem.RecentBookings | src/components/booking/BookingSystem.tsx:277-279 | The last five bookings, or all of them when fewer, newest first. |
| BookingSystem.NewestFirst | src/components/booking/BookingSystem.tsx:277-279 | A booking just added heads the recent list, followed by the newest earlier ones. |
| BookingSystem.Dashboard.constructor | src/components/booking/BookingSystem.tsx:36 | No bookings, the given rooms, no selection and the dialog closed. |
| BookingSystem.Dashboard.HandleRoomClick | src/components/booking/BookingSystem.tsx:39-44 | The room is selected. The dialog opens iff the room is available, and stays open if already open. |
| BookingSystem.Dashboard.CloseBookingDialog | src/components/booking/BookingSystem.tsx:333-336 | The dialog closes and the selection is cleared. |
| BookingSystem.Dashboard.HandleBookRoom | src/components/booking/BookingSystem.tsx:46-63 | Exactly one booking is appended after the earlier ones, and the rooms are updated by `MarkBooked`. |
| RoomGrid.GridFloorRooms | src/components/booking/RoomGrid.tsx:50 | Exactly the rooms on the selected floor. |
| RoomGrid.LastAt | src/components/booking/RoomGrid.tsx:57-61 | A cell shows nothing iff no room is placed there; otherwise it shows the last room placed there. |
| RoomGrid.LastAtSnoc | src/components/booking/RoomGrid.tsx:57-61 | Placing one more room changes only the cell at its position. |
| RoomGrid.Place | src/components/booking/RoomGrid.tsx:58-60 | One placement step keeps the grid showing the rooms placed so far. |
| RoomGrid.BuildGrid | src/components/booking/RoomGrid.tsx:50-61 | A fresh, initially empty 8 × 8 array. Each cell shows the last floor room placed there, skipping positions outside the grid. |
| RoomGrid.CellHoldsFloorRoom | src/components/booking/RoomGrid.tsx:50-61 | A filled cell holds a room of the selected floor whose position is that cell. |
| RoomGrid.EmptyCellHasNoRoom | src/components/booking/RoomGrid.tsx:50-61 | A cell stays empty iff no room of the floor has that position. |
| RoomGrid.GeneratedFloorsAreFull | src/components/booking/RoomGrid.tsx:50-61 | With the generated inventory every cell of floors 1 to 4 is filled. |
| RoomsData.GeneratedRooms | src/data/rooms.ts:21-39 | The inventory has 256 rooms. |
| RoomsData.IndexOfCell | src/data/rooms.ts:21-23 | The loop counters give the list position `(floor−1)·64 + row·8 + col`, and back. |
| RoomsData.GenerateRooms | src/data/rooms.ts:4-42 | The triple loop produces exactly `GeneratedRooms` for the draws. |
| RoomsData.GeneratedBounds | src/data/rooms.ts:21-33 | Floors 1–4; rows and columns 0–7; a type from the four listed; a status from the four listed. |
| RoomsData.GeneratedNumber | src/data/rooms.ts:19-36 | The `k`-th room has number `101 + k`, and that text parses back to it. |
| RoomsData.RoomIdShape | src/data/rooms.ts:25 | `room-{floor}-{row}-{col}` with one-digit parts is ten characters with the digits at fixed places. |
| RoomsData.CellIndex | src/data/rooms.ts:21-23 | A list position is recovered from its floor, row and column. |
| RoomsData.GeneratedIdsDistinct | src/data/rooms.ts:25 | No two generated rooms share an id. |
| RoomsData.GeneratedNumbersDistinct | src/data/rooms.ts:26 | No two generated rooms share a number. |

## Left out

- JSX rendering, colours, labels, date formatting and the select widgets: presentation only.
- `alert` messages: they are the error alternatives of `CreateBooking` and `AddGuest`; the message texts are not modelled.
- Callbacks handed in by the parent (`onBookRoom`, `onClose`, `onAddSecondGuest`, `onCheckIn`, `onCheckOut`, `onRoomClick`, `onDateRangeSelect`, `onUpdateGuest` and the stay, transfer and audit handlers): their code is not in these files. The model returns what is passed to them: the booking data, the action target, the fired range and the saved guest.
- The two-second `setTimeout` in the calendar's cell click: the time is not modelled. A reset is an explicit call, `ExpireSelectionAsWritten` or `ExpireSelection`, made at any point between clicks.
- Date parsing, time zones and millisecond arithmetic:
  - dates are day numbers;
  - `Math.ceil` of the millisecond difference is the difference in days;
  - a date of birth is a `CivilDate`, of which only the year is read.
- `Math.random()` and `Date.now()`: they are parameters (`Draw`, fresh ids, creation time, current year).
- Time of day in the calendar: the calendar's cell test compares raw `Date` values, with no normalisation to midnight. The cell date keeps `currentDate`'s time of day, by default that of `new Date()`. The details dialog normalises all three dates first. With day numbers the two agree (`CellMatchesDetailsDialog`, `EmptyCellIffFree`). The source can show an empty cell for a booking the dialog lists, when a stored time differs from the cell's time on the same day.
- Booking amounts are integers: `totalAmount` is a JavaScript number, which may be fractional, and `reduce` adds in floating point. `TotalSpent` and its laws (`TotalSpentAppend`, `TotalSpentBounds`) hold for exact integer sums; floating-point rounding is not modelled.
- Room positions are natural numbers, so `BuildGrid` cannot receive a negative or fractional position, and neither case is modelled. Such a position passes the source's `< 8` test. A bad row makes the grid write throw, because the source indexes a missing row. A bad column throws nothing: the room is stored under a key that is not a grid cell and is never shown.
- The `services` list that both booking forms set to empty is not modelled: `BookingData` has no such field.
- BookingDetails.AddGuest: with no effective booking, the duration is 0. The source reads the clock twice for that case, so its duration can be 1. The dialog renders nothing for a room with no effective booking, so that case is not reached.
- Persistence, and the race between the capacity check and the write: there is no storage or concurrency in these files.
- Text.ParseInt: reads decimal digits only, under JavaScript's whitespace rule; the hexadecimal `0x` form of `parseInt` is not modelled.
- Text.ToLower: folds the ASCII and the Cyrillic capitals U+0400–U+042F only, not full Unicode case mapping.
- Text.CompareStrings: `localeCompare` is modelled as code-unit order, not the locale collation.
- BookingDetails.TransferCandidates: requires that the rooms other than the current one either all have a building or all have none. In the mixed case, the source's comparator throws when an undefined building is on the left, so the source's order depends on the engine's sort algorithm. The model uses a stable insertion sort.
- BookingDetails.AddGuest: a NaN age is `None`; its other JavaScript behaviour is not modelled.
- GuestCard.ActiveBookings: the source also accepts a status "active", which the closed status type never carries, so only checked-in bookings count.
- GuestCard.EditAge: a text that is no number gives `None`, standing for the NaN age and invalid date the source stores.
- BookingDialog.AgeValue: a text that is no number gives 0, as `parseInt(age) || 0` does.
- `getBookingForRoomAndDate`, the single-booking wrapper in the calendar: it takes the first element of `BookingsForRoomAndDate` and adds nothing.

## Findings

| source | as written | input that shows it | evidently intended | confidence | as-written member | corrected member |
|---|---|---|---|---|---|---|
| src/components/booking/CalendarView.tsx:209-212 | A completed selection schedules a reset that clears the start and the range two seconds later, whatever has happened since. If a new selection was begun in those two seconds, the calendar is left selecting with no start, and the next click cancels it. | In one room, click days 1 and 3, which completes a range; click day 5, which starts a new selection; the reset fires; click day 7. No range is fired. | The reset clears only the finished selection; the new selection from day 5 completes to the range 5–7. | not executed | CalendarView.LateResetCancelsNextSelection | CalendarView.LateResetKeepsNextSelection |
