/**
 * The booking-details dialog of one room: which bookings are current on the
 * viewed day, whether another guest fits, which booking the actions apply to,
 * the rooms offered for a transfer and their order, and the second-guest
 * booking it builds.
 */
module BookingDetails {
  import opened Wrappers
  import opened Seqs
  import opened Text
  import opened BookingTypes

  /** A booking that is in the room on day `target` and still open (booked, checked in or confirmed). */
  predicate IsCurrent(b: Booking, room: Room, target: Day) {
    && b.info.roomId == room.id
    && (b.info.status.Booked? || b.info.status.CheckedIn? || b.info.status.Confirmed?)
    && CoversDay(b, target)
  }

  /** The day the dialog looks at: the calendar's selected day, else the current day. */
  function TargetDay(selectedDate: Option<Day>, currentDate: Day): (d: Day)
    ensures selectedDate.Some? ==> d == selectedDate.value
    ensures selectedDate.None? ==> d == currentDate
  {
    selectedDate.GetOr(currentDate)
  }

  /** `getCurrentBookings`: the open bookings of this room that cover the target day, in their stored order. */
  function CurrentBookings(room: Room, bookings: seq<Booking>, target: Day): (r: seq<Booking>)
    ensures |r| <= |bookings|
    ensures forall b :: b in r <==> b in bookings && IsCurrent(b, room, target)
  {
    Filter(bookings, b => IsCurrent(b, room, target))
  }

  /**
   * The dialog and the room status agree: an unblocked room has no current booking
   * on a day exactly when its computed status that day is free.
   */
  lemma NoCurrentBookingIffFree(room: Room, bookings: seq<Booking>, target: Day)
    requires !room.blocked
    ensures CurrentBookings(room, bookings, target) == [] <==> ComputeRoomStatus(room, target, bookings) == RoomStatus.Free
  {
    var current := CurrentBookings(room, bookings, target);
    forall i | 0 <= i < |bookings|
      ensures IsCurrent(bookings[i], room, target) <==>
              OccupiesOn(bookings[i], room.id, target) || ReservesOn(bookings[i], room.id, target)
    {
    }
    if current != [] {
      assert current[0] in bookings;
    } else {
      forall i | 0 <= i < |bookings|
        ensures !IsCurrent(bookings[i], room, target)
      {
        assert bookings[i] in bookings;
        assert bookings[i] !in current;
      }
    }
  }

  /**
   * `canAddGuest`: fewer current guests than the room's capacity, and not a single room.
   * A room without a capacity compares as `undefined`, which no count is below.
   */
  predicate CanAddGuest(room: Room, occupancy: nat)
    ensures CanAddGuest(room, occupancy) ==> room.capacity.Some? && occupancy + 1 <= room.capacity.value
    ensures room.roomType.Single? || room.capacity.None? ==> !CanAddGuest(room, occupancy)
  {
    room.capacity.Some? && occupancy < room.capacity.value && !room.roomType.Single?
  }

  /** `effectiveBooking`: the booking the dialog was opened with, else the first current booking. */
  function EffectiveBooking(booking: Option<Booking>, current: seq<Booking>): (e: Option<Booking>)
    ensures booking.Some? ==> e == booking
    ensures booking.None? && current != [] ==> e == Some(current[0])
    ensures e.None? <==> booking.None? && current == []
  {
    if booking.Some? then booking
    else if current != [] then Some(current[0])
    else None
  }

  /** Opened for a room alone, the dialog falls back on the first current booking in the stored order. */
  lemma {:induction false} EffectiveIsFirstCurrent(room: Room, bookings: seq<Booking>, target: Day, k: nat)
    requires k < |bookings| && IsCurrent(bookings[k], room, target)
    requires forall j :: 0 <= j < k ==> !IsCurrent(bookings[j], room, target)
    ensures EffectiveBooking(None, CurrentBookings(room, bookings, target)) == Some(bookings[k])
  {
    FilterFirst(bookings, b => IsCurrent(b, room, target), k);
  }

  /** Without a booking to fall back on, the dialog is not shown at all. */
  predicate IsShown(booking: Option<Booking>, current: seq<Booking>) {
    EffectiveBooking(booking, current).Some?
  }

  /** The booking check-in and check-out act on: the selected guest's, else the effective one, else none. */
  function ActionTarget(selectedGuestId: string, effective: Option<Booking>): (target: Option<string>)
    ensures selectedGuestId != "" ==> target == Some(selectedGuestId)
    ensures selectedGuestId == "" && effective.Some? ==> target == Some(effective.value.id)
    ensures target.None? <==> selectedGuestId == "" && effective.None?
  {
    if selectedGuestId != "" then Some(selectedGuestId)
    else if effective.Some? then Some(effective.value.id)
    else None
  }

  /** Clicking a guest card: the selected guest is deselected, any other guest becomes the selection. */
  function ToggleSelection(selected: string, clicked: string): (r: string)
    ensures selected == clicked ==> r == ""
    ensures selected != clicked ==> r == clicked
  {
    if selected == clicked then "" else clicked
  }

  /** Clicking a guest and then checking out acts on that guest's booking; clicking it again falls back to the effective booking. */
  lemma ClickThenAct(selected: string, clicked: Booking, effective: Option<Booking>)
    requires clicked.id != ""
    ensures selected != clicked.id ==> ActionTarget(ToggleSelection(selected, clicked.id), effective) == Some(clicked.id)
    ensures selected == clicked.id ==>
      ActionTarget(ToggleSelection(selected, clicked.id), effective) == (if effective.Some? then Some(effective.value.id) else None)
  {
  }

  /** `availableRooms`: every other room whose status today is free. */
  function AvailableRooms(rooms: seq<Room>, room: Room, today: Day, bookings: seq<Booking>): (r: seq<Room>)
    ensures forall x :: x in r <==> x in rooms && x.id != room.id && ComputeRoomStatus(x, today, bookings) == RoomStatus.Free
  {
    Filter(rooms, (x: Room) => ComputeRoomStatus(x, today, bookings) == RoomStatus.Free && x.id != room.id)
  }

  /** A room offered as available is unblocked and has no current booking today. */
  lemma AvailableRoomsAreEmpty(rooms: seq<Room>, room: Room, today: Day, bookings: seq<Booking>, x: Room)
    requires x in AvailableRooms(rooms, room, today, bookings)
    ensures !x.blocked && CurrentBookings(x, bookings, today) == []
  {
    NoCurrentBookingIffFree(x, bookings, today);
  }

  /**
   * The transfer list's comparator: by building, then floor, then number. An undefined
   * building on the left against a defined one on the right throws (`undefined.localeCompare`),
   * hence the precondition; a defined building on the left compares with the text "undefined".
   */
  function CompareForTransfer(a: Room, b: Room): (c: int)
    requires a.building.Some? || b.building.None?
    ensures c == 0 && a.building.Some? == b.building.Some? ==>
              a.building == b.building && a.floor == b.floor && a.number == b.number
    ensures a.building.Some? && b.building.None? ==> c == CompareStrings(a.building.value, "undefined")
  {
    if a.building != b.building then
      CompareStrings(a.building.value, if b.building.Some? then b.building.value else "undefined")
    else if a.floor != b.floor then a.floor - b.floor
    else CompareStrings(a.number, b.number)
  }

  /** Either every room has a building or none has; only then can the comparator never throw. */
  predicate UniformBuildings(s: seq<Room>) {
    (forall x | x in s :: x.building.Some?) || (forall x | x in s :: x.building.None?)
  }

  predicate SameKind(a: Room, b: Room) {
    a.building.Some? == b.building.Some?
  }

  /** `a` may come before `b` in the transfer list. */
  predicate NotAfter(a: Room, b: Room)
    requires SameKind(a, b)
  {
    CompareForTransfer(a, b) <= 0
  }

  /** Swapping the rooms flips the comparator's sign. */
  lemma CompareForTransferFlip(a: Room, b: Room)
    requires SameKind(a, b)
    ensures CompareForTransfer(a, b) < 0 <==> CompareForTransfer(b, a) > 0
    ensures CompareForTransfer(a, b) == 0 <==> CompareForTransfer(b, a) == 0
  {
    if a.building != b.building {
      CompareStringsFlip(a.building.value, b.building.value);
    } else if a.floor == b.floor {
      CompareStringsFlip(a.number, b.number);
    }
  }

  /** Any two rooms of the same kind are ordered one way or the other. */
  lemma NotAfterTotal(a: Room, b: Room)
    requires SameKind(a, b)
    ensures NotAfter(a, b) || NotAfter(b, a)
  {
    CompareForTransferFlip(a, b);
  }

  /** The order is transitive. */
  lemma NotAfterTransitive(a: Room, b: Room, c: Room)
    requires SameKind(a, b) && SameKind(b, c)
    requires NotAfter(a, b) && NotAfter(b, c)
    ensures NotAfter(a, c)
  {
    if a.building != b.building {
      if b.building != c.building {
        CompareStringsTransitive(a.building.value, b.building.value, c.building.value);
        if a.building == c.building {
          CompareStringsFlip(a.building.value, b.building.value);
        }
      }
    } else if b.building != c.building {
    } else if a.floor != b.floor || b.floor != c.floor {
    } else {
      CompareStringsTransitive(a.number, b.number, c.number);
    }
  }

  /** `y` may come before every room of `s`. */
  predicate NotAfterAll(y: Room, s: seq<Room>) {
    forall z | z in s :: SameKind(y, z) && NotAfter(y, z)
  }

  /** Sorted for the transfer list: each room may come before every room after it. */
  predicate SortedForTransfer(s: seq<Room>) {
    s == [] || (NotAfterAll(s[0], s[1..]) && SortedForTransfer(s[1..]))
  }

  lemma NotAfterAllTransitive(x: Room, y: Room, s: seq<Room>)
    requires SameKind(x, y) && NotAfter(x, y) && NotAfterAll(y, s)
    ensures NotAfterAll(x, s)
  {
    forall z | z in s
      ensures SameKind(x, z) && NotAfter(x, z)
    {
      NotAfterTransitive(x, y, z);
    }
  }

  /** Read pairwise: in a sorted list no room comes after a room it should precede. */
  lemma {:induction false} SortedForTransferPairwise(s: seq<Room>, i: nat, j: nat)
    requires SortedForTransfer(s) && i < j < |s|
    ensures SameKind(s[i], s[j]) && NotAfter(s[i], s[j])
  {
    if i == 0 {
      assert s[j] in s[1..];
    } else {
      assert s[1..][i - 1] == s[i] && s[1..][j - 1] == s[j];
      SortedForTransferPairwise(s[1..], i - 1, j - 1);
    }
  }

  /** Inserting one room into an already sorted list, before the first room it may precede. */
  function Insert(x: Room, s: seq<Room>): (r: seq<Room>)
    requires forall z | z in s :: SameKind(x, z)
    requires SortedForTransfer(s)
    ensures multiset(r) == multiset(s) + multiset{x}
    ensures forall z :: z in r <==> z == x || z in s
    ensures SortedForTransfer(r)
  {
    if s == [] then [x]
    else if NotAfter(x, s[0]) then
      NotAfterAllTransitive(x, s[0], s[1..]);
      assert s == [s[0]] + s[1..];
      [x] + s
    else
      NotAfterTotal(x, s[0]);
      assert s == [s[0]] + s[1..];
      var rest := Insert(x, s[1..]);
      assert NotAfterAll(s[0], rest);
      assert ([s[0]] + rest)[1..] == rest;
      [s[0]] + rest
  }

  /** `Array.prototype.sort` with the transfer comparator, as a stable insertion sort. */
  function SortForTransfer(s: seq<Room>): (r: seq<Room>)
    requires UniformBuildings(s)
    ensures multiset(r) == multiset(s)
    ensures forall z :: z in r <==> z in s
    ensures SortedForTransfer(r)
  {
    if s == [] then []
    else
      assert s == [s[0]] + s[1..];
      assert forall y | y in s[1..] :: y in s;
      var rest := SortForTransfer(s[1..]);
      Insert(s[0], rest)
  }

  /**
   * The rooms a guest can be moved to: every other room, each exactly as often as it
   * is listed, ordered by building, floor and number.
   */
  function TransferCandidates(rooms: seq<Room>, room: Room): (r: seq<Room>)
    requires UniformBuildingsExcept(rooms, room.id)
    ensures multiset(r) == multiset(Filter(rooms, (x: Room) => x.id != room.id))
    ensures forall x :: x in r <==> x in rooms && x.id != room.id
    ensures SortedForTransfer(r)
  {
    var others := Filter(rooms, (x: Room) => x.id != room.id);
    assert UniformBuildings(others);
    SortForTransfer(others)
  }

  /**
   * The rooms other than `id` either all have a building or all have none. The current
   * room is filtered out before the sort, so its own building does not matter.
   */
  predicate UniformBuildingsExcept(rooms: seq<Room>, id: string) {
    || (forall x | x in rooms && x.id != id :: x.building.Some?)
    || (forall x | x in rooms && x.id != id :: x.building.None?)
  }

  /** The add-guest form. */
  datatype GuestForm = GuestForm(name: string, phone: string, age: string, address: string, gender: Gender, passport: string)

  const EmptyGuestForm := GuestForm("", "", "", "", Male, "")

  datatype AddGuestError = MissingGuestFields

  predicate IsComplete(f: GuestForm) {
    f.name != "" && f.phone != "" && f.age != "" && f.address != "" && f.passport != ""
  }

  /**
   * `handleAddGuest`: a booked stay in this room for the new guest, on the effective
   * booking's dates and voucher (on today's date when there is none). `parseInt` of
   * the age is `None` where it gives NaN.
   */
  function AddGuest(f: GuestForm, room: Room, effective: Option<Booking>, today: Day, freshGuestId: string)
    : (r: Result<BookingData, AddGuestError>)
    ensures r.Err? <==> !IsComplete(f)
    ensures r.Ok? ==>
      && r.value.roomId == room.id && r.value.guestId == freshGuestId
      && r.value.status == BookingStatus.Booked
      && r.value.guestName == f.name && r.value.guestPhone == f.phone && r.value.guestAddress == f.address
      && r.value.guestGender == f.gender && r.value.guestPassport == Some(f.passport)
      && r.value.guestAge == ParseInt(f.age)
      && r.value.duration == r.value.checkOut - r.value.checkIn
      && r.value.organizationId.None? && r.value.totalAmount.None?
    ensures r.Ok? && effective.Some? ==>
      && r.value.checkIn == effective.value.info.checkIn && r.value.checkOut == effective.value.info.checkOut
      && r.value.voucherNumber == effective.value.info.voucherNumber
    ensures r.Ok? && effective.None? ==>
      r.value.checkIn == today && r.value.checkOut == today && r.value.duration == 0 && r.value.voucherNumber.None?
  {
    if !IsComplete(f) then Err(MissingGuestFields)
    else
      // With no effective booking both dates are today, so the duration is 0. The source reads
      // the clock twice there, which can make it 1; the dialog does not reach this case, because
      // it renders nothing for a room with no effective booking.
      var checkIn := if effective.Some? then effective.value.info.checkIn else today;
      var checkOut := if effective.Some? then effective.value.info.checkOut else today;
      Ok(BookingData(room.id, freshGuestId, f.name, f.phone, ParseInt(f.age), f.address, f.gender, Some(f.passport),
                     checkIn, checkOut, checkOut - checkIn, BookingStatus.Booked, None,
                     if effective.Some? then effective.value.info.voucherNumber else None, None))
  }

  /**
   * A second guest added beside a current booking of this room is itself current:
   * once stored, the room's occupancy on that day grows by exactly that booking.
   */
  lemma AddedGuestIsCurrent(f: GuestForm, room: Room, e: Booking, today: Day, freshGuestId: string,
                            bookings: seq<Booking>, target: Day, id: string, createdAt: int)
    requires IsCurrent(e, room, target)
    requires AddGuest(f, room, Some(e), today, freshGuestId).Ok?
    ensures var added := Booking(id, createdAt, AddGuest(f, room, Some(e), today, freshGuestId).value);
            CurrentBookings(room, bookings + [added], target) == CurrentBookings(room, bookings, target) + [added]
  {
    var added := Booking(id, createdAt, AddGuest(f, room, Some(e), today, freshGuestId).value);
    FilterAppend(bookings, [added], b => IsCurrent(b, room, target));
    assert IsCurrent(added, room, target);
  }

  /** When `canAddGuest` holds, storing one more current guest keeps the room within its capacity. */
  lemma CanAddGuestKeepsCapacity(room: Room, bookings: seq<Booking>, target: Day, added: Booking)
    requires CanAddGuest(room, |CurrentBookings(room, bookings, target)|)
    ensures |CurrentBookings(room, bookings + [added], target)| <= room.capacity.value
  {
    FilterAppend(bookings, [added], b => IsCurrent(b, room, target));
  }

  /** The per-dialog state the source updates step by step: the guest selection and the add-guest form. */
  class DetailsState {
    var selectedGuestId: string
    var isAddingGuest: bool
    var form: GuestForm

    constructor ()
      ensures selectedGuestId == "" && !isAddingGuest && form == EmptyGuestForm
    {
      selectedGuestId := "";
      isAddingGuest := false;
      form := EmptyGuestForm;
    }

    /** A click on the card of booking `id`. */
    method ClickGuest(id: string)
      modifies this
      ensures selectedGuestId == ToggleSelection(old(selectedGuestId), id)
      ensures isAddingGuest == old(isAddingGuest) && form == old(form)
    {
      selectedGuestId := if selectedGuestId == id then "" else id;
    }

    /**
     * The add-guest button: an incomplete form alerts and stays as it is; otherwise the
     * booking is handed on, the form closes and every field is cleared.
     */
    method SubmitAddGuest(room: Room, effective: Option<Booking>, today: Day, freshGuestId: string)
      returns (r: Result<BookingData, AddGuestError>)
      modifies this
      ensures r == AddGuest(old(form), room, effective, today, freshGuestId)
      ensures selectedGuestId == old(selectedGuestId)
      ensures r.Err? ==> isAddingGuest == old(isAddingGuest) && form == old(form)
      ensures r.Ok? ==> !isAddingGuest && form == EmptyGuestForm
    {
      r := AddGuest(form, room, effective, today, freshGuestId);
      if r.Err? {
        return;
      }
      isAddingGuest := false;
      form := form.(name := "");
      form := form.(phone := "");
      form := form.(age := "");
      form := form.(address := "");
      form := form.(gender := Male);
      form := form.(passport := "");
    }
  }
}
