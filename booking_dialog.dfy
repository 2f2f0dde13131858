/**
 * The new-booking dialog: the form state it resets whenever it opens, and the
 * chain of checks `handleCreateBooking` runs before it hands a booking to its
 * callback (required fields, blocked room, positive stay, room capacity), with
 * the choice of initial status and the reuse of a known guest.
 */
module BookingDialog {
  import opened Wrappers
  import opened Seqs
  import opened Text
  import opened BookingTypes

  /** Why the dialog alerted instead of creating a booking. */
  datatype Rejection =
    | MissingFields
    | RoomBlocked(roomNumber: string)
    | InvalidDateRange
    | CapacityExceeded(roomNumber: string, overlapping: nat, capacity: int)

  /** The form fields as they stand when the create button is pressed. */
  datatype Form = Form(
    selectedRoomId: string,
    guestName: string,
    guestPhone: string,
    guestAge: string,
    guestAddress: string,
    guestGender: Gender,
    guestPassport: Option<string>,
    checkIn: Day,
    checkOut: Day,
    voucherNumber: string,
    selectedOrganizationId: string)

  /** Room id, name, phone, age and address are all non-empty. */
  predicate HasRequiredFields(f: Form) {
    f.selectedRoomId != "" && f.guestName != "" && f.guestPhone != "" && f.guestAge != "" && f.guestAddress != ""
  }

  /** `rooms.find(r => r.id === id)`. */
  function FindRoom(rooms: seq<Room>, id: string): (r: Option<Room>)
    ensures r.Some? ==> r.value in rooms && r.value.id == id
    ensures r.Some? ==> exists k :: 0 <= k < |rooms| && rooms[k] == r.value && forall j :: 0 <= j < k ==> rooms[j].id != id
    ensures r.None? <==> forall i :: 0 <= i < |rooms| ==> rooms[i].id != id
  {
    match Find(rooms, (room: Room) => room.id == id)
    case None => None
    case Some(k) => Some(rooms[k])
  }

  /** An existing booking that counts against the room for the requested stay `[checkIn, checkOut)`. */
  predicate Overlaps(b: Booking, roomId: string, checkIn: Day, checkOut: Day) {
    && b.info.roomId == roomId
    && !b.info.status.Cancelled? && !b.info.status.Completed?
    && checkIn < b.info.checkOut && checkOut > b.info.checkIn
  }

  /** The bookings the capacity check counts. */
  function OverlappingBookings(bookings: seq<Booking>, roomId: string, checkIn: Day, checkOut: Day): (r: seq<Booking>)
    ensures forall b :: b in r <==> b in bookings && Overlaps(b, roomId, checkIn, checkOut)
  {
    Filter(bookings, b => Overlaps(b, roomId, checkIn, checkOut))
  }

  /**
   * The room is full: `overlapping >= capacity`. A room record without a capacity
   * compares as `undefined`, and `n >= undefined` is false, so such a room is never full.
   */
  predicate IsFull(overlapping: nat, capacity: Option<int>) {
    capacity.Some? && overlapping >= capacity.value
  }

  /** The guest a request matches: same phone, or same passport when a passport was entered. */
  predicate MatchesGuest(g: Guest, phone: string, passport: Option<string>) {
    g.phone == phone || (passport.Some? && passport.value != "" && g.passportNumber == passport)
  }

  /** The id of the first guest on file matching the request, if any. */
  function ExistingGuestId(guests: seq<Guest>, phone: string, passport: Option<string>): (r: Option<string>)
    ensures r.None? <==> forall i :: 0 <= i < |guests| ==> !MatchesGuest(guests[i], phone, passport)
    ensures r.Some? ==> exists k :: 0 <= k < |guests| && MatchesGuest(guests[k], phone, passport) && r.value == guests[k].id
                                    && forall j :: 0 <= j < k ==> !MatchesGuest(guests[j], phone, passport)
  {
    match Find(guests, (g: Guest) => MatchesGuest(g, phone, passport))
    case None => None
    case Some(k) => Some(guests[k].id)
  }

  /** A booking whose check-in is after today waits as confirmed; one starting today or earlier is booked. */
  function InitialStatus(checkIn: Day, today: Day): (s: BookingStatus)
    ensures s.Confirmed? <==> checkIn > today
    ensures s.Booked? <==> checkIn <= today
  {
    if checkIn > today then Confirmed else BookingStatus.Booked
  }

  /** `parseInt(guestAge) || 0`: the age typed, or 0 when it does not parse. */
  function AgeValue(text: string): (age: int)
    ensures ParseInt(text).None? ==> age == 0
    ensures ParseInt(text).Some? ==> age == ParseInt(text).value
  {
    ParseInt(text).GetOr(0)
  }

  /** The age a prefilled guest shows in the form is read back unchanged. */
  lemma PrefilledAgeReadBack(age: int)
    ensures AgeValue(IntToString(age)) == age
  {
    ParseIntOfIntToString(age);
  }

  /** The room selected in the form is known and blocked. */
  predicate SelectedRoomBlocked(f: Form, rooms: seq<Room>) {
    var room := FindRoom(rooms, f.selectedRoomId);
    room.Some? && room.value.blocked
  }

  /** The room selected in the form is known and already holds as many overlapping stays as its capacity. */
  predicate SelectedRoomFull(f: Form, rooms: seq<Room>, bookings: seq<Booking>) {
    var room := FindRoom(rooms, f.selectedRoomId);
    room.Some? && IsFull(|OverlappingBookings(bookings, f.selectedRoomId, f.checkIn, f.checkOut)|, room.value.capacity)
  }

  /** The booking the dialog hands to its callback once every check has passed. */
  predicate IsCreatedFrom(d: BookingData, f: Form, guests: seq<Guest>, today: Day, freshGuestId: string) {
    && d.roomId == f.selectedRoomId
    && d.guestId == ExistingGuestId(guests, f.guestPhone, f.guestPassport).GetOr(freshGuestId)
    && d.guestName == f.guestName && d.guestPhone == f.guestPhone && d.guestAddress == f.guestAddress
    && d.guestAge == Some(AgeValue(f.guestAge))
    && d.guestGender == f.guestGender && d.guestPassport == f.guestPassport
    && d.checkIn == f.checkIn && d.checkOut == f.checkOut && d.duration == f.checkOut - f.checkIn
    && d.status == InitialStatus(f.checkIn, today)
    && d.totalAmount.None?
    && d.voucherNumber == (if f.voucherNumber == "" then None else Some(f.voucherNumber))
    && d.organizationId == (if f.selectedOrganizationId == "none" then None else Some(f.selectedOrganizationId))
  }

  /**
   * `handleCreateBooking`. The checks run in order and the first failing one decides
   * the rejection; `today` and the fresh guest id stand for `new Date()` and `Date.now()`.
   */
  function CreateBooking(f: Form, rooms: seq<Room>, bookings: seq<Booking>, guests: seq<Guest>,
                         today: Day, freshGuestId: string): (r: Result<BookingData, Rejection>)
    ensures r == Err(MissingFields) <==> !HasRequiredFields(f)
    ensures (r.Err? && r.error.RoomBlocked?) <==> HasRequiredFields(f) && SelectedRoomBlocked(f, rooms)
    ensures r == Err(InvalidDateRange) <==>
      HasRequiredFields(f) && !SelectedRoomBlocked(f, rooms) && f.checkOut <= f.checkIn
    ensures (r.Err? && r.error.CapacityExceeded?) <==>
      HasRequiredFields(f) && !SelectedRoomBlocked(f, rooms) && f.checkIn < f.checkOut
      && SelectedRoomFull(f, rooms, bookings)
    ensures r.Ok? ==> r.value.duration > 0 && IsCreatedFrom(r.value, f, guests, today, freshGuestId)
  {
    if !HasRequiredFields(f) then Err(MissingFields)
    else
      var selectedRoom := FindRoom(rooms, f.selectedRoomId);
      if selectedRoom.Some? && selectedRoom.value.blocked then Err(RoomBlocked(selectedRoom.value.number))
      else
        var duration := f.checkOut - f.checkIn;
        if duration <= 0 then Err(InvalidDateRange)
        else
          var overlapping := OverlappingBookings(bookings, f.selectedRoomId, f.checkIn, f.checkOut);
          if selectedRoom.Some? && IsFull(|overlapping|, selectedRoom.value.capacity) then
            Err(CapacityExceeded(selectedRoom.value.number, |overlapping|, selectedRoom.value.capacity.value))
          else
            Ok(BookingData(
              f.selectedRoomId,
              ExistingGuestId(guests, f.guestPhone, f.guestPassport).GetOr(freshGuestId),
              f.guestName, f.guestPhone, Some(AgeValue(f.guestAge)), f.guestAddress, f.guestGender,
              f.guestPassport, f.checkIn, f.checkOut, duration, InitialStatus(f.checkIn, today), None,
              if f.voucherNumber == "" then None else Some(f.voucherNumber),
              if f.selectedOrganizationId == "none" then None else Some(f.selectedOrganizationId)))
  }

  /** A room id that is not in the room list skips both the blocked check and the capacity check. */
  lemma UnknownRoomSkipsRoomChecks(f: Form, rooms: seq<Room>, bookings: seq<Booking>, guests: seq<Guest>,
                                   today: Day, freshGuestId: string)
    requires forall i :: 0 <= i < |rooms| ==> rooms[i].id != f.selectedRoomId
    requires HasRequiredFields(f) && f.checkIn < f.checkOut
    ensures CreateBooking(f, rooms, bookings, guests, today, freshGuestId).Ok?
  {
  }

  /**
   * Bookings for other rooms, cancelled or completed bookings, and stays that end on or
   * before the requested check-in or start on or after the requested check-out are never counted.
   */
  lemma NonOverlappingNeverCounted(bookings: seq<Booking>, b: Booking, roomId: string, checkIn: Day, checkOut: Day)
    requires b.info.roomId != roomId || b.info.status.Cancelled? || b.info.status.Completed?
             || b.info.checkOut <= checkIn || checkOut <= b.info.checkIn
    ensures OverlappingBookings(bookings + [b], roomId, checkIn, checkOut) == OverlappingBookings(bookings, roomId, checkIn, checkOut)
  {
    FilterAppend(bookings, [b], b' => Overlaps(b', roomId, checkIn, checkOut));
  }

  /** Back-to-back stays: a request starting on the day an existing stay ends does not overlap it. */
  lemma BackToBackDoesNotOverlap(b: Booking, roomId: string, checkOut: Day)
    ensures !Overlaps(b, roomId, b.info.checkOut, checkOut)
  {
  }

  /** A stay that is counted shares at least one night with the request. */
  lemma OverlapSharesANight(b: Booking, roomId: string, checkIn: Day, checkOut: Day)
    requires b.info.checkIn < b.info.checkOut && checkIn < checkOut
    requires Overlaps(b, roomId, checkIn, checkOut)
    ensures var night := if checkIn < b.info.checkIn then b.info.checkIn else checkIn;
            CoversDay(b, night) && checkIn <= night < checkOut
  {
  }

  function TestRoom(capacity: int): Room {
    Room("room-1", "101", Double, 1, Some("1"), Position(0, 0), Some(capacity), false, None)
  }

  function TestStay(id: string, checkIn: Day, checkOut: Day): Booking {
    Booking(id, 0, BookingData("room-1", "guest-" + id, "Guest", "+1", Some(30), "Address", Male, None,
                               checkIn, checkOut, checkOut - checkIn, BookingStatus.Booked, None, None, None))
  }

  /** In a one-room list, looking up that room's id finds it. */
  lemma FindOnlyRoom(room: Room)
    ensures FindRoom([room], room.id) == Some(room)
  {
  }

  function TestRequest(checkIn: Day, checkOut: Day): Form {
    Form("room-1", "New Guest", "+2", "40", "Address", Female, Some(""), checkIn, checkOut, "", "none")
  }

  /** A room for two holding stays on days 1 to 5 and 3 to 7 refuses a third stay on days 4 to 6. */
  lemma FullRoomRefuses()
    ensures CreateBooking(TestRequest(4, 6), [TestRoom(2)], [TestStay("a", 1, 5), TestStay("b", 3, 7)], [], 0, "g").Err?
  {
    var bookings := [TestStay("a", 1, 5), TestStay("b", 3, 7)];
    FindOnlyRoom(TestRoom(2));
    BothStaysOverlap();
    assert |OverlappingBookings(bookings, "room-1", 4, 6)| == 2;
  }

  /** Both stays on days 1 to 5 and 3 to 7 overlap a request for days 4 to 6. */
  lemma BothStaysOverlap()
    ensures var bookings := [TestStay("a", 1, 5), TestStay("b", 3, 7)];
            OverlappingBookings(bookings, "room-1", 4, 6) == bookings
  {
  }

  /** The same room accepts a stay starting on day 7, the day the later stay leaves. */
  lemma FullRoomFreesAtCheckOut()
    ensures CreateBooking(TestRequest(7, 9), [TestRoom(2)], [TestStay("a", 1, 5), TestStay("b", 3, 7)], [], 0, "g").Ok?
  {
    var bookings := [TestStay("a", 1, 5), TestStay("b", 3, 7)];
    FindOnlyRoom(TestRoom(2));
    assert OverlappingBookings(bookings, "room-1", 7, 9) == [];
  }

  /**
   * A room for two holding stays on days 1 to 5 and 3 to 7 refuses a third stay
   * on days 4 to 6, and accepts one starting on day 7, the day the later stay leaves.
   */
  lemma CapacityScenario()
    ensures var bookings := [TestStay("a", 1, 5), TestStay("b", 3, 7)];
            && CreateBooking(TestRequest(4, 6), [TestRoom(2)], bookings, [], 0, "g").Err?
            && CreateBooking(TestRequest(7, 9), [TestRoom(2)], bookings, [], 0, "g").Ok?
  {
    FullRoomRefuses();
    FullRoomFreesAtCheckOut();
  }

  /** A room for two holding one stay on days 1 to 5 still accepts a second guest for days 3 to 7. */
  lemma SecondOverlappingStayAccepted()
    ensures CreateBooking(TestRequest(3, 7), [TestRoom(2)], [TestStay("a", 1, 5)], [], 0, "g").Ok?
  {
    FindOnlyRoom(TestRoom(2));
    assert OverlappingBookings([TestStay("a", 1, 5)], "room-1", 3, 7) == [TestStay("a", 1, 5)];
  }

  /** The room the dialog preselects: the one passed by id, else the one passed as an object, else none. */
  function OpenedRoomId(propSelectedRoomId: string, room: Option<Room>): (id: string)
    ensures propSelectedRoomId != "" ==> id == propSelectedRoomId
    ensures propSelectedRoomId == "" && room.Some? ==> id == room.value.id
    ensures propSelectedRoomId == "" && room.None? ==> id == ""
  {
    if propSelectedRoomId != "" then propSelectedRoomId
    else if room.Some? && room.value.id != "" then room.value.id
    else ""
  }

  /** The text shown in the room search box: the preselected room's number, when that room is known. */
  function OpenedSearchTerm(propSelectedRoomId: string, room: Option<Room>, rooms: seq<Room>): (term: string)
    ensures propSelectedRoomId != "" && FindRoom(rooms, propSelectedRoomId).Some? ==>
              term == FindRoom(rooms, propSelectedRoomId).value.number
    ensures propSelectedRoomId != "" && FindRoom(rooms, propSelectedRoomId).None? ==> term == ""
    ensures propSelectedRoomId == "" && room.Some? && room.value.id != "" ==> term == room.value.number
    ensures propSelectedRoomId == "" && !(room.Some? && room.value.id != "") ==> term == ""
  {
    if propSelectedRoomId != "" then
      match FindRoom(rooms, propSelectedRoomId)
      case Some(r) => r.number
      case None => ""
    else if room.Some? && room.value.id != "" then room.value.number
    else ""
  }

  /**
   * The form right after the dialog opens: guest fields cleared or copied from the
   * prefilled guest, a one-night stay from the picked day (or today), no voucher and no organisation.
   */
  function OpenedForm(selectedDate: Option<Day>, today: Day, propSelectedRoomId: string,
                      room: Option<Room>, prefilledGuest: Option<Guest>): (f: Form)
    ensures f.selectedRoomId == OpenedRoomId(propSelectedRoomId, room)
    ensures f.checkIn == selectedDate.GetOr(today) && f.checkOut == f.checkIn + 1
    ensures f.voucherNumber == "" && f.selectedOrganizationId == "none"
    ensures prefilledGuest.None? ==>
      f.guestName == "" && f.guestPhone == "" && f.guestAge == "" && f.guestAddress == ""
      && f.guestGender == Male && f.guestPassport == Some("")
    ensures prefilledGuest.Some? ==>
      var g := prefilledGuest.value;
      && f.guestName == g.fullName && f.guestPhone == g.phone && f.guestAge == IntToString(g.age)
      && f.guestAddress == g.address && f.guestGender == g.gender && f.guestPassport == g.passportNumber
  {
    var checkIn := selectedDate.GetOr(today);
    var roomId := OpenedRoomId(propSelectedRoomId, room);
    match prefilledGuest
    case None => Form(roomId, "", "", "", "", Male, Some(""), checkIn, checkIn + 1, "", "none")
    case Some(g) =>
      Form(roomId, g.fullName, g.phone, IntToString(g.age), g.address, g.gender, g.passportNumber,
           checkIn, checkIn + 1, "", "none")
  }

  /** A prefilled guest's form has every required guest field that the guest record has. */
  lemma PrefilledFormHasAge(selectedDate: Option<Day>, today: Day, propSelectedRoomId: string,
                            room: Option<Room>, g: Guest)
    ensures var f := OpenedForm(selectedDate, today, propSelectedRoomId, room, Some(g));
            f.guestAge != "" && AgeValue(f.guestAge) == g.age
  {
    PrefilledAgeReadBack(g.age);
  }

  /**
   * The dialog's form state. Opening the dialog (the effect on `isOpen`) clears
   * every field, then fills the room and, for a known guest, the guest's details.
   */
  class BookingForm {
    var selectedRoomId: string
    var roomSearchTerm: string
    var guestName: string
    var guestPhone: string
    var guestAge: string
    var guestAddress: string
    var guestGender: Gender
    var guestPassport: Option<string>
    var checkInDate: Day
    var checkOutDate: Day
    var voucherNumber: string
    var selectedOrganizationId: string

    /** The values `handleCreateBooking` reads. */
    function Values(): Form
      reads this
    {
      Form(selectedRoomId, guestName, guestPhone, guestAge, guestAddress, guestGender, guestPassport,
           checkInDate, checkOutDate, voucherNumber, selectedOrganizationId)
    }

    /** The initial state: empty fields, a stay from today to tomorrow, no organisation. */
    constructor (initialRoomId: string, today: Day)
      ensures Values() == Form(initialRoomId, "", "", "", "", Male, Some(""), today, today + 1, "", "none")
      ensures roomSearchTerm == ""
    {
      selectedRoomId := initialRoomId;
      roomSearchTerm := "";
      guestName, guestPhone, guestAge, guestAddress := "", "", "", "";
      guestGender := Male;
      guestPassport := Some("");
      checkInDate, checkOutDate := today, today + 1;
      voucherNumber := "";
      selectedOrganizationId := "none";
    }

    /**
     * The effect run when `isOpen` changes. `selectedDate` is the day picked in the
     * calendar, if any; `today` stands for `new Date()`. Closing leaves the form as it is.
     */
    method Open(isOpen: bool, selectedDate: Option<Day>, today: Day, propSelectedRoomId: string,
                room: Option<Room>, rooms: seq<Room>, prefilledGuest: Option<Guest>)
      modifies this
      ensures !isOpen ==> Values() == old(Values()) && roomSearchTerm == old(roomSearchTerm)
      ensures isOpen ==> Values() == OpenedForm(selectedDate, today, propSelectedRoomId, room, prefilledGuest)
      ensures isOpen ==> roomSearchTerm == OpenedSearchTerm(propSelectedRoomId, room, rooms)
    {
      if isOpen {
        var f := OpenedForm(selectedDate, today, propSelectedRoomId, room, prefilledGuest);
        selectedRoomId := f.selectedRoomId;
        roomSearchTerm := OpenedSearchTerm(propSelectedRoomId, room, rooms);
        guestName, guestPhone, guestAge, guestAddress := f.guestName, f.guestPhone, f.guestAge, f.guestAddress;
        guestGender, guestPassport := f.guestGender, f.guestPassport;
        checkInDate, checkOutDate := f.checkIn, f.checkOut;
        voucherNumber, selectedOrganizationId := f.voucherNumber, f.selectedOrganizationId;
      }
    }
  }

  /**
   * A dialog opened for a known guest, if the checks pass, books under that guest's
   * age unchanged (the age survives the trip through the text field).
   */
  lemma PrefilledGuestKeepsAge(f: Form, g: Guest, rooms: seq<Room>, bookings: seq<Booking>, guests: seq<Guest>,
                               today: Day, freshGuestId: string)
    requires f.guestAge == IntToString(g.age)
    requires CreateBooking(f, rooms, bookings, guests, today, freshGuestId).Ok?
    ensures CreateBooking(f, rooms, bookings, guests, today, freshGuestId).value.guestAge == Some(g.age)
  {
    PrefilledAgeReadBack(g.age);
  }
}
