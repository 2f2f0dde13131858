/**
 * The record shapes and status enumerations of the front desk, and the two
 * derived answers every component asks of them: the status of a room on a day
 * and the status of a voucher.
 *
 * Dates are day numbers. Every comparison in the core first moves a date to
 * local midnight, so on day numbers that normalisation is the identity.
 */
module BookingTypes {
  import opened Wrappers
  import opened Seqs

  /** A calendar day (days since an arbitrary epoch). */
  type Day = int

  /**
   * Room categories. `DoubleWithBalcony` is not one of the declared categories,
   * but the room generator hands it out and the room grid and details dialog test for it.
   */
  datatype RoomType =
    | Double | DoubleImproved | Single | Family | LuxuryDouble
    | SingleImproved | Luxury | FamilyImproved | DoubleWithBalcony

  /**
   * The `status` string that the room generator, the room grid and the dashboard
   * store on a room record although the declared room shape has no such field.
   */
  datatype LegacyStatus = Available | Occupied | Booked | Reserved

  /** The status a room has on a given day, as computed from the bookings. */
  datatype RoomStatus = Free | Booked | Occupied | Blocked

  /** The booking lifecycle states. */
  datatype BookingStatus = Confirmed | Booked | CheckedIn | Completed | Cancelled

  datatype Gender = Male | Female

  datatype Position = Position(row: nat, col: nat)

  /**
   * A room record. `building` and `capacity` are optional because the generated
   * rooms carry neither; a missing `blocked` flag reads as false, so it is a plain
   * boolean. `status` is the undeclared legacy field.
   */
  datatype Room = Room(
    id: string,
    number: string,
    roomType: RoomType,
    floor: int,
    building: Option<string>,
    position: Position,
    capacity: Option<int>,
    blocked: bool,
    status: Option<LegacyStatus>)

  /**
   * A booking as the dialogs build it, before the dashboard gives it an id and a
   * creation time. `guestAge` is `None` where the source stores NaN.
   */
  datatype BookingData = BookingData(
    roomId: string,
    guestId: string,
    guestName: string,
    guestPhone: string,
    guestAge: Option<int>,
    guestAddress: string,
    guestGender: Gender,
    guestPassport: Option<string>,
    checkIn: Day,
    checkOut: Day,
    duration: int,
    status: BookingStatus,
    totalAmount: Option<int>,
    voucherNumber: Option<string>,
    organizationId: Option<string>)

  /** A stored booking. */
  datatype Booking = Booking(id: string, createdAt: int, info: BookingData)

  /** A calendar date as year, month (1 to 12) and day of month. */
  datatype CivilDate = CivilDate(year: int, month: int, day: int)

  datatype Guest = Guest(
    id: string,
    firstName: string,
    lastName: string,
    middleName: Option<string>,
    fullName: string,
    phone: string,
    age: int,
    dateOfBirth: CivilDate,
    address: string,
    passportNumber: Option<string>,
    gender: Gender)

  /** `checkIn <= d < checkOut`: the half-open stay of `b` includes day `d`. */
  predicate CoversDay(b: Booking, d: Day) {
    b.info.checkIn <= d < b.info.checkOut
  }

  /** `b` is a checked-in stay in room `roomId` on day `d`. */
  predicate OccupiesOn(b: Booking, roomId: string, d: Day) {
    b.info.roomId == roomId && b.info.status.CheckedIn? && CoversDay(b, d)
  }

  /** `b` is a booked or confirmed stay in room `roomId` on day `d`. */
  predicate ReservesOn(b: Booking, roomId: string, d: Day) {
    b.info.roomId == roomId && (b.info.status.Booked? || b.info.status.Confirmed?) && CoversDay(b, d)
  }

  /**
   * `computeRoomStatus`: blocked first, then occupied by a checked-in stay, then
   * booked by a booked or confirmed stay, otherwise free.
   */
  function ComputeRoomStatus(room: Room, date: Day, bookings: seq<Booking>): (s: RoomStatus)
    ensures room.blocked ==> s == RoomStatus.Blocked
    ensures s == RoomStatus.Blocked ==> room.blocked
    ensures s == RoomStatus.Occupied <==>
      !room.blocked && exists i :: 0 <= i < |bookings| && OccupiesOn(bookings[i], room.id, date)
    ensures s == RoomStatus.Booked <==>
      && !room.blocked
      && (forall i :: 0 <= i < |bookings| ==> !OccupiesOn(bookings[i], room.id, date))
      && exists i :: 0 <= i < |bookings| && ReservesOn(bookings[i], room.id, date)
    ensures s == RoomStatus.Free <==>
      && !room.blocked
      && forall i :: 0 <= i < |bookings| ==>
           !OccupiesOn(bookings[i], room.id, date) && !ReservesOn(bookings[i], room.id, date)
  {
    if room.blocked then RoomStatus.Blocked
    else if Find(bookings, b => OccupiesOn(b, room.id, date)).Some? then RoomStatus.Occupied
    else if Find(bookings, b => ReservesOn(b, room.id, date)).Some? then RoomStatus.Booked
    else RoomStatus.Free
  }

  /** A blocked room is blocked whatever bookings are supplied. */
  lemma BlockedIgnoresBookings(room: Room, date: Day, xs: seq<Booking>, ys: seq<Booking>)
    requires room.blocked
    ensures ComputeRoomStatus(room, date, xs) == ComputeRoomStatus(room, date, ys) == RoomStatus.Blocked
  {
  }

  /** A checked-in stay that includes the day makes an unblocked room occupied. */
  lemma CheckedInMeansOccupied(room: Room, date: Day, bookings: seq<Booking>, i: nat)
    requires !room.blocked && i < |bookings|
    requires bookings[i].info.roomId == room.id && bookings[i].info.status.CheckedIn?
    requires bookings[i].info.checkIn <= date < bookings[i].info.checkOut
    ensures ComputeRoomStatus(room, date, bookings) == RoomStatus.Occupied
  {
    assert OccupiesOn(bookings[i], room.id, date);
  }

  /** An unblocked room with no bookings is free. */
  lemma NoBookingsFree(room: Room, date: Day)
    requires !room.blocked
    ensures ComputeRoomStatus(room, date, []) == RoomStatus.Free
  {
  }

  /** A booking that neither occupies nor reserves the room on that day, wherever it is inserted, has no effect. */
  lemma NeutralBookingIgnored(room: Room, date: Day, xs: seq<Booking>, b: Booking, ys: seq<Booking>)
    requires !OccupiesOn(b, room.id, date) && !ReservesOn(b, room.id, date)
    ensures ComputeRoomStatus(room, date, xs + [b] + ys) == ComputeRoomStatus(room, date, xs + ys)
  {
    var with := xs + [b] + ys;
    var without := xs + ys;
    forall i | 0 <= i < |without|
      ensures without[i] == with[if i < |xs| then i else i + 1]
    {
    }
    forall i | 0 <= i < |with| && i != |xs|
      ensures with[i] == without[if i < |xs| then i else i - 1]
    {
    }
  }

  /** Bookings for other rooms never change a room's status. */
  lemma OtherRoomIgnored(room: Room, date: Day, xs: seq<Booking>, b: Booking, ys: seq<Booking>)
    requires b.info.roomId != room.id
    ensures ComputeRoomStatus(room, date, xs + [b] + ys) == ComputeRoomStatus(room, date, xs + ys)
  {
    NeutralBookingIgnored(room, date, xs, b, ys);
  }

  /** Cancelled and completed bookings never change a room's status. */
  lemma ClosedBookingIgnored(room: Room, date: Day, xs: seq<Booking>, b: Booking, ys: seq<Booking>)
    requires b.info.status.Cancelled? || b.info.status.Completed?
    ensures ComputeRoomStatus(room, date, xs + [b] + ys) == ComputeRoomStatus(room, date, xs + ys)
  {
    NeutralBookingIgnored(room, date, xs, b, ys);
  }

  /** Half-open stays: on the check-out day, or before the check-in day, a booking has no effect. */
  lemma OutsideStayIgnored(room: Room, date: Day, xs: seq<Booking>, b: Booking, ys: seq<Booking>)
    requires date == b.info.checkOut || date < b.info.checkIn
    ensures ComputeRoomStatus(room, date, xs + [b] + ys) == ComputeRoomStatus(room, date, xs + ys)
  {
    NeutralBookingIgnored(room, date, xs, b, ys);
  }

  datatype VoucherState = Active | Inactive

  /** What `getVoucherStatus` reports; the optional parts are absent when no booking carries the voucher. */
  datatype VoucherStatus = VoucherStatus(
    voucherNumber: string,
    status: VoucherState,
    bookingId: Option<string>,
    guestName: Option<string>,
    checkIn: Option<Day>,
    checkOut: Option<Day>)

  predicate CarriesVoucher(b: Booking, voucherNumber: string, organizationId: string) {
    b.info.voucherNumber == Some(voucherNumber) && b.info.organizationId == Some(organizationId)
  }

  /** `v` describes booking `b`: its id, guest and dates, and active exactly when `b` is checked in, booked or confirmed. */
  predicate Reports(v: VoucherStatus, b: Booking) {
    && v.bookingId == Some(b.id) && v.guestName == Some(b.info.guestName)
    && v.checkIn == Some(b.info.checkIn) && v.checkOut == Some(b.info.checkOut)
    && (v.status == Active <==> b.info.status.CheckedIn? || b.info.status.Booked? || b.info.status.Confirmed?)
  }

  /**
   * `getVoucherStatus`: the first booking carrying this voucher of this organisation
   * decides; it is active exactly when that booking is checked in, booked or confirmed.
   */
  function GetVoucherStatus(voucherNumber: string, organizationId: string, bookings: seq<Booking>): (v: VoucherStatus)
    ensures v.voucherNumber == voucherNumber
    ensures (forall i :: 0 <= i < |bookings| ==> !CarriesVoucher(bookings[i], voucherNumber, organizationId))
            ==> v == VoucherStatus(voucherNumber, Inactive, None, None, None, None)
    ensures v.bookingId.None? <==>
            forall i :: 0 <= i < |bookings| ==> !CarriesVoucher(bookings[i], voucherNumber, organizationId)
    ensures forall k :: 0 <= k < |bookings| && CarriesVoucher(bookings[k], voucherNumber, organizationId)
                        && (forall j :: 0 <= j < k ==> !CarriesVoucher(bookings[j], voucherNumber, organizationId))
                        ==> Reports(v, bookings[k])
  {
    match Find(bookings, b => CarriesVoucher(b, voucherNumber, organizationId))
    case None => VoucherStatus(voucherNumber, Inactive, None, None, None, None)
    case Some(k) =>
      var b := bookings[k];
      var active := b.info.status.CheckedIn? || b.info.status.Booked? || b.info.status.Confirmed?;
      VoucherStatus(voucherNumber, if active then Active else Inactive,
                    Some(b.id), Some(b.info.guestName), Some(b.info.checkIn), Some(b.info.checkOut))
  }
}
