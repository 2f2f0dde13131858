/**
 * The front-desk dashboard: the list of bookings and the room records it keeps,
 * the room click that may open the booking dialog, the booking handler that
 * appends a booking and marks its room, the room filters, the status counts and
 * the recent-bookings excerpt.
 */
module BookingSystem {
  import opened Wrappers
  import opened Seqs
  import opened Text
  import opened BookingTypes

  /** The status select: every status, or one of the four legacy statuses. */
  datatype StatusChoice = AnyStatus | StatusIs(status: LegacyStatus)

  /** The room-type select: every type, or one type. */
  datatype TypeChoice = AnyType | TypeIs(roomType: RoomType)

  /** The search box: empty matches every room, otherwise the number must contain the term, ignoring case. */
  predicate MatchesSearch(room: Room, searchTerm: string) {
    searchTerm == "" || Contains(ToLower(room.number), ToLower(searchTerm))
  }

  predicate MatchesStatus(room: Room, choice: StatusChoice) {
    choice.AnyStatus? || room.status == Some(choice.status)
  }

  predicate MatchesType(room: Room, choice: TypeChoice) {
    choice.AnyType? || room.roomType == choice.roomType
  }

  /** `filteredRooms`: the rooms passing all three filters, in their stored order. */
  function FilteredRooms(rooms: seq<Room>, searchTerm: string, status: StatusChoice, roomType: TypeChoice): (r: seq<Room>)
    ensures forall x :: x in r <==>
      x in rooms && MatchesSearch(x, searchTerm) && MatchesStatus(x, status) && MatchesType(x, roomType)
  {
    Filter(rooms, (x: Room) => MatchesSearch(x, searchTerm) && MatchesStatus(x, status) && MatchesType(x, roomType))
  }

  /** With no search term and both selects on "all", every room is listed. */
  lemma NoFilterListsAll(rooms: seq<Room>)
    ensures FilteredRooms(rooms, "", AnyStatus, AnyType) == rooms
  {
    FilterKeepsAll(rooms, (x: Room) => MatchesSearch(x, "") && MatchesStatus(x, AnyStatus) && MatchesType(x, AnyType));
  }

  /** The empty-term shortcut changes nothing: every number contains the empty term. */
  lemma EmptySearchMatchesAnyway(room: Room)
    ensures Contains(ToLower(room.number), ToLower(""))
  {
    ContainsEmpty(ToLower(room.number));
  }

  /** Choosing a status narrows the list: it is the unconstrained list, filtered by the status. */
  lemma StatusChoiceNarrows(rooms: seq<Room>, searchTerm: string, status: LegacyStatus, roomType: TypeChoice)
    ensures FilteredRooms(rooms, searchTerm, StatusIs(status), roomType)
            == Filter(FilteredRooms(rooms, searchTerm, AnyStatus, roomType), (x: Room) => x.status == Some(status))
  {
    FilterFilter(rooms,
      (x: Room) => MatchesSearch(x, searchTerm) && MatchesStatus(x, AnyStatus) && MatchesType(x, roomType),
      (x: Room) => x.status == Some(status),
      (x: Room) => MatchesSearch(x, searchTerm) && MatchesStatus(x, StatusIs(status)) && MatchesType(x, roomType));
  }

  /** The counts shown on the dashboard. */
  datatype Stats = Stats(total: nat, available: nat, occupied: nat, booked: nat, reserved: nat)

  function CountStatus(rooms: seq<Room>, s: LegacyStatus): (n: nat)
    ensures n <= |rooms|
  {
    Count(rooms, (x: Room) => x.status == Some(s))
  }

  function CountUnset(rooms: seq<Room>): (n: nat)
    ensures n <= |rooms|
  {
    Count(rooms, (x: Room) => x.status.None?)
  }

  /** `getStats`. */
  function GetStats(rooms: seq<Room>): (s: Stats)
    ensures s.total == |rooms|
  {
    Stats(|rooms|, CountStatus(rooms, Available), CountStatus(rooms, LegacyStatus.Occupied),
          CountStatus(rooms, LegacyStatus.Booked), CountStatus(rooms, Reserved))
  }

  /** Every room is counted once: the four counts and the rooms without a status make up the total. */
  lemma {:induction false} StatsPartition(rooms: seq<Room>)
    ensures var s := GetStats(rooms);
            s.available + s.occupied + s.booked + s.reserved + CountUnset(rooms) == s.total
  {
    if rooms != [] {
      StatsPartition(rooms[1..]);
      var tail := rooms[1..];
      assert CountStatus(rooms, Available) == (if rooms[0].status == Some(Available) then 1 else 0) + CountStatus(tail, Available);
      assert CountStatus(rooms, LegacyStatus.Occupied)
        == (if rooms[0].status == Some(LegacyStatus.Occupied) then 1 else 0) + CountStatus(tail, LegacyStatus.Occupied);
      assert CountStatus(rooms, LegacyStatus.Booked)
        == (if rooms[0].status == Some(LegacyStatus.Booked) then 1 else 0) + CountStatus(tail, LegacyStatus.Booked);
      assert CountStatus(rooms, Reserved) == (if rooms[0].status == Some(Reserved) then 1 else 0) + CountStatus(tail, Reserved);
      assert CountUnset(rooms) == (if rooms[0].status.None? then 1 else 0) + CountUnset(tail);
      var t := GetStats(tail);
      assert t.available + t.occupied + t.booked + t.reserved + CountUnset(tail) == |tail|;
      match rooms[0].status {
        case None =>
        case Some(st) => assert st == Available || st == LegacyStatus.Occupied || st == LegacyStatus.Booked || st == Reserved;
      }
    }
  }

  /** So the four counts never exceed the number of rooms. */
  lemma StatsWithinTotal(rooms: seq<Room>)
    ensures var s := GetStats(rooms); s.available + s.occupied + s.booked + s.reserved <= s.total
  {
    StatsPartition(rooms);
  }

  /** The room records after a booking for `roomId`: that room marked booked, every other room as it was. */
  function MarkBooked(rooms: seq<Room>, roomId: string): (r: seq<Room>)
    ensures |r| == |rooms|
    ensures forall i :: 0 <= i < |rooms| && rooms[i].id != roomId ==> r[i] == rooms[i]
    ensures forall i :: 0 <= i < |rooms| && rooms[i].id == roomId ==>
              r[i] == rooms[i].(status := Some(LegacyStatus.Booked))
  {
    if rooms == [] then []
    else
      var head := if rooms[0].id == roomId then rooms[0].(status := Some(LegacyStatus.Booked)) else rooms[0];
      [head] + MarkBooked(rooms[1..], roomId)
  }

  /** Marking the same room twice is marking it once. */
  lemma MarkBookedIdempotent(rooms: seq<Room>, roomId: string)
    ensures MarkBooked(MarkBooked(rooms, roomId), roomId) == MarkBooked(rooms, roomId)
  {
  }

  /** Marking a room never lowers the booked count, and raises it by the number of such rooms not booked before. */
  lemma {:induction false} MarkBookedCount(rooms: seq<Room>, roomId: string)
    ensures CountStatus(MarkBooked(rooms, roomId), LegacyStatus.Booked)
            == CountStatus(rooms, LegacyStatus.Booked)
               + Count(rooms, (x: Room) => x.id == roomId && x.status != Some(LegacyStatus.Booked))
  {
    if rooms != [] {
      MarkBookedCount(rooms[1..], roomId);
      assert MarkBooked(rooms, roomId)[1..] == MarkBooked(rooms[1..], roomId);
    }
  }

  /** `bookings.slice(-5).reverse()`: the last five bookings (or all, when fewer), newest first. */
  function RecentBookings(bookings: seq<Booking>): (r: seq<Booking>)
    ensures |r| == if |bookings| < 5 then |bookings| else 5
    ensures forall i :: 0 <= i < |r| ==> r[i] == bookings[|bookings| - 1 - i]
  {
    var n := if |bookings| < 5 then |bookings| else 5;
    seq(n, i requires 0 <= i < n => bookings[|bookings| - 1 - i])
  }

  /** A booking just added heads the recent list, followed by the newest earlier ones. */
  lemma NewestFirst(bookings: seq<Booking>, b: Booking)
    ensures RecentBookings(bookings + [b])[0] == b
    ensures RecentBookings(bookings + [b])[1..] == RecentBookings(bookings)[..|RecentBookings(bookings + [b])| - 1]
  {
    var after := RecentBookings(bookings + [b]);
    var before := RecentBookings(bookings);
    assert |after| - 1 <= |before|;
    forall i | 0 <= i < |after| - 1
      ensures after[1..][i] == before[i]
    {
      assert after[i + 1] == (bookings + [b])[|bookings| - 1 - i];
    }
  }

  /** The dashboard's state. */
  class Dashboard {
    var bookings: seq<Booking>
    var roomsData: seq<Room>
    var selectedRoom: Option<Room>
    var isBookingDialogOpen: bool

    constructor (rooms: seq<Room>)
      ensures bookings == [] && roomsData == rooms
      ensures selectedRoom.None? && !isBookingDialogOpen
    {
      bookings := [];
      roomsData := rooms;
      selectedRoom := None;
      isBookingDialogOpen := false;
    }

    /** `handleRoomClick`: the room is selected; the booking dialog opens only for an available room. */
    method HandleRoomClick(room: Room)
      modifies this
      ensures selectedRoom == Some(room)
      ensures isBookingDialogOpen == (old(isBookingDialogOpen) || room.status == Some(Available))
      ensures bookings == old(bookings) && roomsData == old(roomsData)
    {
      selectedRoom := Some(room);
      if room.status == Some(Available) {
        isBookingDialogOpen := true;
      }
    }

    /** Closing the booking dialog also clears the selected room. */
    method CloseBookingDialog()
      modifies this
      ensures !isBookingDialogOpen && selectedRoom.None?
      ensures bookings == old(bookings) && roomsData == old(roomsData)
    {
      isBookingDialogOpen := false;
      selectedRoom := None;
    }

    /**
     * `handleBookRoom`: the booking, given its id and creation time (`Date.now()` and
     * `new Date()`), goes at the end of the list, and its room is marked booked.
     */
    method HandleBookRoom(data: BookingData, id: string, createdAt: int)
      modifies this
      ensures bookings == old(bookings) + [Booking(id, createdAt, data)]
      ensures roomsData == MarkBooked(old(roomsData), data.roomId)
      ensures selectedRoom == old(selectedRoom) && isBookingDialogOpen == old(isBookingDialogOpen)
    {
      bookings := bookings + [Booking(id, createdAt, data)];
      roomsData := MarkBooked(roomsData, data.roomId);
    }
  }
}
