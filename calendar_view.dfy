/**
 * The occupancy calendar: a seven-day window that moves by whole weeks, the
 * rooms of the chosen floor and building, the bookings shown in each cell, and
 * the two-click selection of a date range in one room.
 */
module CalendarView {
  import opened Wrappers
  import opened Seqs
  import opened BookingTypes
  import BookingDetails

  /** The seven days shown, from `start` on. */
  function WeekFrom(start: Day): (w: seq<Day>)
    ensures |w| == 7
    ensures forall i :: 0 <= i < 7 ==> w[i] == start + i
  {
    seq(7, i => start + i)
  }

  /** The first day after moving one week forward (`next`) or back. */
  function Navigate(d: Day, next: bool): (r: Day)
    ensures next ==> r == d + 7
    ensures !next ==> r == d - 7
  {
    d + (if next then 7 else -7)
  }

  /** Moving back undoes moving forward, and the other way round. */
  lemma NavigateRoundTrip(d: Day, next: bool)
    ensures Navigate(Navigate(d, next), !next) == d
  {
  }

  /** Consecutive windows tile the calendar: the next week starts the day after this week ends. */
  lemma NextWeekContinues(d: Day)
    ensures WeekFrom(d) + WeekFrom(Navigate(d, true)) == seq(14, i => d + i)
  {
    var both := WeekFrom(d) + WeekFrom(Navigate(d, true));
    forall i | 0 <= i < 14
      ensures both[i] == d + i
    {
      if i >= 7 {
        assert both[i] == WeekFrom(d + 7)[i - 7];
      }
    }
  }

  /** A booking shown on the calendar: checked in, booked or confirmed. */
  predicate IsActive(b: Booking) {
    b.info.status.CheckedIn? || b.info.status.Booked? || b.info.status.Confirmed?
  }

  /** A booking shown in the cell of room `roomId` on day `date`. */
  predicate InCell(b: Booking, roomId: string, date: Day) {
    b.info.roomId == roomId && CoversDay(b, date) && IsActive(b)
  }

  /** `getBookingsForRoomAndDate`: the active bookings of the room whose stay includes the day. */
  function BookingsForRoomAndDate(bookings: seq<Booking>, roomId: string, date: Day): (r: seq<Booking>)
    ensures forall b :: b in r <==> b in bookings && InCell(b, roomId, date)
  {
    Filter(bookings, b => InCell(b, roomId, date))
  }

  /** `getRoomBookings`: the active bookings of the room, whatever their dates. */
  function RoomBookings(bookings: seq<Booking>, roomId: string): (r: seq<Booking>)
    ensures forall b :: b in r <==> b in bookings && b.info.roomId == roomId && IsActive(b)
  {
    Filter(bookings, (b: Booking) => b.info.roomId == roomId && IsActive(b))
  }

  /** A cell shows the room's bookings that include the day, in the same order as the room's list. */
  lemma CellIsSliceOfRoomList(bookings: seq<Booking>, roomId: string, date: Day)
    ensures BookingsForRoomAndDate(bookings, roomId, date) == Filter(RoomBookings(bookings, roomId), b => CoversDay(b, date))
  {
    FilterFilter(bookings, (b: Booking) => b.info.roomId == roomId && IsActive(b), b => CoversDay(b, date), b => InCell(b, roomId, date));
  }

  /** The calendar cell and the details dialog of a room list the same bookings for a day. */
  lemma CellMatchesDetailsDialog(bookings: seq<Booking>, room: Room, date: Day)
    ensures BookingsForRoomAndDate(bookings, room.id, date) == BookingDetails.CurrentBookings(room, bookings, date)
  {
    FilterSamePredicate(bookings, b => InCell(b, room.id, date), b => BookingDetails.IsCurrent(b, room, date));
  }

  /** An empty cell of an unblocked room is exactly a free room on that day. */
  lemma EmptyCellIffFree(bookings: seq<Booking>, room: Room, date: Day)
    requires !room.blocked
    ensures BookingsForRoomAndDate(bookings, room.id, date) == [] <==> ComputeRoomStatus(room, date, bookings) == RoomStatus.Free
  {
    CellMatchesDetailsDialog(bookings, room, date);
    BookingDetails.NoCurrentBookingIffFree(room, bookings, date);
  }

  /** The number of guests a room of this category is drawn for in the occupancy bar. */
  function OccupancyRate(t: RoomType): (n: nat)
    ensures 1 <= n <= 4
    ensures n == 1 <==> t == Single || t == SingleImproved
    ensures n == 3 <==> t == Family || t == FamilyImproved
    ensures n == 4 <==> t == Luxury
  {
    match t
    case Single => 1
    case SingleImproved => 1
    case Family => 3
    case FamilyImproved => 3
    case Luxury => 4
    case _ => 2
  }

  /**
   * The building filter: the room's own building, or the letter alias. Building "1"
   * also shows rooms of building "A" and building "2" those of "B", not the reverse.
   */
  predicate ShowsBuilding(roomBuilding: Option<string>, selectedBuilding: string) {
    || roomBuilding == Some(selectedBuilding)
    || (selectedBuilding == "1" && roomBuilding == Some("A"))
    || (selectedBuilding == "2" && roomBuilding == Some("B"))
  }

  /** `floorRooms`: the rooms on the selected floor of the selected building. */
  function FloorRooms(rooms: seq<Room>, selectedFloor: int, selectedBuilding: string): (r: seq<Room>)
    ensures forall x :: x in r <==> x in rooms && x.floor == selectedFloor && ShowsBuilding(x.building, selectedBuilding)
  {
    Filter(rooms, (x: Room) => x.floor == selectedFloor && ShowsBuilding(x.building, selectedBuilding))
  }

  /** The alias runs one way: rooms of "A" show under "1", rooms of "1" never show under "A"; rooms with no building never show. */
  lemma AliasIsOneWay(x: Room, selectedFloor: int)
    requires x.floor == selectedFloor
    ensures x.building == Some("A") ==> x in FloorRooms([x], selectedFloor, "1")
    ensures x.building == Some("1") ==> x !in FloorRooms([x], selectedFloor, "A")
    ensures forall b :: x.building.None? ==> x !in FloorRooms([x], selectedFloor, b)
  {
  }

  /** A pending first click of a selection. */
  datatype CellRef = CellRef(room: Room, date: Day)

  /** A selected range of days in one room, both ends included. */
  datatype Range = Range(room: Room, startDate: Day, endDate: Day)

  /** `isCellInSelection`: the cell is in the range's room and between its ends, inclusive. */
  predicate InSelection(range: Option<Range>, room: Room, date: Day)
    ensures range.None? ==> !InSelection(range, room, date)
    ensures range.Some? && range.value.room.id != room.id ==> !InSelection(range, room, date)
    ensures range.Some? && range.value.room.id == room.id ==>
              (InSelection(range, room, date) <==> range.value.startDate <= date <= range.value.endDate)
  {
    range.Some? && range.value.room.id == room.id && range.value.startDate <= date <= range.value.endDate
  }

  function Min(a: Day, b: Day): Day { if a < b then a else b }
  function Max(a: Day, b: Day): Day { if a < b then b else a }

  /** The range two clicks make covers exactly the days between them, whichever was clicked first. */
  lemma CompletedRangeCells(room: Room, first: Day, second: Day, other: Room, d: Day)
    ensures InSelection(Some(Range(room, Min(first, second), Max(first, second))), other, d) <==>
            other.id == room.id && ((first <= d <= second) || (second <= d <= first))
  {
  }

  /** The calendar's own state: the first day shown and the selection in progress. */
  class Calendar {
    var currentDate: Day
    var isSelecting: bool
    var selectionStart: Option<CellRef>
    var selectedRange: Option<Range>

    /** A pending selection shows the one-cell range of its start; ranges are never reversed. */
    predicate Valid()
      reads this
    {
      && (isSelecting && selectionStart.Some? ==>
            selectedRange == Some(Range(selectionStart.value.room, selectionStart.value.date, selectionStart.value.date)))
      && (selectedRange.Some? ==> selectedRange.value.startDate <= selectedRange.value.endDate)
    }

    /** The day handed in by the dashboard, else today. */
    constructor (externalCurrentDate: Option<Day>, today: Day)
      ensures Valid()
      ensures currentDate == externalCurrentDate.GetOr(today)
      ensures !isSelecting && selectionStart.None? && selectedRange.None?
    {
      currentDate := externalCurrentDate.GetOr(today);
      isSelecting := false;
      selectionStart := None;
      selectedRange := None;
    }

    /** The effect that follows the dashboard's date: a new external date replaces the shown one. */
    method SyncExternal(externalCurrentDate: Option<Day>)
      requires Valid()
      modifies this
      ensures Valid()
      ensures currentDate == externalCurrentDate.GetOr(old(currentDate))
      ensures isSelecting == old(isSelecting) && selectionStart == old(selectionStart) && selectedRange == old(selectedRange)
    {
      if externalCurrentDate.Some? {
        currentDate := externalCurrentDate.value;
      }
    }

    /** `generateDays`: the seven days of the window, pushed one by one. */
    method GenerateDays() returns (days: seq<Day>)
      ensures days == WeekFrom(currentDate)
    {
      days := [];
      var i := 0;
      while i < 7
        invariant 0 <= i <= 7
        invariant |days| == i
        invariant forall k :: 0 <= k < i ==> days[k] == currentDate + k
      {
        days := days + [currentDate + i];
        i := i + 1;
      }
    }

    /** `navigateWeek`: the window moves by seven days; the selection is untouched. */
    method NavigateWeek(next: bool)
      requires Valid()
      modifies this
      ensures Valid()
      ensures currentDate == Navigate(old(currentDate), next)
      ensures isSelecting == old(isSelecting) && selectionStart == old(selectionStart) && selectedRange == old(selectedRange)
    {
      currentDate := currentDate + (if next then 7 else -7);
    }

    /**
     * `handleCellClick`. The first click starts a selection at the cell; a second click
     * in the same room closes it into the range between the two days and fires the
     * range callback (the returned range); a click in another room, or while selecting
     * with no start recorded, drops the selection.
     */
    method CellClick(room: Room, date: Day) returns (fired: Option<Range>)
      requires Valid()
      modifies this
      ensures Valid()
      ensures currentDate == old(currentDate)
      ensures !old(isSelecting) ==>
        && isSelecting && selectionStart == Some(CellRef(room, date))
        && selectedRange == Some(Range(room, date, date)) && fired.None?
      ensures old(isSelecting) && old(selectionStart).Some? && old(selectionStart).value.room.id == room.id ==>
        && !isSelecting && selectionStart == old(selectionStart)
        && fired == Some(Range(room, Min(old(selectionStart).value.date, date), Max(old(selectionStart).value.date, date)))
        && selectedRange == fired
      ensures old(isSelecting) && !(old(selectionStart).Some? && old(selectionStart).value.room.id == room.id) ==>
        !isSelecting && selectionStart.None? && selectedRange.None? && fired.None?
    {
      fired := None;
      if !isSelecting {
        isSelecting := true;
        selectionStart := Some(CellRef(room, date));
        selectedRange := Some(Range(room, date, date));
      } else if selectionStart.Some? && selectionStart.value.room.id == room.id {
        var start := selectionStart.value.date;
        var startDate := if start < date then start else date;
        var endDate := if start < date then date else start;
        selectedRange := Some(Range(room, startDate, endDate));
        isSelecting := false;
        fired := Some(Range(room, startDate, endDate));
      } else {
        isSelecting := false;
        selectionStart := None;
        selectedRange := None;
      }
    }

    /**
     * The delayed reset scheduled by a completed selection, as written: it clears the
     * start and the range whatever has happened since, including a new selection begun
     * in the meantime (which is left selecting with no start).
     */
    method ExpireSelectionAsWritten()
      requires Valid()
      modifies this
      ensures Valid()
      ensures currentDate == old(currentDate) && isSelecting == old(isSelecting)
      ensures selectionStart.None? && selectedRange.None?
    {
      selectionStart := None;
      selectedRange := None;
    }

    /** The delayed reset as intended: it clears a completed selection and leaves a new one in progress alone. */
    method ExpireSelection()
      requires Valid()
      modifies this
      ensures Valid()
      ensures currentDate == old(currentDate) && isSelecting == old(isSelecting)
      ensures !old(isSelecting) ==> selectionStart.None? && selectedRange.None?
      ensures old(isSelecting) ==> selectionStart == old(selectionStart) && selectedRange == old(selectedRange)
    {
      if !isSelecting {
        selectionStart := None;
        selectedRange := None;
      }
    }

    /** `isCellInSelection` on the current state. */
    predicate IsCellInSelection(room: Room, date: Day)
      reads this
      ensures Valid() && isSelecting && selectionStart.Some? ==>
        (IsCellInSelection(room, date) <==> room.id == selectionStart.value.room.id && date == selectionStart.value.date)
      ensures selectedRange.None? ==> !IsCellInSelection(room, date)
    {
      InSelection(selectedRange, room, date)
    }
  }

  /**
   * Select days 1 to 3, start a new selection on day 5 before the first selection's
   * reset fires, then click day 7. With the reset as written the second click finds no
   * start and cancels: no range is fired.
   */
  method LateResetCancelsNextSelection(room: Room) returns (fired: Option<Range>)
    ensures fired.None?
  {
    var calendar := new Calendar(None, 0);
    var first := calendar.CellClick(room, 1);
    var completed := calendar.CellClick(room, 3);
    assert completed == Some(Range(room, 1, 3));
    var begun := calendar.CellClick(room, 5);
    calendar.ExpireSelectionAsWritten();
    fired := calendar.CellClick(room, 7);
  }

  /** The same clicks with the intended reset fire the range from day 5 to day 7. */
  method LateResetKeepsNextSelection(room: Room) returns (fired: Option<Range>)
    ensures fired == Some(Range(room, 5, 7))
  {
    var calendar := new Calendar(None, 0);
    var first := calendar.CellClick(room, 1);
    var completed := calendar.CellClick(room, 3);
    var begun := calendar.CellClick(room, 5);
    calendar.ExpireSelection();
    fired := calendar.CellClick(room, 7);
  }
}
