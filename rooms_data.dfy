/**
 * The generated room inventory: four floors of an eight by eight grid, numbered
 * from 101 in floor, row, column order. The random choices of type and status
 * are supplied as one `Draw` per room.
 */
module RoomsData {
  import opened Wrappers
  import opened Text
  import opened BookingTypes

  const Floors := 4
  const GridSize := 8
  const RoomCount := 256
  const FirstNumber := 101

  /** The categories the generator picks from. */
  const RoomTypes: seq<RoomType> := [Single, Double, DoubleWithBalcony, Luxury]

  /** The statuses the generator picks from. */
  const Statuses: seq<LegacyStatus> := [Available, LegacyStatus.Occupied, LegacyStatus.Booked, Reserved]

  /**
   * The random choices for one room: the category index, whether the status is drawn
   * at all (`Math.random() > 0.7`) and the status index.
   */
  datatype Draw = Draw(typeIndex: nat, drawStatus: bool, statusIndex: nat)

  /** `Math.floor(Math.random() * 4)` is always an index into a four-element list. */
  predicate ValidDraws(draws: seq<Draw>) {
    |draws| == RoomCount && forall i :: 0 <= i < |draws| ==> draws[i].typeIndex < 4 && draws[i].statusIndex < 4
  }

  /** `room-{floor}-{row}-{col}`. */
  function RoomId(floor: nat, row: nat, col: nat): string {
    "room-" + NatToString(floor) + "-" + NatToString(row) + "-" + NatToString(col)
  }

  function FloorOf(k: nat): int { k / 64 + 1 }
  function RowOf(k: nat): nat { (k / 8) % 8 }
  function ColOf(k: nat): nat { k % 8 }

  /** The `k`-th room generated, for its draw. */
  function RoomAt(k: nat, d: Draw): (room: Room)
    requires d.typeIndex < 4 && d.statusIndex < 4
  {
    Room(RoomId(FloorOf(k), RowOf(k), ColOf(k)), NatToString(FirstNumber + k), RoomTypes[d.typeIndex], FloorOf(k), None,
         Position(RowOf(k), ColOf(k)), None, false, Some(if d.drawStatus then Statuses[d.statusIndex] else Available))
  }

  /** The whole inventory, room by room. */
  function GeneratedRooms(draws: seq<Draw>): (rooms: seq<Room>)
    requires ValidDraws(draws)
    ensures |rooms| == RoomCount
  {
    seq(RoomCount, k requires 0 <= k < RoomCount => RoomAt(k, draws[k]))
  }

  /** The loop counters and the position in the list agree. */
  lemma IndexOfCell(floor: nat, row: nat, col: nat)
    requires 1 <= floor <= Floors && row < GridSize && col < GridSize
    ensures var k := (floor - 1) * 64 + row * 8 + col;
            0 <= k < RoomCount && FloorOf(k) == floor && RowOf(k) == row && ColOf(k) == col
  {
    var k := (floor - 1) * 64 + row * 8 + col;
    var q := (floor - 1) * 8 + row;
    assert k == q * 8 + col;
    assert k / 8 == q;
    assert q % 8 == row && q / 8 == floor - 1;
    assert k / 64 == q / 8;
  }

  /** `generateRooms`: three nested loops push one room per cell and count the room numbers up from 101. */
  method GenerateRooms(draws: seq<Draw>) returns (rooms: seq<Room>)
    requires ValidDraws(draws)
    ensures rooms == GeneratedRooms(draws)
  {
    rooms := [];
    var roomNumber := FirstNumber;
    var floor := 1;
    while floor <= Floors
      invariant 1 <= floor <= Floors + 1
      invariant |rooms| == (floor - 1) * 64 && roomNumber == FirstNumber + |rooms|
      invariant forall k :: 0 <= k < |rooms| ==> rooms[k] == RoomAt(k, draws[k])
    {
      var row := 0;
      while row < GridSize
        invariant 0 <= row <= GridSize
        invariant |rooms| == (floor - 1) * 64 + row * 8 && roomNumber == FirstNumber + |rooms|
        invariant forall k :: 0 <= k < |rooms| ==> rooms[k] == RoomAt(k, draws[k])
      {
        var col := 0;
        while col < GridSize
          invariant 0 <= col <= GridSize
          invariant |rooms| == (floor - 1) * 64 + row * 8 + col && roomNumber == FirstNumber + |rooms|
          invariant forall k :: 0 <= k < |rooms| ==> rooms[k] == RoomAt(k, draws[k])
        {
          IndexOfCell(floor, row, col);
          var d := draws[|rooms|];
          var room := Room(RoomId(floor, row, col), NatToString(roomNumber), RoomTypes[d.typeIndex], floor, None,
                           Position(row, col), None, false,
                           Some(if d.drawStatus then Statuses[d.statusIndex] else Available));
          assert room == RoomAt(|rooms|, d);
          rooms := rooms + [room];
          roomNumber := roomNumber + 1;
          col := col + 1;
        }
        row := row + 1;
      }
      floor := floor + 1;
    }
  }

  /** Every generated room lies on floors 1 to 4 and rows and columns 0 to 7, with a listed category and status. */
  lemma GeneratedBounds(draws: seq<Draw>, k: nat)
    requires ValidDraws(draws) && k < RoomCount
    ensures var room := GeneratedRooms(draws)[k];
            && 1 <= room.floor <= Floors && room.position.row < GridSize && room.position.col < GridSize
            && room.roomType in RoomTypes && room.status.Some? && room.status.value in Statuses
            && !room.blocked && room.capacity.None? && room.building.None?
  {
  }

  /** The `k`-th room has number `101 + k`. */
  lemma GeneratedNumber(draws: seq<Draw>, k: nat)
    requires ValidDraws(draws) && k < RoomCount
    ensures GeneratedRooms(draws)[k].number == NatToString(FirstNumber + k)
    ensures ParseInt(GeneratedRooms(draws)[k].number) == Some(FirstNumber + k)
  {
    ParseIntOfNatToString(FirstNumber + k);
  }

  /** For one-digit parts the id is ten characters with the digits at fixed places. */
  lemma RoomIdShape(floor: nat, row: nat, col: nat)
    requires floor < 10 && row < 10 && col < 10
    ensures var id := RoomId(floor, row, col);
            |id| == 10 && id[5] == DigitChar(floor) && id[7] == DigitChar(row) && id[9] == DigitChar(col)
  {
    var id := RoomId(floor, row, col);
    var f, r, c := NatToString(floor), NatToString(row), NatToString(col);
    assert |f| == 1 && |r| == 1 && |c| == 1;
    assert id == "room-" + f + "-" + r + "-" + c;
    assert id[5] == f[0] && id[7] == r[0] && id[9] == c[0];
  }

  /** A position in the list is determined by its floor, row and column. */
  lemma CellIndex(k: nat)
    requires k < RoomCount
    ensures k == (FloorOf(k) - 1) * 64 + RowOf(k) * 8 + ColOf(k)
  {
    var q := k / 8;
    assert k == q * 8 + k % 8;
    assert q == (q / 8) * 8 + q % 8;
    assert q / 8 == k / 64;
  }

  /** No two generated rooms share an id. */
  lemma GeneratedIdsDistinct(draws: seq<Draw>, i: nat, j: nat)
    requires ValidDraws(draws) && i < RoomCount && j < RoomCount && i != j
    ensures GeneratedRooms(draws)[i].id != GeneratedRooms(draws)[j].id
  {
    var rooms := GeneratedRooms(draws);
    if rooms[i].id == rooms[j].id {
      RoomIdShape(FloorOf(i), RowOf(i), ColOf(i));
      RoomIdShape(FloorOf(j), RowOf(j), ColOf(j));
      assert DigitChar(FloorOf(i)) == DigitChar(FloorOf(j));
      assert DigitChar(RowOf(i)) == DigitChar(RowOf(j));
      assert DigitChar(ColOf(i)) == DigitChar(ColOf(j));
      CellIndex(i);
      CellIndex(j);
    }
  }

  /** No two generated rooms share a number. */
  lemma GeneratedNumbersDistinct(draws: seq<Draw>, i: nat, j: nat)
    requires ValidDraws(draws) && i < RoomCount && j < RoomCount && i != j
    ensures GeneratedRooms(draws)[i].number != GeneratedRooms(draws)[j].number
  {
    if GeneratedRooms(draws)[i].number == GeneratedRooms(draws)[j].number {
      NatToStringInjective(FirstNumber + i, FirstNumber + j);
    }
  }
}
