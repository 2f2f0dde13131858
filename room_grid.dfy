/**
 * The floor plan: the rooms of one floor placed on an eight by eight grid by
 * their position, later rooms overwriting earlier ones in the same cell.
 */
module RoomGrid {
  import opened Wrappers
  import opened Seqs
  import opened BookingTypes
  import RoomsData

  const Size := 8

  /** `floorRooms`: the rooms on the selected floor, in their stored order. */
  function GridFloorRooms(rooms: seq<Room>, selectedFloor: int): (r: seq<Room>)
    ensures forall x :: x in r <==> x in rooms && x.floor == selectedFloor
  {
    Filter(rooms, (x: Room) => x.floor == selectedFloor)
  }

  /** The room the cell shows after placing `rooms` in order: the last one at that position, if any. */
  function LastAt(rooms: seq<Room>, row: nat, col: nat): (r: Option<Room>)
    ensures r.None? <==> forall i :: 0 <= i < |rooms| ==> rooms[i].position != Position(row, col)
    ensures r.Some? ==> exists k :: 0 <= k < |rooms| && rooms[k] == r.value && rooms[k].position == Position(row, col)
                                    && forall j :: k < j < |rooms| ==> rooms[j].position != Position(row, col)
  {
    if rooms == [] then None
    else if rooms[|rooms| - 1].position == Position(row, col) then Some(rooms[|rooms| - 1])
    else
      var init := rooms[..|rooms| - 1];
      assert forall i :: 0 <= i < |init| ==> init[i] == rooms[i];
      LastAt(init, row, col)
  }

  /** Placing one more room changes only the cell at its position. */
  lemma LastAtSnoc(rooms: seq<Room>, x: Room, row: nat, col: nat)
    ensures LastAt(rooms + [x], row, col) == if x.position == Position(row, col) then Some(x) else LastAt(rooms, row, col)
  {
    assert (rooms + [x])[..|rooms + [x]| - 1] == rooms;
  }

  /** The grid shows the rooms of `placed`, each cell the last one placed there. */
  ghost predicate Shows(grid: array2<Option<Room>>, placed: seq<Room>)
    reads grid
    requires grid.Length0 == Size && grid.Length1 == Size
  {
    forall r, c :: 0 <= r < Size && 0 <= c < Size ==> grid[r, c] == LastAt(placed, r, c)
  }

  /** `grid[row][col] = room` for a room inside the grid; a room outside it is skipped. */
  method Place(grid: array2<Option<Room>>, ghost placed: seq<Room>, room: Room)
    requires grid.Length0 == Size && grid.Length1 == Size
    requires Shows(grid, placed)
    modifies grid
    ensures Shows(grid, placed + [room])
  {
    forall r: nat, c: nat | r < Size && c < Size
      ensures LastAt(placed + [room], r, c) == if room.position == Position(r, c) then Some(room) else LastAt(placed, r, c)
    {
      LastAtSnoc(placed, room, r, c);
    }
    if room.position.row < Size && room.position.col < Size {
      grid[room.position.row, room.position.col] := Some(room);
    }
  }

  /**
   * The grid of the selected floor: a fresh 8 by 8 array, empty at first, filled by
   * one pass over the floor's rooms that skips positions outside the grid.
   */
  method BuildGrid(rooms: seq<Room>, selectedFloor: int) returns (grid: array2<Option<Room>>)
    ensures fresh(grid)
    ensures grid.Length0 == Size && grid.Length1 == Size
    ensures forall r, c :: 0 <= r < Size && 0 <= c < Size ==> grid[r, c] == LastAt(GridFloorRooms(rooms, selectedFloor), r, c)
  {
    var floorRooms := GridFloorRooms(rooms, selectedFloor);
    grid := new Option<Room>[Size, Size]((r, c) => None);
    assert Shows(grid, []);
    var k := 0;
    while k < |floorRooms|
      invariant 0 <= k <= |floorRooms|
      invariant Shows(grid, floorRooms[..k])
    {
      assert floorRooms[..k + 1] == floorRooms[..k] + [floorRooms[k]];
      Place(grid, floorRooms[..k], floorRooms[k]);
      k := k + 1;
    }
    assert floorRooms[..k] == floorRooms;
  }

  /** A cell shows only a room of the selected floor, and only one placed at that cell. */
  lemma CellHoldsFloorRoom(rooms: seq<Room>, selectedFloor: int, row: nat, col: nat)
    requires LastAt(GridFloorRooms(rooms, selectedFloor), row, col).Some?
    ensures var x := LastAt(GridFloorRooms(rooms, selectedFloor), row, col).value;
            x in rooms && x.floor == selectedFloor && x.position == Position(row, col)
  {
  }

  /** A cell stays empty exactly when no room of the floor is placed there. */
  lemma EmptyCellHasNoRoom(rooms: seq<Room>, selectedFloor: int, row: nat, col: nat)
    ensures LastAt(GridFloorRooms(rooms, selectedFloor), row, col).None? <==>
            forall x :: x in rooms && x.floor == selectedFloor ==> x.position != Position(row, col)
  {
    var floorRooms := GridFloorRooms(rooms, selectedFloor);
    if LastAt(floorRooms, row, col).None? {
      forall x | x in rooms && x.floor == selectedFloor
        ensures x.position != Position(row, col)
      {
        assert x in floorRooms;
      }
    }
  }

  /** With the generated inventory every cell of every floor shows a room. */
  lemma GeneratedFloorsAreFull(draws: seq<RoomsData.Draw>, floor: nat, row: nat, col: nat)
    requires RoomsData.ValidDraws(draws)
    requires 1 <= floor <= RoomsData.Floors && row < Size && col < Size
    ensures LastAt(GridFloorRooms(RoomsData.GeneratedRooms(draws), floor), row, col).Some?
  {
    var rooms := RoomsData.GeneratedRooms(draws);
    RoomsData.IndexOfCell(floor, row, col);
    var k := (floor - 1) * 64 + row * 8 + col;
    assert rooms[k].floor == floor && rooms[k].position == Position(row, col);
    EmptyCellHasNoRoom(rooms, floor, row, col);
  }
}
