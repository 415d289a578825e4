/**
 * The overlap test the booking and availability queries share, the
 * `COUNT(*)` of reservations that block a room for a date range, and the
 * per-day occupancy that the inventory invariant speaks about.
 */
module Occupancy {
  import opened Types

  /**
   * The three-clause condition of the SQL queries, for a stored stay
   * [a, b) and a requested stay [x, y).
   */
  predicate SqlOverlap(a: Day, b: Day, x: Day, y: Day) {
    || (a <= x && b > x)
    || (a < y && b >= y)
    || (a >= x && b <= y)
  }

  /** Two half-open ranges share at least one day. */
  predicate Overlaps(a: Day, b: Day, x: Day, y: Day) {
    a < y && b > x
  }

  /** For well-formed ranges the three clauses say exactly "the half-open ranges meet". */
  lemma SqlOverlapIsHalfOpen(a: Day, b: Day, x: Day, y: Day)
    requires a < b && x < y
    ensures SqlOverlap(a, b, x, y) <==> Overlaps(a, b, x, y)
  {
  }

  /** Without `x < y` the first clause alone reports an overlap that is not there. */
  lemma SqlOverlapNeedsOrderedRequest()
    ensures SqlOverlap(4, 6, 5, 3) && !Overlaps(4, 6, 5, 3)
  {
  }

  /**
   * The stay [10, 15) does not meet [15, 20) (adjacent), and does meet
   * [12, 14) (contained) and [5, 11) (touching its start).
   */
  lemma OverlapExamples()
    ensures !SqlOverlap(10, 15, 15, 20)
    ensures SqlOverlap(10, 15, 12, 14)
    ensures SqlOverlap(10, 15, 5, 11)
  {
  }

  /** A row the availability subquery counts against room `roomId` for [x, y). */
  predicate Blocks(r: Reservation, roomId: int, x: Day, y: Day) {
    r.roomId == roomId && r.status != Cancelled && SqlOverlap(r.checkIn, r.checkOut, x, y)
  }

  /** `SELECT COUNT(*) FROM reservations WHERE room_id = .. AND status != 'cancelled' AND (overlap)`. */
  function BookedCount(rs: seq<Reservation>, roomId: int, x: Day, y: Day): (n: nat)
    ensures n <= |rs|
  {
    if rs == [] then 0
    else BookedCount(rs[..|rs| - 1], roomId, x, y) + (if Blocks(rs[|rs| - 1], roomId, x, y) then 1 else 0)
  }

  /** A non-cancelled reservation of room `roomId` whose stay includes day `d`. */
  predicate Covers(r: Reservation, roomId: int, d: Day) {
    r.roomId == roomId && r.status != Cancelled && r.checkIn <= d < r.checkOut
  }

  /** How many units of room `roomId` are taken on day `d`. */
  function DayOccupancy(rs: seq<Reservation>, roomId: int, d: Day): (n: nat)
    ensures n <= |rs|
  {
    if rs == [] then 0
    else DayOccupancy(rs[..|rs| - 1], roomId, d) + (if Covers(rs[|rs| - 1], roomId, d) then 1 else 0)
  }

  /** The inventory invariant: no room is ever taken more times on a day than it has units. */
  ghost predicate WithinCapacity(rooms: seq<Room>, rs: seq<Reservation>) {
    forall i, d :: 0 <= i < |rooms| ==> DayOccupancy(rs, rooms[i].id, d) <= rooms[i].totalRooms
  }

  lemma BookedCountAppend(rs: seq<Reservation>, r: Reservation, roomId: int, x: Day, y: Day)
    ensures BookedCount(rs + [r], roomId, x, y)
         == BookedCount(rs, roomId, x, y) + (if Blocks(r, roomId, x, y) then 1 else 0)
  {
    assert (rs + [r])[..|rs|] == rs;
  }

  lemma DayOccupancyAppend(rs: seq<Reservation>, r: Reservation, roomId: int, d: Day)
    ensures DayOccupancy(rs + [r], roomId, d)
         == DayOccupancy(rs, roomId, d) + (if Covers(r, roomId, d) then 1 else 0)
  {
    assert (rs + [r])[..|rs|] == rs;
  }

  /**
   * Every reservation that takes the room on a day of [x, y) is counted by
   * the whole-range query, so the per-day count never exceeds it.
   */
  lemma {:induction false} DayOccupancyAtMostBooked(rs: seq<Reservation>, roomId: int, x: Day, y: Day, d: Day)
    requires x <= d < y
    ensures DayOccupancy(rs, roomId, d) <= BookedCount(rs, roomId, x, y)
  {
    if rs != [] {
      DayOccupancyAtMostBooked(rs[..|rs| - 1], roomId, x, y, d);
    }
  }

  /** Rows that cover a day only where an old row did give no larger count. */
  lemma {:induction false} DayOccupancyMonotone(rs: seq<Reservation>, rs': seq<Reservation>, roomId: int, d: Day)
    requires |rs'| == |rs|
    requires forall k :: 0 <= k < |rs| && Covers(rs'[k], roomId, d) ==> Covers(rs[k], roomId, d)
    ensures DayOccupancy(rs', roomId, d) <= DayOccupancy(rs, roomId, d)
  {
    if rs != [] {
      var n := |rs| - 1;
      assert forall k :: 0 <= k < n ==> rs'[..n][k] == rs'[k] && rs[..n][k] == rs[k];
      DayOccupancyMonotone(rs[..n], rs'[..n], roomId, d);
    }
  }

  /**
   * Appending a stay of a room that the whole-range count shows to have a
   * free unit keeps every room within its inventory on every day.
   */
  lemma AppendKeepsWithinCapacity(rooms: seq<Room>, rs: seq<Reservation>, room: Room, r: Reservation)
    requires UniqueRoomIds(rooms) && WithinCapacity(rooms, rs)
    requires room in rooms && r.roomId == room.id
    requires BookedCount(rs, room.id, r.checkIn, r.checkOut) < room.totalRooms
    ensures WithinCapacity(rooms, rs + [r])
  {
    forall i, d | 0 <= i < |rooms|
      ensures DayOccupancy(rs + [r], rooms[i].id, d) <= rooms[i].totalRooms
    {
      DayOccupancyAppend(rs, r, rooms[i].id, d);
      if Covers(r, rooms[i].id, d) {
        var k :| 0 <= k < |rooms| && rooms[k] == room;
        assert rooms[i] == room by {
          if i != k {
            assert rooms[i].id != rooms[k].id by {
              if i < k {} else {}
            }
          }
        }
        DayOccupancyAtMostBooked(rs, room.id, r.checkIn, r.checkOut, d);
      }
    }
  }

  /** Turning one row to cancelled never raises the occupancy of any room on any day. */
  lemma CancelKeepsWithinCapacity(rooms: seq<Room>, rs: seq<Reservation>, i: nat, r: Reservation)
    requires WithinCapacity(rooms, rs)
    requires i < |rs| && r.status == Cancelled
    ensures WithinCapacity(rooms, rs[i := r])
  {
    var rs' := rs[i := r];
    forall j, d | 0 <= j < |rooms|
      ensures DayOccupancy(rs', rooms[j].id, d) <= rooms[j].totalRooms
    {
      DayOccupancyMonotone(rs, rs', rooms[j].id, d);
    }
  }
}
