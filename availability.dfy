/**
 * Checking availability (backend/api/check_availability.php): the date
 * checks, then for each room the number of reservations that block it for
 * the requested range, keeping only rooms with a free unit.
 */
module Availability {
  import opened Types
  import opened Occupancy
  import opened Sorting
  import opened Catalog

  datatype AvailabilityError = DatesRequired | CheckOutNotAfterCheckIn | CheckInInPast

  /** Lines 31-48, in their order. */
  function ValidateDates(checkIn: Option<Day>, checkOut: Option<Day>, today: Day): (r: Result<(Day, Day), AvailabilityError>)
    ensures r == Err(DatesRequired) <==> checkIn.None? || checkOut.None?
    ensures r == Err(CheckOutNotAfterCheckIn) <==> checkIn.Some? && checkOut.Some? && checkIn.value >= checkOut.value
    ensures r == Err(CheckInInPast) <==>
      checkIn.Some? && checkOut.Some? && checkIn.value < checkOut.value && checkIn.value < today
    ensures r.Ok? ==> r.value == (checkIn.value, checkOut.value) && today <= r.value.0 < r.value.1
  {
    if checkIn.None? || checkOut.None? then Err(DatesRequired)
    else if checkIn.value >= checkOut.value then Err(CheckOutNotAfterCheckIn)
    else if checkIn.value < today then Err(CheckInInPast)
    else Ok((checkIn.value, checkOut.value))
  }

  /** `isset($data->room_id) ? (int)$data->room_id : null`, then `if ($room_id)`: 0 means every room. */
  function RoomFilter(roomId: Option<int>): int {
    match roomId
    case None => 0
    case Some(n) => n
  }

  /** A room row with its `booked_count` column. */
  datatype AvailabilityRow = AvailabilityRow(room: Room, booked: nat)

  /** `HAVING (r.total_rooms - booked_count) > 0` over the given rooms, in table order. */
  function Having(rooms: seq<Room>, rs: seq<Reservation>, x: Day, y: Day): (rows: seq<AvailabilityRow>)
    ensures forall row :: row in rows ==>
      row.room in rooms && row.booked == BookedCount(rs, row.room.id, x, y) && row.room.totalRooms - row.booked > 0
  {
    if rooms == [] then []
    else
      var rest := Having(rooms[1..], rs, x, y);
      var booked := BookedCount(rs, rooms[0].id, x, y);
      if rooms[0].totalRooms - booked > 0 then [AvailabilityRow(rooms[0], booked)] + rest else rest
  }

  /** Every room with a free unit is kept, with its count. */
  lemma {:induction false} HavingComplete(rooms: seq<Room>, rs: seq<Reservation>, x: Day, y: Day, room: Room)
    requires room in rooms && room.totalRooms - BookedCount(rs, room.id, x, y) > 0
    ensures AvailabilityRow(room, BookedCount(rs, room.id, x, y)) in Having(rooms, rs, x, y)
  {
    if rooms[0] != room {
      HavingComplete(rooms[1..], rs, x, y, room);
    }
  }

  /** `WHERE r.id = :room_id` */
  function WhereId(rooms: seq<Room>, id: int): (r: seq<Room>)
    ensures forall room :: room in r <==> room in rooms && room.id == id
    ensures (forall k :: 0 <= k < |rooms| ==> rooms[k].id != id) ==> r == []
  {
    if rooms == [] then []
    else if rooms[0].id == id then [rooms[0]] + WhereId(rooms[1..], id)
    else WhereId(rooms[1..], id)
  }

  function RowPriceKey(row: AvailabilityRow): int {
    row.room.price
  }

  /** The query of lines 63-120: one room when a room id is given, otherwise all, by ascending price. */
  function AvailabilityQuery(rooms: seq<Room>, rs: seq<Reservation>, x: Day, y: Day, roomFilter: int): seq<AvailabilityRow> {
    if roomFilter != 0 then Having(WhereId(rooms, roomFilter), rs, x, y)
    else SortBy(Having(rooms, rs, x, y), RowPriceKey)
  }

  /** A room as this endpoint returns it, with its free units. */
  datatype AvailableRoom = AvailableRoom(
    id: int,
    name: string,
    roomType: string,
    price: int,
    description: string,
    imageUrl: string,
    totalRooms: int,
    availableRooms: int,
    maxGuests: int,
    features: seq<string>)

  /** The `$room_data` array built for one fetched row. */
  function ToAvailable(row: AvailabilityRow): AvailableRoom {
    var room := row.room;
    AvailableRoom(room.id, room.name, room.roomType, room.price, room.description, room.imageUrl,
                  room.totalRooms, room.totalRooms - row.booked, room.maxGuests, FeatureList(room.features))
  }

  /** Every listed room has `available_rooms = total_rooms - booked_count`, and that is positive. */
  lemma ListedRoomsHaveFreeUnits(rooms: seq<Room>, rs: seq<Reservation>, x: Day, y: Day, roomFilter: int)
    ensures var rows := AvailabilityQuery(rooms, rs, x, y, roomFilter);
      forall k :: 0 <= k < |rows| ==>
        && rows[k].room in rooms
        && ToAvailable(rows[k]).availableRooms == rows[k].room.totalRooms - BookedCount(rs, rows[k].room.id, x, y)
        && ToAvailable(rows[k]).availableRooms > 0
  {
    var rows := AvailabilityQuery(rooms, rs, x, y, roomFilter);
    if roomFilter == 0 {
      forall k | 0 <= k < |rows| ensures rows[k] in Having(rooms, rs, x, y) {
        SortByMembers(Having(rooms, rs, x, y), RowPriceKey, rows[k]);
      }
    }
  }

  /** A response with one entry per query row reports, for each, a listed room and its positive free units. */
  lemma AvailabilityResponse(rooms: seq<Room>, rs: seq<Reservation>, x: Day, y: Day, roomFilter: int, data: seq<AvailableRoom>)
    requires var rows := AvailabilityQuery(rooms, rs, x, y, roomFilter);
      |data| == |rows| && forall k :: 0 <= k < |rows| ==> data[k] == ToAvailable(rows[k])
    ensures var rows := AvailabilityQuery(rooms, rs, x, y, roomFilter);
      forall k :: 0 <= k < |rows| ==>
        && rows[k].room in rooms
        && data[k].availableRooms == rows[k].room.totalRooms - BookedCount(rs, rows[k].room.id, x, y)
        && data[k].availableRooms > 0
  {
    ListedRoomsHaveFreeUnits(rooms, rs, x, y, roomFilter);
  }

  /**
   * Without a room id, a room is listed exactly when it has a free unit
   * for the range, and the list is in ascending price order.
   */
  lemma AllRoomsListing(rooms: seq<Room>, rs: seq<Reservation>, x: Day, y: Day)
    ensures var rows := AvailabilityQuery(rooms, rs, x, y, 0);
      && (forall room :: room in rooms ==>
            ((exists k :: 0 <= k < |rows| && rows[k].room == room) <==> room.totalRooms - BookedCount(rs, room.id, x, y) > 0))
      && (forall i, j :: 0 <= i < j < |rows| ==> rows[i].room.price <= rows[j].room.price)
  {
    var having := Having(rooms, rs, x, y);
    var rows := AvailabilityQuery(rooms, rs, x, y, 0);
    SortBySorted(having, RowPriceKey);
    forall room | room in rooms
      ensures (exists k :: 0 <= k < |rows| && rows[k].room == room) <==> room.totalRooms - BookedCount(rs, room.id, x, y) > 0
    {
      var row := AvailabilityRow(room, BookedCount(rs, room.id, x, y));
      SortByMembers(having, RowPriceKey, row);
      if room.totalRooms - BookedCount(rs, room.id, x, y) > 0 {
        HavingComplete(rooms, rs, x, y, room);
        var k :| 0 <= k < |rows| && rows[k] == row;
        assert rows[k].room == room;
      }
      if exists k :: 0 <= k < |rows| && rows[k].room == room {
        var k :| 0 <= k < |rows| && rows[k].room == room;
        SortByMembers(having, RowPriceKey, rows[k]);
      }
    }
  }

  /** Duplicate ids cannot pass `WHERE id = ..` twice when ids are unique. */
  lemma {:induction false} WhereIdAtMostOne(rooms: seq<Room>, id: int)
    requires UniqueRoomIds(rooms)
    ensures |WhereId(rooms, id)| <= 1
  {
    if rooms != [] {
      assert UniqueRoomIds(rooms[1..]) by {
        forall i, j | 0 <= i < j < |rooms[1..]| ensures rooms[1..][i].id != rooms[1..][j].id {
          assert rooms[1..][i] == rooms[i + 1] && rooms[1..][j] == rooms[j + 1];
        }
      }
      WhereIdAtMostOne(rooms[1..], id);
      if rooms[0].id == id {
        forall j | 0 <= j < |rooms[1..]| ensures rooms[1..][j].id != id {
          assert rooms[1..][j] == rooms[j + 1];
        }
      }
    }
  }

  lemma {:induction false} HavingAtMostInput(rooms: seq<Room>, rs: seq<Reservation>, x: Day, y: Day)
    ensures |Having(rooms, rs, x, y)| <= |rooms|
  {
    if rooms != [] {
      HavingAtMostInput(rooms[1..], rs, x, y);
    }
  }

  /** With a room id, at most that one room is listed. */
  lemma OneRoomListing(rooms: seq<Room>, rs: seq<Reservation>, x: Day, y: Day, roomFilter: int)
    requires UniqueRoomIds(rooms) && roomFilter != 0
    ensures var rows := AvailabilityQuery(rooms, rs, x, y, roomFilter);
      |rows| <= 1 && forall k :: 0 <= k < |rows| ==> rows[k].room.id == roomFilter
  {
    WhereIdAtMostOne(rooms, roomFilter);
    HavingAtMostInput(WhereId(rooms, roomFilter), rs, x, y);
    var rows := AvailabilityQuery(rooms, rs, x, y, roomFilter);
    assert forall k :: 0 <= k < |rows| ==> rows[k] in rows;
  }

  /**
   * A validated range never draws a false overlap: for stored stays with
   * `checkIn < checkOut` the blocking count is the half-open overlap count.
   */
  lemma {:induction false} BookedCountIsHalfOpen(rs: seq<Reservation>, roomId: int, x: Day, y: Day)
    requires x < y
    requires forall k :: 0 <= k < |rs| ==> rs[k].checkIn < rs[k].checkOut
    ensures BookedCount(rs, roomId, x, y) == HalfOpenCount(rs, roomId, x, y)
  {
    if rs != [] {
      var n := |rs| - 1;
      assert forall k :: 0 <= k < n ==> rs[..n][k] == rs[k];
      BookedCountIsHalfOpen(rs[..n], roomId, x, y);
      SqlOverlapIsHalfOpen(rs[n].checkIn, rs[n].checkOut, x, y);
    }
  }

  /** The count written with the simple half-open test. */
  function HalfOpenCount(rs: seq<Reservation>, roomId: int, x: Day, y: Day): nat {
    if rs == [] then 0
    else
      var r := rs[|rs| - 1];
      HalfOpenCount(rs[..|rs| - 1], roomId, x, y)
        + (if r.roomId == roomId && r.status != Cancelled && Overlaps(r.checkIn, r.checkOut, x, y) then 1 else 0)
  }
}
