/**
 * The database behind the five endpoints, as one object: the `rooms` and
 * `reservations` tables and the reservations table's AUTO_INCREMENT
 * counter. Booking and cancelling change it; the three read endpoints
 * fetch the rows of their query one at a time into a response list.
 */
module Store {
  import opened Types
  import opened Text
  import opened Occupancy
  import opened Booking
  import opened Cancellation
  import opened Availability
  import opened Lookup
  import opened Catalog

  /** The availability response: the rooms, their count and the echoed dates. */
  datatype Listing = Listing(data: seq<AvailableRoom>, count: nat, checkIn: Day, checkOut: Day)

  /** The reservation lookup response. */
  datatype ReservationList = ReservationList(data: seq<ReservationView>, count: nat)

  /** The room catalogue response. */
  datatype RoomList = RoomList(data: seq<CatalogRoom>, count: nat)

  /** The `while ($row = $stmt->fetch())` loop of check_availability.php: one entry pushed per row. */
  method FetchAvailable(rows: seq<AvailabilityRow>) returns (data: seq<AvailableRoom>)
    ensures |data| == |rows|
    ensures forall k :: 0 <= k < |rows| ==> data[k] == ToAvailable(rows[k])
  {
    data := [];
    var i := 0;
    while i < |rows|
      invariant 0 <= i <= |rows|
      invariant |data| == i
      invariant forall k :: 0 <= k < i ==> data[k] == ToAvailable(rows[k])
    {
      data := data + [ToAvailable(rows[i])];
      i := i + 1;
    }
  }

  /** The fetch loop of get_reservations.php. */
  method FetchReservations(rows: seq<(Reservation, Room)>) returns (data: seq<ReservationView>)
    ensures |data| == |rows|
    ensures forall k :: 0 <= k < |rows| ==> data[k] == View(rows[k])
  {
    data := [];
    var i := 0;
    while i < |rows|
      invariant 0 <= i <= |rows|
      invariant |data| == i
      invariant forall k :: 0 <= k < i ==> data[k] == View(rows[k])
    {
      data := data + [View(rows[i])];
      i := i + 1;
    }
  }

  /** The fetch loop of get_rooms.php. */
  method FetchRooms(rows: seq<Room>) returns (data: seq<CatalogRoom>)
    ensures |data| == |rows|
    ensures forall k :: 0 <= k < |rows| ==> data[k] == CatalogEntry(rows[k])
  {
    data := [];
    var i := 0;
    while i < |rows|
      invariant 0 <= i <= |rows|
      invariant |data| == i
      invariant forall k :: 0 <= k < i ==> data[k] == CatalogEntry(rows[k])
    {
      data := data + [CatalogEntry(rows[i])];
      i := i + 1;
    }
  }

  class Hotel {
    var rooms: seq<Room>
    var reservations: seq<Reservation>
    /** The id the next inserted reservation receives. */
    var nextId: int

    /**
     * Primary keys are unique, every stored id is below the counter, every
     * stored stay has at least one night, and no room is over-booked on any day.
     */
    ghost predicate Valid()
      reads this
    {
      && UniqueRoomIds(rooms)
      && UniqueReservationIds(reservations)
      && nextId > 0
      && (forall k :: 0 <= k < |reservations| ==> 0 < reservations[k].id < nextId)
      && (forall k :: 0 <= k < |reservations| ==> reservations[k].checkIn < reservations[k].checkOut)
      && WithinCapacity(rooms, reservations)
    }

    /** A freshly created schema: the given rooms, no reservations. */
    constructor (initialRooms: seq<Room>)
      requires UniqueRoomIds(initialRooms)
      requires forall k :: 0 <= k < |initialRooms| ==> initialRooms[k].totalRooms >= 0
      ensures Valid()
      ensures rooms == initialRooms && reservations == [] && nextId == 1
    {
      rooms := initialRooms;
      reservations := [];
      nextId := 1;
    }

    /**
     * `book_room.php`: validation, then inside the transaction the room
     * lookup, the guest limit, the availability count and the insert. On
     * any error nothing is written (the transaction is rolled back).
     */
    method Book(req: BookingRequest, today: Day, now: Timestamp, emailOk: string -> bool)
      returns (r: Result<Booked, BookError>)
      requires Valid()
      modifies this
      ensures Valid()
      ensures r == BookOutcome(old(rooms), old(reservations), old(nextId), req, today, now, emailOk)
      ensures rooms == old(rooms)
      ensures r.Ok? ==> reservations == old(reservations) + [r.value.reservation] && nextId == old(nextId) + 1
      ensures r.Err? ==> reservations == old(reservations) && nextId == old(nextId)
    {
      var v := Validate(req, today, emailOk);
      if v.Err? {
        return Err(v.error);
      }
      var stay := v.value;
      var found := FindRoom(rooms, stay.roomId);
      if found.None? {
        return Err(RoomNotFound);
      }
      var room := found.value;
      if stay.guests > room.maxGuests {
        return Err(TooManyGuests(room.maxGuests));
      }
      var booked := BookedCount(reservations, room.id, stay.checkIn, stay.checkOut);
      if room.totalRooms - booked <= 0 {
        return Err(NoAvailability);
      }
      var row := NewRow(stay, room, nextId, now);
      AppendKeepsWithinCapacity(rooms, reservations, room, row);
      reservations := reservations + [row];
      nextId := nextId + 1;
      r := Ok(Booked(row, room.name, room.price));
    }

    /**
     * `cancel_reservation.php`: the id check, the lookup with the optional
     * email, the status and check-in guards, then the update of that row.
     */
    method Cancel(reservationId: Option<int>, email: Option<string>, now: Timestamp)
      returns (r: Result<CancelReceipt, CancelError>)
      requires Valid()
      modifies this
      ensures Valid()
      ensures r == CancelOutcome(old(reservations), reservationId, email, now)
      ensures rooms == old(rooms) && nextId == old(nextId)
      ensures r.Ok? ==> reservations == MarkCancelled(old(reservations), reservationId.value, now)
      ensures r.Err? ==> reservations == old(reservations)
    {
      if MissingNumber(reservationId) {
        return Err(IdRequired);
      }
      var id := reservationId.value;
      var found := FindReservation(reservations, id, OwnerFilter(email));
      if found.None? {
        return Err(NotFound);
      }
      var row := reservations[found.value];
      if row.status == Cancelled {
        return Err(AlreadyCancelled);
      }
      if DayStart(row.checkIn) < now {
        return Err(PastCheckIn);
      }
      CancelKeepsCapacity(rooms, reservations, reservationId, email, now);
      reservations := MarkCancelled(reservations, id, now);
      r := Ok(CancelReceipt(id, row.fullName, row.email, Cancelled));
    }

    /**
     * `check_availability.php`: the date checks, then one response entry
     * per fetched row, each with its free units and feature list.
     */
    method CheckAvailability(checkIn: Option<Day>, checkOut: Option<Day>, roomId: Option<int>, today: Day)
      returns (r: Result<Listing, AvailabilityError>)
      ensures r.Err? <==> ValidateDates(checkIn, checkOut, today).Err?
      ensures r.Err? ==> r.error == ValidateDates(checkIn, checkOut, today).error
      ensures r.Ok? ==>
        var rows := AvailabilityQuery(rooms, reservations, checkIn.value, checkOut.value, RoomFilter(roomId));
        && r.value.checkIn == checkIn.value && r.value.checkOut == checkOut.value
        && r.value.count == |r.value.data| == |rows|
        && forall k :: 0 <= k < |rows| ==>
             && r.value.data[k] == ToAvailable(rows[k])
             && rows[k].room in rooms
             && r.value.data[k].availableRooms == rows[k].room.totalRooms - BookedCount(reservations, rows[k].room.id, checkIn.value, checkOut.value)
             && r.value.data[k].availableRooms > 0
    {
      var dates := ValidateDates(checkIn, checkOut, today);
      if dates.Err? {
        return Err(dates.error);
      }
      var x, y := checkIn.value, checkOut.value;
      var rows := AvailabilityQuery(rooms, reservations, x, y, RoomFilter(roomId));
      var data := FetchAvailable(rows);
      AvailabilityResponse(rooms, reservations, x, y, RoomFilter(roomId), data);
      r := Ok(Listing(data, |data|, x, y));
    }

    /**
     * `get_reservations.php`: at least one contact field, then one response
     * entry per joined row, newest first, cancelled ones included.
     */
    method GetReservations(email: Option<string>, phone: Option<string>)
      returns (r: Result<ReservationList, LookupError>)
      ensures r.Err? <==> Blank(email) && Blank(phone)
      ensures r.Ok? ==>
        var rows := LookupQuery(reservations, rooms, ContactOf(email, phone).value);
        && r.value.count == |r.value.data| == |rows|
        && (forall k :: 0 <= k < |rows| ==>
              && r.value.data[k] == View(rows[k])
              && rows[k].0 in reservations && Matches(rows[k].0, ContactOf(email, phone).value))
        && (forall i, j :: 0 <= i < j < |rows| ==> r.value.data[i].createdAt >= r.value.data[j].createdAt)
    {
      var contact := ContactOf(email, phone);
      if contact.None? {
        return Err(ContactRequired);
      }
      var rows := LookupQuery(reservations, rooms, contact.value);
      var data := FetchReservations(rows);
      LookupQuerySound(reservations, rooms, contact.value);
      LookupQueryNewestFirst(reservations, rooms, contact.value);
      r := Ok(ReservationList(data, |data|));
    }

    /** `get_rooms.php`: every room, cheapest first, with its feature list. */
    method GetRooms() returns (r: RoomList)
      ensures r.count == |r.data| == |rooms|
      ensures forall k :: 0 <= k < |rooms| ==> r.data[k] == CatalogEntry(CatalogQuery(rooms)[k])
      ensures forall i, j :: 0 <= i < j < |rooms| ==> r.data[i].price <= r.data[j].price
      ensures forall room :: room in rooms ==> CatalogEntry(room) in r.data
    {
      var rows := CatalogQuery(rooms);
      var data := FetchRooms(rows);
      CatalogResponse(rooms, data);
      r := RoomList(data, |data|);
    }
  }

  /**
   * The two endpoints agree: a room that the availability check lists for
   * a range is not refused for lack of availability when a booking for
   * that range arrives against the same tables.
   */
  lemma ListedRoomCanBeBooked(rooms: seq<Room>, rs: seq<Reservation>, nextId: int, stay: Stay, now: Timestamp,
                              roomFilter: int, k: nat)
    requires UniqueRoomIds(rooms)
    requires k < |AvailabilityQuery(rooms, rs, stay.checkIn, stay.checkOut, roomFilter)|
    requires AvailabilityQuery(rooms, rs, stay.checkIn, stay.checkOut, roomFilter)[k].room.id == stay.roomId
    ensures Reserve(rooms, rs, nextId, stay, now) != Err(NoAvailability)
    ensures Reserve(rooms, rs, nextId, stay, now) != Err(RoomNotFound)
  {
    var rows := AvailabilityQuery(rooms, rs, stay.checkIn, stay.checkOut, roomFilter);
    ListedRoomsHaveFreeUnits(rooms, rs, stay.checkIn, stay.checkOut, roomFilter);
    var room := rows[k].room;
    var j :| 0 <= j < |rooms| && rooms[j] == room;
    FindByIdAt(rooms, RoomId, j);
  }

  /**
   * A successful booking is visible afterwards: looking up by the phone
   * number it was made with returns the new row joined with its room.
   */
  lemma BookingIsFoundByPhone(rooms: seq<Room>, rs: seq<Reservation>, nextId: int, req: BookingRequest,
                              today: Day, now: Timestamp, emailOk: string -> bool)
    requires BookOutcome(rooms, rs, nextId, req, today, now, emailOk).Ok?
    ensures var row := BookOutcome(rooms, rs, nextId, req, today, now, emailOk).value.reservation;
      && ContactOf(None, Some(row.phone)) == Some(ByPhone(row.phone))
      && (row, FindRoom(rooms, row.roomId).value) in LookupQuery(rs + [row], rooms, ByPhone(row.phone))
  {
    var row := BookOutcome(rooms, rs, nextId, req, today, now, emailOk).value.reservation;
    BookedRow(rooms, rs, nextId, req, today, now, emailOk);
    TrimIdempotent(req.phone.value);
    assert !Blank(Some(row.phone)) by {
      assert |row.phone| >= 10;
    }
    assert row in rs + [row];
    LookupQueryComplete(rs + [row], rooms, ByPhone(row.phone), row);
  }

  /**
   * The same holds for a lookup by the email the booking was made with,
   * given that the email filter accepts neither "" nor "0" (PHP's
   * `FILTER_VALIDATE_EMAIL` accepts no string without an `@`).
   */
  lemma BookingIsFoundByEmail(rooms: seq<Room>, rs: seq<Reservation>, nextId: int, req: BookingRequest,
                              today: Day, now: Timestamp, emailOk: string -> bool)
    requires forall e :: emailOk(e) ==> !EmptyText(e)
    requires BookOutcome(rooms, rs, nextId, req, today, now, emailOk).Ok?
    ensures var row := BookOutcome(rooms, rs, nextId, req, today, now, emailOk).value.reservation;
      && ContactOf(Some(row.email), None) == Some(ByEmail(row.email))
      && (row, FindRoom(rooms, row.roomId).value) in LookupQuery(rs + [row], rooms, ByEmail(row.email))
  {
    var row := BookOutcome(rooms, rs, nextId, req, today, now, emailOk).value.reservation;
    BookedRow(rooms, rs, nextId, req, today, now, emailOk);
    assert emailOk(row.email);
    TrimIdempotent(req.email.value);
    assert !Blank(Some(row.email));
    assert row in rs + [row];
    LookupQueryComplete(rs + [row], rooms, ByEmail(row.email), row);
  }
}
