/**
 * Creating a reservation (backend/api/book_room.php): the ordered chain of
 * required-field, format and date checks, then, inside the transaction,
 * the room lookup, the guest limit and the availability count, and
 * finally the row that is inserted.
 */
module Booking {
  import opened Types
  import opened Text
  import opened Occupancy

  /** The decoded JSON body; `None` is an absent property. */
  datatype BookingRequest = BookingRequest(
    roomId: Option<int>,
    fullName: Option<string>,
    email: Option<string>,
    phone: Option<string>,
    checkIn: Option<Day>,
    checkOut: Option<Day>,
    guests: Option<int>,
    specialRequests: Option<string>)

  datatype Field = RoomIdField | FullNameField | EmailField | PhoneField | CheckInField | CheckOutField | GuestsField

  datatype BookError =
    | Required(field: Field)
    | InvalidEmail
    | InvalidPhone
    | CheckOutNotAfterCheckIn
    | CheckInInPast
    | RoomNotFound
    | TooManyGuests(maxGuests: int)
    | NoAvailability

  /** The request after sanitising: trimmed text, parsed dates. */
  datatype Stay = Stay(
    roomId: int,
    fullName: string,
    email: string,
    phone: string,
    checkIn: Day,
    checkOut: Day,
    guests: int,
    specialRequests: Option<string>)

  /** The success payload: the stored row plus the room's name and nightly price. */
  datatype Booked = Booked(reservation: Reservation, roomName: string, pricePerNight: int)

  /** The order in which the required fields are checked. */
  function Rank(f: Field): nat {
    match f
    case RoomIdField => 0
    case FullNameField => 1
    case EmailField => 2
    case PhoneField => 3
    case CheckInField => 4
    case CheckOutField => 5
    case GuestsField => 6
  }

  /** PHP `empty($data->field)` for each required field. */
  predicate IsMissing(req: BookingRequest, f: Field) {
    match f
    case RoomIdField => MissingNumber(req.roomId)
    case FullNameField => MissingText(req.fullName)
    case EmailField => MissingText(req.email)
    case PhoneField => MissingText(req.phone)
    case CheckInField => req.checkIn.None?
    case CheckOutField => req.checkOut.None?
    case GuestsField => MissingNumber(req.guests)
  }

  /** The field whose check throws first, if any. */
  function FirstMissing(req: BookingRequest): (r: Option<Field>)
    ensures r.Some? ==> IsMissing(req, r.value)
    ensures r.Some? ==> forall g: Field :: Rank(g) < Rank(r.value) ==> !IsMissing(req, g)
    ensures r.None? ==> forall g: Field :: !IsMissing(req, g)
  {
    if IsMissing(req, RoomIdField) then Some(RoomIdField)
    else if IsMissing(req, FullNameField) then Some(FullNameField)
    else if IsMissing(req, EmailField) then Some(EmailField)
    else if IsMissing(req, PhoneField) then Some(PhoneField)
    else if IsMissing(req, CheckInField) then Some(CheckInField)
    else if IsMissing(req, CheckOutField) then Some(CheckOutField)
    else if IsMissing(req, GuestsField) then Some(GuestsField)
    else None
  }

  /** The phone test after trimming: only digits, white space and `-+()`, and at least 10 characters. */
  predicate PhoneAccepted(phone: string) {
    PcrePhonePattern(phone) && |phone| >= 10
  }

  /** Lines 54-61: the typed, trimmed values of a request with every required field present. */
  function Sanitize(req: BookingRequest): Stay
    requires FirstMissing(req).None?
  {
    Stay(req.roomId.value, Trim(req.fullName.value), Trim(req.email.value), Trim(req.phone.value),
         req.checkIn.value, req.checkOut.value, req.guests.value,
         match req.specialRequests
         case Some(s) => Some(Trim(s))
         case None => None)
  }

  /**
   * The format and date checks of lines 63-82, in their order. `emailOk`
   * stands for `filter_var(.., FILTER_VALIDATE_EMAIL)`, which is not modelled.
   */
  function CheckStay(stay: Stay, today: Day, emailOk: string -> bool): (r: Result<Stay, BookError>)
    ensures r.Ok? <==> emailOk(stay.email) && PhoneAccepted(stay.phone) && today <= stay.checkIn < stay.checkOut
    ensures r.Ok? ==> r.value == stay
    ensures r == Err(InvalidEmail) <==> !emailOk(stay.email)
    ensures r == Err(InvalidPhone) <==> emailOk(stay.email) && !PhoneAccepted(stay.phone)
    ensures r == Err(CheckOutNotAfterCheckIn) <==> emailOk(stay.email) && PhoneAccepted(stay.phone) && stay.checkIn >= stay.checkOut
    ensures r == Err(CheckInInPast) <==>
      emailOk(stay.email) && PhoneAccepted(stay.phone) && stay.checkIn < stay.checkOut && stay.checkIn < today
  {
    if !emailOk(stay.email) then Err(InvalidEmail)
    else if !PhoneAccepted(stay.phone) then Err(InvalidPhone)
    else if stay.checkIn >= stay.checkOut then Err(CheckOutNotAfterCheckIn)
    else if stay.checkIn < today then Err(CheckInInPast)
    else Ok(stay)
  }

  /** The checks of lines 31-82: required fields first, then the sanitised values. */
  function Validate(req: BookingRequest, today: Day, emailOk: string -> bool): (r: Result<Stay, BookError>)
    ensures r.Ok? <==>
      && FirstMissing(req).None?
      && emailOk(Trim(req.email.value)) && PhoneAccepted(Trim(req.phone.value))
      && today <= req.checkIn.value < req.checkOut.value
    ensures r.Ok? ==> FirstMissing(req).None? && r.value == Sanitize(req)
    ensures r.Ok? ==> r.value.checkIn < r.value.checkOut && today <= r.value.checkIn
    ensures r.Ok? ==> PhoneAccepted(r.value.phone) && emailOk(r.value.email)
  {
    match FirstMissing(req)
    case Some(f) => Err(Required(f))
    case None => CheckStay(Sanitize(req), today, emailOk)
  }

  /** The row `INSERT INTO reservations` writes, with the auto-increment id and the insertion time. */
  function NewRow(stay: Stay, room: Room, id: int, now: Timestamp): Reservation {
    var nights := DaysBetween(stay.checkIn, stay.checkOut);
    Reservation(id, stay.roomId, stay.fullName, stay.email, stay.phone, stay.checkIn, stay.checkOut,
                stay.guests, stay.specialRequests, nights * room.price, nights, Confirmed, now, now)
  }

  /** Lines 111-172: what happens inside the transaction for an already validated request. */
  function Reserve(rooms: seq<Room>, rs: seq<Reservation>, nextId: int, stay: Stay, now: Timestamp): Result<Booked, BookError> {
    match FindRoom(rooms, stay.roomId)
    case None => Err(RoomNotFound)
    case Some(room) =>
      if stay.guests > room.maxGuests then Err(TooManyGuests(room.maxGuests))
      else if room.totalRooms - BookedCount(rs, room.id, stay.checkIn, stay.checkOut) <= 0 then Err(NoAvailability)
      else Ok(Booked(NewRow(stay, room, nextId, now), room.name, room.price))
  }

  /** The whole endpoint: validation first, then the transaction. */
  function BookOutcome(rooms: seq<Room>, rs: seq<Reservation>, nextId: int, req: BookingRequest,
                       today: Day, now: Timestamp, emailOk: string -> bool): Result<Booked, BookError> {
    match Validate(req, today, emailOk)
    case Err(e) => Err(e)
    case Ok(stay) => Reserve(rooms, rs, nextId, stay, now)
  }

  /** The first empty required field decides the error, whatever else is wrong. */
  lemma MissingFieldDecides(rooms: seq<Room>, rs: seq<Reservation>, nextId: int, req: BookingRequest,
                            today: Day, now: Timestamp, emailOk: string -> bool, f: Field)
    requires IsMissing(req, f)
    requires forall g: Field :: Rank(g) < Rank(f) ==> !IsMissing(req, g)
    ensures BookOutcome(rooms, rs, nextId, req, today, now, emailOk) == Err(Required(f))
  {
    match f
    case RoomIdField =>
    case FullNameField => assert Rank(RoomIdField) < Rank(f);
    case EmailField => assert Rank(FullNameField) < Rank(f);
    case PhoneField => assert Rank(EmailField) < Rank(f);
    case CheckInField => assert Rank(PhoneField) < Rank(f);
    case CheckOutField => assert Rank(CheckInField) < Rank(f);
    case GuestsField => assert Rank(CheckOutField) < Rank(f);
  }

  /** `empty` treats 0 as missing: a zero room id or a zero guest count is rejected as absent. */
  lemma ZeroIsMissing(req: BookingRequest)
    ensures req.roomId == Some(0) ==> IsMissing(req, RoomIdField)
    ensures req.guests == Some(0) ==> IsMissing(req, GuestsField)
    ensures req.fullName == Some("0") ==> IsMissing(req, FullNameField)
  {
  }

  /**
   * The phone number is kept exactly when its trimmed form uses only the
   * allowed characters and has at least 10 of them; the email is checked before it.
   */
  lemma PhoneRule(req: BookingRequest, today: Day, emailOk: string -> bool)
    requires FirstMissing(req).None? && emailOk(Trim(req.email.value))
    ensures Validate(req, today, emailOk) == Err(InvalidPhone)
        <==> !(PcrePhonePattern(Trim(req.phone.value)) && |Trim(req.phone.value)| >= 10)
  {
    var stay := Sanitize(req);
    assert Validate(req, today, emailOk) == CheckStay(stay, today, emailOk);
    assert stay.email == Trim(req.email.value) && stay.phone == Trim(req.phone.value);
  }

  /**
   * Date order is checked before the past-date test, and both before any
   * room lookup: the outcome then does not depend on the tables at all.
   */
  lemma DateChecksPrecedeLookup(rooms: seq<Room>, rs: seq<Reservation>, rooms': seq<Room>, rs': seq<Reservation>,
                                nextId: int, nextId': int, req: BookingRequest, today: Day, now: Timestamp,
                                emailOk: string -> bool)
    requires FirstMissing(req).None? && emailOk(Trim(req.email.value)) && PhoneAccepted(Trim(req.phone.value))
    requires req.checkIn.value >= req.checkOut.value || req.checkIn.value < today
    ensures BookOutcome(rooms, rs, nextId, req, today, now, emailOk)
         == BookOutcome(rooms', rs', nextId', req, today, now, emailOk)
         == (if req.checkIn.value >= req.checkOut.value then Err(CheckOutNotAfterCheckIn) else Err(CheckInInPast))
  {
    var stay := Sanitize(req);
    assert stay.email == Trim(req.email.value) && stay.phone == Trim(req.phone.value);
    assert stay.checkIn == req.checkIn.value && stay.checkOut == req.checkOut.value;
    var e := if req.checkIn.value >= req.checkOut.value then CheckOutNotAfterCheckIn else CheckInInPast;
    assert CheckStay(stay, today, emailOk) == Err(e);
    assert Validate(req, today, emailOk) == Err(e);
  }

  /**
   * After validation: a missing room is reported first, then too many
   * guests, then a full room; otherwise the booking succeeds.
   */
  lemma ReserveOrder(rooms: seq<Room>, rs: seq<Reservation>, nextId: int, stay: Stay, now: Timestamp)
    ensures var r := Reserve(rooms, rs, nextId, stay, now);
      && (r == Err(RoomNotFound) <==> forall k :: 0 <= k < |rooms| ==> rooms[k].id != stay.roomId)
      && (FindRoom(rooms, stay.roomId).Some? ==>
            var room := FindRoom(rooms, stay.roomId).value;
            && (r == Err(TooManyGuests(room.maxGuests)) <==> stay.guests > room.maxGuests)
            && (r == Err(NoAvailability) <==>
                  stay.guests <= room.maxGuests && BookedCount(rs, room.id, stay.checkIn, stay.checkOut) >= room.totalRooms)
            && (r.Ok? <==>
                  stay.guests <= room.maxGuests && BookedCount(rs, room.id, stay.checkIn, stay.checkOut) < room.totalRooms))
  {
  }

  /**
   * A successful booking stores a confirmed row for an existing room with
   * room for the guests, for a stay of at least one night starting today
   * or later, priced at nights times the nightly price.
   */
  lemma BookedRow(rooms: seq<Room>, rs: seq<Reservation>, nextId: int, req: BookingRequest,
                  today: Day, now: Timestamp, emailOk: string -> bool)
    requires BookOutcome(rooms, rs, nextId, req, today, now, emailOk).Ok?
    ensures var b := BookOutcome(rooms, rs, nextId, req, today, now, emailOk).value;
      var row := b.reservation;
      && FindRoom(rooms, row.roomId).Some?
      && var room := FindRoom(rooms, row.roomId).value;
      && row.id == nextId && row.roomId == req.roomId.value
      && row.status == Confirmed && row.createdAt == now
      && today <= row.checkIn < row.checkOut
      && row.nights == row.checkOut - row.checkIn > 0
      && row.totalPrice == row.nights * room.price
      && b.pricePerNight == room.price && b.roomName == room.name
      && row.guests <= room.maxGuests
      && BookedCount(rs, room.id, row.checkIn, row.checkOut) < room.totalRooms
      && row.fullName == Trim(req.fullName.value) && row.email == Trim(req.email.value)
      && row.phone == Trim(req.phone.value) && PhoneAccepted(row.phone)
      && row.checkIn == req.checkIn.value && row.checkOut == req.checkOut.value
      && row.guests == req.guests.value
      && row.specialRequests == (match req.specialRequests case Some(t) => Some(Trim(t)) case None => None)
  {
    var stay := Validate(req, today, emailOk).value;
    var room := FindRoom(rooms, stay.roomId).value;
    assert BookOutcome(rooms, rs, nextId, req, today, now, emailOk).value == Booked(NewRow(stay, room, nextId, now), room.name, room.price);
  }

  /**
   * The safety invariant: a successful booking keeps every room within its
   * inventory on every day, because it counted the whole interval.
   */
  lemma BookKeepsWithinCapacity(rooms: seq<Room>, rs: seq<Reservation>, nextId: int, req: BookingRequest,
                                today: Day, now: Timestamp, emailOk: string -> bool)
    requires UniqueRoomIds(rooms) && WithinCapacity(rooms, rs)
    requires BookOutcome(rooms, rs, nextId, req, today, now, emailOk).Ok?
    ensures WithinCapacity(rooms, rs + [BookOutcome(rooms, rs, nextId, req, today, now, emailOk).value.reservation])
  {
    var stay := Validate(req, today, emailOk).value;
    var room := FindRoom(rooms, stay.roomId).value;
    var row := BookOutcome(rooms, rs, nextId, req, today, now, emailOk).value.reservation;
    AppendKeepsWithinCapacity(rooms, rs, room, row);
  }

  /**
   * Two overlapping stays for a room with a single unit: once the first
   * is booked, the second is refused for lack of availability.
   */
  lemma SecondOverlappingBookingConflicts(rooms: seq<Room>, rs: seq<Reservation>, nextId: int, room: Room,
                                          stay1: Stay, stay2: Stay, now1: Timestamp, now2: Timestamp)
    requires FindRoom(rooms, stay1.roomId) == Some(room) && room.totalRooms == 1
    requires Reserve(rooms, rs, nextId, stay1, now1).Ok?
    requires stay2.roomId == stay1.roomId && stay2.guests <= room.maxGuests
    requires stay1.checkIn < stay1.checkOut && stay2.checkIn < stay2.checkOut
    requires Overlaps(stay1.checkIn, stay1.checkOut, stay2.checkIn, stay2.checkOut)
    ensures var rs' := rs + [Reserve(rooms, rs, nextId, stay1, now1).value.reservation];
      Reserve(rooms, rs', nextId + 1, stay2, now2) == Err(NoAvailability)
  {
    var row := NewRow(stay1, room, nextId, now1);
    assert Reserve(rooms, rs, nextId, stay1, now1).value.reservation == row;
    BookedCountAppend(rs, row, row.roomId, stay2.checkIn, stay2.checkOut);
    SqlOverlapIsHalfOpen(row.checkIn, row.checkOut, stay2.checkIn, stay2.checkOut);
  }
}
