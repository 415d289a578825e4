/**
 * Finding reservations by contact (backend/api/get_reservations.php): at
 * least one of email and phone, matched exactly, joined with the room,
 * newest first. Cancelled reservations are not filtered out.
 */
module Lookup {
  import opened Types
  import opened Text
  import opened Sorting

  datatype LookupError = ContactRequired

  /** Which of the three queries runs. */
  datatype Contact = ByEmailAndPhone(email: string, phone: string) | ByEmail(email: string) | ByPhone(phone: string)

  /** `empty(trim(..))` on an optional parameter. */
  predicate Blank(f: Option<string>) {
    f.None? || EmptyText(Trim(f.value))
  }

  /** Lines 27-50, 78 and 105: the trimmed parameters choose the query. */
  function ContactOf(email: Option<string>, phone: Option<string>): (c: Option<Contact>)
    ensures c.None? <==> Blank(email) && Blank(phone)
    ensures c.Some? && c.value.ByEmailAndPhone? <==> !Blank(email) && !Blank(phone)
    ensures c.Some? && c.value.ByEmail? <==> !Blank(email) && Blank(phone)
    ensures c.Some? && c.value.ByPhone? <==> Blank(email) && !Blank(phone)
    ensures c.Some? && !c.value.ByPhone? ==> c.value.email == Trim(email.value)
    ensures c.Some? && !c.value.ByEmail? ==> c.value.phone == Trim(phone.value)
  {
    if !Blank(email) && !Blank(phone) then Some(ByEmailAndPhone(Trim(email.value), Trim(phone.value)))
    else if !Blank(email) then Some(ByEmail(Trim(email.value)))
    else if !Blank(phone) then Some(ByPhone(Trim(phone.value)))
    else None
  }

  /** The WHERE clause of each query; there is no condition on the status. */
  predicate Matches(r: Reservation, c: Contact) {
    match c
    case ByEmailAndPhone(e, p) => r.email == e && r.phone == p
    case ByEmail(e) => r.email == e
    case ByPhone(p) => r.phone == p
  }

  /** `FROM reservations r JOIN rooms ro ON r.room_id = ro.id WHERE ..`, in table order. */
  function JoinMatches(rs: seq<Reservation>, rooms: seq<Room>, c: Contact): (rows: seq<(Reservation, Room)>)
    ensures forall p :: p in rows ==> p.0 in rs && Matches(p.0, c) && p.1 in rooms && p.1.id == p.0.roomId
  {
    if rs == [] then []
    else
      var rest := JoinMatches(rs[1..], rooms, c);
      if Matches(rs[0], c) && FindRoom(rooms, rs[0].roomId).Some? then [(rs[0], FindRoom(rooms, rs[0].roomId).value)] + rest
      else rest
  }

  function NewestKey(p: (Reservation, Room)): int {
    -p.0.createdAt
  }

  /** The joined rows `ORDER BY r.created_at DESC`. */
  function LookupQuery(rs: seq<Reservation>, rooms: seq<Room>, c: Contact): seq<(Reservation, Room)> {
    SortBy(JoinMatches(rs, rooms, c), NewestKey)
  }

  /** A row as the endpoint returns it: the reservation with the room's name, type and image. */
  datatype ReservationView = ReservationView(
    id: int,
    roomId: int,
    roomName: string,
    roomType: string,
    imageUrl: string,
    fullName: string,
    email: string,
    phone: string,
    checkIn: Day,
    checkOut: Day,
    guests: int,
    specialRequests: Option<string>,
    totalPrice: int,
    nights: int,
    status: Status,
    createdAt: Timestamp)

  /** The `$reservation_data` array built for one fetched row. */
  function View(p: (Reservation, Room)): ReservationView {
    var (r, room) := p;
    ReservationView(r.id, r.roomId, room.name, room.roomType, room.imageUrl, r.fullName, r.email, r.phone,
                    r.checkIn, r.checkOut, r.guests, r.specialRequests, r.totalPrice, r.nights, r.status, r.createdAt)
  }

  lemma {:induction false} JoinMatchesComplete(rs: seq<Reservation>, rooms: seq<Room>, c: Contact, r: Reservation)
    requires r in rs && Matches(r, c) && FindRoom(rooms, r.roomId).Some?
    ensures (r, FindRoom(rooms, r.roomId).value) in JoinMatches(rs, rooms, c)
  {
    if rs[0] != r {
      JoinMatchesComplete(rs[1..], rooms, c, r);
    }
  }

  /** Every returned row is a matching reservation joined with its own room, cancelled ones included. */
  lemma LookupQuerySound(rs: seq<Reservation>, rooms: seq<Room>, c: Contact)
    ensures var rows := LookupQuery(rs, rooms, c);
      forall k :: 0 <= k < |rows| ==>
        rows[k].0 in rs && Matches(rows[k].0, c) && rows[k].1 in rooms && rows[k].1.id == rows[k].0.roomId
  {
    var joined := JoinMatches(rs, rooms, c);
    var rows := LookupQuery(rs, rooms, c);
    forall k | 0 <= k < |rows|
      ensures rows[k].0 in rs && Matches(rows[k].0, c) && rows[k].1 in rooms && rows[k].1.id == rows[k].0.roomId
    {
      SortByMembers(joined, NewestKey, rows[k]);
    }
  }

  /** Every matching reservation whose room exists is returned, whatever its status. */
  lemma LookupQueryComplete(rs: seq<Reservation>, rooms: seq<Room>, c: Contact, r: Reservation)
    requires r in rs && Matches(r, c) && FindRoom(rooms, r.roomId).Some?
    ensures (r, FindRoom(rooms, r.roomId).value) in LookupQuery(rs, rooms, c)
  {
    JoinMatchesComplete(rs, rooms, c, r);
    SortByMembers(JoinMatches(rs, rooms, c), NewestKey, (r, FindRoom(rooms, r.roomId).value));
  }

  /** `ORDER BY r.created_at DESC`: newest first. */
  lemma LookupQueryNewestFirst(rs: seq<Reservation>, rooms: seq<Room>, c: Contact)
    ensures var rows := LookupQuery(rs, rooms, c);
      forall i, j :: 0 <= i < j < |rows| ==> rows[i].0.createdAt >= rows[j].0.createdAt
  {
    SortBySorted(JoinMatches(rs, rooms, c), NewestKey);
  }
}
