/**
 * The two tables of the hotel database, and the small vocabulary shared by
 * every endpoint: optional request fields, PHP's notion of an "empty"
 * value, and results that carry either a payload or the first error.
 */
module Types {

  datatype Option<T> = None | Some(value: T)

  datatype Result<T, E> = Ok(value: T) | Err(error: E)

  /** A calendar date as a day ordinal; `Y-m-d` strings compare like these. */
  type Day = int

  /** A point in time, in seconds. */
  type Timestamp = int

  const SecondsPerDay: int := 86400

  /** The instant at which a day begins (what `new DateTime('Y-m-d')` denotes). */
  function DayStart(d: Day): Timestamp {
    d * SecondsPerDay
  }

  /** Whole days between two dates, regardless of their order. */
  function DaysBetween(a: Day, b: Day): (n: nat)
    ensures a <= b ==> a + n == b
    ensures b <= a ==> b + n == a
  {
    if a <= b then b - a else a - b
  }

  datatype Status = Confirmed | Cancelled

  /** A row of the `rooms` table; `price` is in the smallest currency unit. */
  datatype Room = Room(
    id: int,
    name: string,
    roomType: string,
    price: int,
    description: string,
    imageUrl: string,
    totalRooms: int,
    maxGuests: int,
    features: string,
    createdAt: Timestamp)

  /** A row of the `reservations` table; [checkIn, checkOut) is the stay. */
  datatype Reservation = Reservation(
    id: int,
    roomId: int,
    fullName: string,
    email: string,
    phone: string,
    checkIn: Day,
    checkOut: Day,
    guests: int,
    specialRequests: Option<string>,
    totalPrice: int,
    nights: int,
    status: Status,
    createdAt: Timestamp,
    updatedAt: Timestamp)

  /** PHP's `empty()` on a string: the empty string and "0" are empty. */
  predicate EmptyText(s: string) {
    s == "" || s == "0"
  }

  /** PHP's `empty()` on an optional text field of a JSON body. */
  predicate MissingText(f: Option<string>) {
    f.None? || EmptyText(f.value)
  }

  /** PHP's `empty()` on an optional number: absent or zero. */
  predicate MissingNumber(f: Option<int>) {
    f.None? || f.value == 0
  }

  /** `rooms.id` is the primary key. */
  ghost predicate UniqueRoomIds(rooms: seq<Room>) {
    forall i, j :: 0 <= i < j < |rooms| ==> rooms[i].id != rooms[j].id
  }

  /** `reservations.id` is the primary key. */
  ghost predicate UniqueReservationIds(rs: seq<Reservation>) {
    forall i, j :: 0 <= i < j < |rs| ==> rs[i].id != rs[j].id
  }

  /** The first element whose key is `id`: a primary-key lookup, or JavaScript's `find` on an id. */
  function FindById<T>(s: seq<T>, id: int, key: T -> int): (r: Option<T>)
    ensures r.Some? ==> r.value in s && key(r.value) == id
    ensures r.None? <==> forall k :: 0 <= k < |s| ==> key(s[k]) != id
  {
    if s == [] then None
    else if key(s[0]) == id then Some(s[0])
    else FindById(s[1..], id, key)
  }

  /** With unique keys, looking up the key of any element finds that element. */
  lemma {:induction false} FindByIdAt<T>(s: seq<T>, key: T -> int, k: nat)
    requires forall i, j :: 0 <= i < j < |s| ==> key(s[i]) != key(s[j])
    requires k < |s|
    ensures FindById(s, key(s[k]), key) == Some(s[k])
  {
    if k > 0 {
      assert key(s[0]) != key(s[k]);
      assert s[1..][k - 1] == s[k];
      FindByIdAt(s[1..], key, k - 1);
    }
  }

  function RoomId(room: Room): int {
    room.id
  }

  /** `SELECT ... FROM rooms WHERE id = :room_id`, first row fetched. */
  function FindRoom(rooms: seq<Room>, id: int): Option<Room> {
    FindById(rooms, id, RoomId)
  }
}
