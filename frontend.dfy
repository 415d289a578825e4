/**
 * The browser demo (script.js): its own copy of the room list, the form
 * validators, the nights and price computation, and the page state — the
 * room whose booking form is open and the list of locally kept
 * reservations, which grows by `push` and shrinks by `splice`.
 */
module Frontend {
  import opened Types
  import opened Text
  import Booking
  import Availability

  /** An entry of `roomsData`; the description and image only feed the page. */
  datatype DemoRoom = DemoRoom(id: int, name: string, price: int, features: seq<string>, maxGuests: int)

  /** The six rooms of lines 7-68. */
  const RoomsData: seq<DemoRoom> := [
    DemoRoom(1, "Deluxe King Suite", 299, ["King Bed", "City View", "Mini Bar", "WiFi"], 2),
    DemoRoom(2, "Executive Ocean View", 399, ["Ocean View", "Balcony", "Jacuzzi", "WiFi"], 2),
    DemoRoom(3, "Presidential Suite", 799, ["2 Bedrooms", "Living Room", "Dining Area", "Butler Service"], 4),
    DemoRoom(4, "Garden Villa", 349, ["Garden Access", "Queen Bed", "Patio", "WiFi"], 3),
    DemoRoom(5, "Modern Twin Room", 249, ["Twin Beds", "Work Desk", "Coffee Maker", "WiFi"], 2),
    DemoRoom(6, "Family Penthouse", 599, ["3 Bedrooms", "Kitchenette", "Living Area", "Terrace"], 6)
  ]

  function DemoRoomId(room: DemoRoom): int {
    room.id
  }

  /** `rooms.find(room => room.id === roomId)`: the first room with the id. */
  function FindDemoRoom(rooms: seq<DemoRoom>, id: int): Option<DemoRoom> {
    FindById(rooms, id, DemoRoomId)
  }

  /** The demo rooms have the ids 1 to 6, in order: each id finds its own entry, any other id none. */
  lemma DemoRoomIds(id: int)
    ensures 1 <= id <= 6 ==> FindDemoRoom(RoomsData, id) == Some(RoomsData[id - 1])
    ensures (id < 1 || id > 6) ==> FindDemoRoom(RoomsData, id) == None
  {
    var ids := [RoomsData[0].id, RoomsData[1].id, RoomsData[2].id, RoomsData[3].id, RoomsData[4].id, RoomsData[5].id];
    assert ids == [1, 2, 3, 4, 5, 6];
    assert forall k :: 0 <= k < |RoomsData| ==> RoomsData[k].id == ids[k];
    if 1 <= id <= 6 {
      FindByIdAt(RoomsData, DemoRoomId, id - 1);
    }
  }

  /** A non-empty run of characters that are neither JavaScript white space nor `@`: `[^\s@]+`. */
  predicate EmailPart(s: string) {
    |s| > 0 && forall k :: 0 <= k < |s| ==> !IsJsSpace(s[k]) && s[k] != '@'
  }

  /** `/^[^\s@]+@[^\s@]+\.[^\s@]+$/.test(s)`: some split into local part, `@`, host, `.`, suffix. */
  ghost predicate EmailRegexMatch(s: string) {
    exists i, j :: 0 < i < j < |s| && s[i] == '@' && s[j] == '.' && EmailPart(s[..i]) && EmailPart(s[i + 1..j]) && EmailPart(s[j + 1..])
  }

  /** The `.` somewhere strictly inside the domain. */
  ghost predicate HasInnerDot(d: string) {
    exists j :: 0 < j < |d| - 1 && d[j] == '.'
  }

  /**
   * The address read directly: no white space, exactly one `@`, not at the
   * start, and the domain after it contains a `.` that is neither its first
   * nor its last character.
   */
  ghost predicate EmailShape(s: string) {
    && (forall k :: 0 <= k < |s| ==> !IsJsSpace(s[k]))
    && exists i :: 0 < i < |s| && s[i] == '@' && (forall k :: 0 <= k < |s| && s[k] == '@' ==> k == i) && HasInnerDot(s[i + 1..])
  }

  /** A part of the pattern holds no `@` and no white space. */
  lemma EmailPartAt(s: string, lo: int, hi: int, k: int)
    requires 0 <= lo <= k < hi <= |s| && EmailPart(s[lo..hi])
    ensures !IsJsSpace(s[k]) && s[k] != '@'
  {
    assert s[k] == s[lo..hi][k - lo];
  }

  /** The characters `lo..hi` of `s` form a part when none of them is `@` or white space. */
  lemma EmailPartOf(s: string, lo: int, hi: int)
    requires 0 <= lo < hi <= |s|
    requires forall k :: lo <= k < hi ==> !IsJsSpace(s[k]) && s[k] != '@'
    ensures EmailPart(s[lo..hi])
  {
    var t := s[lo..hi];
    forall k | 0 <= k < |t| ensures !IsJsSpace(t[k]) && t[k] != '@' {
      assert t[k] == s[lo + k];
    }
  }

  /** Every string the pattern accepts has the shape. */
  lemma EmailRegexGivesShape(s: string)
    requires EmailRegexMatch(s)
    ensures EmailShape(s)
  {
    var i, j :| 0 < i < j < |s| && s[i] == '@' && s[j] == '.' && EmailPart(s[..i]) && EmailPart(s[i + 1..j]) && EmailPart(s[j + 1..]);
    assert s[..i] == s[0..i];
    assert s[j + 1..] == s[j + 1..|s|];
    forall k | 0 <= k < |s| ensures !IsJsSpace(s[k]) && (s[k] == '@' ==> k == i) {
      if k < i {
        EmailPartAt(s, 0, i, k);
      } else if i < k < j {
        EmailPartAt(s, i + 1, j, k);
      } else if j < k {
        EmailPartAt(s, j + 1, |s|, k);
      }
    }
    var d := s[i + 1..];
    assert d[j - i - 1] == '.';
    assert HasInnerDot(d);
  }

  /** Every string with the shape is accepted by the pattern. */
  lemma EmailShapeGivesRegex(s: string)
    requires EmailShape(s)
    ensures EmailRegexMatch(s)
  {
    var i :| 0 < i < |s| && s[i] == '@' && (forall k :: 0 <= k < |s| && s[k] == '@' ==> k == i) && HasInnerDot(s[i + 1..]);
    var d := s[i + 1..];
    var jd :| 0 < jd < |d| - 1 && d[jd] == '.';
    var j := i + 1 + jd;
    assert s[j] == d[jd];
    EmailPartOf(s, 0, i);
    EmailPartOf(s, i + 1, j);
    EmailPartOf(s, j + 1, |s|);
    assert s[..i] == s[0..i];
    assert s[j + 1..] == s[j + 1..|s|];
  }

  /** Both readings of the email pattern accept the same strings. */
  lemma EmailRegexIsShape(s: string)
    ensures EmailRegexMatch(s) <==> EmailShape(s)
  {
    if EmailRegexMatch(s) {
      EmailRegexGivesShape(s);
    }
    if EmailShape(s) {
      EmailShapeGivesRegex(s);
    }
  }

  /** Why a submission is refused; each is an `alert` in the page. */
  datatype FormError = InvalidEmail | InvalidPhone | PastCheckIn | CheckOutNotAfterCheckIn | TooManyGuests(maxGuests: int)

  /**
   * `validateDates` (lines 382-399): a past check-in is reported first,
   * then a check-out that is not after the check-in.
   */
  function ValidateDates(checkIn: Day, checkOut: Day, today: Day): (r: Option<FormError>)
    ensures r == Some(PastCheckIn) <==> checkIn < today
    ensures r == Some(CheckOutNotAfterCheckIn) <==> today <= checkIn && checkOut <= checkIn
    ensures r.None? <==> today <= checkIn < checkOut
  {
    if checkIn < today then Some(PastCheckIn)
    else if checkOut <= checkIn then Some(CheckOutNotAfterCheckIn)
    else None
  }

  /**
   * The two halves check the dates in opposite orders: a past check-in with
   * a check-out not after it is a past-date error in the page and an order
   * error at the availability endpoint (for the booking endpoint the same
   * order is stated by `Booking.DateChecksPrecedeLookup`).
   */
  lemma DateOrderDiffers(checkIn: Day, checkOut: Day, today: Day)
    requires checkIn < today && checkOut <= checkIn
    ensures ValidateDates(checkIn, checkOut, today) == Some(PastCheckIn)
    ensures Availability.ValidateDates(Some(checkIn), Some(checkOut), today) == Err(Availability.CheckOutNotAfterCheckIn)
  {
  }

  /** Both halves accept exactly the same date pairs. */
  lemma SameDatesAccepted(checkIn: Day, checkOut: Day, today: Day)
    ensures ValidateDates(checkIn, checkOut, today).None? <==> Availability.ValidateDates(Some(checkIn), Some(checkOut), today).Ok?
  {
  }

  /** The booking form's fields; the room comes from the open modal. */
  datatype BookingForm = BookingForm(
    guestName: string,
    email: string,
    phone: string,
    checkIn: Day,
    checkOut: Day,
    guests: int,
    specialRequests: string)

  /** The phone test of lines 411-415, on the string as typed. */
  predicate FormPhoneOk(phone: string) {
    JsPhonePattern(phone) && |phone| >= 10
  }

  /**
   * The page accepts, as typed, every phone number the backend accepts
   * after trimming, unless it carries a NUL: `trim` strips NUL but the
   * page's `\s` does not match it. Every other trim character is white
   * space to the page.
   */
  lemma BackendPhoneAcceptedByPage(phone: string)
    requires Booking.PhoneAccepted(Trim(phone))
    requires forall k :: 0 <= k < |phone| ==> phone[k] != '\0'
    ensures FormPhoneOk(phone)
  {
    var a := SkipLeading(phone, 0);
    var b := SkipTrailing(phone, a, |phone|);
    TrimIsInfix(phone);
    var t := Trim(phone);
    PcrePhoneIsJsPhone(t);
    forall k | 0 <= k < |phone|
      ensures IsDigit(phone[k]) || IsJsSpace(phone[k]) || IsPhoneSymbol(phone[k])
    {
      if a <= k < b {
        assert phone[k] == t[k - a];
      }
    }
  }

  /** A trailing NUL is trimmed away by the backend but refused by the page. */
  lemma TrailingNulPhoneDiffers()
    ensures Booking.PhoneAccepted(Trim("1234567890\0"))
    ensures !FormPhoneOk("1234567890\0")
  {
    var p := "1234567890\0";
    assert !IsJsSpace(p[10]);
    assert SkipLeading(p, 0) == 0;
    assert SkipTrailing(p, 0, 10) == 10;
    assert SkipTrailing(p, 0, 11) == 10;
    assert Trim(p) == p[0..10] == "1234567890";
  }

  /**
   * The page counts the surrounding blanks the backend trims away: two
   * spaces before eight digits pass in the page and fail at the backend.
   */
  lemma UntrimmedPhoneLength(digits: string)
    requires |digits| == 8 && forall k :: 0 <= k < 8 ==> IsDigit(digits[k])
    ensures FormPhoneOk("  " + digits)
    ensures Trim("  " + digits) == digits
    ensures !Booking.PhoneAccepted(Trim("  " + digits))
  {
    var p := "  " + digits;
    assert p[2] == digits[0] && p[9] == digits[7];
    assert SkipLeading(p, 2) == 2;
    assert SkipLeading(p, 0) == 2;
    assert SkipTrailing(p, 2, 10) == 10;
    assert p[2..10] == digits;
  }

  /**
   * `validateBookingForm` (lines 402-431) against the open room: email,
   * then phone, then dates, then the guest limit.
   */
  function ValidateBookingForm(form: BookingForm, room: DemoRoom, today: Day, emailMatches: bool): (r: Option<FormError>)
    requires emailMatches == EmailRegexMatch(form.email)
    ensures r.None? <==>
      EmailShape(form.email) && FormPhoneOk(form.phone) && today <= form.checkIn < form.checkOut && form.guests <= room.maxGuests
    ensures r == Some(InvalidEmail) <==> !EmailShape(form.email)
    ensures r == Some(InvalidPhone) <==> EmailShape(form.email) && !FormPhoneOk(form.phone)
    ensures EmailShape(form.email) && FormPhoneOk(form.phone) && ValidateDates(form.checkIn, form.checkOut, today).Some?
            ==> r == ValidateDates(form.checkIn, form.checkOut, today)
    ensures r == Some(TooManyGuests(room.maxGuests)) <==>
      EmailShape(form.email) && FormPhoneOk(form.phone) && today <= form.checkIn < form.checkOut && form.guests > room.maxGuests
  {
    EmailRegexIsShape(form.email);
    if !emailMatches then Some(InvalidEmail)
    else if !FormPhoneOk(form.phone) then Some(InvalidPhone)
    else match ValidateDates(form.checkIn, form.checkOut, today)
      case Some(e) => Some(e)
      case None => if form.guests > room.maxGuests then Some(TooManyGuests(room.maxGuests)) else None
  }

  /** `calculateNights` (lines 468-474): whole days between the dates, in either order. */
  function CalculateNights(checkIn: Day, checkOut: Day): (n: nat)
    ensures checkIn <= checkOut ==> checkIn + n == checkOut
    ensures checkOut <= checkIn ==> checkOut + n == checkIn
  {
    DaysBetween(checkIn, checkOut)
  }

  /** A saved entry: the form, the room and the computed price. */
  datatype LocalReservation = LocalReservation(
    roomId: int,
    roomName: string,
    roomPrice: int,
    guestName: string,
    email: string,
    phone: string,
    checkIn: Day,
    checkOut: Day,
    guests: int,
    specialRequests: string,
    totalPrice: int,
    nights: nat)

  /** Where `splice(index, 1)` starts for a list of length `n`; a negative index counts from the end. */
  function SpliceStart(index: int, n: nat): (start: nat)
    ensures start <= n
    ensures 0 <= index <= n ==> start == index
    ensures index < 0 && n + index >= 0 ==> start == n + index
    ensures n + index < 0 ==> start == 0
    ensures index > n ==> start == n
  {
    if index < 0 then (if n + index < 0 then 0 else n + index)
    else if index > n then n
    else index
  }

  /** `s.splice(index, 1)`: the element at the start position, if there is one, is removed. */
  function Splice<T>(s: seq<T>, index: int): (r: seq<T>)
    ensures var start := SpliceStart(index, |s|);
      && |r| == (if start < |s| then |s| - 1 else |s|)
      && (forall k :: 0 <= k < |r| ==> r[k] == (if k < start then s[k] else s[k + 1]))
  {
    var start := SpliceStart(index, |s|);
    if start < |s| then s[..start] + s[start + 1..] else s
  }

  /**
   * A valid index removes exactly that element: one fewer, the others in
   * their order, and the removed element together with the rest is the old list.
   */
  lemma SpliceRemovesOne<T>(s: seq<T>, index: int)
    requires 0 <= index < |s|
    ensures |Splice(s, index)| == |s| - 1
    ensures Splice(s, index)[..index] == s[..index] && Splice(s, index)[index..] == s[index + 1..]
    ensures multiset(Splice(s, index)) + multiset{s[index]} == multiset(s)
  {
    var r := Splice(s, index);
    assert s == s[..index] + [s[index]] + s[index + 1..];
    assert r == s[..index] + s[index + 1..];
  }

  /** Without an element at the position, nothing is removed. */
  lemma SpliceOutOfRange<T>(s: seq<T>, index: int)
    requires index >= |s|
    ensures Splice(s, index) == s
  {
  }

  /** The saved entry built by `handleBookingSubmit` (lines 315-336). */
  function Entry(form: BookingForm, room: DemoRoom): (e: LocalReservation)
    ensures e.roomId == room.id && e.roomPrice == room.price
    ensures form.checkIn <= form.checkOut ==> e.nights == form.checkOut - form.checkIn
    ensures e.totalPrice == e.nights * room.price
    ensures e.roomName == room.name && e.guestName == form.guestName && e.email == form.email && e.phone == form.phone
    ensures e.checkIn == form.checkIn && e.checkOut == form.checkOut
    ensures e.guests == form.guests && e.specialRequests == form.specialRequests
  {
    var nights := CalculateNights(form.checkIn, form.checkOut);
    LocalReservation(room.id, room.name, room.price, form.guestName, form.email, form.phone, form.checkIn, form.checkOut,
                     form.guests, form.specialRequests, nights * room.price, nights)
  }

  /** The page's globals: the demo rooms, the selected room and the reservation list. */
  class BookingPage {
    const roomsData: seq<DemoRoom>
    var selectedRoom: Option<DemoRoom>
    var reservations: seq<LocalReservation>

    /** The page after loading: the list kept from an earlier visit, no modal open. */
    constructor (stored: seq<LocalReservation>)
      ensures roomsData == RoomsData && selectedRoom == None && reservations == stored
    {
      roomsData := RoomsData;
      selectedRoom := None;
      reservations := stored;
    }

    /** `openBookingModal` (lines 192-194): select the room with the id, none if unknown. */
    method OpenBookingModal(roomId: int)
      modifies this
      ensures selectedRoom == FindDemoRoom(roomsData, roomId)
      ensures selectedRoom.None? <==> forall k :: 0 <= k < |roomsData| ==> roomsData[k].id != roomId
      ensures reservations == old(reservations)
    {
      selectedRoom := FindDemoRoom(roomsData, roomId);
    }

    /** `closeBookingModal` (lines 216-222). */
    method CloseBookingModal()
      modifies this
      ensures selectedRoom == None && reservations == old(reservations)
    {
      selectedRoom := None;
    }

    /**
     * `handleBookingSubmit` (lines 309-345): with a room selected and a
     * valid form, one entry is appended and the modal is closed; otherwise
     * nothing changes.
     */
    method HandleBookingSubmit(form: BookingForm, today: Day, emailMatches: bool) returns (added: Option<LocalReservation>)
      requires emailMatches == EmailRegexMatch(form.email)
      modifies this
      ensures added.Some? <==> old(selectedRoom).Some? && ValidateBookingForm(form, old(selectedRoom).value, today, emailMatches).None?
      ensures added.Some? ==>
        && added.value == Entry(form, old(selectedRoom).value)
        && reservations == old(reservations) + [added.value]
        && selectedRoom == None
        && added.value.nights == form.checkOut - form.checkIn > 0
        && added.value.totalPrice == added.value.nights * old(selectedRoom).value.price
      ensures added.None? ==> reservations == old(reservations) && selectedRoom == old(selectedRoom)
    {
      if selectedRoom.None? {
        return None;
      }
      var room := selectedRoom.value;
      if ValidateBookingForm(form, room, today, emailMatches).Some? {
        return None;
      }
      var entry := Entry(form, room);
      reservations := reservations + [entry];
      CloseBookingModal();
      added := Some(entry);
    }

    /**
     * `cancelReservation` (lines 438-442): after confirmation, the entry at
     * the index is spliced out.
     */
    method CancelReservation(index: int, confirmed: bool) returns (removed: Option<LocalReservation>)
      modifies this
      ensures reservations == (if confirmed then Splice(old(reservations), index) else old(reservations))
      ensures removed.Some? <==> confirmed && 0 <= index < |old(reservations)|
      ensures removed.Some? ==> removed.value == old(reservations)[index] && |reservations| == |old(reservations)| - 1
      ensures selectedRoom == old(selectedRoom)
    {
      removed := None;
      if confirmed {
        if 0 <= index < |reservations| {
          removed := Some(reservations[index]);
        }
        reservations := Splice(reservations, index);
      }
    }
  }
}
