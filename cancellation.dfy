/**
 * Cancelling a reservation (backend/api/cancel_reservation.php): a
 * one-way change from confirmed to cancelled, guarded by the id, an
 * optional email ownership check, the current status and the check-in time.
 */
module Cancellation {
  import opened Types
  import opened Text
  import opened Occupancy

  datatype CancelError = IdRequired | NotFound | AlreadyCancelled | PastCheckIn

  /** The success payload. */
  datatype CancelReceipt = CancelReceipt(reservationId: int, guestName: string, email: string, status: Status)

  /** `$email = isset(..) ? trim(..) : null; if ($email)`: "" and "0" are falsy in PHP. */
  function OwnerFilter(email: Option<string>): (r: Option<string>)
    ensures r.Some? ==> email.Some? && r.value == Trim(email.value) && !EmptyText(r.value)
    ensures r.None? ==> email.None? || EmptyText(Trim(email.value))
  {
    match email
    case None => None
    case Some(e) => if EmptyText(Trim(e)) then None else Some(Trim(e))
  }

  /** `SELECT .. WHERE id = :reservation_id [AND email = :email]`, first row fetched. */
  function FindReservation(rs: seq<Reservation>, id: int, owner: Option<string>): (k: Option<nat>)
    ensures k.Some? ==> k.value < |rs| && rs[k.value].id == id && (owner.Some? ==> rs[k.value].email == owner.value)
    ensures k.Some? ==> forall j :: 0 <= j < k.value ==> !(rs[j].id == id && (owner.Some? ==> rs[j].email == owner.value))
    ensures k.None? ==> forall j :: 0 <= j < |rs| ==> !(rs[j].id == id && (owner.Some? ==> rs[j].email == owner.value))
  {
    if rs == [] then None
    else if rs[0].id == id && (owner.Some? ==> rs[0].email == owner.value) then Some(0)
    else
      match FindReservation(rs[1..], id, owner)
      case None => None
      case Some(k) => Some(k + 1)
  }

  /** The guards of lines 31-85, in their order, and the receipt on success. */
  function CancelOutcome(rs: seq<Reservation>, reservationId: Option<int>, email: Option<string>, now: Timestamp)
    : Result<CancelReceipt, CancelError>
  {
    if MissingNumber(reservationId) then Err(IdRequired)
    else
      match FindReservation(rs, reservationId.value, OwnerFilter(email))
      case None => Err(NotFound)
      case Some(k) =>
        if rs[k].status == Cancelled then Err(AlreadyCancelled)
        else if DayStart(rs[k].checkIn) < now then Err(PastCheckIn)
        else Ok(CancelReceipt(reservationId.value, rs[k].fullName, rs[k].email, Cancelled))
  }

  /** `UPDATE reservations SET status = 'cancelled', updated_at = now WHERE id = :reservation_id`. */
  function MarkCancelled(rs: seq<Reservation>, id: int, now: Timestamp): (rs': seq<Reservation>)
    ensures |rs'| == |rs|
  {
    seq(|rs|, k requires 0 <= k < |rs| => if rs[k].id == id then rs[k].(status := Cancelled, updatedAt := now) else rs[k])
  }

  /**
   * The update touches one row: the target's status becomes cancelled and
   * its update time is refreshed; nothing is deleted, every other row stays.
   */
  lemma MarkCancelledOnlyTarget(rs: seq<Reservation>, k: nat, now: Timestamp)
    requires UniqueReservationIds(rs) && k < |rs|
    ensures var rs' := MarkCancelled(rs, rs[k].id, now);
      && |rs'| == |rs|
      && rs'[k] == rs[k].(status := Cancelled, updatedAt := now)
      && forall j :: 0 <= j < |rs| && j != k ==> rs'[j] == rs[j]
  {
    var rs' := MarkCancelled(rs, rs[k].id, now);
    forall j | 0 <= j < |rs| && j != k ensures rs'[j] == rs[j] {
      assert rs[j].id != rs[k].id by {
        if j < k {} else {}
      }
    }
  }

  /** The request is refused before any lookup when the id is absent or zero. */
  lemma IdRequiredFirst(rs: seq<Reservation>, rs': seq<Reservation>, email: Option<string>, now: Timestamp)
    ensures CancelOutcome(rs, None, email, now) == CancelOutcome(rs', Some(0), email, now) == Err(IdRequired)
  {
  }

  /**
   * With a non-empty email, a reservation that has the id but another
   * email is reported as not found; without one, only the id must match.
   */
  lemma OwnershipCheck(rs: seq<Reservation>, k: nat, email: Option<string>, now: Timestamp)
    requires UniqueReservationIds(rs) && k < |rs| && rs[k].id != 0
    ensures OwnerFilter(email).Some? && OwnerFilter(email).value != rs[k].email
            ==> CancelOutcome(rs, Some(rs[k].id), email, now) == Err(NotFound)
    ensures OwnerFilter(email).None? ==> CancelOutcome(rs, Some(rs[k].id), email, now) != Err(NotFound)
  {
    assert forall j :: 0 <= j < |rs| && j != k ==> rs[j].id != rs[k].id;
  }

  /** Cancelling is refused on the check-in day itself once midnight has passed. */
  lemma RefusedOnCheckInDay(rs: seq<Reservation>, reservationId: Option<int>, email: Option<string>, now: Timestamp)
    requires !MissingNumber(reservationId)
    requires FindReservation(rs, reservationId.value, OwnerFilter(email)).Some?
    requires var r := rs[FindReservation(rs, reservationId.value, OwnerFilter(email)).value];
      r.status == Confirmed && DayStart(r.checkIn) < now < DayStart(r.checkIn + 1)
    ensures CancelOutcome(rs, reservationId, email, now) == Err(PastCheckIn)
  {
  }

  /** A successful cancellation echoes the id and the stored name and email, with status cancelled. */
  lemma CancelReceiptEchoes(rs: seq<Reservation>, reservationId: Option<int>, email: Option<string>, now: Timestamp)
    requires CancelOutcome(rs, reservationId, email, now).Ok?
    ensures var k := FindReservation(rs, reservationId.value, OwnerFilter(email)).value;
      var receipt := CancelOutcome(rs, reservationId, email, now).value;
      && receipt == CancelReceipt(reservationId.value, rs[k].fullName, rs[k].email, Cancelled)
      && rs[k].id == reservationId.value && rs[k].status == Confirmed && now <= DayStart(rs[k].checkIn)
  {
  }

  /** A second cancellation of the same reservation always fails, whatever email it carries. */
  lemma SecondCancelFails(rs: seq<Reservation>, reservationId: Option<int>, email: Option<string>, now: Timestamp,
                          email2: Option<string>, now2: Timestamp)
    requires UniqueReservationIds(rs)
    requires CancelOutcome(rs, reservationId, email, now).Ok?
    ensures var rs' := MarkCancelled(rs, reservationId.value, now);
      CancelOutcome(rs', reservationId, email2, now2) in {Err(AlreadyCancelled), Err(NotFound)}
  {
    var rs' := MarkCancelled(rs, reservationId.value, now);
    var found := FindReservation(rs', reservationId.value, OwnerFilter(email2));
    if found.Some? {
      assert rs'[found.value].status == Cancelled;
    }
  }

  /** With the same email, the second attempt is reported as already cancelled. */
  lemma SecondCancelAlreadyCancelled(rs: seq<Reservation>, reservationId: Option<int>, email: Option<string>,
                                     now: Timestamp, now2: Timestamp)
    requires UniqueReservationIds(rs)
    requires CancelOutcome(rs, reservationId, email, now).Ok?
    ensures CancelOutcome(MarkCancelled(rs, reservationId.value, now), reservationId, email, now2) == Err(AlreadyCancelled)
  {
    var owner := OwnerFilter(email);
    var k := FindReservation(rs, reservationId.value, owner).value;
    var rs' := MarkCancelled(rs, reservationId.value, now);
    assert rs'[k].id == reservationId.value && (owner.Some? ==> rs'[k].email == owner.value);
    var found := FindReservation(rs', reservationId.value, owner);
    assert found.Some?;
    assert rs'[found.value].status == Cancelled;
  }

  /** Cancelling never raises the occupancy of any room on any day. */
  lemma CancelKeepsCapacity(rooms: seq<Room>, rs: seq<Reservation>, reservationId: Option<int>, email: Option<string>,
                            now: Timestamp)
    requires UniqueReservationIds(rs) && WithinCapacity(rooms, rs)
    requires CancelOutcome(rs, reservationId, email, now).Ok?
    ensures WithinCapacity(rooms, MarkCancelled(rs, reservationId.value, now))
  {
    var k := FindReservation(rs, reservationId.value, OwnerFilter(email)).value;
    MarkCancelledOnlyTarget(rs, k, now);
    var rs' := MarkCancelled(rs, reservationId.value, now);
    assert rs' == rs[k := rs[k].(status := Cancelled, updatedAt := now)];
    CancelKeepsWithinCapacity(rooms, rs, k, rs[k].(status := Cancelled, updatedAt := now));
  }
}
