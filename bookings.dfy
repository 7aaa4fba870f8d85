/**
 * The BookingRequest record of booking_app/models.py: a request from a sender
 * to book a listing, with its status enumeration, its default status and the
 * two uniqueness constraints the table declares.
 */
module Bookings {
  import opened Wrappers
  import opened Users

  datatype BookingStatus = Pending | Accepted | Declined | Completed

  function StatusKey(s: BookingStatus): string
  {
    match s
    case Pending => "pending"
    case Accepted => "accepted"
    case Declined => "declined"
    case Completed => "completed"
  }

  /** The status a stored key stands for; None for anything but the four keys. */
  function ParseStatus(key: string): (r: Option<BookingStatus>)
    ensures r.Some? ==> StatusKey(r.value) == key
    ensures r.None? <==> forall s :: StatusKey(s) != key
  {
    if key == "pending" then Some(Pending)
    else if key == "accepted" then Some(Accepted)
    else if key == "declined" then Some(Declined)
    else if key == "completed" then Some(Completed)
    else
      assert forall s :: StatusKey(s) in {"pending", "accepted", "declined", "completed"};
      None
  }

  /** Dates are day numbers; createdAt is the creation time as a number. */
  datatype BookingRequest = BookingRequest(
    listing: nat,
    sender: UserId,
    receiver: UserId,
    proposedStartDate: int,
    proposedEndDate: int,
    message: Option<string>,
    status: BookingStatus,
    createdAt: int)

  /** A request as created: status defaults to pending, the message may be absent. */
  function NewBookingRequest(listing: nat, sender: UserId, receiver: UserId, start: int, end: int,
                             message: Option<string>, now: int): (b: BookingRequest)
    ensures b.status == Pending
    ensures b.listing == listing && b.sender == sender && b.receiver == receiver && b.message == message
  {
    BookingRequest(listing, sender, receiver, start, end, message, Pending, now)
  }

  type BookingTable = map<nat, BookingRequest>

  /** unique_together (listing, sender, status): no two rows share all three. */
  predicate UniqueTogether(t: BookingTable)
  {
    forall i, j :: i in t && j in t && i != j ==>
      (t[i].listing, t[i].sender, t[i].status) != (t[j].listing, t[j].sender, t[j].status)
  }

  /** The conditional constraint: no two pending rows share (listing, sender). */
  predicate UniquePending(t: BookingTable)
  {
    forall i, j :: i in t && j in t && i != j && t[i].status == Pending && t[j].status == Pending ==>
      (t[i].listing, t[i].sender) != (t[j].listing, t[j].sender)
  }

  /** The first constraint already implies the second. */
  lemma {:induction false} UniqueTogetherImpliesUniquePending(t: BookingTable)
    requires UniqueTogether(t)
    ensures UniquePending(t)
  {
    forall i, j | i in t && j in t && i != j && t[i].status == Pending && t[j].status == Pending
      ensures (t[i].listing, t[i].sender) != (t[j].listing, t[j].sender)
    {
      assert (t[i].listing, t[i].sender, t[i].status) != (t[j].listing, t[j].sender, t[j].status);
    }
  }

  /** The database refuses an insert that breaks a constraint. */
  datatype InsertError = IntegrityError

  /** Inserting row b under a fresh key, as the database does: refused when it would break a constraint. */
  function Insert(t: BookingTable, id: nat, b: BookingRequest): (r: Result<BookingTable, InsertError>)
    requires id !in t
    ensures r.Err? <==> exists k :: k in t && t[k].listing == b.listing && t[k].sender == b.sender && t[k].status == b.status
    ensures r.Ok? ==> r.value == t[id := b]
    ensures UniqueTogether(t) && UniquePending(t) && r.Ok? ==> UniqueTogether(r.value) && UniquePending(r.value)
  {
    if exists k :: k in t && t[k].listing == b.listing && t[k].sender == b.sender && t[k].status == b.status then
      Err(IntegrityError)
    else
      var t' := t[id := b];
      assert UniqueTogether(t) ==> UniqueTogether(t') by {
        if UniqueTogether(t) {
          forall i, j | i in t' && j in t' && i != j
            ensures (t'[i].listing, t'[i].sender, t'[i].status) != (t'[j].listing, t'[j].sender, t'[j].status)
          {
            if i != id && j != id {
              assert t'[i] == t[i] && t'[j] == t[j];
            }
          }
        }
      }
      assert UniqueTogether(t') ==> UniquePending(t') by {
        if UniqueTogether(t') {
          UniqueTogetherImpliesUniquePending(t');
        }
      }
      Ok(t')
  }

  /** While a sender's request for a listing is pending, a second pending request for it is refused. */
  lemma {:induction false} SecondPendingRefused(t: BookingTable, id: nat, k: nat, b: BookingRequest)
    requires id !in t && k in t
    requires t[k].status == Pending && b.status == Pending
    requires t[k].listing == b.listing && t[k].sender == b.sender
    ensures Insert(t, id, b).Err?
  {
    assert t[k].status == b.status;
  }

  /**
   * The three-column constraint reaches past pending rows: once a sender has a
   * completed (or declined, or accepted) booking of a listing, a second row
   * with that same status for that listing and sender is refused too.
   */
  lemma {:induction false} SecondCompletedRefused(t: BookingTable, id: nat, k: nat, b: BookingRequest)
    requires id !in t && k in t
    requires t[k].status == Completed && b.status == Completed
    requires t[k].listing == b.listing && t[k].sender == b.sender
    ensures Insert(t, id, b).Err?
  {
    assert t[k].status == b.status;
  }
}
