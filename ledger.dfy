/**
 * The ticket ledger: each event's `bookedTickets` counter against the bookings
 * that reference it. Here are the invariants and the booking operations of
 * Backend/controllers/bookingController.js together with the administrator's
 * force-cancel and cascading event delete of Backend/controllers/adminController.js,
 * each as a function from the database before the call to the reply and the
 * database after it.
 */
module Ledger {
  import opened Domain
  import opened Aggregates

  // ---------------------------------------------------------------------------
  // Invariants

  /**
   * What the schemas and the id allocator guarantee of stored documents:
   * `tickets >= 1` and `totalPrice >= 0` (Booking.js validators), ids are
   * allocated in increasing order and are never reused.
   */
  ghost predicate WellFormed(db: Db)
  {
    && Ascending(db.bookings)
    && (forall b {:trigger b in db.bookings} | b in db.bookings ::
          b.tickets >= 1 && b.totalPrice >= 0 && b.id < db.nextId && b.event < db.nextId)
    && (forall e | e in db.events :: e < db.nextId)
  }

  /** Every event's counter equals the tickets of the bookings that reference it. */
  ghost predicate CountersMatch(db: Db)
  {
    forall e | e in db.events :: db.events[e].bookedTickets == SumTickets(BookingsOf(db.bookings, e))
  }

  /** The ledger invariant. */
  ghost predicate Consistent(db: Db)
  {
    WellFormed(db) && CountersMatch(db)
  }

  /** No booking references a deleted event. */
  ghost predicate NoOrphans(db: Db)
  {
    forall b {:trigger b in db.bookings} | b in db.bookings :: b.event in db.events
  }

  /** No event has more tickets booked than it offers. */
  ghost predicate WithinCapacity(db: Db)
  {
    forall e | e in db.events :: db.events[e].bookedTickets <= db.events[e].totalTickets
  }

  /**
   * The ledger does not look at accounts: changing them, and handing out
   * another id, keeps every ledger property.
   */
  lemma AccountsDoNotMatter(db: Db, users: map<UserId, User>, nextId: nat)
    requires db.nextId <= nextId
    ensures Consistent(db) ==> Consistent(db.(users := users, nextId := nextId))
    ensures NoOrphans(db.(users := users, nextId := nextId)) == NoOrphans(db)
    ensures WithinCapacity(db.(users := users, nextId := nextId)) == WithinCapacity(db)
  {
  }

  /** Replacing an event by one with the same counter keeps the ledger invariant and orphan-freedom. */
  lemma SameCounterKeepsLedger(db: Db, id: EventId, e: Event)
    requires Consistent(db) && id in db.events
    requires e.bookedTickets == db.events[id].bookedTickets
    ensures Consistent(db.(events := db.events[id := e]))
    ensures NoOrphans(db) ==> NoOrphans(db.(events := db.events[id := e]))
  {
    assert db.events[id := e].Keys == db.events.Keys;
  }

  // ---------------------------------------------------------------------------
  // bookingController.createBooking

  /** The request passes the first guard: an event id and a positive integer ticket count. */
  predicate ValidBookingRequest(eventId: Option<EventId>, tickets: Option<int>)
  {
    eventId.Some? && tickets.Some? && tickets.value > 0
  }

  /**
   * Book `tickets` tickets of event `eventId` for `caller`. `tickets` is None
   * when `Number(req.body.tickets)` is not an integer (NaN, a fraction, absent).
   */
  function CreateBooking(db: Db, caller: UserId, eventId: Option<EventId>, tickets: Option<int>)
    : (r: (Result<Booking>, Db))
    ensures r.0.Err? ==> r.1 == db
    ensures !ValidBookingRequest(eventId, tickets) ==> r.0 == Err(InvalidBookingRequest)
    ensures ValidBookingRequest(eventId, tickets) && eventId.value !in db.events ==> r.0 == Err(NotFound)
    ensures ValidBookingRequest(eventId, tickets) && eventId.value in db.events
            && db.events[eventId.value].bookedTickets + tickets.value > db.events[eventId.value].totalTickets
            ==> r.0 == Err(NotEnoughTickets)
    ensures ValidBookingRequest(eventId, tickets) && eventId.value in db.events
            && db.events[eventId.value].bookedTickets + tickets.value <= db.events[eventId.value].totalTickets
            && TotalPrice(db.events[eventId.value].price, tickets.value) >= 0
            ==> r.0.Ok?
    ensures r.0.Ok? ==> ValidBookingRequest(eventId, tickets) && r.0.value.event == eventId.value
                        && eventId.value in db.events
    ensures r.0.Ok? ==>
      var b := r.0.value;
      var e := db.events[eventId.value];
      && b.user == caller && b.tickets == tickets.value && b.quantity == tickets.value
      && b.totalPrice == TotalPrice(e.price, b.tickets) && b.totalPrice >= 0
      && b.id == db.nextId && r.1.nextId == db.nextId + 1
      && r.1.bookings == db.bookings + [b]
      && r.1.events.Keys == db.events.Keys
      && r.1.events[b.event] == e.(bookedTickets := e.bookedTickets + b.tickets)
      && r.1.events[b.event].bookedTickets <= r.1.events[b.event].totalTickets
      && (forall id | id in db.events && id != b.event :: r.1.events[id] == db.events[id])
      && r.1.users == db.users
  {
    if !ValidBookingRequest(eventId, tickets) then (Err(InvalidBookingRequest), db)
    else
      var id, t := eventId.value, tickets.value;
      if id !in db.events then (Err(NotFound), db)
      else
        var e := db.events[id];
        if e.bookedTickets + t > e.totalTickets then (Err(NotEnoughTickets), db)
        else
          var b := Booking(db.nextId, id, caller, t, t, TotalPrice(e.price, t));
          // Booking.js declares `totalPrice: { min: 0 }`: a negative total fails at save.
          if b.totalPrice < 0 then (Err(ServerError), db)
          else
            (Ok(b), db.(events := db.events[id := e.(bookedTickets := e.bookedTickets + t)],
                        bookings := db.bookings + [b],
                        nextId := db.nextId + 1))
  }

  /** The state an accepted request leaves: the booking appended, the counter raised, the next id taken. */
  ghost predicate Appended(db: Db, db': Db, b: Booking)
    requires b.event in db.events
  {
    var e := db.events[b.event];
    db' == db.(events := db.events[b.event := e.(bookedTickets := e.bookedTickets + b.tickets)],
               bookings := db.bookings + [b], nextId := db.nextId + 1)
  }

  /** An accepted request spelled out: the booking with the next id and the event's price, appended. */
  lemma CreateBookingAccepted(db: Db, db': Db, caller: UserId, b: Booking)
    requires b.event in db.events && b.tickets > 0
    requires db.events[b.event].bookedTickets + b.tickets <= db.events[b.event].totalTickets
    requires b == Booking(db.nextId, b.event, caller, b.tickets, b.tickets, TotalPrice(db.events[b.event].price, b.tickets))
    requires b.totalPrice >= 0
    requires Appended(db, db', b)
    ensures CreateBooking(db, caller, Some(b.event), Some(b.tickets)) == (Ok(b), db')
  {
  }

  /** The state an accepted request leaves behind keeps the ledger invariant. */
  lemma AcceptedKeepsInvariants(db: Db, db': Db, b: Booking)
    requires Consistent(db)
    requires b.event in db.events && b.id == db.nextId && b.tickets >= 1 && b.totalPrice >= 0
    requires Appended(db, db', b)
    ensures Consistent(db')
  {
    AppendKeepsInvariants(db, db', b);
  }

  // ---------------------------------------------------------------------------
  // bookingController.cancelBooking

  /** `booking.tickets || booking.quantity || 0`: the tickets a holder's cancel releases. */
  function Reserved(b: Booking): (n: int)
    ensures b.tickets >= 1 ==> n == b.tickets
    ensures n == b.tickets || n == b.quantity || n == 0
  {
    if b.tickets != 0 then b.tickets else if b.quantity != 0 then b.quantity else 0
  }

  /**
   * The holder cancels booking `bookingId`: the booking is deleted and, when its
   * event still exists, that event's counter drops by `Reserved(b)`, unclamped.
   */
  function CancelBooking(db: Db, caller: UserId, bookingId: BookingId): (r: (Outcome, Db))
    ensures r.0.Fail? ==> r.1 == db
    ensures r.0 == Fail(NotFound) <==> Find(db.bookings, bookingId).None?
    ensures r.0 == Fail(NotBookingHolder)
            <==> Find(db.bookings, bookingId).Some? && db.bookings[Find(db.bookings, bookingId).value].user != caller
    ensures r.0.Done? ==>
      var i := Find(db.bookings, bookingId).value;
      var b := db.bookings[i];
      && b.user == caller
      && r.1.bookings == RemoveAt(db.bookings, i)
      && r.1.events.Keys == db.events.Keys
      && (b.event in db.events ==>
            r.1.events[b.event].bookedTickets == db.events[b.event].bookedTickets - Reserved(b)
            && r.1.events[b.event] == db.events[b.event].(bookedTickets := r.1.events[b.event].bookedTickets))
      && (forall id | id in db.events && id != b.event :: r.1.events[id] == db.events[id])
      && r.1.users == db.users && r.1.nextId == db.nextId
  {
    match Find(db.bookings, bookingId)
    case None => (Fail(NotFound), db)
    case Some(i) =>
      var b := db.bookings[i];
      if b.user != caller then (Fail(NotBookingHolder), db)
      else
        var events :=
          if b.event in db.events
          then db.events[b.event := db.events[b.event].(bookedTickets := db.events[b.event].bookedTickets - Reserved(b))]
          else db.events;
        (Done, db.(events := events, bookings := RemoveAt(db.bookings, i)))
  }

  /** A holder's accepted cancel spelled out: `$inc` by `-Reserved(b)` when the event exists, the booking removed. */
  lemma CancelBookingAccepted(db: Db, db': Db, caller: UserId, bookingId: BookingId, i: nat)
    requires Find(db.bookings, bookingId) == Some(i) && db.bookings[i].user == caller
    requires db'.bookings == RemoveAt(db.bookings, i) && db'.users == db.users && db'.nextId == db.nextId
    requires var b := db.bookings[i];
      b.event in db.events ==>
        db'.events == db.events[b.event := db.events[b.event].(bookedTickets := db.events[b.event].bookedTickets + -Reserved(b))]
    requires db.bookings[i].event !in db.events ==> db'.events == db.events
    ensures CancelBooking(db, caller, bookingId) == (Done, db')
  {
  }

  /** The state a holder's accepted cancel leaves behind keeps the ledger invariant. */
  lemma CancelAcceptedKeepsInvariants(db: Db, db': Db, i: nat)
    requires Consistent(db) && i < |db.bookings|
    requires db'.bookings == RemoveAt(db.bookings, i) && db'.nextId == db.nextId
    requires var b := db.bookings[i];
      b.event in db.events ==>
        db'.events == db.events[b.event := db.events[b.event].(bookedTickets := db.events[b.event].bookedTickets + -Reserved(b))]
    requires db.bookings[i].event !in db.events ==> db'.events == db.events
    ensures Consistent(db')
  {
    assert db.bookings[i] in db.bookings;
    RemovalKeepsInvariants(db, db', i);
  }

  // ---------------------------------------------------------------------------
  // adminController.cancelBooking

  /**
   * An administrator cancels any booking: the counter becomes
   * `max(0, bookedTickets - tickets)` when the event exists, then the booking is deleted.
   */
  function AdminCancelBooking(db: Db, bookingId: BookingId): (r: (Outcome, Db))
    ensures r.0.Fail? ==> r.1 == db
    ensures r.0 == Fail(NotFound) <==> Find(db.bookings, bookingId).None?
    ensures r.0.Done? ==>
      var i := Find(db.bookings, bookingId).value;
      var b := db.bookings[i];
      && r.1.bookings == RemoveAt(db.bookings, i)
      && r.1.events.Keys == db.events.Keys
      && (b.event in db.events ==>
            var left := db.events[b.event].bookedTickets - b.tickets;
            r.1.events[b.event] == db.events[b.event].(bookedTickets := if left > 0 then left else 0))
      && (forall id | id in db.events && id != b.event :: r.1.events[id] == db.events[id])
      && r.1.users == db.users && r.1.nextId == db.nextId
  {
    match Find(db.bookings, bookingId)
    case None => (Fail(NotFound), db)
    case Some(i) =>
      var b := db.bookings[i];
      var events :=
        if b.event in db.events
        then
          var e := db.events[b.event];
          var left := e.bookedTickets - b.tickets;
          db.events[b.event := e.(bookedTickets := if left > 0 then left else 0)]
        else db.events;
      (Done, db.(events := events, bookings := RemoveAt(db.bookings, i)))
  }

  /** An accepted administrator cancel spelled out: the clamped counter when the event exists, the booking removed. */
  lemma AdminCancelAccepted(db: Db, db': Db, bookingId: BookingId, i: nat)
    requires Find(db.bookings, bookingId) == Some(i)
    requires db'.bookings == RemoveAt(db.bookings, i) && db'.users == db.users && db'.nextId == db.nextId
    requires var b := db.bookings[i];
      b.event in db.events ==>
        var left := db.events[b.event].bookedTickets - b.tickets;
        db'.events == db.events[b.event := db.events[b.event].(bookedTickets := if left > 0 then left else 0)]
    requires db.bookings[i].event !in db.events ==> db'.events == db.events
    ensures AdminCancelBooking(db, bookingId) == (Done, db')
  {
  }

  // ---------------------------------------------------------------------------
  // adminController.deleteEvent

  /** An administrator deletes an event and, first, every booking that references it. */
  function AdminDeleteEvent(db: Db, eventId: EventId): (r: (Outcome, Db))
    ensures r.0.Fail? ==> r.1 == db
    ensures r.0 == Fail(NotFound) <==> eventId !in db.events
    ensures eventId in db.events ==> r.0.Done?
    ensures r.0.Done? ==>
      && r.1.events == db.events - {eventId}
      && (forall b {:trigger b in r.1.bookings} :: b in r.1.bookings <==> b in db.bookings && b.event != eventId)
      && r.1.users == db.users && r.1.nextId == db.nextId
  {
    if eventId !in db.events then (Fail(NotFound), db)
    else (Done, db.(events := db.events - {eventId}, bookings := OtherEvents(db.bookings, eventId)))
  }

  // ---------------------------------------------------------------------------
  // The invariant is kept

  lemma CreateBookingKeepsInvariants(db: Db, caller: UserId, eventId: Option<EventId>, tickets: Option<int>)
    requires Consistent(db)
    ensures Consistent(CreateBooking(db, caller, eventId, tickets).1)
    ensures NoOrphans(db) ==> NoOrphans(CreateBooking(db, caller, eventId, tickets).1)
    ensures WithinCapacity(db) ==> WithinCapacity(CreateBooking(db, caller, eventId, tickets).1)
  {
    var (res, db') := CreateBooking(db, caller, eventId, tickets);
    if res.Ok? {
      AppendKeepsInvariants(db, db', res.value);
    }
  }

  /** Appending a fresh booking and adding its tickets to its event's counter keeps the invariants. */
  lemma AppendKeepsInvariants(db: Db, db': Db, b: Booking)
    requires Consistent(db)
    requires b.event in db.events && b.id == db.nextId && b.tickets >= 1 && b.totalPrice >= 0
    requires db'.nextId == db.nextId + 1 && db'.bookings == db.bookings + [b]
    requires db'.events.Keys == db.events.Keys
    requires db'.events[b.event].bookedTickets == db.events[b.event].bookedTickets + b.tickets
    requires forall id | id in db.events && id != b.event :: db'.events[id] == db.events[id]
    ensures Consistent(db')
    ensures NoOrphans(db) ==> NoOrphans(db')
    ensures WithinCapacity(db) && db'.events[b.event].bookedTickets <= db'.events[b.event].totalTickets
            ==> WithinCapacity(db')
  {
    AppendWellFormed(db, db', b);
    AppendCountersMatch(db, db', b);
    if NoOrphans(db) {
      forall x | x in db'.bookings ensures x.event in db'.events {
        assert x in db.bookings || x == b;
      }
    }
    if WithinCapacity(db) && db'.events[b.event].bookedTickets <= db'.events[b.event].totalTickets {
      forall e | e in db'.events ensures db'.events[e].bookedTickets <= db'.events[e].totalTickets {
        if e != b.event {
          assert db'.events[e] == db.events[e];
        }
      }
    }
  }

  lemma AppendCountersMatch(db: Db, db': Db, b: Booking)
    requires CountersMatch(db)
    requires b.event in db.events
    requires db'.bookings == db.bookings + [b]
    requires db'.events.Keys == db.events.Keys
    requires db'.events[b.event].bookedTickets == db.events[b.event].bookedTickets + b.tickets
    requires forall id | id in db.events && id != b.event :: db'.events[id] == db.events[id]
    ensures CountersMatch(db')
  {
    forall e | e in db'.events
      ensures db'.events[e].bookedTickets == SumTickets(BookingsOf(db'.bookings, e))
    {
      BookingsOfConcat(db.bookings, [b], e);
      SumTicketsConcat(BookingsOf(db.bookings, e), BookingsOf([b], e));
      assert BookingsOf([b], e) == if b.event == e then [b] else [];
    }
  }

  lemma AppendWellFormed(db: Db, db': Db, b: Booking)
    requires WellFormed(db)
    requires b.event in db.events && b.id == db.nextId && b.tickets >= 1 && b.totalPrice >= 0
    requires db'.nextId == db.nextId + 1 && db'.bookings == db.bookings + [b]
    requires db'.events.Keys == db.events.Keys
    ensures WellFormed(db')
  {
    forall i, j | 0 <= i < j < |db'.bookings| ensures db'.bookings[i].id < db'.bookings[j].id {
      if j == |db.bookings| {
        assert db'.bookings[i] in db.bookings;
      }
    }
    forall x | x in db'.bookings
      ensures x.tickets >= 1 && x.totalPrice >= 0 && x.id < db'.nextId && x.event < db'.nextId
    {
      assert x in db.bookings || x == b;
    }
  }

  /** The consistent ledger credits a cancelled booking back to its event, never below zero. */
  lemma CancelBookingKeepsInvariants(db: Db, caller: UserId, bookingId: BookingId)
    requires Consistent(db)
    ensures Consistent(CancelBooking(db, caller, bookingId).1)
    ensures NoOrphans(db) ==> NoOrphans(CancelBooking(db, caller, bookingId).1)
    ensures WithinCapacity(db) ==> WithinCapacity(CancelBooking(db, caller, bookingId).1)
    ensures forall e | e in CancelBooking(db, caller, bookingId).1.events ::
              CancelBooking(db, caller, bookingId).1.events[e].bookedTickets >= 0
  {
    var (res, db') := CancelBooking(db, caller, bookingId);
    if res.Done? {
      var i := Find(db.bookings, bookingId).value;
      assert db.bookings[i] in db.bookings;
      RemovalKeepsInvariants(db, db', i);
    } else {
      CountersNonNegative(db);
    }
  }

  /** The administrator's cancel keeps the ledger invariant, orphan-freedom and capacity. */
  lemma AdminCancelKeepsInvariants(db: Db, bookingId: BookingId)
    requires Consistent(db)
    ensures Consistent(AdminCancelBooking(db, bookingId).1)
    ensures NoOrphans(db) ==> NoOrphans(AdminCancelBooking(db, bookingId).1)
    ensures WithinCapacity(db) ==> WithinCapacity(AdminCancelBooking(db, bookingId).1)
  {
    var (res, db') := AdminCancelBooking(db, bookingId);
    if res.Done? {
      var i := Find(db.bookings, bookingId).value;
      if db.bookings[i].event in db.events {
        SumTicketsCoversMember(db.bookings, i);
      }
      RemovalKeepsInvariants(db, db', i);
    }
  }

  /** On a consistent ledger the clamp never fires: the administrator's cancel is the holder's cancel. */
  lemma AdminCancelIsHolderCancel(db: Db, bookingId: BookingId)
    requires Consistent(db) && Find(db.bookings, bookingId).Some?
    ensures AdminCancelBooking(db, bookingId).1
              == CancelBooking(db, db.bookings[Find(db.bookings, bookingId).value].user, bookingId).1
  {
    var i := Find(db.bookings, bookingId).value;
    var b := db.bookings[i];
    assert b in db.bookings;
    assert Reserved(b) == b.tickets;
    var events := db.events;
    if b.event in db.events {
      SumTicketsCoversMember(db.bookings, i);
      var e := db.events[b.event];
      var left := e.bookedTickets - b.tickets;
      assert e.(bookedTickets := if left > 0 then left else 0) == e.(bookedTickets := e.bookedTickets + -Reserved(b));
      events := db.events[b.event := e.(bookedTickets := e.bookedTickets + -Reserved(b))];
    }
    var db' := db.(events := events, bookings := RemoveAt(db.bookings, i));
    AdminCancelAccepted(db, db', bookingId, i);
    CancelBookingAccepted(db, db', b.user, bookingId, i);
  }

  /** Removing booking `i` and crediting its tickets back to its event keeps the invariants. */
  lemma RemovalKeepsInvariants(db: Db, db': Db, i: nat)
    requires Consistent(db) && i < |db.bookings|
    requires db'.bookings == RemoveAt(db.bookings, i)
    requires db'.nextId == db.nextId
    requires db'.events.Keys == db.events.Keys
    requires var b := db.bookings[i];
      && (b.event in db.events ==>
            db'.events[b.event] == db.events[b.event].(bookedTickets := db.events[b.event].bookedTickets - b.tickets))
      && (forall id | id in db.events && id != b.event :: db'.events[id] == db.events[id])
    ensures Consistent(db')
    ensures NoOrphans(db) ==> NoOrphans(db')
    ensures WithinCapacity(db) ==> WithinCapacity(db')
    ensures forall e | e in db'.events :: db'.events[e].bookedTickets >= 0
  {
    RemovalWellFormed(db, db', i);
    RemovalCountersMatch(db, db', i);
    RemovalKeepsBounds(db, db', i);
  }

  /** After a removal every counter is the sum of its event's bookings again, and not negative. */
  lemma RemovalCountersMatch(db: Db, db': Db, i: nat)
    requires Consistent(db) && i < |db.bookings|
    requires db'.bookings == RemoveAt(db.bookings, i)
    requires db'.events.Keys == db.events.Keys
    requires var b := db.bookings[i];
      && (b.event in db.events ==>
            db'.events[b.event] == db.events[b.event].(bookedTickets := db.events[b.event].bookedTickets - b.tickets))
      && (forall id | id in db.events && id != b.event :: db'.events[id] == db.events[id])
    ensures CountersMatch(db')
    ensures forall e | e in db'.events :: db'.events[e].bookedTickets >= 0
  {
    forall e | e in db'.events
      ensures db'.events[e].bookedTickets == SumTickets(BookingsOf(db'.bookings, e))
      ensures db'.events[e].bookedTickets >= 0
    {
      RemovalCounter(db, db', i, e);
    }
  }

  /** A removal never adds an orphan, and a lowered counter stays within capacity. */
  lemma RemovalKeepsBounds(db: Db, db': Db, i: nat)
    requires Consistent(db) && i < |db.bookings|
    requires db'.bookings == RemoveAt(db.bookings, i)
    requires db'.events.Keys == db.events.Keys
    requires var b := db.bookings[i];
      && (b.event in db.events ==>
            db'.events[b.event] == db.events[b.event].(bookedTickets := db.events[b.event].bookedTickets - b.tickets))
      && (forall id | id in db.events && id != b.event :: db'.events[id] == db.events[id])
    ensures NoOrphans(db) ==> NoOrphans(db')
    ensures WithinCapacity(db) ==> WithinCapacity(db')
  {
    assert db.bookings[i] in db.bookings;
  }


  /** Removing a booking keeps the stored documents well formed. */
  lemma RemovalWellFormed(db: Db, db': Db, i: nat)
    requires WellFormed(db) && i < |db.bookings|
    requires db'.bookings == RemoveAt(db.bookings, i)
    requires db'.nextId == db.nextId
    requires db'.events.Keys == db.events.Keys
    ensures WellFormed(db')
  {
    RemoveAtAscending(db.bookings, i);
  }

  /** After a removal one event's counter, lowered by the removed tickets when they were its own, is its sum again. */
  lemma RemovalCounter(db: Db, db': Db, i: nat, e: EventId)
    requires WellFormed(db) && i < |db.bookings|
    requires e in db.events && db.events[e].bookedTickets == SumTickets(BookingsOf(db.bookings, e))
    requires db'.bookings == RemoveAt(db.bookings, i)
    requires e in db'.events
    requires db'.events[e].bookedTickets
             == db.events[e].bookedTickets - (if db.bookings[i].event == e then db.bookings[i].tickets else 0)
    ensures db'.events[e].bookedTickets == SumTickets(BookingsOf(db'.bookings, e))
    ensures db'.events[e].bookedTickets >= 0
  {
    SumTicketsRemoveAt(db.bookings, i, e);
    forall b | b in BookingsOf(db'.bookings, e) ensures b.tickets >= 1 {
      assert b in db.bookings;
    }
    SumTicketsNonNegative(BookingsOf(db'.bookings, e));
  }


  /** On a consistent ledger every counter is a sum of positive ticket counts. */
  lemma CountersNonNegative(db: Db)
    requires Consistent(db)
    ensures forall e | e in db.events :: db.events[e].bookedTickets >= 0
  {
    forall e | e in db.events ensures db.events[e].bookedTickets >= 0 {
      forall b | b in BookingsOf(db.bookings, e) ensures b.tickets >= 1 {
        assert b in db.bookings;
      }
      SumTicketsNonNegative(BookingsOf(db.bookings, e));
    }
  }

  /** The cascade leaves no booking of the deleted event and every other event's bookings as they were. */
  lemma AdminDeleteKeepsInvariants(db: Db, eventId: EventId)
    requires Consistent(db)
    ensures Consistent(AdminDeleteEvent(db, eventId).1)
    ensures NoOrphans(db) ==> NoOrphans(AdminDeleteEvent(db, eventId).1)
    ensures WithinCapacity(db) ==> WithinCapacity(AdminDeleteEvent(db, eventId).1)
  {
    if eventId in db.events {
      CascadeWellFormed(db, eventId);
      CascadeCountersMatch(db, eventId);
    }
  }

  /** The cascade leaves no booking of the deleted event and every other event's bookings as they were. */
  lemma AdminDeleteSelections(db: Db, eventId: EventId)
    ensures AdminDeleteEvent(db, eventId).0.Done? ==>
              BookingsOf(AdminDeleteEvent(db, eventId).1.bookings, eventId) == []
    ensures forall e | e != eventId ::
              BookingsOf(AdminDeleteEvent(db, eventId).1.bookings, e) == BookingsOf(db.bookings, e)
  {
    var (res, db') := AdminDeleteEvent(db, eventId);
    if res.Done? {
      forall e ensures BookingsOf(db'.bookings, e) == if e == eventId then [] else BookingsOf(db.bookings, e) {
        OtherEventsKeepsOthers(db.bookings, eventId, e);
      }
    }
  }

  /** After the cascade every remaining counter is still the sum of its event's bookings. */
  lemma CascadeCountersMatch(db: Db, eventId: EventId)
    requires CountersMatch(db)
    ensures CountersMatch(db.(events := db.events - {eventId}, bookings := OtherEvents(db.bookings, eventId)))
  {
    forall e | e in db.events - {eventId}
      ensures BookingsOf(OtherEvents(db.bookings, eventId), e) == BookingsOf(db.bookings, e)
    {
      OtherEventsKeepsOthers(db.bookings, eventId, e);
    }
  }


  /** Dropping an event together with its bookings keeps the stored documents well formed. */
  lemma CascadeWellFormed(db: Db, eventId: EventId)
    requires WellFormed(db)
    ensures WellFormed(db.(events := db.events - {eventId}, bookings := OtherEvents(db.bookings, eventId)))
  {
    OtherEventsAscending(db.bookings, eventId);
  }


  // ---------------------------------------------------------------------------
  // Round trip

  /**
   * Booking tickets and then cancelling that booking as its holder gives back
   * the database as it was (only the id allocator has moved on).
   */
  lemma {:induction false} ReleaseRestoresCapacity(db: Db, caller: UserId, eventId: EventId, tickets: int)
    requires WellFormed(db)
    requires CreateBooking(db, caller, Some(eventId), Some(tickets)).0.Ok?
    ensures var (res, db1) := CreateBooking(db, caller, Some(eventId), Some(tickets));
            CancelBooking(db1, caller, res.value.id) == (Done, db.(nextId := db.nextId + 1))
  {
    var e := db.events[eventId];
    var b := Booking(db.nextId, eventId, caller, tickets, tickets, TotalPrice(e.price, tickets));
    var db1 := db.(events := db.events[eventId := e.(bookedTickets := e.bookedTickets + tickets)],
                   bookings := db.bookings + [b], nextId := db.nextId + 1);
    CreateBookingAccepted(db, db1, caller, b);
    CancelNewest(db, db1, b);
  }

  /** Cancelling the booking just appended gives back the events and bookings as they were. */
  lemma CancelNewest(db: Db, db1: Db, b: Booking)
    requires WellFormed(db) && b.event in db.events && b.id == db.nextId && b.tickets >= 1
    requires Appended(db, db1, b)
    ensures CancelBooking(db1, b.user, b.id) == (Done, db.(nextId := db.nextId + 1))
  {
    var e := db.events[b.event];
    var e1 := e.(bookedTickets := e.bookedTickets + b.tickets);
    FindLast(db.bookings, b);
    assert RemoveAt(db1.bookings, |db.bookings|) == db.bookings;
    assert e1.(bookedTickets := e1.bookedTickets - Reserved(b)) == e;
    assert db1.events[b.event := e] == db.events;
  }


  /** A booking with an id above every stored one is found at the end. */
  lemma {:induction false} FindLast(bs: seq<Booking>, b: Booking)
    requires forall x | x in bs :: x.id < b.id
    ensures Find(bs + [b], b.id) == Some(|bs|)
  {
    if bs != [] {
      assert (bs + [b])[1..] == bs[1..] + [b];
      FindLast(bs[1..], b);
    }
  }

  /** Two tickets sold out, a third refused without change, a cancel frees them, a rebooking succeeds. */
  lemma {:induction false} SoldOutScenario(a: UserId, c: UserId, ev: Event)
    requires ev.totalTickets == 2 && ev.bookedTickets == 0 && ev.price == 500
    ensures var db0 := Db(map[7 := ev], [], map[], 8);
      var (r1, db1) := CreateBooking(db0, a, Some(7), Some(2));
      var (r2, db2) := CreateBooking(db1, c, Some(7), Some(1));
      var (r3, db3) := CancelBooking(db2, a, r1.value.id);
      var (r4, db4) := CreateBooking(db3, c, Some(7), Some(1));
      && r1.Ok? && db1.events[7].bookedTickets == 2
      && r2 == Err(NotEnoughTickets) && db2 == db1
      && r3 == Done && db3.events[7].bookedTickets == 0
      && r4.Ok? && db4.events[7].bookedTickets == 1
  {
    var db0 := Db(map[7 := ev], [], map[], 8);
    var (r1, db1) := CreateBooking(db0, a, Some(7), Some(2));
    var (r2, db2) := CreateBooking(db1, c, Some(7), Some(1));
    assert Find(db2.bookings, r1.value.id) == Some(0);
  }
}
