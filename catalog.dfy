/**
 * The event catalogue: create, edit, delete and list-bookings of
 * Backend/controllers/eventController.js, and the administrator's edit of
 * Backend/controllers/adminController.js. None of them touches a
 * `bookedTickets` counter; the owner's delete leaves the event's bookings in
 * place and both edits may set a capacity below the tickets already booked.
 */
module Catalog {
  import opened Domain
  import opened Text
  import opened Aggregates
  import opened Ledger

  /** The fields of a create request. `totalTickets` None: absent, the schema default 0 applies. */
  datatype EventInput = EventInput(
    title: string,
    date: int,
    location: string,
    description: string,
    price: int,
    totalTickets: Option<int>,
    imageUrl: string)

  /**
   * The fields of an edit request. A string field is falsy when "", a number
   * when None or 0; `date` arrives as a string, so None stands for an absent
   * or empty one and any Some is truthy.
   */
  datatype EventPatch = EventPatch(
    title: string,
    date: Option<int>,
    location: string,
    description: string,
    price: Option<int>,
    totalTickets: Option<int>,
    imageUrl: string)

  /** JavaScript truthiness of an optional number. */
  predicate TruthyNumber(n: Option<int>)
  {
    n.Some? && n.value != 0
  }

  /** `given || current` on strings. */
  function OrString(given: string, current: string): string
  {
    if given != "" then given else current
  }

  /** `given || current` on numbers. */
  function OrNumber(given: Option<int>, current: int): int
  {
    if TruthyNumber(given) then given.value else current
  }

  /** The owner-or-admin check shared by edit, delete and list-bookings. */
  predicate MayManage(caller: Identity, e: Event)
  {
    caller.role == RoleAdmin || e.createdBy == caller.userId
  }

  /**
   * The role createEvent checks: the token's role, or, for a token without
   * one, the role of the stored user (None when there is no such user).
   */
  function CreatorRole(db: Db, caller: Identity): (r: Option<string>)
    ensures caller.role != "" ==> r == Some(caller.role)
    ensures caller.role == "" ==> (r.Some? <==> caller.userId in db.users)
    ensures caller.role == "" && r.Some? ==> r.value == db.users[caller.userId].role
  {
    if caller.role != "" then Some(caller.role)
    else if caller.userId in db.users then Some(db.users[caller.userId].role)
    else None
  }

  /** The image createEvent stores: an uploaded file's path with `/` separators, else the trimmed URL. */
  function CreateImage(imageUrl: string, upload: Option<string>): string
  {
    if upload.Some? then ReplaceBackslashes(upload.value) else Trim(imageUrl)
  }

  /** The image updateEvent stores: an upload, else a given URL trimmed, else the current image. */
  function UpdateImage(imageUrl: string, upload: Option<string>, current: string): string
  {
    if upload.Some? then ReplaceBackslashes(upload.value)
    else if imageUrl != "" then Trim(imageUrl)
    else current
  }

  /** The schema's `required` string fields, which reject an empty string at save. */
  predicate RequiredFieldsPresent(input: EventInput)
  {
    input.title != "" && input.location != "" && input.description != ""
  }

  // ---------------------------------------------------------------------------
  // eventController.createEvent

  /** An organiser publishes a new event under a fresh id; it starts with no tickets booked. */
  function CreateEvent(db: Db, caller: Identity, input: EventInput, upload: Option<string>)
    : (r: (Result<EventId>, Db))
    ensures r.0.Err? ==> r.1 == db
    ensures r.0 == Err(Forbidden) <==> CreatorRole(db, caller) != Some(RoleOrganizer)
    ensures r.0 == Err(ImageRequired)
            <==> CreatorRole(db, caller) == Some(RoleOrganizer) && CreateImage(input.imageUrl, upload) == ""
    ensures r.0 == Err(ServerError)
            <==> && CreatorRole(db, caller) == Some(RoleOrganizer) && CreateImage(input.imageUrl, upload) != ""
                 && !RequiredFieldsPresent(input)
    ensures r.0.Ok? ==>
      var id := r.0.value;
      && id == db.nextId
      && r.1.events.Keys == db.events.Keys + {id}
      && (forall k | k in db.events && k != id :: r.1.events[k] == db.events[k])
      && r.1.events[id].createdBy == caller.userId
      && r.1.events[id].bookedTickets == 0
      && r.1.events[id].totalTickets == (if input.totalTickets.Some? then input.totalTickets.value else 0)
      && r.1.events[id].imageUrl != ""
      && r.1.events[id].imageUrl == CreateImage(input.imageUrl, upload)
      && r.1.bookings == db.bookings && r.1.users == db.users && r.1.nextId == db.nextId + 1
  {
    if CreatorRole(db, caller) != Some(RoleOrganizer) then (Err(Forbidden), db)
    else
      var image := CreateImage(input.imageUrl, upload);
      if image == "" then (Err(ImageRequired), db)
      else if !RequiredFieldsPresent(input) then (Err(ServerError), db)
      else
        var total := if input.totalTickets.Some? then input.totalTickets.value else 0;
        var e := Event(input.title, input.date, input.location, input.description, input.price,
                       image, caller.userId, total, 0);
        (Ok(db.nextId), db.(events := db.events[db.nextId := e], nextId := db.nextId + 1))
  }

  /** An accepted creation spelled out: the event built from the input goes in under the next id. */
  lemma CreateEventAccepted(db: Db, db': Db, caller: Identity, input: EventInput, upload: Option<string>, e: Event)
    requires CreatorRole(db, caller) == Some(RoleOrganizer)
    requires CreateImage(input.imageUrl, upload) != "" && RequiredFieldsPresent(input)
    requires e == Event(input.title, input.date, input.location, input.description, input.price,
                        CreateImage(input.imageUrl, upload), caller.userId,
                        if input.totalTickets.Some? then input.totalTickets.value else 0, 0)
    requires db' == db.(events := db.events[db.nextId := e], nextId := db.nextId + 1)
    ensures CreateEvent(db, caller, input, upload) == (Ok(db.nextId), db')
  {
  }

  // ---------------------------------------------------------------------------
  // eventController.updateEvent and adminController.updateEvent

  /** The owner's (or an admin's) edit: every field keeps its old value unless the new one is truthy. */
  function UpdateEvent(db: Db, caller: Identity, eventId: EventId, patch: EventPatch, upload: Option<string>)
    : (r: (Result<Event>, Db))
    ensures r.0.Err? ==> r.1 == db
    ensures r.0 == Err(NotFound) <==> eventId !in db.events
    ensures r.0 == Err(Forbidden) <==> eventId in db.events && !MayManage(caller, db.events[eventId])
    ensures eventId in db.events && MayManage(caller, db.events[eventId]) ==> r.0.Ok?
    ensures r.0.Ok? ==>
      && eventId in db.events
      && r.1 == db.(events := db.events[eventId := r.0.value])
    ensures r.0.Ok? ==>
      var was := db.events[eventId];
      var e := r.0.value;
      && e.title == OrString(patch.title, was.title)
      && e.date == (if patch.date.Some? then patch.date.value else was.date)
      && e.location == OrString(patch.location, was.location)
      && e.description == OrString(patch.description, was.description)
      && e.price == OrNumber(patch.price, was.price)
      && e.totalTickets == OrNumber(patch.totalTickets, was.totalTickets)
      && e.imageUrl == UpdateImage(patch.imageUrl, upload, was.imageUrl)
      && e.createdBy == was.createdBy
      && e.bookedTickets == was.bookedTickets
  {
    if eventId !in db.events then (Err(NotFound), db)
    else
      var was := db.events[eventId];
      if !MayManage(caller, was) then (Err(Forbidden), db)
      else
        var e := was.(
          title := OrString(patch.title, was.title),
          date := if patch.date.Some? then patch.date.value else was.date,
          location := OrString(patch.location, was.location),
          description := OrString(patch.description, was.description),
          price := OrNumber(patch.price, was.price),
          totalTickets := OrNumber(patch.totalTickets, was.totalTickets),
          imageUrl := UpdateImage(patch.imageUrl, upload, was.imageUrl));
        (Ok(e), db.(events := db.events[eventId := e]))
  }

  /**
   * The administrator's edit: truthy fields replace the old ones, and
   * `totalTickets` is replaced whenever it is given, 0 included. The image is
   * not editable here.
   */
  function AdminUpdateEvent(db: Db, eventId: EventId, patch: EventPatch): (r: (Result<Event>, Db))
    ensures r.0.Err? ==> r.1 == db
    ensures r.0 == Err(NotFound) <==> eventId !in db.events
    ensures eventId in db.events ==> r.0.Ok?
    ensures r.0.Ok? ==>
      && eventId in db.events
      && r.1 == db.(events := db.events[eventId := r.0.value])
    ensures r.0.Ok? ==>
      var was := db.events[eventId];
      var e := r.0.value;
      && e.title == OrString(patch.title, was.title)
      && e.date == (if patch.date.Some? then patch.date.value else was.date)
      && e.location == OrString(patch.location, was.location)
      && e.description == OrString(patch.description, was.description)
      && e.price == OrNumber(patch.price, was.price)
      && e.totalTickets == (if patch.totalTickets.Some? then patch.totalTickets.value else was.totalTickets)
      && e.imageUrl == was.imageUrl
      && e.createdBy == was.createdBy
      && e.bookedTickets == was.bookedTickets
  {
    if eventId !in db.events then (Err(NotFound), db)
    else
      var was := db.events[eventId];
      var e := was.(
        title := OrString(patch.title, was.title),
        date := if patch.date.Some? then patch.date.value else was.date,
        location := OrString(patch.location, was.location),
        description := OrString(patch.description, was.description),
        price := OrNumber(patch.price, was.price),
        totalTickets := if patch.totalTickets.Some? then patch.totalTickets.value else was.totalTickets);
      (Ok(e), db.(events := db.events[eventId := e]))
  }

  // ---------------------------------------------------------------------------
  // eventController.deleteEvent and eventController.getEventBookings

  /** The owner's (or an admin's) delete: the event goes, its bookings stay. */
  function DeleteEvent(db: Db, caller: Identity, eventId: EventId): (r: (Outcome, Db))
    ensures r.0.Fail? ==> r.1 == db
    ensures r.0 == Fail(NotFound) <==> eventId !in db.events
    ensures r.0 == Fail(Unauthorized) <==> eventId in db.events && !MayManage(caller, db.events[eventId])
    ensures eventId in db.events && MayManage(caller, db.events[eventId]) ==> r.0.Done?
    ensures r.0.Done? ==>
      && eventId in db.events
      && r.1.events.Keys == db.events.Keys - {eventId}
      && (forall k | k in r.1.events :: r.1.events[k] == db.events[k])
      && r.1.bookings == db.bookings && r.1.users == db.users && r.1.nextId == db.nextId
  {
    if eventId !in db.events then (Fail(NotFound), db)
    else if !MayManage(caller, db.events[eventId]) then (Fail(Unauthorized), db)
    else (Done, db.(events := db.events - {eventId}))
  }

  /** The bookings of one event, for its owner or an admin. */
  function GetEventBookings(db: Db, caller: Identity, eventId: EventId): (r: Result<seq<Booking>>)
    ensures r == Err(NotFound) <==> eventId !in db.events
    ensures r == Err(Forbidden) <==> eventId in db.events && !MayManage(caller, db.events[eventId])
    ensures eventId in db.events && MayManage(caller, db.events[eventId]) ==> r.Ok?
    ensures r.Ok? ==> forall b {:trigger b in r.value} :: b in r.value <==> b in db.bookings && b.event == eventId
    ensures r.Ok? && Consistent(db) ==> SumTickets(r.value) == db.events[eventId].bookedTickets
  {
    if eventId !in db.events then Err(NotFound)
    else if !MayManage(caller, db.events[eventId]) then Err(Forbidden)
    else Ok(BookingsOf(db.bookings, eventId))
  }

  // ---------------------------------------------------------------------------
  // Lemmas

  /** A new event gets an id no event or booking uses yet, and the ledger invariant survives. */
  lemma CreateEventKeepsInvariants(db: Db, caller: Identity, input: EventInput, upload: Option<string>)
    requires Consistent(db)
    ensures var (res, db') := CreateEvent(db, caller, input, upload);
      && (res.Ok? ==> res.value !in db.events && BookingsOf(db.bookings, res.value) == [])
      && Consistent(db')
      && (NoOrphans(db) ==> NoOrphans(db'))
      && (WithinCapacity(db) && (input.totalTickets.None? || input.totalTickets.value >= 0)
          ==> WithinCapacity(db'))
  {
    var (res, db') := CreateEvent(db, caller, input, upload);
    if res.Ok? {
      InsertEventKeepsLedger(db, db'.events[res.value]);
    }
  }

  /** Inserting an event with nothing booked under the next id keeps every ledger property. */
  lemma InsertEventKeepsLedger(db: Db, e: Event)
    requires Consistent(db) && e.bookedTickets == 0
    ensures db.nextId !in db.events && BookingsOf(db.bookings, db.nextId) == []
    ensures Consistent(db.(events := db.events[db.nextId := e], nextId := db.nextId + 1))
    ensures NoOrphans(db) ==> NoOrphans(db.(events := db.events[db.nextId := e], nextId := db.nextId + 1))
    ensures WithinCapacity(db) && e.totalTickets >= 0 ==>
      WithinCapacity(db.(events := db.events[db.nextId := e], nextId := db.nextId + 1))
  {
    BookingsOfNone(db.bookings, db.nextId);
    InsertEventCountersMatch(db, e);
  }

  /** The new event's counter 0 is the sum of its (no) bookings; every other counter is untouched. */
  lemma InsertEventCountersMatch(db: Db, e: Event)
    requires CountersMatch(db) && e.bookedTickets == 0
    requires BookingsOf(db.bookings, db.nextId) == []
    ensures CountersMatch(db.(events := db.events[db.nextId := e], nextId := db.nextId + 1))
  {
  }


  /** Both edits leave every counter, and so the ledger invariant, as it was. */
  lemma EditsKeepInvariants(db: Db, caller: Identity, eventId: EventId, patch: EventPatch, upload: Option<string>)
    requires Consistent(db)
    ensures Consistent(UpdateEvent(db, caller, eventId, patch, upload).1)
    ensures Consistent(AdminUpdateEvent(db, eventId, patch).1)
    ensures NoOrphans(db) ==> NoOrphans(UpdateEvent(db, caller, eventId, patch, upload).1)
    ensures NoOrphans(db) ==> NoOrphans(AdminUpdateEvent(db, eventId, patch).1)
  {
    var (r1, db1) := UpdateEvent(db, caller, eventId, patch, upload);
    if r1.Ok? {
      SameCounterKeepsLedger(db, eventId, r1.value);
    }
    var (r2, db2) := AdminUpdateEvent(db, eventId, patch);
    if r2.Ok? {
      SameCounterKeepsLedger(db, eventId, r2.value);
    }
  }

  /** The owner's edit cannot clear the price or the capacity: 0 is falsy and keeps the old value. */
  lemma UpdateCannotSetZero(db: Db, caller: Identity, eventId: EventId, patch: EventPatch, upload: Option<string>)
    requires eventId in db.events
    requires db.events[eventId].price != 0 && db.events[eventId].totalTickets != 0
    ensures var r := UpdateEvent(db, caller, eventId, patch, upload).0;
      r.Ok? ==> r.value.price != 0 && r.value.totalTickets != 0
  {
  }

  /** The administrator's edit sets the capacity below the booked tickets when asked to. */
  lemma AdminUpdateCanOverbook(db: Db, eventId: EventId, patch: EventPatch)
    requires eventId in db.events
    requires patch.totalTickets.Some? && patch.totalTickets.value < db.events[eventId].bookedTickets
    ensures !WithinCapacity(AdminUpdateEvent(db, eventId, patch).1)
  {
    var db' := AdminUpdateEvent(db, eventId, patch).1;
    assert db'.events[eventId].bookedTickets > db'.events[eventId].totalTickets;
  }

  /** So does the owner's edit, for any non-zero capacity below the booked tickets. */
  lemma UpdateCanOverbook(db: Db, caller: Identity, eventId: EventId, patch: EventPatch, upload: Option<string>)
    requires eventId in db.events && MayManage(caller, db.events[eventId])
    requires TruthyNumber(patch.totalTickets)
    requires patch.totalTickets.value < db.events[eventId].bookedTickets
    ensures !WithinCapacity(UpdateEvent(db, caller, eventId, patch, upload).1)
  {
    var db' := UpdateEvent(db, caller, eventId, patch, upload).1;
    assert db'.events[eventId].bookedTickets > db'.events[eventId].totalTickets;
  }

  /** An event whose capacity has been cut to its bookings or below refuses every new booking. */
  lemma FullEventRefusesBookings(db: Db, caller: UserId, eventId: EventId, tickets: Option<int>)
    requires eventId in db.events
    requires db.events[eventId].bookedTickets >= db.events[eventId].totalTickets
    requires db.events[eventId].bookedTickets >= 0
    ensures CreateBooking(db, caller, Some(eventId), tickets).0.Err?
    ensures CreateBooking(db, caller, Some(eventId), tickets).1 == db
  {
  }

  /**
   * The owner's delete keeps every remaining counter right, but the deleted
   * event's bookings stay behind and reference an event that is gone.
   */
  lemma DeleteEventLeavesOrphans(db: Db, caller: Identity, eventId: EventId)
    requires Consistent(db)
    ensures Consistent(DeleteEvent(db, caller, eventId).1)
    ensures WithinCapacity(db) ==> WithinCapacity(DeleteEvent(db, caller, eventId).1)
    ensures DeleteEvent(db, caller, eventId).0.Done? ==>
      (NoOrphans(DeleteEvent(db, caller, eventId).1) <==> NoOrphans(db) && BookingsOf(db.bookings, eventId) == [])
  {
    var (res, db') := DeleteEvent(db, caller, eventId);
    if res.Done? {
      if BookingsOf(db.bookings, eventId) != [] {
        var b := BookingsOf(db.bookings, eventId)[0];
        assert b in db'.bookings && b.event !in db'.events;
      }
      if NoOrphans(db') {
        forall b | b in db.bookings ensures b.event in db.events {
          assert b in db'.bookings;
        }
      }
      if NoOrphans(db) && BookingsOf(db.bookings, eventId) == [] {
        forall b | b in db'.bookings ensures b.event in db'.events {
          assert b !in BookingsOf(db.bookings, eventId);
        }
      }
    }
  }
}
