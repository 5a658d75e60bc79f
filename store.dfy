/**
 * The backend as one in-memory store: the three collections the controllers
 * read and write, and one method per state-changing handler. Each method runs
 * the handler's guards and then mutates the collections in the handler's own
 * order; its postcondition ties the reply and the new contents to the
 * transition function that specifies the handler, whose properties are
 * proved in Ledger, Catalog and Accounts.
 *
 * The store keeps the ledger invariant (every event's `bookedTickets` equals
 * the tickets of the bookings that reference it) across every handler,
 * together with the unique indexes on usernames and emails. Authentication
 * and the admin route gate come in as the caller's identity: the admin
 * methods are the handlers behind that gate.
 */
module Backend {
  import opened Domain
  import opened Aggregates
  import Ledger
  import Catalog
  import Accounts

  class Store {
    /** `Event` documents by id. */
    var events: map<EventId, Event>
    /** `Booking` documents in insertion order. */
    var bookings: seq<Booking>
    /** `User` documents by id. */
    var users: map<UserId, User>
    /** The id the next inserted document receives. */
    var nextId: nat
    /** The `ADMIN_SECRET` environment variable; "" when unset. */
    const configuredSecret: string

    function State(): Db
      reads this
    {
      Db(events, bookings, users, nextId)
    }

    /** The ledger invariant and the unique indexes. */
    ghost predicate Valid()
      reads this
    {
      && Ledger.Consistent(State())
      && Accounts.UniqueAccounts(users)
      && Accounts.IdsAllocated(State())
    }

    /** An empty database. */
    constructor(configured: string)
      ensures State() == Db(map[], [], map[], 0)
      ensures configuredSecret == configured
      ensures Valid()
    {
      events := map[];
      bookings := [];
      users := map[];
      nextId := 0;
      configuredSecret := configured;
    }

    // -------------------------------------------------------------------------
    // Document writes: the single-document operations the handlers issue

    /** `booking.save()` on a new booking: it is appended and takes the next id. */
    method InsertBooking(b: Booking)
      modifies this
      ensures State() == old(State()).(bookings := old(bookings) + [b], nextId := old(nextId) + 1)
    {
      bookings := bookings + [b];
      nextId := nextId + 1;
    }

    /** `Event.updateOne({ _id: id }, { $inc: { bookedTickets: delta } })` on an existing event. */
    method IncrementBooked(id: EventId, delta: int)
      requires id in events
      modifies this
      ensures State() == old(State()).(events := old(events)[id := old(events)[id].(
                                         bookedTickets := old(events)[id].bookedTickets + delta)])
    {
      var e := events[id];
      events := events[id := e.(bookedTickets := e.bookedTickets + delta)];
    }

    /** `event.save()`: the document under `id` is replaced. */
    method SaveEvent(id: EventId, e: Event)
      modifies this
      ensures State() == old(State()).(events := old(events)[id := e])
    {
      events := events[id := e];
    }

    /** `booking.deleteOne()` on the booking at index `i`. */
    method DeleteBookingAt(i: nat)
      requires i < |bookings|
      modifies this
      ensures State() == old(State()).(bookings := RemoveAt(old(bookings), i))
    {
      bookings := RemoveAt(bookings, i);
    }

    // -------------------------------------------------------------------------
    // bookingController

    /** `createBooking`: validate, check capacity, insert the booking, then `$inc` the counter. */
    method CreateBooking(caller: UserId, eventId: Option<EventId>, tickets: Option<int>) returns (r: Result<Booking>)
      requires Valid()
      modifies this
      ensures (r, State()) == Ledger.CreateBooking(old(State()), caller, eventId, tickets)
      ensures Valid()
    {
      ghost var before := State();
      if !Ledger.ValidBookingRequest(eventId, tickets) {
        return Err(InvalidBookingRequest);
      }
      var id, t := eventId.value, tickets.value;
      if id !in events {
        return Err(NotFound);
      }
      var e := events[id];
      if e.bookedTickets + t > e.totalTickets {
        return Err(NotEnoughTickets);
      }
      var b := Booking(nextId, id, caller, t, t, TotalPrice(e.price, t));
      if b.totalPrice < 0 {
        return Err(ServerError);
      }
      InsertBooking(b);
      IncrementBooked(id, t);
      r := Ok(b);
      Ledger.CreateBookingAccepted(before, State(), caller, b);
      Ledger.AcceptedKeepsInvariants(before, State(), b);
    }

    /** `cancelBooking`: holder only; the counter drops by the booking's tickets, then the booking goes. */
    method CancelBooking(caller: UserId, bookingId: BookingId) returns (r: Outcome)
      requires Valid()
      modifies this
      ensures (r, State()) == Ledger.CancelBooking(old(State()), caller, bookingId)
      ensures Valid()
    {
      ghost var before := State();
      var found := Find(bookings, bookingId);
      if found.None? {
        return Fail(NotFound);
      }
      var i := found.value;
      var b := bookings[i];
      if b.user != caller {
        return Fail(NotBookingHolder);
      }
      if b.event in events {
        IncrementBooked(b.event, -Ledger.Reserved(b));
      }
      DeleteBookingAt(i);
      r := Done;
      Ledger.CancelBookingAccepted(before, State(), caller, bookingId, i);
      Ledger.CancelAcceptedKeepsInvariants(before, State(), i);
    }

    // -------------------------------------------------------------------------
    // adminController

    /** The administrator's `cancelBooking`: the counter drops, clamped at 0, then the booking goes. */
    method AdminCancelBooking(bookingId: BookingId) returns (r: Outcome)
      requires Valid()
      modifies this
      ensures (r, State()) == Ledger.AdminCancelBooking(old(State()), bookingId)
      ensures Valid()
    {
      ghost var before := State();
      var found := Find(bookings, bookingId);
      if found.None? {
        return Fail(NotFound);
      }
      var i := found.value;
      var b := bookings[i];
      if b.event in events {
        SumTicketsCoversMember(bookings, i);
        var e := events[b.event];
        var left := e.bookedTickets - b.tickets;
        SaveEvent(b.event, e.(bookedTickets := if left > 0 then left else 0));
      }
      DeleteBookingAt(i);
      r := Done;
      Ledger.AdminCancelAccepted(before, State(), bookingId, i);
      Ledger.RemovalKeepsInvariants(before, State(), i);
    }

    /** The administrator's `deleteEvent`: the event's bookings go first, then the event. */
    method AdminDeleteEvent(eventId: EventId) returns (r: Outcome)
      requires Valid()
      modifies this
      ensures (r, State()) == Ledger.AdminDeleteEvent(old(State()), eventId)
      ensures Valid()
    {
      ghost var before := State();
      if eventId !in events {
        return Fail(NotFound);
      }
      bookings := OtherEvents(bookings, eventId);
      events := events - {eventId};
      r := Done;
      assert (r, State()) == Ledger.AdminDeleteEvent(before, eventId);
      Ledger.AdminDeleteKeepsInvariants(before, eventId);
    }

    /** The administrator's `updateEvent`: field assignments on the loaded event, then save. */
    method AdminUpdateEvent(eventId: EventId, patch: Catalog.EventPatch) returns (r: Result<Event>)
      requires Valid()
      modifies this
      ensures (r, State()) == Catalog.AdminUpdateEvent(old(State()), eventId, patch)
      ensures Valid()
    {
      ghost var before := State();
      if eventId !in events {
        return Err(NotFound);
      }
      var e := events[eventId];
      e := e.(title := Catalog.OrString(patch.title, e.title));
      e := e.(date := if patch.date.Some? then patch.date.value else e.date);
      e := e.(location := Catalog.OrString(patch.location, e.location));
      e := e.(description := Catalog.OrString(patch.description, e.description));
      e := e.(price := Catalog.OrNumber(patch.price, e.price));
      if patch.totalTickets.Some? {
        e := e.(totalTickets := patch.totalTickets.value);
      }
      SaveEvent(eventId, e);
      r := Ok(e);
      assert (r, State()) == Catalog.AdminUpdateEvent(before, eventId, patch);
      Catalog.EditsKeepInvariants(before, Identity(0, RoleAdmin), eventId, patch, None);
    }

    /** `approveOrganizerRequest`: role organizer, status approved. */
    method ApproveOrganizerRequest(userId: UserId) returns (r: Outcome)
      requires Valid()
      modifies this
      ensures (r, State()) == Accounts.ApproveOrganizerRequest(old(State()), userId)
      ensures Valid()
    {
      if userId !in users {
        return Fail(NotFound);
      }
      var u := users[userId].(role := RoleOrganizer, organizerRequestStatus := Approved);
      Accounts.SameLoginKeepsUnique(users, userId, u);
      Ledger.AccountsDoNotMatter(State(), users[userId := u], nextId);
      users := users[userId := u];
      r := Done;
    }

    /** `rejectOrganizerRequest`: status rejected, role unchanged. */
    method RejectOrganizerRequest(userId: UserId) returns (r: Outcome)
      requires Valid()
      modifies this
      ensures (r, State()) == Accounts.RejectOrganizerRequest(old(State()), userId)
      ensures Valid()
    {
      if userId !in users {
        return Fail(NotFound);
      }
      var u := users[userId].(organizerRequestStatus := Rejected);
      Accounts.SameLoginKeepsUnique(users, userId, u);
      Ledger.AccountsDoNotMatter(State(), users[userId := u], nextId);
      users := users[userId := u];
      r := Done;
    }

    // -------------------------------------------------------------------------
    // eventController

    /** `createEvent`: role gate, image gate, then insert. */
    method CreateEvent(caller: Identity, input: Catalog.EventInput, upload: Option<string>) returns (r: Result<EventId>)
      requires Valid()
      modifies this
      ensures (r, State()) == Catalog.CreateEvent(old(State()), caller, input, upload)
      ensures Valid()
    {
      ghost var before := State();
      if Catalog.CreatorRole(State(), caller) != Some(RoleOrganizer) {
        return Err(Forbidden);
      }
      var image := Catalog.CreateImage(input.imageUrl, upload);
      if image == "" {
        return Err(ImageRequired);
      }
      if !Catalog.RequiredFieldsPresent(input) {
        return Err(ServerError);
      }
      var total := if input.totalTickets.Some? then input.totalTickets.value else 0;
      var e := Event(input.title, input.date, input.location, input.description, input.price,
                     image, caller.userId, total, 0);
      events := events[nextId := e];
      r := Ok(nextId);
      nextId := nextId + 1;
      Catalog.CreateEventAccepted(before, State(), caller, input, upload, e);
      Catalog.InsertEventKeepsLedger(before, e);
    }

    /** `updateEvent`: owner or admin; each truthy field replaces the loaded one, then save. */
    method UpdateEvent(caller: Identity, eventId: EventId, patch: Catalog.EventPatch, upload: Option<string>)
      returns (r: Result<Event>)
      requires Valid()
      modifies this
      ensures (r, State()) == Catalog.UpdateEvent(old(State()), caller, eventId, patch, upload)
      ensures Valid()
    {
      ghost var before := State();
      if eventId !in events {
        return Err(NotFound);
      }
      var e := events[eventId];
      if !Catalog.MayManage(caller, e) {
        return Err(Forbidden);
      }
      e := e.(title := Catalog.OrString(patch.title, e.title));
      e := e.(date := if patch.date.Some? then patch.date.value else e.date);
      e := e.(location := Catalog.OrString(patch.location, e.location));
      e := e.(description := Catalog.OrString(patch.description, e.description));
      e := e.(price := Catalog.OrNumber(patch.price, e.price));
      e := e.(totalTickets := Catalog.OrNumber(patch.totalTickets, e.totalTickets));
      e := e.(imageUrl := Catalog.UpdateImage(patch.imageUrl, upload, e.imageUrl));
      SaveEvent(eventId, e);
      r := Ok(e);
      assert (r, State()) == Catalog.UpdateEvent(before, caller, eventId, patch, upload);
      Catalog.EditsKeepInvariants(before, caller, eventId, patch, upload);
    }

    /** `deleteEvent`: owner or admin; only the event goes. */
    method DeleteEvent(caller: Identity, eventId: EventId) returns (r: Outcome)
      requires Valid()
      modifies this
      ensures (r, State()) == Catalog.DeleteEvent(old(State()), caller, eventId)
      ensures Valid()
    {
      ghost var before := State();
      if eventId !in events {
        return Fail(NotFound);
      }
      if !Catalog.MayManage(caller, events[eventId]) {
        return Fail(Unauthorized);
      }
      events := events - {eventId};
      r := Done;
      assert (r, State()) == Catalog.DeleteEvent(before, caller, eventId);
      Catalog.DeleteEventLeavesOrphans(before, caller, eventId);
    }

    // -------------------------------------------------------------------------
    // authController

    /** `register`: the role gate, the unique indexes, then insert. */
    method Register(username: string, email: string, password: string, role: string, adminSecret: Option<string>)
      returns (r: Result<UserId>)
      requires Valid()
      modifies this
      ensures (r, State()) == Accounts.Register(old(State()), username, email, password, role, adminSecret, configuredSecret)
      ensures Valid()
    {
      ghost var before := State();
      var granted := Accounts.RegisterRole(role, adminSecret, configuredSecret);
      if granted.Err? {
        return Err(granted.error);
      }
      if Accounts.UsernameHeld(users, username) {
        return Err(UsernameTaken);
      }
      if Accounts.EmailHeld(users, email) {
        return Err(EmailInUse);
      }
      users := users[nextId := User(username, email, "", "", password, granted.value, NoRequest, None, None)];
      r := Ok(nextId);
      nextId := nextId + 1;
      assert (r, State()) == Accounts.Register(before, username, email, password, role, adminSecret, configuredSecret);
      Accounts.RegisterKeepsUnique(before, username, email, password, role, adminSecret, configuredSecret);
      Ledger.AccountsDoNotMatter(before, users, nextId);
    }

    /** `forgotPassword`: store the hashed token and its expiry on the account with this email. */
    method ForgotPassword(email: string, tokenHash: string, now: int) returns (r: Result<UserId>)
      requires Valid()
      modifies this
      ensures (r, State()) == Accounts.ForgotPassword(old(State()), email, tokenHash, now)
      ensures Valid()
    {
      var found := Accounts.AccountWithEmail(State(), email);
      if found.None? {
        return Err(NotFound);
      }
      var k := found.value;
      var u := users[k].(resetPasswordToken := Some(tokenHash), resetPasswordExpires := Some(now + Accounts.ResetWindow));
      Accounts.SameLoginKeepsUnique(users, k, u);
      Ledger.AccountsDoNotMatter(State(), users[k := u], nextId);
      users := users[k := u];
      r := Ok(k);
    }

    /** `resetPassword`: the account holding the unexpired token gets the new password; the token is cleared. */
    method ResetPassword(tokenHash: string, password: string, now: int) returns (r: Outcome)
      requires Valid()
      modifies this
      ensures (r, State()) == Accounts.ResetPassword(old(State()), tokenHash, password, now)
      ensures Valid()
    {
      var found := Accounts.AccountWithToken(State(), tokenHash, now);
      if found.None? {
        return Fail(InvalidOrExpiredToken);
      }
      var k := found.value;
      var u := users[k].(password := password, resetPasswordToken := None, resetPasswordExpires := None);
      Accounts.SameLoginKeepsUnique(users, k, u);
      Ledger.AccountsDoNotMatter(State(), users[k := u], nextId);
      users := users[k := u];
      r := Done;
    }

    /** `requestOrganizerRole`: the status goes to pending unless the caller is already past that. */
    method RequestOrganizerRole(caller: UserId) returns (r: Outcome)
      requires Valid()
      modifies this
      ensures (r, State()) == Accounts.RequestOrganizerRole(old(State()), caller)
      ensures Valid()
    {
      if caller !in users {
        return Fail(NotFound);
      }
      var u := users[caller];
      if u.role == RoleOrganizer {
        return Fail(AlreadyOrganizer);
      }
      if u.role == RoleAdmin {
        return Fail(AdminCannotRequest);
      }
      if u.organizerRequestStatus == Pending {
        return Fail(AlreadyPending);
      }
      u := u.(organizerRequestStatus := Pending);
      Accounts.SameLoginKeepsUnique(users, caller, u);
      Ledger.AccountsDoNotMatter(State(), users[caller := u], nextId);
      users := users[caller := u];
      r := Done;
    }

    // -------------------------------------------------------------------------
    // userController

    /** `updateProfile`: the uniqueness lookups, then the optional-field assignments, then save. */
    method UpdateProfile(caller: UserId, patch: Accounts.ProfilePatch) returns (r: Result<User>)
      requires Valid()
      modifies this
      ensures (r, State()) == Accounts.UpdateProfile(old(State()), caller, patch)
      ensures Valid()
    {
      ghost var before := State();
      if caller !in users {
        return Err(NotFound);
      }
      var was := users[caller];
      var renames := patch.username != "" && patch.username != was.username;
      if renames && Accounts.UsernameHeld(users, patch.username) {
        return Err(UsernameTaken);
      }
      var remails := patch.email != "" && patch.email != was.email;
      if remails && Accounts.EmailHeld(users, patch.email) {
        return Err(EmailInUse);
      }
      var u := was.(
        username := if renames then patch.username else was.username,
        email := if remails then patch.email else was.email,
        phone := if patch.phone.Some? then patch.phone.value else was.phone,
        city := if patch.city.Some? then patch.city.value else was.city);
      users := users[caller := u];
      r := Ok(u);
      assert (r, State()) == Accounts.UpdateProfile(before, caller, patch);
      Accounts.UpdateProfileKeepsUnique(before, caller, patch);
      Ledger.AccountsDoNotMatter(before, users, nextId);
    }
  }
}
