/**
 * The read-side reports: the administrator's per-event booking report,
 * events with recomputed statistics, dashboard totals and active users
 * (Backend/controllers/adminController.js), and a user's own bookings with
 * the upcoming/past filter (Backend/controllers/userController.js). Each is
 * a fold over the bookings; none changes the database.
 */
module Reports {
  import opened Domain
  import opened Aggregates
  import opened Ledger

  // ---------------------------------------------------------------------------
  // adminController.getEventBookings

  datatype BookingsReport = BookingsReport(bookings: seq<Booking>, totalTickets: int, totalBookings: nat)

  /**
   * The bookings that reference an event id, with their ticket sum and
   * count. The id is not checked against the events, so the bookings of a
   * deleted event are still reported.
   */
  function EventBookingsReport(db: Db, eventId: EventId): (r: BookingsReport)
    ensures forall b {:trigger b in r.bookings} :: b in r.bookings <==> b in db.bookings && b.event == eventId
    ensures r.totalBookings == |r.bookings| <= |db.bookings|
    ensures r.totalTickets == SumTickets(r.bookings)
  {
    var bs := BookingsOf(db.bookings, eventId);
    BookingsReport(bs, SumTickets(bs), |bs|)
  }

  /**
   * Under the ledger invariant the report's ticket sum is the event's stored
   * counter, and there are no more bookings than tickets.
   */
  lemma ReportMatchesCounter(db: Db, eventId: EventId)
    requires Consistent(db)
    ensures eventId in db.events ==> EventBookingsReport(db, eventId).totalTickets == db.events[eventId].bookedTickets
    ensures EventBookingsReport(db, eventId).totalBookings <= EventBookingsReport(db, eventId).totalTickets
  {
    var bs := BookingsOf(db.bookings, eventId);
    forall b | b in bs ensures b.tickets >= 1 {
      assert b in db.bookings;
    }
    CountAtMostTickets(bs);
  }

  /** Every booking holds at least one ticket, so a list has no more bookings than tickets. */
  lemma {:induction false} CountAtMostTickets(bs: seq<Booking>)
    requires forall b | b in bs :: b.tickets >= 1
    ensures |bs| <= SumTickets(bs)
  {
    if bs != [] {
      assert bs[0] in bs;
      CountAtMostTickets(bs[1..]);
    }
  }

  // ---------------------------------------------------------------------------
  // adminController.getAllEventsWithStats

  /** An event as the statistics pipeline reports it. */
  datatype EventStats = EventStats(
    event: Event,
    totalBookingsCount: nat,
    availableTickets: int,
    creator: Option<User>)

  /** The creator's account without its password and reset token. */
  function Public(u: User): User
  {
    u.(password := "", resetPasswordToken := None, resetPasswordExpires := None)
  }

  /**
   * One event's statistics: `bookedTickets` recomputed from the bookings
   * rather than read from the stored counter, and the tickets left.
   */
  function Stats(db: Db, id: EventId): (s: EventStats)
    requires id in db.events
    ensures s.event == db.events[id].(bookedTickets := SumTickets(BookingsOf(db.bookings, id)))
    ensures s.totalBookingsCount == |BookingsOf(db.bookings, id)|
    ensures s.availableTickets == s.event.totalTickets - s.event.bookedTickets
    ensures s.creator.Some? <==> db.events[id].createdBy in db.users
    ensures s.creator.Some? ==>
      s.creator.value == db.users[db.events[id].createdBy].(password := "", resetPasswordToken := None, resetPasswordExpires := None)
  {
    var e := db.events[id];
    var bs := BookingsOf(db.bookings, id);
    var booked := SumTickets(bs);
    EventStats(e.(bookedTickets := booked), |bs|, e.totalTickets - booked,
               if e.createdBy in db.users then Some(Public(db.users[e.createdBy])) else None)
  }

  /** Every event with its statistics. */
  function EventsWithStats(db: Db): (r: map<EventId, EventStats>)
    ensures r.Keys == db.events.Keys
    ensures forall id | id in r :: r[id] == Stats(db, id)
  {
    map id | id in db.events :: Stats(db, id)
  }

  /**
   * Under the ledger invariant the recomputed count is the stored counter;
   * within capacity no event shows a negative number of tickets left.
   */
  lemma StatsAgreeWithCounters(db: Db)
    requires Consistent(db)
    ensures forall id | id in EventsWithStats(db) ::
      EventsWithStats(db)[id].event == db.events[id]
    ensures WithinCapacity(db) ==>
      forall id | id in EventsWithStats(db) :: EventsWithStats(db)[id].availableTickets >= 0
  {
  }

  // ---------------------------------------------------------------------------
  // adminController.getDashboardStats

  datatype Dashboard = Dashboard(
    totalEvents: nat,
    totalBookings: nat,
    totalUsers: nat,
    activeUsers: nat,
    totalRevenue: int)

  /** The ids of the accounts whose role is exactly "user". */
  function PlainUsers(users: map<UserId, User>): (r: set<UserId>)
    ensures forall k :: k in r <==> k in users && users[k].role == RoleUser
  {
    set k | k in users && users[k].role == RoleUser
  }

  /** The administrator's dashboard totals. */
  function DashboardStats(db: Db): (r: Dashboard)
    ensures r.totalEvents == |db.events| && r.totalBookings == |db.bookings|
    ensures r.totalUsers == |PlainUsers(db.users)| <= |db.users|
    ensures r.activeUsers == |Holders(db.bookings)| <= r.totalBookings
    ensures r.totalRevenue == Revenue(db.bookings)
    ensures r.totalBookings == 0 ==> r.activeUsers == 0 && r.totalRevenue == 0
  {
    var plain := PlainUsers(db.users);
    assert plain <= db.users.Keys;
    SubsetCardinality(plain, db.users.Keys);
    Dashboard(|db.events|, |db.bookings|, |plain|, |Holders(db.bookings)|,
              if db.bookings == [] then 0 else Revenue(db.bookings))
  }

  lemma SubsetCardinality(a: set<UserId>, b: set<UserId>)
    requires a <= b
    ensures |a| <= |b|
  {
    if a != {} {
      var x :| x in a;
      SubsetCardinality(a - {x}, b - {x});
    }
  }

  /** Stored prices are not negative, so neither is the revenue; and any booking makes a holder active. */
  lemma DashboardBounds(db: Db)
    requires WellFormed(db)
    ensures DashboardStats(db).totalRevenue >= 0
    ensures DashboardStats(db).totalBookings > 0 ==> DashboardStats(db).activeUsers >= 1
  {
    RevenueNonNegative(db.bookings);
    if db.bookings != [] {
      assert db.bookings[0].user in Holders(db.bookings);
    }
  }

  // ---------------------------------------------------------------------------
  // adminController.getActiveUsers

  datatype ActiveUser = ActiveUser(username: string, email: string, bookingCount: nat, totalSpent: int)

  /**
   * The holders grouped with their booking count and spending; a holder whose
   * account no longer exists is dropped by the join.
   */
  function ActiveUsers(db: Db): (r: map<UserId, ActiveUser>)
    ensures forall u :: u in r <==> u in db.users && BookingsBy(db.bookings, u) != []
    ensures forall u | u in r ::
      && r[u].bookingCount == |BookingsBy(db.bookings, u)| >= 1
      && r[u].totalSpent == Revenue(BookingsBy(db.bookings, u))
      && r[u].username == db.users[u].username && r[u].email == db.users[u].email
  {
    var holders := Holders(db.bookings);
    forall u ensures u in holders <==> BookingsBy(db.bookings, u) != [] {
      HoldersAreBookers(db.bookings, u);
    }
    map u | u in holders && u in db.users ::
      var mine := BookingsBy(db.bookings, u);
      ActiveUser(db.users[u].username, db.users[u].email, |mine|, Revenue(mine))
  }

  /** When every holder still has an account, the grouped list and the dashboard count the same users. */
  lemma ActiveUsersMatchDashboard(db: Db)
    requires forall b | b in db.bookings :: b.user in db.users
    ensures ActiveUsers(db).Keys == Holders(db.bookings)
    ensures |ActiveUsers(db)| == DashboardStats(db).activeUsers
  {
    var r := ActiveUsers(db);
    forall u ensures u in r <==> u in Holders(db.bookings) {
      HoldersAreBookers(db.bookings, u);
      if u in Holders(db.bookings) {
        assert BookingsBy(db.bookings, u)[0] in db.bookings;
      }
    }
    assert r.Keys == Holders(db.bookings);
  }

  // ---------------------------------------------------------------------------
  // userController.getUserBookings

  /** The filter of one booking for a status other than absent or "all". */
  predicate KeepForStatus(events: map<EventId, Event>, status: string, now: int, b: Booking)
  {
    && b.event in events
    && ((status == "upcoming" && events[b.event].date >= now) || (status == "past" && events[b.event].date < now))
  }

  function FilterByStatus(bs: seq<Booking>, events: map<EventId, Event>, status: string, now: int): (r: seq<Booking>)
    ensures |r| <= |bs|
    ensures forall b :: b in r <==> b in bs && KeepForStatus(events, status, now, b)
  {
    if bs == [] then []
    else
      (if KeepForStatus(events, status, now, bs[0]) then [bs[0]] else [])
      + FilterByStatus(bs[1..], events, status, now)
  }

  /**
   * A user's bookings, newest first. With no status or "all" every booking is
   * listed, those of deleted events too; "upcoming" and "past" keep the
   * bookings of live events dated from now on or before now; any other status
   * lists nothing.
   */
  function UserBookings(db: Db, caller: UserId, status: Option<string>, now: int): (r: seq<Booking>)
    ensures status.None? || status == Some("") || status == Some("all") ==>
      forall b {:trigger b in r} :: b in r <==> b in db.bookings && b.user == caller
    ensures status == Some("upcoming") ==>
      forall b {:trigger b in r} :: b in r <==> b in db.bookings && b.user == caller && b.event in db.events && db.events[b.event].date >= now
    ensures status == Some("past") ==>
      forall b {:trigger b in r} :: b in r <==> b in db.bookings && b.user == caller && b.event in db.events && db.events[b.event].date < now
    ensures status.Some? && status.value !in {"", "all", "upcoming", "past"} ==> r == []
  {
    var mine := Reverse(BookingsBy(db.bookings, caller));
    ReverseMembers(BookingsBy(db.bookings, caller));
    if status.None? || status.value == "" || status.value == "all" then mine
    else
      NothingKept(mine, db.events, status.value, now);
      FilterByStatus(mine, db.events, status.value, now)
  }

  lemma ReverseMembers(bs: seq<Booking>)
    ensures forall b :: b in Reverse(bs) <==> b in bs
  {
    var r := Reverse(bs);
    forall b | b in bs ensures b in r {
      var k :| 0 <= k < |bs| && bs[k] == b;
      assert r[|bs| - 1 - k] == b;
    }
  }

  lemma NothingKept(bs: seq<Booking>, events: map<EventId, Event>, status: string, now: int)
    ensures status != "upcoming" && status != "past" ==> FilterByStatus(bs, events, status, now) == []
  {
    var r := FilterByStatus(bs, events, status, now);
    if r != [] {
      assert r[0] in r;
    }
  }

  /** The filter keeps the order of what it keeps. */
  lemma {:induction false} FilterDescending(bs: seq<Booking>, events: map<EventId, Event>, status: string, now: int)
    requires Descending(bs)
    ensures Descending(FilterByStatus(bs, events, status, now))
  {
    if bs != [] {
      FilterDescending(bs[1..], events, status, now);
      var rest := FilterByStatus(bs[1..], events, status, now);
      forall k | 0 <= k < |rest| ensures bs[0].id > rest[k].id {
        assert rest[k] in bs[1..];
      }
    }
  }

  /** Bookings are stored in creation order, so every listing comes newest first. */
  lemma UserBookingsNewestFirst(db: Db, caller: UserId, status: Option<string>, now: int)
    requires WellFormed(db)
    ensures Descending(UserBookings(db, caller, status, now))
  {
    var mine := BookingsBy(db.bookings, caller);
    BookingsByAscending(db.bookings, caller);
    ReverseDescending(mine);
    if !(status.None? || status.value == "" || status.value == "all") {
      FilterDescending(Reverse(mine), db.events, status.value, now);
    }
  }

  /**
   * "upcoming" and "past" split a user's bookings of live events between
   * them; a booking of a deleted event appears in neither.
   */
  lemma UpcomingPastPartition(db: Db, caller: UserId, now: int, b: Booking)
    requires b in db.bookings && b.user == caller
    ensures b.event in db.events ==>
      (b in UserBookings(db, caller, Some("upcoming"), now) <==> b !in UserBookings(db, caller, Some("past"), now))
    ensures b.event !in db.events ==>
      b !in UserBookings(db, caller, Some("upcoming"), now) && b !in UserBookings(db, caller, Some("past"), now)
    ensures b in UserBookings(db, caller, None, now)
  {
  }
}
