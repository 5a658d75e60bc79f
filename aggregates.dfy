/**
 * Folds over sequences of bookings: the per-event selection `find({ event })`,
 * the per-holder selection `find({ user })`, ticket and price sums and the set
 * of distinct holders. The ledger invariant and every report are stated with
 * these.
 */
module Aggregates {
  import opened Domain

  /** `Booking.find({ event: e })`, in store order. */
  function BookingsOf(bs: seq<Booking>, e: EventId): (r: seq<Booking>)
    ensures |r| <= |bs|
    ensures forall b {:trigger b in r} {:trigger b in bs} :: b in r <==> b in bs && b.event == e
  {
    if bs == [] then []
    else (if bs[0].event == e then [bs[0]] else []) + BookingsOf(bs[1..], e)
  }

  /** The bookings that survive `Booking.deleteMany({ event: e })`, in store order. */
  function OtherEvents(bs: seq<Booking>, e: EventId): (r: seq<Booking>)
    ensures |r| <= |bs|
    ensures forall b {:trigger b in r} {:trigger b in bs} :: b in r <==> b in bs && b.event != e
  {
    if bs == [] then []
    else (if bs[0].event != e then [bs[0]] else []) + OtherEvents(bs[1..], e)
  }

  /** `Booking.find({ user: u })`, in store order. */
  function BookingsBy(bs: seq<Booking>, u: UserId): (r: seq<Booking>)
    ensures |r| <= |bs|
    ensures forall b {:trigger b in r} {:trigger b in bs} :: b in r <==> b in bs && b.user == u
  {
    if bs == [] then []
    else (if bs[0].user == u then [bs[0]] else []) + BookingsBy(bs[1..], u)
  }

  /** `Booking.findById(id)`: the index of the booking with that id. */
  function Find(bs: seq<Booking>, id: BookingId): (r: Option<nat>)
    ensures r.Some? ==> r.value < |bs| && bs[r.value].id == id
    ensures r.None? ==> forall b | b in bs :: b.id != id
  {
    if bs == [] then None
    else if bs[0].id == id then Some(0)
    else match Find(bs[1..], id)
      case None => None
      case Some(k) => Some(k + 1)
  }

  /** `booking.deleteOne()`: the sequence without the booking at index `i`. */
  function RemoveAt(bs: seq<Booking>, i: nat): (r: seq<Booking>)
    requires i < |bs|
    ensures |r| == |bs| - 1
    ensures forall k | 0 <= k < |r| :: r[k] == bs[if k < i then k else k + 1]
    ensures forall b | b in r :: b in bs
  {
    bs[..i] + bs[i + 1..]
  }

  /** The sum of the `tickets` fields. */
  function SumTickets(bs: seq<Booking>): int
  {
    if bs == [] then 0 else bs[0].tickets + SumTickets(bs[1..])
  }

  /** The sum of the `totalPrice` fields. */
  function Revenue(bs: seq<Booking>): int
  {
    if bs == [] then 0 else bs[0].totalPrice + Revenue(bs[1..])
  }

  /** `Booking.distinct("user")`: the distinct holders of the bookings. */
  function Holders(bs: seq<Booking>): (r: set<UserId>)
    ensures |r| <= |bs|
    ensures forall b | b in bs :: b.user in r
    ensures forall u | u in r :: BookingsBy(bs, u) != []
  {
    if bs == [] then {}
    else
      var rest := Holders(bs[1..]);
      assert bs[0] in BookingsBy(bs, bs[0].user);
      assert forall u | u in rest :: BookingsBy(bs[1..], u)[0] in BookingsBy(bs, u);
      {bs[0].user} + rest
  }

  /** Booking ids strictly increase along the sequence (creation order). */
  predicate Ascending(bs: seq<Booking>)
  {
    forall i, j | 0 <= i < j < |bs| :: bs[i].id < bs[j].id
  }

  /** Booking ids strictly decrease along the sequence (newest first). */
  predicate Descending(bs: seq<Booking>)
  {
    forall i, j | 0 <= i < j < |bs| :: bs[i].id > bs[j].id
  }

  function Reverse(bs: seq<Booking>): (r: seq<Booking>)
    ensures |r| == |bs|
    ensures forall k | 0 <= k < |bs| :: r[k] == bs[|bs| - 1 - k]
  {
    if bs == [] then [] else Reverse(bs[1..]) + [bs[0]]
  }

  // ---------------------------------------------------------------------------
  // Lemmas

  lemma {:induction false} BookingsOfConcat(a: seq<Booking>, b: seq<Booking>, e: EventId)
    ensures BookingsOf(a + b, e) == BookingsOf(a, e) + BookingsOf(b, e)
  {
    if a == [] {
      assert a + b == b;
    } else {
      var head := if a[0].event == e then [a[0]] else [];
      assert (a + b)[0] == a[0];
      assert (a + b)[1..] == a[1..] + b;
      calc {
        BookingsOf(a + b, e);
        head + BookingsOf(a[1..] + b, e);
        { BookingsOfConcat(a[1..], b, e); }
        head + (BookingsOf(a[1..], e) + BookingsOf(b, e));
        (head + BookingsOf(a[1..], e)) + BookingsOf(b, e);
        BookingsOf(a, e) + BookingsOf(b, e);
      }
    }
  }

  lemma {:induction false} RevenueConcat(a: seq<Booking>, b: seq<Booking>)
    ensures Revenue(a + b) == Revenue(a) + Revenue(b)
  {
    if a == [] {
      assert a + b == b;
    } else {
      assert (a + b)[1..] == a[1..] + b;
      RevenueConcat(a[1..], b);
    }
  }

  lemma {:induction false} SumTicketsConcat(a: seq<Booking>, b: seq<Booking>)
    ensures SumTickets(a + b) == SumTickets(a) + SumTickets(b)
  {
    if a == [] {
      assert a + b == b;
    } else {
      assert (a + b)[1..] == a[1..] + b;
      SumTicketsConcat(a[1..], b);
    }
  }

  /** Removing the booking at index `i` removes its tickets from its event's sum and no other. */
  lemma SumTicketsRemoveAt(bs: seq<Booking>, i: nat, e: EventId)
    requires i < |bs|
    ensures SumTickets(BookingsOf(RemoveAt(bs, i), e))
         == SumTickets(BookingsOf(bs, e)) - (if bs[i].event == e then bs[i].tickets else 0)
  {
    assert bs == bs[..i] + [bs[i]] + bs[i + 1..];
    BookingsOfConcat(bs[..i] + [bs[i]], bs[i + 1..], e);
    BookingsOfConcat(bs[..i], [bs[i]], e);
    BookingsOfConcat(bs[..i], bs[i + 1..], e);
    SumTicketsConcat(BookingsOf(bs[..i], e) + BookingsOf([bs[i]], e), BookingsOf(bs[i + 1..], e));
    SumTicketsConcat(BookingsOf(bs[..i], e), BookingsOf([bs[i]], e));
    SumTicketsConcat(BookingsOf(bs[..i], e), BookingsOf(bs[i + 1..], e));
  }

  lemma RemoveAtAscending(bs: seq<Booking>, i: nat)
    requires i < |bs| && Ascending(bs)
    ensures Ascending(RemoveAt(bs, i))
  {
    var r := RemoveAt(bs, i);
    forall p, q | 0 <= p < q < |r| ensures r[p].id < r[q].id {
      assert r[p] == bs[if p < i then p else p + 1];
      assert r[q] == bs[if q < i then q else q + 1];
    }
  }

  /** A sum of positive ticket counts is not negative. */
  lemma {:induction false} SumTicketsNonNegative(bs: seq<Booking>)
    requires forall b | b in bs :: b.tickets >= 1
    ensures SumTickets(bs) >= 0
  {
    if bs != [] {
      SumTicketsNonNegative(bs[1..]);
    }
  }

  /** A sum of non-negative prices is not negative. */
  lemma {:induction false} RevenueNonNegative(bs: seq<Booking>)
    requires forall b | b in bs :: b.totalPrice >= 0
    ensures Revenue(bs) >= 0
  {
    if bs != [] {
      RevenueNonNegative(bs[1..]);
    }
  }

  /** An event's ticket sum covers every one of its bookings. */
  lemma SumTicketsCoversMember(bs: seq<Booking>, i: nat)
    requires i < |bs|
    requires forall b | b in bs :: b.tickets >= 1
    ensures SumTickets(BookingsOf(bs, bs[i].event)) >= bs[i].tickets
  {
    var e := bs[i].event;
    SumTicketsRemoveAt(bs, i, e);
    var rest := RemoveAt(bs, i);
    forall b | b in BookingsOf(rest, e) ensures b.tickets >= 1 {
      assert b in rest;
    }
    SumTicketsNonNegative(BookingsOf(rest, e));
  }

  /** The cascade of `deleteMany({ event: e })` keeps every other event's bookings as they were. */
  lemma {:induction false} OtherEventsKeepsOthers(bs: seq<Booking>, e: EventId, e': EventId)
    ensures BookingsOf(OtherEvents(bs, e), e') == if e' == e then [] else BookingsOf(bs, e')
  {
    if bs != [] {
      var head := if bs[0].event != e then [bs[0]] else [];
      BookingsOfConcat(head, OtherEvents(bs[1..], e), e');
      OtherEventsKeepsOthers(bs[1..], e, e');
    }
  }

  /** An event that no booking references has no bookings to list. */
  lemma {:induction false} BookingsOfNone(bs: seq<Booking>, e: EventId)
    requires forall b | b in bs :: b.event != e
    ensures BookingsOf(bs, e) == []
  {
    if bs != [] {
      assert bs[0] in bs;
      BookingsOfNone(bs[1..], e);
    }
  }

  /** A selection keeps the creation order. */
  lemma {:induction false} OtherEventsAscending(bs: seq<Booking>, e: EventId)
    requires Ascending(bs)
    ensures Ascending(OtherEvents(bs, e))
  {
    if bs != [] {
      OtherEventsAscending(bs[1..], e);
      var rest := OtherEvents(bs[1..], e);
      forall k | 0 <= k < |rest| ensures bs[0].id < rest[k].id {
        assert rest[k] in bs[1..];
      }
    }
  }

  /** A selection keeps the creation order. */
  lemma {:induction false} BookingsByAscending(bs: seq<Booking>, u: UserId)
    requires Ascending(bs)
    ensures Ascending(BookingsBy(bs, u))
  {
    if bs != [] {
      BookingsByAscending(bs[1..], u);
      var rest := BookingsBy(bs[1..], u);
      forall k | 0 <= k < |rest| ensures bs[0].id < rest[k].id {
        assert rest[k] in bs[1..];
      }
    }
  }

  /** Reversing a creation-ordered list gives a newest-first list with the same members. */
  lemma ReverseDescending(bs: seq<Booking>)
    requires Ascending(bs)
    ensures Descending(Reverse(bs))
    ensures forall b :: b in Reverse(bs) <==> b in bs
  {
    var r := Reverse(bs);
    forall b | b in bs ensures b in r {
      var k :| 0 <= k < |bs| && bs[k] == b;
      assert r[|bs| - 1 - k] == b;
    }
  }

  /** Every booking of a holder is counted among the distinct holders, and conversely. */
  lemma HoldersAreBookers(bs: seq<Booking>, u: UserId)
    ensures u in Holders(bs) <==> BookingsBy(bs, u) != []
  {
    if BookingsBy(bs, u) != [] {
      assert BookingsBy(bs, u)[0] in bs;
    }
  }
}
