/**
 * The records of the ticketing backend, its error replies and the in-memory
 * database that the controllers read and write.
 *
 * Document ids (MongoDB ObjectIds) are natural numbers; money is an integer
 * number of minor units; dates are integer timestamps.
 */
module Domain {

  type UserId = nat
  type EventId = nat
  type BookingId = nat

  datatype Option<+T> = None | Some(value: T)

  /** Roles are stored and compared as plain strings by the controllers. */
  const RoleUser: string := "user"
  const RoleOrganizer: string := "organizer"
  const RoleAdmin: string := "admin"

  /** The organiser-promotion workflow; NoRequest also stands for an unset field. */
  datatype RequestStatus = NoRequest | Pending | Approved | Rejected

  /** An event document; `bookedTickets` is the counter the bookings keep up to date. */
  datatype Event = Event(
    title: string,
    date: int,
    location: string,
    description: string,
    price: int,
    imageUrl: string,
    createdBy: UserId,
    totalTickets: int,
    bookedTickets: int)

  /**
   * A booking document. `quantity` is the legacy copy of `tickets`; 0 stands
   * for an absent value (both are falsy where the controllers read it).
   */
  datatype Booking = Booking(
    id: BookingId,
    event: EventId,
    user: UserId,
    tickets: int,
    quantity: int,
    totalPrice: int)

  /**
   * A booking's `totalPrice`, `event.price * tickets`, written as repeated
   * addition over the ticket count.
   */
  function TotalPrice(price: int, tickets: nat): int
  {
    if tickets == 0 then 0 else TotalPrice(price, tickets - 1) + price
  }

  /** The repeated addition is the product `price * tickets`. */
  lemma {:induction false} TotalPriceIsProduct(price: int, tickets: nat)
    ensures TotalPrice(price, tickets) == price * tickets
  {
    if tickets > 0 {
      TotalPriceIsProduct(price, tickets - 1);
    }
  }

  /** A user document; "" stands for an unset phone or city. */
  datatype User = User(
    username: string,
    email: string,
    phone: string,
    city: string,
    password: string,
    role: string,
    organizerRequestStatus: RequestStatus,
    resetPasswordToken: Option<string>,
    resetPasswordExpires: Option<int>)

  /** The identity a verified bearer token carries: `{ userId, role }`. */
  datatype Identity = Identity(userId: UserId, role: string)

  /** The three collections, plus the allocator of fresh document ids. */
  datatype Db = Db(
    events: map<EventId, Event>,
    bookings: seq<Booking>,
    users: map<UserId, User>,
    nextId: nat)

  /** The error replies of the controllers, one per distinct message. */
  datatype Error =
    | InvalidBookingRequest   // "Valid eventId and ticket quantity are required."
    | NotFound                // event, booking or user not found
    | NotEnoughTickets
    | NotBookingHolder        // "User not authorized" when cancelling someone else's booking
    | Forbidden               // role or ownership check that replies 403
    | Unauthorized            // ownership check that replies 401
    | ImageRequired
    | InvalidAdminSecret
    | AlreadyOrganizer
    | AdminCannotRequest
    | AlreadyPending
    | InvalidOrExpiredToken
    | UsernameTaken
    | EmailInUse
    | ServerError             // a schema validator rejected the document at save

  /** The HTTP status each error is answered with. */
  function HttpStatus(e: Error): (code: int)
    ensures code in {400, 401, 403, 404, 500}
    ensures code == 404 <==> e == NotFound
  {
    match e
    case InvalidBookingRequest => 400
    case NotFound => 404
    case NotEnoughTickets => 400
    case NotBookingHolder => 401
    case Forbidden => 403
    case Unauthorized => 401
    case ImageRequired => 400
    case InvalidAdminSecret => 403
    case AlreadyOrganizer => 400
    case AdminCannotRequest => 400
    case AlreadyPending => 400
    case InvalidOrExpiredToken => 400
    case UsernameTaken => 400
    case EmailInUse => 400
    case ServerError => 500
  }

  datatype Result<+T> = Ok(value: T) | Err(error: Error)

  /** A reply that carries only a confirmation message on success. */
  datatype Outcome = Done | Fail(error: Error)
}
