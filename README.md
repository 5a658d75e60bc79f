# Event booking: the ticket ledger and its moderation rules

A Dafny model of the backend of an event-booking application (Express
controllers over MongoDB collections of events, bookings and users) and of
the image and permission logic of its events page.

The database is one record `Db` of three collections and an id allocator.
Events and users are maps by id. Bookings are a sequence in insertion order.

Every state-changing handler is specified twice:
- a transition function from the database before the request to the reply and
  the database after it (modules `Ledger`, `Catalog` and `Accounts`), with the
  handler's error cases and the new state stated in its postcondition;
- a method of the class `Backend.Store`, which runs the handler's guards and
  mutates the store's fields in the handler's order. Each method is proved to
  agree with its transition function and to keep the store's invariant.

The headline invariant (`Ledger.Consistent`) is that every event's
`bookedTickets` counter equals the sum of `tickets` over the bookings that
reference it. Every handler keeps it. Two facts are stated as the code has
them and are not repaired:
- the owner's delete leaves the event's bookings behind
  (`Catalog.DeleteEventLeavesOrphans`);
- both edit handlers may set a capacity below the tickets already booked
  (`Catalog.AdminUpdateCanOverbook`, `Catalog.UpdateCanOverbook`).

The read side (`Reports`) consists of folds over booking sequences:
- per-event sums;
- the statistics table and the dashboard;
- active users;
- the user's booking list with its upcoming/past filter.

`EventsPage` models the image-URL normalisation and the `canManage` predicate
of the events page. `Text` models the JavaScript string operations they use.

Conventions:
- money and dates are integers (smallest currency unit, millisecond timestamps);
- an absent string is "";
- an absent number is `None`;
- MongoDB ids are naturals handed out in increasing order, so creation order is id order.

## Model

| member | source | states |
|---|---|---|
| Domain.HttpStatus | Backend/controllers/bookingController.js:13-28 | Every error is replied with one of 400, 401, 403, 404 and 500, and with 404 exactly when a record is missing. |
| Domain.TotalPriceIsProduct | Backend/controllers/bookingController.js:30 | The booking total, written as repeated addition, is `price * tickets`. |
| Ledger.CreateBooking | Backend/controllers/bookingController.js:7-55 | A missing event id or a non-positive ticket count gives 400, an unknown event 404, a request beyond `totalTickets` fails; each leaves the database unchanged. On success the booking has the caller, `tickets = quantity = requested`, `totalPrice = price * tickets`, and only that event's counter rises by `tickets`, staying within capacity. A well-formed request for an existing event that fits its capacity, with a non-negative total, is accepted. |
| Ledger.Reserved | Backend/controllers/bookingController.js:87-88 | The tickets a cancel releases are `tickets || quantity || 0`, which is `tickets` for every stored booking. |
| Ledger.CancelBooking | Backend/controllers/bookingController.js:71-102 | An unknown booking gives not-found and someone else's booking gives 401, with no change. The holder's cancel removes exactly that booking and lowers its event's counter by `Reserved(b)` without a clamp; with the event gone only the booking goes. |
| Ledger.CancelBookingAccepted | Backend/controllers/bookingController.js:84-97 | The holder's cancel of a stored booking succeeds, and the database it leaves is exactly the one with the booking removed and its event's counter lowered by `Reserved(b)` (only the booking removed when the event is gone). |
| Ledger.AdminCancelBooking | Backend/controllers/adminController.js:149-174 | Not-found with no change for an unknown booking; otherwise the booking goes, its event's counter becomes exactly `max(0, booked - tickets)` and every other field of the event is kept. |
| Ledger.AdminCancelAccepted | Backend/controllers/adminController.js:157-167 | The administrator's cancel of a stored booking succeeds, and the database it leaves is exactly the one with the booking removed and its event's counter clamped at `max(0, booked - tickets)`. |
| Ledger.AdminDeleteEvent | Backend/controllers/adminController.js:128-146 | Not-found with no change exactly for an unknown event; an existing event is always deleted, and then the event and exactly the bookings that reference it are removed. |
| Ledger.CreateBookingKeepsInvariants | Backend/controllers/bookingController.js:24-46 | A booking keeps the counters equal to the booking sums, no orphans and every event within capacity. |
| Ledger.CancelBookingKeepsInvariants | Backend/controllers/bookingController.js:85-95 | A holder's cancel keeps the ledger invariant and capacity, and leaves every counter non-negative. |
| Ledger.AdminCancelKeepsInvariants | Backend/controllers/adminController.js:157-167 | The administrator's cancel keeps the ledger invariant, orphan-freedom and capacity. |
| Ledger.AdminCancelIsHolderCancel | Backend/controllers/adminController.js:157-167 | On a consistent ledger the `max(0, ...)` clamp never fires, so the administrator's cancel leaves the same database as the holder's own cancel. |
| Ledger.AdminDeleteKeepsInvariants | Backend/controllers/adminController.js:137-139 | The cascade keeps the ledger invariant, orphan-freedom and capacity. |
| Ledger.AdminDeleteSelections | Backend/controllers/adminController.js:137-139 | The cascade leaves no booking of the deleted event and every other event's bookings as they were. |
| Ledger.AcceptedKeepsInvariants | Backend/controllers/bookingController.js:40-46 | The state an accepted booking leaves (booking appended, counter raised by its tickets) keeps the ledger invariant. |
| Ledger.CancelAcceptedKeepsInvariants | Backend/controllers/bookingController.js:86-95 | The state a holder's cancel leaves (`$inc` by minus the reserved tickets, booking deleted) keeps the ledger invariant. |
| Ledger.RemovalKeepsInvariants | Backend/controllers/bookingController.js:85-95 | Removing one booking and lowering its event's counter by its tickets keeps the ledger invariant. |
| Ledger.CountersNonNegative | Backend/models/Booking.js:22-25 | On a consistent ledger every counter is non-negative, because every booking holds at least one ticket. |
| Ledger.ReleaseRestoresCapacity | Backend/controllers/bookingController.js:7-102 | Booking and then cancelling as the same user gives back the database as it was, apart from the consumed id. |
| Ledger.FindLast | Backend/controllers/bookingController.js:73 | A booking whose id is above every stored one is found at the end of the sequence. |
| Ledger.SoldOutScenario | Backend/controllers/bookingController.js:24-46 | With two tickets both sold, a further request is refused without change; after the holder cancels, the same request succeeds. |
| Catalog.CreatorRole | Backend/controllers/eventController.js:7-13 | The role createEvent checks: the token's role when it carries one, else the stored user's role, and none when that user does not exist. |
| Catalog.CreateEvent | Backend/controllers/eventController.js:5-61 | Only a caller whose role (from the token, else from the stored user) is exactly "organizer" may create (403 otherwise, admins included). An upload path with `/` separators wins over the trimmed URL, and no image gives 400. On success a fresh id, the caller as creator, no tickets booked and capacity defaulting to 0. |
| Catalog.CreateEventAccepted | Backend/controllers/eventController.js:15-55 | An organiser's request with an image and every required field succeeds, and stores exactly the event built from the input under the next id. |
| Catalog.UpdateEvent | Backend/controllers/eventController.js:119-165 | 404 for a missing event, 403 unless admin or creator, with no change; for the creator or an admin the edit always succeeds, and each field takes its new value only when truthy (numbers as a JSON body sends them), the image follows upload, URL, current, and `bookedTickets` and the creator never change. |
| Catalog.AdminUpdateEvent | Backend/controllers/adminController.js:100-125 | Not-found with no change exactly for an unknown event; an existing event is always updated: truthy fields replace the old ones, `totalTickets` is replaced whenever given (0 included) and `bookedTickets` is untouched. |
| Catalog.DeleteEvent | Backend/controllers/eventController.js:167-190 | 404 for a missing event, 401 unless admin or creator, with no change; for the creator or an admin the delete always succeeds, and only the event is removed and every booking stays. |
| Catalog.GetEventBookings | Backend/controllers/eventController.js:72-102 | 404 or 403 as for the edits; for the creator or an admin the listing always succeeds with exactly the bookings of the event, whose tickets add up to its counter on a consistent ledger. |
| Catalog.CreateEventKeepsInvariants | Backend/controllers/eventController.js:44-55 | The new event's id is used by no event or booking, and the ledger invariant, the absence of orphans and capacity (for a non-negative capacity) survive. |
| Catalog.InsertEventKeepsLedger | Backend/controllers/eventController.js:44-55 | A new event with nothing booked under the next id takes an id no event or booking uses and keeps the ledger invariant, orphan-freedom and (for a non-negative capacity) capacity. |
| Catalog.EditsKeepInvariants | Backend/controllers/eventController.js:151-159 | Neither edit touches a counter, so both keep the ledger invariant and the absence of orphans. |
| Catalog.UpdateCannotSetZero | Backend/controllers/eventController.js:151-157 | For a JSON body, the owner's edit cannot clear a non-zero price or capacity: the number 0 is falsy and keeps the old value. |
| Catalog.AdminUpdateCanOverbook | Backend/controllers/adminController.js:112-119 | The administrator's edit accepts a capacity below the booked tickets and leaves the event over capacity. |
| Catalog.UpdateCanOverbook | Backend/controllers/eventController.js:151-159 | The owner's edit accepts any non-zero capacity below the booked tickets and leaves the event over capacity. |
| Catalog.FullEventRefusesBookings | Backend/controllers/bookingController.js:24-28 | An event booked to or beyond its capacity refuses every booking and the database stays as it was. |
| Catalog.DeleteEventLeavesOrphans | Backend/controllers/eventController.js:183 | The owner's delete keeps every remaining counter right; afterwards no booking is orphaned exactly when none was before and the event had no bookings. |
| Accounts.RegisterRole | Backend/controllers/authController.js:18-31 | An "admin" registration without the configured secret (default "admin123") is refused; otherwise the role is the given one, "user" when absent. |
| Accounts.Register | Backend/controllers/authController.js:8-54 | The role gate first, then a taken username or email is refused with no change; when the gate passes and both are free, registration always succeeds with a new account under a fresh id with the granted role and no organiser request. |
| Accounts.FirstWith | Backend/controllers/authController.js:139-142 | `findOne` in creation order: the lowest id below the limit whose account satisfies the filter, and no account with a lower id satisfies it; none when no account does. |
| Accounts.AccountWithEmail | Backend/controllers/authController.js:82 | The first account (lowest id) with this email, every account with a lower id having another email; none exactly when no account has it. |
| Accounts.AccountWithToken | Backend/controllers/authController.js:139-142 | The first account (lowest id) holding this hashed token with an expiry after now, no account with a lower id holding it unexpired; none exactly when no account does. |
| Accounts.ForgotPassword | Backend/controllers/authController.js:79-129 | Not-found with no change for an unknown email; otherwise the account `findOne` returns (`AccountWithEmail`) stores the hashed token, expiring one hour after now. |
| Accounts.ResetPassword | Backend/controllers/authController.js:131-159 | Fails with no change unless some account holds the token unexpired; otherwise the account `findOne` returns (`AccountWithToken`, the first holder) gets the new password and its token and expiry are cleared, and no other account changes. |
| Accounts.RequestOrganizerRole | Backend/controllers/authController.js:161-197 | Not-found for a missing user; refused with no change for an organiser, an admin, or a pending request; any other account's request always succeeds: the status becomes pending and the role stays. |
| Accounts.ApproveOrganizerRequest | Backend/controllers/adminController.js:255-275 | Not-found for an unknown user; otherwise role organizer and status approved whatever the prior status, nothing else changes. |
| Accounts.RejectOrganizerRequest | Backend/controllers/adminController.js:277-296 | Not-found for an unknown user; otherwise status rejected and the role unchanged, nothing else changes. |
| Accounts.UpdateProfile | Backend/controllers/userController.js:22-67 | A changed username or email held by any account gives 400 with nothing saved; for an existing caller every other update succeeds, and a non-empty username or email is stored (a new one only when no account held it), an empty one keeps the old value; a phone or city key that is present overwrites (even with ""), an absent one leaves the field; nothing else of the account changes. |
| Accounts.UpdateProfileKeepsUnique | Backend/controllers/userController.js:33-46 | A profile update keeps usernames and emails unique and adds no account. |
| Accounts.RegisterKeepsUnique | Backend/controllers/authController.js:27-33 | Registration keeps usernames and emails unique and gives the new account a fresh id. |
| Accounts.SameLoginKeepsUnique | Backend/controllers/authController.js:186-187 | Changing an account's other fields keeps usernames and emails unique. |
| Accounts.RequestTwiceFails | Backend/controllers/authController.js:181-187 | A request that succeeded cannot be repeated: the second finds it pending and changes nothing. |
| Accounts.ApprovedCannotRequest | Backend/controllers/adminController.js:257-264 | After approval the account is an organiser and a request is refused. |
| Accounts.NewUserMayRequest | Backend/controllers/authController.js:8-54 | A plain user who has just registered may ask to become an organiser, and keeps the role "user" while the request is pending. |
| Accounts.RejectedMayRequestAgain | Backend/controllers/authController.js:181-187 | After a rejection a user may ask again, and the status returns to pending. |
| Accounts.AdminNeedsSecret | Backend/controllers/authController.js:18-25 | A successful admin registration carried the configured secret, "admin123" when none is configured. |
| Accounts.ForgotThenReset | Backend/controllers/authController.js:79-159 | A reset within the hour after a forgot-password request with a fresh token sets the password on the right account. |
| Accounts.ResetSparesLaterHolder | Backend/controllers/authController.js:139-152 | When two accounts hold the same unexpired token, the reset succeeds on the first and leaves the later one as it was. |
| Accounts.ResetIsSingleUse | Backend/controllers/authController.js:148-152 | Once used, a token that only one account held no longer resets anything. |
| Aggregates.BookingsOf | Backend/controllers/adminController.js:179 | The bookings of one event: exactly those that reference it, in store order. |
| Aggregates.BookingsBy | Backend/controllers/bookingController.js:58-63 | The bookings of one user: exactly those the user holds, in store order. |
| Aggregates.OtherEvents | Backend/controllers/adminController.js:137 | The bookings a cascade keeps: exactly those of other events. |
| Aggregates.Find | Backend/controllers/bookingController.js:73 | The index of a booking with that id, or none when no booking has it. |
| Aggregates.Holders | Backend/controllers/adminController.js:16 | The distinct holders: every booking's user, and only users with a booking. |
| Aggregates.SumTicketsRemoveAt | Backend/controllers/bookingController.js:85-95 | Removing a booking removes its tickets from its own event's sum and from no other. |
| Aggregates.SumTicketsCoversMember | Backend/controllers/adminController.js:157-161 | An event's ticket sum covers each of its bookings. |
| Aggregates.OtherEventsKeepsOthers | Backend/controllers/adminController.js:137-139 | The cascade empties the deleted event's selection and leaves every other event's selection as it was. |
| Aggregates.ReverseDescending | Backend/controllers/userController.js:102-104 | The creation-ordered list reversed is newest first with the same members. |
| Aggregates.HoldersAreBookers | Backend/controllers/adminController.js:16-21 | A user is among the distinct holders exactly when they hold a booking. |
| Reports.EventBookingsReport | Backend/controllers/adminController.js:177-199 | The event's bookings, `totalTickets` as their ticket sum and `totalBookings` as their count. |
| Reports.ReportMatchesCounter | Backend/controllers/adminController.js:181-194 | On a consistent ledger the reported ticket sum equals the event's counter and is at least the booking count. |
| Reports.Stats | Backend/controllers/adminController.js:32-83 | An event's statistics: `bookedTickets` recomputed as its bookings' ticket sum, the booking count, `availableTickets = totalTickets - bookedTickets`, and the creator: the account of the event's `createdBy`, when it exists, without its password, reset token and token expiry. |
| Reports.EventsWithStats | Backend/controllers/adminController.js:32-83 | One statistics row per stored event. |
| Reports.StatsAgreeWithCounters | Backend/controllers/adminController.js:54-64 | On a consistent ledger the recomputed event equals the stored one, counter included, and available tickets are non-negative when every event is within capacity. |
| Reports.DashboardStats | Backend/controllers/adminController.js:7-29 | Event and booking counts, plain users, distinct holders (at most the bookings) and revenue, 0 with no bookings. |
| Reports.DashboardBounds | Backend/controllers/adminController.js:12-23 | Revenue is never negative, and any booking makes at least one active user. |
| Reports.ActiveUsers | Backend/controllers/adminController.js:202-239 | Exactly the existing users with a booking, with their booking count and total spent. |
| Reports.ActiveUsersMatchDashboard | Backend/controllers/adminController.js:202-239 | When every holder has an account, the active-user list and the dashboard count the same users. |
| Reports.FilterByStatus | Backend/controllers/userController.js:112-118 | Keeps exactly the bookings whose event exists and is upcoming (date at or after now) or past (before now) as asked. |
| Reports.UserBookings | Backend/controllers/userController.js:97-125 | No status or "all": all the user's bookings, orphans included; "upcoming"/"past": the filtered ones; any other status: none. |
| Reports.NothingKept | Backend/controllers/userController.js:117 | A status other than "upcoming" or "past" keeps nothing. |
| Reports.FilterDescending | Backend/controllers/userController.js:112 | The filter keeps the order of what it keeps. |
| Reports.UserBookingsNewestFirst | Backend/controllers/userController.js:102-104 | Every listing is newest first. |
| Reports.UpcomingPastPartition | Backend/controllers/userController.js:112-117 | A booking of an existing event is listed as exactly one of upcoming and past; an orphan as neither; every booking of the user is in the full list. |
| Text.TrimStart | Frontend/js/events.js:32 | The front half of `trim()`: drops a prefix made only of whitespace and keeps the rest, which does not start with whitespace. |
| Text.TrimEnd | Frontend/js/events.js:32 | The back half of `trim()`: drops a suffix made only of whitespace and keeps the rest, which does not end with whitespace. |
| Text.TrimIsInfix | Frontend/js/events.js:32 | `trim()` keeps exactly the part of the string between its leading and its trailing whitespace. |
| Text.TrimIsTrimmed | Frontend/js/events.js:32 | `trim()` leaves no whitespace at either end. |
| Text.TrimOfTrimmed | Frontend/js/events.js:32 | `trim()` leaves a trimmed string as it is. |
| Text.ReplaceBackslashes | Frontend/js/events.js:32 | Every backslash becomes a slash and nothing else changes. |
| Text.IndexOf | Frontend/js/events.js:33 | The first index where the pattern occurs, or -1 when it occurs nowhere. |
| EventsPage.CutAtMarker | Frontend/js/events.js:33-36 | The path from the first "uploads/" on when it occurs, else the path itself. |
| EventsPage.CleanPath | Frontend/js/events.js:32-36 | The cleaned path has no backslash, no surrounding whitespace, and holds "uploads/" only at its start if at all. |
| EventsPage.ImageSrc | Frontend/js/events.js:30-42 | The placeholder exactly when the image is missing or empty; otherwise the cleaned path when it starts with "http" or "data:", else the path under the backend origin. |
| EventsPage.AccountImageSrc | Frontend/js/account.js:188-196 | The account page's variant: the placeholder exactly as above, else always the cleaned path under the backend origin. |
| EventsPage.CutKeepsClean | Frontend/js/events.js:33-36 | The cut keeps a clean path clean and leaves "uploads/" at its start or nowhere. |
| EventsPage.CleanPathFixed | Frontend/js/events.js:32-36 | Cleaning a clean path changes nothing. |
| EventsPage.UploadsServedByBackend | Frontend/js/events.js:33-40 | An image whose path holds "uploads/" is always fetched from the backend origin, from the marker on, by both helpers. |
| EventsPage.MarkerNotAbsolute | Frontend/js/events.js:37 | A path starting with "uploads/" is neither "http" nor "data:". |
| EventsPage.AccountVariantAgreement | Frontend/js/account.js:188-196 | The two helpers agree exactly when the image is missing or its cleaned path is not absolute. |
| EventsPage.ImageSrcIdempotent | Frontend/js/events.js:30-42 | Feeding a card's image address back through the helper gives the same address. |
| EventsPage.CanManage | Frontend/js/events.js:25-28 | The card's manage buttons: never for a signed-out visitor, always for an admin, otherwise exactly when the populated creator is the signed-in user. |
| EventsPage.CanManageMatchesBackend | Frontend/js/events.js:25-28 | The card's manage buttons show exactly when the backend's owner-or-admin check would allow the edit, and never to a signed-out visitor. |
| Backend.Store.InsertBooking | Backend/controllers/bookingController.js:40 | `save()` of a new booking appends it under the next id and changes nothing else. |
| Backend.Store.IncrementBooked | Backend/controllers/bookingController.js:43-46 | `$inc` adds `delta` to one event's counter and changes nothing else. |
| Backend.Store.SaveEvent | Backend/controllers/adminController.js:164 | `save()` of a loaded event replaces that one document and changes nothing else. |
| Backend.Store.DeleteBookingAt | Backend/controllers/bookingController.js:95 | `deleteOne()` removes exactly that booking and changes nothing else. |
| Backend.Store.CreateBooking | Backend/controllers/bookingController.js:7-55 | Guards, insert, then `$inc`; agrees with `Ledger.CreateBooking` and keeps the invariant. |
| Backend.Store.CancelBooking | Backend/controllers/bookingController.js:71-102 | Holder check, decrement, delete; agrees with `Ledger.CancelBooking` and keeps the invariant. |
| Backend.Store.AdminCancelBooking | Backend/controllers/adminController.js:149-174 | Clamped decrement, delete; agrees with `Ledger.AdminCancelBooking` and keeps the invariant. |
| Backend.Store.AdminDeleteEvent | Backend/controllers/adminController.js:128-146 | Bulk delete of the event's bookings, then the event; agrees with `Ledger.AdminDeleteEvent` and keeps the invariant. |
| Backend.Store.AdminUpdateEvent | Backend/controllers/adminController.js:100-125 | Field assignments then save; agrees with `Catalog.AdminUpdateEvent` and keeps the invariant. |
| Backend.Store.ApproveOrganizerRequest | Backend/controllers/adminController.js:255-275 | Agrees with `Accounts.ApproveOrganizerRequest` and keeps the invariant. |
| Backend.Store.RejectOrganizerRequest | Backend/controllers/adminController.js:277-296 | Agrees with `Accounts.RejectOrganizerRequest` and keeps the invariant. |
| Backend.Store.CreateEvent | Backend/controllers/eventController.js:5-61 | Role gate, image gate, insert; agrees with `Catalog.CreateEvent` and keeps the invariant. |
| Backend.Store.UpdateEvent | Backend/controllers/eventController.js:119-165 | Permission check, field assignments, save; agrees with `Catalog.UpdateEvent` and keeps the invariant. |
| Backend.Store.DeleteEvent | Backend/controllers/eventController.js:167-190 | Permission check, then only the event goes; agrees with `Catalog.DeleteEvent` and keeps the invariant and capacity. |
| Backend.Store.Register | Backend/controllers/authController.js:8-54 | Agrees with `Accounts.Register` and keeps usernames and emails unique. |
| Backend.Store.ForgotPassword | Backend/controllers/authController.js:79-129 | Agrees with `Accounts.ForgotPassword` and keeps the invariant. |
| Backend.Store.ResetPassword | Backend/controllers/authController.js:131-159 | Agrees with `Accounts.ResetPassword` and keeps the invariant. |
| Backend.Store.RequestOrganizerRole | Backend/controllers/authController.js:161-197 | Agrees with `Accounts.RequestOrganizerRole` and keeps the invariant. |
| Backend.Store.UpdateProfile | Backend/controllers/userController.js:22-67 | Uniqueness lookups, then optional-field assignments; agrees with `Accounts.UpdateProfile` and keeps usernames and emails unique. |

## Left out

- Concurrency: the read, check, insert and `$inc` of a booking are modelled as one sequential step; interleavings and database atomicity are not modelled.
- JavaScript numbers and dates: money and `totalPrice` are integers and dates are integer timestamps; floating point, `Date` parsing and `toFixed` are not modelled.
- Hashing and tokens: bcrypt, SHA-256 and JWT signing are foreign calls. A password is stored as given, a reset token arrives already hashed, and a request's identity is a given (user id, role) pair.
- Randomness and the clock: the reset token and `Date.now()` are parameters.
- Email, the reminder scheduler, the reset-URL construction from the referer header, logging, and Express/Mongo wiring (Backend/server.js, the route files, the upload middleware) are not modelled.
- The admin route gate (Backend/middleware/checkAdmin.js): the `Store` admin methods are the handlers behind it and take no identity.
- Request validation by express-validator, `CastError` on malformed ids and the generic 500 replies are not modelled, except that a save the schema rejects (a negative total price, an empty required field) fails with no change.
- Backend/models/User.js is not part of this model: accounts carry the fields the controllers use.
- The DOM and fetch code of the frontend pages, and the copies of the image helper in Frontend/js/dashboard.js.
- Handlers that only read or that authenticate: `login`, `changePassword`, `getProfile`, `getAllEvents`, `getEventById`, `getAllBookingsWithDetails` and `getOrganizerRequests` (plain lookups or population of stored documents).
- Accounts.Register: a duplicate username is reported before a duplicate email; the source reports whichever key MongoDB's unique index names first.
- EventsPage.ImageSrcIdempotent: covers card addresses only; the placeholder is a fixed data URI and is not fed back.
- Catalog.UpdateEvent, Catalog.UpdateCannotSetZero: a multipart form (the route always accepts one, and an image upload needs one) sends price and capacity as strings, where "0" is truthy and is stored as 0; the model takes numbers as a JSON body sends them, so the owner clearing a price or capacity through a form is not captured.
- Catalog.CreateEvent: a multipart form sends every field as a string; the model takes numbers already parsed and treats an empty string field as absent.
