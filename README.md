# Car rental reservation lifecycle, modelled in Dafny

This project models the reservation lifecycle of a small Express car-rental
site (josephlyimo/Car-Rental). The site's handlers in `routes/booking.js`,
`routes/admin.js` and `routes/user.js` read and write the relational tables
`cars`, `car_images`, `users`, `bookings`, `booking_history` and `return_logs`.
Here those tables are in-memory maps and sequences. Dates are integer day
numbers. Money is an integer in the smallest currency unit.

Files and modules:

- `schema.dfy`, module `Schema`: the row types and the `Tables` value holding
  the whole store. It also has the responses a handler can give, the
  `isAuthenticated`/`isAdmin` guards, the single-statement
  `UPDATE ... WHERE id = ?` helpers and the users-table helpers. Two classes
  hold mutable state: `Database`, with one field per table, and `Session`,
  which holds the session user.
- `booking.js` maps to `booking.dfy`, module `BookingRoutes`. It holds pricing,
  the overlap predicate, create, customer cancel and admin confirm-return.
- `admin.js` maps to `admin.dfy`, module `AdminRoutes`. It holds the accept,
  confirm and mark-returned transitions, the product list, product edit and
  delete, and admin registration through both routes.
- `user.js` maps to `users.dfy`, module `UserRoutes`. It holds registration
  and login.
- `lifecycle.dfy`, module `Lifecycle`: every state-changing handler as one
  `Action`, a `Run` over a sequence of requests, invariants that hold along
  every run, and lemmas that expose the gaps listed below.

Each state-changing handler has two definitions:

- A pure function over `Tables` that returns the new store and the response
  (`Create`, `Cancel`, `Accept`, ...).
- A method over a `Database` that makes the source's updates one statement at
  a time, in source order (`HandleCreate`, `HandleCancel`, ...). Its
  postcondition ties the new database and the response to the function
  applied to the old database.

The two read-only routes differ. The product list is a method only
(`ListProducts`), whose postcondition states the listing directly. Login's
function (`Login`) returns only the response, since it changes no table. Its
method (`HandleLogin`) sets the session user from that response.

The lemmas state the properties the handlers keep.

Behaviour of the code, proved here, that a reader of the routes may not
expect:

- The overlap query blocks only bookings in `pending`, `booked` or `rented`.
  An `accepted` booking therefore does not block its dates. After an admin
  accepts a booking, the same request succeeds again. After a later confirm,
  one car has two overlapping blocking bookings (`AcceptedSlotCanBeRebooked`,
  `DoubleBookingReachable`).
- No handler ever assigns `rented` (`RentedNeverAssigned`), so `rented` in
  the overlap query never matches a row the handlers wrote.
- Accept, confirm and mark-returned never check the booking's current status.
  They always answer success, even for an unknown id, and repeating one is
  never refused (`TransitionEffect`, `*FromAnyStatus`, `TransitionIdempotent`).
- Accept sets the car to `booked`, although the comment above that update in
  routes/admin.js:220 says `not-available`; confirm is the route that writes
  `not-available` (`AcceptFromAnyStatus`, `ConfirmFromAnyStatus`).
- Cancel sets the car to `available` unconditionally, even while another
  booking of that car is `booked` (`CancelFreesCarHeldByAnother`).
- No handler inserts a `return_logs` row. Confirm-return only updates rows
  that already exist, so from an empty table it confirms nothing
  (`ReturnLogsNeverInserted`).
- A successful create answers with the total price only, not the new id.

## Model

| member | source | states |
|---|---|---|
| `BookingRoutes.PriceAtLeastBase` | routes/booking.js:106-116 | the price is never below the car's price, and equals it exactly when the inclusive day count is at most the base rental duration |
| `BookingRoutes.PriceExtraDay` | routes/booking.js:112-116 | once the span reaches the base duration, each further day adds exactly 20000 |
| `BookingRoutes.PriceMonotoneInEnd` | routes/booking.js:106-116 | with the start fixed, a later end never gives a lower price |
| `BookingRoutes.PriceExamples` | routes/booking.js:106-116 | 5 days on a 5-day base cost the base price; 7 days cost the base price plus 2 × 20000 |
| `BookingRoutes.OverlapsIffSharesDay` | routes/booking.js:88-90 | a shared calendar day always makes the overlap test true; for non-empty spans the test is true only when the spans share a day |
| `BookingRoutes.OverlapsSymmetricAndInclusive` | routes/booking.js:89 | the overlap test is symmetric; spans meeting on one boundary day overlap; a span ending before another starts does not |
| `BookingRoutes.CreateRejectsMissingFields` | routes/booking.js:78-80 | a request missing car, purpose, start or end is answered "missing fields" and the store is unchanged |
| `BookingRoutes.CreateDateOrder` | routes/booking.js:82-84 | a start after the end is refused, and only then, with no change; start equal to end passes the check |
| `BookingRoutes.CreateConflictBeforeLookup` | routes/booking.js:88-103 | an overlapping pending/booked/rented booking of the car refuses the request and changes nothing, even for an unknown car; with no conflict an unknown car is "not found" and nothing is inserted |
| `BookingRoutes.CreateSuccess` | routes/booking.js:74-130 | create succeeds exactly when every check passes; it then adds exactly one pending booking under a fresh id, with the request's user, car, purpose and dates, the creation time and the computed price; every car and every other table is unchanged |
| `BookingRoutes.CreatedBookingBlocksOverlap` | routes/booking.js:88-122 | after a successful create, any later request for the same car with an overlapping span meets a conflict |
| `BookingRoutes.CreateKeepsOtherConflicts` | routes/booking.js:88-122 | a successful create does not change the conflict answer for another car, or for a span disjoint from the new booking |
| `BookingRoutes.HandleCreate` | routes/booking.js:74-135 | the handler's effect on the database and its answer are those of `Create` |
| `BookingRoutes.CancelOnlyOwnPending` | routes/booking.js:165-172 | cancel succeeds exactly when the booking exists, is the caller's and is pending; otherwise "not eligible" and no change |
| `BookingRoutes.CancelArchives` | routes/booking.js:174-190 | cancel removes the booking; it appends one history row with the booking's user, car, purpose, dates and created_at and status cancelled; it makes the car available; nothing else changes |
| `BookingRoutes.CancelFreesCarHeldByAnother` | routes/booking.js:185-190 | the car becomes available even while another booking of it stays booked |
| `BookingRoutes.HandleCancel` | routes/booking.js:160-197 | the handler's effect on the database and its answer are those of `Cancel` |
| `BookingRoutes.ConfirmReturnEffect` | routes/booking.js:204-230 | confirm-return changes nothing unless the booking is returned; on success the bookings table is unchanged, the car is available, exactly that booking's return-log rows are confirmed, no car is added or removed, and no other table changes |
| `BookingRoutes.HandleConfirmReturn` | routes/booking.js:200-237 | the handler's effect on the database and its answer are those of `ConfirmReturn` |
| `AdminRoutes.TransitionEffect` | routes/admin.js:212-289 | for an admin a transition always answers success; an unknown id changes nothing; a known id changes only that booking's status and its car's status, whatever the prior status |
| `AdminRoutes.AcceptFromAnyStatus` | routes/admin.js:212-231 | accept makes the booking accepted and its car booked, from any status |
| `AdminRoutes.ConfirmFromAnyStatus` | routes/admin.js:240-257 | confirm makes the booking booked and its car not-available, from any status |
| `AdminRoutes.MarkReturnedFromAnyStatus` | routes/admin.js:266-283 | mark-returned makes the booking returned and its car available, from any status |
| `AdminRoutes.TransitionIdempotent` | routes/admin.js:212-231 | repeating a transition is never refused and leaves the store as the first call left it |
| `AdminRoutes.ApplyTransition` | routes/admin.js:216-231 | the two successive updates (booking row, then car row) have the effect of `Transition` |
| `AdminRoutes.HandleAccept` | routes/admin.js:212-237 | the accept handler's effect is that of `Accept` |
| `AdminRoutes.HandleConfirm` | routes/admin.js:240-263 | the confirm handler's effect is that of `Confirm` |
| `AdminRoutes.HandleMarkReturned` | routes/admin.js:266-289 | the mark-returned handler's effect is that of `MarkReturned` |
| `AdminRoutes.WithoutCar` | routes/admin.js:113 | deleting a car's image rows keeps exactly the rows of other cars and never adds rows |
| `AdminRoutes.ImagesOfAppend` | routes/admin.js:100 | the images of a car in appended rows are its images in the first part followed by those in the second |
| `AdminRoutes.ImagesOfWithoutCar` | routes/admin.js:99 | after deleting a car's image rows it has no images, and every other car keeps exactly its images |
| `AdminRoutes.ListProducts` | routes/admin.js:21-35 | for an admin, every car is listed with exactly the URLs of its image rows in table order; anyone else is forbidden and gets no images |
| `AdminRoutes.EditProductImages` | routes/admin.js:97-101 | after an edit with an upload, the car has exactly that one image; without an upload the image rows are untouched; other cars' images never change |
| `AdminRoutes.EditProductFields` | routes/admin.js:93-96 | the edit writes the form's five fields into an existing car, keeps its price and base duration, changes no other car and adds or removes none; only the cars and car images tables change |
| `AdminRoutes.HandleEditProduct` | routes/admin.js:87-107 | the edit handler's effect is that of `EditProduct` |
| `AdminRoutes.DeleteProductEffect` | routes/admin.js:110-115 | delete removes exactly that car and all its image rows; other cars and their images are kept, and no other table changes, bookings included |
| `AdminRoutes.HandleDeleteProduct` | routes/admin.js:110-120 | the delete handler's effect is that of `DeleteProduct` |
| `AdminRoutes.RegisterAdminEffect` | routes/admin.js:140-158 | missing fields or a registered email are refused with no insert; otherwise exactly one user is appended with that name, email and hash and role admin; emails stay unique; nothing but the users table and the next user id changes |
| `AdminRoutes.HandleRegisterAdmin` | routes/admin.js:140-164 | the open admin-registration handler's effect is that of `RegisterAdmin` |
| `AdminRoutes.HandleAddAdmin` | routes/admin.js:167-191 | the guarded add-admin handler's effect is that of `AddAdmin` |
| `Schema.InsertUserKeepsEmailsUnique` | routes/user.js:43-48 | inserting a user whose email is not registered appends one row, leaves exactly one row with that email, and keeps emails unique |
| `UserRoutes.RegisterCheckOrder` | routes/user.js:28-46 | missing fields are reported first, then a name shorter than 6, then a weak password, then a registered email; every refusal leaves the store unchanged |
| `UserRoutes.RegisterBoundaries` | routes/user.js:24-40 | a 6-character name passes the length check and a 5-character one fails; every password on the weak list is refused |
| `UserRoutes.RegisterSuccess` | routes/user.js:43-48 | registration succeeds exactly when all checks pass; it then appends exactly one user with that name, email and hash and no role; emails stay unique; nothing but the users table and the next user id changes |
| `UserRoutes.HandleRegister` | routes/user.js:28-54 | the register handler's effect is that of `Register` |
| `UserRoutes.FindByEmail` | routes/user.js:65-69 | the lookup finds nothing exactly when no user has the email; otherwise it finds the first row with that email |
| `UserRoutes.LoginEffect` | routes/user.js:59-86 | login fails for a missing field or unknown email; with unique emails and a matching hash the session user is that row's id, name, email and role; the redirect is the admin profile exactly when the role is admin |
| `UserRoutes.HandleLogin` | routes/user.js:59-91 | the login handler answers as `Login` and sets the session user only on success |
| `Lifecycle.GuardsRefuseWithoutChange` | routes/admin.js:7-12 | an admin route answers forbidden exactly when the session's role is not admin, and then changes nothing (booking.js:20-25 has the same guard); create and cancel answer unauthorized exactly when there is no session user, and then change nothing (booking.js:8-17) |
| `Lifecycle.HandlePreservesInvariant` | routes/booking.js:119-122 | each handler keeps ids fresh, emails unique and history rows cancelled: the booking insert here, the user inserts at routes/user.js:43-48 and the history insert at routes/booking.js:175-179 all keep it |
| `Lifecycle.RunPreservesInvariant` | routes/booking.js:175-179 | every sequence of requests keeps that invariant (fresh ids as at routes/booking.js:119-122 and routes/user.js:43-48, only cancelled rows archived as here) |
| `Lifecycle.HandleNeverAssignsRented` | routes/booking.js:89 | no handler turns a booking into rented |
| `Lifecycle.RentedNeverAssigned` | routes/booking.js:89 | from a store without rented bookings no sequence of requests reaches one |
| `Lifecycle.HandleKeepsLogIds` | routes/booking.js:226-230 | no handler adds, removes or re-keys a return-log row |
| `Lifecycle.ReturnLogsNeverInserted` | routes/booking.js:226-230 | along any sequence of requests the return-log rows keep their booking ids; from an empty table none ever appears |
| `Lifecycle.AcceptedSlotCanBeRebooked` | routes/booking.js:89 | after a booking is accepted, the same request for the same car and dates succeeds again |
| `Lifecycle.DoubleBookingReachable` | routes/admin.js:240-257 | create, accept, an identical create, then confirm of the first leaves two overlapping blocking bookings of one car |

## Left out

- Express routing, view rendering, redirect targets other than login's, and the JSON/text shapes of responses. Each response is one `Response` value.
- The read-only listing and history pages (routes/booking.js:28-71 and 138-157, routes/car.js, app.js) and the Handlebars helpers in app.js. They only query and render.
- Product create (routes/admin.js:44-65) was not modelled. Its insert sets neither price nor base rental duration, so the model assumes every car has integer values for both.
- Password hashing and comparison (bcrypt). The registration functions take the hash as a parameter `passwordHash`. Login takes the comparison as a function parameter `verify`.
- Date parsing and formatting (dayjs, `new Date`). Dates arrive as day numbers, so an unparseable date string is not modelled.
- `created_at` is filled in by the store. Here it is the parameter `now`.
- Prices are integers. The driver might return `price` as a DECIMAL string, which would make `+=` concatenate; that is not modelled.
- Concurrency and transactions. The model is sequential: each handler runs alone. Every statement succeeds, so a storage error that stops a handler part-way (the 500 paths) is not modelled. Nothing here claims atomicity or freedom from double booking.
- Session storage, session secret and logout.
- Database schema facts that are not part of this model: column defaults, foreign keys and collations. Deleting a car keeps bookings that name it. An edit may insert an image row for an unknown car id. Emails compare exactly, with no case folding. A user registered through routes/user.js has role `None`, standing for the column default, and the model treats that default as not admin.
- `HandleEditProduct`: all five form fields are assumed present. A missing field would reach the SQL driver as `undefined`.
- `UserRoutes.RegisterCheckOrder`: the name length counts Unicode characters, while JavaScript counts UTF-16 code units. The two differ only for characters outside the Basic Multilingual Plane.
- JavaScript truthiness is modelled as: a field was sent and, for text, is non-empty. A car id arrives as an optional natural number, so a numeric `0` sent as JSON is not modelled.
- Upload storage and file naming (config/multer.js). An upload is the stored file name, and its URL is `/uploads/products/` followed by that name. The `car_images` row ids are not modelled.
- `AdminRoutes.ListProducts` returns a map from car id to image URLs, not the query's row order of cars.
- `UserRoutes.FindByEmail`: the query has no ORDER BY, so which row comes first is unspecified. The model takes the first in table order. Both registration paths keep emails unique, so there is at most one such row.
