/** The customer-facing booking routes: create a booking (field checks, the
    overlap check, pricing and the insert), cancel an own pending booking, and
    the admin's confirmation of a return. */
module BookingRoutes {
  import opened Schema

  /** Surcharge for each day beyond the car's base rental duration. */
  const ExtraDayRate: int := 20000

  /** Days from start to end, both counted. */
  function TotalDays(startDate: int, endDate: int): int {
    endDate - startDate + 1
  }

  /** The total price of a booking: the car's price, plus the surcharge for
      every day beyond its base rental duration. */
  function Price(basePrice: int, baseDuration: int, startDate: int, endDate: int): int {
    var totalDays := TotalDays(startDate, endDate);
    if totalDays > baseDuration then basePrice + (totalDays - baseDuration) * ExtraDayRate
    else basePrice
  }

  /** The price never drops below the base price, and equals it exactly when
      the span fits in the base duration. */
  lemma PriceAtLeastBase(basePrice: int, baseDuration: int, startDate: int, endDate: int)
    ensures Price(basePrice, baseDuration, startDate, endDate) >= basePrice
    ensures Price(basePrice, baseDuration, startDate, endDate) == basePrice
        <==> TotalDays(startDate, endDate) <= baseDuration
  {
  }

  /** Past the base duration, every further day costs exactly the surcharge. */
  lemma PriceExtraDay(basePrice: int, baseDuration: int, startDate: int, endDate: int)
    requires TotalDays(startDate, endDate) >= baseDuration
    ensures Price(basePrice, baseDuration, startDate, endDate + 1)
         == Price(basePrice, baseDuration, startDate, endDate) + ExtraDayRate
  {
  }

  /** Moving the end date later never makes a booking cheaper. */
  lemma PriceMonotoneInEnd(basePrice: int, baseDuration: int, startDate: int, end1: int, end2: int)
    requires end1 <= end2
    ensures Price(basePrice, baseDuration, startDate, end1) <= Price(basePrice, baseDuration, startDate, end2)
  {
  }

  /** Five days within a five-day base cost the base price; seven days cost two surcharges more. */
  lemma PriceExamples()
    ensures Price(100, 5, 0, 4) == 100
    ensures Price(100, 5, 0, 6) == 100 + 2 * ExtraDayRate
  {
  }

  /** The SQL test `NOT (end_date < start OR start_date > end)` between a stored
      span and a requested one. */
  predicate Overlaps(rowStart: int, rowEnd: int, startDate: int, endDate: int) {
    !(rowEnd < startDate || rowStart > endDate)
  }

  /** Day `d` lies in the span from `s` to `e`, both included. */
  predicate InSpan(d: int, s: int, e: int) {
    s <= d <= e
  }

  /** Some calendar day lies in both spans. */
  ghost predicate SharesDay(s1: int, e1: int, s2: int, e2: int) {
    exists d :: InSpan(d, s1, e1) && InSpan(d, s2, e2)
  }

  /** For non-empty spans the overlap test means exactly that the spans share
      a day; a shared day always makes it true. */
  lemma OverlapsIffSharesDay(s1: int, e1: int, s2: int, e2: int)
    ensures SharesDay(s1, e1, s2, e2) ==> Overlaps(s1, e1, s2, e2)
    ensures s1 <= e1 && s2 <= e2 && Overlaps(s1, e1, s2, e2) ==> SharesDay(s1, e1, s2, e2)
  {
    if s1 <= e1 && s2 <= e2 && Overlaps(s1, e1, s2, e2) {
      var d := if s1 < s2 then s2 else s1;
      assert InSpan(d, s1, e1) && InSpan(d, s2, e2);
    }
  }

  /** The overlap test is symmetric, and spans that only touch on a boundary
      day already overlap. */
  lemma OverlapsSymmetricAndInclusive(s1: int, e1: int, s2: int, e2: int)
    ensures Overlaps(s1, e1, s2, e2) <==> Overlaps(s2, e2, s1, e1)
    ensures Overlaps(1, 5, 5, 9)
    ensures e1 < s2 ==> !Overlaps(s1, e1, s2, e2)
  {
  }

  /** The statuses the overlap query considers: pending, booked and rented.
      `Accepted` is not among them. */
  predicate Blocks(status: BookingStatus) {
    status == Pending || status == Booked || status == Rented
  }

  /** A stored booking the overlap query returns for this car and span. */
  predicate Blocking(b: Booking, carId: nat, startDate: int, endDate: int) {
    b.carId == carId && Blocks(b.status) && Overlaps(b.startDate, b.endDate, startDate, endDate)
  }

  /** The overlap query returns at least one row. */
  predicate HasConflict(bookings: map<nat, Booking>, carId: nat, startDate: int, endDate: int) {
    exists id :: id in bookings && Blocking(bookings[id], carId, startDate, endDate)
  }

  /** The body of a create request; a field is None when it was not sent. */
  datatype CreateRequest = CreateRequest(
    carId: Option<nat>,
    purpose: Option<string>,
    startDate: Option<int>,
    endDate: Option<int>)

  predicate Complete(req: CreateRequest) {
    req.carId.Some? && Given(req.purpose) && req.startDate.Some? && req.endDate.Some?
  }

  /** `POST /bookings`: the store afterwards and the answer. `now` is the
      creation time the store stamps on the row. */
  function Create(t: Tables, user: Option<SessionUser>, req: CreateRequest, now: int): Step {
    if !IsAuthenticated(user) then Step(t, Unauthorized)
    else if !Complete(req) then Step(t, MissingFields)
    else
      var carId, startDate, endDate := req.carId.value, req.startDate.value, req.endDate.value;
      if startDate > endDate then Step(t, StartAfterEnd)
      else if HasConflict(t.bookings, carId, startDate, endDate) then Step(t, SlotTaken)
      else if carId !in t.cars then Step(t, CarNotFound)
      else
        var car := t.cars[carId];
        var totalPrice := Price(car.price, car.baseRentalDuration, startDate, endDate);
        var row := Booking(user.value.id, carId, req.purpose.value, startDate, endDate, Pending, totalPrice, now);
        Step(t.(bookings := t.bookings[t.nextBookingId := row], nextBookingId := t.nextBookingId + 1),
             BookingCreated(totalPrice))
  }

  /** A request missing any of car, purpose, start or end is refused and inserts nothing. */
  lemma CreateRejectsMissingFields(t: Tables, user: Option<SessionUser>, req: CreateRequest, now: int)
    requires IsAuthenticated(user)
    requires req.carId.None? || !Given(req.purpose) || req.startDate.None? || req.endDate.None?
    ensures Create(t, user, req, now) == Step(t, MissingFields)
  {
  }

  /** A start after the end is refused without change; a one-day booking
      (start equal to end) passes the date check. */
  lemma CreateDateOrder(t: Tables, user: Option<SessionUser>, req: CreateRequest, now: int)
    requires IsAuthenticated(user) && Complete(req)
    ensures req.startDate.value > req.endDate.value <==> Create(t, user, req, now).response == StartAfterEnd
    ensures req.startDate.value > req.endDate.value ==> Create(t, user, req, now).tables == t
  {
  }

  /** An overlapping pending, booked or rented booking of the car refuses the
      request and changes nothing, whether or not the car exists: the overlap
      query runs before the car lookup. Without a conflict an unknown car is
      "not found", again without change. */
  lemma CreateConflictBeforeLookup(t: Tables, user: Option<SessionUser>, req: CreateRequest, now: int)
    requires IsAuthenticated(user) && Complete(req) && req.startDate.value <= req.endDate.value
    ensures HasConflict(t.bookings, req.carId.value, req.startDate.value, req.endDate.value)
        ==> Create(t, user, req, now) == Step(t, SlotTaken)
    ensures !HasConflict(t.bookings, req.carId.value, req.startDate.value, req.endDate.value)
        && req.carId.value !in t.cars
        ==> Create(t, user, req, now) == Step(t, CarNotFound)
  {
  }

  /** A create succeeds exactly when the user is signed in, the fields are
      present, start <= end, nothing blocks the span and the car exists. It then
      adds exactly one pending booking, under a fresh id, priced by `Price`,
      and leaves every car and every other table unchanged. */
  lemma CreateSuccess(t: Tables, user: Option<SessionUser>, req: CreateRequest, now: int)
    requires ValidIds(t)
    ensures var s := Create(t, user, req, now);
      s.response.BookingCreated?
      <==> (IsAuthenticated(user) && Complete(req) && req.startDate.value <= req.endDate.value
            && !HasConflict(t.bookings, req.carId.value, req.startDate.value, req.endDate.value)
            && req.carId.value in t.cars)
    ensures var s := Create(t, user, req, now);
      s.response.BookingCreated? ==>
        var id, car := t.nextBookingId, t.cars[req.carId.value];
        && id !in t.bookings
        && s.tables.bookings.Keys == t.bookings.Keys + {id}
        && |s.tables.bookings| == |t.bookings| + 1
        && (forall k :: k in t.bookings ==> s.tables.bookings[k] == t.bookings[k])
        && s.tables.bookings[id].status == Pending
        && s.tables.bookings[id].userId == user.value.id
        && s.tables.bookings[id].carId == req.carId.value
        && s.tables.bookings[id].startDate == req.startDate.value
        && s.tables.bookings[id].endDate == req.endDate.value
        && s.tables.bookings[id].purpose == req.purpose.value
        && s.tables.bookings[id].createdAt == now
        && s.tables.bookings[id].totalPrice == s.response.totalPrice
        && s.response.totalPrice == Price(car.price, car.baseRentalDuration, req.startDate.value, req.endDate.value)
        && s.tables.cars == t.cars
        && s.tables.bookingHistory == t.bookingHistory && s.tables.returnLogs == t.returnLogs
        && s.tables.users == t.users && s.tables.carImages == t.carImages
        && ValidIds(s.tables)
  {
  }

  /** After a successful create, every later request for the same car whose
      span overlaps the new booking is refused as taken. */
  lemma CreatedBookingBlocksOverlap(t: Tables, user: Option<SessionUser>, req: CreateRequest, now: int,
                                    startDate: int, endDate: int)
    requires Create(t, user, req, now).response.BookingCreated?
    requires Overlaps(req.startDate.value, req.endDate.value, startDate, endDate)
    ensures HasConflict(Create(t, user, req, now).tables.bookings, req.carId.value, startDate, endDate)
  {
    var id := t.nextBookingId;
    assert Blocking(Create(t, user, req, now).tables.bookings[id], req.carId.value, startDate, endDate);
  }

  /** A successful create changes the conflict answer of no span disjoint from
      the new booking's, and of no other car. */
  lemma CreateKeepsOtherConflicts(t: Tables, user: Option<SessionUser>, req: CreateRequest, now: int,
                                  carId: nat, startDate: int, endDate: int)
    requires ValidIds(t)
    requires Create(t, user, req, now).response.BookingCreated?
    requires carId != req.carId.value || !Overlaps(req.startDate.value, req.endDate.value, startDate, endDate)
    ensures HasConflict(Create(t, user, req, now).tables.bookings, carId, startDate, endDate)
        <==> HasConflict(t.bookings, carId, startDate, endDate)
  {
    var after := Create(t, user, req, now).tables.bookings;
    if HasConflict(after, carId, startDate, endDate) {
      var k :| k in after && Blocking(after[k], carId, startDate, endDate);
      assert k in t.bookings && after[k] == t.bookings[k];
    }
    if HasConflict(t.bookings, carId, startDate, endDate) {
      var k :| k in t.bookings && Blocking(t.bookings[k], carId, startDate, endDate);
      assert k in after && after[k] == t.bookings[k];
    }
  }

  /** The POST /bookings handler against the database. */
  method HandleCreate(db: Database, session: Session, req: CreateRequest, now: int) returns (r: Response)
    modifies db
    ensures Step(db.Snapshot(), r) == Create(old(db.Snapshot()), session.user, req, now)
  {
    if session.user.None? {
      return Unauthorized;
    }
    var userId := session.user.value.id;
    if !Complete(req) {
      return MissingFields;
    }
    var carId, startDate, endDate := req.carId.value, req.startDate.value, req.endDate.value;
    if startDate > endDate {
      return StartAfterEnd;
    }
    if HasConflict(db.bookings, carId, startDate, endDate) {
      return SlotTaken;
    }
    if carId !in db.cars {
      return CarNotFound;
    }
    var car := db.cars[carId];
    var totalPrice := Price(car.price, car.baseRentalDuration, startDate, endDate);
    db.bookings := db.bookings[db.nextBookingId := Booking(userId, carId, req.purpose.value, startDate, endDate,
                                                           Pending, totalPrice, now)];
    db.nextBookingId := db.nextBookingId + 1;
    r := BookingCreated(totalPrice);
  }

  /** The cancelled row `INSERT INTO booking_history ... SELECT` copies. */
  function ArchiveRow(b: Booking): HistoryRow {
    HistoryRow(b.userId, b.carId, b.purpose, b.startDate, b.endDate, Cancelled, b.createdAt)
  }

  /** The booking exists, belongs to the user and is pending. */
  predicate Cancellable(t: Tables, userId: nat, bookingId: nat) {
    bookingId in t.bookings && t.bookings[bookingId].userId == userId && t.bookings[bookingId].status == Pending
  }

  /** `POST /bookings/:id/cancel`: archive, delete, and set the car available. */
  function Cancel(t: Tables, user: Option<SessionUser>, bookingId: nat): Step {
    if !IsAuthenticated(user) then Step(t, Unauthorized)
    else if !Cancellable(t, user.value.id, bookingId) then Step(t, NotEligible)
    else
      var b := t.bookings[bookingId];
      Step(t.(bookingHistory := t.bookingHistory + [ArchiveRow(b)],
              bookings := t.bookings - {bookingId},
              cars := SetCarStatus(t.cars, b.carId, CarAvailable)),
           Done)
  }

  /** Cancel changes nothing unless the booking exists, is the caller's own
      and is pending. */
  lemma CancelOnlyOwnPending(t: Tables, user: Option<SessionUser>, bookingId: nat)
    requires IsAuthenticated(user)
    ensures Cancel(t, user, bookingId).response == Done <==> Cancellable(t, user.value.id, bookingId)
    ensures !Cancellable(t, user.value.id, bookingId) ==> Cancel(t, user, bookingId) == Step(t, NotEligible)
  {
  }

  /** A successful cancel removes the booking, appends one history row with its
      user, car, purpose, dates and creation time and status cancelled, makes
      its car available, and changes nothing else. */
  lemma CancelArchives(t: Tables, user: Option<SessionUser>, bookingId: nat)
    requires IsAuthenticated(user) && Cancellable(t, user.value.id, bookingId)
    ensures var s, b := Cancel(t, user, bookingId).tables, t.bookings[bookingId];
      && bookingId !in s.bookings
      && s.bookings.Keys == t.bookings.Keys - {bookingId}
      && (forall k :: k in s.bookings ==> s.bookings[k] == t.bookings[k])
      && |s.bookingHistory| == |t.bookingHistory| + 1
      && s.bookingHistory[..|t.bookingHistory|] == t.bookingHistory
      && (var h := s.bookingHistory[|t.bookingHistory|];
          && h.userId == b.userId && h.carId == b.carId && h.purpose == b.purpose
          && h.startDate == b.startDate && h.endDate == b.endDate && h.createdAt == b.createdAt
          && h.status == Cancelled)
      && (b.carId in t.cars ==> s.cars[b.carId] == t.cars[b.carId].(status := CarAvailable))
      && s.cars.Keys == t.cars.Keys
      && (forall c :: c in t.cars && c != b.carId ==> s.cars[c] == t.cars[c])
      && s.users == t.users && s.carImages == t.carImages && s.returnLogs == t.returnLogs
      && s.nextBookingId == t.nextBookingId
  {
  }

  /** Cancel frees the car unconditionally: even while another booking of the
      same car is booked, the car becomes available and that booking stays booked. */
  lemma CancelFreesCarHeldByAnother(t: Tables, user: Option<SessionUser>, bookingId: nat, other: nat)
    requires IsAuthenticated(user) && Cancellable(t, user.value.id, bookingId)
    requires other in t.bookings && other != bookingId
    requires t.bookings[other].carId == t.bookings[bookingId].carId && t.bookings[other].status == Booked
    requires t.bookings[bookingId].carId in t.cars
    ensures var s := Cancel(t, user, bookingId).tables;
      && s.cars[t.bookings[bookingId].carId].status == CarAvailable
      && other in s.bookings && s.bookings[other].status == Booked
  {
  }

  /** The POST /bookings/:id/cancel handler against the database. */
  method HandleCancel(db: Database, session: Session, bookingId: nat) returns (r: Response)
    modifies db
    ensures Step(db.Snapshot(), r) == Cancel(old(db.Snapshot()), session.user, bookingId)
  {
    if session.user.None? {
      return Unauthorized;
    }
    var userId := session.user.value.id;
    if !(bookingId in db.bookings && db.bookings[bookingId].userId == userId
         && db.bookings[bookingId].status == Pending) {
      return NotEligible;
    }
    var b := db.bookings[bookingId];
    db.bookingHistory := db.bookingHistory + [ArchiveRow(b)];
    db.bookings := db.bookings - {bookingId};
    db.cars := SetCarStatus(db.cars, b.carId, CarAvailable);
    r := Done;
  }

  /** `UPDATE return_logs SET confirmed_by_admin = TRUE WHERE booking_id = ?`. */
  function ConfirmLogs(logs: seq<ReturnLog>, bookingId: nat): seq<ReturnLog> {
    seq(|logs|, i requires 0 <= i < |logs| =>
      if logs[i].bookingId == bookingId then logs[i].(confirmedByAdmin := true) else logs[i])
  }

  /** `PUT /bookings/:id/confirm-return`, admins only, from status returned. */
  function ConfirmReturn(t: Tables, user: Option<SessionUser>, bookingId: nat): Step {
    if !IsAdmin(user) then Step(t, Forbidden)
    else if !(bookingId in t.bookings && t.bookings[bookingId].status == Returned) then Step(t, NotEligible)
    else
      var carId := t.bookings[bookingId].carId;
      Step(t.(bookings := SetBookingStatus(t.bookings, bookingId, Returned),
              cars := SetCarStatus(t.cars, carId, CarAvailable),
              returnLogs := ConfirmLogs(t.returnLogs, bookingId)),
           Done)
  }

  /** Confirm-return changes nothing unless the booking is returned. On success
      the bookings table is unchanged (the booking stays returned), its car is
      available, exactly that booking's return-log rows are confirmed, no car
      is added or removed, and every other table is unchanged. */
  lemma ConfirmReturnEffect(t: Tables, user: Option<SessionUser>, bookingId: nat)
    requires IsAdmin(user)
    ensures var s := ConfirmReturn(t, user, bookingId);
      !(bookingId in t.bookings && t.bookings[bookingId].status == Returned) ==> s == Step(t, NotEligible)
    ensures var s := ConfirmReturn(t, user, bookingId);
      bookingId in t.bookings && t.bookings[bookingId].status == Returned ==>
        var carId := t.bookings[bookingId].carId;
        && s.response == Done
        && s.tables.bookings == t.bookings
        && (carId in t.cars ==> s.tables.cars[carId] == t.cars[carId].(status := CarAvailable))
        && s.tables.cars.Keys == t.cars.Keys
        && (forall c :: c in t.cars && c != carId ==> s.tables.cars[c] == t.cars[c])
        && s.tables == t.(cars := s.tables.cars, returnLogs := s.tables.returnLogs)
        && |s.tables.returnLogs| == |t.returnLogs|
        && (forall i :: 0 <= i < |t.returnLogs| ==>
              s.tables.returnLogs[i].bookingId == t.returnLogs[i].bookingId
              && s.tables.returnLogs[i].confirmedByAdmin
                 == (t.returnLogs[i].confirmedByAdmin || t.returnLogs[i].bookingId == bookingId))
  {
  }

  /** The PUT /bookings/:id/confirm-return handler against the database. */
  method HandleConfirmReturn(db: Database, session: Session, bookingId: nat) returns (r: Response)
    modifies db
    ensures Step(db.Snapshot(), r) == ConfirmReturn(old(db.Snapshot()), session.user, bookingId)
  {
    if !IsAdmin(session.user) {
      return Forbidden;
    }
    if !(bookingId in db.bookings && db.bookings[bookingId].status == Returned) {
      return NotEligible;
    }
    var carId := db.bookings[bookingId].carId;
    db.bookings := SetBookingStatus(db.bookings, bookingId, Returned);
    db.cars := SetCarStatus(db.cars, carId, CarAvailable);
    db.returnLogs := ConfirmLogs(db.returnLogs, bookingId);
    r := Done;
  }
}
