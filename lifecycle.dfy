/** Every state-changing handler as one step of a machine over the store, the
    facts that hold along any sequence of requests, and the gaps the handlers
    leave open: an accepted booking does not block its dates, two blocking
    bookings of one car can overlap, and no handler ever assigns `Rented` or
    inserts a return log. */
module Lifecycle {
  import opened Schema
  import opened BookingRoutes
  import opened AdminRoutes
  import opened UserRoutes

  /** One request to a state-changing route, with the session user it carries. */
  datatype Action =
    | CreateBooking(user: Option<SessionUser>, req: CreateRequest, now: int)
    | CancelBooking(user: Option<SessionUser>, bookingId: nat)
    | ConfirmBookingReturn(user: Option<SessionUser>, bookingId: nat)
    | AcceptBooking(user: Option<SessionUser>, bookingId: nat)
    | ConfirmBooking(user: Option<SessionUser>, bookingId: nat)
    | MarkBookingReturned(user: Option<SessionUser>, bookingId: nat)
    | EditCar(user: Option<SessionUser>, carId: nat, product: ProductForm, upload: Option<string>)
    | DeleteCar(user: Option<SessionUser>, carId: nat)
    | RegisterCustomer(form: RegistrationForm, passwordHash: string)
    | RegisterAdminAccount(form: RegistrationForm, passwordHash: string)
    | AddAdminAccount(user: Option<SessionUser>, form: RegistrationForm, passwordHash: string)

  function Handle(t: Tables, a: Action): Step {
    match a
    case CreateBooking(u, req, now) => Create(t, u, req, now)
    case CancelBooking(u, id) => Cancel(t, u, id)
    case ConfirmBookingReturn(u, id) => ConfirmReturn(t, u, id)
    case AcceptBooking(u, id) => Accept(t, u, id)
    case ConfirmBooking(u, id) => Confirm(t, u, id)
    case MarkBookingReturned(u, id) => MarkReturned(t, u, id)
    case EditCar(u, id, product, upload) => EditProduct(t, u, id, product, upload)
    case DeleteCar(u, id) => DeleteProduct(t, u, id)
    case RegisterCustomer(form, h) => Register(t, form, h)
    case RegisterAdminAccount(form, h) => RegisterAdmin(t, form, h)
    case AddAdminAccount(u, form, h) => AddAdmin(t, u, form, h)
  }

  /** The store after the requests of `trace`, handled one after another. */
  function Run(t: Tables, trace: seq<Action>): Tables
    decreases |trace|
  {
    if trace == [] then t else Run(Handle(t, trace[0]).tables, trace[1..])
  }

  /** The routes behind the admin guard. */
  predicate AdminOnly(a: Action) {
    a.ConfirmBookingReturn? || a.AcceptBooking? || a.ConfirmBooking? || a.MarkBookingReturned?
    || a.EditCar? || a.DeleteCar? || a.AddAdminAccount?
  }

  /** The admin guard admits a request exactly when its session user's role is
      admin: every admin route answers Forbidden to anyone else, and only to
      them, and then changes nothing. The signed-in customer routes answer
      Unauthorized exactly to a request without a session user. */
  lemma GuardsRefuseWithoutChange(t: Tables, a: Action)
    ensures AdminOnly(a) ==> (Handle(t, a).response == Forbidden <==> !IsAdmin(a.user))
    ensures AdminOnly(a) && !IsAdmin(a.user) ==> Handle(t, a).tables == t
    ensures (a.CreateBooking? || a.CancelBooking?) ==> (Handle(t, a).response == Unauthorized <==> !IsAuthenticated(a.user))
    ensures (a.CreateBooking? || a.CancelBooking?) && !IsAuthenticated(a.user) ==> Handle(t, a).tables == t
  {
  }

  /** No live booking holds `Rented`. */
  ghost predicate NoRented(t: Tables) {
    forall id :: id in t.bookings ==> t.bookings[id].status != Rented
  }

  /** Every archived booking is marked cancelled. */
  ghost predicate HistoryOnlyCancelled(t: Tables) {
    forall i :: 0 <= i < |t.bookingHistory| ==> t.bookingHistory[i].status == Cancelled
  }

  /** What every handler preserves: fresh auto-increment ids, unique emails, and
      only cancelled rows in the history. */
  ghost predicate Invariant(t: Tables) {
    ValidIds(t) && UniqueEmails(t.users) && HistoryOnlyCancelled(t)
  }

  lemma HandlePreservesInvariant(t: Tables, a: Action)
    requires Invariant(t)
    ensures Invariant(Handle(t, a).tables)
  {
  }

  /** Along any sequence of requests the invariant holds throughout. */
  lemma {:induction false} RunPreservesInvariant(t: Tables, trace: seq<Action>)
    requires Invariant(t)
    ensures Invariant(Run(t, trace))
    decreases |trace|
  {
    if trace != [] {
      HandlePreservesInvariant(t, trace[0]);
      RunPreservesInvariant(Handle(t, trace[0]).tables, trace[1..]);
    }
  }

  lemma HandleNeverAssignsRented(t: Tables, a: Action)
    requires NoRented(t)
    ensures NoRented(Handle(t, a).tables)
  {
  }

  /** No handler assigns `Rented`: from a store without rented bookings no
      sequence of requests reaches one, so `Rented` in the overlap query never
      matches a row the handlers wrote. */
  lemma {:induction false} RentedNeverAssigned(t: Tables, trace: seq<Action>)
    requires NoRented(t)
    ensures NoRented(Run(t, trace))
    decreases |trace|
  {
    if trace != [] {
      HandleNeverAssignsRented(t, trace[0]);
      RentedNeverAssigned(Handle(t, trace[0]).tables, trace[1..]);
    }
  }

  /** The booking ids of the return-log rows, in table order. */
  function LogIds(logs: seq<ReturnLog>): seq<nat> {
    seq(|logs|, i requires 0 <= i < |logs| => logs[i].bookingId)
  }

  lemma HandleKeepsLogIds(t: Tables, a: Action)
    ensures LogIds(Handle(t, a).tables.returnLogs) == LogIds(t.returnLogs)
  {
  }

  /** No handler inserts or deletes a return-log row, so from an empty
      return_logs table confirm-return never confirms anything. */
  lemma {:induction false} ReturnLogsNeverInserted(t: Tables, trace: seq<Action>)
    ensures LogIds(Run(t, trace).returnLogs) == LogIds(t.returnLogs)
    ensures t.returnLogs == [] ==> Run(t, trace).returnLogs == []
    decreases |trace|
  {
    if trace != [] {
      HandleKeepsLogIds(t, trace[0]);
      ReturnLogsNeverInserted(Handle(t, trace[0]).tables, trace[1..]);
    }
  }

  /** Two different live bookings of one car, both in a status the overlap
      query blocks on, whose spans overlap. */
  ghost predicate DoubleBooked(bookings: map<nat, Booking>, a: nat, b: nat) {
    && a in bookings && b in bookings && a != b
    && bookings[a].carId == bookings[b].carId
    && Blocks(bookings[a].status) && Blocks(bookings[b].status)
    && Overlaps(bookings[a].startDate, bookings[a].endDate, bookings[b].startDate, bookings[b].endDate)
  }

  /** An accepted booking does not block its dates: once an admin accepts a
      new booking, the very same request from anyone signed in succeeds again. */
  lemma AcceptedSlotCanBeRebooked(t: Tables, customer: Option<SessionUser>, other: Option<SessionUser>,
                                  admin: Option<SessionUser>, req: CreateRequest, now1: int, now2: int)
    requires ValidIds(t) && IsAdmin(admin) && IsAuthenticated(other)
    requires Create(t, customer, req, now1).response.BookingCreated?
    ensures var accepted := Accept(Create(t, customer, req, now1).tables, admin, t.nextBookingId).tables;
      Create(accepted, other, req, now2).response.BookingCreated?
  {
  }

  /** Accept, a second request for the same dates, then confirm of the first:
      the car ends with two overlapping bookings that both block, one booked
      and one pending. The handlers do not prevent double booking. */
  lemma DoubleBookingReachable(t: Tables, customer: Option<SessionUser>, other: Option<SessionUser>,
                               admin: Option<SessionUser>, req: CreateRequest, now1: int, now2: int)
    requires ValidIds(t) && IsAdmin(admin) && IsAuthenticated(other)
    requires Create(t, customer, req, now1).response.BookingCreated?
    ensures var n := t.nextBookingId;
      var t1 := Create(t, customer, req, now1).tables;
      var t2 := Accept(t1, admin, n).tables;
      var t3 := Create(t2, other, req, now2).tables;
      var t4 := Confirm(t3, admin, n).tables;
      DoubleBooked(t4.bookings, n, n + 1)
  {
  }
}
