/** The relational store the route handlers read and write, held as in-memory
    tables, together with the request session and the responses a handler can
    give. Dates are day numbers and money is in the smallest currency unit. */
module Schema {

  datatype Option<+T> = None | Some(value: T)

  /** The `status` column of `bookings`; `booking_history` reuses it and only
      ever receives `Cancelled`. */
  datatype BookingStatus = Pending | Accepted | Booked | Rented | Returned | Cancelled

  /** The car statuses the handlers write. The product form may store any text
      in the same column, so a car's status is a string. */
  const CarAvailable: string := "available"
  const CarBooked: string := "booked"
  const CarNotAvailable: string := "not-available"

  const AdminRole: string := "admin"

  datatype Car = Car(
    name: string,
    carType: string,
    color: string,
    status: string,
    description: string,
    price: int,
    baseRentalDuration: int)

  datatype CarImage = CarImage(carId: nat, imageUrl: string)

  /** `role` is None for a row inserted without a role, which then holds the
      column's default. */
  datatype User = User(id: nat, name: string, email: string, passwordHash: string, role: Option<string>)

  datatype Booking = Booking(
    userId: nat,
    carId: nat,
    purpose: string,
    startDate: int,
    endDate: int,
    status: BookingStatus,
    totalPrice: int,
    createdAt: int)

  datatype HistoryRow = HistoryRow(
    userId: nat,
    carId: nat,
    purpose: string,
    startDate: int,
    endDate: int,
    status: BookingStatus,
    createdAt: int)

  datatype ReturnLog = ReturnLog(bookingId: nat, confirmedByAdmin: bool)

  /** One value of the whole store: `cars` and `bookings` keyed by their id,
      the other tables as rows in table order, and the next auto-increment ids. */
  datatype Tables = Tables(
    cars: map<nat, Car>,
    carImages: seq<CarImage>,
    users: seq<User>,
    bookings: map<nat, Booking>,
    bookingHistory: seq<HistoryRow>,
    returnLogs: seq<ReturnLog>,
    nextBookingId: nat,
    nextUserId: nat)

  /** What a successful login stores as the session user. */
  datatype SessionUser = SessionUser(id: nat, name: string, email: string, role: Option<string>)

  datatype Redirect = AdminProfile | Home

  /** What a handler answers: success, or the error it reports. */
  datatype Response =
    | Done
    | BookingCreated(totalPrice: int)
    | SignedIn(user: SessionUser, redirect: Redirect)
    | Unauthorized
    | Forbidden
    | MissingFields
    | StartAfterEnd
    | SlotTaken
    | CarNotFound
    | NotEligible
    | NameTooShort
    | WeakPassword
    | EmailTaken
    | InvalidCredentials

  /** The store after a handler ran, and its answer. */
  datatype Step = Step(tables: Tables, response: Response)

  /** The name, email and password fields of a registration form. */
  datatype RegistrationForm = RegistrationForm(name: Option<string>, email: Option<string>, password: Option<string>)

  /** A form field passes JavaScript's truthiness test: it was sent and is not empty. */
  predicate Given(field: Option<string>) {
    field.Some? && field.value != ""
  }

  predicate FormComplete(form: RegistrationForm) {
    Given(form.name) && Given(form.email) && Given(form.password)
  }

  /** The `isAuthenticated` middleware: a session user is present. */
  predicate IsAuthenticated(user: Option<SessionUser>) {
    user.Some?
  }

  /** The `isAdmin` middleware: a session user is present and its role is admin. */
  predicate IsAdmin(user: Option<SessionUser>) {
    user.Some? && user.value.role == Some(AdminRole)
  }

  /** `UPDATE cars SET status = ? WHERE id = ?`: no row changes for an unknown id. */
  function SetCarStatus(cars: map<nat, Car>, id: nat, status: string): map<nat, Car> {
    if id in cars then cars[id := cars[id].(status := status)] else cars
  }

  /** `UPDATE bookings SET status = ? WHERE id = ?`. */
  function SetBookingStatus(bookings: map<nat, Booking>, id: nat, status: BookingStatus): map<nat, Booking> {
    if id in bookings then bookings[id := bookings[id].(status := status)] else bookings
  }

  /** `SELECT id FROM users WHERE email = ?` returns a row. */
  predicate EmailRegistered(users: seq<User>, email: string) {
    exists i :: 0 <= i < |users| && users[i].email == email
  }

  ghost predicate UniqueEmails(users: seq<User>) {
    forall i, j :: 0 <= i < j < |users| ==> users[i].email != users[j].email
  }

  /** `INSERT INTO users ...` with the next auto-increment id. */
  function InsertUser(t: Tables, name: string, email: string, passwordHash: string, role: Option<string>): Tables {
    t.(users := t.users + [User(t.nextUserId, name, email, passwordHash, role)], nextUserId := t.nextUserId + 1)
  }

  /** Every stored id is below the next auto-increment id. */
  ghost predicate ValidIds(t: Tables) {
    && (forall id :: id in t.bookings ==> id < t.nextBookingId)
    && (forall i :: 0 <= i < |t.users| ==> t.users[i].id < t.nextUserId)
  }

  /** Inserting a user whose email is not yet registered keeps emails unique,
      adds exactly one row, and leaves exactly one row with that email. */
  lemma InsertUserKeepsEmailsUnique(t: Tables, name: string, email: string, passwordHash: string, role: Option<string>)
    requires UniqueEmails(t.users) && !EmailRegistered(t.users, email)
    ensures var u := InsertUser(t, name, email, passwordHash, role).users;
      && UniqueEmails(u)
      && |u| == |t.users| + 1
      && u[|u| - 1].email == email
      && forall i :: 0 <= i < |u| - 1 ==> u[i].email != email
  {
  }

  /** The session a request carries; login assigns its user. */
  class Session {
    var user: Option<SessionUser>

    constructor ()
      ensures user == None
    {
      user := None;
    }
  }

  /** The database the handlers share; each table is a field the handlers reassign. */
  class Database {
    var cars: map<nat, Car>
    var carImages: seq<CarImage>
    var users: seq<User>
    var bookings: map<nat, Booking>
    var bookingHistory: seq<HistoryRow>
    var returnLogs: seq<ReturnLog>
    var nextBookingId: nat
    var nextUserId: nat

    function Snapshot(): Tables
      reads this
    {
      Tables(cars, carImages, users, bookings, bookingHistory, returnLogs, nextBookingId, nextUserId)
    }

    /** An empty store; auto-increment ids start at 1. */
    constructor ()
      ensures Snapshot() == Tables(map[], [], [], map[], [], [], 1, 1)
      ensures ValidIds(Snapshot()) && UniqueEmails(users)
    {
      cars, carImages, users := map[], [], [];
      bookings, bookingHistory, returnLogs := map[], [], [];
      nextBookingId, nextUserId := 1, 1;
    }
  }
}
