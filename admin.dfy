/** The admin routes: the three booking transitions, the product list, product
    edit and delete (how image rows are replaced), and the two ways of
    registering an admin account. */
module AdminRoutes {
  import opened Schema

  /** One admin booking transition: set the booking's status, then look the
      booking up again and, if it exists, set its car's status. The booking's
      current status is never consulted. */
  function Transition(t: Tables, user: Option<SessionUser>, bookingId: nat,
                      status: BookingStatus, carStatus: string): Step {
    if !IsAdmin(user) then Step(t, Forbidden)
    else
      var bookings := SetBookingStatus(t.bookings, bookingId, status);
      var cars := if bookingId in bookings then SetCarStatus(t.cars, bookings[bookingId].carId, carStatus) else t.cars;
      Step(t.(bookings := bookings, cars := cars), Done)
  }

  /** `POST /admin/bookings/accept/:id`. */
  function Accept(t: Tables, user: Option<SessionUser>, bookingId: nat): Step {
    Transition(t, user, bookingId, Accepted, CarBooked)
  }

  /** `POST /admin/bookings/confirm/:id`. */
  function Confirm(t: Tables, user: Option<SessionUser>, bookingId: nat): Step {
    Transition(t, user, bookingId, Booked, CarNotAvailable)
  }

  /** `POST /admin/bookings/mark-returned/:id`. */
  function MarkReturned(t: Tables, user: Option<SessionUser>, bookingId: nat): Step {
    Transition(t, user, bookingId, Returned, CarAvailable)
  }

  /** For an admin, a transition always answers success. On an unknown booking
      id it changes nothing; on a known one it changes that booking's status and
      its car's status, whatever the booking's prior status, and nothing else. */
  lemma TransitionEffect(t: Tables, user: Option<SessionUser>, bookingId: nat,
                         status: BookingStatus, carStatus: string)
    requires IsAdmin(user)
    ensures Transition(t, user, bookingId, status, carStatus).response == Done
    ensures bookingId !in t.bookings ==> Transition(t, user, bookingId, status, carStatus).tables == t
    ensures var s := Transition(t, user, bookingId, status, carStatus).tables;
      bookingId in t.bookings ==>
        var b := t.bookings[bookingId];
        && s.bookings == t.bookings[bookingId := b.(status := status)]
        && s.bookings[bookingId].status == status
        && (b.carId in t.cars ==> s.cars == t.cars[b.carId := t.cars[b.carId].(status := carStatus)])
        && (b.carId !in t.cars ==> s.cars == t.cars)
        && s == t.(bookings := s.bookings, cars := s.cars)
  {
  }

  /** Accept makes the booking accepted and its car booked, from any status. */
  lemma AcceptFromAnyStatus(t: Tables, user: Option<SessionUser>, bookingId: nat)
    requires IsAdmin(user) && bookingId in t.bookings
    ensures var s, c := Accept(t, user, bookingId), t.bookings[bookingId].carId;
      && s.response == Done
      && s.tables.bookings[bookingId].status == Accepted
      && (c in t.cars ==> s.tables.cars[c].status == CarBooked)
  {
  }

  /** Confirm makes the booking booked and its car not-available, from any status. */
  lemma ConfirmFromAnyStatus(t: Tables, user: Option<SessionUser>, bookingId: nat)
    requires IsAdmin(user) && bookingId in t.bookings
    ensures var s, c := Confirm(t, user, bookingId), t.bookings[bookingId].carId;
      && s.response == Done
      && s.tables.bookings[bookingId].status == Booked
      && (c in t.cars ==> s.tables.cars[c].status == CarNotAvailable)
  {
  }

  /** Mark-returned makes the booking returned and its car available, from any
      status, a pending booking included. */
  lemma MarkReturnedFromAnyStatus(t: Tables, user: Option<SessionUser>, bookingId: nat)
    requires IsAdmin(user) && bookingId in t.bookings
    ensures var s, c := MarkReturned(t, user, bookingId), t.bookings[bookingId].carId;
      && s.response == Done
      && s.tables.bookings[bookingId].status == Returned
      && (c in t.cars ==> s.tables.cars[c].status == CarAvailable)
  {
  }

  /** Repeating a transition is never refused and changes nothing more: a
      second accept of the same booking answers success and leaves the store
      as the first left it. */
  lemma TransitionIdempotent(t: Tables, user: Option<SessionUser>, bookingId: nat,
                             status: BookingStatus, carStatus: string)
    ensures var once := Transition(t, user, bookingId, status, carStatus);
      Transition(once.tables, user, bookingId, status, carStatus) == once
  {
  }

  /** The three transition handlers share this sequence of updates. */
  method ApplyTransition(db: Database, session: Session, bookingId: nat,
                         status: BookingStatus, carStatus: string) returns (r: Response)
    modifies db
    ensures Step(db.Snapshot(), r) == Transition(old(db.Snapshot()), session.user, bookingId, status, carStatus)
  {
    if !IsAdmin(session.user) {
      return Forbidden;
    }
    db.bookings := SetBookingStatus(db.bookings, bookingId, status);
    if bookingId in db.bookings {
      var carId := db.bookings[bookingId].carId;
      db.cars := SetCarStatus(db.cars, carId, carStatus);
    }
    r := Done;
  }

  method HandleAccept(db: Database, session: Session, bookingId: nat) returns (r: Response)
    modifies db
    ensures Step(db.Snapshot(), r) == Accept(old(db.Snapshot()), session.user, bookingId)
  {
    r := ApplyTransition(db, session, bookingId, Accepted, CarBooked);
  }

  method HandleConfirm(db: Database, session: Session, bookingId: nat) returns (r: Response)
    modifies db
    ensures Step(db.Snapshot(), r) == Confirm(old(db.Snapshot()), session.user, bookingId)
  {
    r := ApplyTransition(db, session, bookingId, Booked, CarNotAvailable);
  }

  method HandleMarkReturned(db: Database, session: Session, bookingId: nat) returns (r: Response)
    modifies db
    ensures Step(db.Snapshot(), r) == MarkReturned(old(db.Snapshot()), session.user, bookingId)
  {
    r := ApplyTransition(db, session, bookingId, Returned, CarAvailable);
  }

  /** `SELECT image_url FROM car_images WHERE car_id = ?`, in table order. */
  function ImagesOf(rows: seq<CarImage>, carId: nat): seq<string> {
    if rows == [] then []
    else (if rows[0].carId == carId then [rows[0].imageUrl] else []) + ImagesOf(rows[1..], carId)
  }

  /** `DELETE FROM car_images WHERE car_id = ?`: keeps exactly the rows of other
      cars. `ImagesOfWithoutCar` shows each remaining car keeps its images in
      order. */
  function WithoutCar(rows: seq<CarImage>, carId: nat): (r: seq<CarImage>)
    ensures forall x :: x in r <==> x in rows && x.carId != carId
    ensures |r| <= |rows|
  {
    if rows == [] then []
    else if rows[0].carId == carId then WithoutCar(rows[1..], carId)
    else [rows[0]] + WithoutCar(rows[1..], carId)
  }

  lemma {:induction false} ImagesOfAppend(a: seq<CarImage>, b: seq<CarImage>, carId: nat)
    ensures ImagesOf(a + b, carId) == ImagesOf(a, carId) + ImagesOf(b, carId)
  {
    if a == [] {
      assert a + b == b;
    } else {
      assert (a + b)[0] == a[0];
      assert (a + b)[1..] == a[1..] + b;
      ImagesOfAppend(a[1..], b, carId);
    }
  }

  /** After deleting a car's image rows it has no images, and every other car
      keeps exactly the images it had. */
  lemma {:induction false} ImagesOfWithoutCar(rows: seq<CarImage>, deleted: nat, carId: nat)
    ensures ImagesOf(WithoutCar(rows, deleted), carId) == if carId == deleted then [] else ImagesOf(rows, carId)
  {
    if rows != [] {
      ImagesOfWithoutCar(rows[1..], deleted, carId);
      if rows[0].carId != deleted {
        var rest := WithoutCar(rows[1..], deleted);
        assert ([rows[0]] + rest)[0] == rows[0];
        assert ([rows[0]] + rest)[1..] == rest;
      }
    }
  }

  /** `GET /admin/products`: for every car, the URLs of its image rows. */
  method ListProducts(db: Database, session: Session) returns (r: Response, images: map<nat, seq<string>>)
    ensures r == if IsAdmin(session.user) then Done else Forbidden
    ensures IsAdmin(session.user) ==> images.Keys == db.cars.Keys
    ensures !IsAdmin(session.user) ==> images == map[]
    ensures forall id :: id in images ==> images[id] == ImagesOf(db.carImages, id)
  {
    images := map[];
    if !IsAdmin(session.user) {
      return Forbidden, images;
    }
    var remaining := db.cars.Keys;
    while remaining != {}
      invariant remaining <= db.cars.Keys
      invariant images.Keys == db.cars.Keys - remaining
      invariant forall id :: id in images ==> images[id] == ImagesOf(db.carImages, id)
      decreases remaining
    {
      var id :| id in remaining;
      images := images[id := ImagesOf(db.carImages, id)];
      remaining := remaining - {id};
    }
    r := Done;
  }

  /** The text fields of the product form. */
  datatype ProductForm = ProductForm(name: string, carType: string, color: string, status: string, description: string)

  /** The directory part of every uploaded product image's URL. */
  const UploadPrefix: string := "/uploads/products/"

  /** `UPDATE cars SET name, type, color, status, description WHERE id = ?`;
      price and base rental duration are kept. */
  function EditedCars(cars: map<nat, Car>, carId: nat, form: ProductForm): map<nat, Car> {
    if carId in cars then
      cars[carId := cars[carId].(name := form.name, carType := form.carType, color := form.color,
                                 status := form.status, description := form.description)]
    else cars
  }

  /** `POST /admin/products/edit/:id`; `upload` is the stored file name, when a
      file came with the form. */
  function EditProduct(t: Tables, user: Option<SessionUser>, carId: nat, form: ProductForm,
                       upload: Option<string>): Step {
    if !IsAdmin(user) then Step(t, Forbidden)
    else
      var images := if upload.Some? then WithoutCar(t.carImages, carId) + [CarImage(carId, UploadPrefix + upload.value)]
                    else t.carImages;
      Step(t.(cars := EditedCars(t.cars, carId, form), carImages := images), Done)
  }

  /** With an upload the edited car ends with exactly the one new image; without
      one its images are untouched. Other cars' images never change. */
  lemma EditProductImages(t: Tables, user: Option<SessionUser>, carId: nat, form: ProductForm,
                          upload: Option<string>, other: nat)
    requires IsAdmin(user) && other != carId
    ensures var s := EditProduct(t, user, carId, form, upload).tables;
      && (upload.Some? ==> ImagesOf(s.carImages, carId) == [UploadPrefix + upload.value])
      && (upload.None? ==> s.carImages == t.carImages)
      && ImagesOf(s.carImages, other) == ImagesOf(t.carImages, other)
  {
    if upload.Some? {
      var row := CarImage(carId, UploadPrefix + upload.value);
      var kept := WithoutCar(t.carImages, carId);
      ImagesOfAppend(kept, [row], carId);
      ImagesOfAppend(kept, [row], other);
      ImagesOfWithoutCar(t.carImages, carId, carId);
      ImagesOfWithoutCar(t.carImages, carId, other);
      assert ImagesOf([row], carId) == [row.imageUrl] + ImagesOf([], carId);
      assert ImagesOf([row], other) == [] + ImagesOf([], other);
    }
  }

  /** The edit writes the form's fields into an existing car and keeps its price
      and base rental duration; it never adds or removes a car, and only the
      cars and car images tables change. */
  lemma EditProductFields(t: Tables, user: Option<SessionUser>, carId: nat, form: ProductForm, upload: Option<string>)
    requires IsAdmin(user)
    ensures var s := EditProduct(t, user, carId, form, upload).tables;
      && s.cars.Keys == t.cars.Keys
      && (carId in t.cars ==>
            && s.cars[carId].name == form.name && s.cars[carId].status == form.status
            && s.cars[carId].carType == form.carType && s.cars[carId].color == form.color
            && s.cars[carId].description == form.description
            && s.cars[carId].price == t.cars[carId].price
            && s.cars[carId].baseRentalDuration == t.cars[carId].baseRentalDuration)
      && (forall c :: c in t.cars && c != carId ==> s.cars[c] == t.cars[c])
      && s == t.(cars := s.cars, carImages := s.carImages)
  {
  }

  method HandleEditProduct(db: Database, session: Session, carId: nat, form: ProductForm,
                           upload: Option<string>) returns (r: Response)
    modifies db
    ensures Step(db.Snapshot(), r) == EditProduct(old(db.Snapshot()), session.user, carId, form, upload)
  {
    if !IsAdmin(session.user) {
      return Forbidden;
    }
    db.cars := EditedCars(db.cars, carId, form);
    if upload.Some? {
      db.carImages := WithoutCar(db.carImages, carId);
      db.carImages := db.carImages + [CarImage(carId, UploadPrefix + upload.value)];
    }
    r := Done;
  }

  /** `POST /admin/products/delete/:id`: the image rows first, then the car. */
  function DeleteProduct(t: Tables, user: Option<SessionUser>, carId: nat): Step {
    if !IsAdmin(user) then Step(t, Forbidden)
    else Step(t.(carImages := WithoutCar(t.carImages, carId), cars := t.cars - {carId}), Done)
  }

  /** Delete removes the car and all its image rows, and keeps every other car
      and its images; no other table changes, so bookings may still name the
      deleted car. */
  lemma DeleteProductEffect(t: Tables, user: Option<SessionUser>, carId: nat, other: nat)
    requires IsAdmin(user) && other != carId
    ensures var s := DeleteProduct(t, user, carId).tables;
      && s.cars.Keys == t.cars.Keys - {carId}
      && ImagesOf(s.carImages, carId) == []
      && (forall x :: x in s.carImages ==> x.carId != carId)
      && (other in t.cars ==> other in s.cars && s.cars[other] == t.cars[other])
      && ImagesOf(s.carImages, other) == ImagesOf(t.carImages, other)
      && s == t.(cars := s.cars, carImages := s.carImages)
  {
    ImagesOfWithoutCar(t.carImages, carId, carId);
    ImagesOfWithoutCar(t.carImages, carId, other);
  }

  method HandleDeleteProduct(db: Database, session: Session, carId: nat) returns (r: Response)
    modifies db
    ensures Step(db.Snapshot(), r) == DeleteProduct(old(db.Snapshot()), session.user, carId)
  {
    if !IsAdmin(session.user) {
      return Forbidden;
    }
    db.carImages := WithoutCar(db.carImages, carId);
    db.cars := db.cars - {carId};
    r := Done;
  }

  /** `POST /admin/register`, open to anyone: the fields, then the email, then
      an insert with role admin. `passwordHash` is the hash of the submitted
      password. */
  function RegisterAdmin(t: Tables, form: RegistrationForm, passwordHash: string): Step {
    if !FormComplete(form) then Step(t, MissingFields)
    else if EmailRegistered(t.users, form.email.value) then Step(t, EmailTaken)
    else Step(InsertUser(t, form.name.value, form.email.value, passwordHash, Some(AdminRole)), Done)
  }

  /** `POST /admin/users/new`: the same, behind the admin guard. */
  function AddAdmin(t: Tables, user: Option<SessionUser>, form: RegistrationForm, passwordHash: string): Step {
    if !IsAdmin(user) then Step(t, Forbidden) else RegisterAdmin(t, form, passwordHash)
  }

  /** Admin registration refuses missing fields and registered emails without
      inserting; otherwise it appends exactly one user, with that name and email
      and role admin, and emails stay unique; no other table changes. It checks
      neither name length nor password strength. */
  lemma RegisterAdminEffect(t: Tables, form: RegistrationForm, passwordHash: string)
    requires UniqueEmails(t.users)
    ensures var s := RegisterAdmin(t, form, passwordHash);
      && (!FormComplete(form) ==> s == Step(t, MissingFields))
      && (FormComplete(form) && EmailRegistered(t.users, form.email.value) ==> s == Step(t, EmailTaken))
      && UniqueEmails(s.tables.users)
      && (s.response == Done <==> FormComplete(form) && !EmailRegistered(t.users, form.email.value))
      && (s.response == Done ==>
            && |s.tables.users| == |t.users| + 1
            && s.tables.users[..|t.users|] == t.users
            && s.tables == t.(users := s.tables.users, nextUserId := t.nextUserId + 1)
            && var u := s.tables.users[|t.users|];
               u.name == form.name.value && u.email == form.email.value && u.role == Some(AdminRole)
               && u.passwordHash == passwordHash)
  {
  }

  method HandleRegisterAdmin(db: Database, form: RegistrationForm, passwordHash: string) returns (r: Response)
    modifies db
    ensures Step(db.Snapshot(), r) == RegisterAdmin(old(db.Snapshot()), form, passwordHash)
  {
    if !FormComplete(form) {
      return MissingFields;
    }
    if EmailRegistered(db.users, form.email.value) {
      return EmailTaken;
    }
    db.users := db.users + [User(db.nextUserId, form.name.value, form.email.value, passwordHash, Some(AdminRole))];
    db.nextUserId := db.nextUserId + 1;
    r := Done;
  }

  method HandleAddAdmin(db: Database, session: Session, form: RegistrationForm, passwordHash: string)
    returns (r: Response)
    modifies db
    ensures Step(db.Snapshot(), r) == AddAdmin(old(db.Snapshot()), session.user, form, passwordHash)
  {
    if !IsAdmin(session.user) {
      return Forbidden;
    }
    r := HandleRegisterAdmin(db, form, passwordHash);
  }
}
