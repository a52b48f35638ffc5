/** The salon's booking store (MySQL tables `users`, `available_slots`, `appointments`
    and `reviews`) and the Express handlers of `server/server.js` that read and change it,
    as functions from the tables before a request to the reply and the tables after it.

    Each handler's SQL statements are modelled one by one, with the storage constraints
    of the schema: `available_slots` is unique on (date, time) and written with
    `INSERT IGNORE`; `appointments` is unique on (date, time) whatever the status and
    references `users` (cascade on delete); `users.email` is unique. A statement that
    violates a constraint throws, and the handler's `catch` answers 500; since every
    handler here issues at most one write before it can fail, nothing changes then,
    except in manual booking, which writes a user row before the appointment. */
module Booking {
  import opened Options
  import Seqs
  import Sorting
  import Strings

  /** Calendar dates and times of day, as totally ordered abstract values. */
  type Date = int
  type Time = int

  datatype Role = UserRole | AdminRole
  datatype Status = Pending | Confirmed | Cancelled

  /** The `password_hash` of a user created by an administrator's manual booking. */
  const ManualAccount: string := "manual_account"

  datatype User = User(id: nat, firstName: string, lastName: string, phone: string,
                       email: string, passwordHash: string, isActive: bool, role: Role)
  datatype Slot = Slot(date: Date, time: Time)
  datatype Appointment = Appointment(id: nat, userId: nat, date: Date, time: Time,
                                     notes: string, status: Status)
  datatype Review = Review(id: nat, userId: nat, rating: int, comment: string)

  /** The four tables, in insertion order, and the next `AUTO_INCREMENT` values. */
  datatype Tables = Tables(users: seq<User>, slots: seq<Slot>, appointments: seq<Appointment>,
                           reviews: seq<Review>, nextUserId: nat, nextAppointmentId: nat)

  /** The claims of a verified bearer token (`req.user`). */
  datatype Claim = Claim(id: nat, role: Role)

  /** A field of a JSON request body: absent, `null`, or a value. */
  datatype Field<T> = Undefined | Null | Given(value: T)

  /** A handler's HTTP status and the tables after the request. */
  datatype Reply = Reply(status: nat, tables: Tables)

  const OK: nat := 200
  const BadRequest: nat := 400
  const Unauthorized: nat := 401
  const Forbidden: nat := 403
  const Conflict: nat := 409
  const ServerError: nat := 500

  /** JavaScript truthiness of a string field: present, not `null`, not empty. */
  predicate Truthy(f: Field<string>)
  {
    f.Given? && f.value != ""
  }

  /** `notes || ''` */
  function NotesOrEmpty(notes: Field<string>): (r: string)
    ensures Truthy(notes) ==> r == notes.value
    ensures !Truthy(notes) ==> r == ""
  {
    if Truthy(notes) then notes.value else ""
  }

  /* ---------------------------------------------------------------------------
     Queries
     --------------------------------------------------------------------------- */

  /** `SELECT id FROM available_slots WHERE date = ? AND time = ?` returns a row. */
  predicate HasSlot(t: Tables, d: Date, tm: Time)
  {
    Slot(d, tm) in t.slots
  }

  /** `SELECT id FROM appointments WHERE date = ? AND time = ? AND status != "cancelled"`
      returns a row. */
  predicate Booked(t: Tables, d: Date, tm: Time)
  {
    exists a :: a in t.appointments && a.date == d && a.time == tm && a.status != Cancelled
  }

  /** Some appointment of any status holds (d, tm): the `unique_appointment` key is taken. */
  predicate Holds(t: Tables, d: Date, tm: Time)
  {
    exists a :: a in t.appointments && a.date == d && a.time == tm
  }

  predicate UserExists(t: Tables, id: int)
  {
    exists u :: u in t.users && u.id == id
  }

  predicate EmailTaken(t: Tables, email: string)
  {
    exists u :: u in t.users && u.email == email
  }

  /** The first row of `SELECT id FROM users WHERE email = ?`. */
  function FindByEmail(users: seq<User>, email: string): (r: Option<User>)
    ensures r.Some? ==> r.value in users && r.value.email == email
    ensures r.None? ==> forall u :: u in users ==> u.email != email
  {
    if users == [] then None
    else if users[0].email == email then Some(users[0])
    else FindByEmail(users[1..], email)
  }

  /* ---------------------------------------------------------------------------
     Statements, with the schema's constraints
     --------------------------------------------------------------------------- */

  /** `INSERT INTO users ...`: fails on the unique email, otherwise appends a row with the
      next id. */
  function InsertUser(t: Tables, firstName: string, lastName: string, phone: string,
                      email: string, passwordHash: string, isActive: bool, role: Role): (r: Option<Tables>)
    ensures r.None? <==> EmailTaken(t, email)
  {
    if EmailTaken(t, email) then None
    else
      var u := User(t.nextUserId, firstName, lastName, phone, email, passwordHash, isActive, role);
      Some(t.(users := t.users + [u], nextUserId := t.nextUserId + 1))
  }

  /** `INSERT INTO appointments ...`: fails on the `unique_appointment` key (any status)
      and on the foreign key to `users`, otherwise appends a row with the next id. */
  function InsertAppointment(t: Tables, userId: nat, d: Date, tm: Time, notes: string,
                             status: Status): (r: Option<Tables>)
    ensures r.None? <==> Holds(t, d, tm) || !UserExists(t, userId)
  {
    if Holds(t, d, tm) || !UserExists(t, userId) then None
    else
      var a := Appointment(t.nextAppointmentId, userId, d, tm, notes, status);
      Some(t.(appointments := t.appointments + [a], nextAppointmentId := t.nextAppointmentId + 1))
  }

  /** `UPDATE appointments SET status = ? WHERE id = ?`: every row keeps its place and
      every column but `status`; the rows with the id get the new status, and every other
      row is kept as it was. */
  function SetStatus(apps: seq<Appointment>, id: int, status: Status): (r: seq<Appointment>)
    ensures |r| == |apps|
    ensures forall i :: 0 <= i < |r| ==>
              && r[i].id == apps[i].id && r[i].userId == apps[i].userId
              && r[i].date == apps[i].date && r[i].time == apps[i].time && r[i].notes == apps[i].notes
    ensures forall i :: 0 <= i < |r| && apps[i].id == id ==> r[i].status == status
    ensures forall a :: a in apps && a.id != id ==> a in r
    ensures forall a :: a in r && a.id != id ==> a in apps
  {
    seq(|apps|, i requires 0 <= i < |apps| =>
      if apps[i].id == id then apps[i].(status := status) else apps[i])
  }

  /** `UPDATE users SET is_active = ? WHERE id = ?`: every row keeps its place and every
      column but `is_active`; the rows with the id get the new flag, and every other row is
      kept as it was. */
  function SetActive(users: seq<User>, id: int, active: bool): (r: seq<User>)
    ensures |r| == |users|
    ensures forall i :: 0 <= i < |r| ==>
              && r[i].id == users[i].id && r[i].firstName == users[i].firstName
              && r[i].lastName == users[i].lastName && r[i].phone == users[i].phone
              && r[i].email == users[i].email && r[i].passwordHash == users[i].passwordHash
              && r[i].role == users[i].role
    ensures forall i :: 0 <= i < |r| && users[i].id == id ==> r[i].isActive == active
    ensures forall u :: u in users && u.id != id ==> u in r
    ensures forall u :: u in r && u.id != id ==> u in users
  {
    seq(|users|, i requires 0 <= i < |users| =>
      if users[i].id == id then users[i].(isActive := active) else users[i])
  }

  /* ---------------------------------------------------------------------------
     Handlers that change the tables
     --------------------------------------------------------------------------- */

  /** `POST /api/register`: every field required, the email must be new, and the account
      is created inactive with role `user`. `passwordHash` is what bcrypt returned. */
  function Register(t: Tables, firstName: Field<string>, lastName: Field<string>,
                    phone: Field<string>, email: Field<string>, password: Field<string>,
                    passwordHash: string): (r: Reply)
    ensures r.status in {OK, BadRequest, Conflict}
    ensures r.status != OK ==> r.tables == t
  {
    if !Truthy(firstName) || !Truthy(lastName) || !Truthy(phone) || !Truthy(email) || !Truthy(password) then
      Reply(BadRequest, t)
    else if EmailTaken(t, email.value) then
      Reply(Conflict, t)
    else
      match InsertUser(t, firstName.value, lastName.value, phone.value, email.value,
                       passwordHash, false, UserRole)
      case Some(t') => Reply(OK, t')
  }

  /** What a successful login signs into the token and returns: the user's id, email,
      role and names. */
  datatype Session = Session(id: nat, email: string, role: Role, firstName: string, lastName: string)

  /** How a login ends: refused with a status and message, or signed in. */
  datatype LoginReply = Refused(status: nat, message: string) | SignedIn(session: Session)

  const WrongCredentials: string := "Nieprawidłowy email lub hasło"
  const AwaitingApproval: string := "Konto oczekuje na zatwierdzenie przez administratora"

  /** `POST /api/login`: the first user with the email is checked; `matches` is bcrypt's
      comparison of the password with the stored hash. An unknown email and a wrong
      password get the same 401; a correct password on an inactive account gets 403. */
  function Login(t: Tables, email: string, password: string, matches: (string, string) -> bool): (r: LoginReply)
    ensures r.Refused? ==> r.status in {Unauthorized, Forbidden}
    ensures r.SignedIn? ==> r.session.email == email
  {
    match FindByEmail(t.users, email)
    case None => Refused(Unauthorized, WrongCredentials)
    case Some(u) =>
      if !matches(password, u.passwordHash) then Refused(Unauthorized, WrongCredentials)
      else if !u.isActive then Refused(Forbidden, AwaitingApproval)
      else SignedIn(Session(u.id, u.email, u.role, u.firstName, u.lastName))
  }

  /** `POST /api/book-appointment` for the token's user. An absent `date` or `time` is an
      `undefined` bind parameter, which the driver refuses (500); `null` matches no slot. */
  function Book(t: Tables, auth: Option<Claim>, date: Field<Date>, time: Field<Time>,
                notes: Field<string>): (r: Reply)
    ensures r.status in {OK, BadRequest, Unauthorized, Conflict, ServerError}
    ensures r.status != OK ==> r.tables == t
  {
    if auth.None? then Reply(Unauthorized, t)
    else if date.Undefined? || time.Undefined? then Reply(ServerError, t)
    else if date.Null? || time.Null? || !HasSlot(t, date.value, time.value) then Reply(BadRequest, t)
    else if Booked(t, date.value, time.value) then Reply(Conflict, t)
    else
      match InsertAppointment(t, auth.value.id, date.value, time.value, NotesOrEmpty(notes), Pending)
      case None => Reply(ServerError, t)
      case Some(t') => Reply(OK, t')
  }

  /** The role gate of every admin handler: 401 without a token, 403 for a non-admin. */
  function Gate(auth: Option<Claim>): (r: Option<nat>)
    ensures r.None? <==> auth.Some? && auth.value.role == AdminRole
    ensures r.Some? ==> r.value in {Unauthorized, Forbidden}
  {
    if auth.None? then Some(Unauthorized)
    else if auth.value.role != AdminRole then Some(Forbidden)
    else None
  }

  /** `POST /api/admin/slots`: `INSERT IGNORE` of the pair. An absent field is an
      `undefined` bind parameter (500). */
  function OpenSlot(t: Tables, auth: Option<Claim>, date: Option<Date>, time: Option<Time>): (r: Reply)
    ensures r.status in {OK, Unauthorized, Forbidden, ServerError}
    ensures r.tables.users == t.users && r.tables.appointments == t.appointments
    ensures r.tables.reviews == t.reviews
  {
    if Gate(auth).Some? then Reply(Gate(auth).value, t)
    else if date.None? || time.None? then Reply(ServerError, t)
    else if Slot(date.value, time.value) in t.slots then Reply(OK, t)
    else Reply(OK, t.(slots := t.slots + [Slot(date.value, time.value)]))
  }

  /** `DELETE /api/admin/slots/:date/:time`. */
  function CloseSlot(t: Tables, auth: Option<Claim>, date: Date, time: Time): (r: Reply)
    ensures r.status in {OK, Unauthorized, Forbidden}
    ensures r.tables.users == t.users && r.tables.appointments == t.appointments
    ensures r.tables.reviews == t.reviews
  {
    if Gate(auth).Some? then Reply(Gate(auth).value, t)
    else Reply(OK, t.(slots := Seqs.Filter(t.slots, (s: Slot) => s != Slot(date, time))))
  }

  /** `PATCH /api/admin/appointments/:id/confirm`: an unknown id is not an error. */
  function Confirm(t: Tables, auth: Option<Claim>, id: int): (r: Reply)
    ensures r.status in {OK, Unauthorized, Forbidden}
    ensures |r.tables.appointments| == |t.appointments|
  {
    if Gate(auth).Some? then Reply(Gate(auth).value, t)
    else Reply(OK, t.(appointments := SetStatus(t.appointments, id, Confirmed)))
  }

  /** `DELETE /api/admin/appointments/:id`: an unknown id is not an error. */
  function DeleteAppointment(t: Tables, auth: Option<Claim>, id: int): (r: Reply)
    ensures r.status in {OK, Unauthorized, Forbidden}
    ensures |r.tables.appointments| <= |t.appointments|
  {
    if Gate(auth).Some? then Reply(Gate(auth).value, t)
    else Reply(OK, t.(appointments := Seqs.Filter(t.appointments, (a: Appointment) => a.id != id)))
  }

  /** `PATCH /api/admin/users/:id/activate`; an absent `is_active` is an `undefined` bind
      parameter (500). A `null` is stored as SQL NULL in the nullable column, which every
      reader treats as inactive; the model stores `false` for it. */
  function Activate(t: Tables, auth: Option<Claim>, id: int, active: Field<bool>): (r: Reply)
    ensures r.status in {OK, Unauthorized, Forbidden, ServerError}
    ensures |r.tables.users| == |t.users|
  {
    if Gate(auth).Some? then Reply(Gate(auth).value, t)
    else if active.Undefined? then Reply(ServerError, t)
    else Reply(OK, t.(users := SetActive(t.users, id, active == Given(true))))
  }

  /** `DELETE /api/admin/users/:id`, with the `ON DELETE CASCADE` of `appointments` and
      `reviews`. */
  function DeleteUser(t: Tables, auth: Option<Claim>, id: int): (r: Reply)
    ensures r.status in {OK, Unauthorized, Forbidden}
    ensures r.tables.slots == t.slots
  {
    if Gate(auth).Some? then Reply(Gate(auth).value, t)
    else
      Reply(OK, t.(users := Seqs.Filter(t.users, (u: User) => u.id != id),
                   appointments := Seqs.Filter(t.appointments, (a: Appointment) => a.userId != id),
                   reviews := Seqs.Filter(t.reviews, (r: Review) => r.userId != id)))
  }

  /** The user a manual booking is for: the one with that email, or a new active
      `manual_account` user (written before the appointment, and kept if that fails). */
  function ResolveUser(t: Tables, firstName: string, lastName: string, phone: string,
                       email: string): (r: (Tables, nat))
    ensures r.0 == t <==> EmailTaken(t, email)
  {
    match FindByEmail(t.users, email)
    case Some(u) => (t, u.id)
    case None =>
      match InsertUser(t, firstName, lastName, phone, email, ManualAccount, true, UserRole)
      case Some(t') =>
        assert |t'.users| == |t.users| + 1;
        (t', t.nextUserId)
  }

  /** The writes of a manual booking that passed its checks: resolve the user, then insert
      a confirmed appointment for it. */
  function ManualWrite(t: Tables, firstName: string, lastName: string, phone: string, email: string,
                       d: Date, tm: Time, notes: string): (r: Reply)
    ensures r.status in {OK, ServerError}
  {
    var (t1, userId) := ResolveUser(t, firstName, lastName, phone, email);
    match InsertAppointment(t1, userId, d, tm, notes, Confirmed)
    case None => Reply(ServerError, t1)
    case Some(t2) => Reply(OK, t2)
  }

  /** `POST /api/admin/appointments/manual`. */
  function ManualBook(t: Tables, auth: Option<Claim>, firstName: Field<string>,
                      lastName: Field<string>, phone: Field<string>, email: Field<string>,
                      date: Field<Date>, time: Field<Time>, notes: Field<string>): (r: Reply)
    ensures r.status in {OK, BadRequest, Unauthorized, Forbidden, Conflict, ServerError}
    ensures r.status in {BadRequest, Unauthorized, Forbidden, Conflict} ==> r.tables == t
  {
    if Gate(auth).Some? then Reply(Gate(auth).value, t)
    else if !Truthy(firstName) || !Truthy(lastName) || !Truthy(phone) || !Truthy(email)
         || !date.Given? || !time.Given? then Reply(BadRequest, t)
    else if !HasSlot(t, date.value, time.value) then Reply(BadRequest, t)
    else if Booked(t, date.value, time.value) then Reply(Conflict, t)
    else ManualWrite(t, firstName.value, lastName.value, phone.value, email.value,
                     date.value, time.value, NotesOrEmpty(notes))
  }

  /* ---------------------------------------------------------------------------
     Listings
     --------------------------------------------------------------------------- */

  function SlotTimes(slots: seq<Slot>): (r: seq<Time>)
    ensures |r| == |slots|
    ensures forall i :: 0 <= i < |r| ==> r[i] == slots[i].time
  {
    seq(|slots|, i requires 0 <= i < |slots| => slots[i].time)
  }

  function AppointmentTimes(apps: seq<Appointment>): (r: seq<Time>)
    ensures |r| == |apps|
    ensures forall i :: 0 <= i < |r| ==> r[i] == apps[i].time
  {
    seq(|apps|, i requires 0 <= i < |apps| => apps[i].time)
  }

  function TimeKey(s: Slot): Sorting.Key
  {
    Sorting.Key(s.time, 0)
  }

  /** `SELECT time FROM available_slots WHERE date = ? ORDER BY time` */
  function OpenTimes(t: Tables, d: Date): seq<Time>
  {
    SlotTimes(Sorting.SortOn(Seqs.Filter(t.slots, (s: Slot) => s.date == d), TimeKey))
  }

  /** `SELECT time FROM appointments WHERE date = ? AND status != "cancelled"` */
  function ReservedTimes(t: Tables, d: Date): seq<Time>
  {
    AppointmentTimes(Seqs.Filter(t.appointments, (a: Appointment) => a.date == d && a.status != Cancelled))
  }

  /** `GET /api/available-slots/:date`: the opened times, minus the reserved ones. */
  function FreeSlots(t: Tables, d: Date): seq<Time>
  {
    var reserved := ReservedTimes(t, d);
    Seqs.Filter(OpenTimes(t, d), (tm: Time) => tm !in reserved)
  }

  /** A row of `appointments a JOIN users u ON a.user_id = u.id`. */
  datatype Owned = Owned(appointment: Appointment, owner: User)

  /** The join of one appointment with the users, in user order. */
  function OwnerRows(a: Appointment, users: seq<User>): (r: seq<Owned>)
    ensures forall o :: o in r ==> o.appointment == a && o.owner in users && o.owner.id == a.userId
  {
    if users == [] then []
    else
      (if users[0].id == a.userId then [Owned(a, users[0])] else [])
      + OwnerRows(a, users[1..])
  }

  /** `appointments a JOIN users u ON a.user_id = u.id`, in appointment order. */
  function Join(apps: seq<Appointment>, users: seq<User>): (r: seq<Owned>)
    ensures forall o :: o in r ==> o.appointment in apps && o.owner in users
                                    && o.owner.id == o.appointment.userId
  {
    if apps == [] then []
    else
      assert forall a :: a in apps[1..] ==> a in apps;
      OwnerRows(apps[0], users) + Join(apps[1..], users)
  }

  function OwnedTimes(rows: seq<Owned>): (r: seq<Time>)
    ensures |r| == |rows|
    ensures forall i :: 0 <= i < |r| ==> r[i] == rows[i].appointment.time
  {
    seq(|rows|, i requires 0 <= i < |rows| => rows[i].appointment.time)
  }

  function OwnedTimeKey(o: Owned): Sorting.Key
  {
    Sorting.Key(o.appointment.time, 0)
  }

  /** The booked rows of `GET /api/admin/slots/:date`: non-cancelled appointments of the
      date joined with their users, ordered by time. */
  function AdminBooked(t: Tables, d: Date): seq<Owned>
  {
    Sorting.SortOn(Join(Seqs.Filter(t.appointments, (a: Appointment) => a.date == d && a.status != Cancelled), t.users),
                   OwnedTimeKey)
  }

  /** The available times of `GET /api/admin/slots/:date`. */
  function AdminAvailable(t: Tables, d: Date): seq<Time>
  {
    var booked := OwnedTimes(AdminBooked(t, d));
    Seqs.Filter(OpenTimes(t, d), (tm: Time) => tm !in booked)
  }

  datatype AdminSlotsReply = SlotsDenied(status: nat) | SlotsListed(available: seq<Time>, booked: seq<Owned>)

  /** `GET /api/admin/slots/:date`. */
  function AdminSlots(t: Tables, auth: Option<Claim>, d: Date): (r: AdminSlotsReply)
    ensures r.SlotsDenied? <==> Gate(auth).Some?
  {
    if Gate(auth).Some? then SlotsDenied(Gate(auth).value)
    else SlotsListed(AdminAvailable(t, d), AdminBooked(t, d))
  }

  function NewestFirst(a: Appointment): Sorting.Key
  {
    Sorting.Key(-a.date, -a.time)
  }

  /** `GET /api/user/appointments`: the token user's appointments, newest first. */
  function UserAppointments(t: Tables, auth: Option<Claim>): (r: Option<seq<Appointment>>)
    ensures r.None? <==> auth.None?
  {
    if auth.None? then None
    else Some(Sorting.SortOn(Seqs.Filter(t.appointments, (a: Appointment) => a.userId == auth.value.id), NewestFirst))
  }

  function OldestFirst(o: Owned): Sorting.Key
  {
    Sorting.Key(o.appointment.date, o.appointment.time)
  }

  /** The `WHERE` of `GET /api/admin/appointments`: `a.date = ?` when a date is given, and
      `u.first_name LIKE ? OR u.last_name LIKE ?` with `%search%` when a search is given. */
  predicate AdminMatches(o: Owned, date: Option<Date>, search: string)
  {
    (date.None? || o.appointment.date == date.value)
    && (search == [] || Strings.Includes(o.owner.firstName, search)
                     || Strings.Includes(o.owner.lastName, search))
  }

  /** `GET /api/admin/appointments`: the joined rows that match, oldest first. */
  function AdminAppointments(t: Tables, auth: Option<Claim>, date: Option<Date>, search: string): (r: Result)
    ensures r.Denied? <==> Gate(auth).Some?
  {
    if Gate(auth).Some? then Denied(Gate(auth).value)
    else Listed(Sorting.SortOn(Seqs.Filter(Join(t.appointments, t.users), (o: Owned) => AdminMatches(o, date, search)),
                               OldestFirst))
  }

  datatype Result = Denied(status: nat) | Listed(rows: seq<Owned>)

  /* ---------------------------------------------------------------------------
     The storage invariant and the router
     --------------------------------------------------------------------------- */

  /** Rows in insertion order: ids ascend (primary key, `AUTO_INCREMENT`), emails differ. */
  predicate UserOrder(a: User, b: User)
  {
    a.id < b.id && a.email != b.email
  }

  predicate SlotDistinct(a: Slot, b: Slot)
  {
    a != b
  }

  /** Ids ascend, and `unique_appointment`: no two rows share (date, time), whatever
      their status. */
  predicate AppointmentOrder(a: Appointment, b: Appointment)
  {
    a.id < b.id && (a.date != b.date || a.time != b.time)
  }

  /** What the schema guarantees of the tables: the primary and unique keys, the
      `AUTO_INCREMENT` counters ahead of every id, and the foreign keys to `users`. */
  predicate Valid(t: Tables)
  {
    && Seqs.Pairwise(t.users, UserOrder)
    && (forall u :: u in t.users ==> u.id < t.nextUserId)
    && Seqs.Pairwise(t.slots, SlotDistinct)
    && Seqs.Pairwise(t.appointments, AppointmentOrder)
    && (forall a :: a in t.appointments ==> a.id < t.nextAppointmentId && UserExists(t, a.userId))
    && (forall r :: r in t.reviews ==> UserExists(t, r.userId))
  }

  /** The requests whose handlers write to the tables. */
  datatype Request =
    | RegisterRequest(firstName: Field<string>, lastName: Field<string>, phone: Field<string>,
                      email: Field<string>, password: Field<string>, passwordHash: string)
    | BookRequest(auth: Option<Claim>, date: Field<Date>, time: Field<Time>, notes: Field<string>)
    | OpenSlotRequest(auth: Option<Claim>, slotDate: Option<Date>, slotTime: Option<Time>)
    | CloseSlotRequest(auth: Option<Claim>, closeDate: Date, closeTime: Time)
    | ConfirmRequest(auth: Option<Claim>, id: int)
    | DeleteAppointmentRequest(auth: Option<Claim>, id: int)
    | ActivateRequest(auth: Option<Claim>, id: int, active: Field<bool>)
    | DeleteUserRequest(auth: Option<Claim>, id: int)
    | ManualBookRequest(auth: Option<Claim>, firstName: Field<string>, lastName: Field<string>,
                        phone: Field<string>, email: Field<string>, date: Field<Date>,
                        time: Field<Time>, notes: Field<string>)

  /** The Express routes of those requests. */
  function Handle(t: Tables, req: Request): (r: Reply)
    ensures r.status in {OK, BadRequest, Unauthorized, Forbidden, Conflict, ServerError}
  {
    match req
    case RegisterRequest(f, l, p, e, pw, h) => Register(t, f, l, p, e, pw, h)
    case BookRequest(auth, d, tm, n) => Book(t, auth, d, tm, n)
    case OpenSlotRequest(auth, d, tm) => OpenSlot(t, auth, d, tm)
    case CloseSlotRequest(auth, d, tm) => CloseSlot(t, auth, d, tm)
    case ConfirmRequest(auth, id) => Confirm(t, auth, id)
    case DeleteAppointmentRequest(auth, id) => DeleteAppointment(t, auth, id)
    case ActivateRequest(auth, id, active) => Activate(t, auth, id, active)
    case DeleteUserRequest(auth, id) => DeleteUser(t, auth, id)
    case ManualBookRequest(auth, f, l, p, e, d, tm, n) => ManualBook(t, auth, f, l, p, e, d, tm, n)
  }
}
