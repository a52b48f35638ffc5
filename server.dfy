/** The booking store of `server/server.js` as the mutable object the handlers share: the
    four tables are fields that each handler reassigns step by step, after the checks the
    handler makes. Each method is proved to give the reply and the tables that the
    corresponding function of `Booking` describes, and to keep the schema's guarantees. */
module Server {
  import opened Options
  import Seqs
  import opened Booking
  import BookingInvariant

  class Database {
    var users: seq<User>
    var slots: seq<Slot>
    var appointments: seq<Appointment>
    var reviews: seq<Review>
    var nextUserId: nat
    var nextAppointmentId: nat

    function State(): Tables
      reads this
    {
      Tables(users, slots, appointments, reviews, nextUserId, nextAppointmentId)
    }

    ghost predicate Valid()
      reads this
    {
      Booking.Valid(State())
    }

    /** Empty tables; `AUTO_INCREMENT` starts at 1. */
    constructor ()
      ensures State() == Tables([], [], [], [], 1, 1)
      ensures Valid()
    {
      users, slots, appointments, reviews := [], [], [], [];
      nextUserId, nextAppointmentId := 1, 1;
    }

    /** `POST /api/register` */
    method Register(firstName: Field<string>, lastName: Field<string>, phone: Field<string>,
                    email: Field<string>, password: Field<string>, passwordHash: string)
      returns (status: nat)
      requires Valid()
      modifies this
      ensures Reply(status, State()) == Booking.Register(old(State()), firstName, lastName, phone, email, password, passwordHash)
      ensures Valid()
    {
      if !Truthy(firstName) || !Truthy(lastName) || !Truthy(phone) || !Truthy(email) || !Truthy(password) {
        return BadRequest;
      }
      if EmailTaken(State(), email.value) {
        return Conflict;
      }
      users := users + [User(nextUserId, firstName.value, lastName.value, phone.value, email.value,
                             passwordHash, false, UserRole)];
      nextUserId := nextUserId + 1;
      status := OK;
      BookingInvariant.RegisterValid(old(State()), firstName, lastName, phone, email, password, passwordHash);
    }

    /** `POST /api/book-appointment` */
    method Book(auth: Option<Claim>, date: Field<Date>, time: Field<Time>, notes: Field<string>)
      returns (status: nat)
      requires Valid()
      modifies this
      ensures Reply(status, State()) == Booking.Book(old(State()), auth, date, time, notes)
      ensures Valid()
    {
      if auth.None? {
        return Unauthorized;
      }
      if date.Undefined? || time.Undefined? {
        return ServerError;
      }
      if date.Null? || time.Null? || !HasSlot(State(), date.value, time.value) {
        return BadRequest;
      }
      if Booked(State(), date.value, time.value) {
        return Conflict;
      }
      if Holds(State(), date.value, time.value) || !UserExists(State(), auth.value.id) {
        return ServerError;
      }
      appointments := appointments + [Appointment(nextAppointmentId, auth.value.id, date.value, time.value,
                                                  NotesOrEmpty(notes), Pending)];
      nextAppointmentId := nextAppointmentId + 1;
      status := OK;
      BookingInvariant.BookValid(old(State()), auth, date, time, notes);
    }

    /** `POST /api/admin/slots` */
    method OpenSlot(auth: Option<Claim>, date: Option<Date>, time: Option<Time>) returns (status: nat)
      requires Valid()
      modifies this
      ensures Reply(status, State()) == Booking.OpenSlot(old(State()), auth, date, time)
      ensures Valid()
    {
      var denied := Gate(auth);
      if denied.Some? {
        return denied.value;
      }
      if date.None? || time.None? {
        return ServerError;
      }
      if Slot(date.value, time.value) !in slots {
        slots := slots + [Slot(date.value, time.value)];
      }
      status := OK;
      BookingInvariant.OpenSlotValid(old(State()), auth, date, time);
    }

    /** `DELETE /api/admin/slots/:date/:time` */
    method CloseSlot(auth: Option<Claim>, date: Date, time: Time) returns (status: nat)
      requires Valid()
      modifies this
      ensures Reply(status, State()) == Booking.CloseSlot(old(State()), auth, date, time)
      ensures Valid()
    {
      var denied := Gate(auth);
      if denied.Some? {
        return denied.value;
      }
      slots := Seqs.Filter(slots, (s: Slot) => s != Slot(date, time));
      status := OK;
      BookingInvariant.CloseSlotValid(old(State()), auth, date, time);
    }

    /** `PATCH /api/admin/appointments/:id/confirm` */
    method Confirm(auth: Option<Claim>, id: int) returns (status: nat)
      requires Valid()
      modifies this
      ensures Reply(status, State()) == Booking.Confirm(old(State()), auth, id)
      ensures Valid()
    {
      var denied := Gate(auth);
      if denied.Some? {
        return denied.value;
      }
      appointments := SetStatus(appointments, id, Confirmed);
      status := OK;
      BookingInvariant.ConfirmValid(old(State()), auth, id);
    }

    /** `DELETE /api/admin/appointments/:id` */
    method DeleteAppointment(auth: Option<Claim>, id: int) returns (status: nat)
      requires Valid()
      modifies this
      ensures Reply(status, State()) == Booking.DeleteAppointment(old(State()), auth, id)
      ensures Valid()
    {
      var denied := Gate(auth);
      if denied.Some? {
        return denied.value;
      }
      appointments := Seqs.Filter(appointments, (a: Appointment) => a.id != id);
      status := OK;
      BookingInvariant.DeleteAppointmentValid(old(State()), auth, id);
    }

    /** `PATCH /api/admin/users/:id/activate` */
    method Activate(auth: Option<Claim>, id: int, active: Field<bool>) returns (status: nat)
      requires Valid()
      modifies this
      ensures Reply(status, State()) == Booking.Activate(old(State()), auth, id, active)
      ensures Valid()
    {
      var denied := Gate(auth);
      if denied.Some? {
        return denied.value;
      }
      if active.Undefined? {
        return ServerError;
      }
      users := SetActive(users, id, active == Given(true));
      status := OK;
      BookingInvariant.ActivateValid(old(State()), auth, id, active);
    }

    /** `DELETE /api/admin/users/:id`; the database cascades to appointments and reviews. */
    method DeleteUser(auth: Option<Claim>, id: int) returns (status: nat)
      requires Valid()
      modifies this
      ensures Reply(status, State()) == Booking.DeleteUser(old(State()), auth, id)
      ensures Valid()
    {
      var denied := Gate(auth);
      if denied.Some? {
        return denied.value;
      }
      users := Seqs.Filter(users, (u: User) => u.id != id);
      appointments := Seqs.Filter(appointments, (a: Appointment) => a.userId != id);
      reviews := Seqs.Filter(reviews, (r: Review) => r.userId != id);
      status := OK;
      BookingInvariant.DeleteUserValid(old(State()), auth, id);
    }

    /** `POST /api/admin/appointments/manual` */
    method ManualBook(auth: Option<Claim>, firstName: Field<string>, lastName: Field<string>,
                      phone: Field<string>, email: Field<string>, date: Field<Date>,
                      time: Field<Time>, notes: Field<string>) returns (status: nat)
      requires Valid()
      modifies this
      ensures Reply(status, State()) ==
                Booking.ManualBook(old(State()), auth, firstName, lastName, phone, email, date, time, notes)
      ensures Valid()
    {
      var denied := Gate(auth);
      if denied.Some? {
        return denied.value;
      }
      if !Truthy(firstName) || !Truthy(lastName) || !Truthy(phone) || !Truthy(email)
         || !date.Given? || !time.Given? {
        return BadRequest;
      }
      if !HasSlot(State(), date.value, time.value) {
        return BadRequest;
      }
      if Booked(State(), date.value, time.value) {
        return Conflict;
      }
      status := WriteManual(firstName.value, lastName.value, phone.value, email.value,
                            date.value, time.value, NotesOrEmpty(notes));
    }

    /** The user lookup of a manual booking, and the insert of a new user when the email
        is unknown. */
    method ResolveUser(firstName: string, lastName: string, phone: string, email: string)
      returns (userId: nat)
      modifies this
      ensures (State(), userId) == Booking.ResolveUser(old(State()), firstName, lastName, phone, email)
    {
      var existing := FindByEmail(users, email);
      if existing.Some? {
        userId := existing.value.id;
      } else {
        userId := nextUserId;
        users := users + [User(nextUserId, firstName, lastName, phone, email, ManualAccount, true, UserRole)];
        nextUserId := nextUserId + 1;
      }
    }

    /** The writes of a manual booking that passed its checks. */
    method WriteManual(firstName: string, lastName: string, phone: string, email: string,
                       date: Date, time: Time, notes: string) returns (status: nat)
      requires Valid()
      modifies this
      ensures Reply(status, State()) == ManualWrite(old(State()), firstName, lastName, phone, email, date, time, notes)
      ensures Valid()
    {
      BookingInvariant.ManualWriteValid(State(), firstName, lastName, phone, email, date, time, notes);
      var userId := ResolveUser(firstName, lastName, phone, email);
      if Holds(State(), date, time) || !UserExists(State(), userId) {
        return ServerError;
      }
      appointments := appointments + [Appointment(nextAppointmentId, userId, date, time, notes, Confirmed)];
      nextAppointmentId := nextAppointmentId + 1;
      status := OK;
    }
  }
}
