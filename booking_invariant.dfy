/** Every handler that writes keeps the schema's guarantees (`Booking.Valid`): the unique
    keys, the `AUTO_INCREMENT` counters and the foreign keys to `users`. */
module BookingInvariant {
  import opened Options
  import Seqs
  import opened Booking

  /** A user present before is present after. */
  lemma OwnersKept(t: Tables, t': Tables)
    requires forall u :: u in t.users ==> u in t'.users
    ensures forall id :: UserExists(t, id) ==> UserExists(t', id)
  {
    forall id | UserExists(t, id) ensures UserExists(t', id) {
      var u :| u in t.users && u.id == id;
      assert u in t'.users;
    }
  }

  /** Two users with the same email are the same row. */
  lemma UniqueEmail(t: Tables, u: User, v: User)
    requires Valid(t) && u in t.users && v in t.users && u.email == v.email
    ensures u == v
  {
    var i :| 0 <= i < |t.users| && t.users[i] == u;
    var j :| 0 <= j < |t.users| && t.users[j] == v;
    if i < j {
      assert false;
    } else if j < i {
      assert false;
    }
  }

  /** Two users with the same id are the same row. */
  lemma UniqueUserId(t: Tables, u: User, v: User)
    requires Valid(t) && u in t.users && v in t.users && u.id == v.id
    ensures u == v
  {
    var i :| 0 <= i < |t.users| && t.users[i] == u;
    var j :| 0 <= j < |t.users| && t.users[j] == v;
    if i < j {
      assert false;
    } else if j < i {
      assert false;
    }
  }

  /** Two appointments at the same date and time are the same row, whatever their status. */
  lemma UniqueAppointment(t: Tables, a: Appointment, b: Appointment)
    requires Valid(t) && a in t.appointments && b in t.appointments
    requires a.date == b.date && a.time == b.time
    ensures a == b
  {
    var i :| 0 <= i < |t.appointments| && t.appointments[i] == a;
    var j :| 0 <= j < |t.appointments| && t.appointments[j] == b;
    if i < j {
      assert false;
    } else if j < i {
      assert false;
    }
  }

  /** Two appointments with the same id are the same row. */
  lemma UniqueAppointmentId(t: Tables, a: Appointment, b: Appointment)
    requires Valid(t) && a in t.appointments && b in t.appointments && a.id == b.id
    ensures a == b
  {
    var i :| 0 <= i < |t.appointments| && t.appointments[i] == a;
    var j :| 0 <= j < |t.appointments| && t.appointments[j] == b;
    if i < j {
      assert false;
    } else if j < i {
      assert false;
    }
  }

  lemma InsertUserValid(t: Tables, firstName: string, lastName: string, phone: string,
                        email: string, passwordHash: string, isActive: bool, role: Role)
    requires Valid(t) && !EmailTaken(t, email)
    ensures Valid(InsertUser(t, firstName, lastName, phone, email, passwordHash, isActive, role).value)
  {
    var u := User(t.nextUserId, firstName, lastName, phone, email, passwordHash, isActive, role);
    var t' := InsertUser(t, firstName, lastName, phone, email, passwordHash, isActive, role).value;
    assert t'.users == t.users + [u];
    Seqs.SnocPairwise(t.users, u, UserOrder);
    OwnersKept(t, t');
  }

  lemma InsertAppointmentValid(t: Tables, userId: nat, d: Date, tm: Time, notes: string, status: Status)
    requires Valid(t) && !Holds(t, d, tm) && UserExists(t, userId)
    ensures Valid(InsertAppointment(t, userId, d, tm, notes, status).value)
  {
    var a := Appointment(t.nextAppointmentId, userId, d, tm, notes, status);
    var t' := InsertAppointment(t, userId, d, tm, notes, status).value;
    assert t'.appointments == t.appointments + [a];
    Seqs.SnocPairwise(t.appointments, a, AppointmentOrder);
    OwnersKept(t, t');
  }

  lemma RegisterValid(t: Tables, firstName: Field<string>, lastName: Field<string>,
                      phone: Field<string>, email: Field<string>, password: Field<string>,
                      passwordHash: string)
    requires Valid(t)
    ensures Valid(Register(t, firstName, lastName, phone, email, password, passwordHash).tables)
  {
    if Register(t, firstName, lastName, phone, email, password, passwordHash).status == OK {
      InsertUserValid(t, firstName.value, lastName.value, phone.value, email.value, passwordHash, false, UserRole);
    }
  }

  lemma BookValid(t: Tables, auth: Option<Claim>, date: Field<Date>, time: Field<Time>, notes: Field<string>)
    requires Valid(t)
    ensures Valid(Book(t, auth, date, time, notes).tables)
  {
    if Book(t, auth, date, time, notes).status == OK {
      InsertAppointmentValid(t, auth.value.id, date.value, time.value, NotesOrEmpty(notes), Pending);
    }
  }

  lemma OpenSlotValid(t: Tables, auth: Option<Claim>, date: Option<Date>, time: Option<Time>)
    requires Valid(t)
    ensures Valid(OpenSlot(t, auth, date, time).tables)
  {
    if Gate(auth).None? && date.Some? && time.Some? && Slot(date.value, time.value) !in t.slots {
      Seqs.SnocPairwise(t.slots, Slot(date.value, time.value), SlotDistinct);
    }
  }

  lemma CloseSlotValid(t: Tables, auth: Option<Claim>, date: Date, time: Time)
    requires Valid(t)
    ensures Valid(CloseSlot(t, auth, date, time).tables)
  {
    Seqs.FilterPairwise(t.slots, (s: Slot) => s != Slot(date, time), SlotDistinct);
  }

  lemma ConfirmValid(t: Tables, auth: Option<Claim>, id: int)
    requires Valid(t)
    ensures Valid(Confirm(t, auth, id).tables)
  {
    if Gate(auth).None? {
      var t' := Confirm(t, auth, id).tables;
      var s := t.appointments;
      var r := t'.appointments;
      forall i, j | 0 <= i < j < |r| ensures AppointmentOrder(r[i], r[j]) {
        assert AppointmentOrder(s[i], s[j]);
      }
      forall a | a in r ensures a.id < t'.nextAppointmentId && UserExists(t', a.userId) {
        var i :| 0 <= i < |r| && r[i] == a;
        assert s[i] in s;
      }
    }
  }

  lemma DeleteAppointmentValid(t: Tables, auth: Option<Claim>, id: int)
    requires Valid(t)
    ensures Valid(DeleteAppointment(t, auth, id).tables)
  {
    var p := (a: Appointment) => a.id != id;
    Seqs.FilterPairwise(t.appointments, p, AppointmentOrder);
    Seqs.FilterMembers(t.appointments, p);
  }

  lemma ActivateValid(t: Tables, auth: Option<Claim>, id: int, active: Field<bool>)
    requires Valid(t)
    ensures Valid(Activate(t, auth, id, active).tables)
  {
    if Gate(auth).None? && !active.Undefined? {
      var t' := Activate(t, auth, id, active).tables;
      var s := t.users;
      var r := t'.users;
      forall i, j | 0 <= i < j < |r| ensures UserOrder(r[i], r[j]) {
        assert UserOrder(s[i], s[j]);
      }
      forall u | u in r ensures u.id < t'.nextUserId {
        var i :| 0 <= i < |r| && r[i] == u;
        assert s[i] in s;
      }
      forall id' | UserExists(t, id') ensures UserExists(t', id') {
        var u :| u in s && u.id == id';
        var i :| 0 <= i < |s| && s[i] == u;
        assert r[i] in r;
      }
    }
  }

  lemma DeleteUserValid(t: Tables, auth: Option<Claim>, id: int)
    requires Valid(t)
    ensures Valid(DeleteUser(t, auth, id).tables)
  {
    if Gate(auth).None? {
      var t' := DeleteUser(t, auth, id).tables;
      var pu := (u: User) => u.id != id;
      var pa := (a: Appointment) => a.userId != id;
      var pr := (r: Review) => r.userId != id;
      Seqs.FilterPairwise(t.users, pu, UserOrder);
      Seqs.FilterPairwise(t.appointments, pa, AppointmentOrder);
      Seqs.FilterMembers(t.users, pu);
      Seqs.FilterMembers(t.appointments, pa);
      Seqs.FilterMembers(t.reviews, pr);
      forall uid | UserExists(t, uid) && uid != id ensures UserExists(t', uid) {
        var u :| u in t.users && u.id == uid;
        assert u in t'.users;
      }
    }
  }

  /** Resolving the user of a manual booking touches only `users`, keeps the guarantees,
      and yields an existing user. */
  lemma ResolveUserValid(t: Tables, firstName: string, lastName: string, phone: string, email: string)
    requires Valid(t)
    ensures var (t1, userId) := ResolveUser(t, firstName, lastName, phone, email);
            && Valid(t1) && UserExists(t1, userId)
            && t1.appointments == t.appointments && t1.nextAppointmentId == t.nextAppointmentId
  {
    var (t1, userId) := ResolveUser(t, firstName, lastName, phone, email);
    if FindByEmail(t.users, email).None? {
      InsertUserValid(t, firstName, lastName, phone, email, ManualAccount, true, UserRole);
      assert t1.users[|t.users|].id == userId;
    }
  }

  lemma ManualWriteValid(t: Tables, firstName: string, lastName: string, phone: string, email: string,
                         d: Date, tm: Time, notes: string)
    requires Valid(t)
    ensures Valid(ManualWrite(t, firstName, lastName, phone, email, d, tm, notes).tables)
  {
    var (t1, userId) := ResolveUser(t, firstName, lastName, phone, email);
    ResolveUserValid(t, firstName, lastName, phone, email);
    if !Holds(t1, d, tm) {
      InsertAppointmentValid(t1, userId, d, tm, notes, Confirmed);
    }
  }

  lemma ManualBookValid(t: Tables, auth: Option<Claim>, firstName: Field<string>,
                        lastName: Field<string>, phone: Field<string>, email: Field<string>,
                        date: Field<Date>, time: Field<Time>, notes: Field<string>)
    requires Valid(t)
    ensures Valid(ManualBook(t, auth, firstName, lastName, phone, email, date, time, notes).tables)
  {
    if ManualBook(t, auth, firstName, lastName, phone, email, date, time, notes).status in {OK, ServerError} {
      ManualWriteValid(t, firstName.value, lastName.value, phone.value, email.value,
                       date.value, time.value, NotesOrEmpty(notes));
    }
  }

  /** Every write handler keeps the schema's guarantees. */
  lemma {:induction false} HandleValid(t: Tables, req: Request)
    requires Valid(t)
    ensures Valid(Handle(t, req).tables)
  {
    match req
    case RegisterRequest(f, l, p, e, pw, h) => RegisterValid(t, f, l, p, e, pw, h);
    case BookRequest(auth, d, tm, n) => BookValid(t, auth, d, tm, n);
    case OpenSlotRequest(auth, d, tm) => OpenSlotValid(t, auth, d, tm);
    case CloseSlotRequest(auth, d, tm) => CloseSlotValid(t, auth, d, tm);
    case ConfirmRequest(auth, id) => ConfirmValid(t, auth, id);
    case DeleteAppointmentRequest(auth, id) => DeleteAppointmentValid(t, auth, id);
    case ActivateRequest(auth, id, active) => ActivateValid(t, auth, id, active);
    case DeleteUserRequest(auth, id) => DeleteUserValid(t, auth, id);
    case ManualBookRequest(auth, f, l, p, e, d, tm, n) => ManualBookValid(t, auth, f, l, p, e, d, tm, n);
  }
}
