/** What the handlers of `server/server.js` do to the tables, request by request. */
module BookingProperties {
  import opened Options
  import Seqs
  import opened Booking
  import opened BookingInvariant

  /* ---------------------------------------------------------------------------
     Customer booking
     --------------------------------------------------------------------------- */

  /** Without a token the request is refused before any query; a missing slot is a 400
      and a non-cancelled appointment at the same date and time a 409, and in each case
      no table changes. */
  lemma BookRejections(t: Tables, c: Claim, d: Date, tm: Time, notes: Field<string>)
    ensures forall date, time :: Book(t, None, date, time, notes) == Reply(Unauthorized, t)
    ensures !HasSlot(t, d, tm) ==> Book(t, Some(c), Given(d), Given(tm), notes) == Reply(BadRequest, t)
    ensures HasSlot(t, d, tm) && Booked(t, d, tm) ==>
              Book(t, Some(c), Given(d), Given(tm), notes) == Reply(Conflict, t)
  {
  }

  /** A booking succeeds exactly when the slot is open, no appointment of any status holds
      the pair and the token's user still exists; it then adds exactly one pending
      appointment owned by that user, with notes defaulting to the empty string. */
  lemma BookSuccess(t: Tables, c: Claim, d: Date, tm: Time, notes: Field<string>)
    ensures Book(t, Some(c), Given(d), Given(tm), notes).status == OK <==>
              HasSlot(t, d, tm) && !Holds(t, d, tm) && UserExists(t, c.id)
    ensures Book(t, Some(c), Given(d), Given(tm), notes).status == OK ==>
              Book(t, Some(c), Given(d), Given(tm), notes).tables ==
                t.(appointments := t.appointments + [Appointment(t.nextAppointmentId, c.id, d, tm, NotesOrEmpty(notes), Pending)],
                   nextAppointmentId := t.nextAppointmentId + 1)
  {
    if Holds(t, d, tm) && !Booked(t, d, tm) {
      assert Book(t, Some(c), Given(d), Given(tm), notes).status != OK;
    }
  }

  /** A cancelled appointment passes the application's check but still holds the
      `unique_appointment` key, so the insert fails and the handler answers 500. */
  lemma CancelledRowBlocks(t: Tables, c: Claim, a: Appointment, notes: Field<string>)
    requires a in t.appointments && a.status == Cancelled
    requires HasSlot(t, a.date, a.time) && !Booked(t, a.date, a.time)
    ensures Book(t, Some(c), Given(a.date), Given(a.time), notes) == Reply(ServerError, t)
  {
    assert Holds(t, a.date, a.time);
  }

  /** An absent `date` or `time` reaches the driver as `undefined` and fails (500); a
      `null` one matches no slot (400). */
  lemma BookMissingFields(t: Tables, c: Claim, date: Field<Date>, time: Field<Time>, notes: Field<string>)
    ensures date.Undefined? || time.Undefined? ==> Book(t, Some(c), date, time, notes) == Reply(ServerError, t)
    ensures !date.Undefined? && !time.Undefined? && (date.Null? || time.Null?) ==>
              Book(t, Some(c), date, time, notes) == Reply(BadRequest, t)
  {
  }

  /** Once booked, the pair stays taken: a second booking of it is a 409. */
  lemma {:induction false} BookTwice(t: Tables, c: Claim, c': Claim, d: Date, tm: Time,
                                      notes: Field<string>, notes': Field<string>)
    requires Book(t, Some(c), Given(d), Given(tm), notes).status == OK
    ensures Book(Book(t, Some(c), Given(d), Given(tm), notes).tables, Some(c'), Given(d), Given(tm), notes').status == Conflict
  {
    BookSuccess(t, c, d, tm, notes);
    var t' := Book(t, Some(c), Given(d), Given(tm), notes).tables;
    var a := Appointment(t.nextAppointmentId, c.id, d, tm, NotesOrEmpty(notes), Pending);
    assert a == t'.appointments[|t.appointments|];
    assert a in t'.appointments;
  }

  /* ---------------------------------------------------------------------------
     Manual booking by an administrator
     --------------------------------------------------------------------------- */

  /** Any missing field is a 400 before any query. */
  lemma ManualMissingField(t: Tables, admin: Claim, firstName: Field<string>, lastName: Field<string>,
                           phone: Field<string>, email: Field<string>, date: Field<Date>,
                           time: Field<Time>, notes: Field<string>)
    requires admin.role == AdminRole
    requires !Truthy(firstName) || !Truthy(lastName) || !Truthy(phone) || !Truthy(email)
             || !date.Given? || !time.Given?
    ensures ManualBook(t, Some(admin), firstName, lastName, phone, email, date, time, notes) == Reply(BadRequest, t)
  {
  }

  /** The slot and conflict checks are those of the customer booking. */
  lemma ManualChecks(t: Tables, admin: Claim, firstName: string, lastName: string, phone: string,
                     email: string, d: Date, tm: Time, notes: Field<string>)
    requires admin.role == AdminRole && firstName != "" && lastName != "" && phone != "" && email != ""
    ensures !HasSlot(t, d, tm) ==>
              ManualBook(t, Some(admin), Given(firstName), Given(lastName), Given(phone), Given(email),
                         Given(d), Given(tm), notes) == Reply(BadRequest, t)
    ensures HasSlot(t, d, tm) && Booked(t, d, tm) ==>
              ManualBook(t, Some(admin), Given(firstName), Given(lastName), Given(phone), Given(email),
                         Given(d), Given(tm), notes) == Reply(Conflict, t)
  {
  }

  /** A known email reuses that user: no user is created, and one confirmed appointment of
      that user is added. */
  lemma ManualReusesUser(t: Tables, admin: Claim, firstName: string, lastName: string, phone: string,
                         u: User, d: Date, tm: Time, notes: Field<string>)
    requires Valid(t) && u in t.users
    requires admin.role == AdminRole && firstName != "" && lastName != "" && phone != "" && u.email != ""
    requires HasSlot(t, d, tm) && !Holds(t, d, tm)
    ensures var r := ManualBook(t, Some(admin), Given(firstName), Given(lastName), Given(phone), Given(u.email),
                                Given(d), Given(tm), notes);
            && r.status == OK
            && r.tables.users == t.users
            && r.tables.appointments == t.appointments + [Appointment(t.nextAppointmentId, u.id, d, tm, NotesOrEmpty(notes), Confirmed)]
  {
    var found := FindByEmail(t.users, u.email);
    UniqueEmail(t, found.value, u);
  }

  /** An unseen email creates exactly one user, active, role `user`, with the
      `manual_account` password marker, and books a confirmed appointment for it. */
  lemma ManualCreatesUser(t: Tables, admin: Claim, firstName: string, lastName: string, phone: string,
                          email: string, d: Date, tm: Time, notes: Field<string>)
    requires admin.role == AdminRole && firstName != "" && lastName != "" && phone != "" && email != ""
    requires HasSlot(t, d, tm) && !Holds(t, d, tm) && !EmailTaken(t, email)
    ensures var r := ManualBook(t, Some(admin), Given(firstName), Given(lastName), Given(phone), Given(email),
                                Given(d), Given(tm), notes);
            && r.status == OK
            && r.tables.users == t.users + [User(t.nextUserId, firstName, lastName, phone, email, ManualAccount, true, UserRole)]
            && r.tables.appointments == t.appointments + [Appointment(t.nextAppointmentId, t.nextUserId, d, tm, NotesOrEmpty(notes), Confirmed)]
  {
    var t1 := InsertUser(t, firstName, lastName, phone, email, ManualAccount, true, UserRole).value;
    assert t1.users[|t.users|].id == t.nextUserId;
    assert UserExists(t1, t.nextUserId);
    assert !Holds(t1, d, tm);
  }

  /** The user row is written before the appointment and there is no transaction: when
      only a cancelled appointment holds the pair, the insert fails (500) but the new user
      stays. */
  lemma ManualKeepsUserOnFailure(t: Tables, admin: Claim, firstName: string, lastName: string,
                                 phone: string, email: string, a: Appointment, notes: Field<string>)
    requires admin.role == AdminRole && firstName != "" && lastName != "" && phone != "" && email != ""
    requires a in t.appointments && HasSlot(t, a.date, a.time) && !Booked(t, a.date, a.time)
    requires !EmailTaken(t, email)
    ensures var r := ManualBook(t, Some(admin), Given(firstName), Given(lastName), Given(phone), Given(email),
                                Given(a.date), Given(a.time), notes);
            && r.status == ServerError
            && r.tables.users == t.users + [User(t.nextUserId, firstName, lastName, phone, email, ManualAccount, true, UserRole)]
            && r.tables.appointments == t.appointments
  {
    var t1 := InsertUser(t, firstName, lastName, phone, email, ManualAccount, true, UserRole).value;
    assert Holds(t1, a.date, a.time);
  }

  /* ---------------------------------------------------------------------------
     Administrator gate
     --------------------------------------------------------------------------- */

  /** Without a token (401) or without the admin role (403) every admin handler answers
      before touching the tables. */
  lemma AdminGate(t: Tables, auth: Option<Claim>, d: Date, tm: Time, id: int, active: Field<bool>,
                  f: Field<string>, date: Field<Date>, time: Field<Time>)
    requires auth.None? || auth.value.role != AdminRole
    ensures var s := if auth.None? then Unauthorized else Forbidden;
            && OpenSlot(t, auth, Some(d), Some(tm)) == Reply(s, t)
            && CloseSlot(t, auth, d, tm) == Reply(s, t)
            && Confirm(t, auth, id) == Reply(s, t)
            && DeleteAppointment(t, auth, id) == Reply(s, t)
            && Activate(t, auth, id, active) == Reply(s, t)
            && DeleteUser(t, auth, id) == Reply(s, t)
            && ManualBook(t, auth, f, f, f, f, date, time, f) == Reply(s, t)
            && AdminSlots(t, auth, d) == SlotsDenied(s)
  {
  }

  /* ---------------------------------------------------------------------------
     Slots
     --------------------------------------------------------------------------- */

  /** In a sequence without duplicates, a present element occurs exactly once. */
  lemma {:induction false} CountDistinct<T>(s: seq<T>, x: T)
    requires Seqs.Pairwise(s, (a: T, b: T) => a != b) && x in s
    ensures Seqs.Count(s, x) == 1
  {
    Seqs.HeadRelated(s, (a: T, b: T) => a != b);
    if s[0] == x {
      Seqs.CountZero(s[1..], x);
    } else {
      CountDistinct(s[1..], x);
    }
  }

  /** Opening a slot leaves exactly one row for the pair, and opening it again changes
      nothing. */
  lemma {:induction false} OpenSlotIdempotent(t: Tables, admin: Claim, d: Date, tm: Time)
    requires Valid(t) && admin.role == AdminRole
    ensures var r := OpenSlot(t, Some(admin), Some(d), Some(tm));
            && r.status == OK
            && Seqs.Count(r.tables.slots, Slot(d, tm)) == 1
            && OpenSlot(r.tables, Some(admin), Some(d), Some(tm)) == r
  {
    var r := OpenSlot(t, Some(admin), Some(d), Some(tm));
    OpenSlotValid(t, Some(admin), Some(d), Some(tm));
    assert Slot(d, tm) in r.tables.slots;
    assert Seqs.Pairwise(r.tables.slots, SlotDistinct);
    assert Seqs.Pairwise(r.tables.slots, (a: Slot, b: Slot) => a != b);
    CountDistinct(r.tables.slots, Slot(d, tm));
  }

  /** Closing a slot removes that pair and only it, succeeds when it is absent, and never
      touches appointments. */
  lemma CloseSlotEffect(t: Tables, admin: Claim, d: Date, tm: Time)
    requires admin.role == AdminRole
    ensures var r := CloseSlot(t, Some(admin), d, tm);
            && r.status == OK
            && (forall s :: s in r.tables.slots <==> s in t.slots && s != Slot(d, tm))
            && (Slot(d, tm) !in t.slots ==> r.tables == t)
            && r.tables.appointments == t.appointments
  {
    var p := (s: Slot) => s != Slot(d, tm);
    Seqs.FilterMembers(t.slots, p);
    if Slot(d, tm) !in t.slots {
      Seqs.FilterAll(t.slots, p);
    }
  }

  /* ---------------------------------------------------------------------------
     Confirming and deleting appointments, deleting users
     --------------------------------------------------------------------------- */

  /** Confirm succeeds for any id: the rows with that id become confirmed, whatever their
      status, every other row and table is unchanged, and an unknown id changes nothing. */
  lemma ConfirmEffect(t: Tables, admin: Claim, id: int)
    requires admin.role == AdminRole
    ensures var r := Confirm(t, Some(admin), id);
            && r.status == OK
            && r.tables.users == t.users && r.tables.slots == t.slots && r.tables.reviews == t.reviews
            && (forall i :: 0 <= i < |t.appointments| && t.appointments[i].id == id ==>
                  r.tables.appointments[i] == t.appointments[i].(status := Confirmed))
            && (forall i :: 0 <= i < |t.appointments| && t.appointments[i].id != id ==>
                  r.tables.appointments[i] == t.appointments[i])
            && ((forall a :: a in t.appointments ==> a.id != id) ==> r.tables == t)
  {
    var r := Confirm(t, Some(admin), id);
    if forall a :: a in t.appointments ==> a.id != id {
      assert r.tables.appointments == t.appointments;
    }
  }

  /** Activation without `is_active` fails with 500 and changes nothing. With it, it
      succeeds for any id: the rows with that id get the flag sent (`null` reads as
      inactive), keep every other column, every other row and table is unchanged, and an
      unknown id changes nothing. */
  lemma ActivateEffect(t: Tables, admin: Claim, id: int, active: Field<bool>)
    requires admin.role == AdminRole
    ensures active.Undefined? ==> Activate(t, Some(admin), id, active) == Reply(ServerError, t)
    ensures !active.Undefined? ==>
              var r := Activate(t, Some(admin), id, active);
              && r.status == OK
              && r.tables.appointments == t.appointments && r.tables.slots == t.slots
              && r.tables.reviews == t.reviews && r.tables.nextUserId == t.nextUserId
              && |r.tables.users| == |t.users|
              && (forall i :: 0 <= i < |t.users| && t.users[i].id == id ==>
                    r.tables.users[i] == t.users[i].(isActive := active == Given(true)))
              && (forall i :: 0 <= i < |t.users| && t.users[i].id != id ==>
                    r.tables.users[i] == t.users[i])
              && ((forall u :: u in t.users ==> u.id != id) ==> r.tables == t)
  {
    if !active.Undefined? {
      var r := Activate(t, Some(admin), id, active);
      if forall u :: u in t.users ==> u.id != id {
        assert r.tables.users == t.users;
      }
    }
  }

  /** Delete succeeds for any id, removes exactly the rows with that id, and an unknown id
      changes nothing. */
  lemma DeleteAppointmentEffect(t: Tables, admin: Claim, id: int)
    requires admin.role == AdminRole
    ensures var r := DeleteAppointment(t, Some(admin), id);
            && r.status == OK
            && r.tables.users == t.users && r.tables.slots == t.slots && r.tables.reviews == t.reviews
            && (forall a :: a in r.tables.appointments <==> a in t.appointments && a.id != id)
            && ((forall a :: a in t.appointments ==> a.id != id) ==> r.tables == t)
  {
    var p := (a: Appointment) => a.id != id;
    Seqs.FilterMembers(t.appointments, p);
    if forall a :: a in t.appointments ==> a.id != id {
      Seqs.FilterAll(t.appointments, p);
    }
  }

  /** Deleting a user removes that user, and by `ON DELETE CASCADE` all of the user's
      appointments and reviews; every other row stays, and no row is left pointing to a
      missing user. */
  lemma DeleteUserCascade(t: Tables, admin: Claim, id: int)
    requires Valid(t) && admin.role == AdminRole
    ensures var r := DeleteUser(t, Some(admin), id);
            && r.status == OK
            && (forall u :: u in r.tables.users <==> u in t.users && u.id != id)
            && (forall a :: a in r.tables.appointments <==> a in t.appointments && a.userId != id)
            && (forall v :: v in r.tables.reviews <==> v in t.reviews && v.userId != id)
            && (forall a :: a in r.tables.appointments ==> UserExists(r.tables, a.userId))
            && (forall v :: v in r.tables.reviews ==> UserExists(r.tables, v.userId))
  {
    Seqs.FilterMembers(t.users, (u: User) => u.id != id);
    Seqs.FilterMembers(t.appointments, (a: Appointment) => a.userId != id);
    Seqs.FilterMembers(t.reviews, (v: Review) => v.userId != id);
    DeleteUserValid(t, Some(admin), id);
  }

  /** Registration needs all five fields (400), a new email (409), and creates one
      inactive account with role `user`. */
  lemma RegisterEffect(t: Tables, firstName: Field<string>, lastName: Field<string>,
                       phone: Field<string>, email: Field<string>, password: Field<string>,
                       passwordHash: string)
    ensures var r := Register(t, firstName, lastName, phone, email, password, passwordHash);
            && (!Truthy(firstName) || !Truthy(lastName) || !Truthy(phone) || !Truthy(email) || !Truthy(password)
                ==> r == Reply(BadRequest, t))
            && (Truthy(firstName) && Truthy(lastName) && Truthy(phone) && Truthy(email) && Truthy(password) ==>
                  && (EmailTaken(t, email.value) ==> r == Reply(Conflict, t))
                  && (!EmailTaken(t, email.value) ==>
                        && r.status == OK
                        && r.tables == t.(users := t.users + [User(t.nextUserId, firstName.value, lastName.value,
                                                                   phone.value, email.value, passwordHash, false, UserRole)],
                                          nextUserId := t.nextUserId + 1)))
  {
  }

  /** Login signs in exactly the active user with that email whose password matches; an
      unknown email and a wrong password are refused alike, and a matching password on
      an inactive account is refused with 403. */
  lemma LoginSpec(t: Tables, email: string, password: string, matches: (string, string) -> bool)
    requires Valid(t)
    ensures var r := Login(t, email, password, matches);
            && (r.SignedIn? <==>
                  exists u :: u in t.users && u.email == email && matches(password, u.passwordHash) && u.isActive)
            && (r.SignedIn? ==> exists u :: u in t.users && u.email == email &&
                                  r.session == Session(u.id, u.email, u.role, u.firstName, u.lastName))
            && (!EmailTaken(t, email) ==> r == Refused(Unauthorized, WrongCredentials))
            && (forall u :: u in t.users && u.email == email && !matches(password, u.passwordHash) ==>
                  r == Refused(Unauthorized, WrongCredentials))
            && (forall u :: u in t.users && u.email == email && matches(password, u.passwordHash) && !u.isActive ==>
                  r == Refused(Forbidden, AwaitingApproval))
  {
    var found := FindByEmail(t.users, email);
    if found.Some? {
      forall u | u in t.users && u.email == email ensures u == found.value {
        UniqueEmail(t, u, found.value);
      }
    }
  }

  /** No handler ever marks an appointment cancelled: every cancelled row after a request
      was already there before it. */
  lemma NoHandlerCancels(t: Tables, req: Request)
    ensures forall a :: a in Handle(t, req).tables.appointments && a.status == Cancelled ==> a in t.appointments
  {
    var r := Handle(t, req);
    match req
    case ConfirmRequest(auth, id) =>
      forall a | a in r.tables.appointments && a.status == Cancelled ensures a in t.appointments {
        var i :| 0 <= i < |r.tables.appointments| && r.tables.appointments[i] == a;
        assert t.appointments[i] in t.appointments;
      }
    case DeleteAppointmentRequest(auth, id) =>
      Seqs.FilterMembers(t.appointments, (a: Appointment) => a.id != id);
    case DeleteUserRequest(auth, id) =>
      Seqs.FilterMembers(t.appointments, (a: Appointment) => a.userId != id);
    case _ =>
  }
}
