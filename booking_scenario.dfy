/** Sequences of requests: an appointment frees its date and time only when deleted, and
    the open, book, confirm, delete walk-through of one slot. */
module BookingScenario {
  import opened Options
  import Seqs
  import Sorting
  import opened Booking
  import opened BookingInvariant
  import opened BookingProperties
  import opened BookingListings

  /** Deleting the appointment that holds a pair frees it: a booking of the pair then
      succeeds for any existing user. */
  lemma DeleteFreesSlot(t: Tables, admin: Claim, c: Claim, a: Appointment, notes: Field<string>)
    requires Valid(t) && admin.role == AdminRole && a in t.appointments
    requires HasSlot(t, a.date, a.time) && UserExists(t, c.id)
    ensures var t' := DeleteAppointment(t, Some(admin), a.id).tables;
            Book(t', Some(c), Given(a.date), Given(a.time), notes).status == OK
  {
    var t' := DeleteAppointment(t, Some(admin), a.id).tables;
    DeleteAppointmentEffect(t, admin, a.id);
    if Holds(t', a.date, a.time) {
      var b :| b in t'.appointments && b.date == a.date && b.time == a.time;
      UniqueAppointment(t, a, b);
      assert false;
    }
    BookSuccess(t', c, a.date, a.time, notes);
  }

  /** When at most one slot can be open on a date, the free list is that slot's time or
      nothing. */
  lemma FreeSlotsSingle(u: Tables, d: Date, tm: Time)
    requires Valid(u)
    requires forall s :: s in u.slots && s.date == d ==> s.time == tm
    ensures FreeSlots(u, d) == if HasSlot(u, d, tm) && !Booked(u, d, tm) then [tm] else []
  {
    var p := (s: Slot) => s.date == d;
    var f := Seqs.Filter(u.slots, p);
    Seqs.FilterPairwise(u.slots, p, SlotDistinct);
    Seqs.FilterMembers(u.slots, p);
    if |f| >= 2 {
      Seqs.FirstTwo(f);
      assert false;
    }
    assert |OpenTimes(u, d)| == |Sorting.SortOn(f, TimeKey)| == |f|;
    FreeSlotsSpec(u, d);
    var free := FreeSlots(u, d);
    if HasSlot(u, d, tm) && !Booked(u, d, tm) {
      assert tm in free;
      assert free == [tm];
    } else if free != [] {
      Seqs.First(free);
      assert false;
    }
  }

  /** Opening the only slot of a date lists it free. */
  lemma WalkOpen(t: Tables, admin: Claim, d: Date, tm: Time)
    requires Valid(t) && admin.role == AdminRole
    requires forall s :: s in t.slots ==> s.date != d
    requires forall a :: a in t.appointments ==> a.date != d
    ensures var t1 := OpenSlot(t, Some(admin), Some(d), Some(tm)).tables;
            && Valid(t1) && HasSlot(t1, d, tm) && FreeSlots(t1, d) == [tm]
            && (forall s :: s in t1.slots && s.date == d ==> s.time == tm)
            && t1.users == t.users && t1.appointments == t.appointments
  {
    var t1 := OpenSlot(t, Some(admin), Some(d), Some(tm)).tables;
    OpenSlotValid(t, Some(admin), Some(d), Some(tm));
    assert t1.slots == t.slots + [Slot(d, tm)];
    FreeSlotsSingle(t1, d, tm);
  }

  /** Booking it adds a pending appointment and lists it free no more. */
  lemma WalkBook(t1: Tables, customer: Claim, d: Date, tm: Time)
    requires Valid(t1) && HasSlot(t1, d, tm) && UserExists(t1, customer.id)
    requires forall s :: s in t1.slots && s.date == d ==> s.time == tm
    requires forall a :: a in t1.appointments ==> a.date != d
    ensures var r2 := Book(t1, Some(customer), Given(d), Given(tm), Undefined);
            var id := t1.nextAppointmentId;
            && r2.status == OK && Valid(r2.tables) && r2.tables.slots == t1.slots
            && |r2.tables.appointments| == |t1.appointments| + 1
            && r2.tables.appointments[|t1.appointments|] == Appointment(id, customer.id, d, tm, "", Pending)
            && (forall a :: a in r2.tables.appointments ==> a.date != d || a.id == id)
            && FreeSlots(r2.tables, d) == []
  {
    var r2 := Book(t1, Some(customer), Given(d), Given(tm), Undefined);
    assert !Holds(t1, d, tm);
    BookSuccess(t1, customer, d, tm, Undefined);
    BookValid(t1, Some(customer), Given(d), Given(tm), Undefined);
    assert r2.tables.appointments[|t1.appointments|] in r2.tables.appointments;
    FreeSlotsSingle(r2.tables, d, tm);
  }

  /** Confirming it changes its status and nothing else of the date. */
  lemma WalkConfirm(t2: Tables, admin: Claim, id: int, d: Date, k: nat)
    requires Valid(t2) && admin.role == AdminRole && k < |t2.appointments| && t2.appointments[k].id == id
    requires forall a :: a in t2.appointments ==> a.date != d || a.id == id
    ensures var r3 := Confirm(t2, Some(admin), id);
            && r3.status == OK && Valid(r3.tables) && r3.tables.slots == t2.slots
            && r3.tables.appointments[k] == t2.appointments[k].(status := Confirmed)
            && (forall a :: a in r3.tables.appointments ==> a.date != d || a.id == id)
  {
    var r3 := Confirm(t2, Some(admin), id);
    ConfirmValid(t2, Some(admin), id);
    forall a | a in r3.tables.appointments ensures a.date != d || a.id == id {
      var i :| 0 <= i < |r3.tables.appointments| && r3.tables.appointments[i] == a;
      assert t2.appointments[i] in t2.appointments;
    }
  }

  /** Deleting it lists the slot free again. */
  lemma WalkDelete(t3: Tables, admin: Claim, id: int, d: Date, tm: Time)
    requires Valid(t3) && admin.role == AdminRole && HasSlot(t3, d, tm)
    requires forall s :: s in t3.slots && s.date == d ==> s.time == tm
    requires forall a :: a in t3.appointments ==> a.date != d || a.id == id
    ensures var r4 := DeleteAppointment(t3, Some(admin), id);
            r4.status == OK && FreeSlots(r4.tables, d) == [tm]
  {
    DeleteAppointmentValid(t3, Some(admin), id);
    DeleteAppointmentEffect(t3, admin, id);
    FreeSlotsSingle(DeleteAppointment(t3, Some(admin), id).tables, d, tm);
  }

  /** The walk-through of one slot on a date nothing was opened or booked for: opened, it
      is listed free; booked, it is listed no more and the appointment is pending; the
      administrator confirms it; deleted, the slot is listed free again. */
  lemma {:induction false} OneSlotWalkthrough(t: Tables, admin: Claim, customer: Claim, d: Date, tm: Time)
    requires Valid(t) && admin.role == AdminRole && UserExists(t, customer.id)
    requires forall s :: s in t.slots ==> s.date != d
    requires forall a :: a in t.appointments ==> a.date != d
    ensures var t1 := OpenSlot(t, Some(admin), Some(d), Some(tm)).tables;
            var r2 := Book(t1, Some(customer), Given(d), Given(tm), Undefined);
            var id := t1.nextAppointmentId;
            var r3 := Confirm(r2.tables, Some(admin), id);
            var r4 := DeleteAppointment(r3.tables, Some(admin), id);
            && FreeSlots(t1, d) == [tm]
            && r2.status == OK
            && Appointment(id, customer.id, d, tm, "", Pending) in r2.tables.appointments
            && FreeSlots(r2.tables, d) == []
            && r3.status == OK
            && Appointment(id, customer.id, d, tm, "", Confirmed) in r3.tables.appointments
            && r4.status == OK
            && FreeSlots(r4.tables, d) == [tm]
  {
    var t1 := OpenSlot(t, Some(admin), Some(d), Some(tm)).tables;
    WalkOpen(t, admin, d, tm);
    var r2 := Book(t1, Some(customer), Given(d), Given(tm), Undefined);
    var id := t1.nextAppointmentId;
    var k := |t1.appointments|;
    WalkBook(t1, customer, d, tm);
    assert r2.tables.appointments[k] in r2.tables.appointments;
    var r3 := Confirm(r2.tables, Some(admin), id);
    WalkConfirm(r2.tables, admin, id, d, k);
    assert r3.tables.appointments[k] in r3.tables.appointments;
    WalkDelete(r3.tables, admin, id, d, tm);
  }
}
