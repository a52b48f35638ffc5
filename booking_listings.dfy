/** The read-only handlers of `server/server.js`: free slots for customers and for the
    administrator, a user's appointments, and the administrator's appointment list. */
module BookingListings {
  import opened Options
  import Seqs
  import Sorting
  import opened Booking
  import opened BookingInvariant
  import opened BookingProperties

  lemma SlotTimesMembers(slots: seq<Slot>)
    ensures forall tm :: tm in SlotTimes(slots) <==> exists s :: s in slots && s.time == tm
  {
    var r := SlotTimes(slots);
    forall tm | tm in r ensures exists s :: s in slots && s.time == tm {
      var i :| 0 <= i < |r| && r[i] == tm;
      assert slots[i] in slots;
    }
    forall tm | exists s :: s in slots && s.time == tm ensures tm in r {
      var s :| s in slots && s.time == tm;
      var i :| 0 <= i < |slots| && slots[i] == s;
      assert r[i] == tm;
    }
  }

  lemma AppointmentTimesMembers(apps: seq<Appointment>)
    ensures forall tm :: tm in AppointmentTimes(apps) <==> exists a :: a in apps && a.time == tm
  {
    var r := AppointmentTimes(apps);
    forall tm | tm in r ensures exists a :: a in apps && a.time == tm {
      var i :| 0 <= i < |r| && r[i] == tm;
      assert apps[i] in apps;
    }
    forall tm | exists a :: a in apps && a.time == tm ensures tm in r {
      var a :| a in apps && a.time == tm;
      var i :| 0 <= i < |apps| && apps[i] == a;
      assert r[i] == tm;
    }
  }

  lemma OwnedTimesMembers(rows: seq<Owned>)
    ensures forall tm :: tm in OwnedTimes(rows) <==> exists o :: o in rows && o.appointment.time == tm
  {
    var r := OwnedTimes(rows);
    forall tm | tm in r ensures exists o :: o in rows && o.appointment.time == tm {
      var i :| 0 <= i < |r| && r[i] == tm;
      assert rows[i] in rows;
    }
    forall tm | exists o :: o in rows && o.appointment.time == tm ensures tm in r {
      var o :| o in rows && o.appointment.time == tm;
      var i :| 0 <= i < |rows| && rows[i] == o;
      assert r[i] == tm;
    }
  }

  /** Sorting keeps the same rows. */
  lemma SortMembers<T>(s: seq<T>, key: T -> Sorting.Key)
    ensures forall x :: x in Sorting.SortOn(s, key) <==> x in s
  {
    var r := Sorting.SortOn(s, key);
    forall x ensures x in r <==> x in s {
      assert x in r <==> x in multiset(r);
      assert x in s <==> x in multiset(s);
    }
  }

  /** The opened times of a date are the times of its slots. */
  lemma OpenTimesMembers(t: Tables, d: Date)
    ensures forall tm :: tm in OpenTimes(t, d) <==> HasSlot(t, d, tm)
  {
    var p := (s: Slot) => s.date == d;
    var f := Seqs.Filter(t.slots, p);
    Seqs.FilterMembers(t.slots, p);
    SortMembers(f, TimeKey);
    SlotTimesMembers(Sorting.SortOn(f, TimeKey));
    forall tm ensures tm in OpenTimes(t, d) <==> HasSlot(t, d, tm) {
      if HasSlot(t, d, tm) {
        assert Slot(d, tm) in Sorting.SortOn(f, TimeKey);
      }
    }
  }

  /** The reserved times of a date are those of its non-cancelled appointments. */
  lemma ReservedTimesMembers(t: Tables, d: Date)
    ensures forall tm :: tm in ReservedTimes(t, d) <==> Booked(t, d, tm)
  {
    var p := (a: Appointment) => a.date == d && a.status != Cancelled;
    Seqs.FilterMembers(t.appointments, p);
    AppointmentTimesMembers(Seqs.Filter(t.appointments, p));
  }

  /** Opened times come out in ascending order. */
  lemma OpenTimesSorted(t: Tables, d: Date)
    ensures forall i, j :: 0 <= i < j < |OpenTimes(t, d)| ==> OpenTimes(t, d)[i] <= OpenTimes(t, d)[j]
  {
    var sorted := Sorting.SortOn(Seqs.Filter(t.slots, (s: Slot) => s.date == d), TimeKey);
    forall i, j | 0 <= i < j < |sorted| ensures sorted[i].time <= sorted[j].time {
      assert Sorting.KeyLe(TimeKey(sorted[i]), TimeKey(sorted[j]));
    }
  }

  /** `GET /api/available-slots/:date`: a time is listed exactly when a slot is open for
      it and no non-cancelled appointment holds it; the list is ascending and keeps the
      order of the opened times. */
  lemma {:induction false} FreeSlotsSpec(t: Tables, d: Date)
    ensures forall tm :: tm in FreeSlots(t, d) <==> HasSlot(t, d, tm) && !Booked(t, d, tm)
    ensures forall i, j :: 0 <= i < j < |FreeSlots(t, d)| ==> FreeSlots(t, d)[i] <= FreeSlots(t, d)[j]
    ensures Seqs.IsSubsequence(FreeSlots(t, d), OpenTimes(t, d))
  {
    var reserved := ReservedTimes(t, d);
    var p := (tm: Time) => tm !in reserved;
    OpenTimesMembers(t, d);
    ReservedTimesMembers(t, d);
    Seqs.FilterMembers(OpenTimes(t, d), p);
    OpenTimesSorted(t, d);
    Seqs.FilterPairwise(OpenTimes(t, d), p, (x: Time, y: Time) => x <= y);
    Seqs.FilterIsSubsequence(OpenTimes(t, d), p);
  }

  /** The owners of one appointment in the join. */
  lemma {:induction false} OwnerRowsComplete(a: Appointment, users: seq<User>, u: User)
    requires u in users && u.id == a.userId
    ensures Owned(a, u) in OwnerRows(a, users)
  {
    if users[0] != u {
      OwnerRowsComplete(a, users[1..], u);
    }
  }

  /** Every appointment whose owner exists appears in the join. */
  lemma {:induction false} JoinComplete(apps: seq<Appointment>, users: seq<User>, a: Appointment, u: User)
    requires a in apps && u in users && u.id == a.userId
    ensures Owned(a, u) in Join(apps, users)
  {
    if apps[0] == a {
      OwnerRowsComplete(a, users, u);
    } else {
      JoinComplete(apps[1..], users, a, u);
    }
  }

  /** `GET /api/admin/slots/:date` lists the same available times as the customer
      endpoint, because the foreign key gives every appointment its user in the join. */
  lemma {:induction false} AdminAvailableAgrees(t: Tables, d: Date)
    requires Valid(t)
    ensures AdminAvailable(t, d) == FreeSlots(t, d)
  {
    var p := (a: Appointment) => a.date == d && a.status != Cancelled;
    var f := Seqs.Filter(t.appointments, p);
    var joined := Join(f, t.users);
    var booked := OwnedTimes(AdminBooked(t, d));
    var reserved := ReservedTimes(t, d);
    Seqs.FilterMembers(t.appointments, p);
    SortMembers(joined, OwnedTimeKey);
    OwnedTimesMembers(AdminBooked(t, d));
    ReservedTimesMembers(t, d);
    forall tm ensures (tm !in booked) == (tm !in reserved) {
      if tm in reserved {
        var a :| a in t.appointments && a.date == d && a.time == tm && a.status != Cancelled;
        var u :| u in t.users && u.id == a.userId;
        JoinComplete(f, t.users, a, u);
        assert Owned(a, u) in AdminBooked(t, d);
      }
    }
    Seqs.FilterExt(OpenTimes(t, d), (tm: Time) => tm !in booked, (tm: Time) => tm !in reserved);
  }

  /** The booked rows of the admin view: non-cancelled appointments of the date with their
      users, by ascending time. */
  lemma AdminBookedSpec(t: Tables, d: Date)
    requires Valid(t)
    ensures forall o :: o in AdminBooked(t, d) <==>
              o.appointment in t.appointments && o.appointment.date == d && o.appointment.status != Cancelled
              && o.owner in t.users && o.owner.id == o.appointment.userId
    ensures forall i, j :: 0 <= i < j < |AdminBooked(t, d)| ==>
              AdminBooked(t, d)[i].appointment.time <= AdminBooked(t, d)[j].appointment.time
  {
    var p := (a: Appointment) => a.date == d && a.status != Cancelled;
    var f := Seqs.Filter(t.appointments, p);
    Seqs.FilterMembers(t.appointments, p);
    SortMembers(Join(f, t.users), OwnedTimeKey);
    forall o: Owned | o.appointment in t.appointments && o.appointment.date == d && o.appointment.status != Cancelled
               && o.owner in t.users && o.owner.id == o.appointment.userId
      ensures o in AdminBooked(t, d)
    {
      JoinComplete(f, t.users, o.appointment, o.owner);
    }
    var b := AdminBooked(t, d);
    forall i, j | 0 <= i < j < |b| ensures b[i].appointment.time <= b[j].appointment.time {
      assert Sorting.KeyLe(OwnedTimeKey(b[i]), OwnedTimeKey(b[j]));
    }
  }

  /** `GET /api/user/appointments`: exactly the token user's appointments, newest first. */
  lemma UserAppointmentsSpec(t: Tables, c: Claim)
    ensures var rows := UserAppointments(t, Some(c)).value;
            && (forall a :: a in rows <==> a in t.appointments && a.userId == c.id)
            && multiset(rows) == multiset(Seqs.Filter(t.appointments, (a: Appointment) => a.userId == c.id))
            && (forall i, j :: 0 <= i < j < |rows| ==>
                  rows[i].date > rows[j].date || (rows[i].date == rows[j].date && rows[i].time >= rows[j].time))
  {
    var p := (a: Appointment) => a.userId == c.id;
    Seqs.FilterMembers(t.appointments, p);
    SortMembers(Seqs.Filter(t.appointments, p), NewestFirst);
    var rows := UserAppointments(t, Some(c)).value;
    forall i, j | 0 <= i < j < |rows|
      ensures rows[i].date > rows[j].date || (rows[i].date == rows[j].date && rows[i].time >= rows[j].time)
    {
      assert Sorting.KeyLe(NewestFirst(rows[i]), NewestFirst(rows[j]));
    }
  }

  /** `GET /api/admin/appointments`: exactly the joined rows that match the optional date
      and name search, oldest first. */
  lemma AdminAppointmentsSpec(t: Tables, admin: Claim, date: Option<Date>, search: string)
    requires Valid(t) && admin.role == AdminRole
    ensures var rows := AdminAppointments(t, Some(admin), date, search).rows;
            && (forall o :: o in rows <==>
                  o.appointment in t.appointments && o.owner in t.users && o.owner.id == o.appointment.userId
                  && AdminMatches(o, date, search))
            && (forall i, j :: 0 <= i < j < |rows| ==>
                  Sorting.KeyLe(OldestFirst(rows[i]), OldestFirst(rows[j])))
  {
    var joined := Join(t.appointments, t.users);
    var p := (o: Owned) => AdminMatches(o, date, search);
    Seqs.FilterMembers(joined, p);
    SortMembers(Seqs.Filter(joined, p), OldestFirst);
    forall o: Owned | o.appointment in t.appointments && o.owner in t.users && o.owner.id == o.appointment.userId
      ensures o in joined
    {
      JoinComplete(t.appointments, t.users, o.appointment, o.owner);
    }
  }

  /** Without a date and a search, every appointment is listed with its user. */
  lemma AdminAppointmentsUnfiltered(t: Tables, admin: Claim, a: Appointment)
    requires Valid(t) && admin.role == AdminRole && a in t.appointments
    ensures exists o :: o in AdminAppointments(t, Some(admin), None, "").rows && o.appointment == a
  {
    var u :| u in t.users && u.id == a.userId;
    AdminAppointmentsSpec(t, admin, None, "");
    assert Owned(a, u) in AdminAppointments(t, Some(admin), None, "").rows;
  }
}
