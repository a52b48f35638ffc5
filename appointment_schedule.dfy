/** The administrator's schedule, `src/components/AppointmentSchedule.jsx`: the loaded
    appointments split into upcoming and past ones by comparing their date and time with
    the current instant. */
module AppointmentSchedule {
  import opened Options
  import Seqs

  /** A row of `GET /api/admin/appointments` as the schedule reads it. */
  datatype Row = Row(id: int, date: string, time: string, status: string)

  /** `new Date(text)` as milliseconds since the epoch, or `None` for an Invalid Date; the
      host's date parser and time zone are not part of this model, so it is a parameter. */
  type Parser = string -> Option<int>

  /** `${date}T${time}` */
  function DateTimeText(a: Row): (r: string)
    ensures |r| == |a.date| + 1 + |a.time|
    ensures r[..|a.date|] == a.date && r[|a.date|] == 'T' && r[|a.date| + 1..] == a.time
  {
    a.date + "T" + a.time
  }

  /** `isAppointmentPast`: the parsed instant is strictly before `now`. An Invalid Date
      is NaN, and every comparison with NaN is false. */
  predicate IsPast(a: Row, parse: Parser, now: int)
  {
    match parse(DateTimeText(a))
    case None => false
    case Some(instant) => instant < now
  }

  /** `upcomingAppointments` */
  function Upcoming(appointments: seq<Row>, parse: Parser, now: int): (r: seq<Row>)
    ensures forall k :: 0 <= k < |r| ==> !IsPast(r[k], parse, now)
  {
    Seqs.Filter(appointments, (a: Row) => !IsPast(a, parse, now))
  }

  /** `pastAppointments` */
  function Past(appointments: seq<Row>, parse: Parser, now: int): (r: seq<Row>)
    ensures forall k :: 0 <= k < |r| ==> IsPast(r[k], parse, now)
  {
    Seqs.Filter(appointments, (a: Row) => IsPast(a, parse, now))
  }

  /** The two lists come from two `filter` passes, and each reads the clock anew: the
      upcoming pass at `nowUp`, the later past pass at `nowPast`. Every appointment is in
      at least one list, and in both exactly when its instant falls between the two
      readings. Both lists keep the input order. When the two readings agree, every
      appointment is in exactly one list, and together they hold each row as often as the
      input does. */
  lemma {:induction false} PartitionSpec(appointments: seq<Row>, parse: Parser, nowUp: int, nowPast: int)
    requires nowUp <= nowPast
    ensures var up := Upcoming(appointments, parse, nowUp);
            var past := Past(appointments, parse, nowPast);
            && (forall a :: a in appointments ==> a in up || a in past)
            && (forall a :: a in appointments ==>
                  (a in up && a in past <==>
                     parse(DateTimeText(a)).Some? && nowUp <= parse(DateTimeText(a)).value < nowPast))
            && (forall a :: a in up || a in past ==> a in appointments)
            && Seqs.IsSubsequence(up, appointments)
            && Seqs.IsSubsequence(past, appointments)
    ensures nowUp == nowPast ==>
              var up := Upcoming(appointments, parse, nowUp);
              var past := Past(appointments, parse, nowPast);
              && multiset(up) + multiset(past) == multiset(appointments)
              && |up| + |past| == |appointments|
              && (forall a :: a in appointments ==> (a in up <==> a !in past))
  {
    var p := (a: Row) => !IsPast(a, parse, nowUp);
    var q := (a: Row) => IsPast(a, parse, nowPast);
    if nowUp == nowPast {
      Seqs.FilterPartition(appointments, p, q);
    }
    Seqs.FilterMembers(appointments, p);
    Seqs.FilterMembers(appointments, q);
    Seqs.FilterIsSubsequence(appointments, p);
    Seqs.FilterIsSubsequence(appointments, q);
  }

  /** An appointment at exactly the current instant is still upcoming. */
  lemma AtNowIsUpcoming(appointments: seq<Row>, a: Row, parse: Parser, now: int)
    requires a in appointments && parse(DateTimeText(a)) == Some(now)
    ensures a in Upcoming(appointments, parse, now) && a !in Past(appointments, parse, now)
  {
    Seqs.FilterMembers(appointments, (b: Row) => !IsPast(b, parse, now));
  }

  /** An appointment whose date and time do not parse is listed as upcoming, whatever the
      current instant. */
  lemma InvalidIsUpcoming(appointments: seq<Row>, a: Row, parse: Parser, now: int)
    requires a in appointments && parse(DateTimeText(a)).None?
    ensures a in Upcoming(appointments, parse, now) && a !in Past(appointments, parse, now)
  {
    Seqs.FilterMembers(appointments, (b: Row) => !IsPast(b, parse, now));
  }

  /** As time goes on an appointment moves from upcoming to past and never back: the past
      list at a later instant holds every row of the earlier one. */
  lemma PastGrows(appointments: seq<Row>, parse: Parser, now: int, later: int)
    requires now <= later
    ensures forall a :: a in Past(appointments, parse, now) ==> a in Past(appointments, parse, later)
    ensures forall a :: a in Upcoming(appointments, parse, later) ==> a in Upcoming(appointments, parse, now)
  {
    Seqs.FilterMembers(appointments, (b: Row) => IsPast(b, parse, now));
    Seqs.FilterMembers(appointments, (b: Row) => IsPast(b, parse, later));
    Seqs.FilterMembers(appointments, (b: Row) => !IsPast(b, parse, now));
    Seqs.FilterMembers(appointments, (b: Row) => !IsPast(b, parse, later));
  }
}
