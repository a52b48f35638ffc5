/** The month view of `src/components/Calendar.jsx`: the grid of days for a month, the
    `YYYY-MM-DD` keys the server's date lists are matched against, and which days a
    click may select. Dates are local calendar days at midnight, as the component's
    `new Date(year, month, day)` makes them; months count from 0, as `getMonth()` does. */
module Calendar {
  import opened Options
  import Strings

  datatype CalDate = CalDate(year: int, month: nat, day: nat)

  /** `new Date(y, ...)` reads a year from 0 to 99 as 1900 + y. */
  function JsYear(y: int): (r: int)
    ensures r == y || (0 <= y <= 99 && r == 1900 + y)
  {
    if 0 <= y <= 99 then 1900 + y else y
  }

  /** The Gregorian leap-year rule of JavaScript's proleptic calendar. */
  predicate IsLeap(y: int)
  {
    (y % 4 == 0 && y % 100 != 0) || y % 400 == 0
  }

  /** `new Date(y, m + 1, 0).getDate()`: the last day of month `m` of year `y`. */
  function DaysInMonth(y: int, m: nat): (n: nat)
    requires m < 12
    ensures 28 <= n <= 31
    ensures m == 1 ==> (n == 29 <==> IsLeap(y))
  {
    if m == 1 then (if IsLeap(y) then 29 else 28)
    else if m == 3 || m == 5 || m == 8 || m == 10 then 30
    else 31
  }

  /** Days from 1 January of year 1 to 1 January of year `y`. */
  function DaysBeforeYear(y: int): int
  {
    var p := y - 1;
    365 * p + p / 4 - p / 100 + p / 400
  }

  /** Days of the year before the first of month `m`; month 12 stands for the year's end. */
  function DaysBeforeMonth(y: int, m: nat): nat
    requires m <= 12
  {
    [0, 31, 59, 90, 120, 151, 181, 212, 243, 273, 304, 334, 365][m]
      + (if m >= 2 && IsLeap(y) then 1 else 0)
  }

  /** Days since 1 January of year 1, which was a Monday. */
  function DayNumber(y: int, m: nat, d: nat): int
    requires m < 12
  {
    DaysBeforeYear(y) + DaysBeforeMonth(y, m) + d - 1
  }

  /** `getDay()`: 0 for Sunday up to 6 for Saturday. */
  function Weekday(y: int, m: nat, d: nat): (w: nat)
    requires m < 12
    ensures w < 7
  {
    (DayNumber(y, m, d) + 1) % 7
  }

  /** `new Date(year, month, 1).getDay()`: the number of empty cells before day 1. */
  function FirstWeekday(year: int, month: nat): nat
    requires month < 12
  {
    Weekday(JsYear(year), month, 1)
  }

  /** `getDaysInMonth`: `startingDayOfWeek` empty cells, then one date per day of the
      month; the grid fits six rows of seven. */
  method GetDaysInMonth(year: int, month: nat) returns (days: seq<Option<CalDate>>)
    requires month < 12
    ensures |days| == FirstWeekday(year, month) + DaysInMonth(JsYear(year), month) <= 37
    ensures forall i :: 0 <= i < FirstWeekday(year, month) ==> days[i] == None
    ensures forall i :: FirstWeekday(year, month) <= i < |days| ==>
              days[i] == Some(CalDate(JsYear(year), month, i - FirstWeekday(year, month) + 1))
  {
    var firstDay := JsYear(year);
    var daysInMonth := DaysInMonth(firstDay, month);
    var startingDayOfWeek := Weekday(firstDay, month, 1);
    days := [];
    var i := 0;
    while i < startingDayOfWeek
      invariant 0 <= i <= startingDayOfWeek
      invariant |days| == i
      invariant forall k :: 0 <= k < i ==> days[k] == None
    {
      days := days + [None];
      i := i + 1;
    }
    var day := 1;
    while day <= daysInMonth
      invariant 1 <= day <= daysInMonth + 1
      invariant |days| == startingDayOfWeek + day - 1
      invariant forall k :: 0 <= k < startingDayOfWeek ==> days[k] == None
      invariant forall k :: startingDayOfWeek <= k < |days| ==>
                  days[k] == Some(CalDate(firstDay, month, k - startingDayOfWeek + 1))
    {
      days := days + [Some(CalDate(firstDay, month, day))];
      day := day + 1;
    }
  }

  /** Going from `p` to `p + 1`, `p / k` grows by one exactly when `k` divides `p + 1`. */
  lemma DivStep(p: int, k: int, q: int, r: int)
    requires k > 0 && p == k * q + r && 0 <= r < k
    ensures (p + 1) / k - p / k == if (p + 1) % k == 0 then 1 else 0
  {
    DivUnique(p, k, q, r);
    if r + 1 < k {
      DivUnique(p + 1, k, q, r + 1);
    } else {
      DivUnique(p + 1, k, q + 1, 0);
    }
  }

  /** The quotient and remainder of `n` by `k` are the only such pair. */
  lemma DivUnique(n: int, k: int, q: int, r: int)
    requires k > 0 && n == k * q + r && 0 <= r < k
    ensures n / k == q && n % k == r
  {
    var q', r' := n / k, n % k;
    if q' < q {
      MulMono(k, q' + 1, q);
    } else if q < q' {
      MulMono(k, q + 1, q');
    }
  }

  lemma {:induction false} MulMono(k: nat, a: int, b: int)
    requires a <= b
    ensures k * a <= k * b
    decreases b - a
  {
    if a < b {
      MulMono(k, a + 1, b);
      assert k * (a + 1) == k * a + k;
    }
  }

  /** A year has 366 days when it is a leap year and 365 otherwise. */
  lemma YearLength(y: int)
    ensures DaysBeforeYear(y + 1) - DaysBeforeYear(y) == if IsLeap(y) then 366 else 365
  {
    var p := y - 1;
    var a, b, c := y / 4 - p / 4, y / 100 - p / 100, y / 400 - p / 400;
    DivStep(p, 4, p / 4, p % 4);
    DivStep(p, 100, p / 100, p % 100);
    DivStep(p, 400, p / 400, p % 400);
    assert DaysBeforeYear(y + 1) - DaysBeforeYear(y) == 365 + a - b + c;
    LeapCount(y, a, b, c);
  }

  lemma LeapCount(y: int, a: int, b: int, c: int)
    requires a == (if y % 4 == 0 then 1 else 0)
    requires b == (if y % 100 == 0 then 1 else 0)
    requires c == (if y % 400 == 0 then 1 else 0)
    ensures a - b + c == if IsLeap(y) then 1 else 0
  {
    if y % 100 == 0 {
      DivUnique(y, 4, 25 * (y / 100), 0);
    }
    if y % 400 == 0 {
      DivUnique(y, 100, 4 * (y / 400), 0);
    }
  }

  /** The months of a year follow each other without gaps and add up to the year. */
  lemma MonthsTile(y: int, m: nat)
    requires m < 12
    ensures DaysBeforeMonth(y, m + 1) == DaysBeforeMonth(y, m) + DaysInMonth(y, m)
    ensures DaysBeforeMonth(y, 12) == if IsLeap(y) then 366 else 365
  {
  }

  /** Consecutive grids line up: the month after `m` starts on the weekday after the last
      day of `m`, across the end of a year too. */
  lemma NextMonthWeekday(y: int, m: nat)
    requires m < 12
    ensures m < 11 ==> Weekday(y, m + 1, 1) == (Weekday(y, m, 1) + DaysInMonth(y, m)) % 7
    ensures m == 11 ==> Weekday(y + 1, 0, 1) == (Weekday(y, m, 1) + DaysInMonth(y, m)) % 7
  {
    MonthsTile(y, m);
    var n := DayNumber(y, m, 1) + 1;
    if m == 11 {
      YearLength(y);
      assert DayNumber(y + 1, 0, 1) + 1 == n + DaysInMonth(y, m);
    } else {
      assert DayNumber(y, m + 1, 1) + 1 == n + DaysInMonth(y, m);
    }
    ModShift(n, DaysInMonth(y, m));
  }

  lemma ModShift(n: int, d: int)
    ensures (n + d) % 7 == (n % 7 + d) % 7
  {
    DivUnique(n, 7, n / 7, n % 7);
    var q := (n % 7 + d) / 7;
    var r := (n % 7 + d) % 7;
    DivUnique(n % 7 + d, 7, q, r);
    DivUnique(n + d, 7, n / 7 + q, r);
  }

  /** 1 January 2024 fell on a Monday. */
  lemma WeekdayAnchor()
    ensures Weekday(2024, 0, 1) == 1
  {
  }

  /** `String(y)` for the year of a date, which JavaScript writes with a minus sign when
      negative. */
  function YearString(y: int): string
  {
    if y < 0 then "-" + Strings.NatToString(-y) else Strings.NatToString(y)
  }

  /** `${year}-${month}-${day}` with the 1-based month and the day padded to two digits. */
  function DateKey(d: CalDate): string
  {
    YearString(d.year) + "-" + Strings.Pad2(d.month + 1) + "-" + Strings.Pad2(d.day)
  }

  /** A key is the year's digits, a dash, two digits of month, a dash, two digits of day. */
  lemma DateKeyParts(d: CalDate)
    requires d.year >= 0 && d.month < 12 && d.day < 100
    ensures var y := Strings.NatToString(d.year);
            var k := DateKey(d);
            && |k| == |y| + 6 && k[..|y|] == y
            && k[|y| + 1..|y| + 3] == Strings.Pad2(d.month + 1) && k[|y| + 4..] == Strings.Pad2(d.day)
  {
    Strings.Pad2Parse(d.month + 1);
    Strings.Pad2Parse(d.day);
  }

  /** Two calendar dates with a non-negative year have the same key only when they are the
      same date. */
  lemma DateKeyInjective(a: CalDate, b: CalDate)
    requires a.year >= 0 && a.month < 12 && 1 <= a.day <= 31
    requires b.year >= 0 && b.month < 12 && 1 <= b.day <= 31
    requires DateKey(a) == DateKey(b)
    ensures a == b
  {
    var ya, yb := Strings.NatToString(a.year), Strings.NatToString(b.year);
    DateKeyParts(a);
    DateKeyParts(b);
    assert ya == yb;
    Strings.ParseNatToString(a.year);
    Strings.ParseNatToString(b.year);
    Strings.Pad2Parse(a.month + 1);
    Strings.Pad2Parse(b.month + 1);
    Strings.Pad2Parse(a.day);
    Strings.Pad2Parse(b.day);
  }

  /** `isDateAvailable`: the server lists the date's key. */
  predicate IsDateAvailable(date: Option<CalDate>, availableDates: seq<string>)
  {
    date.Some? && DateKey(date.value) in availableDates
  }

  /** `hasSlots`: only in the administrator's view, the date's key is among those with
      slots. */
  predicate HasSlots(date: Option<CalDate>, isAdmin: bool, datesWithSlots: seq<string>)
  {
    date.Some? && isAdmin && DateKey(date.value) in datesWithSlots
  }

  /** The order of midnights: earlier year, then earlier month, then earlier day. */
  predicate Before(a: CalDate, b: CalDate)
  {
    a.year < b.year || (a.year == b.year && (a.month < b.month || (a.month == b.month && a.day < b.day)))
  }

  /** `isDateInPast`: the date's midnight is before today's, so today is not past. */
  predicate IsDateInPast(date: Option<CalDate>, today: CalDate)
  {
    date.Some? && Before(date.value, today)
  }

  /** The calendar's selection state and the dates it passed to `onDateSelect`. */
  class CalendarView {
    const isAdmin: bool
    const datesWithSlots: seq<string>
    var availableDates: seq<string>
    var selectedDate: Option<CalDate>
    /** The arguments of the `onDateSelect` calls so far, in order. */
    var selections: seq<CalDate>

    constructor (isAdmin: bool, datesWithSlots: seq<string>)
      ensures this.isAdmin == isAdmin && this.datesWithSlots == datesWithSlots
      ensures availableDates == [] && selectedDate == None && selections == []
    {
      this.isAdmin := isAdmin;
      this.datesWithSlots := datesWithSlots;
      availableDates := [];
      selectedDate := None;
      selections := [];
    }

    /** A click on `date` is taken: any day for the administrator, otherwise a listed day
        that is not past. */
    predicate Selectable(date: Option<CalDate>, today: CalDate)
      reads this
    {
      date.Some? && (isAdmin || (IsDateAvailable(date, availableDates) && !IsDateInPast(date, today)))
    }

    /** `disabled={!isAdmin && (!isAvailable || isPast)}` on a day's button. */
    predicate Disabled(date: CalDate, today: CalDate)
      reads this
    {
      !isAdmin && (!IsDateAvailable(Some(date), availableDates) || IsDateInPast(Some(date), today))
    }

    /** `handleDateClick`: a taken click selects the date and reports it; any other click
        changes nothing. */
    method HandleDateClick(date: Option<CalDate>, today: CalDate)
      modifies this
      ensures availableDates == old(availableDates)
      ensures Selectable(date, today) ==> selectedDate == date && selections == old(selections) + [date.value]
      ensures !Selectable(date, today) ==> selectedDate == old(selectedDate) && selections == old(selections)
    {
      if date.None? {
        return;
      }
      if isAdmin {
        selectedDate := date;
        selections := selections + [date.value];
      } else {
        if IsDateAvailable(date, availableDates) && !IsDateInPast(date, today) {
          selectedDate := date;
          selections := selections + [date.value];
        }
      }
    }
  }

  /** A day's button is disabled exactly when a click on it would be ignored; the
      administrator's buttons never are, and today is never past. */
  lemma DisabledIffIgnored(view: CalendarView, date: CalDate, today: CalDate)
    ensures view.Disabled(date, today) <==> !view.Selectable(Some(date), today)
    ensures view.isAdmin ==> !view.Disabled(date, today)
    ensures !IsDateInPast(Some(today), today)
  {
  }

  /** Outside the administrator's view no day shows slots. */
  lemma HasSlotsAdminOnly(date: Option<CalDate>, datesWithSlots: seq<string>)
    ensures !HasSlots(date, false, datesWithSlots)
  {
  }
}
