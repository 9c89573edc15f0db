/** Attendance: the verdict on one day's record, the two independent roll-ups of many records, and what
    a later change of the schedule leaves alone. Times are nanoseconds on the server's local clock. */
module Attendance {
  import opened Basics

  const MINUTE := 60_000_000_000
  const DAY := 1440 * MINUTE

  /** `startMin` to `workday` are the schedule as it was when the record was written. */
  datatype Record = Record(user: int, day: int, checkIn: int, checkOut: Option<int>,
                           startMin: int, endMin: int, grace: int, workday: bool, review: bool)

  datatype Verdict = Verdict(late: bool, lateMinutes: int, early: bool, earlyMinutes: int, worked: int)

  function DayOf(t: int): int {
    t / DAY
  }

  lemma DayStarts(t: int)
    ensures t - t % DAY == DayOf(t) * DAY
  {
  }

  /** Whole minutes of a duration, cut towards zero. */
  function Minutes(d: int): int {
    if d >= 0 then d / MINUTE else -((-d) / MINUTE)
  }

  function Judge(r: Record): (v: Verdict)
    ensures v.worked >= 0 && (v.late || v.early || v.worked > 0 ==> r.workday)
  {
    if !r.workday then Verdict(false, 0, false, 0, 0)
    else
      var start := DayOf(r.checkIn) * DAY + r.startMin * MINUTE;
      var late := r.checkIn > start + r.grace * MINUTE;
      var lateMinutes := if late then Minutes(r.checkIn - start) else 0;
      match r.checkOut
      case None => Verdict(late, lateMinutes, false, 0, 0)
      case Some(out) =>
        var end := DayOf(r.checkIn) * DAY + r.endMin * MINUTE;
        var worked := Minutes(out - r.checkIn);
        Verdict(late, lateMinutes, out < end, if out < end then Minutes(end - out) else 0, if worked < 0 then 0 else worked)
  }

  // ---------- what the verdict says ----------

  /** `m` is midnight of the check-in's day. */
  predicate IsMidnight(m: int, t: int) {
    m % 86_400_000_000_000 == 0 && m <= t < m + 86_400_000_000_000
  }

  lemma MidnightIs(m: int, t: int)
    requires IsMidnight(m, t)
    ensures m == DayOf(t) * DAY
  {
    var k := m / DAY;
    assert m == k * DAY;
    assert t / DAY == k;
  }

  /** `n` is a duration in whole minutes, the rest dropped. */
  predicate WholeMinutes(n: int, d: int) {
    var minute := 60_000_000_000;
    if d >= 0 then n * minute <= d < (n + 1) * minute else (n - 1) * minute < d <= n * minute
  }

  lemma MinutesAreWhole(d: int)
    ensures WholeMinutes(Minutes(d), d)
  {
  }

  lemma MinutesGrow(d: int, e: int)
    requires d <= e
    ensures Minutes(d) <= Minutes(e)
  {
    MinutesAreWhole(d);
    MinutesAreWhole(e);
  }

  /** On a workday someone is late exactly past the start of work and the grace, and the minutes are counted
      from the start of work. */
  lemma LateIff(r: Record, m: int)
    requires IsMidnight(m, r.checkIn)
    ensures var v := Judge(r);
            && (v.late <==> r.workday && r.checkIn > m + (r.startMin + r.grace) * MINUTE)
            && (if v.late then WholeMinutes(v.lateMinutes, r.checkIn - (m + r.startMin * MINUTE)) else v.lateMinutes == 0)
  {
    MidnightIs(m, r.checkIn);
    MinutesAreWhole(r.checkIn - (m + r.startMin * MINUTE));
  }

  /** Someone leaves early exactly by checking out short of the end of work, by the minutes missing. */
  lemma EarlyIff(r: Record, m: int)
    requires IsMidnight(m, r.checkIn)
    ensures var v := Judge(r);
            && (v.early <==> r.workday && r.checkOut.Some? && r.checkOut.value < m + r.endMin * MINUTE)
            && (if v.early then WholeMinutes(v.earlyMinutes, m + r.endMin * MINUTE - r.checkOut.value) else v.earlyMinutes == 0)
  {
    MidnightIs(m, r.checkIn);
    if r.checkOut.Some? { MinutesAreWhole(m + r.endMin * MINUTE - r.checkOut.value); }
  }

  /** On a workday the time worked is the time from check-in to check-out, and never negative. */
  lemma WorkedIs(r: Record)
    ensures var v := Judge(r);
            if r.workday && r.checkOut.Some? && r.checkOut.value >= r.checkIn
            then WholeMinutes(v.worked, r.checkOut.value - r.checkIn) else v.worked == 0
  {
    if r.checkOut.Some? { MinutesAreWhole(r.checkOut.value - r.checkIn); }
  }

  /** Arriving later on the same day never makes a late record punctual or less late. */
  lemma ArrivingLaterIsLater(r: Record, t: int)
    requires r.checkIn <= t && DayOf(t) == DayOf(r.checkIn) && r.grace >= 0
    ensures var (v, w) := (Judge(r), Judge(r.(checkIn := t)));
            (v.late ==> w.late) && v.lateMinutes <= w.lateMinutes
  {
    var start := DayOf(t) * DAY + r.startMin * MINUTE;
    MinutesGrow(r.checkIn - start, t - start);
    if t > start + r.grace * MINUTE { MinutesGrow(0, t - start); }
  }

  /** Leaving at or after the end of work is never early; leaving later never adds early minutes, and never
      takes away from the time worked. */
  lemma LeavingLaterIsNoEarlier(r: Record, out: int)
    requires r.checkOut.Some? && r.checkOut.value <= out
    ensures var (v, w) := (Judge(r), Judge(r.(checkOut := Some(out))));
            (w.early ==> v.early) && w.earlyMinutes <= v.earlyMinutes && v.worked <= w.worked
    ensures r.checkOut.value >= DayOf(r.checkIn) * DAY + r.endMin * MINUTE ==> !Judge(r).early
  {
    var end := DayOf(r.checkIn) * DAY + r.endMin * MINUTE;
    MinutesGrow(end - out, end - r.checkOut.value);
    MinutesGrow(r.checkOut.value - r.checkIn, out - r.checkIn);
    if r.checkOut.value < end { MinutesGrow(0, end - r.checkOut.value); }
  }

  /** Between check-in and the end of work, what is worked and what is missing make up the whole, but for the
      minute that two roundings can lose. */
  lemma WorkedAndEarlyMakeTheDay(r: Record, m: int)
    requires IsMidnight(m, r.checkIn) && r.workday && r.checkOut.Some?
    requires r.checkIn <= r.checkOut.value <= m + r.endMin * MINUTE
    ensures var v := Judge(r); var whole := Minutes(m + r.endMin * MINUTE - r.checkIn);
            && (v.early <==> r.checkOut.value != m + r.endMin * MINUTE)
            && v.worked + v.earlyMinutes <= whole <= v.worked + v.earlyMinutes + 1
  {
    MidnightIs(m, r.checkIn);
    MinutesAreWhole(m + r.endMin * MINUTE - r.checkIn);
    MinutesAreWhole(m + r.endMin * MINUTE - r.checkOut.value);
    MinutesAreWhole(r.checkOut.value - r.checkIn);
  }

  /** Lateness is counted from the start of the day's work, so it is never less than the grace given. */
  lemma LateByMoreThanTheGrace(r: Record)
    requires Judge(r).late && r.grace >= 0
    ensures Judge(r).lateMinutes >= r.grace
  {
    var d := r.checkIn - (DayOf(r.checkIn) * DAY + r.startMin * MINUTE);
    assert d > r.grace * MINUTE >= 0;
  }

  /** No time worked is shown for an open record and for a stay under a minute, but also for a whole
      day's work done outside the working week. */
  lemma WorkedIsZeroIff(r: Record)
    ensures Judge(r).worked == 0 <==> r.checkOut.None? || r.checkOut.value - r.checkIn < MINUTE || !r.workday
  {
  }

  /** A stored record as the queries return it, with the derived fields still to be filled in. */
  class AttendanceRow {
    const record: Record
    var isLate: bool
    var lateMinutes: int
    var isEarlyLeave: bool
    var earlyLeaveMinutes: int
    var workedMinutes: int

    constructor (record: Record)
      ensures this.record == record && View() == Verdict(false, 0, false, 0, 0)
    {
      this.record := record;
      isLate, lateMinutes, isEarlyLeave, earlyLeaveMinutes, workedMinutes := false, 0, false, 0, 0;
    }

    function View(): Verdict
      reads this
    {
      Verdict(isLate, lateMinutes, isEarlyLeave, earlyLeaveMinutes, workedMinutes)
    }

    method ComputeStatus()
      requires View() == Verdict(false, 0, false, 0, 0)
      modifies this
      ensures View() == Judge(record)
    {
      if !record.workday { return; }
      var dayStart := record.checkIn - record.checkIn % DAY;
      DayStarts(record.checkIn);
      var expectedStart := dayStart + record.startMin * MINUTE;
      if record.checkIn > expectedStart + record.grace * MINUTE {
        isLate := true;
        lateMinutes := Minutes(record.checkIn - expectedStart);
      }
      if record.checkOut.Some? {
        var out := record.checkOut.value;
        workedMinutes := Minutes(out - record.checkIn);
        if workedMinutes < 0 {
          workedMinutes := 0;
        }
        var expectedEnd := dayStart + record.endMin * MINUTE;
        if out < expectedEnd {
          isEarlyLeave := true;
          earlyLeaveMinutes := Minutes(expectedEnd - out);
        }
      }
    }
  }

  // ---------- sums over records ----------

  datatype Sums = Sums(total: int, late: int, lateMinutes: int, early: int, earlyMinutes: int, review: int,
                       worked: int, workedDays: int, arrival: int)

  const NOTHING := Sums(0, 0, 0, 0, 0, 0, 0, 0, 0)

  function Plus(a: Sums, b: Sums): Sums {
    Sums(a.total + b.total, a.late + b.late, a.lateMinutes + b.lateMinutes, a.early + b.early,
         a.earlyMinutes + b.earlyMinutes, a.review + b.review, a.worked + b.worked,
         a.workedDays + b.workedDays, a.arrival + b.arrival)
  }

  function Bit(b: bool): int {
    if b then 1 else 0
  }

  function One(r: Record): Sums {
    var v := Judge(r);
    Sums(1, Bit(v.late), if v.late then v.lateMinutes else 0, Bit(v.early), if v.early then v.earlyMinutes else 0,
         Bit(r.review), v.worked, Bit(v.worked > 0), r.checkIn % DAY / MINUTE)
  }

  function SumsOf(rs: seq<Record>): Sums {
    if rs == [] then NOTHING else Plus(SumsOf(rs[..|rs| - 1]), One(rs[|rs| - 1]))
  }

  datatype Grouping = ByDay | ByUser

  function KeyOf(g: Grouping, r: Record): int {
    if g == ByDay then r.day else r.user
  }

  function Group(rs: seq<Record>, g: Grouping, k: int): seq<Record> {
    if rs == [] then []
    else
      var r := rs[|rs| - 1];
      Group(rs[..|rs| - 1], g, k) + if KeyOf(g, r) == k then [r] else []
  }

  function SumOver(keys: seq<int>, rs: seq<Record>, g: Grouping): Sums {
    if keys == [] then NOTHING
    else Plus(SumOver(keys[..|keys| - 1], rs, g), SumsOf(Group(rs, g, keys[|keys| - 1])))
  }

  /** What a group's sums become with one more record. */
  lemma GroupOneMore(rs: seq<Record>, r: Record, g: Grouping, k: int)
    ensures Group(rs + [r], g, k) == Group(rs, g, k) + if KeyOf(g, r) == k then [r] else []
    ensures SumsOf(Group(rs + [r], g, k)) ==
            if KeyOf(g, r) == k then Plus(SumsOf(Group(rs, g, k)), One(r)) else SumsOf(Group(rs, g, k))
  {
    assert (rs + [r])[..|rs|] == rs;
    var kept := Group(rs, g, k);
    assert (kept + [r])[..|kept|] == kept;
    assert kept + [] == kept;
  }

  lemma PlusSwaps(a: Sums, b: Sums, c: Sums)
    ensures Plus(Plus(a, b), c) == Plus(Plus(a, c), b) == Plus(a, Plus(b, c))
  {
  }

  lemma SumOverLast(front: seq<int>, k: int, rs: seq<Record>, g: Grouping)
    ensures SumOver(front + [k], rs, g) == Plus(SumOver(front, rs, g), SumsOf(Group(rs, g, k)))
  {
    assert (front + [k])[..|front|] == front;
  }

  lemma {:induction false} SumOverOneMore(keys: seq<int>, rs: seq<Record>, r: Record, g: Grouping, one: Sums)
    requires NoRepeats(keys) && one == One(r)
    ensures SumOver(keys, rs + [r], g) ==
            if KeyOf(g, r) in keys then Plus(SumOver(keys, rs, g), one) else SumOver(keys, rs, g)
  {
    if keys != [] {
      var front, k := keys[..|keys| - 1], keys[|keys| - 1];
      assert keys == front + [k];
      assert k !in front;
      SumOverOneMore(front, rs, r, g, one);
      SumOverLast(front, k, rs, g);
      SumOverLast(front, k, rs + [r], g);
      GroupOneMore(rs, r, g, k);
      PlusSwaps(SumOver(front, rs, g), SumsOf(Group(rs, g, k)), one);
    }
  }

  lemma {:induction false} SumOverNobody(keys: seq<int>, g: Grouping)
    ensures SumOver(keys, [], g) == NOTHING
  {
    if keys != [] { SumOverNobody(keys[..|keys| - 1], g); }
  }

  lemma SumsLast(front: seq<Record>, r: Record)
    ensures SumsOf(front + [r]) == Plus(SumsOf(front), One(r))
  {
    assert (front + [r])[..|front|] == front;
  }

  lemma OneMoreStillAddsUp(keys: seq<int>, front: seq<Record>, r: Record, g: Grouping)
    requires NoRepeats(keys) && KeyOf(g, r) in keys && SumOver(keys, front, g) == SumsOf(front)
    ensures SumOver(keys, front + [r], g) == SumsOf(front + [r])
  {
    var one := One(r);
    SumOverOneMore(keys, front, r, g, one);
    SumsLast(front, r);
  }

  /** Grouping loses nothing and counts nothing twice, whatever the grouping. */
  lemma {:induction false} GroupsAddUp(keys: seq<int>, rs: seq<Record>, g: Grouping)
    requires NoRepeats(keys) && forall i | 0 <= i < |rs| :: KeyOf(g, rs[i]) in keys
    ensures SumOver(keys, rs, g) == SumsOf(rs)
  {
    if rs == [] {
      SumOverNobody(keys, g);
    } else {
      var front, r := rs[..|rs| - 1], rs[|rs| - 1];
      assert rs == front + [r];
      GroupsAddUp(keys, front, g);
      OneMoreStillAddsUp(keys, front, r, g);
    }
  }

  lemma {:induction false} SumsWithout(rs: seq<Record>, j: nat)
    requires j < |rs|
    ensures SumsOf(rs) == Plus(SumsOf(rs[..j] + rs[j + 1..]), One(rs[j]))
  {
    var last := |rs| - 1;
    if j == last {
      assert rs[..j] + rs[j + 1..] == rs[..last];
    } else {
      var front, r := rs[..last], rs[last];
      SumsWithout(front, j);
      var without := front[..j] + front[j + 1..];
      assert rs[..j] + rs[j + 1..] == without + [r];
      SumsLast(without, r);
      PlusSwaps(SumsOf(without), One(rs[j]), One(r));
    }
  }

  lemma SameRest(a: seq<Record>, b: seq<Record>, j: nat)
    requires a != [] && multiset(a) == multiset(b) && j < |b| && b[j] == a[|a| - 1]
    ensures multiset(a[..|a| - 1]) == multiset(b[..j] + b[j + 1..])
  {
    assert a == a[..|a| - 1] + [b[j]];
    assert b == b[..j] + [b[j]] + b[j + 1..];
    assert multiset(a[..|a| - 1]) == multiset(a) - multiset{b[j]};
    assert multiset(b[..j] + b[j + 1..]) == multiset(b) - multiset{b[j]};
  }

  /** The order in which a query returns the records does not matter. */
  lemma {:induction false} SumsIgnoreOrder(a: seq<Record>, b: seq<Record>)
    requires multiset(a) == multiset(b)
    ensures SumsOf(a) == SumsOf(b)
    decreases |a|
  {
    if a == [] {
      assert |multiset(b)| == 0;
    } else {
      var front, r := a[..|a| - 1], a[|a| - 1];
      assert a == front + [r];
      assert r in multiset(b);
      var j :| 0 <= j < |b| && b[j] == r;
      SameRest(a, b, j);
      SumsIgnoreOrder(front, b[..j] + b[j + 1..]);
      SumsLast(front, r);
      SumsWithout(b, j);
    }
  }

  // ---------- the two roll-ups, as functions ----------

  /** Distinct values in order of first appearance. */
  function FirstSeen(xs: seq<int>): (ys: seq<int>)
    ensures NoRepeats(ys) && forall x :: x in ys <==> x in xs
  {
    if xs == [] then []
    else
      var front, x := FirstSeen(xs[..|xs| - 1]), xs[|xs| - 1];
      assert xs == xs[..|xs| - 1] + [x];
      if x in front then front else front + [x]
  }

  /** Of two values the one listed first was met first. */
  lemma {:induction false} FirstSeenInOrder(xs: seq<int>, i: nat, j: nat)
    requires i < j < |FirstSeen(xs)|
    ensures exists a :: 0 <= a < |xs| && xs[a] == FirstSeen(xs)[i] && FirstSeen(xs)[j] !in xs[..a + 1]
  {
    var front, ys := xs[..|xs| - 1], FirstSeen(xs);
    var seen := FirstSeen(front);
    if j < |seen| {
      FirstSeenInOrder(front, i, j);
      var a :| 0 <= a < |front| && front[a] == seen[i] && seen[j] !in front[..a + 1];
      assert xs[..a + 1] == front[..a + 1] && xs[a] == ys[i];
    } else {
      assert seen[i] in seen;
      var a :| 0 <= a < |front| && front[a] == seen[i];
      assert xs[..a + 1] == front[..a + 1] && xs[a] == ys[i];
      assert ys[j] !in front;
    }
  }

  function DaysOf(rs: seq<Record>): (ds: seq<int>)
    ensures |ds| == |rs| && forall i | 0 <= i < |rs| :: ds[i] == rs[i].day
  {
    if rs == [] then [] else DaysOf(rs[..|rs| - 1]) + [rs[|rs| - 1].day]
  }

  datatype DailyPoint = DailyPoint(day: int, late: int, early: int, review: int, total: int)

  datatype Analytics = Analytics(total: int, late: int, early: int, review: int, avgWorked: int, daily: seq<DailyPoint>)

  function PointOf(day: int, s: Sums): DailyPoint {
    DailyPoint(day, s.late, s.early, s.review, s.total)
  }

  function PointsOf(days: seq<int>, rs: seq<Record>): (ps: seq<DailyPoint>)
    ensures |ps| == |days|
    ensures forall i | 0 <= i < |days| :: ps[i] == PointOf(days[i], SumsOf(Group(rs, ByDay, days[i])))
  {
    if days == [] then []
    else
      var d := days[|days| - 1];
      PointsOf(days[..|days| - 1], rs) + [PointOf(d, SumsOf(Group(rs, ByDay, d)))]
  }

  function AnalyticsOf(rs: seq<Record>): Analytics {
    var s := SumsOf(rs);
    Analytics(s.total, s.late, s.early, s.review, if s.workedDays > 0 then s.worked / s.workedDays else 0,
              PointsOf(FirstSeen(DaysOf(rs)), rs))
  }

  /** One row of the outer join: an employee with no record in range has a row without one. */
  datatype JoinRow = JoinRow(user: int, record: Option<Record>)

  predicate Joins(rows: seq<JoinRow>) {
    forall i | 0 <= i < |rows| && rows[i].record.Some? :: rows[i].record.value.user == rows[i].user
  }

  function UsersOf(rows: seq<JoinRow>): (us: seq<int>)
    ensures |us| == |rows| && forall i | 0 <= i < |rows| :: us[i] == rows[i].user
  {
    if rows == [] then [] else UsersOf(rows[..|rows| - 1]) + [rows[|rows| - 1].user]
  }

  function RecordsOf(rows: seq<JoinRow>): seq<Record> {
    if rows == [] then []
    else
      var row := rows[|rows| - 1];
      RecordsOf(rows[..|rows| - 1]) + if row.record.Some? then [row.record.value] else []
  }

  datatype Summary = Summary(user: int, expected: int, present: int, late: int, lateMinutes: int, early: int,
                             earlyMinutes: int, review: int, worked: int, avgWorked: int, avgCheckIn: int, punctuality: int)

  /** A row while the records are being read, and once the averages are in. */
  function Started(u: int, expected: int, s: Sums): Summary {
    Summary(u, expected, s.total, s.late, s.lateMinutes, s.early, s.earlyMinutes, s.review, s.worked, 0, -1, -1)
  }

  function Finished(u: int, expected: int, s: Sums): Summary {
    Started(u, expected, s).(
      avgWorked := if s.workedDays > 0 then s.worked / s.workedDays else 0,
      avgCheckIn := if s.total > 0 then s.arrival / s.total else -1,
      punctuality := if s.total > 0 then (s.total - s.late) * 100 / s.total else -1)
  }

  function SummariesFor(us: seq<int>, expected: int, rs: seq<Record>): (list: seq<Summary>)
    ensures |list| == |us|
    ensures forall i | 0 <= i < |us| :: list[i] == Finished(us[i], expected, SumsOf(Group(rs, ByUser, us[i])))
  {
    if us == [] then []
    else
      var u := us[|us| - 1];
      SummariesFor(us[..|us| - 1], expected, rs) + [Finished(u, expected, SumsOf(Group(rs, ByUser, u)))]
  }

  function SummariesOf(rows: seq<JoinRow>, expected: int): seq<Summary> {
    SummariesFor(FirstSeen(UsersOf(rows)), expected, RecordsOf(rows))
  }

  // ---------- the numbers are tallies of the records ----------

  /** What a record can be counted for, and what it can contribute. */
  datatype Mark = Present | Late | Early | InReview | WithWork
  datatype Measure = LateMinutes | EarlyMinutes | WorkedMinutes | ArrivalMinute

  predicate Has(r: Record, m: Mark) {
    match m
    case Present => true
    case Late => Judge(r).late
    case Early => Judge(r).early
    case InReview => r.review
    case WithWork => Judge(r).worked > 0
  }

  /** The arrival is in minutes since midnight. */
  function Measured(r: Record, m: Measure): int {
    match m
    case LateMinutes => Judge(r).lateMinutes
    case EarlyMinutes => Judge(r).earlyMinutes
    case WorkedMinutes => Judge(r).worked
    case ArrivalMinute => Minutes(r.checkIn - DayOf(r.checkIn) * DAY)
  }

  predicate InGroup(r: Record, g: Grouping, k: int) {
    match g
    case ByDay => r.day == k
    case ByUser => r.user == k
  }

  /** How many records of group `k` have this mark. */
  function Tally(rs: seq<Record>, g: Grouping, k: int, m: Mark): nat {
    if rs == [] then 0
    else Tally(rs[..|rs| - 1], g, k, m) + if InGroup(rs[|rs| - 1], g, k) && Has(rs[|rs| - 1], m) then 1 else 0
  }

  /** What the records of group `k` contribute. */
  function Amount(rs: seq<Record>, g: Grouping, k: int, m: Measure): int {
    if rs == [] then 0
    else Amount(rs[..|rs| - 1], g, k, m) + if InGroup(rs[|rs| - 1], g, k) then Measured(rs[|rs| - 1], m) else 0
  }

  lemma TallyOneMore(rs: seq<Record>, r: Record, g: Grouping, k: int, m: Mark)
    ensures Tally(rs + [r], g, k, m) == Tally(rs, g, k, m) + if InGroup(r, g, k) && Has(r, m) then 1 else 0
  {
    assert (rs + [r])[..|rs|] == rs;
  }

  lemma AmountOneMore(rs: seq<Record>, r: Record, g: Grouping, k: int, m: Measure)
    ensures Amount(rs + [r], g, k, m) == Amount(rs, g, k, m) + if InGroup(r, g, k) then Measured(r, m) else 0
  {
    assert (rs + [r])[..|rs|] == rs;
  }

  /** The counts of a group are numbers of its records. */
  predicate CountsAre(s: Sums, rs: seq<Record>, g: Grouping, k: int) {
    && s.total == Tally(rs, g, k, Present) && s.late == Tally(rs, g, k, Late) && s.early == Tally(rs, g, k, Early)
    && s.review == Tally(rs, g, k, InReview) && s.workedDays == Tally(rs, g, k, WithWork)
  }

  /** The amounts of a group are totals over its records. */
  predicate AmountsAre(s: Sums, rs: seq<Record>, g: Grouping, k: int) {
    && s.lateMinutes == Amount(rs, g, k, LateMinutes) && s.earlyMinutes == Amount(rs, g, k, EarlyMinutes)
    && s.worked == Amount(rs, g, k, WorkedMinutes) && s.arrival == Amount(rs, g, k, ArrivalMinute)
  }

  /** What one record adds. */
  predicate Adds(one: Sums, r: Record) {
    && one.total == Bit(Has(r, Present)) && one.late == Bit(Has(r, Late)) && one.early == Bit(Has(r, Early))
    && one.review == Bit(Has(r, InReview)) && one.workedDays == Bit(Has(r, WithWork))
    && one.lateMinutes == Measured(r, LateMinutes) && one.earlyMinutes == Measured(r, EarlyMinutes)
    && one.worked == Measured(r, WorkedMinutes) && one.arrival == Measured(r, ArrivalMinute)
  }

  lemma OneAdds(r: Record)
    ensures Adds(One(r), r)
  {
    DayStarts(r.checkIn);
  }

  lemma CountsStep(s: Sums, one: Sums, rs: seq<Record>, r: Record, g: Grouping, k: int)
    requires CountsAre(s, rs, g, k) && Adds(one, r)
    ensures CountsAre(if InGroup(r, g, k) then Plus(s, one) else s, rs + [r], g, k)
  {
    TallyOneMore(rs, r, g, k, Present);
    TallyOneMore(rs, r, g, k, Late);
    TallyOneMore(rs, r, g, k, Early);
    TallyOneMore(rs, r, g, k, InReview);
    TallyOneMore(rs, r, g, k, WithWork);
  }

  lemma AmountsStep(s: Sums, one: Sums, rs: seq<Record>, r: Record, g: Grouping, k: int)
    requires AmountsAre(s, rs, g, k) && Adds(one, r)
    ensures AmountsAre(if InGroup(r, g, k) then Plus(s, one) else s, rs + [r], g, k)
  {
    AmountOneMore(rs, r, g, k, LateMinutes);
    AmountOneMore(rs, r, g, k, EarlyMinutes);
    AmountOneMore(rs, r, g, k, WorkedMinutes);
    AmountOneMore(rs, r, g, k, ArrivalMinute);
  }

  lemma SumsOneMore(rs: seq<Record>, r: Record, g: Grouping, k: int) returns (s: Sums, one: Sums, t: Sums)
    ensures s == SumsOf(Group(rs, g, k)) && t == SumsOf(Group(rs + [r], g, k)) && Adds(one, r)
    ensures t == if InGroup(r, g, k) then Plus(s, one) else s
  {
    s, one, t := SumsOf(Group(rs, g, k)), One(r), SumsOf(Group(rs + [r], g, k));
    GroupOneMore(rs, r, g, k);
    OneAdds(r);
  }

  /** Every number of a group is a count of its records or a total over them, whatever the grouping. */
  lemma {:induction false} GroupIsTallied(rs: seq<Record>, g: Grouping, k: int)
    ensures CountsAre(SumsOf(Group(rs, g, k)), rs, g, k) && AmountsAre(SumsOf(Group(rs, g, k)), rs, g, k)
  {
    if rs != [] {
      var front, r := rs[..|rs| - 1], rs[|rs| - 1];
      assert rs == front + [r];
      GroupIsTallied(front, g, k);
      var before, one, after := SumsOneMore(front, r, g, k);
      CountsStep(before, one, front, r, g, k);
      AmountsStep(before, one, front, r, g, k);
    }
  }

  /** A day's point holds that day's own numbers. */
  lemma DayIsTallied(rs: seq<Record>, i: nat)
    requires i < |AnalyticsOf(rs).daily|
    ensures var p := AnalyticsOf(rs).daily[i];
            && p.total == Tally(rs, ByDay, p.day, Present)
            && p.late == Tally(rs, ByDay, p.day, Late)
            && p.early == Tally(rs, ByDay, p.day, Early)
            && p.review == Tally(rs, ByDay, p.day, InReview)
  {
    GroupIsTallied(rs, ByDay, FirstSeen(DaysOf(rs))[i]);
  }

  /** `rs` are the records the join brought, each once and in its order; `at` says in which row each of them
      was. */
  predicate Brought(rows: seq<JoinRow>, rs: seq<Record>, at: seq<int>) {
    && |at| == |rs|
    && (forall k | 0 <= k < |at| :: 0 <= at[k] < |rows| && rows[at[k]].record == Some(rs[k]))
    && (forall j, k | 0 <= j < k < |at| :: at[j] < at[k])
    && (forall i | 0 <= i < |rows| && rows[i].record != None :: i in at)
  }

  lemma BroughtOneMore(front: seq<JoinRow>, row: JoinRow, rs: seq<Record>, at: seq<int>)
    requires Brought(front, rs, at)
    ensures if row.record.Some? then Brought(front + [row], rs + [row.record.value], at + [|front|])
            else Brought(front + [row], rs, at)
  {
    var rows, more := front + [row], at + [|front|];
    forall i | 0 <= i < |rows| && rows[i].record != None ensures i in more {
      if i < |front| { assert i in at; } else { assert more[|at|] == i; }
    }
    forall i | 0 <= i < |rows| && rows[i].record != None && row.record == None ensures i in at {
      assert i < |front|;
    }
  }

  /** The employees' rows are made of exactly the records the join brought. */
  lemma {:induction false} RecordsOfTheRows(rows: seq<JoinRow>) returns (at: seq<int>)
    ensures Brought(rows, RecordsOf(rows), at)
  {
    at := [];
    if rows != [] {
      var front, row := rows[..|rows| - 1], rows[|rows| - 1];
      at := RecordsOfTheRows(front);
      BroughtOneMore(front, row, RecordsOf(front), at);
      assert rows == front + [row] && RecordsOf(front) + [] == RecordsOf(front);
      if row.record.Some? { at := at + [|front|]; }
    }
  }

  /** An average, the rest dropped. */
  predicate IsAverage(avg: int, sum: int, n: int) {
    n > 0 && avg * n <= sum < (avg + 1) * n
  }

  lemma AverageIs(sum: int, n: int)
    requires n > 0
    ensures IsAverage(sum / n, sum, n)
  {
    var q := sum / n;
    assert sum == q * n + sum % n;
    assert (q + 1) * n == q * n + n;
  }

  /** An employee's row holds that employee's own numbers, and averages of them: the time worked over the days
      with any, the arrival over all days present. */
  lemma EmployeeIsTallied(rows: seq<JoinRow>, expected: int, i: nat)
    requires i < |SummariesOf(rows, expected)|
    ensures var e := SummariesOf(rows, expected)[i]; var rs := RecordsOf(rows);
            && e.expected == expected
            && e.present == Tally(rs, ByUser, e.user, Present)
            && e.late == Tally(rs, ByUser, e.user, Late)
            && e.early == Tally(rs, ByUser, e.user, Early)
            && e.review == Tally(rs, ByUser, e.user, InReview)
            && e.lateMinutes == Amount(rs, ByUser, e.user, LateMinutes)
            && e.earlyMinutes == Amount(rs, ByUser, e.user, EarlyMinutes)
            && e.worked == Amount(rs, ByUser, e.user, WorkedMinutes)
  {
    GroupIsTallied(RecordsOf(rows), ByUser, FirstSeen(UsersOf(rows))[i]);
  }

  lemma AveragesOf(u: int, expected: int, s: Sums)
    ensures var e := Finished(u, expected, s);
            && (if s.workedDays > 0 then IsAverage(e.avgWorked, s.worked, s.workedDays) else e.avgWorked == 0)
            && (if s.total > 0 then IsAverage(e.avgCheckIn, s.arrival, s.total) else e.avgCheckIn == -1)
            && (if s.total > 0 then IsAverage(e.punctuality, (s.total - s.late) * 100, s.total) else e.punctuality == -1)
  {
    if s.workedDays > 0 { AverageIs(s.worked, s.workedDays); }
    if s.total > 0 {
      AverageIs(s.arrival, s.total);
      AverageIs((s.total - s.late) * 100, s.total);
    }
  }

  lemma EmployeeAverages(rows: seq<JoinRow>, expected: int, i: nat)
    requires i < |SummariesOf(rows, expected)|
    ensures var e := SummariesOf(rows, expected)[i]; var rs := RecordsOf(rows);
            var days := Tally(rs, ByUser, e.user, WithWork);
            var arrivals := Amount(rs, ByUser, e.user, ArrivalMinute);
            && (if days > 0 then IsAverage(e.avgWorked, e.worked, days) else e.avgWorked == 0)
            && (if e.present > 0 then IsAverage(e.avgCheckIn, arrivals, e.present) else e.avgCheckIn == -1)
            && (if e.present > 0 then IsAverage(e.punctuality, (e.present - e.late) * 100, e.present) else e.punctuality == -1)
  {
    var u, rs := FirstSeen(UsersOf(rows))[i], RecordsOf(rows);
    GroupIsTallied(rs, ByUser, u);
    AveragesOf(u, expected, SumsOf(Group(rs, ByUser, u)));
  }

  /** How many records have this mark. */
  function Marked(rs: seq<Record>, m: Mark): nat {
    if rs == [] then 0 else Marked(rs[..|rs| - 1], m) + if Has(rs[|rs| - 1], m) then 1 else 0
  }

  predicate AllCounted(s: Sums, rs: seq<Record>) {
    && s.total == |rs| && s.late == Marked(rs, Late) && s.early == Marked(rs, Early)
    && s.review == Marked(rs, InReview) && s.workedDays == Marked(rs, WithWork)
  }

  lemma {:induction false} AllAreCounted(rs: seq<Record>)
    ensures AllCounted(SumsOf(rs), rs)
  {
    if rs != [] {
      AllAreCounted(rs[..|rs| - 1]);
      OneAdds(rs[|rs| - 1]);
    }
  }

  /** The dashboard's overall numbers are counts of all records, and the average is over those with any time
      worked. */
  lemma OverallIsTallied(rs: seq<Record>)
    ensures var a := AnalyticsOf(rs); var days := Marked(rs, WithWork);
            && a.total == |rs| && a.late == Marked(rs, Late) && a.early == Marked(rs, Early)
            && a.review == Marked(rs, InReview)
            && (if days > 0 then IsAverage(a.avgWorked, SumsOf(rs).worked, days) else a.avgWorked == 0)
  {
    AllAreCounted(rs);
    if SumsOf(rs).workedDays > 0 { AverageIs(SumsOf(rs).worked, SumsOf(rs).workedDays); }
  }

  // ---------- agreement ----------

  datatype Totals = Totals(records: int, late: int, early: int, review: int)

  function WithDay(t: Totals, p: DailyPoint): Totals {
    Totals(t.records + p.total, t.late + p.late, t.early + p.early, t.review + p.review)
  }

  function OverDays(ps: seq<DailyPoint>): Totals {
    if ps == [] then Totals(0, 0, 0, 0) else WithDay(OverDays(ps[..|ps| - 1]), ps[|ps| - 1])
  }

  function WithPerson(t: Totals, p: Summary): Totals {
    Totals(t.records + p.present, t.late + p.late, t.early + p.early, t.review + p.review)
  }

  function OverPeople(list: seq<Summary>): Totals {
    if list == [] then Totals(0, 0, 0, 0) else WithPerson(OverPeople(list[..|list| - 1]), list[|list| - 1])
  }

  function TotalsOf(s: Sums): Totals {
    Totals(s.total, s.late, s.early, s.review)
  }

  lemma OverOneMoreDay(days: seq<int>, d: int, rs: seq<Record>)
    ensures OverDays(PointsOf(days + [d], rs)) ==
            WithDay(OverDays(PointsOf(days, rs)), PointOf(d, SumsOf(Group(rs, ByDay, d))))
  {
    assert (days + [d])[..|days|] == days;
    var ps := PointsOf(days, rs);
    assert PointsOf(days + [d], rs)[..|ps|] == ps;
  }

  lemma DayAdds(a: Sums, s: Sums, d: int)
    ensures WithDay(TotalsOf(a), PointOf(d, s)) == TotalsOf(Plus(a, s))
  {
  }

  predicate DaysAddUp(days: seq<int>, rs: seq<Record>) {
    OverDays(PointsOf(days, rs)) == TotalsOf(SumOver(days, rs, ByDay))
  }

  lemma OneMoreDayAddsUp(days: seq<int>, d: int, rs: seq<Record>)
    requires DaysAddUp(days, rs)
    ensures DaysAddUp(days + [d], rs)
  {
    OverOneMoreDay(days, d, rs);
    SumOverLast(days, d, rs, ByDay);
    DayAdds(SumOver(days, rs, ByDay), SumsOf(Group(rs, ByDay, d)), d);
  }

  lemma {:induction false} OverDaysIsSumOver(days: seq<int>, rs: seq<Record>)
    ensures DaysAddUp(days, rs)
  {
    if days != [] {
      OverDaysIsSumOver(days[..|days| - 1], rs);
      OneMoreDayAddsUp(days[..|days| - 1], days[|days| - 1], rs);
      assert days == days[..|days| - 1] + [days[|days| - 1]];
    }
  }

  lemma OverOneMorePerson(us: seq<int>, u: int, expected: int, rs: seq<Record>)
    ensures OverPeople(SummariesFor(us + [u], expected, rs)) ==
            WithPerson(OverPeople(SummariesFor(us, expected, rs)), Finished(u, expected, SumsOf(Group(rs, ByUser, u))))
  {
    assert (us + [u])[..|us|] == us;
    var list := SummariesFor(us, expected, rs);
    assert SummariesFor(us + [u], expected, rs)[..|list|] == list;
  }

  lemma PersonAdds(a: Sums, s: Sums, u: int, expected: int)
    ensures WithPerson(TotalsOf(a), Finished(u, expected, s)) == TotalsOf(Plus(a, s))
  {
  }

  predicate PeopleAddUp(us: seq<int>, expected: int, rs: seq<Record>) {
    OverPeople(SummariesFor(us, expected, rs)) == TotalsOf(SumOver(us, rs, ByUser))
  }

  lemma OneMorePersonAddsUp(us: seq<int>, u: int, expected: int, rs: seq<Record>)
    requires PeopleAddUp(us, expected, rs)
    ensures PeopleAddUp(us + [u], expected, rs)
  {
    OverOneMorePerson(us, u, expected, rs);
    SumOverLast(us, u, rs, ByUser);
    PersonAdds(SumOver(us, rs, ByUser), SumsOf(Group(rs, ByUser, u)), u, expected);
  }

  lemma {:induction false} OverPeopleIsSumOver(us: seq<int>, expected: int, rs: seq<Record>)
    ensures PeopleAddUp(us, expected, rs)
  {
    if us != [] {
      OverPeopleIsSumOver(us[..|us| - 1], expected, rs);
      OneMorePersonAddsUp(us[..|us| - 1], us[|us| - 1], expected, rs);
      assert us == us[..|us| - 1] + [us[|us| - 1]];
    }
  }

  lemma {:induction false} RecordsHaveTheirRows(rows: seq<JoinRow>)
    requires Joins(rows)
    ensures forall i | 0 <= i < |RecordsOf(rows)| :: RecordsOf(rows)[i].user in UsersOf(rows)
  {
    if rows != [] {
      var front := rows[..|rows| - 1];
      RecordsHaveTheirRows(front);
      assert UsersOf(rows) == UsersOf(front) + [rows[|rows| - 1].user];
    }
  }

  /** The two roll-ups of the same records, read in whatever orders, agree with each other and with
      their own breakdowns. */
  lemma RollUpsAgree(rs: seq<Record>, rows: seq<JoinRow>, expected: int)
    requires Joins(rows) && multiset(rs) == multiset(RecordsOf(rows))
    ensures var a := AnalyticsOf(rs);
            OverDays(a.daily) == Totals(a.total, a.late, a.early, a.review) == OverPeople(SummariesOf(rows, expected))
  {
    GroupsAddUp(FirstSeen(DaysOf(rs)), rs, ByDay);
    OverDaysIsSumOver(FirstSeen(DaysOf(rs)), rs);
    var records := RecordsOf(rows);
    SumsIgnoreOrder(rs, records);
    RecordsHaveTheirRows(rows);
    GroupsAddUp(FirstSeen(UsersOf(rows)), records, ByUser);
    OverPeopleIsSumOver(FirstSeen(UsersOf(rows)), expected, records);
  }

  lemma {:induction false} SumsInRange(rs: seq<Record>)
    ensures var s := SumsOf(rs); s.total == |rs| && 0 <= s.late <= s.total && 0 <= s.workedDays <= s.total
  {
    if rs != [] { SumsInRange(rs[..|rs| - 1]); }
  }

  lemma ProductOrder(a: int, b: int, d: int)
    requires 0 < d && a <= b
    ensures a * d <= b * d
  {
  }

  lemma PercentInRange(part: int, whole: int)
    requires 0 <= part <= whole && 0 < whole
    ensures 0 <= part * 100 / whole <= 100
    ensures part * 100 / whole == 100 <==> part == whole
  {
    var q := part * 100 / whole;
    QuotientBounds(part * 100, whole);
    if q > 100 { ProductOrder(101, q, whole); }
    if q < 100 { ProductOrder(q + 1, 100, whole); }
  }

  /** -1 exactly for someone never present, and 100 exactly for someone present and never late. */
  lemma PunctualityInRange(u: int, expected: int, rs: seq<Record>)
    ensures var f := Finished(u, expected, SumsOf(rs));
            && (rs == [] ==> f.punctuality == -1)
            && (rs != [] ==> 0 <= f.punctuality <= 100)
            && (f.punctuality == 100 <==> rs != [] && SumsOf(rs).late == 0)
  {
    SumsInRange(rs);
    var s := SumsOf(rs);
    if rs != [] { PercentInRange(s.total - s.late, s.total); }
  }

  // ---------- the two roll-ups, as the code runs them ----------

  /** The map finds each listed value's position and nothing else. */
  ghost predicate Indexes(idx: map<int, int>, xs: seq<int>) {
    && (forall x :: x in idx <==> x in xs)
    && (forall x | x in idx :: 0 <= idx[x] < |xs| && xs[idx[x]] == x)
  }

  lemma IndexesOneMore(idx: map<int, int>, xs: seq<int>, x: int)
    requires Indexes(idx, xs) && x !in xs
    ensures Indexes(idx[x := |xs|], xs + [x])
  {
    var ys := xs + [x];
    assert ys[|xs|] == x;
    forall y | y in xs ensures ys[idx[y]] == y { }
  }

  lemma SeenOneMore(xs: seq<int>, x: int)
    ensures FirstSeen(xs + [x]) == if x in FirstSeen(xs) then FirstSeen(xs) else FirstSeen(xs) + [x]
  {
    assert (xs + [x])[..|xs|] == xs;
  }

  lemma DaysOneMore(done: seq<Record>, r: Record)
    ensures DaysOf(done + [r]) == DaysOf(done) + [r.day]
  {
    assert (done + [r])[..|done|] == done;
  }

  lemma {:induction false} GroupOfNobody(rs: seq<Record>, g: Grouping, k: int)
    requires forall i | 0 <= i < |rs| :: KeyOf(g, rs[i]) != k
    ensures Group(rs, g, k) == []
  {
    if rs != [] { GroupOfNobody(rs[..|rs| - 1], g, k); }
  }

  /** The day a record is counted under gets one more; every other day stands. */
  ghost predicate DailyUpTo(daily: seq<DailyPoint>, idx: map<int, int>, done: seq<Record>) {
    var days := FirstSeen(DaysOf(done));
    daily == PointsOf(days, done) && Indexes(idx, days)
  }

  lemma PointsOneMore(daily: seq<DailyPoint>, days: seq<int>, done: seq<Record>, r: Record, i: nat, p: DailyPoint)
    requires NoRepeats(days) && i < |days| && days[i] == r.day && daily == PointsOf(days, done)
    requires p == PointOf(r.day, Plus(SumsOf(Group(done, ByDay, r.day)), One(r)))
    ensures daily[i := p] == PointsOf(days, done + [r])
  {
    forall j | 0 <= j < |days| ensures daily[i := p][j] == PointsOf(days, done + [r])[j] {
      GroupOneMore(done, r, ByDay, days[j]);
    }
  }

  lemma NewDay(daily: seq<DailyPoint>, days: seq<int>, done: seq<Record>, day: int)
    requires days == FirstSeen(DaysOf(done)) && day !in days && daily == PointsOf(days, done)
    ensures daily + [DailyPoint(day, 0, 0, 0, 0)] == PointsOf(days + [day], done)
  {
    forall i | 0 <= i < |done| ensures KeyOf(ByDay, done[i]) != day {
      assert DaysOf(done)[i] in days;
    }
    GroupOfNobody(done, ByDay, day);
    assert (days + [day])[..|days|] == days;
  }

  /** The day is in the list afterwards, at the position the map gives. */
  method FindOrAddDay(daily0: seq<DailyPoint>, idx0: map<int, int>, day: int, ghost done: seq<Record>)
    returns (daily: seq<DailyPoint>, idx: map<int, int>)
    requires DailyUpTo(daily0, idx0, done)
    ensures var days := FirstSeen(DaysOf(done) + [day]);
            daily == PointsOf(days, done) && Indexes(idx, days) && day in idx
  {
    daily, idx := daily0, idx0;
    ghost var days := FirstSeen(DaysOf(done));
    SeenOneMore(DaysOf(done), day);
    if day !in idx {
      NewDay(daily, days, done, day);
      IndexesOneMore(idx, days, day);
      idx := idx[day := |daily|];
      daily := daily + [DailyPoint(day, 0, 0, 0, 0)];
    }
  }

  method CountInPoint(p0: DailyPoint, row: AttendanceRow, ghost sums: Sums) returns (p: DailyPoint)
    requires row.View() == Judge(row.record) && p0 == PointOf(row.record.day, sums)
    ensures p == PointOf(row.record.day, Plus(sums, One(row.record)))
  {
    p := p0.(total := p0.total + 1);
    if row.isLate { p := p.(late := p.late + 1); }
    if row.isEarlyLeave { p := p.(early := p.early + 1); }
    if row.record.review { p := p.(review := p.review + 1); }
  }

  method CountInDay(daily0: seq<DailyPoint>, idx0: map<int, int>, row: AttendanceRow, ghost done: seq<Record>)
    returns (daily: seq<DailyPoint>, idx: map<int, int>)
    requires DailyUpTo(daily0, idx0, done) && row.View() == Judge(row.record)
    ensures DailyUpTo(daily, idx, done + [row.record])
  {
    ghost var days := FirstSeen(DaysOf(done) + [row.record.day]);
    DaysOneMore(done, row.record);
    daily, idx := FindOrAddDay(daily0, idx0, row.record.day, done);
    var i := idx[row.record.day];
    var p := CountInPoint(daily[i], row, SumsOf(Group(done, ByDay, row.record.day)));
    PointsOneMore(daily, days, done, row.record, i, p);
    daily := daily[i := p];
  }

  /** The overall counters of the dashboard, with what the average will be made from. */
  datatype Counters = Counters(totals: Totals, worked: int, workedDays: int)

  function CountersOf(s: Sums): Counters {
    Counters(TotalsOf(s), s.worked, s.workedDays)
  }

  method CountOverall(c0: Counters, row: AttendanceRow, ghost sums: Sums) returns (c: Counters)
    requires row.View() == Judge(row.record) && c0 == CountersOf(sums)
    ensures c == CountersOf(Plus(sums, One(row.record)))
  {
    var t := c0.totals.(records := c0.totals.records + 1);
    if row.record.review { t := t.(review := t.review + 1); }
    if row.isLate { t := t.(late := t.late + 1); }
    if row.isEarlyLeave { t := t.(early := t.early + 1); }
    c := c0.(totals := t);
    if row.workedMinutes > 0 {
      c := c.(worked := c.worked + row.workedMinutes, workedDays := c.workedDays + 1);
    }
  }

  /** The dashboard's roll-up: overall counts and one point per day, in one pass. */
  method GetAnalytics(rows: seq<Record>) returns (a: Analytics)
    ensures a == AnalyticsOf(rows)
  {
    var daily: seq<DailyPoint> := [];
    var dailyIdx: map<int, int> := map[];
    var c := Counters(Totals(0, 0, 0, 0), 0, 0);
    for i := 0 to |rows|
      invariant DailyUpTo(daily, dailyIdx, rows[..i])
      invariant c == CountersOf(SumsOf(rows[..i]))
    {
      var row := new AttendanceRow(rows[i]);
      row.ComputeStatus();
      assert rows[..i + 1] == rows[..i] + [rows[i]];
      SumsLast(rows[..i], rows[i]);
      c := CountOverall(c, row, SumsOf(rows[..i]));
      daily, dailyIdx := CountInDay(daily, dailyIdx, row, rows[..i]);
    }
    assert rows[..|rows|] == rows;
    var t := c.totals;
    a := Analytics(t.records, t.late, t.early, t.review, 0, daily);
    if c.workedDays > 0 {
      a := a.(avgWorked := c.worked / c.workedDays);
    }
  }

  function Get(m: map<int, int>, u: int): int {
    if u in m then m[u] else 0
  }

  /** The side tables kept per employee while the rows are read. */
  datatype Tables = Tables(arrivals: map<int, int>, counts: map<int, int>, workedDays: map<int, int>)

  ghost predicate Tracks(t: Tables, rs: seq<Record>) {
    forall u :: TracksUser(t, rs, u)
  }

  ghost predicate TracksUser(t: Tables, rs: seq<Record>, u: int) {
    var s := SumsOf(Group(rs, ByUser, u));
    Get(t.arrivals, u) == s.arrival && Get(t.counts, u) == s.total && Get(t.workedDays, u) == s.workedDays
  }

  function StartedFor(us: seq<int>, expected: int, rs: seq<Record>): (list: seq<Summary>)
    ensures |list| == |us|
    ensures forall i | 0 <= i < |us| :: list[i] == Started(us[i], expected, SumsOf(Group(rs, ByUser, us[i])))
  {
    if us == [] then []
    else
      var u := us[|us| - 1];
      StartedFor(us[..|us| - 1], expected, rs) + [Started(u, expected, SumsOf(Group(rs, ByUser, u)))]
  }

  ghost predicate ListUpTo(list: seq<Summary>, byUser: map<int, int>, done: seq<JoinRow>, expected: int) {
    var us := FirstSeen(UsersOf(done));
    list == StartedFor(us, expected, RecordsOf(done)) && Indexes(byUser, us)
  }

  lemma UsersOneMore(done: seq<JoinRow>, row: JoinRow)
    ensures UsersOf(done + [row]) == UsersOf(done) + [row.user]
    ensures RecordsOf(done + [row]) == RecordsOf(done) + if row.record.Some? then [row.record.value] else []
  {
    assert (done + [row])[..|done|] == done;
  }

  lemma NewUser(list: seq<Summary>, us: seq<int>, done: seq<JoinRow>, expected: int, u: int)
    requires Joins(done) && us == FirstSeen(UsersOf(done)) && u !in us
    requires list == StartedFor(us, expected, RecordsOf(done))
    ensures list + [Started(u, expected, NOTHING)] == StartedFor(us + [u], expected, RecordsOf(done))
  {
    RecordsHaveTheirRows(done);
    GroupOfNobody(RecordsOf(done), ByUser, u);
    assert (us + [u])[..|us|] == us;
  }

  lemma SummaryOneMore(list: seq<Summary>, us: seq<int>, expected: int, rs: seq<Record>, r: Record, i: nat, s: Summary)
    requires NoRepeats(us) && i < |us| && us[i] == r.user && list == StartedFor(us, expected, rs)
    requires s == Started(r.user, expected, Plus(SumsOf(Group(rs, ByUser, r.user)), One(r)))
    ensures list[i := s] == StartedFor(us, expected, rs + [r])
  {
    forall j | 0 <= j < |us| ensures list[i := s][j] == StartedFor(us, expected, rs + [r])[j] {
      GroupOneMore(rs, r, ByUser, us[j]);
    }
  }

  /** The row's employee is in the list afterwards, at the position the map gives. */
  method FindOrAdd(list0: seq<Summary>, byUser0: map<int, int>, u: int, expected: int, ghost done: seq<JoinRow>)
    returns (list: seq<Summary>, byUser: map<int, int>)
    requires Joins(done) && ListUpTo(list0, byUser0, done, expected)
    ensures var us := FirstSeen(UsersOf(done) + [u]);
            list == StartedFor(us, expected, RecordsOf(done)) && Indexes(byUser, us) && u in byUser
  {
    list, byUser := list0, byUser0;
    ghost var us := FirstSeen(UsersOf(done));
    SeenOneMore(UsersOf(done), u);
    if u !in byUser {
      NewUser(list, us, done, expected, u);
      IndexesOneMore(byUser, us, u);
      byUser := byUser[u := |list|];
      list := list + [Summary(u, expected, 0, 0, 0, 0, 0, 0, 0, 0, -1, -1)];
    }
  }

  method CountRecord(s0: Summary, row: AttendanceRow, expected: int, ghost sums: Sums) returns (s: Summary)
    requires row.View() == Judge(row.record) && s0 == Started(row.record.user, expected, sums)
    ensures s == Started(row.record.user, expected, Plus(sums, One(row.record)))
  {
    s := s0.(present := s0.present + 1);
    if row.isLate {
      s := s.(late := s.late + 1, lateMinutes := s.lateMinutes + row.lateMinutes);
    }
    if row.isEarlyLeave {
      s := s.(early := s.early + 1, earlyMinutes := s.earlyMinutes + row.earlyLeaveMinutes);
    }
    if row.record.review {
      s := s.(review := s.review + 1);
    }
    if row.workedMinutes > 0 {
      s := s.(worked := s.worked + row.workedMinutes);
    }
  }

  lemma TracksOneMore(t: Tables, t': Tables, rs: seq<Record>, r: Record, one: Sums)
    requires Tracks(t, rs) && one == One(r)
    requires t'.arrivals == t.arrivals[r.user := Get(t.arrivals, r.user) + one.arrival]
    requires t'.counts == t.counts[r.user := Get(t.counts, r.user) + 1]
    requires t'.workedDays == t.workedDays
             || t'.workedDays == t.workedDays[r.user := Get(t.workedDays, r.user) + 1]
    requires Get(t'.workedDays, r.user) == Get(t.workedDays, r.user) + one.workedDays
    ensures Tracks(t', rs + [r])
  {
    forall v ensures TracksUser(t', rs + [r], v) {
      assert TracksUser(t, rs, v);
      GroupOneMore(rs, r, ByUser, v);
    }
  }

  method CountInTables(t: Tables, row: AttendanceRow, ghost rs: seq<Record>) returns (t': Tables)
    requires row.View() == Judge(row.record) && Tracks(t, rs)
    ensures Tracks(t', rs + [row.record])
  {
    var u := row.record.user;
    t' := t.(arrivals := t.arrivals[u := Get(t.arrivals, u) + row.record.checkIn % DAY / MINUTE],
             counts := t.counts[u := Get(t.counts, u) + 1]);
    if row.workedMinutes > 0 {
      t' := t'.(workedDays := t.workedDays[u := Get(t.workedDays, u) + 1]);
    }
    TracksOneMore(t, t', rs, row.record, One(row.record));
  }

  method CountInSummary(list0: seq<Summary>, k: nat, row: AttendanceRow, expected: int, ghost us: seq<int>, ghost rs: seq<Record>)
    returns (list: seq<Summary>)
    requires row.View() == Judge(row.record) && NoRepeats(us) && k < |us| && us[k] == row.record.user
    requires list0 == StartedFor(us, expected, rs)
    ensures list == StartedFor(us, expected, rs + [row.record])
  {
    var s := CountRecord(list0[k], row, expected, SumsOf(Group(rs, ByUser, us[k])));
    SummaryOneMore(list0, us, expected, rs, row.record, k, s);
    list := list0[k := s];
  }

  /** The employee table: the rows are read once, then the averages are filled in. */
  method GetEmployeeSummaries(rows: seq<JoinRow>, expected: int) returns (list: seq<Summary>)
    requires Joins(rows)
    ensures list == SummariesOf(rows, expected)
  {
    list := [];
    var byUser: map<int, int> := map[];
    var t := Tables(map[], map[], map[]);
    for i := 0 to |rows|
      invariant ListUpTo(list, byUser, rows[..i], expected)
      invariant Tracks(t, RecordsOf(rows[..i]))
    {
      ghost var done := rows[..i];
      ghost var us, rs := FirstSeen(UsersOf(done) + [rows[i].user]), RecordsOf(done);
      assert rows[..i + 1] == done + [rows[i]];
      UsersOneMore(done, rows[i]);
      list, byUser := FindOrAdd(list, byUser, rows[i].user, expected, done);
      if rows[i].record.None? {
        assert RecordsOf(rows[..i + 1]) == rs;
        continue;
      }
      var row := new AttendanceRow(rows[i].record.value);
      row.ComputeStatus();
      list := CountInSummary(list, byUser[rows[i].user], row, expected, us, rs);
      t := CountInTables(t, row, rs);
    }
    assert rows[..|rows|] == rows;
    list := FillAverages(list, t, FirstSeen(UsersOf(rows)), expected, RecordsOf(rows));
  }

  method FillAverages(list0: seq<Summary>, t: Tables, ghost us: seq<int>, expected: int, ghost rs: seq<Record>)
    returns (list: seq<Summary>)
    requires list0 == StartedFor(us, expected, rs) && Tracks(t, rs)
    ensures list == SummariesFor(us, expected, rs)
  {
    list := list0;
    for i := 0 to |list|
      invariant |list| == |us|
      invariant forall j | 0 <= j < i :: list[j] == SummariesFor(us, expected, rs)[j]
      invariant forall j | i <= j < |list| :: list[j] == list0[j]
    {
      var s := list[i];
      assert TracksUser(t, rs, us[i]);
      SumsInRange(Group(rs, ByUser, us[i]));
      var n := Get(t.workedDays, s.user);
      if n > 0 { s := s.(avgWorked := s.worked / n); }
      n := Get(t.counts, s.user);
      if n > 0 { s := s.(avgCheckIn := Get(t.arrivals, s.user) / n); }
      if s.present > 0 { s := s.(punctuality := (s.present - s.late) * 100 / s.present); }
      list := list[i := s];
    }
  }
}
