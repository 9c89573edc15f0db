/** Writing attendance: check-in and check-out, corrections, the nightly flag, and schedule changes. */
module AttendanceLog {
  import opened Basics
  import opened Attendance

  datatype Schedule = Schedule(startMin: int, endMin: int, grace: int, workdays: set<int>)

  const DEFAULT := Schedule(540, 1080, 10, {1, 2, 3, 4, 5})

  /** `records` is keyed by employee and work date, which are unique together. */
  datatype Log = Log(schedule: Schedule, tracked: set<int>, records: map<(int, int), Record>)

  datatype Op =
    | SetSchedule(schedule: Schedule)
    | SetTracked(user: int, on: bool)
    | CheckIn(user: int, now: int)
    | CheckOut(user: int, now: int)
    | Create(user: int, checkIn: int, checkOut: Option<int>, now: int)
    | Update(user: int, day: int, checkIn: int, checkOut: Option<int>)
    | Delete(user: int, day: int)
    | FlagMissing(now: int)

  /** A stored schedule without a working day counts as not set. */
  function InForce(s: Schedule): Schedule {
    if s.workdays == {} then DEFAULT else s
  }

  /** Day 0 is a Thursday; Sunday is 0. */
  function Weekday(day: int): int {
    (day + 4) % 7
  }

  function Snapshot(s: Schedule, u: int, checkIn: int, checkOut: Option<int>): Record {
    var f := InForce(s);
    Record(u, DayOf(checkIn), checkIn, checkOut, f.startMin, f.endMin, f.grace, Weekday(DayOf(checkIn)) in f.workdays, false)
  }

  predicate ScheduleAccepted(s: Schedule) {
    && 0 <= s.startMin < s.endMin <= 1439 && 0 <= s.grace <= 120
    && s.workdays != {} && s.workdays <= {0, 1, 2, 3, 4, 5, 6}
  }

  predicate InOrder(checkIn: int, checkOut: Option<int>) {
    checkOut.None? || checkIn <= checkOut.value
  }

  predicate Overdue(r: Record, today: int) {
    r.checkOut.None? && !r.review && r.day < today
  }

  function Judged(r: Record, today: int): Record {
    if Overdue(r, today) then r.(review := true) else r
  }

  function Flagged(rs: map<(int, int), Record>, today: int): map<(int, int), Record> {
    map k | k in rs :: Judged(rs[k], today)
  }

  function Step(l: Log, op: Op): Log {
    match op
    case SetSchedule(s) => if ScheduleAccepted(s) then l.(schedule := s) else l
    case SetTracked(u, on) => l.(tracked := if on then l.tracked + {u} else l.tracked - {u})
    case CheckIn(u, now) =>
      var r := Snapshot(l.schedule, u, now, None);
      if u in l.tracked && (u, r.day) !in l.records then l.(records := l.records[(u, r.day) := r]) else l
    case CheckOut(u, now) =>
      var k := (u, DayOf(now));
      if k in l.records && l.records[k].checkOut.None?
      then l.(records := l.records[k := l.records[k].(checkOut := Some(now))]) else l
    case Create(u, t, out, now) =>
      var r := Snapshot(l.schedule, u, t, out);
      if t <= now && (out.Some? ==> out.value <= now) && InOrder(t, out) && u in l.tracked && (u, r.day) !in l.records
      then l.(records := l.records[(u, r.day) := r]) else l
    case Update(u, d, t, out) =>
      if InOrder(t, out) && (u, d) in l.records
      then l.(records := l.records[(u, d) := l.records[(u, d)].(checkIn := t, checkOut := out, review := false)]) else l
    case Delete(u, d) => l.(records := l.records - {(u, d)})
    case FlagMissing(now) => l.(records := Flagged(l.records, DayOf(now)))
  }

  function Run(l: Log, ops: seq<Op>): Log
    decreases |ops|
  {
    if ops == [] then l else Run(Step(l, ops[0]), ops[1..])
  }

  // ---------- what each request does ----------

  /** No record but this one changes, appears or goes, and neither does the schedule or who is tracked. */
  predicate OnlyRecord(l: Log, t: Log, k: (int, int)) {
    && t.schedule == l.schedule && t.tracked == l.tracked
    && t.records.Keys + {k} == l.records.Keys + {k}
    && forall j | j in l.records && j != k :: t.records[j] == l.records[j]
  }

  /** `r` is a new record of this employee with these times, made out for the day of the check-in under
      schedule `f`: 1970-01-01 was a Thursday, and weeks are counted from Sunday. */
  predicate MadeOut(r: Record, f: Schedule, u: int, t: int, out: Option<int>) {
    && r.user == u && r.checkIn == t && r.checkOut == out && !r.review
    && r.day * DAY <= t < (r.day + 1) * DAY
    && r.startMin == f.startMin && r.endMin == f.endMin && r.grace == f.grace
    && (r.workday <==> exists w :: w in f.workdays && IsWeekday(w, r.day))
  }

  predicate IsWeekday(w: int, day: int) {
    0 <= w <= 6 && (day - (w - 4)) % 7 == 0
  }

  /** The schedule that counts: the one set, or the standard week when none with working days is. */
  predicate Counts(f: Schedule, s: Schedule) {
    if s.workdays == {} then f == Schedule(9 * 60, 18 * 60, 10, {1, 2, 3, 4, 5}) else f == s
  }

  lemma DayBounds(t: int)
    ensures DayOf(t) * DAY <= t < (DayOf(t) + 1) * DAY
  {
    DayStarts(t);
  }

  lemma DayIs(d: int, t: int)
    requires d * DAY <= t < (d + 1) * DAY
    ensures DayOf(t) == d
  {
    DayBounds(t);
  }

  lemma WeekdayIs(w: int, day: int)
    requires 0 <= w <= 6
    ensures Weekday(day) == w <==> IsWeekday(w, day)
  {
  }

  lemma SnapshotIsMadeOut(s: Schedule, f: Schedule, u: int, t: int, out: Option<int>)
    requires Counts(f, s)
    ensures MadeOut(Snapshot(s, u, t, out), f, u, t, out)
  {
    var r := Snapshot(s, u, t, out);
    DayBounds(t);
    WeekdayIs(Weekday(r.day), r.day);
    if r.workday { assert Weekday(r.day) in f.workdays; }
    forall w | w in f.workdays && IsWeekday(w, r.day) ensures r.workday { WeekdayIs(w, r.day); }
  }

  /** The first check-in of the day of a tracked employee makes a record under the schedule that counts; any
      other is refused. */
  lemma CheckInExact(l: Log, u: int, now: int, day: int, f: Schedule)
    requires day * DAY <= now < (day + 1) * DAY && Counts(f, l.schedule)
    ensures var t := Step(l, CheckIn(u, now));
            if u in l.tracked && (u, day) !in l.records
            then OnlyRecord(l, t, (u, day)) && (u, day) in t.records && MadeOut(t.records[(u, day)], f, u, now, None)
            else t == l
  {
    DayIs(day, now);
    SnapshotIsMadeOut(l.schedule, f, u, now, None);
  }

  /** A check-out closes today's open record and changes nothing else about it. */
  lemma CheckOutExact(l: Log, u: int, now: int, day: int)
    requires day * DAY <= now < (day + 1) * DAY
    ensures var t := Step(l, CheckOut(u, now)); var k := (u, day);
            if k in l.records && l.records[k].checkOut == None
            then OnlyRecord(l, t, k) && k in t.records && t.records[k].checkOut == Some(now)
                 && t.records[k].(checkOut := None) == l.records[k]
            else t == l
  {
    DayIs(day, now);
  }

  /** An administrator's record is made out like a check-in, unless it lies in the future, is reversed, is for
      someone not tracked, or the day has one already. */
  lemma CreateExact(l: Log, u: int, at: int, out: Option<int>, now: int, day: int, f: Schedule)
    requires day * DAY <= at < (day + 1) * DAY && Counts(f, l.schedule)
    ensures var t := Step(l, Create(u, at, out, now));
            if u in l.tracked && (u, day) !in l.records && at <= now && (out == None || at <= out.value <= now)
            then OnlyRecord(l, t, (u, day)) && (u, day) in t.records && MadeOut(t.records[(u, day)], f, u, at, out)
            else t == l
  {
    DayIs(day, at);
    SnapshotIsMadeOut(l.schedule, f, u, at, out);
  }

  /** A correction in the right order replaces both times and clears the review; the rest of the record, its
      schedule included, stays. */
  lemma UpdateExact(l: Log, u: int, d: int, at: int, out: Option<int>)
    ensures var t := Step(l, Update(u, d, at, out)); var k := (u, d);
            if k in l.records && (out == None || at <= out.value)
            then OnlyRecord(l, t, k) && k in t.records
                 && t.records[k].checkIn == at && t.records[k].checkOut == out && !t.records[k].review
                 && t.records[k].(checkIn := 0, checkOut := None, review := false)
                    == l.records[k].(checkIn := 0, checkOut := None, review := false)
            else t == l
  {
  }

  lemma DeleteExact(l: Log, u: int, d: int)
    ensures var t := Step(l, Delete(u, d)); OnlyRecord(l, t, (u, d)) && (u, d) !in t.records
  {
  }

  /** The nightly run puts exactly the open records of past days under review, and does nothing else. */
  lemma FlagExact(l: Log, now: int, day: int)
    requires day * DAY <= now < (day + 1) * DAY
    ensures var t := Step(l, FlagMissing(now));
            && t.schedule == l.schedule && t.tracked == l.tracked && t.records.Keys == l.records.Keys
            && (forall k | k in l.records :: t.records[k].(review := false) == l.records[k].(review := false))
            && (forall k | k in l.records :: t.records[k].review
                  <==> l.records[k].review || (l.records[k].checkOut == None && l.records[k].day < day))
  {
    DayIs(day, now);
  }

  /** Setting the schedule or who is tracked touches no record; a schedule out of bounds is not stored. */
  lemma SettingsExact(l: Log, s: Schedule, u: int, on: bool)
    ensures var t := Step(l, SetSchedule(s));
            && t.records == l.records && t.tracked == l.tracked
            && t.schedule == if 0 <= s.startMin < s.endMin < 24 * 60 && 0 <= s.grace <= 120 && s.workdays != {}
                                && (forall w | w in s.workdays :: 0 <= w <= 6)
                             then s else l.schedule
    ensures var t := Step(l, SetTracked(u, on));
            && t.records == l.records && t.schedule == l.schedule
            && (u in t.tracked <==> on) && (forall v | v != u :: v in t.tracked <==> v in l.tracked)
  {
    DaysAreWeekdays(s.workdays);
  }

  lemma DaysAreWeekdays(days: set<int>)
    ensures days <= {0, 1, 2, 3, 4, 5, 6} <==> forall w | w in days :: 0 <= w <= 6
  {
    if days <= {0, 1, 2, 3, 4, 5, 6} {
      forall w | w in days ensures 0 <= w <= 6 { assert w in {0, 1, 2, 3, 4, 5, 6}; }
    }
    if forall w | w in days :: 0 <= w <= 6 {
      forall w | w in days ensures w in {0, 1, 2, 3, 4, 5, 6} { assert 0 <= w <= 6; }
    }
  }

  /** An administrator changes the times of this record, or takes it away. Reversed times are refused. */
  predicate Corrects(op: Op, k: (int, int)) {
    (op.Delete? || (op.Update? && InOrder(op.checkIn, op.checkOut))) && (op.user, op.day) == k
  }

  predicate Closes(op: Op, k: (int, int)) {
    op.CheckOut? && (op.user, DayOf(op.now)) == k
  }

  function Lateness(r: Record): (bool, int) {
    (Judge(r).late, Judge(r).lateMinutes)
  }

  lemma StepKeepsLateness(l: Log, op: Op, k: (int, int))
    requires k in l.records && !Corrects(op, k)
    ensures k in Step(l, op).records && Lateness(Step(l, op).records[k]) == Lateness(l.records[k])
    ensures !Closes(op, k) ==> Judge(Step(l, op).records[k]) == Judge(l.records[k])
  {
  }

  /** Lateness is settled at check-in: short of a correction nothing changes it, in particular no new
      schedule and no check-out. */
  lemma {:induction false} LatenessSurvives(l: Log, ops: seq<Op>, k: (int, int))
    requires k in l.records && forall i | 0 <= i < |ops| :: !Corrects(ops[i], k)
    ensures k in Run(l, ops).records && Lateness(Run(l, ops).records[k]) == Lateness(l.records[k])
    decreases |ops|
  {
    if ops != [] {
      StepKeepsLateness(l, ops[0], k);
      LatenessSurvives(Step(l, ops[0]), ops[1..], k);
    }
  }

  /** Once nobody checks out on it or corrects it any more, a record keeps its whole verdict. */
  lemma {:induction false} VerdictSurvives(l: Log, ops: seq<Op>, k: (int, int))
    requires k in l.records && forall i | 0 <= i < |ops| :: !Corrects(ops[i], k) && !Closes(ops[i], k)
    ensures k in Run(l, ops).records && Judge(Run(l, ops).records[k]) == Judge(l.records[k])
    decreases |ops|
  {
    if ops != [] {
      StepKeepsLateness(l, ops[0], k);
      VerdictSurvives(Step(l, ops[0]), ops[1..], k);
    }
  }

  // ---------- where a record comes from ----------

  lemma {:induction false} RunSplit(l: Log, a: seq<Op>, b: seq<Op>)
    ensures Run(l, a + b) == Run(Run(l, a), b)
    decreases |a|
  {
    if a == [] {
      assert a + b == b;
    } else {
      assert (a + b)[0] == a[0] && (a + b)[1..] == a[1..] + b;
      RunSplit(Step(l, a[0]), a[1..], b);
    }
  }

  lemma RunLast(l: Log, ops: seq<Op>)
    requires ops != []
    ensures Run(l, ops) == Step(Run(l, ops[..|ops| - 1]), ops[|ops| - 1])
  {
    var init, last := ops[..|ops| - 1], ops[|ops| - 1];
    assert ops == init + [last];
    RunSplit(l, init, [last]);
    assert [last][1..] == [];
    assert Run(Run(l, init), [last]) == Run(Step(Run(l, init), last), []);
  }

  /** Step `i` writes the record, and from then on it is there throughout. */
  ghost predicate WrittenAt(l: Log, ops: seq<Op>, k: (int, int), i: int) {
    && 0 <= i < |ops| && k !in Run(l, ops[..i]).records
    && forall j | i < j <= |ops| :: k in Run(l, ops[..j]).records
  }

  /** The record was made out under this schedule, for its own work date. */
  predicate Carries(r: Record, s: Schedule) {
    var f := InForce(s);
    && r.startMin == f.startMin && r.endMin == f.endMin && r.grace == f.grace
    && r.workday == (Weekday(r.day) in f.workdays)
  }

  ghost predicate CarriesFrom(l: Log, ops: seq<Op>, k: (int, int), r: Record, i: int) {
    WrittenAt(l, ops, k, i) && Carries(r, Run(l, ops[..i]).schedule)
  }

  lemma WrittenLater(l: Log, ops: seq<Op>, k: (int, int), i: int)
    requires ops != [] && WrittenAt(l, ops[..|ops| - 1], k, i) && k in Run(l, ops).records
    ensures WrittenAt(l, ops, k, i) && ops[..i] == ops[..|ops| - 1][..i]
  {
    var init := ops[..|ops| - 1];
    assert ops[..i] == init[..i] && ops[..|ops|] == ops;
    forall j | i < j <= |ops| ensures k in Run(l, ops[..j]).records {
      if j < |ops| { assert ops[..j] == init[..j]; }
    }
  }

  lemma StepKeepsSnapshot(l: Log, op: Op, k: (int, int), s: Schedule)
    requires k in l.records && k in Step(l, op).records && Carries(l.records[k], s)
    ensures Carries(Step(l, op).records[k], s)
  {
  }

  /** In every reachable log each record carries the schedule that was in force when it was written,
      whatever schedules have been set since and whatever has happened to the record. */
  lemma {:induction false} RecordsCarryTheirSchedule(l: Log, ops: seq<Op>, k: (int, int))
    requires l.records == map[] && k in Run(l, ops).records
    ensures exists i :: CarriesFrom(l, ops, k, Run(l, ops).records[k], i)
    decreases |ops|
  {
    var n := |ops| - 1;
    var init := ops[..n];
    RunLast(l, ops);
    var m := Run(l, init);
    if k in m.records {
      RecordsCarryTheirSchedule(l, init, k);
      var i :| CarriesFrom(l, init, k, m.records[k], i);
      WrittenLater(l, ops, k, i);
      StepKeepsSnapshot(m, ops[n], k, Run(l, ops[..i]).schedule);
      assert CarriesFrom(l, ops, k, Run(l, ops).records[k], i);
    } else {
      assert ops[..|ops|] == ops;
      assert Carries(Run(l, ops).records[k], m.schedule);
      assert CarriesFrom(l, ops, k, Run(l, ops).records[k], n);
    }
  }

  /** The nightly flag was raised at step `i`, the record being open and its day past, and no correction
      came after. */
  ghost predicate RaisedAt(l: Log, ops: seq<Op>, k: (int, int), i: int) {
    && 0 <= i < |ops| && ops[i].FlagMissing?
    && k in Run(l, ops[..i]).records && Overdue(Run(l, ops[..i]).records[k], DayOf(ops[i].now))
    && forall j | i < j < |ops| :: !Corrects(ops[j], k)
  }

  predicate UnderReview(l: Log, k: (int, int)) {
    k in l.records && l.records[k].review
  }

  lemma StepReviewIff(l: Log, op: Op, k: (int, int))
    ensures UnderReview(Step(l, op), k) <==>
            (UnderReview(l, k) && !Corrects(op, k))
            || (op.FlagMissing? && k in l.records && Overdue(l.records[k], DayOf(op.now)))
  {
  }

  /** A record is under review if and only if it was found open after its day, and nobody has corrected it
      since: no check-out and no new schedule clears the flag. */
  lemma {:induction false} ReviewIff(l: Log, ops: seq<Op>, k: (int, int))
    requires l.records == map[]
    ensures UnderReview(Run(l, ops), k) <==> exists i :: RaisedAt(l, ops, k, i)
    decreases |ops|
  {
    if ops != [] {
      var n := |ops| - 1;
      var init := ops[..n];
      RunLast(l, ops);
      ReviewIff(l, init, k);
      StepReviewIff(Run(l, init), ops[n], k);
      forall i | 0 <= i < n ensures ops[..i] == init[..i] && ops[i] == init[i] { }
      if i :| RaisedAt(l, init, k, i) && !Corrects(ops[n], k) {
        assert RaisedAt(l, ops, k, i);
      }
      if i :| RaisedAt(l, ops, k, i) {
        if i < n {
          assert RaisedAt(l, init, k, i);
        }
      }
      if ops[n].FlagMissing? && k in Run(l, init).records && Overdue(Run(l, init).records[k], DayOf(ops[n].now)) {
        assert RaisedAt(l, ops, k, n);
      }
    }
  }

  /** Every record sits under its employee and work date, and its check-in is from that date. */
  ghost predicate DatesAgree(l: Log) {
    forall k | k in l.records ::
      var r := l.records[k]; (r.user, r.day) == k && DayOf(r.checkIn) == r.day
  }

  /** The work date and the date lateness is judged against part ways only through a correction that
      moves the check-in to another day. */
  lemma StepKeepsDatesIff(l: Log, op: Op)
    requires DatesAgree(l)
    ensures DatesAgree(Step(l, op)) <==>
            !(op.Update? && InOrder(op.checkIn, op.checkOut) && (op.user, op.day) in l.records && DayOf(op.checkIn) != op.day)
  {
    if op.Update? && InOrder(op.checkIn, op.checkOut) && (op.user, op.day) in l.records {
      assert Step(l, op).records[(op.user, op.day)].checkIn == op.checkIn;
    }
  }

  // ---------- the table ----------

  class AttendanceTable {
    var schedule: Schedule
    var tracked: set<int>
    var records: map<(int, int), Record>

    function View(): Log
      reads this
    {
      Log(schedule, tracked, records)
    }

    constructor ()
      ensures View() == Log(DEFAULT, {}, map[])
    {
      schedule, tracked, records := DEFAULT, {}, map[];
    }

    method AdminSetSchedule(s: Schedule)
      modifies this
      ensures View() == Step(old(View()), SetSchedule(s))
    {
      if s.startMin < 0 || s.endMin > 1439 || s.startMin >= s.endMin { return; }
      if s.grace < 0 || s.grace > 120 || s.workdays == {} { return; }
      if !(s.workdays <= {0, 1, 2, 3, 4, 5, 6}) { return; }
      schedule := s;
    }

    method SetAttendanceTracked(u: int, on: bool)
      modifies this
      ensures View() == Step(old(View()), SetTracked(u, on))
    {
      if on { tracked := tracked + {u}; } else { tracked := tracked - {u}; }
    }

    /** The insert does nothing when the slot is taken. */
    method Insert(r: Record) returns (done: bool)
      modifies this`records
      ensures done <==> (r.user, r.day) !in old(records)
      ensures records == if done then old(records)[(r.user, r.day) := r] else old(records)
    {
      if (r.user, r.day) in records { return false; }
      records := records[(r.user, r.day) := r];
      return true;
    }

    method ClockIn(u: int, now: int) returns (done: bool)
      modifies this
      ensures View() == Step(old(View()), CheckIn(u, now))
      ensures done <==> u in tracked && (u, DayOf(now)) !in old(records)
    {
      if u !in tracked { return false; }
      done := Insert(Snapshot(schedule, u, now, None));
    }

    method ClockOut(u: int, now: int) returns (done: bool)
      modifies this
      ensures View() == Step(old(View()), CheckOut(u, now))
      ensures done ==> (u, DayOf(now)) in records && records[(u, DayOf(now))].checkOut == Some(now)
    {
      var k := (u, DayOf(now));
      if k !in records || records[k].checkOut.Some? { return false; }
      records := records[k := records[k].(checkOut := Some(now))];
      return true;
    }

    method AdminCreate(u: int, t: int, out: Option<int>, now: int) returns (done: bool)
      modifies this
      ensures View() == Step(old(View()), Create(u, t, out, now))
    {
      if t > now || (out.Some? && out.value > now) { return false; }
      if out.Some? && out.value < t { return false; }
      if u !in tracked { return false; }
      done := Insert(Snapshot(schedule, u, t, out));
    }

    method AdminUpdate(u: int, d: int, t: int, out: Option<int>)
      modifies this
      ensures View() == Step(old(View()), Update(u, d, t, out))
    {
      if out.Some? && out.value < t { return; }
      if (u, d) !in records { return; }
      records := records[(u, d) := records[(u, d)].(checkIn := t, checkOut := out, review := false)];
    }

    method AdminDelete(u: int, d: int)
      modifies this
      ensures View() == Step(old(View()), Delete(u, d))
    {
      records := records - {(u, d)};
    }

    /** One scan of the table. Afterwards a record is under review if it was so before, or is open and of
        a past day; nothing else about any record changes. */
    method FlagMissingCheckouts(now: int)
      modifies this`records
      ensures records.Keys == old(records).Keys
      ensures forall k | k in records ::
                var r := old(records)[k];
                records[k] == r.(review := r.review || (r.checkOut.None? && r.day < DayOf(now)))
      ensures View() == Step(old(View()), FlagMissing(now))
    {
      ghost var before := records;
      var left := records.Keys;
      while left != {}
        invariant left <= records.Keys == before.Keys
        invariant forall k | k in before :: records[k] == if k in left then before[k] else Judged(before[k], DayOf(now))
        decreases left
      {
        ghost var some := SomeMember(left);
        var k :| k in left;
        if records[k].checkOut.None? && !records[k].review && records[k].day < DayOf(now) {
          records := records[k := records[k].(review := true)];
        }
        left := left - {k};
      }
      assert records == Flagged(before, DayOf(now));
    }
  }
}
