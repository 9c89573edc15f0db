/** The sliding-window limiter: per key, a slice of event times pruned in place whenever it is touched.
    `log` is the full history the slices stand for. */
module RateLimit {

  /** The events after `cutoff`. */
  function After(s: seq<int>, cutoff: int): seq<int> {
    if s == [] then []
    else After(s[..|s| - 1], cutoff) + if s[|s| - 1] > cutoff then [s[|s| - 1]] else []
  }

  /** `kept` are, in order, exactly the events after `cutoff`; `at` says where each of them was. */
  predicate Picks(s: seq<int>, kept: seq<int>, cutoff: int, at: seq<int>) {
    && |at| == |kept|
    && (forall k | 0 <= k < |at| :: 0 <= at[k] < |s| && kept[k] == s[at[k]] && kept[k] > cutoff)
    && (forall j, k | 0 <= j < k < |at| :: at[j] < at[k])
    && (forall i | 0 <= i < |s| && s[i] > cutoff :: i in at)
  }

  lemma PicksOneMore(front: seq<int>, t: int, kept: seq<int>, cutoff: int, at: seq<int>)
    requires Picks(front, kept, cutoff, at)
    ensures if t > cutoff then Picks(front + [t], kept + [t], cutoff, at + [|front|])
            else Picks(front + [t], kept, cutoff, at)
  {
    var s, more := front + [t], at + [|front|];
    forall i | 0 <= i < |s| && s[i] > cutoff ensures i in more {
      if i < |front| {
        assert i in at;
      } else {
        assert more[|at|] == i;
      }
    }
    forall i | 0 <= i < |s| && s[i] > cutoff && t <= cutoff ensures i in at {
      assert i < |front|;
    }
  }

  /** What is kept is every event strictly inside the window, as often and in the order recorded. */
  lemma {:induction false} AfterPicks(s: seq<int>, cutoff: int) returns (at: seq<int>)
    ensures Picks(s, After(s, cutoff), cutoff, at)
  {
    at := [];
    if s != [] {
      var front, t := s[..|s| - 1], s[|s| - 1];
      at := AfterPicks(front, cutoff);
      var kept := After(front, cutoff);
      PicksOneMore(front, t, kept, cutoff, at);
      assert s == front + [t] && kept + [] == kept;
      if t > cutoff { at := at + [|front|]; }
    }
  }

  lemma {:induction false} AfterAfter(s: seq<int>, a: int, b: int)
    requires a <= b
    ensures After(After(s, a), b) == After(s, b)
  {
    if s != [] {
      var front := s[..|s| - 1];
      AfterAfter(front, a, b);
      if s[|s| - 1] > a {
        assert (After(front, a) + [s[|s| - 1]])[..|After(front, a)|] == After(front, a);
      } else {
        assert After(front, a) + [] == After(front, a);
      }
    }
  }

  lemma {:induction false} AfterAppend(s: seq<int>, t: int, cutoff: int)
    ensures After(s + [t], cutoff) == After(s, cutoff) + if t > cutoff then [t] else []
  {
    assert (s + [t])[..|s|] == s;
  }

  lemma {:induction false} AfterShorter(s: seq<int>, cutoff: int)
    ensures |After(s, cutoff)| <= |s|
  {
    if s != [] { AfterShorter(s[..|s| - 1], cutoff); }
  }

  /** Keeps the newer events at the front of the same array: reading never runs behind writing. */
  method Compact(a: array<int>, len: nat, cutoff: int) returns (kept: nat)
    requires len <= a.Length
    modifies a
    ensures kept <= len && a[..kept] == After(old(a[..len]), cutoff)
  {
    kept := 0;
    ghost var was := a[..len];
    for i := 0 to len
      invariant kept <= i
      invariant a[..kept] == After(was[..i], cutoff)
      invariant a[i..len] == was[i..]
    {
      assert was[..i + 1][..i] == was[..i];
      assert a[i] == a[i..len][0] == was[i];
      assert a[i + 1..len] == was[i + 1..];
      if a[i] > cutoff {
        ghost var front := a[..kept];
        a[kept] := a[i];
        kept := kept + 1;
        assert a[..kept] == front + [was[i]];
      }
    }
    assert was[..len] == was;
  }

  /** A Go slice: the first `len` cells of a backing array. */
  datatype Slice = Slice(data: array<int>, len: nat)

  function Front(s: Slice): seq<int>
    reads s.data
  {
    if s.len <= s.data.Length then s.data[..s.len] else []
  }

  class KeyedLimiter {
    const maxAttempts: int
    const window: nat
    var events: map<string, Slice>
    ghost var log: map<string, seq<int>>  // every event ever recorded
    ghost var clock: int                  // the last time an operation ran

    constructor (maxAttempts: int, window: nat, now: int)
      ensures Valid() && log == map[] && clock == now && Arrays() == {}
      ensures this.maxAttempts == maxAttempts && this.window == window
    {
      this.maxAttempts, this.window := maxAttempts, window;
      events, log, clock := map[], map[], now;
    }

    ghost function Arrays(): set<object>
      reads `events
    {
      set k | k in events :: events[k].data as object
    }

    /** The list kept for each key. */
    ghost function View(): map<string, seq<int>>
      reads `events, Arrays()
    {
      map k | k in events :: Front(events[k])
    }

    ghost function Kept(key: string): seq<int>
      reads `events, Arrays()
    {
      EventsAt(View(), key)
    }

    ghost function Logged(key: string): seq<int>
      reads `log
    {
      EventsAt(log, key)
    }

    /** What is kept answers every question about the present window as the full history would, and
        no backing array is shared. */
    ghost predicate Valid()
      reads this, Arrays()
    {
      Shaped() && Faithful(View(), log, clock, window)
    }

    ghost predicate Shaped()
      reads `events
    {
      && (forall k | k in events :: 0 < events[k].len <= events[k].data.Length)
      && (forall j, k | j in events && k in events && j != k :: events[j].data != events[k].data)
    }

    /** The clock moves on; nothing else does. */
    ghost method Tick(now: int)
      modifies `clock
      ensures clock == now && View() == old(View()) && Shaped() == old(Shaped())
    {
      clock := now;
    }

    /** The history grows by the event just written, at that event's own time. */
    ghost method Note(was: map<string, seq<int>>, key: string, stamp: int)
      requires Shaped() && Faithful(was, log, clock, window) && clock <= stamp
      requires ChangedAt(was, View(), key) && Kept(key) == EventsAt(was, key) + [stamp]
      modifies `log, `clock
      ensures Valid() && clock == stamp && log == old(log)[key := old(Logged(key)) + [stamp]]
    {
      var longer := log[key := Logged(key) + [stamp]];
      AppendingIsFaithful(was, View(), log, longer, key, clock, window, stamp);
      log, clock := longer, stamp;
    }

    /** Compacts one key's array; the others are not touched, since no array is shared. */
    method CompactAt(key: string, cutoff: int) returns (kept: nat)
      requires Shaped() && key in events
      modifies events[key].data
      ensures kept <= events[key].len && events[key].data[..kept] == After(old(Kept(key)), cutoff)
      ensures View() == old(View())[key := Front(events[key])]
    {
      var s := events[key];
      kept := Compact(s.data, s.len, cutoff);
      assert forall k | k in events && k != key :: Front(events[k]) == old(Front(events[k]));
    }

    /** Installs a slice for one key, or drops the key when nothing is left in it. */
    method Install(key: string, s: Slice)
      requires Shaped() && s.len <= s.data.Length
      requires forall k | k in events && k != key :: events[k].data != s.data
      modifies `events
      ensures Shaped() && Arrays() <= old(Arrays()) + {s.data}
      ensures ChangedAt(old(View()), View(), key) && Kept(key) == s.data[..s.len]
    {
      events := if s.len == 0 then events - {key} else events[key := s];
    }

    /** Drops the old events of one key, and the key itself with nothing left. */
    method DropOld(key: string, cutoff: int) returns (kept: nat)
      requires Shaped()
      modifies `events, Arrays()
      ensures Shaped() && Arrays() <= old(Arrays())
      ensures ChangedAt(old(View()), View(), key) && Kept(key) == After(old(Kept(key)), cutoff)
      ensures kept == |Kept(key)|
    {
      if key !in events { return 0; }
      var s := events[key];
      assert s.data in Arrays();
      kept := CompactAt(key, cutoff);
      Install(key, Slice(s.data, kept));
    }

    /** prune: afterwards the key's list is the full history's part inside the window. */
    method Prune(key: string, now: int) returns (kept: nat)
      requires Valid() && clock <= now
      modifies `events, `clock, Arrays()
      ensures Valid() && clock == now
      ensures Kept(key) == After(Logged(key), now - window) && kept == |Kept(key)|
      ensures ChangedAt(old(View()), View(), key)
      ensures Arrays() <= old(Arrays())
    {
      var cutoff := now - window;
      ghost var was := View();
      kept := DropOld(key, cutoff);
      PruningIsFaithful(was, View(), log, key, clock, window, now);
      Tick(now);
    }

    /** Answers as if it counted every event ever recorded for the key within the window. */
    method Blocked(key: string, now: int) returns (blocked: bool)
      requires Valid() && clock <= now
      modifies this`events, this`clock, Arrays()
      ensures Valid() && clock == now
      ensures blocked <==> |After(Logged(key), now - window)| >= maxAttempts
      ensures ChangedAt(old(View()), View(), key)
      ensures Arrays() <= old(Arrays())
    {
      var n := Prune(key, now);
      return n >= maxAttempts;
    }

    /** record: prunes, then appends, in place when the backing array has room. */
    method Record(key: string, now: int, stamp: int)
      requires Valid() && clock <= now <= stamp
      modifies this, Arrays()
      ensures Valid() && clock == stamp
      ensures log == old(log)[key := old(Logged(key)) + [stamp]]
    {
      var n := Prune(key, now);
      var s := Room(key);
      Store(key, s, stamp);
    }

    /** append's choice of backing array: the key's own while it has room, else a larger copy. */
    method Room(key: string) returns (s: Slice)
      requires Shaped()
      ensures s.len < s.data.Length && s.data[..s.len] == Kept(key)
      ensures fresh(s.data) || s.data in Arrays()
      ensures forall k | k in events && k != key :: events[k].data != s.data
    {
      if key !in events {
        var data := new int[1];
        return Slice(data, 0);
      }
      s := events[key];
      if s.len == s.data.Length {
        var data := new int[2 * s.len];
        forall i | 0 <= i < s.len { data[i] := s.data[i]; }
        assert data[..s.len] == s.data[..s.len];
        s := Slice(data, s.len);
      }
    }

    /** Writes the new event behind the `len` kept ones and installs the slice. */
    method Store(key: string, s: Slice, stamp: int)
      requires Valid() && s.len < s.data.Length && clock <= stamp
      requires s.data[..s.len] == Kept(key)
      requires forall k | k in events && k != key :: events[k].data != s.data
      modifies this`events, this`log, this`clock, s.data
      ensures Valid() && clock == stamp
      ensures log == old(log)[key := old(Logged(key)) + [stamp]]
    {
      ghost var was := View();
      Put(key, s, stamp);
      Note(was, key, stamp);
    }

    /** The write itself. */
    method Put(key: string, s: Slice, stamp: int)
      requires Shaped() && s.len < s.data.Length && s.data[..s.len] == Kept(key)
      requires forall k | k in events && k != key :: events[k].data != s.data
      modifies `events, s.data
      ensures Shaped() && ChangedAt(old(View()), View(), key) && Kept(key) == old(Kept(key)) + [stamp]
    {
      ghost var was, kept := View(), Kept(key);
      s.data[s.len] := stamp;
      assert s.data[..s.len + 1] == kept + [stamp];
      assert ChangedAt(was, View(), key);
      Install(key, Slice(s.data, s.len + 1));
    }

    /** What a handler does: refuse when blocked, otherwise record. */
    method Attempt(key: string, now: int, stamp: int) returns (allowed: bool)
      requires Valid() && clock <= now <= stamp && Guarded(Logged(key), maxAttempts, window, 0)
      modifies this, Arrays()
      ensures Valid() && Guarded(Logged(key), maxAttempts, window, 0)
      ensures allowed <==> |After(old(Logged(key)), now - window)| < maxAttempts
      ensures Logged(key) == old(Logged(key)) + if allowed then [stamp] else []
    {
      ghost var before := Logged(key);
      var blocked := Blocked(key, now);
      if blocked { return false; }
      Record(key, now, stamp);
      assert (before + [stamp])[..|before|] == before;
      assert before[..|before|] == before;
      assert CheckedAt(before, stamp, maxAttempts, window, 0, now, |before|);
      assert Checked(before, stamp, maxAttempts, window, 0);
      return true;
    }
  }

  predicate SameAfter(kept: seq<int>, log: seq<int>, now: int, window: nat, cutoff: int) {
    now - window <= cutoff ==> After(kept, cutoff) == After(log, cutoff)
  }

  /** Two lists hold the same events after every cutoff that can still be asked for: from `now` on. */
  ghost predicate Represents(kept: seq<int>, log: seq<int>, now: int, window: nat) {
    forall c :: SameAfter(kept, log, now, window, c)
  }

  lemma RepresentsLater(kept: seq<int>, log: seq<int>, now: int, window: nat, later: int)
    requires Represents(kept, log, now, window) && now <= later
    ensures Represents(kept, log, later, window)
  {
    forall c ensures SameAfter(kept, log, later, window, c) {
      assert SameAfter(kept, log, now, window, c);
    }
  }

  lemma PruningRepresents(kept: seq<int>, log: seq<int>, now: int, window: nat, later: int)
    requires Represents(kept, log, now, window) && now <= later
    ensures After(kept, later - window) == After(log, later - window)
    ensures Represents(After(kept, later - window), log, later, window)
  {
    var cutoff := later - window;
    assert SameAfter(kept, log, now, window, cutoff);
    forall c ensures SameAfter(After(kept, cutoff), log, later, window, c) {
      if cutoff <= c {
        AfterAfter(kept, cutoff, c);
        assert SameAfter(kept, log, now, window, c);
      }
    }
  }

  lemma AppendingRepresents(kept: seq<int>, log: seq<int>, now: int, window: nat, t: int)
    requires Represents(kept, log, now, window) && now <= t
    ensures Represents(kept + [t], log + [t], t, window)
  {
    forall c ensures SameAfter(kept + [t], log + [t], t, window, c) {
      assert SameAfter(kept, log, now, window, c);
      AfterAppend(kept, t, c);
      AfterAppend(log, t, c);
    }
  }

  function EventsAt(lists: map<string, seq<int>>, key: string): seq<int> {
    if key in lists then lists[key] else []
  }

  ghost predicate ChangedAt(was: map<string, seq<int>>, lists: map<string, seq<int>>, key: string) {
    forall k | k != key :: EventsAt(lists, k) == EventsAt(was, k)
  }

  /** Every key's list represents that key's history from `now` on. */
  ghost predicate Faithful(lists: map<string, seq<int>>, log: map<string, seq<int>>, now: int, window: nat) {
    forall k :: Represents(EventsAt(lists, k), EventsAt(log, k), now, window)
  }

  lemma PruningIsFaithful(was: map<string, seq<int>>, lists: map<string, seq<int>>, log: map<string, seq<int>>,
                          key: string, now: int, window: nat, later: int)
    requires Faithful(was, log, now, window) && now <= later
    requires ChangedAt(was, lists, key) && EventsAt(lists, key) == After(EventsAt(was, key), later - window)
    ensures Faithful(lists, log, later, window) && EventsAt(lists, key) == After(EventsAt(log, key), later - window)
  {
    PruningRepresents(EventsAt(was, key), EventsAt(log, key), now, window, later);
    forall k ensures Represents(EventsAt(lists, k), EventsAt(log, k), later, window) {
      if k != key { RepresentsLater(EventsAt(was, k), EventsAt(log, k), now, window, later); }
    }
  }

  lemma AppendingIsFaithful(was: map<string, seq<int>>, lists: map<string, seq<int>>, log: map<string, seq<int>>,
                            longer: map<string, seq<int>>, key: string, now: int, window: nat, t: int)
    requires Faithful(was, log, now, window) && now <= t && longer == log[key := EventsAt(log, key) + [t]]
    requires ChangedAt(was, lists, key) && EventsAt(lists, key) == EventsAt(was, key) + [t]
    ensures Faithful(lists, longer, t, window)
  {
    AppendingRepresents(EventsAt(was, key), EventsAt(log, key), now, window, t);
    forall k ensures Represents(EventsAt(lists, k), EventsAt(longer, k), t, window) {
      if k != key { RepresentsLater(EventsAt(was, k), EventsAt(log, k), now, window, t); }
    }
  }

  // ---------- the limit over time ----------

  /** The event at `t` followed a check at time `c` that saw the first `j` events and did not block;
      at most `overlap` others were recorded in between. */
  predicate CheckedAt(before: seq<int>, t: int, maxAttempts: int, window: nat, overlap: nat, c: int, j: nat) {
    j <= |before| <= j + overlap && c <= t && |After(before[..j], c - window)| < maxAttempts
  }

  ghost predicate Checked(before: seq<int>, t: int, maxAttempts: int, window: nat, overlap: nat) {
    exists c, j :: CheckedAt(before, t, maxAttempts, window, overlap, c, j)
  }

  /** Every event followed an unblocked check of its own; with `overlap` 0 nothing came in between. */
  ghost predicate Guarded(log: seq<int>, maxAttempts: int, window: nat, overlap: nat) {
    log != [] ==>
      && Guarded(log[..|log| - 1], maxAttempts, window, overlap)
      && Checked(log[..|log| - 1], log[|log| - 1], maxAttempts, window, overlap)
  }

  function CountWithin(s: seq<int>, lo: int, hi: int): nat {
    if s == [] then 0
    else CountWithin(s[..|s| - 1], lo, hi) + if lo < s[|s| - 1] <= hi then 1 else 0
  }

  lemma {:induction false} CountAtMostAfter(s: seq<int>, lo: int, hi: int, cutoff: int)
    requires cutoff <= lo
    ensures CountWithin(s, lo, hi) <= |After(s, cutoff)|
  {
    if s != [] { CountAtMostAfter(s[..|s| - 1], lo, hi, cutoff); }
  }

  lemma {:induction false} CountOfLonger(s: seq<int>, j: nat, lo: int, hi: int)
    requires j <= |s|
    ensures CountWithin(s, lo, hi) <= CountWithin(s[..j], lo, hi) + |s| - j
  {
    if j < |s| {
      CountOfLonger(s[..|s| - 1], j, lo, hi);
      assert s[..|s| - 1][..j] == s[..j];
    } else {
      assert s[..j] == s;
    }
  }

  /** No interval of one window's length, wherever it starts, holds more events than allowed, or than
      allowed plus the requests that slipped between a check and its record. */
  lemma {:induction false} NoWindowOverflows(log: seq<int>, maxAttempts: nat, window: nat, overlap: nat, lo: int)
    requires Guarded(log, maxAttempts, window, overlap)
    ensures CountWithin(log, lo, lo + window) <= maxAttempts + overlap
  {
    if log != [] {
      var front, t := log[..|log| - 1], log[|log| - 1];
      NoWindowOverflows(front, maxAttempts, window, overlap, lo);
      if lo < t <= lo + window {
        var c: int, j: nat :| CheckedAt(front, t, maxAttempts, window, overlap, c, j);
        CountOfLonger(front, j, lo, lo + window);
        CountAtMostAfter(front[..j], lo, lo + window, c - window);
      }
    }
  }

  function Burst(n: nat): (s: seq<int>)
    ensures |s| == n
  {
    if n == 0 then [] else Burst(n - 1) + [0]
  }

  lemma BurstEventIsChecked(n: nat, maxAttempts: nat, window: nat, overlap: nat)
    requires 0 < maxAttempts && n < maxAttempts + overlap
    ensures Checked(Burst(n), 0, maxAttempts, window, overlap)
  {
    var j := if n < maxAttempts then n else maxAttempts - 1;
    AfterShorter(Burst(n)[..j], 0 - window);
    assert CheckedAt(Burst(n), 0, maxAttempts, window, overlap, 0, j);
  }

  /** The excess is real: requests checked together before any of them is recorded reach the bound. */
  lemma {:induction false} OverlapReachesTheBound(n: nat, maxAttempts: nat, window: nat, overlap: nat)
    requires 0 < maxAttempts && 0 < window && n <= maxAttempts + overlap
    ensures Guarded(Burst(n), maxAttempts, window, overlap)
    ensures CountWithin(Burst(n), -1, window - 1) == n
  {
    if n > 0 {
      OverlapReachesTheBound(n - 1, maxAttempts, window, overlap);
      BurstEventIsChecked(n - 1, maxAttempts, window, overlap);
      assert Burst(n)[..n - 1] == Burst(n - 1);
    }
  }
}
