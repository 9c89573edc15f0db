/** The in-memory registry of WebSocket connections: eviction at the cap, presence reports, late
    unregistering of connections that were evicted before. */
module ChatHub {
  import opened Basics

  const MAX_CONNS_PER_USER := 20

  /** What a caller of register or unregister broadcasts: the user came online, or went offline. */
  datatype Report = Report(user: int, online: bool)

  /** `user` has every connection ever registered, `shut` the evicted ones (socket closed), `gone` the
      unregistered ones (send channel closed). */
  datatype Hub<T> = Hub(conns: map<int, seq<T>>, user: map<T, int>, shut: set<T>, gone: set<T>, reports: seq<Report>)

  datatype Event<T> = Register(user: int, conn: T) | Unregister(conn: T)

  function Empty<T>(): Hub<T> {
    Hub(map[], map[], {}, {}, [])
  }

  function ListOf<T>(conns: map<int, seq<T>>, u: int): seq<T> {
    if u in conns then conns[u] else []
  }

  function Dropped<T(==)>(l: seq<T>, c: T): seq<T> {
    if l == [] then [] else if l[0] == c then l[1..] else [l[0]] + Dropped(l[1..], c)
  }

  /** A connection is registered once, and unregisters at most once, possibly long after its eviction. */
  predicate Allowed<T(==)>(h: Hub<T>, e: Event<T>) {
    match e
    case Register(_, c) => c !in h.user
    case Unregister(c) => c in h.user && c !in h.gone
  }

  function Step<T(==)>(h: Hub<T>, e: Event<T>): Hub<T>
    requires Allowed(h, e)
  {
    match e
    case Register(u, c) =>
      var l := ListOf(h.conns, u);
      var full := |l| >= MAX_CONNS_PER_USER;
      Hub(h.conns[u := (if full then l[1..] else l) + [c]],
          h.user[c := u],
          if full then h.shut + {l[0]} else h.shut,
          h.gone,
          if l == [] then h.reports + [Report(u, true)] else h.reports)
    case Unregister(c) =>
      var u := h.user[c];
      var l := Dropped(ListOf(h.conns, u), c);
      h.(conns := if l == [] then h.conns - {u} else h.conns[u := l],
         gone := h.gone + {c},
         reports := if l == [] then h.reports + [Report(u, false)] else h.reports)
  }

  predicate AllAllowed<T(==)>(h: Hub<T>, events: seq<Event<T>>)
    decreases |events|
  {
    events != [] ==> Allowed(h, events[0]) && AllAllowed(Step(h, events[0]), events[1..])
  }

  function Run<T(==)>(h: Hub<T>, events: seq<Event<T>>): Hub<T>
    requires AllAllowed(h, events)
    decreases |events|
  {
    if events == [] then h else Run(Step(h, events[0]), events[1..])
  }

  // ---------- what every run keeps ----------

  /** The last thing reported about a user; nobody starts online. */
  function LastReport(reports: seq<Report>, u: int): bool {
    if reports == [] then false
    else
      var r := reports[|reports| - 1];
      if r.user == u then r.online else LastReport(reports[..|reports| - 1], u)
  }

  lemma LastReportAfter(reports: seq<Report>, r: Report, u: int)
    ensures LastReport(reports + [r], u) == if r.user == u then r.online else LastReport(reports, u)
  {
    assert (reports + [r])[..|reports|] == reports;
  }

  ghost predicate ListSound<T>(h: Hub<T>, u: int)
    requires u in h.conns
  {
    var l := h.conns[u];
    && 0 < |l| <= MAX_CONNS_PER_USER
    && NoRepeats(l)
    && forall c | c in l :: c in h.user && h.user[c] == u && c !in h.gone && c !in h.shut
  }

  /** No empty, overlong or repeating list; a connection still to unregister is listed or had its
      socket closed, which is what makes it unregister; a user is listed iff last reported online. */
  ghost predicate Sound<T>(h: Hub<T>) {
    && h.gone + h.shut <= h.user.Keys
    && (forall u | u in h.conns :: ListSound(h, u))
    && (forall c | c in h.user && c !in h.gone :: c in ListOf(h.conns, h.user[c]) || c in h.shut)
    && (forall u :: LastReport(h.reports, u) <==> u in h.conns)
  }

  lemma {:induction false} DroppedAt<T>(l: seq<T>, i: nat, c: T)
    requires i < |l| && c !in l[..i] && l[i] == c
    ensures Dropped(l, c) == l[..i] + l[i + 1..]
  {
    if i > 0 {
      assert l[0] in l[..i];
      assert l[1..][..i - 1] == l[..i][1..];
      DroppedAt(l[1..], i - 1, c);
    }
  }

  lemma {:induction false} DroppedMissing<T>(l: seq<T>, c: T)
    requires c !in l
    ensures Dropped(l, c) == l
  {
    if l != [] { DroppedMissing(l[1..], c); }
  }

  lemma {:induction false} DroppedFrom<T>(l: seq<T>, c: T)
    requires NoRepeats(l)
    ensures |Dropped(l, c)| <= |l| && NoRepeats(Dropped(l, c))
    ensures forall d | d in Dropped(l, c) :: d in l && d != c
    ensures forall d | d in l && d != c :: d in Dropped(l, c)
  {
    if c in l {
      var i :| 0 <= i < |l| && l[i] == c;
      DroppedAt(l, i, c);
      forall d | d in l && d != c ensures d in l[..i] + l[i + 1..] {
        var j :| 0 <= j < |l| && l[j] == d;
        assert if j < i then l[..i][j] == d else l[i + 1..][j - i - 1] == d;
      }
    } else {
      DroppedMissing(l, c);
    }
  }

  lemma RegisterKeepsSound<T>(h: Hub<T>, u: int, c: T)
    requires Sound(h) && Allowed(h, Register(u, c))
    ensures Sound(Step(h, Register(u, c)))
  {
    var h' := Step(h, Register(u, c));
    var l := ListOf(h.conns, u);
    assert u in h.conns ==> ListSound(h, u);
    assert c !in l;
    forall v | v in h'.conns ensures ListSound(h', v) {
      if v != u {
        assert ListSound(h, v);
        assert c !in h.conns[v] && (l != [] ==> l[0] !in h.conns[v]);
      } else {
        assert l != [] ==> l[0] !in l[1..];
      }
    }
    forall v ensures LastReport(h'.reports, v) <==> v in h'.conns {
      if l == [] { LastReportAfter(h.reports, Report(u, true), v); }
    }
    assert forall d | d in l :: d == l[0] || d in l[1..];
  }

  lemma UnregisterKeepsSound<T>(h: Hub<T>, c: T)
    requires Sound(h) && Allowed(h, Unregister(c))
    ensures Sound(Step(h, Unregister(c)))
  {
    var h' := Step(h, Unregister(c));
    var u := h.user[c];
    assert u in h.conns ==> ListSound(h, u);
    DroppedFrom(ListOf(h.conns, u), c);
    forall v ensures LastReport(h'.reports, v) <==> v in h'.conns {
      var l := Dropped(ListOf(h.conns, u), c);
      if l == [] { LastReportAfter(h.reports, Report(u, false), v); }
    }
    forall v | v in h'.conns ensures ListSound(h', v) {
      if v != u {
        assert ListSound(h, v);
        assert c !in h.conns[v];
      } else {
        assert h'.conns[u] == Dropped(h.conns[u], c);
      }
    }
  }

  lemma {:induction false} RunKeepsSound<T>(h: Hub<T>, events: seq<Event<T>>)
    requires Sound(h) && AllAllowed(h, events)
    ensures Sound(Run(h, events))
    decreases |events|
  {
    if events != [] {
      match events[0] {
        case Register(u, c) => RegisterKeepsSound(h, u, c);
        case Unregister(c) => UnregisterKeepsSound(h, c);
      }
      RunKeepsSound(Step(h, events[0]), events[1..]);
    }
  }

  /** An offline report is a change exactly when the connection was still listed. An evicted one that
      unregisters after all the others have left reports the same user offline once more. */
  lemma OfflineReportIsAChangeIff<T>(h: Hub<T>, c: T)
    requires Sound(h) && Allowed(h, Unregister(c)) && Step(h, Unregister(c)).reports != h.reports
    ensures LastReport(h.reports, h.user[c]) <==> c !in h.shut
  {
    var u := h.user[c];
    if u in h.conns {
      assert ListSound(h, u);
      if c !in h.conns[u] { DroppedMissing(h.conns[u], c); }
    }
  }

  lemma OnlineReportIsAChange<T>(h: Hub<T>, u: int, c: T)
    requires Sound(h) && Allowed(h, Register(u, c))
    ensures Step(h, Register(u, c)).reports != h.reports <==> !LastReport(h.reports, u)
  {
    if u in h.conns { assert ListSound(h, u); }
  }

  // ---------- a run in which a user is reported offline twice ----------

  lemma {:induction false} RunOneMore<T>(h: Hub<T>, events: seq<Event<T>>, e: Event<T>)
    requires AllAllowed(h, events) && Allowed(Run(h, events), e)
    ensures AllAllowed(h, events + [e]) && Run(h, events + [e]) == Step(Run(h, events), e)
    decreases |events|
  {
    if events == [] {
      assert events + [e] == [e];
      assert AllAllowed(Step(h, e), []);
    } else {
      RunOneMore(Step(h, events[0]), events[1..], e);
      assert (events + [e])[1..] == events[1..] + [e];
    }
  }

  /** Registering puts the newcomer last in the user's list, in which nobody else is touched unless there
      are 20 already: then the oldest gives way and has its socket closed. Nobody else's list changes. */
  lemma RegisterExact<T>(h: Hub<T>, u: int, c: T)
    requires Sound(h) && Allowed(h, Register(u, c))
    ensures var t := Step(h, Register(u, c)); var l := ListOf(h.conns, u);
            && u in t.conns && t.user == h.user[c := u] && t.gone == h.gone
            && (|l| < 20 ==> t.conns[u] == l + [c] && t.shut == h.shut)
            && (|l| == 20 ==> [l[0]] + t.conns[u] == l + [c] && t.shut == h.shut + {l[0]})
            && (forall v | v != u :: ListOf(t.conns, v) == ListOf(h.conns, v))
            && (if u in h.conns then t.reports == h.reports else t.reports == h.reports + [Report(u, true)])
  {
    if u in h.conns { assert ListSound(h, u); }
  }

  /** The connections registered for a user, in order. */
  function Registered<T>(events: seq<Event<T>>, u: int): seq<T> {
    if events == [] then []
    else
      var e := events[|events| - 1];
      Registered(events[..|events| - 1], u) + if e.Register? && e.user == u then [e.conn] else []
  }

  /** The elements of `l` stand in `r` at these places, one after the other. */
  predicate StandsIn<T(==)>(l: seq<T>, r: seq<T>, at: seq<int>) {
    && |at| == |l|
    && (forall k | 0 <= k < |at| :: 0 <= at[k] < |r| && l[k] == r[at[k]])
    && (forall j, k | 0 <= j < k < |at| :: at[j] < at[k])
  }

  lemma {:induction false} DroppedStands<T>(l: seq<T>, c: T, r: seq<T>, at: seq<int>) returns (less: seq<int>)
    requires StandsIn(l, r, at)
    ensures StandsIn(Dropped(l, c), r, less) && forall i | i in less :: i in at
  {
    less := [];
    if l != [] {
      if l[0] == c {
        less := at[1..];
      } else {
        var rest := DroppedStands(l[1..], c, r, at[1..]);
        less := [at[0]] + rest;
        forall j, k | 0 <= j < k < |less| ensures less[j] < less[k] {
          assert less[k] == rest[k - 1] && rest[k - 1] in at[1..];
        }
        forall k | 0 <= k < |less| ensures 0 <= less[k] < |r| && Dropped(l, c)[k] == r[less[k]] {
          if k > 0 { assert less[k] == rest[k - 1]; }
        }
        forall i | i in less ensures i in at {
          if i != at[0] { assert i in rest; }
        }
      }
    }
  }

  lemma StandsInMore<T>(l: seq<T>, r: seq<T>, at: seq<int>, c: T)
    requires StandsIn(l, r, at)
    ensures StandsIn(l, r + [c], at) && StandsIn(l + [c], r + [c], at + [|r|])
    ensures l != [] ==> StandsIn(l[1..] + [c], r + [c], at[1..] + [|r|])
  {
  }

  lemma {:induction false} AllowedFront<T>(h: Hub<T>, events: seq<Event<T>>)
    requires AllAllowed(h, events) && events != []
    ensures AllAllowed(h, events[..|events| - 1]) && Allowed(Run(h, events[..|events| - 1]), events[|events| - 1])
    ensures Run(h, events) == Step(Run(h, events[..|events| - 1]), events[|events| - 1])
    decreases |events|
  {
    if |events| == 1 {
      assert Run(Step(h, events[0]), events[1..]) == Step(h, events[0]);
    } else {
      AllowedFront(Step(h, events[0]), events[1..]);
      assert events[..|events| - 1][1..] == events[1..][..|events| - 2];
    }
  }

  /** Over any run a user's list stands in the order of registration, so the first of it is the oldest. */
  lemma {:induction false} OldestFirst<T>(events: seq<Event<T>>, u: int) returns (at: seq<int>)
    requires AllAllowed(Empty(), events)
    ensures StandsIn(ListOf(Run(Empty(), events).conns, u), Registered(events, u), at)
    decreases |events|
  {
    at := [];
    if events != [] {
      var front, e := events[..|events| - 1], events[|events| - 1];
      AllowedFront(Empty(), events);
      at := OldestFirst(front, u);
      at := StepKeepsOrder(Run(Empty(), front), e, Registered(front, u), u, at);
    }
  }

  lemma StepKeepsOrder<T>(h: Hub<T>, e: Event<T>, r: seq<T>, u: int, at: seq<int>) returns (after: seq<int>)
    requires Allowed(h, e) && StandsIn(ListOf(h.conns, u), r, at)
    ensures StandsIn(ListOf(Step(h, e).conns, u), r + (if e.Register? && e.user == u then [e.conn] else []), after)
  {
    var l := ListOf(h.conns, u);
    match e
    case Register(v, c) =>
      if v == u {
        StandsInMore(l, r, at, c);
        after := (if |l| >= MAX_CONNS_PER_USER then at[1..] else at) + [|r|];
      } else {
        after := at;
        assert r + [] == r;
      }
    case Unregister(c) =>
      assert r + [] == r;
      if h.user[c] == u {
        after := DroppedStands(l, c, r, at);
      } else {
        after := at;
      }
  }

  function Span(a: int, b: int): seq<int>
    requires a <= b
  {
    seq(b - a, i => a + i)
  }

  function UserZero(n: nat): (m: map<int, int>)
    ensures forall c :: c in m <==> 0 <= c < n
    ensures forall c | c in m :: m[c] == 0
  {
    if n == 0 then map[] else UserZero(n - 1)[n - 1 := 0]
  }

  function UpTo(k: nat): (s: set<int>)
    ensures forall c :: c in s <==> 1 <= c <= k
  {
    if k == 0 then {} else UpTo(k - 1) + {k}
  }

  /** User 0 after opening `n` connections, and after also closing numbers 1 to `k` of 21. */
  function Opened(n: nat): Hub<int> {
    Hub(map[0 := Span(0, n)], UserZero(n), {}, {}, [Report(0, true)])
  }

  function Closed(k: nat): Hub<int>
    requires k < MAX_CONNS_PER_USER
  {
    Hub(map[0 := Span(k + 1, MAX_CONNS_PER_USER + 1)], UserZero(MAX_CONNS_PER_USER + 1), {0}, UpTo(k), [Report(0, true)])
  }

  lemma FirstOpens()
    ensures Step(Empty(), Register(0, 0)) == Opened(1)
  {
    var h := Step(Empty(), Register(0, 0));
    assert h.conns[0] == Span(0, 1);
    assert h.conns == map[0 := Span(0, 1)];
    assert h.user == UserZero(1);
    assert h.reports == [Report(0, true)];
  }

  lemma NextOpens(n: nat)
    requires 1 <= n < MAX_CONNS_PER_USER
    ensures Step(Opened(n), Register(0, n)) == Opened(n + 1)
  {
    assert Span(0, n) + [n] == Span(0, n + 1);
  }

  lemma LastOpens()
    ensures Step(Opened(MAX_CONNS_PER_USER), Register(0, MAX_CONNS_PER_USER)) == Closed(0)
  {
    assert Span(0, MAX_CONNS_PER_USER)[1..] + [MAX_CONNS_PER_USER] == Span(1, MAX_CONNS_PER_USER + 1);
  }

  lemma FirstDropped(k: nat)
    requires k < MAX_CONNS_PER_USER
    ensures Dropped(Span(k, MAX_CONNS_PER_USER + 1), k) == Span(k + 1, MAX_CONNS_PER_USER + 1)
  {
    DroppedAt(Span(k, MAX_CONNS_PER_USER + 1), 0, k);
    assert Span(k, MAX_CONNS_PER_USER + 1)[1..] == Span(k + 1, MAX_CONNS_PER_USER + 1);
  }

  lemma NextCloses(k: nat)
    requires 1 <= k < MAX_CONNS_PER_USER
    ensures Allowed(Closed(k - 1), Unregister(k)) && Step(Closed(k - 1), Unregister(k)) == Closed(k)
  {
    var h := Closed(k - 1);
    assert k in h.user && h.user[k] == 0 && k !in h.gone;
    FirstDropped(k);
    assert ListOf(h.conns, 0) == Span(k, MAX_CONNS_PER_USER + 1);
    assert |Span(k + 1, MAX_CONNS_PER_USER + 1)| == MAX_CONNS_PER_USER - k;
    assert h.conns[0 := Span(k + 1, MAX_CONNS_PER_USER + 1)] == Closed(k).conns;
  }

  lemma {:induction false} Opening(n: nat) returns (events: seq<Event<int>>)
    requires 1 <= n <= MAX_CONNS_PER_USER
    ensures AllAllowed(Empty(), events) && Run(Empty(), events) == Opened(n)
  {
    if n == 1 {
      FirstOpens();
      RunOneMore(Empty(), [], Register(0, 0));
      events := [] + [Register(0, 0)];
    } else {
      events := Opening(n - 1);
      NextOpens(n - 1);
      RunOneMore(Empty(), events, Register(0, n - 1));
      events := events + [Register(0, n - 1)];
    }
  }

  lemma {:induction false} Closing(k: nat) returns (events: seq<Event<int>>)
    requires k < MAX_CONNS_PER_USER
    ensures AllAllowed(Empty(), events) && Run(Empty(), events) == Closed(k)
  {
    if k == 0 {
      events := Opening(MAX_CONNS_PER_USER);
      LastOpens();
      RunOneMore(Empty(), events, Register(0, MAX_CONNS_PER_USER));
      events := events + [Register(0, MAX_CONNS_PER_USER)];
    } else {
      events := Closing(k - 1);
      NextCloses(k);
      RunOneMore(Empty(), events, Unregister(k));
      events := events + [Unregister(k)];
    }
  }

  lemma OfflineIsReportedTwice() returns (events: seq<Event<int>>)
    ensures AllAllowed(Empty(), events)
    ensures Run(Empty(), events).reports == [Report(0, true), Report(0, false), Report(0, false)]
  {
    events := Closing(MAX_CONNS_PER_USER - 1);
    DroppedAt(Span(MAX_CONNS_PER_USER, MAX_CONNS_PER_USER + 1), 0, MAX_CONNS_PER_USER);
    RunOneMore(Empty(), events, Unregister(MAX_CONNS_PER_USER));
    events := events + [Unregister(MAX_CONNS_PER_USER)];
    assert Run(Empty(), events).conns == map[];
    RunOneMore(Empty(), events, Unregister(0));
    events := events + [Unregister(0)];
  }

  // ---------- the registry itself ----------

  class ChatConn {
    const userID: int
    var socketClosed: bool
    var sendCloses: nat  // closing a channel a second time would panic

    constructor (userID: int)
      ensures this.userID == userID && !socketClosed && sendCloses == 0
    {
      this.userID, socketClosed, sendCloses := userID, false, 0;
    }
  }

  /** Every connection listed for one of `us`. */
  function Listed<T>(conns: map<int, seq<T>>, us: set<int>): set<T> {
    set u, c | u in us && u in conns && c in conns[u] :: c
  }

  lemma ListedOneMore<T>(h: Hub<T>, us: set<int>, u: int)
    requires Sound(h) && u in h.conns && u !in us && us <= h.conns.Keys
    ensures |Listed(h.conns, us + {u})| == |Listed(h.conns, us)| + |h.conns[u]|
  {
    assert ListSound(h, u);
    SetOfSize(h.conns[u]);
    assert Listed(h.conns, us + {u}) == Listed(h.conns, us) + SetOf(h.conns[u]);
    forall c | c in Listed(h.conns, us) ensures c !in h.conns[u] {
      var v :| v in us && v in h.conns && c in h.conns[v];
      assert ListSound(h, v);
    }
  }

  /** Every connection shows what has happened to it. */
  ghost predicate Shows(h: Hub<ChatConn>)
    reads h.user.Keys
  {
    forall c | c in h.user ::
      && c.userID == h.user[c]
      && c.sendCloses == (if c in h.gone then 1 else 0)
      && (c in h.shut ==> c.socketClosed)
  }

  lemma NewcomerShows(c: ChatConn, h: Hub<ChatConn>, next: Hub<ChatConn>)
    requires Shows(h) && h.gone + h.shut <= h.user.Keys && c !in h.user && c.sendCloses == 0
    requires next.user == h.user[c := c.userID] && next.gone == h.gone && next.shut == h.shut
    ensures Shows(next)
  {
  }

  class ChatHub {
    var conns: map<int, seq<ChatConn>>
    ghost var hub: Hub<ChatConn>

    ghost predicate Valid()
      reads this, hub.user.Keys
    {
      conns == hub.conns && Sound(hub) && Shows(hub)
    }

    constructor ()
      ensures Valid() && hub == Empty()
    {
      conns, hub := map[], Empty();
    }

    method Register(userID: int) returns (c: ChatConn, becameOnline: bool)
      requires Valid()
      modifies this, hub.user.Keys
      ensures Valid() && fresh(c) && c.userID == userID
      ensures Allowed(old(hub), Event.Register(userID, c)) && hub == Step(old(hub), Event.Register(userID, c))
      ensures becameOnline <==> !LastReport(old(hub.reports), userID)
    {
      var l := if userID in conns then conns[userID] else [];
      if userID in conns { assert ListSound(hub, userID); }
      becameOnline := |l| == 0;
      c := new ChatConn(userID);
      Place(c);
    }

    /** The new connection joins its user's list, which gives up its oldest at the cap. */
    method Place(c: ChatConn)
      requires Valid() && c !in hub.user && c.sendCloses == 0
      modifies this, hub.user.Keys
      ensures Valid() && hub == Step(old(hub), Event.Register(c.userID, c))
    {
      var l := if c.userID in conns then conns[c.userID] else [];
      ghost var next := Step(hub, Event.Register(c.userID, c));
      RegisterKeepsSound(hub, c.userID, c);
      if |l| >= MAX_CONNS_PER_USER {
        assert ListSound(hub, c.userID);
        conns := conns[c.userID := l[1..] + [c]];
        Shut(l[0], c, hub, next);
      } else {
        conns := conns[c.userID := l + [c]];
        NewcomerShows(c, hub, next);
      }
      Record(next);
    }

    /** Closes the evicted connection's socket. */
    method Shut(oldest: ChatConn, ghost c: ChatConn, ghost h: Hub<ChatConn>, ghost next: Hub<ChatConn>)
      requires Shows(h) && h.gone + h.shut <= h.user.Keys && oldest in h.user && c !in h.user && c.sendCloses == 0
      requires next.user == h.user[c := c.userID] && next.gone == h.gone && next.shut == h.shut + {oldest}
      modifies oldest`socketClosed
      ensures Shows(next)
    {
      oldest.socketClosed := true;
    }

    ghost method Record(next: Hub<ChatConn>)
      requires conns == next.conns && Sound(next) && Shows(next)
      modifies `hub
      ensures Valid() && hub == next
    {
      hub := next;
    }

    /** Also called for connections evicted long ago; the channel is closed exactly once. */
    method Unregister(c: ChatConn) returns (becameOffline: bool)
      requires Valid() && c in hub.user && c !in hub.gone
      modifies this, c`sendCloses
      ensures Valid() && c.sendCloses == 1
      ensures hub == Step(old(hub), Event.Unregister(c))
      ensures becameOffline <==> c.userID !in conns
    {
      UnregisterKeepsSound(hub, c);
      var l := if c.userID in conns then conns[c.userID] else [];
      var i := 0;
      while i < |l| && l[i] != c
        invariant i <= |l| && c !in l[..i]
      {
        i := i + 1;
      }
      if i < |l| {
        DroppedAt(l, i, c);
        l := l[..i] + l[i + 1..];
        conns := conns[c.userID := l];
      } else {
        DroppedMissing(l, c);
      }
      becameOffline := |l| == 0;
      if becameOffline {
        conns := conns - {c.userID};
      }
      ghost var next := Step(hub, Event.Unregister(c));
      CloseChannel(c, hub, next);
      Record(next);
    }

    /** Closes the send channel. */
    method CloseChannel(c: ChatConn, ghost h: Hub<ChatConn>, ghost next: Hub<ChatConn>)
      requires Shows(h) && c in h.user && c !in h.gone
      requires next.user == h.user && next.gone == h.gone + {c} && next.shut == h.shut
      modifies c`sendCloses
      ensures Shows(next) && c.sendCloses == 1
    {
      c.sendCloses := c.sendCloses + 1;
    }

    method IsOnline(userID: int) returns (online: bool)
      requires Valid()
      ensures online <==> LastReport(hub.reports, userID)
    {
      if userID in conns { assert ListSound(hub, userID); }
      return userID in conns && |conns[userID]| > 0;
    }

    /** The sum over users is the number of live connections: none is counted under two users. */
    method Count() returns (n: nat)
      requires Valid()
      ensures n == |Listed(conns, conns.Keys)|
    {
      n := 0;
      var left := conns.Keys;
      ghost var done := {};
      while left != {}
        invariant done + left == conns.Keys && done !! left
        invariant n == |Listed(conns, done)|
        decreases left
      {
        ghost var some := SomeMember(left);
        var u :| u in left;
        ListedOneMore(hub, done, u);
        n := n + |conns[u]|;
        left, done := left - {u}, done + {u};
      }
      assert done == conns.Keys;
    }
  }
}
