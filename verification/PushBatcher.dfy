/** The push debouncer: messages for one recipient collect in an open batch until its timer fires. */
module PushBatcher {
  const DIGEST_WINDOW := 4

  datatype Item = Item(conv: int, msg: int, at: int)

  /** A timer that has been started and has not fired yet. */
  datatype Timer = Timer(recipient: int, due: int)

  datatype Batches = Batches(open: map<int, seq<Item>>, timers: multiset<Timer>, sent: map<int, seq<seq<Item>>>)

  datatype Event = Enqueue(recipient: int, item: Item) | Fire(timer: Timer)

  function Empty(): Batches {
    Batches(map[], multiset{}, map[])
  }

  function OpenOf(b: Batches, r: int): seq<Item> {
    if r in b.open then b.open[r] else []
  }

  function SentTo(b: Batches, r: int): seq<seq<Item>> {
    if r in b.sent then b.sent[r] else []
  }

  /** Only a started timer fires, and it fires once. */
  predicate Allowed(b: Batches, e: Event) {
    e.Fire? ==> e.timer in b.timers
  }

  function Step(b: Batches, e: Event): Batches
    requires Allowed(b, e)
  {
    match e
    case Enqueue(r, x) =>
      b.(open := b.open[r := OpenOf(b, r) + [x]],
         timers := if r in b.open then b.timers else b.timers + multiset{Timer(r, x.at + DIGEST_WINDOW)})
    case Fire(t) =>
      var r := t.recipient;
      var left := b.timers - multiset{t};
      if r in b.open
      then Batches(b.open - {r}, left, b.sent[r := SentTo(b, r) + [b.open[r]]])
      else b.(timers := left)
  }

  predicate AllAllowed(b: Batches, events: seq<Event>)
    decreases |events|
  {
    events != [] ==> Allowed(b, events[0]) && AllAllowed(Step(b, events[0]), events[1..])
  }

  function Run(b: Batches, events: seq<Event>): Batches
    requires AllAllowed(b, events)
    decreases |events|
  {
    if events == [] then b else Run(Step(b, events[0]), events[1..])
  }

  // ---------- every run ----------

  /** The timers a set of open batches calls for: one each, a window after the batch's first message. */
  ghost predicate TimersExact(b: Batches) {
    && (forall r | r in b.open :: b.open[r] != [])
    && (forall t :: b.timers[t] ==
          if t.recipient in b.open && t.due == b.open[t.recipient][0].at + DIGEST_WINDOW then 1 else 0)
  }

  function Flat(batches: seq<seq<Item>>): seq<Item> {
    if batches == [] then [] else Flat(batches[..|batches| - 1]) + batches[|batches| - 1]
  }

  function EnqueuedFor(events: seq<Event>, r: int): seq<Item> {
    if events == [] then []
    else
      var e := events[0];
      (if e.Enqueue? && e.recipient == r then [e.item] else []) + EnqueuedFor(events[1..], r)
  }

  /** Everything enqueued so far for a recipient, batch by batch and then the open one. */
  function Collected(b: Batches, r: int): seq<Item> {
    Flat(SentTo(b, r)) + OpenOf(b, r)
  }

  lemma EnqueueKeepsTimersExact(b: Batches, r: int, x: Item)
    requires TimersExact(b)
    ensures TimersExact(Step(b, Enqueue(r, x)))
  {
    assert OpenOf(b, r) != [] ==> (OpenOf(b, r) + [x])[0] == OpenOf(b, r)[0];
  }

  lemma FireKeepsTimersExact(b: Batches, t: Timer)
    requires TimersExact(b) && Allowed(b, Fire(t))
    ensures TimersExact(Step(b, Fire(t)))
  {
    assert b.timers[t] > 0;
  }

  lemma StepKeepsTimersExact(b: Batches, e: Event)
    requires TimersExact(b) && Allowed(b, e)
    ensures TimersExact(Step(b, e))
  {
    match e
    case Enqueue(r, x) => EnqueueKeepsTimersExact(b, r, x);
    case Fire(t) => FireKeepsTimersExact(b, t);
  }

  lemma EnqueueCollects(b: Batches, q: int, x: Item, r: int)
    ensures Collected(Step(b, Enqueue(q, x)), r) == Collected(b, r) + if q == r then [x] else []
  {
    var flat, open := Flat(SentTo(b, r)), OpenOf(b, r);
    assert flat + (open + [x]) == flat + open + [x];
    assert flat + open + [] == flat + open;
  }

  lemma FlatOneMore(batches: seq<seq<Item>>, last: seq<Item>)
    ensures Flat(batches + [last]) + [] == Flat(batches) + last
  {
    assert (batches + [last])[..|batches|] == batches;
  }

  lemma FireCollects(b: Batches, t: Timer, r: int)
    requires Allowed(b, Fire(t))
    ensures Collected(Step(b, Fire(t)), r) == Collected(b, r)
  {
    var b' := Step(b, Fire(t));
    var sent, open := SentTo(b, r), OpenOf(b, r);
    if t.recipient == r && r in b.open {
      FlatOneMore(sent, open);
      assert SentTo(b', r) == sent + [open] && OpenOf(b', r) == [];
    } else {
      assert SentTo(b', r) == sent && OpenOf(b', r) == open;
    }
  }

  lemma StepCollects(b: Batches, e: Event, r: int)
    requires Allowed(b, e)
    ensures Collected(Step(b, e), r) == Collected(b, r) + EnqueuedFor([e], r)
  {
    match e
    case Enqueue(q, x) =>
      assert EnqueuedFor([e], r) == if q == r then [x] else [];
      EnqueueCollects(b, q, x, r);
    case Fire(t) =>
      assert EnqueuedFor([e], r) == [];
      FireCollects(b, t, r);
  }

  lemma {:induction false} RunKeepsTimersExact(b: Batches, events: seq<Event>)
    requires TimersExact(b) && AllAllowed(b, events)
    ensures TimersExact(Run(b, events))
    decreases |events|
  {
    if events != [] {
      StepKeepsTimersExact(b, events[0]);
      RunKeepsTimersExact(Step(b, events[0]), events[1..]);
    }
  }

  lemma FirstThenRest(before: seq<Item>, events: seq<Event>, r: int)
    requires events != []
    ensures before + EnqueuedFor([events[0]], r) + EnqueuedFor(events[1..], r) == before + EnqueuedFor(events, r)
  {
    assert EnqueuedFor([events[0]], r) + EnqueuedFor(events[1..], r) == EnqueuedFor(events, r);
  }

  /** No message is lost, doubled or reordered: what was sent and what is open, put together, is what
      was enqueued. */
  lemma {:induction false} RunConserves(b: Batches, events: seq<Event>, r: int)
    requires AllAllowed(b, events)
    ensures Collected(Run(b, events), r) == Collected(b, r) + EnqueuedFor(events, r)
    decreases |events|
  {
    if events != [] {
      var e := events[0];
      StepCollects(b, e, r);
      RunConserves(Step(b, e), events[1..], r);
      FirstThenRest(Collected(b, r), events, r);
    }
  }

  ghost predicate NoEmptyBatch(b: Batches) {
    forall r, k | 0 <= k < |SentTo(b, r)| :: SentTo(b, r)[k] != []
  }

  lemma StepSendsNoEmptyBatch(b: Batches, e: Event)
    requires TimersExact(b) && NoEmptyBatch(b) && Allowed(b, e)
    ensures NoEmptyBatch(Step(b, e))
  {
    var b' := Step(b, e);
    forall r, k | 0 <= k < |SentTo(b', r)| ensures SentTo(b', r)[k] != [] {
      if k < |SentTo(b, r)| {
        assert SentTo(b', r)[k] == SentTo(b, r)[k];
      }
    }
  }

  lemma {:induction false} RunSendsNoEmptyBatch(b: Batches, events: seq<Event>)
    requires TimersExact(b) && NoEmptyBatch(b) && AllAllowed(b, events)
    ensures NoEmptyBatch(Run(b, events))
    decreases |events|
  {
    if events != [] {
      StepKeepsTimersExact(b, events[0]);
      StepSendsNoEmptyBatch(b, events[0]);
      RunSendsNoEmptyBatch(Step(b, events[0]), events[1..]);
    }
  }

  /** The nil guard in flush never takes effect: a timer that fires finds its batch. */
  lemma FireFindsItsBatch(b: Batches, t: Timer)
    requires TimersExact(b) && Allowed(b, Fire(t))
    ensures t.recipient in b.open && t.due == b.open[t.recipient][0].at + 4
    ensures forall u :: u in Step(b, Fire(t)).timers ==> u.recipient != t.recipient
  {
    assert b.timers[t] > 0;
  }

  // ---------- the batcher ----------

  function Convs(items: seq<Item>): set<int> {
    set i | 0 <= i < |items| :: items[i].conv
  }

  lemma ConvsOneMore(items: seq<Item>, x: Item)
    ensures Convs(items + [x]) == Convs(items) + {x.conv}
  {
    var more := items + [x];
    assert more[|items|] == x;
    forall i | 0 <= i < |items| ensures items[i].conv in Convs(more) {
      assert more[i] == items[i];
    }
  }

  class PendingPush {
    var count: nat
    var convIDs: set<int>
    var lastConvID: int
    var lastMsg: int

    constructor ()
      ensures Summarises([])
    {
      count, convIDs := 0, {};
    }

    ghost predicate Summarises(items: seq<Item>)
      reads this
    {
      && count == |items| && convIDs == Convs(items)
      && (items != [] ==> lastConvID == items[|items| - 1].conv && lastMsg == items[|items| - 1].msg)
    }

    method Take(x: Item, ghost items: seq<Item>)
      requires Summarises(items)
      modifies this
      ensures Summarises(items + [x])
    {
      count := count + 1;
      convIDs := convIDs + {x.conv};
      lastConvID := x.conv;
      lastMsg := x.msg;
      ConvsOneMore(items, x);
    }
  }

  class Batcher {
    var pending: map<int, PendingPush>
    ghost var batches: Batches

    ghost predicate Valid()
      reads this, pending.Values
    {
      && TimersExact(batches) && pending.Keys == batches.open.Keys
      && (forall q, r | q in pending && r in pending && q != r :: pending[q] != pending[r])
      && (forall r | r in pending :: pending[r].Summarises(batches.open[r]))
    }

    constructor ()
      ensures Valid() && batches == Empty()
    {
      pending, batches := map[], Empty();
    }

    method Add(recipient: int, conv: int, msg: int, now: int)
      requires Valid()
      modifies this, pending.Values
      ensures Valid() && batches == Step(old(batches), Enqueue(recipient, Item(conv, msg, now)))
    {
      var x := Item(conv, msg, now);
      ghost var e := Enqueue(recipient, x);
      StepKeepsTimersExact(batches, e);
      ghost var before := OpenOf(batches, recipient);
      var p: PendingPush;
      if recipient in pending {
        p := pending[recipient];
      } else {
        p := new PendingPush();
        pending := pending[recipient := p];
      }
      batches := Step(batches, e);
      p.Take(x, before);
      assert batches.open[recipient] == before + [x];
    }

    /** The batch handed on is out of the registry for good: it can be read without the lock. */
    method Flush(recipient: int, ghost due: int) returns (p: PendingPush?)
      requires Valid() && Timer(recipient, due) in batches.timers
      modifies this
      ensures Valid() && batches == Step(old(batches), Fire(Timer(recipient, due)))
      ensures p != null && p !in pending.Values
      ensures recipient in old(batches.open) && p.Summarises(old(batches.open[recipient]))
    {
      ghost var t := Timer(recipient, due);
      StepKeepsTimersExact(batches, Fire(t));
      FireFindsItsBatch(batches, t);
      p := if recipient in pending then pending[recipient] else null;
      forall q | q in pending && q != recipient ensures pending[q] != p { }
      pending := pending - {recipient};
      batches := Step(batches, Fire(t));
    }
  }
}
