/** The store calls behind chat attachments, and the handlers that make them. A handler that runs
    undisturbed takes exactly the steps of the interleaved machine. */
module AttachmentStore {
  import opened Basics
  import opened Attachments

  /** The rows an update by ids can hit: unclaimed ones among the sender's in this conversation. */
  function Hit(s: State, ids: seq<int>, mine: set<int>): set<int> {
    set r | r in ids && r in mine && Unclaimed(s, r)
  }

  /** Counting the rows hit tells whether every attachment named is the sender's and free, and is named
      once. */
  lemma AllHitIff(s: State, ids: seq<int>, mine: set<int>)
    ensures |Hit(s, ids, mine)| == |ids| <==> NoRepeats(ids) && forall r | r in ids :: r in mine && Unclaimed(s, r)
    ensures |Hit(s, ids, mine)| == |ids| ==> Hit(s, ids, mine) == SetOf(ids)
  {
    SetOfSize(ids);
    SubsetSize(Hit(s, ids, mine), SetOf(ids));
    if forall r | r in ids :: r in mine && Unclaimed(s, r) {
      forall r | r in SetOf(ids) ensures r in Hit(s, ids, mine) { }
      assert Hit(s, ids, mine) == SetOf(ids);
    } else {
      var r :| r in ids && !(r in mine && Unclaimed(s, r));
      assert r in SetOf(ids) && r !in Hit(s, ids, mine);
    }
  }

  lemma {:induction false} RunOneMore(s: State, ops: seq<Op>, op: Op)
    ensures Run(s, ops + [op]) == Apply(Run(s, ops), op)
    decreases |ops|
  {
    if ops == [] {
      assert ops + [op] == [op];
      assert Run(s, [op]) == Run(Apply(s, op), []);
    } else {
      assert (ops + [op])[1..] == ops[1..] + [op];
      RunOneMore(Apply(s, ops[0]), ops[1..], op);
    }
  }

  /** The rows after copying the attachments read, one insert at a time. */
  function Inserted(s: State, message: int, keys: seq<int>): map<int, Row> {
    if keys == [] then s.rows
    else
      var n := |keys| - 1;
      Inserted(s, message, keys[..n])[s.nextRow + n := Row(keys[n], Some(message))]
  }

  lemma {:induction false} InsertedAt(s: State, message: int, keys: seq<int>, r: int)
    ensures var isNew := s.nextRow <= r < s.nextRow + |keys|; var rows := Inserted(s, message, keys);
            && (r in rows <==> r in s.rows || isNew)
            && (isNew ==> rows[r] == Row(keys[r - s.nextRow], Some(message)))
            && (!isNew && r in s.rows ==> rows[r] == s.rows[r])
  {
    if keys != [] { InsertedAt(s, message, keys[..|keys| - 1], r); }
  }

  lemma CopiedAt(s: State, message: int, keys: seq<int>, r: int)
    ensures var isNew := s.nextRow <= r < s.nextRow + |keys|; var rows := CopyKeys(s, message, keys).rows;
            && (r in rows <==> r in s.rows || isNew)
            && (isNew ==> rows[r] == Row(keys[r - s.nextRow], Some(message)))
            && (!isNew && r in s.rows ==> rows[r] == s.rows[r])
  {
    if s.nextRow <= r < s.nextRow + |keys| { CopyKeysAt(s, message, keys, r - s.nextRow); }
  }

  lemma InsertedAll(s: State, message: int, keys: seq<int>)
    ensures Inserted(s, message, keys) == CopyKeys(s, message, keys).rows
  {
    var a, b := Inserted(s, message, keys), CopyKeys(s, message, keys).rows;
    forall r ensures (r in a <==> r in b) && (r in a ==> a[r] == b[r]) {
      InsertedAt(s, message, keys, r);
      CopiedAt(s, message, keys, r);
    }
  }

  /** One attachment off the list of deletion `d`: the row goes, and the object if that was its last. */
  function Removed(s: State, e: Entry, d: int): State
    requires d in s.deleters && s.deleters[d].todo != []
  {
    var t := s.(rows := s.rows - {e.row});
    Advance(t.(objects := if KeyInUse(t, e.key) then s.objects else s.objects - {e.key}), d)
  }

  /** Undisturbed, the calls of one removal are steps of the machine, and this is what they do. */
  lemma RemovedInSteps(s: State, e: Entry, d: int)
    requires d in s.deleters && s.deleters[d].phase == AtRow && s.deleters[d].todo != [] && s.deleters[d].todo[0] == e
    ensures var t := AfterStep(AfterStep(s, d), d);
            Removed(s, e, d) == if KeyInUse(s.(rows := s.rows - {e.row}), e.key) then t else AfterStep(t, d)
  {
    var all, t := s.deleters, AfterStep(s, d);
    assert KeyInUse(t, e.key) <==> KeyInUse(s.(rows := s.rows - {e.row}), e.key);
    assert all[d := all[d].(phase := AtCount)] - {d} == all - {d};
    assert all[d := all[d].(phase := AtCount)][d := all[d].(phase := AtObject)] - {d} == all - {d};
  }

  lemma RemovalIsARun(s0: State, before: seq<Op>, s: State, e: Entry, d: int) returns (ops: seq<Op>)
    requires s == Run(s0, before)
    requires d in s.deleters && s.deleters[d].phase == AtRow && s.deleters[d].todo != [] && s.deleters[d].todo[0] == e
    ensures Run(s0, ops) == Removed(s, e, d)
  {
    var op := StepDelete(d);
    RunOneMore(s0, before, op);
    ops := before + [op];
    RunOneMore(s0, ops, op);
    ops := ops + [op];
    RemovedInSteps(s, e, d);
    if !KeyInUse(s.(rows := s.rows - {e.row}), e.key) {
      RunOneMore(s0, ops, op);
      ops := ops + [op];
    }
  }

  /** Undisturbed, the janitor's two calls on one listed row are steps of the machine. */
  lemma SweepIsARun(s0: State, before: seq<Op>, s: State, r: int) returns (ops: seq<Op>)
    requires s == Run(s0, before) && s.sweeping.None? && r in s.listed
    ensures Run(s0, ops) == AfterSweepRow(AfterSweepObject(s, r))
  {
    RunOneMore(s0, before, SweepObject(r));
    ops := before + [SweepObject(r)];
    RunOneMore(s0, ops, SweepRow);
    ops := ops + [SweepRow];
  }

  /** The keys of the rows named. */
  function KeySet(s: State, list: seq<int>): set<int> {
    set r | r in list && r in s.rows :: s.rows[r].key
  }

  lemma OneStep(s: State, op: Op)
    ensures Run(s, [op]) == Apply(s, op)
  {
    assert [op][1..] == [];
  }

  function Keys(entries: seq<Entry>): (keys: seq<int>)
    ensures |keys| == |entries| && forall i | 0 <= i < |entries| :: keys[i] == entries[i].key
  {
    seq(|entries|, i requires 0 <= i < |entries| => entries[i].key)
  }

  /** One insert of copies per target. */
  function Inserts(targets: seq<int>, keys: seq<int>): seq<Op> {
    seq(|targets|, i requires 0 <= i < |targets| => InsertCopies(targets[i], keys))
  }

  lemma InsertsOneMore(s: State, targets: seq<int>, message: int, keys: seq<int>)
    ensures Run(s, Inserts(targets + [message], keys)) == AfterInsert(Run(s, Inserts(targets, keys)), message, keys)
  {
    assert Inserts(targets + [message], keys) == Inserts(targets, keys) + [InsertCopies(message, keys)];
    RunOneMore(s, Inserts(targets, keys), InsertCopies(message, keys));
  }

  lemma ForwardIsInserts(s: State, source: int, targets: seq<int>, list: seq<int>)
    requires AttachmentsOf(s, source, list) && source in s.messages && !s.messages[source]
    requires forall m | m in targets :: m !in s.messages
    ensures |targets| == 1 ==> Run(s, Inserts(targets, KeysOf(s, list))) == AfterForward(s, source, targets[0], list)
  {
    if |targets| == 1 {
      assert targets[0] in targets;
      assert Inserts(targets, KeysOf(s, list)) == [InsertCopies(targets[0], KeysOf(s, list))];
      OneStep(s, InsertCopies(targets[0], KeysOf(s, list)));
    }
  }

  class Store {
    var rows: map<int, Row>
    var objects: set<int>
    var messages: map<int, bool>
    var nextRow: int
    var nextKey: int
    ghost var deleters: map<int, Deleter>  // where each running deletion stands
    ghost var listed: map<int, int>        // and where the janitor stands
    ghost var sweeping: Option<int>

    ghost function View(): State
      reads this
    {
      State(rows, objects, messages, deleters, listed, sweeping, nextRow, nextKey)
    }

    constructor ()
      ensures View() == EMPTY
    {
      rows, objects, messages, nextRow, nextKey := map[], {}, map[], 0, 0;
      deleters, listed, sweeping := map[], map[], None;
    }

    method CreateChatAttachment() returns (id: int)
      modifies this
      ensures View() == AfterUpload(old(View())) && id == old(nextRow)
    {
      objects := objects + {nextKey};
      rows := rows[nextRow := Row(nextKey, None)];
      id := nextRow;
      nextRow, nextKey := nextRow + 1, nextKey + 1;
    }

    /** Insert, claim, and roll everything back unless every id named was claimed. `mine` are the rows
        this sender uploaded to this conversation. */
    method CreateMessage(message: int, ids: seq<int>, mine: set<int>) returns (ok: bool)
      requires message !in messages
      modifies this
      ensures ok <==> NoRepeats(ids) && forall r | r in ids :: r in mine && Unclaimed(old(View()), r)
      ensures View() == if ok then AfterSend(old(View()), message, SetOf(ids)) else old(View())
      ensures ok ==> messages == old(messages)[message := false]
    {
      ghost var s := View();
      AllHitIff(s, ids, mine);
      var hit := set r | r in ids && r in mine && r in rows && rows[r].message.None?;
      assert hit == Hit(s, ids, mine);
      if |hit| != |ids| { return false; }
      assert hit == SetOf(ids);
      messages := messages[message := false];
      rows := map r | r in rows :: if r in hit then rows[r].(message := Some(message)) else rows[r];
      return true;
    }

    method InsertCopy(key: int, message: int)
      modifies `rows, `nextRow
      ensures rows == old(rows)[old(nextRow) := Row(key, Some(message))] && nextRow == old(nextRow) + 1
    {
      rows := rows[nextRow := Row(key, Some(message))];
      nextRow := nextRow + 1;
    }

    /** One copy per attachment read before, on the same object, whatever has become of its row. */
    method ForwardMessageInto(message: int, source: seq<Entry>)
      modifies this
      ensures View() == CopyKeys(old(View()), message, Keys(source))
      ensures message !in old(messages) ==> View() == AfterInsert(old(View()), message, Keys(source))
      ensures messages == old(messages)[message := false]
    {
      ghost var s, keys := View(), Keys(source);
      for i := 0 to |source|
        invariant View() == s.(rows := Inserted(s, message, keys[..i]), nextRow := s.nextRow + i)
      {
        assert keys[..i + 1][..i] == keys[..i];
        InsertCopy(source[i].key, message);
      }
      assert keys[..|source|] == keys;
      InsertedAll(s, message, keys);
      messages := messages[message := false];
    }

    /** Read the source's attachments once, then copy them into each target conversation, every copy being
        a step of its own. */
    method ForwardMessage(source: int, targets: seq<int>, list: seq<int>) returns (ok: bool)
      requires NoRepeats(targets) && (forall m | m in targets :: m !in messages) && AttachmentsOf(View(), source, list)
      modifies this
      ensures ok <==> source in old(messages) && !old(messages)[source]
      ensures View() == if ok then Run(old(View()), Inserts(targets, KeysOf(old(View()), list))) else old(View())
      ensures |targets| == 1 ==> View() == AfterForward(old(View()), source, targets[0], list)
    {
      if source !in messages || messages[source] { return false; }
      ghost var s, keys := View(), KeysOf(View(), list);
      var entries := ListMessageAttachments(list);
      assert Keys(entries) == keys;
      for i := 0 to |targets|
        invariant View() == Run(s, Inserts(targets[..i], keys))
        invariant forall m | m in targets[i..] :: m !in messages
      {
        assert targets[i] in targets[i..];
        InsertsOneMore(s, targets[..i], targets[i], keys);
        assert targets[..i + 1] == targets[..i] + [targets[i]];
        ForwardMessageInto(targets[i], entries);
        forall m | m in targets[i + 1..] ensures m != targets[i] && m in targets[i..] { }
      }
      assert targets[..|targets|] == targets;
      ForwardIsInserts(s, source, targets, list);
      return true;
    }

    method SoftDeleteMessage(message: int)
      modifies this`messages
      ensures messages == old(messages)[message := true]
    {
      messages := messages[message := true];
    }

    method DeleteRow(id: int)
      modifies this`rows
      ensures rows == old(rows) - {id}
    {
      rows := rows - {id};
    }

    method CountByKey(key: int) returns (n: nat)
      ensures n == 0 <==> !KeyInUse(View(), key)
    {
      var those := set r | r in rows && rows[r].key == key;
      n := |those|;
      assert forall r | r in rows && rows[r].key == key :: r in those;
      if n > 0 {
        ghost var r := SomeMember(those);
        assert KeyInUse(View(), key);
      }
    }

    method DeleteObject(key: int)
      modifies this`objects
      ensures objects == old(objects) - {key}
    {
      objects := objects - {key};
    }

    // Each call of a deletion is one step of the machine, in whatever state the others have left.

    method DeleteRowCall(e: Entry, ghost d: int)
      requires At(d, e, AtRow)
      modifies `rows, `deleters
      ensures View() == AfterStep(old(View()), d)
    {
      DeleteRow(e.row);
      deleters := deleters[d := deleters[d].(phase := AtCount)];
    }

    method CountCall(e: Entry, ghost d: int) returns (remaining: nat)
      requires At(d, e, AtCount)
      modifies `deleters
      ensures View() == AfterStep(old(View()), d) && (remaining == 0 <==> !KeyInUse(old(View()), e.key))
    {
      remaining := CountByKey(e.key);
      deleters := if remaining == 0 then deleters[d := deleters[d].(phase := AtObject)] else Advance(View(), d).deleters;
    }

    method DeleteObjectCall(e: Entry, ghost d: int)
      requires At(d, e, AtObject)
      modifies `objects, `deleters
      ensures View() == AfterStep(old(View()), d)
    {
      DeleteObject(e.key);
      deleters := Advance(View(), d).deleters;
    }

    ghost predicate At(d: int, e: Entry, phase: Phase)
      reads this
    {
      d in deleters && deleters[d].todo != [] && deleters[d].todo[0] == e && deleters[d].phase == phase
    }

    /** Row first, then the count, and the object only when nothing refers to it any more. */
    method RemoveAttachment(e: Entry, ghost d: int)
      requires At(d, e, AtRow)
      modifies `rows, `objects, `deleters
      ensures View() == Removed(old(View()), e, d)
    {
      ghost var s := View();
      DeleteRowCall(e, d);
      var remaining := CountCall(e, d);
      if remaining == 0 {
        DeleteObjectCall(e, d);
      }
      RemovedInSteps(s, e, d);
    }

    method ListMessageAttachments(list: seq<int>) returns (entries: seq<Entry>)
      requires forall i | 0 <= i < |list| :: list[i] in rows
      ensures entries == Entries(View(), list)
    {
      entries := [];
      for i := 0 to |list|
        invariant entries == Entries(View(), list[..i])
      {
        entries := entries + [Entry(list[i], rows[list[i]].key)];
      }
      assert list[..|list|] == list;
    }

    /** The message is marked first, then its attachments are listed. */
    method BeginDelete(message: int, list: seq<int>, ghost d: int) returns (entries: seq<Entry>)
      requires message in messages && d !in deleters && AttachmentsOf(View(), message, list)
      modifies `messages, `deleters
      ensures View() == AfterBegin(old(View()), d, message, list) && entries == Entries(old(View()), list)
    {
      SoftDeleteMessage(message);
      entries := ListMessageAttachments(list);
      if list != [] {
        deleters := deleters[d := Deleter(entries, AtRow)];
      }
    }

    /** The handler: mark, list, and then one attachment after the other. An object goes exactly when
        every row that refers to it was an attachment of this message. */
    method DeleteMessage(message: int, list: seq<int>, ghost d: int) returns (ghost ops: seq<Op>)
      requires message in messages && d !in deleters && AttachmentsOf(View(), message, list)
      modifies this
      ensures View() == Run(old(View()), ops) && deleters == old(deleters)
      ensures rows == old(rows) - SetOf(list) && messages == old(messages)[message := true]
      ensures forall k :: k in objects <==> k in old(objects) && !Orphaned(old(View()), list, k)
    {
      ghost var s := View();
      var entries := BeginDelete(message, list, d);
      ops := [Op.BeginDelete(d, message, list)];
      OneStep(s, ops[0]);
      ops := RemoveAll(entries, list, d, s, ops);
    }

    method RemoveAll(entries: seq<Entry>, ghost list: seq<int>, ghost d: int, ghost s: State, ghost before: seq<Op>)
      returns (ghost ops: seq<Op>)
      requires View() == Run(s, before) && rows == s.rows && objects == s.objects && d !in s.deleters
      requires (forall i | 0 <= i < |list| :: list[i] in s.rows) && entries == Entries(s, list)
      requires deleters == if list == [] then s.deleters else s.deleters[d := Deleter(entries, AtRow)]
      modifies `rows, `objects, `deleters
      ensures View() == Run(s, ops) && deleters == s.deleters && rows == s.rows - SetOf(list)
      ensures forall k :: k in objects <==> k in s.objects && !Orphaned(s, list, k)
    {
      ops := before;
      assert entries[0..] == entries;
      for i := 0 to |entries|
        invariant View() == Run(s, ops) && RemovedUpTo(s, list, d, View(), i)
      {
        RemovedOneMore(s, list, d, View(), i);
        ops := RemovalIsARun(s, ops, View(), entries[i], d);
        RemoveAttachment(entries[i], d);
      }
      assert list[..|list|] == list;
    }

    // The same for the janitor.

    method SweepObjectCall(e: Entry)
      requires sweeping.None? && e.row in listed && listed[e.row] == e.key
      modifies `objects, `sweeping
      ensures View() == AfterSweepObject(old(View()), e.row)
    {
      DeleteObject(e.key);
      sweeping := Some(e.row);
    }

    method SweepRowCall(e: Entry)
      requires sweeping == Some(e.row)
      modifies `rows, `listed, `sweeping
      ensures View() == AfterSweepRow(old(View()))
    {
      DeleteRow(e.row);
      listed := listed - {e.row};
      sweeping := None;
    }

    method ListOrphaned(list: seq<int>) returns (entries: seq<Entry>)
      requires listed == map[] && sweeping.None? && forall i | 0 <= i < |list| :: Unclaimed(View(), list[i])
      modifies `listed
      ensures View() == AfterList(old(View()), SetOf(list)) && entries == Entries(View(), list)
    {
      entries := ListMessageAttachments(list);
      listed := map r | r in SetOf(list) && Unclaimed(View(), r) :: rows[r].key;
    }

    /** The janitor: list once what was never sent, then object and row for each. Undisturbed, exactly
        the rows listed go, and exactly their objects. */
    method PurgeOrphaned(list: seq<int>) returns (ghost ops: seq<Op>)
      requires listed == map[] && sweeping.None? && NoRepeats(list) && forall i | 0 <= i < |list| :: Unclaimed(View(), list[i])
      modifies `rows, `objects, `listed, `sweeping
      ensures View() == Run(old(View()), ops) && listed == map[] && sweeping.None?
      ensures rows == old(rows) - SetOf(list) && objects == old(objects) - KeySet(old(View()), list)
    {
      ghost var s := View();
      var entries := ListOrphaned(list);
      ops := [ListOrphans(SetOf(list))];
      OneStep(s, ops[0]);
      ghost var t := View();
      ops := SweepAll(entries, list, s, ops);
      assert t.listed - SetOf(list) == map[];
      assert KeySet(t, list) == KeySet(s, list);
    }

    method SweepOne(e: Entry)
      requires sweeping.None? && e.row in listed && listed[e.row] == e.key
      modifies `rows, `objects, `listed, `sweeping
      ensures View() == AfterSweepRow(AfterSweepObject(old(View()), e.row))
    {
      SweepObjectCall(e);
      SweepRowCall(e);
    }

    method SweepAll(entries: seq<Entry>, ghost list: seq<int>, ghost s: State, ghost before: seq<Op>)
      returns (ghost ops: seq<Op>)
      requires View() == Run(s, before) && sweeping.None? && NoRepeats(list) && |entries| == |list|
      requires forall i | 0 <= i < |list| ::
                 var r := list[i]; r in rows && r in listed && listed[r] == rows[r].key && entries[i] == Entry(r, rows[r].key)
      modifies `rows, `objects, `listed, `sweeping
      ensures View() == SweptUpTo(old(View()), list) == Run(s, ops)
    {
      ghost var t := View();
      ops := before;
      for i := 0 to |entries|
        invariant View() == SweptUpTo(t, list[..i]) && View() == Run(s, ops)
      {
        assert list[..i + 1] == list[..i] + [list[i]];
        NotAmong(list, i);
        SweptOneMore(t, list[..i], list[i]);
        ops := SweepIsARun(s, ops, View(), list[i]);
        SweepOne(entries[i]);
      }
      assert list[..|list|] == list;
    }
  }

  lemma NotAmong(list: seq<int>, i: nat)
    requires NoRepeats(list) && i < |list|
    ensures list[i] !in list[..i]
  {
  }

  /** What undisturbed sweeps of the rows named leave of a state in which all of them are listed. */
  function SweptUpTo(t: State, done: seq<int>): State {
    t.(rows := t.rows - SetOf(done), objects := t.objects - KeySet(t, done), listed := t.listed - SetOf(done))
  }

  lemma SweptOneMore(t: State, done: seq<int>, r: int)
    requires t.sweeping.None? && r in t.rows && r in t.listed && t.listed[r] == t.rows[r].key && r !in done
    ensures r in SweptUpTo(t, done).listed && SweptUpTo(t, done).listed[r] == t.listed[r]
    ensures AfterSweepRow(AfterSweepObject(SweptUpTo(t, done), r)) == SweptUpTo(t, done + [r])
  {
    assert SetOf(done + [r]) == SetOf(done) + {r};
    KeysOneMore(t, done, r);
    var u, v := SweptUpTo(t, done), SweptUpTo(t, done + [r]);
    assert u.rows - {r} == v.rows && u.listed - {r} == v.listed;
    assert u.objects - {t.rows[r].key} == v.objects;
  }

  lemma KeysOneMore(s: State, done: seq<int>, r: int)
    requires r in s.rows
    ensures KeySet(s, done + [r]) == KeySet(s, done) + {s.rows[r].key}
  {
    var a, b := KeySet(s, done), KeySet(s, done + [r]);
    forall k | k in a + {s.rows[r].key} ensures k in b {
      var q :| (q in done || q == r) && q in s.rows && s.rows[q].key == k;
      assert q in done + [r];
    }
    forall k | k in b ensures k in a + {s.rows[r].key} {
      var q :| q in done + [r] && q in s.rows && s.rows[q].key == k;
    }
  }

  /** Some attachment listed has this key, and no row outside the list does. */
  ghost predicate Orphaned(s: State, list: seq<int>, key: int) {
    && (exists r :: r in list && r in s.rows && s.rows[r].key == key)
    && (forall r | r in s.rows && s.rows[r].key == key :: r in list)
  }

  /** `u` is `s` after the first `i` attachments listed have been removed. */
  ghost predicate RemovedUpTo(s: State, list: seq<int>, d: int, u: State, i: nat)
    requires i <= |list| && forall j | 0 <= j < |list| :: list[j] in s.rows
  {
    && u.deleters == (if i < |list| then s.deleters[d := Deleter(Entries(s, list)[i..], AtRow)] else s.deleters)
    && u.rows == s.rows - SetOf(list[..i])
    && (forall k :: k in u.objects <==> k in s.objects && !Orphaned(s, list[..i], k))
  }

  lemma RemovedOneMore(s: State, list: seq<int>, d: int, u: State, i: nat)
    requires i < |list| && (forall j | 0 <= j < |list| :: list[j] in s.rows) && d !in s.deleters
    requires RemovedUpTo(s, list, d, u, i)
    ensures u.deleters[d].todo[0] == Entries(s, list)[i]
    ensures RemovedUpTo(s, list, d, Removed(u, Entries(s, list)[i], d), i + 1)
  {
    var all := Entries(s, list);
    var t := Removed(u, all[i], d);
    assert all[i..][1..] == all[i + 1..];
    assert s.deleters[d := Deleter(all[i..], AtRow)] - {d} == s.deleters;
    assert KeyInUse(t, all[i].key) <==> KeyInUse(u.(rows := u.rows - {list[i]}), all[i].key);
    OrphansOneMore(s, list, i, u.objects, t);
  }

  lemma OrphansOneMore(s: State, list: seq<int>, i: nat, before: set<int>, t: State)
    requires i < |list| && list[i] in s.rows
    requires t.rows == s.rows - SetOf(list[..i]) - {list[i]}
    requires forall k :: k in before <==> k in s.objects && !Orphaned(s, list[..i], k)
    requires var key := s.rows[list[i]].key; t.objects == if KeyInUse(t, key) then before else before - {key}
    ensures t.rows == s.rows - SetOf(list[..i + 1])
    ensures forall k :: k in t.objects <==> k in s.objects && !Orphaned(s, list[..i + 1], k)
  {
    var key := s.rows[list[i]].key;
    var a, b := list[..i], list[..i + 1];
    assert b == a + [list[i]];
    assert SetOf(b) == SetOf(a) + {list[i]};
    assert forall r :: r in t.rows <==> r in s.rows && r !in b;
    assert forall r :: r in b <==> r in a || r == list[i];
    assert KeyInUse(t, key) <==> exists r :: r in s.rows && s.rows[r].key == key && r !in b by {
      if r :| r in s.rows && s.rows[r].key == key && r !in b {
        assert r in t.rows && t.rows[r].key == key;
      }
    }
    forall k ensures Orphaned(s, b, k) <==> if k == key then !KeyInUse(t, key) else Orphaned(s, a, k) {
      if k == key {
        assert list[i] in b;
      } else if Orphaned(s, a, k) {
        var r :| r in a && r in s.rows && s.rows[r].key == k;
        assert r in b;
      }
    }
  }
}
