/** Chat attachments: rows that share a stored object by key. Uploads and sends are single steps; a
    forward copies what it has read, at once or later; message deletion and the janitor (list once, then
    object and row for each row listed) run one store call at a time, interleaved with everything else.
    Every store call succeeds. */
module Attachments {
  import opened Basics

  datatype Row = Row(key: int, message: Option<int>)

  /** Where a deletion stands on the attachment at the head of its list. */
  datatype Phase = AtRow | AtCount | AtObject

  datatype Entry = Entry(row: int, key: int)

  /** A running deletion: the attachments listed when it began, the current one first. */
  datatype Deleter = Deleter(todo: seq<Entry>, phase: Phase)

  /** `messages` tells for each message whether it is deleted; `listed` are the rows the janitor still has
      to sweep, with the keys it read, and `sweeping` is the one of them whose object it has deleted and
      whose row it has not. Row ids and object keys are never reused. */
  datatype State = State(rows: map<int, Row>, objects: set<int>, messages: map<int, bool>,
                         deleters: map<int, Deleter>, listed: map<int, int>, sweeping: Option<int>,
                         nextRow: int, nextKey: int)

  const EMPTY := State(map[], {}, map[], map[], map[], None, 0, 0)

  datatype Op =
    | Upload
    | Send(message: int, ids: set<int>)
    | Forward(source: int, message: int, list: seq<int>)
    | InsertCopies(message: int, keys: seq<int>)
    | BeginDelete(deleter: int, message: int, list: seq<int>)
    | StepDelete(deleter: int)
    | ListOrphans(ids: set<int>)
    | SweepObject(row: int)
    | SweepRow

  predicate Unclaimed(s: State, r: int) {
    r in s.rows && s.rows[r].message.None?
  }

  predicate KeyInUse(s: State, key: int) {
    exists r :: r in s.rows && s.rows[r].key == key
  }

  /** `list` is the message's attachments, each once, in the order the query returned them. */
  ghost predicate AttachmentsOf(s: State, message: int, list: seq<int>) {
    && (forall i | 0 <= i < |list| :: list[i] in s.rows && s.rows[list[i]].message == Some(message))
    && (forall r | r in s.rows && s.rows[r].message == Some(message) :: r in list)
    && (forall i, j | 0 <= i < j < |list| :: list[i] != list[j])
  }

  /** Object stored under a fresh random key, then its row. */
  function AfterUpload(s: State): State {
    s.(rows := s.rows[s.nextRow := Row(s.nextKey, None)], objects := s.objects + {s.nextKey},
       nextRow := s.nextRow + 1, nextKey := s.nextKey + 1)
  }

  /** The send is rejected as a whole unless every attachment named is still unclaimed. */
  function AfterSend(s: State, message: int, ids: set<int>): State {
    if message in s.messages || exists r :: r in ids && !Unclaimed(s, r) then s
    else s.(messages := s.messages[message := false],
            rows := map r | r in s.rows :: if r in ids then s.rows[r].(message := Some(message)) else s.rows[r])
  }

  /** The row inserted under id `k`, the first one being `first`. */
  function CopyOf(message: int, keys: seq<int>, first: int, k: int): Row
    requires first <= k < first + |keys|
  {
    Row(keys[k - first], Some(message))
  }

  /** New rows on existing objects: one per key, claimed by the new message. */
  function CopyKeys(s: State, message: int, keys: seq<int>): State {
    s.(messages := s.messages[message := false],
       rows := s.rows + map k | s.nextRow <= k < s.nextRow + |keys| :: CopyOf(message, keys, s.nextRow, k),
       nextRow := s.nextRow + |keys|)
  }

  function KeysOf(s: State, list: seq<int>): (keys: seq<int>)
    requires forall i | 0 <= i < |list| :: list[i] in s.rows
    ensures |keys| == |list| && forall i | 0 <= i < |list| :: keys[i] == s.rows[list[i]].key
  {
    seq(|list|, i requires 0 <= i < |list| => s.rows[list[i]].key)
  }

  /** A message that is there and not deleted can be forwarded, with all its attachments. */
  ghost predicate Forwardable(s: State, source: int, message: int, list: seq<int>) {
    source in s.messages && !s.messages[source] && message !in s.messages && AttachmentsOf(s, source, list)
  }

  ghost function AfterForward(s: State, source: int, message: int, list: seq<int>): State {
    if Forwardable(s, source, message, list) then CopyKeys(s, message, KeysOf(s, list)) else s
  }

  /** The second half of a forward that has read its attachments, with these keys, at some earlier time. */
  function AfterInsert(s: State, message: int, keys: seq<int>): State {
    if message in s.messages then s else CopyKeys(s, message, keys)
  }

  function Entries(s: State, list: seq<int>): seq<Entry>
    requires forall i | 0 <= i < |list| :: list[i] in s.rows
  {
    seq(|list|, i requires 0 <= i < |list| => Entry(list[i], s.rows[list[i]].key))
  }

  /** The message is marked deleted first, then its attachments are listed. */
  ghost function AfterBegin(s: State, d: int, message: int, list: seq<int>): State {
    if message !in s.messages || d in s.deleters || !AttachmentsOf(s, message, list) then s
    else
      var t := s.(messages := s.messages[message := true]);
      if list == [] then t else t.(deleters := s.deleters[d := Deleter(Entries(s, list), AtRow)])
  }

  /** On to the next attachment, or done. */
  function Advance(s: State, d: int): State
    requires d in s.deleters && s.deleters[d].todo != []
  {
    var rest := s.deleters[d].todo[1..];
    if rest == [] then s.(deleters := s.deleters - {d})
    else s.(deleters := s.deleters[d := Deleter(rest, AtRow)])
  }

  /** Row first, then the reference count, and the object only when the count is zero. */
  function AfterStep(s: State, d: int): State {
    if d !in s.deleters || s.deleters[d].todo == [] then s
    else
      var e := s.deleters[d].todo[0];
      match s.deleters[d].phase
      case AtRow => s.(rows := s.rows - {e.row}, deleters := s.deleters[d := s.deleters[d].(phase := AtCount)])
      case AtCount =>
        if KeyInUse(s, e.key) then Advance(s, d)
        else s.(deleters := s.deleters[d := s.deleters[d].(phase := AtObject)])
      case AtObject => Advance(s.(objects := s.objects - {e.key}), d)
  }

  /** The janitor reads which old rows are unclaimed, once for the whole sweep. */
  function AfterList(s: State, ids: set<int>): State {
    if s.listed != map[] || s.sweeping.Some? then s
    else s.(listed := map r | r in ids && Unclaimed(s, r) :: s.rows[r].key)
  }

  /** It works the other way round than a deletion, object first and then the row, and does not look
      again whether the row has been claimed since. */
  function AfterSweepObject(s: State, r: int): State {
    if s.sweeping.Some? || r !in s.listed then s
    else s.(objects := s.objects - {s.listed[r]}, sweeping := Some(r))
  }

  function AfterSweepRow(s: State): State {
    if s.sweeping.None? then s
    else s.(rows := s.rows - {s.sweeping.value}, listed := s.listed - {s.sweeping.value}, sweeping := None)
  }

  ghost function Apply(s: State, op: Op): State {
    match op
    case Upload => AfterUpload(s)
    case Send(m, ids) => AfterSend(s, m, ids)
    case Forward(source, m, list) => AfterForward(s, source, m, list)
    case InsertCopies(m, keys) => AfterInsert(s, m, keys)
    case BeginDelete(d, m, list) => AfterBegin(s, d, m, list)
    case StepDelete(d) => AfterStep(s, d)
    case ListOrphans(ids) => AfterList(s, ids)
    case SweepObject(r) => AfterSweepObject(s, r)
    case SweepRow => AfterSweepRow(s)
  }

  ghost function Run(s: State, ops: seq<Op>): State
    decreases |ops|
  {
    if ops == [] then s else Run(Apply(s, ops[0]), ops[1..])
  }

  // ---------- what the requests do ----------

  /** Nothing but rows, messages and the next row id. */
  predicate SameStorage(s: State, t: State) {
    && t.objects == s.objects && t.nextKey == s.nextKey && t.deleters == s.deleters
    && t.listed == s.listed && t.sweeping == s.sweeping
  }

  /** A send is refused as a whole, or claims exactly the attachments named, for a new message. */
  lemma SendExact(s: State, message: int, ids: set<int>)
    ensures var t := Apply(s, Send(message, ids));
            if message !in s.messages && forall r | r in ids :: r in s.rows && s.rows[r].message == None
            then SameStorage(s, t) && t.nextRow == s.nextRow && t.messages == s.messages[message := false]
                 && t.rows.Keys == s.rows.Keys
                 && (forall r | r in s.rows :: t.rows[r].key == s.rows[r].key)
                 && (forall r | r in s.rows :: t.rows[r].message == if r in ids then Some(message) else s.rows[r].message)
            else t == s
  {
    if message !in s.messages && forall r | r in ids :: r in s.rows && s.rows[r].message == None {
      assert !(exists r :: r in ids && !Unclaimed(s, r));
    } else if message !in s.messages {
      assert exists r :: r in ids && !Unclaimed(s, r);
    }
  }

  /** A forward of a message that is there gives the new message one row per attachment, in their order and on
      their objects. */
  lemma ForwardExact(s: State, source: int, message: int, list: seq<int>)
    requires AttachmentsOf(s, source, list)
    ensures var t := Apply(s, Forward(source, message, list));
            if source in s.messages && !s.messages[source] && message !in s.messages
            then SameStorage(s, t) && t.nextRow == s.nextRow + |list| && t.messages == s.messages[message := false]
                 && CopiesAdded(s, t, message, KeysOf(s, list))
            else t == s
  {
    if source in s.messages && !s.messages[source] && message !in s.messages {
      CopiesAreAdded(s, message, KeysOf(s, list));
    }
  }

  /** Rows `nextRow` and up are new, one per key and in their order; the old ones are as they were. */
  ghost predicate CopiesAdded(s: State, t: State, message: int, keys: seq<int>) {
    && (forall r :: r in t.rows <==> r in s.rows || s.nextRow <= r < s.nextRow + |keys|)
    && (forall r | r in s.rows && r < s.nextRow :: t.rows[r] == s.rows[r])
    && (forall r | s.nextRow <= r < s.nextRow + |keys| :: t.rows[r] == Row(keys[r - s.nextRow], Some(message)))
  }

  lemma CopiesAreAdded(s: State, message: int, keys: seq<int>)
    ensures CopiesAdded(s, CopyKeys(s, message, keys), message, keys)
  {
  }

  /** A deletion marks the message and, when it has attachments, will take them one by one in the order listed. */
  lemma BeginExact(s: State, d: int, message: int, list: seq<int>)
    requires AttachmentsOf(s, message, list)
    ensures var t := Apply(s, BeginDelete(d, message, list));
            if message in s.messages && d !in s.deleters
            then t.rows == s.rows && t.objects == s.objects && t.listed == s.listed && t.sweeping == s.sweeping
                 && t.nextRow == s.nextRow && t.nextKey == s.nextKey && t.messages == s.messages[message := true]
                 && (list == [] ==> t.deleters == s.deleters)
                 && (list != [] ==> (d in t.deleters && t.deleters == s.deleters[d := t.deleters[d]]
                                     && TakesInOrder(s, list, t.deleters[d])))
            else t == s
  {
  }

  predicate TakesInOrder(s: State, list: seq<int>, del: Deleter)
    requires forall i | 0 <= i < |list| :: list[i] in s.rows
  {
    && del.phase == AtRow && |del.todo| == |list|
    && forall i | 0 <= i < |list| :: del.todo[i].row == list[i] && del.todo[i].key == s.rows[list[i]].key
  }

  // ---------- the invariant ----------

  /** No other row has this row's key. */
  predicate SoleHolder(s: State, r: int) {
    r in s.rows && forall q | q in s.rows && q != r :: s.rows[q].key != s.rows[r].key
  }

  predicate MessageDeleted(s: State, r: int) {
    r in s.rows && s.rows[r].message.Some? && s.rows[r].message.value in s.messages
    && s.messages[s.rows[r].message.value]
  }

  /** Deletion `d` has removed its row and will look at the key again. */
  predicate WillCheck(s: State, d: int, key: int) {
    d in s.deleters && s.deleters[d].todo != [] && s.deleters[d].todo[0].key == key && s.deleters[d].phase != AtRow
  }

  /** Entry `i` of deletion `d` still has to remove row `r`. */
  predicate WillRemove(s: State, d: int, i: nat, r: int) {
    d in s.deleters && i < |s.deleters[d].todo| && s.deleters[d].todo[i].row == r
    && (i > 0 || s.deleters[d].phase == AtRow)
  }

  /** The row's object exists unless the janitor is in the middle of this row; an unclaimed row shares
      its key with nobody; a deleted message's row has a deletion coming. */
  ghost predicate RowSound(s: State, r: int)
    requires r in s.rows
  {
    var row := s.rows[r];
    && r < s.nextRow && row.key < s.nextKey
    && (row.message.Some? ==> row.message.value in s.messages)
    && (s.sweeping == Some(r) <==> row.key !in s.objects)
    && (row.message.None? ==> SoleHolder(s, r))
    && (MessageDeleted(s, r) ==> exists d, i: nat :: WillRemove(s, d, i, r))
  }

  /** An object no row refers to has a deletion on its way to it. */
  ghost predicate ObjectSound(s: State, key: int) {
    key < s.nextKey && (KeyInUse(s, key) || exists d :: WillCheck(s, d, key))
  }

  predicate EntrySound(s: State, e: Entry) {
    && e.row < s.nextRow && e.key < s.nextKey
    && (e.row in s.rows ==> s.rows[e.row].key == e.key && MessageDeleted(s, e.row))
  }

  /** A deletion about to remove an object saw a count of zero that is still right. */
  predicate DeleterSound(s: State, d: int)
    requires d in s.deleters
  {
    var del := s.deleters[d];
    && del.todo != []
    && (forall i | 0 <= i < |del.todo| :: EntrySound(s, del.todo[i]))
    && (del.phase == AtObject ==> !KeyInUse(s, del.todo[0].key))
  }

  /** The key of a row to be swept belongs to that row alone, as long as it is there and afterwards. */
  predicate ListedSound(s: State, r: int)
    requires r in s.listed
  {
    && r < s.nextRow && s.listed[r] < s.nextKey
    && (forall q | q in s.rows :: s.rows[q].key == s.listed[r] <==> q == r)
  }

  ghost predicate Inv(s: State) {
    && (forall r | r in s.rows :: RowSound(s, r))
    && (forall k | k in s.objects :: ObjectSound(s, k))
    && (forall d | d in s.deleters :: DeleterSound(s, d))
    && (forall r | r in s.listed :: ListedSound(s, r))
    && (s.sweeping.Some? ==> s.sweeping.value in s.listed)
  }

  // ---------- each step keeps it ----------

  lemma InUse(s: State, r: int)
    requires r in s.rows
    ensures KeyInUse(s, s.rows[r].key)
  {
  }

  /** Rows, deletions and deleted messages of `s` are all still there in `t`, rows with their keys. */
  ghost predicate Grown(s: State, t: State) {
    && t.deleters == s.deleters && t.nextRow >= s.nextRow && t.nextKey >= s.nextKey
    && (forall r | r in s.rows :: r in t.rows && t.rows[r].key == s.rows[r].key)
    && (forall r | r in t.rows && r !in s.rows :: r >= s.nextRow)
    && (forall r | MessageDeleted(s, r) :: MessageDeleted(t, r))
  }

  /** What a deletion about to remove an object counts on. */
  predicate AboutToDelete(s: State, d: int, key: int) {
    d in s.deleters && s.deleters[d].todo != [] && s.deleters[d].todo[0].key == key && s.deleters[d].phase == AtObject
  }

  lemma GrownSound(s: State, t: State)
    requires Inv(s) && Grown(s, t)
    requires forall d, k | AboutToDelete(s, d, k) :: !KeyInUse(t, k)
    ensures forall d | d in t.deleters :: DeleterSound(t, d)
    ensures forall k | k in s.objects :: ObjectSound(t, k)
  {
    forall d | d in t.deleters ensures DeleterSound(t, d) {
      assert DeleterSound(s, d);
      forall i | 0 <= i < |t.deleters[d].todo| ensures EntrySound(t, t.deleters[d].todo[i]) {
        assert EntrySound(s, s.deleters[d].todo[i]);
      }
      assert s.deleters[d].phase == AtObject ==> AboutToDelete(s, d, s.deleters[d].todo[0].key);
    }
    forall k | k in s.objects ensures ObjectSound(t, k) {
      assert ObjectSound(s, k);
      if KeyInUse(s, k) {
        var r :| r in s.rows && s.rows[r].key == k;
        InUse(t, r);
      } else {
        var d :| WillCheck(s, d, k);
        assert WillCheck(t, d, k);
      }
    }
  }

  lemma GrownDeleters(s: State, t: State)
    requires Inv(s) && Grown(s, t)
    requires forall k | KeyInUse(t, k) && k < s.nextKey :: KeyInUse(s, k)
    ensures forall d | d in t.deleters :: DeleterSound(t, d)
    ensures forall k | k in s.objects :: ObjectSound(t, k)
  {
    forall d, k | AboutToDelete(s, d, k) ensures !KeyInUse(t, k) {
      assert DeleterSound(s, d) && EntrySound(s, s.deleters[d].todo[0]);
    }
    GrownSound(s, t);
  }

  /** Rows may come with keys not read by the janitor, and may go. */
  lemma ListedKept(s: State, t: State)
    requires Inv(s) && t.nextRow >= s.nextRow && t.nextKey >= s.nextKey
    requires forall r | r in t.listed :: r in s.listed && t.listed[r] == s.listed[r]
    requires forall q | q in t.rows && q in s.rows :: t.rows[q].key == s.rows[q].key
    requires forall q, r | q in t.rows && q !in s.rows && r in t.listed :: q != r && t.rows[q].key != t.listed[r]
    ensures forall r | r in t.listed :: ListedSound(t, r)
  {
    forall r | r in t.listed ensures ListedSound(t, r) {
      assert ListedSound(s, r);
    }
  }

  lemma KeptRemoval(s: State, t: State, r: int)
    requires r in s.rows && RowSound(s, r) && MessageDeleted(s, r) && t.deleters == s.deleters
    ensures exists d, i: nat :: WillRemove(t, d, i, r)
  {
    var d, i: nat :| WillRemove(s, d, i, r);
    assert WillRemove(t, d, i, r);
  }

  lemma Bounds(s: State)
    requires Inv(s)
    ensures forall r | r in s.rows :: r < s.nextRow && s.rows[r].key < s.nextKey
    ensures forall k | k in s.objects :: k < s.nextKey
  {
    forall r | r in s.rows ensures r < s.nextRow && s.rows[r].key < s.nextKey { assert RowSound(s, r); }
    forall k | k in s.objects ensures k < s.nextKey { assert ObjectSound(s, k); }
  }

  lemma UploadKeepsInv(s: State)
    requires Inv(s)
    ensures Inv(AfterUpload(s))
  {
    var t := AfterUpload(s);
    Bounds(s);
    forall r | r in s.rows ensures RowSound(t, r) {
      assert RowSound(s, r);
      if MessageDeleted(t, r) { KeptRemoval(s, t, r); }
    }
    assert RowSound(t, s.nextRow);
    GrownDeleters(s, t);
    InUse(t, s.nextRow);
    forall r | r in s.listed ensures r < s.nextRow && s.listed[r] < s.nextKey { assert ListedSound(s, r); }
    ListedKept(s, t);
  }

  lemma SendKeepsInv(s: State, message: int, ids: set<int>)
    requires Inv(s)
    ensures Inv(AfterSend(s, message, ids))
  {
    var t := AfterSend(s, message, ids);
    if t != s {
      forall r | r in s.rows ensures RowSound(t, r) {
        assert RowSound(s, r);
        if MessageDeleted(t, r) {
          assert MessageDeleted(s, r);
          KeptRemoval(s, t, r);
        }
      }
      forall r | MessageDeleted(s, r) ensures MessageDeleted(t, r) {
        assert !Unclaimed(s, r);
      }
      GrownDeleters(s, t);
      ListedKept(s, t);
    }
  }

  lemma CopyKeysAt(s: State, message: int, keys: seq<int>, i: nat)
    requires i < |keys|
    ensures var t := CopyKeys(s, message, keys);
            s.nextRow + i in t.rows && t.rows[s.nextRow + i] == Row(keys[i], Some(message))
  {
    assert CopyOf(message, keys, s.nextRow, s.nextRow + i) == Row(keys[i], Some(message));
  }

  /** A further row may be put on this key: its object is there, no unclaimed row holds it, the janitor has
      not listed it, and no deletion has counted it down to zero. */
  ghost predicate Copyable(s: State, key: int) {
    && key in s.objects
    && (forall r | r in s.rows && s.rows[r].key == key :: s.rows[r].message.Some?)
    && (forall r | r in s.listed :: s.listed[r] != key)
    && (forall d :: !AboutToDelete(s, d, key))
  }

  /** A copy of any other key breaks something. */
  lemma InsertOfOtherBreaks(s: State, message: int, keys: seq<int>, i: nat)
    requires Inv(s) && message !in s.messages && i < |keys| && Inv(CopyKeys(s, message, keys))
    ensures Copyable(s, keys[i])
  {
    var t, n, key := CopyKeys(s, message, keys), s.nextRow + i, keys[i];
    CopyKeysAt(s, message, keys, i);
    assert RowSound(t, n);
    assert s.sweeping.Some? ==> ListedSound(s, s.sweeping.value);
    InUse(t, n);
    Bounds(s);
    forall r | r in s.rows && s.rows[r].key == key ensures s.rows[r].message.Some? {
      assert t.rows[r] == s.rows[r] && RowSound(t, r);
    }
    forall r | r in s.listed ensures s.listed[r] != key {
      assert ListedSound(s, r) && ListedSound(t, r);
    }
    forall d ensures !AboutToDelete(s, d, key) {
      assert d in t.deleters ==> DeleterSound(t, d);
    }
  }

  lemma InsertKeepsRows(s: State, message: int, keys: seq<int>, r: int)
    requires Inv(s) && message !in s.messages && forall k | k in keys :: Copyable(s, k)
    requires r in CopyKeys(s, message, keys).rows
    ensures RowSound(CopyKeys(s, message, keys), r)
  {
    var t := CopyKeys(s, message, keys);
    Bounds(s);
    if r in s.rows {
      assert RowSound(s, r) && t.rows[r] == s.rows[r];
      if s.rows[r].message.None? {
        forall q | q in t.rows && q != r ensures t.rows[q].key != t.rows[r].key {
          if q !in s.rows {
            assert Copyable(s, keys[q - s.nextRow]);
          }
        }
      }
      if MessageDeleted(t, r) {
        assert MessageDeleted(s, r);
        KeptRemoval(s, t, r);
      }
    } else {
      assert Copyable(s, keys[r - s.nextRow]);
      assert s.sweeping.Some? ==> ListedSound(s, s.sweeping.value);
    }
  }

  lemma InsertKeepsCounts(s: State, message: int, keys: seq<int>, d: int, k: int)
    requires Inv(s) && (forall x | x in keys :: Copyable(s, x)) && AboutToDelete(s, d, k)
    ensures !KeyInUse(CopyKeys(s, message, keys), k)
  {
    var t := CopyKeys(s, message, keys);
    assert DeleterSound(s, d);
    forall q | q in t.rows ensures t.rows[q].key != k {
      if q in s.rows {
        Bounds(s);
        InUse(s, q);
      } else {
        assert Copyable(s, keys[q - s.nextRow]);
      }
    }
  }

  lemma InsertKeepsListed(s: State, message: int, keys: seq<int>)
    requires Inv(s) && forall k | k in keys :: Copyable(s, k)
    ensures forall r | r in s.listed :: ListedSound(CopyKeys(s, message, keys), r)
  {
    var t := CopyKeys(s, message, keys);
    Bounds(s);
    forall q, r | q in t.rows && q !in s.rows && r in s.listed ensures q != r && t.rows[q].key != s.listed[r] {
      assert ListedSound(s, r) && Copyable(s, keys[q - s.nextRow]);
    }
    ListedKept(s, t);
  }

  lemma InsertGrows(s: State, message: int, keys: seq<int>)
    requires Inv(s) && message !in s.messages
    ensures Grown(s, CopyKeys(s, message, keys))
  {
    var t := CopyKeys(s, message, keys);
    Bounds(s);
    forall r | MessageDeleted(s, r) ensures MessageDeleted(t, r) {
      assert t.rows[r] == s.rows[r];
    }
  }

  lemma InsertKeepsInv(s: State, message: int, keys: seq<int>)
    requires Inv(s) && message !in s.messages && forall k | k in keys :: Copyable(s, k)
    ensures Inv(CopyKeys(s, message, keys))
  {
    var t := CopyKeys(s, message, keys);
    forall r | r in t.rows ensures RowSound(t, r) {
      InsertKeepsRows(s, message, keys, r);
    }
    forall d, k | AboutToDelete(s, d, k) ensures !KeyInUse(t, k) {
      InsertKeepsCounts(s, message, keys, d, k);
    }
    InsertGrows(s, message, keys);
    GrownSound(s, t);
    InsertKeepsListed(s, message, keys);
  }

  /** Whenever the attachments were read and whatever has happened to them since, copying them keeps the
      invariant exactly when a further row may be put on each of their keys. */
  lemma InsertKeepsInvIff(s: State, message: int, keys: seq<int>)
    requires Inv(s) && message !in s.messages
    ensures Inv(AfterInsert(s, message, keys)) <==> forall k | k in keys :: Copyable(s, k)
  {
    if forall k | k in keys :: Copyable(s, k) {
      InsertKeepsInv(s, message, keys);
    }
    if Inv(CopyKeys(s, message, keys)) {
      forall k | k in keys ensures Copyable(s, k) {
        var i :| 0 <= i < |keys| && keys[i] == k;
        InsertOfOtherBreaks(s, message, keys, i);
      }
    }
  }

  /** For the row of a message that is not deleted, only the janitor's list is in the way. */
  lemma CopyableIff(s: State, x: int)
    requires Inv(s) && x in s.rows && s.rows[x].message.Some?
    ensures Copyable(s, s.rows[x].key) <==> x !in s.listed
  {
    var key := s.rows[x].key;
    assert RowSound(s, x);
    InUse(s, x);
    assert x in s.listed ==> ListedSound(s, x);
    if x !in s.listed {
      forall r | r in s.rows && s.rows[r].key == key ensures s.rows[r].message.Some? { assert RowSound(s, r); }
      forall r | r in s.listed ensures s.listed[r] != key { assert ListedSound(s, r); }
      forall d ensures !AboutToDelete(s, d, key) { assert d in s.deleters ==> DeleterSound(s, d); }
    }
  }

  /** A forward that copies what it has just read is safe exactly when no row it copies is listed by the
      janitor. */
  lemma ForwardKeepsInvIff(s: State, source: int, message: int, list: seq<int>)
    requires Inv(s) && Forwardable(s, source, message, list)
    ensures Inv(AfterForward(s, source, message, list)) <==> forall x | x in list :: x !in s.listed
  {
    var keys := KeysOf(s, list);
    InsertKeepsInvIff(s, message, keys);
    forall i | 0 <= i < |list| ensures Copyable(s, keys[i]) <==> list[i] !in s.listed {
      CopyableIff(s, list[i]);
    }
    if forall k | k in keys :: Copyable(s, k) {
      forall x | x in list ensures x !in s.listed {
        var i :| 0 <= i < |list| && list[i] == x;
        assert keys[i] in keys;
      }
    }
    if forall x | x in list :: x !in s.listed {
      forall k | k in keys ensures Copyable(s, k) {
        var i :| 0 <= i < |keys| && keys[i] == k;
        assert list[i] in list;
      }
    }
  }

  lemma BeginKeepsRows(s: State, d: int, message: int, list: seq<int>, r: int)
    requires Inv(s) && message in s.messages && d !in s.deleters && AttachmentsOf(s, message, list) && r in s.rows
    ensures RowSound(AfterBegin(s, d, message, list), r)
  {
    var t := AfterBegin(s, d, message, list);
    assert RowSound(s, r);
    if MessageDeleted(s, r) {
      var e, i: nat :| WillRemove(s, e, i, r);
      assert WillRemove(t, e, i, r);
    } else if MessageDeleted(t, r) {
      assert r in list;
      var i :| 0 <= i < |list| && list[i] == r;
      assert WillRemove(t, d, i, r);
    }
  }

  lemma BeginKeepsDeleters(s: State, d: int, message: int, list: seq<int>)
    requires Inv(s) && message in s.messages && d !in s.deleters && AttachmentsOf(s, message, list)
    ensures var t := AfterBegin(s, d, message, list); forall e | e in t.deleters :: DeleterSound(t, e)
  {
    var t := AfterBegin(s, d, message, list);
    Bounds(s);
    forall e | e in t.deleters ensures DeleterSound(t, e) {
      if e in s.deleters {
        assert DeleterSound(s, e);
        forall i | 0 <= i < |s.deleters[e].todo| ensures EntrySound(t, s.deleters[e].todo[i]) {
          assert EntrySound(s, s.deleters[e].todo[i]);
        }
      }
    }
  }

  lemma BeginKeepsInv(s: State, d: int, message: int, list: seq<int>)
    requires Inv(s)
    ensures Inv(AfterBegin(s, d, message, list))
  {
    var t := AfterBegin(s, d, message, list);
    if message in s.messages && d !in s.deleters && AttachmentsOf(s, message, list) {
      forall r | r in t.rows ensures RowSound(t, r) { BeginKeepsRows(s, d, message, list, r); }
      forall k | k in t.objects ensures ObjectSound(t, k) {
        assert ObjectSound(s, k);
        if KeyInUse(s, k) {
          var r :| r in s.rows && s.rows[r].key == k;
          InUse(t, r);
        } else {
          var e :| WillCheck(s, e, k);
          assert WillCheck(t, e, k);
        }
      }
      BeginKeepsDeleters(s, d, message, list);
      ListedKept(s, t);
    }
  }

  /** Removing a row: keys only fall out of use. */
  lemma RowGoneKeepsDeleters(s: State, t: State, r: int)
    requires Inv(s) && t.rows == s.rows - {r} && t.messages == s.messages
    requires t.nextRow == s.nextRow && t.nextKey == s.nextKey
    ensures forall d | d in t.deleters && d in s.deleters && t.deleters[d] == s.deleters[d] :: DeleterSound(t, d)
  {
    forall d | d in t.deleters && d in s.deleters && t.deleters[d] == s.deleters[d] ensures DeleterSound(t, d) {
      assert DeleterSound(s, d);
      forall i | 0 <= i < |s.deleters[d].todo| ensures EntrySound(t, s.deleters[d].todo[i]) {
        assert EntrySound(s, s.deleters[d].todo[i]);
      }
    }
  }

  lemma DeleteRowKeepsInv(s: State, d: int)
    requires Inv(s) && d in s.deleters && s.deleters[d].phase == AtRow
    ensures Inv(AfterStep(s, d))
  {
    assert DeleterSound(s, d);
    var e := s.deleters[d].todo[0];
    var t := AfterStep(s, d);
    assert EntrySound(s, e);
    forall r | r in t.rows ensures RowSound(t, r) {
      assert RowSound(s, r);
      if MessageDeleted(t, r) {
        var x, i: nat :| WillRemove(s, x, i, r);
        assert WillRemove(t, x, i, r);
      }
    }
    forall k | k in t.objects ensures ObjectSound(t, k) {
      assert ObjectSound(s, k);
      if KeyInUse(s, k) {
        var r :| r in s.rows && s.rows[r].key == k;
        if r == e.row {
          assert WillCheck(t, d, k);
        } else {
          InUse(t, r);
        }
      } else {
        var x :| WillCheck(s, x, k);
        assert WillCheck(t, x, k);
      }
    }
    RowGoneKeepsDeleters(s, t, e.row);
    ListedKept(s, t);
    assert DeleterSound(t, d) by {
      forall i | 0 <= i < |t.deleters[d].todo| ensures EntrySound(t, t.deleters[d].todo[i]) {
        assert EntrySound(s, s.deleters[d].todo[i]);
      }
    }
  }

  lemma AdvanceKeepsRows(s: State, u: State, d: int, r: int)
    requires Inv(s) && d in s.deleters && s.deleters[d].phase != AtRow && s.deleters[d].todo != []
    requires u == s || (u == s.(objects := u.objects) && forall q | q in s.rows :: s.rows[q].key in u.objects <==> s.rows[q].key in s.objects)
    requires r in s.rows
    ensures RowSound(Advance(u, d), r)
  {
    var t := Advance(u, d);
    assert RowSound(s, r);
    if MessageDeleted(t, r) {
      var x, i: nat :| WillRemove(s, x, i, r);
      if x == d {
        assert s.deleters[d].todo[1..][i - 1] == s.deleters[d].todo[i];
        assert WillRemove(t, d, i - 1, r);
      } else {
        assert WillRemove(t, x, i, r);
      }
    }
  }

  /** Moving on is safe once the key at hand is in use or its object is gone. */
  lemma AdvanceKeepsInv(s: State, u: State, d: int)
    requires Inv(s) && d in s.deleters && s.deleters[d].phase != AtRow && s.deleters[d].todo != []
    requires var key := s.deleters[d].todo[0].key;
             (u == s && KeyInUse(s, key)) || (u == s.(objects := s.objects - {key}) && !KeyInUse(s, key))
    ensures Inv(Advance(u, d))
  {
    var key := s.deleters[d].todo[0].key;
    var t := Advance(u, d);
    assert DeleterSound(s, d);
    forall r | r in t.rows ensures RowSound(t, r) {
      forall q | q in s.rows ensures s.rows[q].key in u.objects <==> s.rows[q].key in s.objects { InUse(s, q); }
      AdvanceKeepsRows(s, u, d, r);
    }
    forall k | k in t.objects ensures ObjectSound(t, k) {
      assert ObjectSound(s, k);
      if KeyInUse(s, k) {
        var r :| r in s.rows && s.rows[r].key == k;
        InUse(t, r);
      } else {
        var x :| WillCheck(s, x, k);
        assert WillCheck(t, x, k);
      }
    }
    AdvanceKeepsDeleters(s, u, d);
    ListedKept(s, t);
  }

  lemma AdvanceKeepsDeleters(s: State, u: State, d: int)
    requires Inv(s) && d in s.deleters && s.deleters[d].todo != [] && u == s.(objects := u.objects)
    ensures forall x | x in Advance(u, d).deleters :: DeleterSound(Advance(u, d), x)
  {
    var t := Advance(u, d);
    forall x | x in t.deleters ensures DeleterSound(t, x) {
      assert DeleterSound(s, x);
      forall i | 0 <= i < |t.deleters[x].todo| ensures EntrySound(t, t.deleters[x].todo[i]) {
        assert EntrySound(s, s.deleters[x].todo[if x == d then i + 1 else i]);
      }
    }
  }

  lemma StepKeepsInv(s: State, d: int)
    requires Inv(s)
    ensures Inv(AfterStep(s, d))
  {
    if d in s.deleters && s.deleters[d].todo != [] {
      assert DeleterSound(s, d);
      var key := s.deleters[d].todo[0].key;
      match s.deleters[d].phase
      case AtRow => DeleteRowKeepsInv(s, d);
      case AtObject => AdvanceKeepsInv(s, s.(objects := s.objects - {key}), d);
      case AtCount =>
        if KeyInUse(s, key) {
          AdvanceKeepsInv(s, s, d);
        } else {
          var t := AfterStep(s, d);
          forall r | r in t.rows ensures RowSound(t, r) {
            assert RowSound(s, r);
            if MessageDeleted(t, r) {
              var x, i: nat :| WillRemove(s, x, i, r);
              assert WillRemove(t, x, i, r);
            }
          }
          forall k | k in t.objects ensures ObjectSound(t, k) {
            assert ObjectSound(s, k);
            if !KeyInUse(s, k) {
              var x :| WillCheck(s, x, k);
              assert WillCheck(t, x, k);
            }
          }
          forall x | x in t.deleters ensures DeleterSound(t, x) {
            assert DeleterSound(s, x);
            forall i | 0 <= i < |t.deleters[x].todo| ensures EntrySound(t, t.deleters[x].todo[i]) {
              assert EntrySound(s, s.deleters[x].todo[i]);
            }
          }
          ListedKept(s, t);
        }
    }
  }

  lemma ListKeepsInv(s: State, ids: set<int>)
    requires Inv(s)
    ensures Inv(AfterList(s, ids))
  {
    var t := AfterList(s, ids);
    if t != s {
      Unmoved(s, t);
      forall r | r in t.listed ensures ListedSound(t, r) {
        assert RowSound(s, r);
      }
    }
  }

  /** Rows, messages and deletions as they were: only what the janitor remembers and deletes differs. */
  lemma Unmoved(s: State, t: State)
    requires Inv(s) && t.rows == s.rows && t.messages == s.messages && t.deleters == s.deleters
    requires t.nextRow == s.nextRow && t.nextKey == s.nextKey && t.objects <= s.objects
    requires forall r | r in s.rows :: t.sweeping == Some(r) <==> s.rows[r].key !in t.objects
    ensures forall r | r in t.rows :: RowSound(t, r)
    ensures forall k | k in t.objects :: ObjectSound(t, k)
    ensures forall d | d in t.deleters :: DeleterSound(t, d)
  {
    forall q | q in t.rows ensures RowSound(t, q) {
      assert RowSound(s, q);
      if MessageDeleted(t, q) { KeptRemoval(s, t, q); }
    }
    forall k | k in t.objects ensures ObjectSound(t, k) {
      assert ObjectSound(s, k);
      if !KeyInUse(s, k) {
        var x :| WillCheck(s, x, k);
        assert WillCheck(t, x, k);
      }
    }
    forall x | x in t.deleters ensures DeleterSound(t, x) {
      assert DeleterSound(s, x);
      forall i | 0 <= i < |t.deleters[x].todo| ensures EntrySound(t, t.deleters[x].todo[i]) {
        assert EntrySound(s, s.deleters[x].todo[i]);
      }
    }
  }

  lemma SweepObjectKeepsInv(s: State, r: int)
    requires Inv(s)
    ensures Inv(AfterSweepObject(s, r))
  {
    var t := AfterSweepObject(s, r);
    if t != s {
      assert ListedSound(s, r);
      forall q | q in s.rows ensures t.sweeping == Some(q) <==> s.rows[q].key !in t.objects {
        assert RowSound(s, q);
      }
      Unmoved(s, t);
      ListedKept(s, t);
    }
  }

  lemma SweepRowKeepsInv(s: State)
    requires Inv(s)
    ensures Inv(AfterSweepRow(s))
  {
    var t := AfterSweepRow(s);
    if s.sweeping.Some? {
      var swept: int := s.sweeping.value;
      assert ListedSound(s, swept);
      forall q | q in t.rows ensures RowSound(t, q) {
        assert RowSound(s, q);
        if MessageDeleted(t, q) { KeptRemoval(s, t, q); }
      }
      forall k | k in t.objects ensures ObjectSound(t, k) {
        assert ObjectSound(s, k);
        if KeyInUse(s, k) {
          var q :| q in s.rows && s.rows[q].key == k;
          assert RowSound(s, q);
          InUse(t, q);
        } else {
          var x :| WillCheck(s, x, k);
          assert WillCheck(t, x, k);
        }
      }
      RowGoneKeepsDeleters(s, t, swept);
      ListedKept(s, t);
    }
  }

  /** No forward copies a row the janitor has listed, nor a key that has gone, or is going, since it was
      read. */
  ghost predicate Careful(s: State, op: Op) {
    match op
    case Forward(source, m, list) => Forwardable(s, source, m, list) ==> forall x | x in list :: x !in s.listed
    case InsertCopies(m, keys) => m !in s.messages ==> forall k | k in keys :: Copyable(s, k)
    case _ => true
  }

  /** Every other step keeps the invariant, and a careless forward always breaks it. */
  lemma ApplyKeepsInvIff(s: State, op: Op)
    requires Inv(s)
    ensures Inv(Apply(s, op)) <==> Careful(s, op)
  {
    match op
    case Upload => UploadKeepsInv(s);
    case Send(m, ids) => SendKeepsInv(s, m, ids);
    case Forward(source, m, list) => if Forwardable(s, source, m, list) { ForwardKeepsInvIff(s, source, m, list); }
    case InsertCopies(m, keys) => if m !in s.messages { InsertKeepsInvIff(s, m, keys); }
    case BeginDelete(d, m, list) => BeginKeepsInv(s, d, m, list);
    case StepDelete(d) => StepKeepsInv(s, d);
    case ListOrphans(ids) => ListKeepsInv(s, ids);
    case SweepObject(r) => SweepObjectKeepsInv(s, r);
    case SweepRow => SweepRowKeepsInv(s);
  }

  /** Every forward of the run is careful when it copies. */
  ghost predicate AllCareful(s: State, ops: seq<Op>)
    decreases |ops|
  {
    ops != [] ==> Careful(s, ops[0]) && AllCareful(Apply(s, ops[0]), ops[1..])
  }

  lemma {:induction false} RunKeepsInv(s: State, ops: seq<Op>)
    requires Inv(s) && AllCareful(s, ops)
    ensures Inv(Run(s, ops))
    decreases |ops|
  {
    if ops != [] {
      ApplyKeepsInvIff(s, ops[0]);
      RunKeepsInv(Apply(s, ops[0]), ops[1..]);
    }
  }

  // ---------- what users rely on ----------

  /** In every run, forwards, deletions and the janitor interleaved call by call, in which every forward is
      careful: an attachment row never points at a missing object, except the one row the janitor is
      about to remove; and an unclaimed row's object belongs to that row alone. */
  lemma AttachmentsNeverDangle(ops: seq<Op>, r: int)
    requires AllCareful(EMPTY, ops) && r in Run(EMPTY, ops).rows
    ensures var s := Run(EMPTY, ops);
            && (s.rows[r].key in s.objects <==> s.sweeping != Some(r))
            && (s.rows[r].message.None? ==> SoleHolder(s, r))
  {
    RunKeepsInv(EMPTY, ops);
    assert RowSound(Run(EMPTY, ops), r);
  }

  /** Once no deletion and no sweep is running, an object is stored exactly when some row refers to
      its key, and no row of a deleted message is left: concurrent deleters neither lose a shared
      object nor leak one. */
  lemma QuietStateExact(ops: seq<Op>)
    requires AllCareful(EMPTY, ops) && Run(EMPTY, ops).deleters == map[] && Run(EMPTY, ops).sweeping == None
    ensures var s := Run(EMPTY, ops);
            && (forall k :: k in s.objects <==> KeyInUse(s, k))
            && (forall r | r in s.rows :: !MessageDeleted(s, r))
  {
    var s := Run(EMPTY, ops);
    RunKeepsInv(EMPTY, ops);
    forall k ensures k in s.objects <==> KeyInUse(s, k) {
      if k in s.objects {
        assert ObjectSound(s, k);
      }
      if KeyInUse(s, k) {
        var r :| r in s.rows && s.rows[r].key == k;
        assert RowSound(s, r);
      }
    }
    forall r | r in s.rows ensures !MessageDeleted(s, r) {
      assert RowSound(s, r);
    }
  }

  // ---------- what becomes of a sent attachment ----------

  /** The row belongs to this message, and the message is not deleted. */
  predicate Held(s: State, r: int, message: int) {
    r in s.rows && s.rows[r].message == Some(message) && message in s.messages && !s.messages[message]
  }

  /** The row is gone, or the object it points at. */
  predicate Lost(s: State, r: int) {
    r !in s.rows || s.rows[r].key !in s.objects
  }

  /** The janitor, having listed the row, gets to it in this step. */
  predicate Sweeps(s: State, op: Op, r: int) {
    op == SweepObject(r) && s.sweeping.None? && r in s.listed
  }

  ghost predicate TurnComes(s: State, ops: seq<Op>, r: int)
    decreases |ops|
  {
    ops != [] && (Sweeps(s, ops[0], r) || TurnComes(Apply(s, ops[0]), ops[1..], r))
  }

  /** Nobody deletes this message. */
  predicate Undeleted(ops: seq<Op>, message: int) {
    forall op | op in ops :: !(op.BeginDelete? && op.message == message)
  }

  /** The janitor's second call for this row takes it away. */
  predicate TakesRow(s: State, op: Op, r: int) {
    op.SweepRow? && s.sweeping == Some(r)
  }

  lemma DeletionStepSpares(s: State, d: int, r: int, message: int)
    requires Inv(s) && Held(s, r, message)
    ensures Held(AfterStep(s, d), r, message)
  {
    if d in s.deleters {
      assert DeleterSound(s, d);
      assert EntrySound(s, s.deleters[d].todo[0]);
    }
  }

  /** A step leaves the row with its message unless it is the janitor's. */
  lemma StepHolds(s: State, op: Op, r: int, message: int)
    requires Inv(s) && Held(s, r, message) && !(op.BeginDelete? && op.message == message) && !TakesRow(s, op, r)
    ensures Held(Apply(s, op), r, message)
  {
    assert RowSound(s, r);
    match op
    case StepDelete(d) => DeletionStepSpares(s, d, r, message);
    case Send(m, ids) => assert r in ids ==> !Unclaimed(s, r);
    case _ =>
  }

  /** A claimed row is never listed; a listed one stays on the list until the janitor has done with it. */
  lemma StepKeepsList(s: State, op: Op, r: int, message: int)
    requires Inv(s) && Held(s, r, message) && !TakesRow(s, op, r)
    ensures r in Apply(s, op).listed <==> r in s.listed
    ensures Apply(s, op).sweeping == Some(r) <==> s.sweeping == Some(r) || Sweeps(s, op, r)
  {
    match op
    case ListOrphans(ids) => assert !Unclaimed(s, r);
    case _ =>
  }

  lemma TakenIsGone(s: State, op: Op, r: int)
    requires TakesRow(s, op, r)
    ensures r !in Apply(s, op).rows
  {
  }

  lemma {:induction false} GoneStaysGone(s: State, ops: seq<Op>, r: int)
    requires r !in s.rows && r < s.nextRow
    ensures r !in Run(s, ops).rows
    decreases |ops|
  {
    if ops != [] {
      GoneAfterStep(s, ops[0], r);
      GoneStaysGone(Apply(s, ops[0]), ops[1..], r);
    }
  }

  lemma GoneAfterStep(s: State, op: Op, r: int)
    requires r !in s.rows && r < s.nextRow
    ensures r !in Apply(s, op).rows && r < Apply(s, op).nextRow
  {
  }

  /** As long as nobody deletes its message, a claimed attachment is lost exactly when the janitor was
      at it already or gets to it. */
  lemma {:induction false} HeldLostIff(s: State, ops: seq<Op>, r: int, message: int)
    requires Inv(s) && AllCareful(s, ops) && Held(s, r, message) && Undeleted(ops, message)
    ensures Lost(Run(s, ops), r) <==> s.sweeping == Some(r) || TurnComes(s, ops, r)
    ensures r in Run(s, ops).rows ==> Held(Run(s, ops), r, message)
    decreases |ops|
  {
    assert RowSound(s, r);
    if ops != [] {
      var op := ops[0];
      var t := Apply(s, op);
      assert op in ops;
      ApplyKeepsInvIff(s, op);
      if TakesRow(s, op, r) {
        TakenIsGone(s, op, r);
        assert r < t.nextRow;
        GoneStaysGone(t, ops[1..], r);
      } else {
        StepHolds(s, op, r, message);
        StepKeepsList(s, op, r, message);
        HeldLostIff(t, ops[1..], r, message);
      }
    }
  }

  lemma {:induction false} UnlistedHasNoTurn(s: State, ops: seq<Op>, r: int, message: int)
    requires Inv(s) && AllCareful(s, ops) && Held(s, r, message) && Undeleted(ops, message) && r !in s.listed
    ensures !TurnComes(s, ops, r)
    decreases |ops|
  {
    if ops != [] {
      var op := ops[0];
      assert op in ops;
      ApplyKeepsInvIff(s, op);
      StepHolds(s, op, r, message);
      StepKeepsList(s, op, r, message);
      UnlistedHasNoTurn(Apply(s, op), ops[1..], r, message);
    }
  }

  /** A sent attachment stays with its message, object in place, until the message is deleted. The one
      exception, and it is always one: it was on the janitor's list when it was claimed, and its turn came,
      before or after. */
  lemma SentAttachmentLostIff(s: State, message: int, ids: set<int>, r: int, ops: seq<Op>)
    requires Inv(s) && message !in s.messages && r in ids && forall x | x in ids :: Unclaimed(s, x)
    requires AllCareful(AfterSend(s, message, ids), ops) && Undeleted(ops, message)
    ensures var u := AfterSend(s, message, ids); var t := Run(u, ops);
            && (Lost(t, r) <==> r in s.listed && (s.sweeping == Some(r) || TurnComes(u, ops, r)))
            && (!Lost(t, r) ==> Held(t, r, message))
  {
    var u := AfterSend(s, message, ids);
    SendKeepsInv(s, message, ids);
    assert Held(u, r, message);
    HeldLostIff(u, ops, r, message);
    if r !in s.listed {
      UnlistedHasNoTurn(u, ops, r, message);
    }
  }

  /** The janitor's two calls for one row, nothing in between. */
  function AfterSweep(s: State, r: int): State {
    AfterSweepRow(AfterSweepObject(s, r))
  }

  predicate Dangles(s: State, r: int) {
    r in s.rows && s.rows[r].key !in s.objects
  }

  /** From any sound state, after a forward and the janitor's two calls for the row that entry `i`
      copied, the copy has lost its object if and only if that row was listed when it was copied. */
  lemma CopyDanglesIff(s: State, source: int, message: int, list: seq<int>, i: nat)
    requires Inv(s) && Forwardable(s, source, message, list) && i < |list|
    requires s.sweeping.None? || s.sweeping == Some(list[i])
    ensures var t := AfterSweep(AfterForward(s, source, message, list), list[i]);
            s.nextRow + i in t.rows && (Dangles(t, s.nextRow + i) <==> list[i] in s.listed)
  {
    RowsStand(s, list[i]);
    StandingCopyDanglesIff(s, message, KeysOf(s, list), i, list[i]);
  }

  /** What a sweep has to go by for row `x`: the key listed for it when it is listed, an object in place
      otherwise. */
  predicate Standing(s: State, x: int) {
    && x in s.rows && x < s.nextRow
    && (if x in s.listed
        then s.rows[x].key == s.listed[x] && (s.sweeping == Some(x) ==> s.rows[x].key !in s.objects)
        else s.rows[x].key in s.objects)
    && (s.sweeping == Some(x) ==> x in s.listed)
  }

  lemma RowsStand(s: State, x: int)
    requires Inv(s) && x in s.rows && (s.sweeping.None? || s.sweeping == Some(x))
    ensures Standing(s, x)
  {
    assert RowSound(s, x);
    assert x in s.listed ==> ListedSound(s, x);
  }

  lemma StandingCopyDanglesIff(s: State, message: int, keys: seq<int>, i: nat, x: int)
    requires i < |keys| && Standing(s, x) && keys[i] == s.rows[x].key && (s.sweeping.None? || s.sweeping == Some(x))
    ensures var t := AfterSweep(CopyKeys(s, message, keys), x);
            s.nextRow + i in t.rows && (Dangles(t, s.nextRow + i) <==> x in s.listed)
  {
    CopyKeysAt(s, message, keys, i);
    SweepOfCopy(s, CopyKeys(s, message, keys), x, s.nextRow + i);
  }

  lemma SweepOfCopy(s: State, u: State, x: int, copy: int)
    requires Standing(s, x) && (s.sweeping.None? || s.sweeping == Some(x)) && s.nextRow <= copy
    requires copy in u.rows && u.rows[copy].key == s.rows[x].key
    requires u.listed == s.listed && u.sweeping == s.sweeping && u.objects == s.objects
    ensures var t := AfterSweep(u, x); copy in t.rows && (Dangles(t, copy) <==> x in s.listed)
  {
  }

  function Uploaded(): State { State(map[0 := Row(0, None)], {0}, map[], map[], map[], None, 1, 1) }

  function Listed(): State { Uploaded().(listed := map[0 := 0]) }

  function Sent(): State { Listed().(rows := map[0 := Row(0, Some(7))], messages := map[7 := false]) }

  function Forwarded(): State {
    Sent().(rows := Sent().rows[1 := Row(0, Some(8))], messages := Sent().messages[8 := false], nextRow := 2)
  }

  function Swept(): State { Forwarded().(objects := {}, sweeping := Some(0)) }

  lemma FirstThree()
    ensures AfterUpload(EMPTY) == Uploaded() && AfterList(Uploaded(), {0}) == Listed()
    ensures AfterSend(Listed(), 7, {0}) == Sent()
  {
    assert AfterUpload(EMPTY).rows == Uploaded().rows && AfterUpload(EMPTY).objects == {0};
    assert AfterList(Uploaded(), {0}).listed == Listed().listed;
    assert forall r | r in {0} :: Unclaimed(Listed(), r);
    assert AfterSend(Listed(), 7, {0}).rows == Sent().rows;
  }

  lemma LastThree()
    ensures AfterForward(Sent(), 7, 8, [0]) == Forwarded() && AfterSweepObject(Forwarded(), 0) == Swept()
    ensures var t := AfterSweepRow(Swept());
            && t.deleters == map[] && t.listed == map[] && t.sweeping == None
            && 0 !in t.rows && 1 in t.rows && t.rows[1] == Row(0, Some(8)) && 0 !in t.objects
  {
    assert AttachmentsOf(Sent(), 7, [0]);
    assert KeysOf(Sent(), [0]) == [0];
    CopyKeysAt(Sent(), 8, [0], 0);
    assert CopyKeys(Sent(), 8, [0]).rows == Forwarded().rows;
    assert {0} - {0} == {};
    assert map[0 := 0] - {0} == map[];
  }

  lemma ThreeSteps(s: State, ops: seq<Op>, a: State, b: State, c: State)
    requires |ops| >= 3 && Apply(s, ops[0]) == a && Apply(a, ops[1]) == b && Apply(b, ops[2]) == c
    ensures Run(s, ops) == Run(c, ops[3..])
  {
    assert ops[1..][1..][1..] == ops[3..];
    assert Run(s, ops) == Run(a, ops[1..]) == Run(b, ops[1..][1..]);
    assert Run(b, ops[1..][1..]) == Run(c, ops[1..][1..][1..]);
  }

  /** A run of that kind: an attachment is listed as never sent, then sent, then forwarded, and only then
      swept. With nothing running any more the first message has lost it and the copy has no object. */
  lemma ForwardOfListedDangles()
    ensures var s := Run(EMPTY, [Upload, ListOrphans({0}), Send(7, {0}), Forward(7, 8, [0]), SweepObject(0), SweepRow]);
            && s.deleters == map[] && s.listed == map[] && s.sweeping == None
            && 0 !in s.rows && 1 in s.rows && s.rows[1] == Row(0, Some(8)) && 0 !in s.objects
  {
    var ops := [Upload, ListOrphans({0}), Send(7, {0}), Forward(7, 8, [0]), SweepObject(0), SweepRow];
    FirstThree();
    LastThree();
    ThreeSteps(EMPTY, ops, Uploaded(), Listed(), Sent());
    ThreeSteps(Sent(), ops[3..], Forwarded(), Swept(), AfterSweepRow(Swept()));
    assert ops[3..][3..] == [];
  }

  lemma {:induction false} NoForwardIsCareful(s: State, ops: seq<Op>)
    requires forall op | op in ops :: !op.Forward? && !op.InsertCopies?
    ensures AllCareful(s, ops)
    decreases |ops|
  {
    if ops != [] {
      assert ops[0] in ops;
      NoForwardIsCareful(Apply(s, ops[0]), ops[1..]);
    }
  }

  function SentSwept(): State { Sent().(objects := {}, sweeping := Some(0)) }

  lemma SweepsTheSent()
    ensures AfterSweepObject(Sent(), 0) == SentSwept()
    ensures AfterSweepRow(SentSwept()) == SentSwept().(rows := map[], listed := map[], sweeping := None)
  {
    assert {0} - {0} == {};
    assert Sent().rows - {0} == map[] && map[0 := 0] - {0} == map[];
  }

  /** A run without any forward: listed as never sent, then sent, and then swept. The message is there and
      its attachment is not. */
  lemma SentAttachmentIsLost()
    ensures var ops := [Upload, ListOrphans({0}), Send(7, {0}), SweepObject(0), SweepRow]; var s := Run(EMPTY, ops);
            && AllCareful(EMPTY, ops) && s.deleters == map[] && s.listed == map[] && s.sweeping == None
            && s.messages == map[7 := false] && s.rows == map[] && s.objects == {}
  {
    var ops := [Upload, ListOrphans({0}), Send(7, {0}), SweepObject(0), SweepRow];
    NoForwardIsCareful(EMPTY, ops);
    FirstThree();
    SweepsTheSent();
    ThreeSteps(EMPTY, ops, Uploaded(), Listed(), Sent());
    assert ops[3..] == [SweepObject(0), SweepRow];
    TwoSteps(Sent(), SweepObject(0), SweepRow);
  }

  lemma TwoSteps(s: State, a: Op, b: Op)
    ensures Run(s, [a, b]) == Apply(Apply(s, a), b)
  {
    assert [a, b][1..] == [b] && [b][1..] == [];
    assert Run(Apply(s, a), [b]) == Run(Apply(Apply(s, a), b), []);
  }

  function Claimed(): State { Uploaded().(rows := map[0 := Row(0, Some(7))], messages := map[7 := false]) }

  function Deleting(phase: Phase): State {
    Claimed().(rows := if phase == AtRow then map[0 := Row(0, Some(7))] else map[], messages := map[7 := true],
               deleters := map[0 := Deleter([Entry(0, 0)], phase)])
  }

  function Copied(): State {
    Deleting(AtObject).(rows := map[1 := Row(0, Some(8))], messages := map[7 := true, 8 := false], nextRow := 2)
  }

  lemma ClaimedIsDeleted()
    ensures AfterUpload(EMPTY) == Uploaded() && AfterSend(Uploaded(), 7, {0}) == Claimed()
    ensures AfterBegin(Claimed(), 0, 7, [0]) == Deleting(AtRow)
  {
    assert AfterUpload(EMPTY).rows == Uploaded().rows && AfterUpload(EMPTY).objects == {0};
    assert forall r | r in {0} :: Unclaimed(Uploaded(), r);
    assert AfterSend(Uploaded(), 7, {0}).rows == Claimed().rows;
    assert AttachmentsOf(Claimed(), 7, [0]);
    assert Entries(Claimed(), [0]) == [Entry(0, 0)];
  }

  lemma CountedThenCopied()
    ensures AfterStep(Deleting(AtRow), 0) == Deleting(AtCount) && AfterStep(Deleting(AtCount), 0) == Deleting(AtObject)
    ensures AfterInsert(Deleting(AtObject), 8, [0]) == Copied()
  {
    assert Deleting(AtRow).rows - {0} == map[];
    CopyKeysAt(Deleting(AtObject), 8, [0], 0);
    assert CopyKeys(Deleting(AtObject), 8, [0]).rows == Copied().rows;
  }

  lemma CopiedThenDangles()
    ensures AfterStep(Copied(), 0) == Copied().(objects := {}, deleters := map[])
  {
    assert [Entry(0, 0)][1..] == [];
    assert Copied().deleters - {0} == map[] && Copied().objects - {0} == {};
  }

  lemma RunDeletes(rest: seq<Op>)
    ensures Run(EMPTY, [Upload, Send(7, {0}), BeginDelete(0, 7, [0])] + rest) == Run(Deleting(AtRow), rest)
  {
    var ops := [Upload, Send(7, {0}), BeginDelete(0, 7, [0])] + rest;
    ClaimedIsDeleted();
    ThreeSteps(EMPTY, ops, Uploaded(), Claimed(), Deleting(AtRow));
    assert ops[3..] == rest;
  }

  lemma RunCopies(rest: seq<Op>)
    ensures Run(Deleting(AtRow), [StepDelete(0), StepDelete(0), InsertCopies(8, [0])] + rest) == Run(Copied(), rest)
  {
    var ops := [StepDelete(0), StepDelete(0), InsertCopies(8, [0])] + rest;
    CountedThenCopied();
    ThreeSteps(Deleting(AtRow), ops, Deleting(AtCount), Deleting(AtObject), Copied());
    assert ops[3..] == rest;
  }

  /** A run in which a forward has read its attachment, the message it read from is deleted, and the copy
      is made between the count and the object. Nothing is running any more and the copy has no object. */
  lemma ForwardDuringDeletionDangles()
    ensures var s := Run(EMPTY, [Upload, Send(7, {0}), BeginDelete(0, 7, [0])] +
                                ([StepDelete(0), StepDelete(0), InsertCopies(8, [0])] + [StepDelete(0)]));
            && s.deleters == map[] && s.listed == map[] && s.sweeping == None
            && s.rows == map[1 := Row(0, Some(8))] && s.messages == map[7 := true, 8 := false] && s.objects == {}
  {
    RunDeletes([StepDelete(0), StepDelete(0), InsertCopies(8, [0])] + [StepDelete(0)]);
    RunCopies([StepDelete(0)]);
    CopiedThenDangles();
    assert [StepDelete(0)][1..] == [];
    assert Run(Copied(), [StepDelete(0)]) == Run(AfterStep(Copied(), 0), []);
  }
}
