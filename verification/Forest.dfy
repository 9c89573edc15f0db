/** The `folders.parent_id` graph: upward walks, subtrees, the two recursive queries over it,
    and the `ON DELETE CASCADE` closure. Nothing here assumes the graph is acyclic unless it says so. */
module Forest {
  import opened Basics

  /** Every folder id with its parent_id. */
  type Parents = map<int, Option<int>>

  // ---------- walking up ----------

  /** The ancestor `n` links above `id`, or None once the walk has left the table. */
  function Up(g: Parents, id: int, n: nat): Option<int>
    decreases n
  {
    if id !in g then None
    else if n == 0 then Some(id)
    else match g[id]
      case None => None
      case Some(p) => Up(g, p, n - 1)
  }

  /** `d` is `a` itself or lies somewhere below it. */
  ghost predicate Under(g: Parents, a: int, d: int) {
    exists n: nat :: Up(g, d, n) == Some(a)
  }

  /** Every upward walk leaves the table: there is no cycle. */
  ghost predicate IsForest(g: Parents) {
    forall id | id in g :: Ends(g, id)
  }

  ghost predicate Ends(g: Parents, id: int) {
    exists n: nat :: Up(g, id, n) == None
  }

  /** No parent_id dangles (the foreign key). */
  ghost predicate Closed(g: Parents) {
    forall id | id in g && g[id].Some? :: g[id].value in g
  }

  lemma {:induction false} UpAdd(g: Parents, id: int, m: nat, n: nat)
    requires Up(g, id, m).Some?
    ensures Up(g, id, m + n) == Up(g, Up(g, id, m).value, n)
    decreases m
  {
    if m > 0 {
      UpAdd(g, g[id].value, m - 1, n);
    }
  }

  lemma {:induction false} UpStaysOut(g: Parents, id: int, m: nat, n: nat)
    requires m <= n && Up(g, id, m) == None
    ensures Up(g, id, n) == None
    decreases m
  {
    if id in g && m > 0 && g[id].Some? {
      UpStaysOut(g, g[id].value, m - 1, n - 1);
    }
  }

  lemma UnderSelf(g: Parents, a: int)
    requires a in g
    ensures Under(g, a, a)
  {
    assert Up(g, a, 0) == Some(a);
  }

  lemma UnderParent(g: Parents, a: int, d: int)
    requires d in g && g[d].Some? && Under(g, a, g[d].value)
    ensures Under(g, a, d)
  {
    var n: nat :| Up(g, g[d].value, n) == Some(a);
    assert Up(g, d, n + 1) == Some(a);
  }

  lemma UnderStep(g: Parents, a: int, d: int)
    requires Under(g, a, d) && d != a
    ensures d in g && g[d].Some? && Under(g, a, g[d].value)
  {
    var n: nat :| Up(g, d, n) == Some(a);
    assert Up(g, g[d].value, n - 1) == Some(a);
  }

  lemma {:induction false} UpInTable(g: Parents, d: int, n: nat)
    requires Up(g, d, n).Some?
    ensures d in g && Up(g, d, n).value in g
    decreases n
  {
    if n > 0 {
      UpInTable(g, g[d].value, n - 1);
    }
  }

  /** A walk that returns to its start can be repeated for ever. */
  lemma {:induction false} CycleNeverEnds(g: Parents, id: int, k: nat, n: nat)
    requires k > 0 && Up(g, id, k) == Some(id)
    ensures Up(g, id, n).Some?
    decreases n
  {
    if n < k {
      if Up(g, id, n).None? {
        UpStaysOut(g, id, n, k);
      }
    } else {
      CycleNeverEnds(g, id, k, n - k);
      UpAdd(g, id, k, n - k);
    }
  }

  // ---------- how updates keep the forest ----------

  /** While the walk from `d` avoids `id`, re-parenting `id` does not change it. */
  lemma {:induction false} UpUnaffected(g: Parents, id: int, p: Option<int>, d: int, n: nat)
    requires id in g
    requires forall k: nat | k < n :: Up(g, d, k) != Some(id)
    ensures Up(g[id := p], d, n) == Up(g, d, n)
    decreases n
  {
    if n > 0 && d in g {
      assert Up(g, d, 0) == Some(d);
      if g[d].Some? {
        forall k: nat | k < n - 1
          ensures Up(g, g[d].value, k) != Some(id)
        {
          assert Up(g, d, k + 1) == Up(g, g[d].value, k);
        }
        UpUnaffected(g, id, p, g[d].value, n - 1);
      }
    }
  }

  lemma {:induction false} EndsAfterReparent(g: Parents, id: int, p: Option<int>, d: int, n: nat)
    requires IsForest(g) && id in g
    requires p.Some? ==> !Under(g, id, p.value)
    requires Up(g, d, n) == None
    ensures Ends(g[id := p], d)
    decreases n
  {
    var h := g[id := p];
    if d == id {
      if p.None? {
        assert Up(h, d, 1) == None;
      } else {
        var m: nat :| (p.value in g ==> Ends(g, p.value)) && Up(g, p.value, m) == None;
        UpUnaffected(g, id, p, p.value, m);
        assert Up(h, d, m + 1) == None;
      }
    } else if d !in g {
      assert Up(h, d, 0) == None;
    } else if g[d].None? {
      assert Up(h, d, 1) == None;
    } else {
      assert n > 0;
      EndsAfterReparent(g, id, p, g[d].value, n - 1);
      var m: nat :| Up(h, g[d].value, m) == None;
      assert Up(h, d, m + 1) == None;
    }
  }

  /** Hanging folder `id` under `p` keeps the forest exactly when `p` is outside `id`'s subtree:
      the check made before a folder is moved is neither too weak nor too strong. */
  lemma ReparentKeepsForestIff(g: Parents, id: int, p: int)
    requires IsForest(g) && id in g
    ensures IsForest(g[id := Some(p)]) <==> !Under(g, id, p)
  {
    var h := g[id := Some(p)];
    if Under(g, id, p) {
      var n := FirstHit(g, id, p);
      UpUnaffected(g, id, Some(p), p, n);
      assert Up(h, id, n + 1) == Some(id);
      forall m: nat ensures Up(h, id, m).Some? {
        CycleNeverEnds(h, id, n + 1, m);
      }
      assert id in h && !Ends(h, id);
    } else {
      ReparentKeepsForest(g, id, Some(p));
    }
  }

  lemma ReparentKeepsForest(g: Parents, id: int, p: Option<int>)
    requires IsForest(g) && id in g
    requires p.Some? ==> !Under(g, id, p.value)
    ensures IsForest(g[id := p])
  {
    var h := g[id := p];
    forall d | d in h ensures Ends(h, d) {
      assert d in g && Ends(g, d);
      var n: nat :| Up(g, d, n) == None;
      EndsAfterReparent(g, id, p, d, n);
    }
  }

  lemma {:induction false} UpWithNew(g: Parents, id: int, p: Option<int>, d: int, n: nat)
    requires Closed(g) && id !in g && d in g
    ensures Up(g[id := p], d, n) == Up(g, d, n)
    decreases n
  {
    if n > 0 && g[d].Some? {
      UpWithNew(g, id, p, g[d].value, n - 1);
    }
  }

  /** A new folder under an existing one (or at the root) keeps the forest. */
  lemma InsertKeepsForest(g: Parents, id: int, p: Option<int>)
    requires IsForest(g) && Closed(g) && id !in g
    requires p.Some? ==> p.value in g
    ensures IsForest(g[id := p]) && Closed(g[id := p])
  {
    var h := g[id := p];
    forall d | d in h ensures Ends(h, d) {
      if d != id {
        assert Ends(g, d);
        var n: nat :| Up(g, d, n) == None;
        UpWithNew(g, id, p, d, n);
        assert Up(h, d, n) == None;
      } else if p.None? {
        assert Up(h, id, 1) == None;
      } else {
        assert Ends(g, p.value);
        var n: nat :| Up(g, p.value, n) == None;
        UpWithNew(g, id, p, p.value, n);
        assert Up(h, id, n + 1) == None;
      }
    }
  }

  lemma {:induction false} UpInSubtable(g: Parents, h: Parents, d: int, n: nat)
    requires forall x | x in h :: x in g && h[x] == g[x]
    requires Up(h, d, n).Some?
    ensures Up(g, d, n) == Up(h, d, n)
    decreases n
  {
    if n > 0 {
      UpInSubtable(g, h, h[d].value, n - 1);
    }
  }

  /** Deleting rows keeps the forest. */
  lemma RemovalKeepsForest(g: Parents, h: Parents)
    requires IsForest(g)
    requires forall x | x in h :: x in g && h[x] == g[x]
    ensures IsForest(h)
  {
    forall d | d in h ensures Ends(h, d) {
      assert Ends(g, d);
      var n: nat :| Up(g, d, n) == None;
      if Up(h, d, n).Some? {
        UpInSubtable(g, h, d, n);
      }
      assert Up(h, d, n) == None;
    }
  }

  // ---------- levels of a subtree ----------

  /** The walk from `d` meets `a` for the first time after `n` links. */
  ghost predicate AtLevel(g: Parents, a: int, d: int, n: nat) {
    Up(g, d, n) == Some(a) && forall k: nat | k < n :: Up(g, d, k) != Some(a)
  }

  lemma FirstHit(g: Parents, a: int, d: int) returns (n: nat)
    requires Under(g, a, d)
    ensures AtLevel(g, a, d, n)
  {
    var m: nat :| Up(g, d, m) == Some(a);
    n := 0;
    while Up(g, d, n) != Some(a)
      invariant n <= m
      invariant forall k: nat | k < n :: Up(g, d, k) != Some(a)
      decreases m - n
    {
      n := n + 1;
    }
  }

  lemma AtLevelParent(g: Parents, a: int, d: int, n: nat)
    requires n > 0 && AtLevel(g, a, d, n)
    ensures d in g && d != a && g[d].Some? && AtLevel(g, a, g[d].value, n - 1)
  {
    assert Up(g, d, 0) == (if d in g then Some(d) else None);
    forall k: nat | k < n - 1 ensures Up(g, g[d].value, k) != Some(a) {
      assert Up(g, d, k + 1) == Up(g, g[d].value, k);
    }
  }

  lemma AtLevelChild(g: Parents, a: int, d: int, n: nat)
    requires d in g && d != a && g[d].Some? && AtLevel(g, a, g[d].value, n)
    ensures AtLevel(g, a, d, n + 1)
  {
    forall k: nat | k < n + 1 ensures Up(g, d, k) != Some(a) {
      if k > 0 {
        assert Up(g, d, k) == Up(g, g[d].value, k - 1);
      }
    }
  }

  /** Folders first met at different distances are different folders. */
  lemma LevelsDiffer(g: Parents, a: int, d: int, e: int, m: nat, n: nat)
    requires m < n && AtLevel(g, a, d, m) && AtLevel(g, a, e, n)
    ensures d != e
  {
  }

  lemma LevelOfAncestor(g: Parents, a: int, d: int, n: nat, k: nat)
    requires AtLevel(g, a, d, n) && k <= n
    ensures Up(g, d, k).Some? && AtLevel(g, a, Up(g, d, k).value, n - k)
  {
    if Up(g, d, k).None? {
      UpStaysOut(g, d, k, n);
    } else {
      UpAdd(g, d, k, n - k);
      forall j: nat | j < n - k ensures Up(g, Up(g, d, k).value, j) != Some(a) {
        UpAdd(g, d, k, j);
      }
    }
  }

  // ---------- the descendant query ----------

  /** One row of the query's working table: a folder and the ids on the way down to it. */
  datatype WalkRow = WalkRow(id: int, path: seq<int>)

  /** `scan` lists every row of the table once: an order the engine may read it in. */
  ghost predicate ScanOf(g: Parents, scan: seq<int>) {
    NoRepeats(scan) && forall x :: x in scan <==> x in g
  }

  /** A row of level `n`: its path runs from the start down to its id. */
  ghost predicate RowAt(g: Parents, a: int, r: WalkRow, n: nat) {
    AtLevel(g, a, r.id, n) && |r.path| == n + 1
    && forall i | 0 <= i <= n :: Up(g, r.id, i) == Some(r.path[n - i])
  }

  ghost predicate LevelRows(g: Parents, a: int, work: seq<WalkRow>, n: nat) {
    && (forall i | 0 <= i < |work| :: RowAt(g, a, work[i], n))
    && (forall i, j | 0 <= i < j < |work| :: work[i].id != work[j].id)
    && (forall d | AtLevel(g, a, d, n) :: HasRow(work, d))
  }

  ghost predicate HasRow(work: seq<WalkRow>, d: int) {
    exists i :: 0 <= i < |work| && work[i].id == d
  }

  lemma PathLevels(g: Parents, a: int, r: WalkRow, n: nat, i: nat)
    requires RowAt(g, a, r, n) && i <= n
    ensures AtLevel(g, a, r.path[i], i) && r.path[i] in g
  {
    assert Up(g, r.id, n - i) == Some(r.path[n - (n - i)]);
    LevelOfAncestor(g, a, r.id, n, n - i);
    UpInTable(g, r.id, n - i);
  }

  lemma PathRowNoRepeats(g: Parents, a: int, r: WalkRow, n: nat)
    requires RowAt(g, a, r, n)
    ensures NoRepeats(r.path) && forall x | x in r.path :: x in g
  {
    forall i, j | 0 <= i < j < |r.path| ensures r.path[i] != r.path[j] {
      PathLevels(g, a, r, n, i);
      PathLevels(g, a, r, n, j);
      LevelsDiffer(g, a, r.path[i], r.path[j], i, j);
    }
    forall x | x in r.path ensures x in g {
      var i :| 0 <= i < |r.path| && r.path[i] == x;
      PathLevels(g, a, r, n, i);
    }
  }

  /** The query's path guard refuses a child exactly when the child is the start itself:
      on any data, cyclic or not, no other row could repeat. */
  lemma GuardIsFirstVisit(g: Parents, a: int, r: WalkRow, n: nat, f: int)
    requires RowAt(g, a, r, n) && f in g && g[f] == Some(r.id)
    ensures f !in r.path <==> f != a
    ensures f !in r.path ==> RowAt(g, a, WalkRow(f, r.path + [f]), n + 1)
  {
    PathLevels(g, a, r, n, 0);
    assert r.path[0] == a;
    if f != a {
      AtLevelChild(g, a, f, n);
      forall i | 0 <= i < |r.path| ensures r.path[i] != f {
        PathLevels(g, a, r, n, i);
        LevelsDiffer(g, a, r.path[i], f, i, n + 1);
      }
      var c := WalkRow(f, r.path + [f]);
      forall i | 0 <= i <= n + 1 ensures Up(g, f, i) == Some(c.path[n + 1 - i]) {
        if i > 0 {
          assert Up(g, f, i) == Up(g, r.id, i - 1) == Some(r.path[n - (i - 1)]);
        }
      }
    }
  }

  lemma {:induction false} ListFits(s: seq<int>, keys: set<int>)
    requires NoRepeats(s) && forall x | x in s :: x in keys
    ensures |s| <= |keys|
  {
    if s != [] {
      var last := s[|s| - 1];
      forall x | x in s[..|s| - 1] ensures x in keys - {last} {
        var i :| 0 <= i < |s| - 1 && s[i] == x;
      }
      ListFits(s[..|s| - 1], keys - {last});
    }
  }

  /** `found` are rows of the next level, each folder once, whose parents are among `done`. */
  ghost predicate Joined(g: Parents, a: int, done: seq<WalkRow>, found: seq<WalkRow>, n: nat) {
    && (forall i | 0 <= i < |found| :: RowAt(g, a, found[i], n + 1))
    && (forall i, j | 0 <= i < j < |found| :: found[i].id != found[j].id)
    && (forall i | 0 <= i < |found| :: ParentIn(g, found[i].id, done))
  }

  ghost predicate ParentIn(g: Parents, f: int, done: seq<WalkRow>) {
    f in g && g[f].Some? && HasRow(done, g[f].value)
  }

  lemma HasRowIn(front: seq<WalkRow>, back: seq<WalkRow>, d: int)
    ensures HasRow(front + back, d) <==> HasRow(front, d) || HasRow(back, d)
  {
    if HasRow(front, d) {
      var i :| 0 <= i < |front| && front[i].id == d;
      assert (front + back)[i].id == d;
    }
    if HasRow(back, d) {
      var i :| 0 <= i < |back| && back[i].id == d;
      assert (front + back)[|front| + i].id == d;
    }
  }

  /** The children of a further row join those of the rows before it: nothing repeats. */
  lemma JoinedExtends(g: Parents, a: int, done: seq<WalkRow>, r: WalkRow, next: seq<WalkRow>, found: seq<WalkRow>, n: nat)
    requires Joined(g, a, done, next, n) && Joined(g, a, [r], found, n) && !HasRow(done, r.id)
    ensures Joined(g, a, done + [r], next + found, n)
  {
    var all := next + found;
    forall i | 0 <= i < |found| ensures g[found[i].id] == Some(r.id) {
      assert ParentIn(g, found[i].id, [r]);
    }
    forall i | 0 <= i < |all| ensures ParentIn(g, all[i].id, done + [r]) {
      HasRowIn(done, [r], g[all[i].id].value);
      assert ParentIn(g, all[i].id, if i < |next| then done else [r]);
    }
    forall i, j | 0 <= i < j < |all| ensures all[i].id != all[j].id {
      if i < |next| <= j {
        assert ParentIn(g, next[i].id, done);
      }
    }
  }

  /** The children of one row, under the path guard: all of them but the start itself. */
  method JoinRow(g: Parents, scan: seq<int>, ghost a: int, r: WalkRow, ghost n: nat) returns (found: seq<WalkRow>)
    requires ScanOf(g, scan) && RowAt(g, a, r, n)
    ensures Joined(g, a, [r], found, n)
    ensures forall f | f in g && g[f] == Some(r.id) && f != a :: HasRow(found, f)
  {
    found := [];
    for s := 0 to |scan|
      invariant Joined(g, a, [r], found, n)
      invariant forall i | 0 <= i < |found| :: found[i].id in scan[..s]
      invariant forall f | f in scan[..s] && g[f] == Some(r.id) && f != a :: HasRow(found, f)
    {
      var f := scan[s];
      assert f in g && f !in scan[..s];
      if g[f] == Some(r.id) {
        GuardIsFirstVisit(g, a, r, n, f);
        if f !in r.path {
          assert [r][0].id == r.id;
          var row := WalkRow(f, r.path + [f]);
          assert [row][0].id == f;
          forall x ensures HasRow(found + [row], x) <==> HasRow(found, x) || HasRow([row], x) {
            HasRowIn(found, [row], x);
          }
          found := found + [row];
        }
      }
    }
    assert scan[..|scan|] == scan;
  }

  /** Joins the working table with the folders table once, under the path guard. */
  method NextLevel(g: Parents, scan: seq<int>, ghost a: int, work: seq<WalkRow>, ghost n: nat)
    returns (next: seq<WalkRow>)
    requires ScanOf(g, scan) && LevelRows(g, a, work, n)
    ensures LevelRows(g, a, next, n + 1)
  {
    next := [];
    for w := 0 to |work|
      invariant Joined(g, a, work[..w], next, n)
      invariant forall f | ParentIn(g, f, work[..w]) && f != a :: HasRow(next, f)
    {
      var found := JoinRow(g, scan, a, work[w], n);
      assert work[..w + 1] == work[..w] + [work[w]];
      JoinedExtends(g, a, work[..w], work[w], next, found, n);
      forall f | ParentIn(g, f, work[..w + 1]) && f != a ensures HasRow(next + found, f) {
        HasRowIn(work[..w], [work[w]], g[f].value);
        HasRowIn(next, found, f);
      }
      next := next + found;
    }
    assert work[..|work|] == work;
    forall d | AtLevel(g, a, d, n + 1) ensures HasRow(next, d) {
      AtLevelParent(g, a, d, n + 1);
      assert ParentIn(g, d, work);
    }
  }

  /** `d` lies fewer than `n` levels below `a`. */
  ghost predicate Above(g: Parents, a: int, d: int, n: nat) {
    exists k: nat :: k < n && AtLevel(g, a, d, k)
  }

  /** The first `n` levels, each id once. */
  ghost predicate Levels(g: Parents, a: int, ids: seq<int>, n: nat) {
    NoRepeats(ids) && forall d :: d in ids <==> Above(g, a, d, n)
  }

  function IdsOf(work: seq<WalkRow>): seq<int> {
    seq(|work|, i requires 0 <= i < |work| => work[i].id)
  }

  lemma IdsOfAre(work: seq<WalkRow>, d: int)
    ensures d in IdsOf(work) <==> HasRow(work, d)
  {
    if d in IdsOf(work) {
      var i :| 0 <= i < |work| && IdsOf(work)[i] == d;
    }
    if HasRow(work, d) {
      var i :| 0 <= i < |work| && work[i].id == d;
      assert IdsOf(work)[i] == d;
    }
  }

  lemma FirstLevel(g: Parents, a: int)
    ensures LevelRows(g, a, if a in g then [WalkRow(a, [a])] else [], 0)
  {
    assert Up(g, a, 0) == if a in g then Some(a) else None;
    if a in g {
      assert [WalkRow(a, [a])][0].id == a;
    }
  }

  lemma OnLevel(g: Parents, a: int, work: seq<WalkRow>, n: nat, d: int)
    requires LevelRows(g, a, work, n)
    ensures d in IdsOf(work) <==> AtLevel(g, a, d, n)
  {
    IdsOfAre(work, d);
    if HasRow(work, d) {
      var i :| 0 <= i < |work| && work[i].id == d;
      assert RowAt(g, a, work[i], n);
    }
  }

  lemma LevelAdds(g: Parents, a: int, ids: seq<int>, work: seq<WalkRow>, n: nat)
    requires Levels(g, a, ids, n) && LevelRows(g, a, work, n)
    ensures Levels(g, a, ids + IdsOf(work), n + 1)
  {
    var level := IdsOf(work);
    forall d ensures d in ids + level <==> Above(g, a, d, n + 1) {
      OnLevel(g, a, work, n, d);
      if Above(g, a, d, n + 1) {
        var k: nat :| k < n + 1 && AtLevel(g, a, d, k);
        assert k < n ==> Above(g, a, d, n);
      } else {
        assert !Above(g, a, d, n);
      }
    }
    forall x, y | 0 <= x < |ids| && 0 <= y < |level| ensures ids[x] != level[y] {
      assert ids[x] in ids && level[y] in level;
      OnLevel(g, a, work, n, level[y]);
      var k: nat :| k < n && AtLevel(g, a, ids[x], k);
      LevelsDiffer(g, a, ids[x], level[y], k, n);
    }
  }

  /** A level that is not empty lies within the table's depth. */
  lemma LevelFits(g: Parents, a: int, work: seq<WalkRow>, n: nat)
    requires LevelRows(g, a, work, n) && work != []
    ensures n < |g|
  {
    PathRowNoRepeats(g, a, work[0], n);
    ListFits(work[0].path, g.Keys);
  }

  /** Once a level is empty, everything at or below the start has been listed. */
  lemma LevelsAreAll(g: Parents, a: int, ids: seq<int>, n: nat)
    requires Levels(g, a, ids, n) && LevelRows(g, a, [], n)
    ensures forall d :: d in ids <==> Under(g, a, d)
  {
    forall d ensures d in ids <==> Under(g, a, d) {
      if Under(g, a, d) {
        var k := FirstHit(g, a, d);
        NoLevelAbove(g, a, [], n, d, k);
      }
    }
  }

  /** The descendant query: the start and everything below it, each id exactly once, whatever
      order the table is read in and even when the parent links contain a cycle. */
  method ListFolderAndDescendantIDs(g: Parents, scan: seq<int>, start: int) returns (ids: seq<int>)
    requires ScanOf(g, scan)
    ensures NoRepeats(ids)
    ensures forall d :: d in ids <==> Under(g, start, d)
  {
    ids := [];
    var work: seq<WalkRow> := if start in g then [WalkRow(start, [start])] else [];
    ghost var n: nat := 0;
    FirstLevel(g, start);
    while work != []
      invariant LevelRows(g, start, work, n) && Levels(g, start, ids, n)
      decreases |g| - n
    {
      LevelAdds(g, start, ids, work, n);
      LevelFits(g, start, work, n);
      ids := ids + IdsOf(work);
      work := NextLevel(g, scan, start, work, n);
      n := n + 1;
    }
    LevelsAreAll(g, start, ids, n);
  }

  /** An empty level has no level below it. */
  lemma {:induction false} NoLevelAbove(g: Parents, a: int, work: seq<WalkRow>, n: nat, d: int, k: nat)
    requires work == [] && LevelRows(g, a, work, n)
    requires AtLevel(g, a, d, k)
    ensures k < n
    decreases k
  {
    if k > n {
      AtLevelParent(g, a, d, k);
      NoLevelAbove(g, a, work, n, g[d].value, k - 1);
    }
  }

  // ---------- the ancestor query ----------

  /** The breadcrumb query: the ancestors of a folder, root first, the folder itself left out.
      It has no guard, so it needs the upward walk to end. */
  method GetFolderAncestors(g: Parents, id: int) returns (crumbs: seq<int>)
    requires Ends(g, id)
    ensures forall i | 0 <= i < |crumbs| :: Up(g, id, |crumbs| - i) == Some(crumbs[i])
    ensures Up(g, id, |crumbs| + 1) == None
    ensures NoRepeats(crumbs) && id !in crumbs
  {
    crumbs := [];
    ghost var top: nat :| Up(g, id, top) == None;
    var cur := id;
    while cur in g && g[cur].Some? && g[cur].value in g
      invariant Up(g, id, |crumbs|) == (if cur in g then Some(cur) else None)
      invariant forall i | 0 <= i < |crumbs| :: Up(g, id, |crumbs| - i) == Some(crumbs[i])
      invariant id in g || crumbs == []
      invariant crumbs == [] ==> cur == id
      decreases top - |crumbs|
    {
      UpAdd(g, id, |crumbs|, 1);
      if top <= |crumbs| {
        UpStaysOut(g, id, top, |crumbs|);
      }
      cur := g[cur].value;
      ghost var was := crumbs;
      crumbs := [cur] + crumbs;
      forall i | 0 <= i < |crumbs| ensures Up(g, id, |crumbs| - i) == Some(crumbs[i]) {
        if i > 0 {
          assert crumbs[i] == was[i - 1];
        }
      }
    }
    if cur in g {
      UpAdd(g, id, |crumbs|, 1);
      assert Up(g, cur, 1) == None;
    } else {
      UpStaysOut(g, id, |crumbs|, |crumbs| + 1);
    }
    forall i, j | 0 <= i < j < |crumbs| ensures crumbs[i] != crumbs[j] {
      assert Up(g, id, |crumbs| - i) == Some(crumbs[i]) && Up(g, id, |crumbs| - j) == Some(crumbs[j]);
      NoRepeatWhenEnds(g, id, |crumbs| - j, |crumbs| - i);
    }
    forall i | 0 <= i < |crumbs| ensures crumbs[i] != id {
      assert Up(g, id, |crumbs| - i) == Some(crumbs[i]);
      NoRepeatWhenEnds(g, id, 0, |crumbs| - i);
    }
  }

  /** A walk that visits one folder twice never ends. */
  lemma RepeatNeverEnds(g: Parents, id: int, m: nat, n: nat, top: nat)
    requires m < n && Up(g, id, n).Some? && Up(g, id, m) == Up(g, id, n)
    ensures Up(g, id, top).Some?
  {
    var x := Up(g, id, m).value;
    UpAdd(g, id, m, n - m);
    UpAdd(g, id, m, top);
    CycleNeverEnds(g, x, n - m, top);
    if Up(g, id, top).None? {
      UpStaysOut(g, id, top, m + top);
    }
  }

  lemma NoRepeatWhenEnds(g: Parents, id: int, m: nat, n: nat)
    requires Ends(g, id) && m < n && Up(g, id, n).Some?
    ensures Up(g, id, m) != Up(g, id, n)
  {
    if Up(g, id, m) == Up(g, id, n) {
      var top: nat :| Up(g, id, top) == None;
      RepeatNeverEnds(g, id, m, n, top);
    }
  }

  // ---------- ON DELETE CASCADE ----------

  /** The rows a delete of `ids` takes with it: everything at or below one of them. */
  ghost predicate Doomed(g: Parents, ids: set<int>, d: int) {
    exists a :: a in ids && Under(g, a, d)
  }

  lemma {:induction false} ClosedSetHoldsDoomed(g: Parents, ids: set<int>, gone: set<int>, a: int, d: int, n: nat)
    requires forall x | x in ids && x in g :: x in gone
    requires forall x | x in g && g[x].Some? && g[x].value in gone :: x in gone
    requires a in ids && Up(g, d, n) == Some(a)
    ensures d in gone
    decreases n
  {
    if n > 0 {
      ClosedSetHoldsDoomed(g, ids, gone, a, g[d].value, n - 1);
    }
  }

  /** The engine's cascade over `parent_id`: delete the rows named, then rows left without their
      parent, until nothing more falls. It removes exactly the subtrees of the rows named. */
  method Cascade(g: Parents, ids: set<int>) returns (gone: set<int>)
    ensures gone <= g.Keys
    ensures forall d :: d in gone <==> Doomed(g, ids, d)
  {
    gone := ids * g.Keys;
    forall d | d in gone ensures Doomed(g, ids, d) {
      UnderSelf(g, d);
    }
    var more := set d | d in g && d !in gone && g[d].Some? && g[d].value in gone;
    while more != {}
      invariant ids * g.Keys <= gone <= g.Keys
      invariant forall d | d in gone :: Doomed(g, ids, d)
      invariant more == set d | d in g && d !in gone && g[d].Some? && g[d].value in gone
      decreases g.Keys - gone
    {
      forall d | d in more ensures Doomed(g, ids, d) {
        assert Doomed(g, ids, g[d].value);
        var a :| a in ids && Under(g, a, g[d].value);
        UnderParent(g, a, d);
      }
      assert more <= g.Keys - gone;
      ghost var left := g.Keys - gone;
      gone := gone + more;
      assert g.Keys - gone == left - more;
      more := set d | d in g && d !in gone && g[d].Some? && g[d].value in gone;
    }
    forall d | Doomed(g, ids, d) ensures d in gone {
      var a :| a in ids && Under(g, a, d);
      var n: nat :| Up(g, d, n) == Some(a);
      UpInTable(g, d, n);
      forall x | x in g && g[x].Some? && g[x].value in gone ensures x in gone {
        assert x !in more;
      }
      ClosedSetHoldsDoomed(g, ids, gone, a, d, n);
    }
  }

  /** A set of rows closed under children is its own cascade. */
  lemma ClosedSetIsItsCascade(g: Parents, ids: set<int>)
    requires ids <= g.Keys
    requires forall x | x in g && g[x].Some? && g[x].value in ids :: x in ids
    ensures forall d :: Doomed(g, ids, d) <==> d in ids
  {
    forall d ensures Doomed(g, ids, d) <==> d in ids {
      if d in ids {
        UnderSelf(g, d);
      } else if Doomed(g, ids, d) {
        var a :| a in ids && Under(g, a, d);
        var n: nat :| Up(g, d, n) == Some(a);
        ClosedSetHoldsDoomed(g, ids, ids, a, d, n);
      }
    }
  }
}
