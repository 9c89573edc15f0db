/** Folder paths for a zip download: rows arrive in any order and are resolved in repeated passes
    over one buffer, compacted in place. */
module ZipTree {
  import opened Basics
  import opened Forest

  datatype FolderRow = FolderRow(id: int, name: string, parent: Option<int>)

  /** A path inside the archive, segment by segment: path.Join appends one segment. */
  type Path = seq<string>

  ghost predicate DistinctIds(rows: seq<FolderRow>) {
    forall i, j | 0 <= i < j < |rows| :: rows[i].id != rows[j].id
  }

  predicate HasId(rows: seq<FolderRow>, id: int) {
    exists i :: 0 <= i < |rows| && rows[i].id == id
  }

  /** The row with this id. */
  function RowOf(rows: seq<FolderRow>, id: int): FolderRow
    requires HasId(rows, id)
    decreases |rows|
  {
    if rows[0].id == id then rows[0] else RowOf(rows[1..], id)
  }

  lemma {:induction false} RowOfAt(rows: seq<FolderRow>, i: nat)
    requires DistinctIds(rows) && i < |rows|
    ensures HasId(rows, rows[i].id) && RowOf(rows, rows[i].id) == rows[i]
    decreases |rows|
  {
    if i > 0 {
      RowOfAt(rows[1..], i - 1);
      assert rows[1..][i - 1] == rows[i];
    }
  }

  /** The parent links among the rows, with the download's own folder as the root. */
  ghost function RowLinks(rows: seq<FolderRow>, root: int): Parents {
    (map id | id in (set r | r in rows :: r.id) && HasId(rows, id) :: RowOf(rows, id).parent)[root := None]
  }

  lemma LinkOfRow(rows: seq<FolderRow>, root: int, i: nat)
    requires DistinctIds(rows) && i < |rows| && rows[i].id != root
    ensures rows[i].id in RowLinks(rows, root) && RowLinks(rows, root)[rows[i].id] == rows[i].parent
  {
    RowOfAt(rows, i);
    assert rows[i] in rows;
  }

  lemma RowOfLink(rows: seq<FolderRow>, root: int, d: int) returns (i: nat)
    requires DistinctIds(rows) && d in RowLinks(rows, root) && d != root
    ensures i < |rows| && rows[i].id == d
  {
    i :| 0 <= i < |rows| && rows[i].id == d;
  }

  /** Segment `k` from the end is the name of the k-th ancestor of `d`, and the rest is the prefix:
      `path` is the sequence of names from the root down to `d`. */
  ghost predicate IsPathOf(rows: seq<FolderRow>, root: int, prefix: Path, d: int, path: Path) {
    exists n: nat :: PathAt(rows, root, prefix, d, path, n)
  }

  ghost predicate PathAt(rows: seq<FolderRow>, root: int, prefix: Path, d: int, path: Path, n: nat) {
    && AtLevel(RowLinks(rows, root), root, d, n)
    && |path| == |prefix| + n && path[..|prefix|] == prefix
    && forall k: nat | k < n :: NameAt(rows, root, d, k) == Some(path[|path| - 1 - k])
  }

  /** The name of the k-th ancestor of `d`. */
  ghost function NameAt(rows: seq<FolderRow>, root: int, d: int, k: nat): Option<string> {
    match Up(RowLinks(rows, root), d, k)
    case None => None
    case Some(a) => if HasId(rows, a) then Some(RowOf(rows, a).name) else None
  }

  lemma ExtendPath(rows: seq<FolderRow>, root: int, prefix: Path, i: nat, path: Path)
    requires DistinctIds(rows) && i < |rows| && rows[i].id != root && rows[i].parent.Some?
    requires IsPathOf(rows, root, prefix, rows[i].parent.value, path)
    ensures IsPathOf(rows, root, prefix, rows[i].id, path + [rows[i].name])
  {
    var g := RowLinks(rows, root);
    var d, p: int := rows[i].id, rows[i].parent.value;
    var n: nat :| PathAt(rows, root, prefix, p, path, n);
    var longer := path + [rows[i].name];
    LinkOfRow(rows, root, i);
    RowOfAt(rows, i);
    AtLevelChild(g, root, d, n);
    forall k: nat | k < n + 1 ensures NameAt(rows, root, d, k) == Some(longer[|longer| - 1 - k]) {
      if k > 0 {
        assert NameAt(rows, root, d, k) == NameAt(rows, root, p, k - 1);
      }
    }
    assert longer[..|prefix|] == path[..|prefix|];
    assert PathAt(rows, root, prefix, d, longer, n + 1);
  }

  /** A folder has one path only. */
  lemma PathIsUnique(rows: seq<FolderRow>, root: int, prefix: Path, d: int, p: Path, q: Path)
    requires IsPathOf(rows, root, prefix, d, p) && IsPathOf(rows, root, prefix, d, q)
    ensures p == q
  {
    var m: nat :| PathAt(rows, root, prefix, d, p, m);
    var n: nat :| PathAt(rows, root, prefix, d, q, n);
    forall k | 0 <= k < |p| && m == n ensures p[k] == q[k] {
      if k < |prefix| {
        assert p[k] == p[..|prefix|][k] == q[..|prefix|][k] == q[k];
      } else {
        assert NameAt(rows, root, d, |p| - 1 - k) == Some(p[|p| - 1 - (|p| - 1 - k)]);
        assert NameAt(rows, root, d, |p| - 1 - k) == Some(q[|q| - 1 - (|p| - 1 - k)]);
      }
    }
  }

  /** A row that reaches the root reaches it through its parent. */
  lemma StuckRow(rows: seq<FolderRow>, root: int, r: FolderRow)
    requires DistinctIds(rows) && r in rows && r.id != root && r.parent.Some?
    ensures Under(RowLinks(rows, root), root, r.id) ==> Under(RowLinks(rows, root), root, r.parent.value)
  {
    var i :| 0 <= i < |rows| && rows[i] == r;
    LinkOfRow(rows, root, i);
    if Under(RowLinks(rows, root), root, r.id) {
      UnderStep(RowLinks(rows, root), root, r.id);
    }
  }

  /** `relPath` holds only right paths. */
  ghost predicate Sound(rows: seq<FolderRow>, root: int, prefix: Path, relPath: map<int, Path>) {
    root in relPath && forall d | d in relPath :: IsPathOf(rows, root, prefix, d, relPath[d])
  }

  lemma SoundExtends(rows: seq<FolderRow>, root: int, prefix: Path, relPath: map<int, Path>, f: FolderRow)
    requires DistinctIds(rows) && Sound(rows, root, prefix, relPath)
    requires f in rows && f.id != root && f.parent.Some? && f.parent.value in relPath
    ensures Sound(rows, root, prefix, relPath[f.id := relPath[f.parent.value] + [f.name]])
  {
    var at :| 0 <= at < |rows| && rows[at] == f;
    ExtendPath(rows, root, prefix, at, relPath[f.parent.value]);
  }

  lemma {:induction false} ClosedHoldsSubtree(rows: seq<FolderRow>, root: int, keys: set<int>, d: int, n: nat)
    requires DistinctIds(rows) && root in keys
    requires forall i | 0 <= i < |rows| && rows[i].parent.Some? && rows[i].parent.value in keys :: rows[i].id in keys
    requires Up(RowLinks(rows, root), d, n) == Some(root)
    ensures d in keys
    decreases n
  {
    if d != root {
      var g := RowLinks(rows, root);
      var i := RowOfLink(rows, root, d);
      LinkOfRow(rows, root, i);
      ClosedHoldsSubtree(rows, root, keys, g[d].value, n - 1);
    }
  }

  /** Row `r` is settled: it is the root, has no parent, or has its path already. */
  predicate Settled(r: FolderRow, root: int, relPath: map<int, Path>) {
    r.id == root || r.parent.None? || r.id in relPath
  }

  /** Every row not settled yet still waits in the buffer. */
  predicate Covered(rows: seq<FolderRow>, root: int, relPath: map<int, Path>, waiting: seq<FolderRow>) {
    forall r | r in rows :: Settled(r, root, relPath) || r in waiting
  }

  /** What a pass keeps in its buffer: rows other than the root, each with a parent. */
  predicate Kept(rows: seq<FolderRow>, root: int, s: seq<FolderRow>) {
    forall k | 0 <= k < |s| :: s[k] in rows && s[k].id != root && s[k].parent.Some?
  }

  /** What a pass may find in its buffer: rows other than the root. */
  predicate Queued(rows: seq<FolderRow>, root: int, s: seq<FolderRow>) {
    forall k | 0 <= k < |s| :: s[k] in rows && s[k].id != root
  }

  predicate Stuck(relPath: map<int, Path>, s: seq<FolderRow>) {
    forall k | 0 <= k < |s| :: s[k].parent.Some? ==> s[k].parent.value !in relPath
  }

  /** Where a pass stands: `kept` packed at the front, `rest` still to look at. */
  ghost predicate PassHolds(rows: seq<FolderRow>, root: int, prefix: Path, known: map<int, Path>,
                            relPath: map<int, Path>, progressed: bool, kept: seq<FolderRow>, rest: seq<FolderRow>)
  {
    && Sound(rows, root, prefix, relPath) && known.Keys <= relPath.Keys
    && Kept(rows, root, kept) && Covered(rows, root, relPath, kept + rest)
    && (!progressed ==> relPath == known && Stuck(relPath, kept))
  }

  lemma PassBegins(rows: seq<FolderRow>, root: int, prefix: Path, known: map<int, Path>,
                   kept: seq<FolderRow>, start: seq<FolderRow>)
    requires Sound(rows, root, prefix, known) && Covered(rows, root, known, start) && kept == []
    ensures PassHolds(rows, root, prefix, known, known, false, kept, start[0..])
  {
    assert kept + start[0..] == start;
  }

  lemma PassEnds(rows: seq<FolderRow>, root: int, prefix: Path, known: map<int, Path>, relPath: map<int, Path>,
                 progressed: bool, kept: seq<FolderRow>, rest: seq<FolderRow>)
    requires PassHolds(rows, root, prefix, known, relPath, progressed, kept, rest) && rest == []
    ensures Covered(rows, root, relPath, kept)
  {
    assert kept + rest == kept;
  }

  lemma PassDrops(rows: seq<FolderRow>, root: int, prefix: Path, known: map<int, Path>, relPath: map<int, Path>,
                  progressed: bool, kept: seq<FolderRow>, f: FolderRow, rest: seq<FolderRow>)
    requires PassHolds(rows, root, prefix, known, relPath, progressed, kept, [f] + rest) && f.parent.None?
    ensures PassHolds(rows, root, prefix, known, relPath, progressed, kept, rest)
  {
    forall r | r in rows && !Settled(r, root, relPath) ensures r in kept + rest {
      assert r in kept + ([f] + rest);
    }
  }

  lemma PassKeeps(rows: seq<FolderRow>, root: int, prefix: Path, known: map<int, Path>, relPath: map<int, Path>,
                  progressed: bool, kept: seq<FolderRow>, f: FolderRow, rest: seq<FolderRow>)
    requires PassHolds(rows, root, prefix, known, relPath, progressed, kept, [f] + rest)
    requires f in rows && f.id != root && f.parent.Some? && f.parent.value !in relPath
    ensures PassHolds(rows, root, prefix, known, relPath, progressed, kept + [f], rest)
  {
    assert kept + ([f] + rest) == kept + [f] + rest;
  }

  lemma PassResolves(rows: seq<FolderRow>, root: int, prefix: Path, known: map<int, Path>, relPath: map<int, Path>,
                     progressed: bool, kept: seq<FolderRow>, f: FolderRow, rest: seq<FolderRow>)
    requires PassHolds(rows, root, prefix, known, relPath, progressed, kept, [f] + rest) && DistinctIds(rows)
    requires f in rows && f.id != root && f.parent.Some? && f.parent.value in relPath
    ensures PassHolds(rows, root, prefix, known, relPath[f.id := relPath[f.parent.value] + [f.name]], true, kept, rest)
  {
    SoundExtends(rows, root, prefix, relPath, f);
    var more := relPath[f.id := relPath[f.parent.value] + [f.name]];
    forall r | r in rows && !Settled(r, root, more) ensures r in kept + rest {
      assert r in kept + ([f] + rest);
    }
  }

  /** Looks at slot `i`: its row is dropped, packed at slot `j0`, or resolved. */
  method Visit(rows: seq<FolderRow>, root: int, prefix: Path, buf: array<FolderRow>, i: nat, j0: nat,
               relPath0: map<int, Path>, progressed0: bool, ghost known: map<int, Path>, ghost rest: seq<FolderRow>)
    returns (j: nat, relPath: map<int, Path>, progressed: bool)
    requires j0 <= i < buf.Length && DistinctIds(rows) && buf[i] in rows && buf[i].id != root
    requires PassHolds(rows, root, prefix, known, relPath0, progressed0, buf[..j0], [buf[i]] + rest)
    modifies buf
    ensures j0 <= j <= j0 + 1 && (progressed ==> progressed0 || j == j0)
    ensures forall k | i < k < buf.Length :: buf[k] == old(buf[k])
    ensures PassHolds(rows, root, prefix, known, relPath, progressed, buf[..j], rest)
  {
    j, relPath, progressed := j0, relPath0, progressed0;
    var f := buf[i];
    ghost var front := buf[..j];
    if f.parent.None? {
      PassDrops(rows, root, prefix, known, relPath, progressed, front, f, rest);
    } else if f.parent.value !in relPath {
      PassKeeps(rows, root, prefix, known, relPath, progressed, front, f, rest);
      buf[j] := f;
      j := j + 1;
      assert buf[..j] == front + [f];
    } else {
      PassResolves(rows, root, prefix, known, relPath, progressed, front, f, rest);
      relPath := relPath[f.id := relPath[f.parent.value] + [f.name]];
      progressed := true;
    }
  }

  /** One pass over the first `n` slots: resolves what it can, drops parentless rows, and packs the
      rest at the front of the same buffer. */
  method Pass(rows: seq<FolderRow>, root: int, prefix: Path, buf: array<FolderRow>, n: nat, known: map<int, Path>)
    returns (j: nat, relPath: map<int, Path>, progressed: bool)
    requires n <= buf.Length && DistinctIds(rows) && Queued(rows, root, buf[..n])
    requires Sound(rows, root, prefix, known) && Covered(rows, root, known, buf[..n])
    modifies buf
    ensures j <= n && (progressed ==> j < n) && (!progressed ==> relPath == known && Stuck(relPath, buf[..j]))
    ensures Sound(rows, root, prefix, relPath) && known.Keys <= relPath.Keys
    ensures Kept(rows, root, buf[..j]) && Covered(rows, root, relPath, buf[..j])
  {
    j, relPath, progressed := 0, known, false;
    ghost var start := buf[..n];
    PassBegins(rows, root, prefix, known, buf[..0], start);
    for i := 0 to n
      invariant j <= i && (progressed ==> j < i)
      invariant forall k | i <= k < n :: buf[k] == start[k]
      invariant PassHolds(rows, root, prefix, known, relPath, progressed, buf[..j], start[i..])
    {
      assert start[i..] == [start[i]] + start[i + 1..];
      j, relPath, progressed := Visit(rows, root, prefix, buf, i, j, relPath, progressed, known, start[i + 1..]);
    }
    PassEnds(rows, root, prefix, known, relPath, progressed, buf[..j], start[n..]);
  }

  /** Before the first pass the download's own folder has its path. */
  lemma RootIsSound(rows: seq<FolderRow>, root: int, prefix: Path)
    ensures Sound(rows, root, prefix, map[root := prefix])
  {
    assert Up(RowLinks(rows, root), root, 0) == Some(root);
    assert PathAt(rows, root, prefix, root, prefix, 0);
  }

  /** When the rows left are all stuck, exactly the folders that reach the root have a path. */
  lemma StuckIsDone(rows: seq<FolderRow>, root: int, prefix: Path, relPath: map<int, Path>, left: seq<FolderRow>)
    requires DistinctIds(rows) && Sound(rows, root, prefix, relPath)
    requires Covered(rows, root, relPath, left) && Stuck(relPath, left)
    ensures forall d :: d in relPath <==> Under(RowLinks(rows, root), root, d)
  {
    var g := RowLinks(rows, root);
    forall i | 0 <= i < |rows| && rows[i].parent.Some? && rows[i].parent.value in relPath
      ensures rows[i].id in relPath
    {
      assert rows[i] in rows;
    }
    forall d ensures d in relPath <==> Under(g, root, d) {
      if d in relPath {
        var m: nat :| PathAt(rows, root, prefix, d, relPath[d], m);
      }
      if Under(g, root, d) {
        var m: nat :| Up(g, d, m) == Some(root);
        ClosedHoldsSubtree(rows, root, relPath.Keys, d, m);
      }
    }
  }

  /** A row left over does not reach the root. */
  lemma LeftoverIsLost(rows: seq<FolderRow>, root: int, relPath: map<int, Path>, left: seq<FolderRow>)
    requires DistinctIds(rows) && Kept(rows, root, left) && Stuck(relPath, left)
    requires forall d :: d in relPath <==> Under(RowLinks(rows, root), root, d)
    ensures (forall r | r in rows :: Under(RowLinks(rows, root), root, r.id)) ==> left == []
  {
    if left != [] {
      StuckRow(rows, root, left[0]);
    }
  }

  /** Copies every row but the root into the buffer. */
  method Enqueue(root: int, rows: seq<FolderRow>, buf: array<FolderRow>) returns (n: nat)
    requires buf.Length == |rows|
    modifies buf
    ensures n <= buf.Length && Queued(rows, root, buf[..n])
    ensures forall r | r in rows && r.id != root :: r in buf[..n]
  {
    n := 0;
    for i := 0 to |rows|
      invariant n <= i && Queued(rows, root, buf[..n])
      invariant forall k | 0 <= k < i && rows[k].id != root :: rows[k] in buf[..n]
    {
      if rows[i].id != root {
        ghost var front := buf[..n];
        buf[n] := rows[i];
        n := n + 1;
        assert buf[..n] == front + [rows[i]];
      }
    }
  }

  /** The multi-pass resolution. Whatever the rows (any order, dangling or cyclic parents), it ends
      with a path for exactly the folders that reach the root, and that path is theirs. */
  method ResolvePaths(root: int, rows: seq<FolderRow>, prefix: Path)
    returns (relPath: map<int, Path>, leftover: nat)
    requires DistinctIds(rows)
    ensures forall d :: d in relPath <==> Under(RowLinks(rows, root), root, d)
    ensures forall d | d in relPath :: IsPathOf(rows, root, prefix, d, relPath[d])
    ensures (forall r | r in rows :: Under(RowLinks(rows, root), root, r.id)) ==> leftover == 0
  {
    var buf := new FolderRow[|rows|](_ => FolderRow(root, "", None));
    var n := Enqueue(root, rows, buf);
    relPath := map[root := prefix];
    RootIsSound(rows, root, prefix);
    while n > 0
      invariant 0 <= n <= buf.Length && Queued(rows, root, buf[..n])
      invariant Sound(rows, root, prefix, relPath) && Covered(rows, root, relPath, buf[..n])
    {
      var progressed;
      n, relPath, progressed := Pass(rows, root, prefix, buf, n, relPath);
      if !progressed { break; }
    }
    leftover := n;
    StuckIsDone(rows, root, prefix, relPath, buf[..n]);
    LeftoverIsLost(rows, root, relPath, buf[..n]);
  }

  // ---------- over the folders table ----------

  /** The folders table, and the parent links in it. */
  type Table = map<int, FolderRow>

  function TableLinks(t: Table): Parents {
    map id | id in t :: t[id].parent
  }

  /** `rows` are exactly the rows of the subtree of `root`, in some order. */
  ghost predicate SubtreeRows(t: Table, root: int, rows: seq<FolderRow>) {
    && DistinctIds(rows)
    && (forall r | r in rows :: r.id in t && t[r.id] == r)
    && (forall d :: HasId(rows, d) <==> Under(TableLinks(t), root, d))
  }

  /** Inside the subtree the walk over the fetched rows is the walk over the whole table. */
  lemma {:induction false} SameWalk(t: Table, root: int, rows: seq<FolderRow>, d: int, n: nat, k: nat)
    requires SubtreeRows(t, root, rows) && AtLevel(TableLinks(t), root, d, n) && k <= n
    ensures Up(RowLinks(rows, root), d, k) == Up(TableLinks(t), d, k)
    decreases n
  {
    var g := TableLinks(t);
    if n == 0 {
      UpInTable(g, d, 0);
    } else {
      AtLevelParent(g, root, d, n);
      assert Under(g, root, d);
      var i :| 0 <= i < |rows| && rows[i].id == d;
      assert rows[i] in rows;
      LinkOfRow(rows, root, i);
      if k > 0 {
        SameWalk(t, root, rows, g[d].value, n - 1, k - 1);
      }
    }
  }

  /** `path` spells the names on the way from the root's place in the table down to `d`. */
  ghost predicate IsTablePath(t: Table, root: int, prefix: Path, d: int, path: Path) {
    var g := TableLinks(t);
    exists n: nat :: AtLevel(g, root, d, n) && |path| == |prefix| + n && path[..|prefix|] == prefix
      && forall k: nat | k < n :: Up(g, d, k).Some? && Up(g, d, k).value in t
           && t[Up(g, d, k).value].name == path[|path| - 1 - k]
  }

  lemma SubtreePathsAreTablePaths(t: Table, root: int, rows: seq<FolderRow>, prefix: Path, d: int)
    requires SubtreeRows(t, root, rows)
    ensures Under(RowLinks(rows, root), root, d) || d == root <==> Under(TableLinks(t), root, d) || d == root
    ensures forall path | Under(TableLinks(t), root, d) && IsPathOf(rows, root, prefix, d, path) ::
              IsTablePath(t, root, prefix, d, path)
  {
    var g := TableLinks(t);
    var h := RowLinks(rows, root);
    if Under(g, root, d) {
      var n := FirstHit(g, root, d);
      SameWalk(t, root, rows, d, n, n);
      assert Under(h, root, d);
      forall k: nat | k <= n ensures Up(h, d, k) == Up(g, d, k) {
        SameWalk(t, root, rows, d, n, k);
      }
      assert AtLevel(h, root, d, n);
      forall path | IsPathOf(rows, root, prefix, d, path) ensures IsTablePath(t, root, prefix, d, path) {
        var m: nat :| PathAt(rows, root, prefix, d, path, m);
        assert m == n;
        forall k: nat | k < n
          ensures Up(g, d, k).Some? && Up(g, d, k).value in t && t[Up(g, d, k).value].name == path[|path| - 1 - k]
        {
          assert NameAt(rows, root, d, k) == Some(path[|path| - 1 - k]);
          var a := Up(h, d, k).value;
          var i :| 0 <= i < |rows| && rows[i].id == a;
          RowOfAt(rows, i);
          assert rows[i] in rows;
        }
      }
    } else if Under(h, root, d) && d != root {
      var i := RowOfLink(rows, root, d) by { UnderInTable(h, root, d); }
      assert HasId(rows, d);
    }
  }

  lemma UnderInTable(g: Parents, a: int, d: int)
    requires Under(g, a, d)
    ensures d in g
  {
    var n: nat :| Up(g, d, n) == Some(a);
    UpInTable(g, d, n);
  }

  /** A folder download: walk the subtree, fetch its rows in whatever order they come, resolve their
      paths. Nothing is left over and every folder of the subtree has its own root-to-folder path. */
  method WriteFolderTree(t: Table, scan: seq<int>, fetch: seq<int>, root: int, prefix: Path)
    returns (relPath: map<int, Path>)
    requires forall id | id in t :: t[id].id == id
    requires ScanOf(TableLinks(t), scan) && ScanOf(TableLinks(t), fetch)
    ensures forall d :: d in relPath <==> d == root || Under(TableLinks(t), root, d)
    ensures forall d | d in relPath && root in t :: IsTablePath(t, root, prefix, d, relPath[d])
  {
    var ids := ListFolderAndDescendantIDs(TableLinks(t), scan, root);
    var rows: seq<FolderRow> := [];
    for i := 0 to |fetch|
      invariant forall k | 0 <= k < |rows| :: rows[k].id in fetch[..i] && rows[k].id in ids
                                              && rows[k].id in t && t[rows[k].id] == rows[k]
      invariant DistinctIds(rows)
      invariant forall d | d in fetch[..i] && d in ids :: HasId(rows, d)
    {
      assert fetch[i] !in fetch[..i];
      var id := fetch[i];
      assert id in TableLinks(t);
      if id in ids {
        ghost var was := rows;
        rows := rows + [t[id]];
        assert rows[|was|].id == id;
        forall d | HasId(was, d) ensures HasId(rows, d) {
          var k :| 0 <= k < |was| && was[k].id == d;
          assert rows[k].id == d;
        }
      }
    }
    assert fetch[..|fetch|] == fetch;
    forall d ensures HasId(rows, d) <==> Under(TableLinks(t), root, d) {
      if Under(TableLinks(t), root, d) {
        UnderInTable(TableLinks(t), root, d);
        assert d in fetch;
      }
    }
    assert SubtreeRows(t, root, rows);
    var leftover;
    relPath, leftover := ResolvePaths(root, rows, prefix);
    assert Up(RowLinks(rows, root), root, 0) == Some(root);
    forall d ensures d in relPath <==> d == root || Under(TableLinks(t), root, d) {
      SubtreePathsAreTablePaths(t, root, rows, prefix, d);
    }
    forall d | d in relPath && root in t ensures IsTablePath(t, root, prefix, d, relPath[d]) {
      UnderSelf(TableLinks(t), root);
      SubtreePathsAreTablePaths(t, root, rows, prefix, d);
    }
    forall r | r in rows ensures Under(RowLinks(rows, root), root, r.id) {
      var k :| 0 <= k < |rows| && rows[k] == r;
      assert HasId(rows, r.id);
      SubtreePathsAreTablePaths(t, root, rows, prefix, r.id);
    }
    assert leftover == 0;
  }
}
