/** The envelope check of a markup layer: a recursive walk with one node counter shared by the whole
    layer, stopping at the first violation. An object is held as the list of its members in the order
    the walk happens to visit them. */
module AnnotationLimits {

  const MAX_BYTES := 256 * 1024
  const MAX_SHAPES := 1500
  const MAX_NODES := 60000
  const MAX_DEPTH := 6
  const MAX_STRING := 2000
  const MAX_KEYS := 24
  const MAX_KEY_LEN := 32
  const MAX_NUMBER := 10000.0
  const MAX_TAG := 16

  /** A decoded value; strings are byte strings. A literal outside the float64 range is a `Huge`. */
  datatype Json =
    | Obj(members: seq<Member>)
    | Arr(items: seq<Json>)
    | Str(text: string)
    | Num(value: real)
    | Huge
    | Bool(b: bool)
    | Null
  datatype Member = Member(key: string, value: Json)

  // ---------- the order-free predicate ----------

  /** Depth, key, string and number bounds at every node. */
  predicate Fits(v: Json, depth: nat)
    decreases v
  {
    depth <= MAX_DEPTH &&
    match v
    case Obj(ms) =>
      |ms| <= MAX_KEYS && forall m | m in ms :: |m.key| <= MAX_KEY_LEN && Fits(m.value, depth + 1)
    case Arr(items) => forall x | x in items :: Fits(x, depth + 1)
    case Str(text) => |text| <= MAX_STRING
    case Num(x) => -MAX_NUMBER <= x <= MAX_NUMBER
    case Huge => false
    case Bool(_) => true
    case Null => true
  }

  /** The number of values in `v`, itself included. */
  function Nodes(v: Json): (n: nat)
    ensures n >= 1
    decreases v
  {
    match v
    case Obj(ms) => 1 + MemberNodes(ms)
    case Arr(items) => 1 + ItemNodes(items)
    case _ => 1
  }

  function MemberNodes(ms: seq<Member>): nat
    decreases ms
  {
    if ms == [] then 0 else MemberNodes(ms[..|ms| - 1]) + Nodes(ms[|ms| - 1].value)
  }

  function ItemNodes(items: seq<Json>): nat
    decreases items
  {
    if items == [] then 0 else ItemNodes(items[..|items| - 1]) + Nodes(items[|items| - 1])
  }

  /** A shape is an object that says what it is. */
  predicate Tagged(v: Json) {
    v.Obj? && exists i :: 0 <= i < |v.members| && v.members[i].key == "t" && v.members[i].value.Str?
                          && 0 < |v.members[i].value.text| <= MAX_TAG
  }

  predicate KeysDistinct(ms: seq<Member>) {
    forall i, j | 0 <= i < j < |ms| :: ms[i].key != ms[j].key
  }

  /** A whole layer is acceptable: bounds per shape, tags, and one node budget over all shapes. */
  predicate LayerFits(shapes: seq<Json>) {
    && |shapes| <= MAX_SHAPES
    && (forall s | s in shapes :: Tagged(s) && Fits(s, 1))
    && ItemNodes(shapes) <= MAX_NODES
  }

  // ---------- the same, over all values met ----------

  /** A value met on the way down, and how deep. */
  datatype Visit = Visit(value: Json, depth: nat)

  /** Every value at or below `v`, itself first. */
  function Visits(v: Json, depth: nat): seq<Visit>
    decreases v
  {
    [Visit(v, depth)] +
    match v
    case Obj(ms) => MemberVisits(ms, depth + 1)
    case Arr(items) => ItemVisits(items, depth + 1)
    case _ => []
  }

  function MemberVisits(ms: seq<Member>, depth: nat): seq<Visit>
    decreases ms
  {
    if ms == [] then [] else MemberVisits(ms[..|ms| - 1], depth) + Visits(ms[|ms| - 1].value, depth)
  }

  function ItemVisits(items: seq<Json>, depth: nat): seq<Visit>
    decreases items
  {
    if items == [] then [] else ItemVisits(items[..|items| - 1], depth) + Visits(items[|items| - 1], depth)
  }

  /** What is asked of each value for itself. */
  predicate SmallEnough(p: Visit) {
    && p.depth <= 6
    && (p.value.Obj? ==> |p.value.members| <= 24 && forall m | m in p.value.members :: |m.key| <= 32)
    && (p.value.Str? ==> |p.value.text| <= 2000)
    && (p.value.Num? ==> -10000.0 <= p.value.value <= 10000.0)
    && p.value != Huge
  }

  predicate AllSmallEnough(ps: seq<Visit>) {
    forall p | p in ps :: SmallEnough(p)
  }

  lemma AllOfBoth(a: seq<Visit>, b: seq<Visit>)
    ensures AllSmallEnough(a + b) <==> AllSmallEnough(a) && AllSmallEnough(b)
  {
    if AllSmallEnough(a + b) {
      forall p | p in a ensures SmallEnough(p) { assert p in a + b; }
      forall p | p in b ensures SmallEnough(p) { assert p in a + b; }
    }
  }

  /** The bounds hold exactly when every value met is small enough, and the node count is the number of
      values met. */
  lemma {:induction false} FitsIffAllSmall(v: Json, depth: nat)
    ensures Fits(v, depth) <==> AllSmallEnough(Visits(v, depth))
    ensures Nodes(v) == |Visits(v, depth)|
    decreases v
  {
    match v
    case Obj(ms) =>
      MembersAllSmall(ms, depth + 1);
      AllOfBoth([Visit(v, depth)], MemberVisits(ms, depth + 1));
      assert AllSmallEnough([Visit(v, depth)]) <==> SmallEnough(Visit(v, depth)) by { OneSmall(Visit(v, depth)); }
    case Arr(items) =>
      ItemsAllSmall(items, depth + 1);
      AllOfBoth([Visit(v, depth)], ItemVisits(items, depth + 1));
      OneSmall(Visit(v, depth));
    case _ =>
      OneSmall(Visit(v, depth));
      assert [Visit(v, depth)] + [] == [Visit(v, depth)];
  }

  lemma OneSmall(p: Visit)
    ensures AllSmallEnough([p]) <==> SmallEnough(p)
  {
    assert p in [p];
  }

  lemma {:induction false} MembersAllSmall(ms: seq<Member>, depth: nat)
    ensures (forall m | m in ms :: Fits(m.value, depth)) <==> AllSmallEnough(MemberVisits(ms, depth))
    ensures MemberNodes(ms) == |MemberVisits(ms, depth)|
    decreases ms
  {
    if ms != [] {
      var front, last := ms[..|ms| - 1], ms[|ms| - 1];
      assert ms == front + [last];
      MembersAllSmall(front, depth);
      FitsIffAllSmall(last.value, depth);
      AllOfBoth(MemberVisits(front, depth), Visits(last.value, depth));
    }
  }

  lemma {:induction false} ItemsAllSmall(items: seq<Json>, depth: nat)
    ensures (forall x | x in items :: Fits(x, depth)) <==> AllSmallEnough(ItemVisits(items, depth))
    ensures ItemNodes(items) == |ItemVisits(items, depth)|
    decreases items
  {
    if items != [] {
      var front, last := items[..|items| - 1], items[|items| - 1];
      assert items == front + [last];
      ItemsAllSmall(front, depth);
      FitsIffAllSmall(last, depth);
      AllOfBoth(ItemVisits(front, depth), Visits(last, depth));
    }
  }

  /** A layer is acceptable exactly when it has no more than 1500 shapes and 60000 values in all, every shape is an
      object with a tag of 1 to 16 bytes, and every value met is small enough. */
  lemma LayerFitsIff(shapes: seq<Json>)
    ensures LayerFits(shapes) <==>
            && |shapes| <= 1500 && |ItemVisits(shapes, 1)| <= 60000 && AllSmallEnough(ItemVisits(shapes, 1))
            && (forall s | s in shapes :: s.Obj? && exists m :: m in s.members && IsTag(m))
  {
    ItemsAllSmall(shapes, 1);
    forall s | s in shapes ensures Tagged(s) <==> s.Obj? && exists m :: m in s.members && IsTag(m) {
      TaggedIff(s);
    }
  }

  predicate IsTag(m: Member) {
    m.key == "t" && m.value.Str? && 1 <= |m.value.text| <= 16
  }

  lemma TaggedIff(s: Json)
    ensures Tagged(s) <==> s.Obj? && exists m :: m in s.members && IsTag(m)
  {
    if s.Obj? {
      if m :| m in s.members && IsTag(m) {
        var i :| 0 <= i < |s.members| && s.members[i] == m;
      }
      if Tagged(s) {
        var i :| 0 <= i < |s.members| && s.members[i].key == "t" && s.members[i].value.Str?
                 && 0 < |s.members[i].value.text| <= MAX_TAG;
        assert s.members[i] in s.members && IsTag(s.members[i]);
      }
    }
  }

  // ---------- the walk ----------

  class Counter {
    var n: nat
    constructor () ensures n == 0 { n := 0; }
  }

  lemma NodesOfPrefix(ms: seq<Member>, i: nat)
    requires i < |ms|
    ensures MemberNodes(ms[..i + 1]) == MemberNodes(ms[..i]) + Nodes(ms[i].value)
  {
    assert ms[..i + 1][..i] == ms[..i];
  }

  lemma NodesOfItems(items: seq<Json>, i: nat)
    requires i < |items|
    ensures ItemNodes(items[..i + 1]) == ItemNodes(items[..i]) + Nodes(items[i])
  {
    assert items[..i + 1][..i] == items[..i];
  }

  lemma {:induction false} MembersMonotone(ms: seq<Member>, i: nat)
    requires i <= |ms|
    ensures MemberNodes(ms[..i]) <= MemberNodes(ms)
    decreases |ms| - i
  {
    if i < |ms| {
      NodesOfPrefix(ms, i);
      MembersMonotone(ms, i + 1);
    } else {
      assert ms[..i] == ms;
    }
  }

  lemma {:induction false} ItemsMonotone(items: seq<Json>, i: nat)
    requires i <= |items|
    ensures ItemNodes(items[..i]) <= ItemNodes(items)
    decreases |items| - i
  {
    if i < |items| {
      NodesOfItems(items, i);
      ItemsMonotone(items, i + 1);
    } else {
      assert items[..i] == items;
    }
  }

  /** The walk succeeds exactly when every bound holds below `v` and the counter, advanced by the
      number of values below `v`, stays within the budget; then the counter is advanced by that. */
  method WalkAnnotation(v: Json, depth: nat, nodes: Counter) returns (ok: bool)
    modifies nodes
    ensures ok <==> Fits(v, depth) && old(nodes.n) + Nodes(v) <= MAX_NODES
    ensures ok ==> nodes.n == old(nodes.n) + Nodes(v)
    decreases v, 1
  {
    if depth > MAX_DEPTH { return false; }
    nodes.n := nodes.n + 1;
    if nodes.n > MAX_NODES { return false; }
    match v {
      case Obj(ms) =>
        if |ms| > MAX_KEYS { return false; }
        ok := WalkMembers(v, depth, nodes);
      case Arr(items) =>
        ok := WalkItems(v, depth, nodes);
      case Str(text) =>
        ok := |text| <= MAX_STRING;
      case Num(x) =>
        ok := !(x < -MAX_NUMBER || x > MAX_NUMBER);
      case Huge =>
        ok := false;
      case Bool(_) =>
        ok := true;
      case Null =>
        ok := true;
    }
  }

  method WalkMembers(v: Json, depth: nat, nodes: Counter) returns (ok: bool)
    requires v.Obj? && nodes.n <= MAX_NODES
    modifies nodes
    ensures ok <==> (forall m | m in v.members :: |m.key| <= MAX_KEY_LEN && Fits(m.value, depth + 1))
                    && old(nodes.n) + MemberNodes(v.members) <= MAX_NODES
    ensures ok ==> nodes.n == old(nodes.n) + MemberNodes(v.members)
    decreases v, 0
  {
    var ms := v.members;
    assert ms[..|ms|] == ms;
    for i := 0 to |ms|
      invariant nodes.n == old(nodes.n) + MemberNodes(ms[..i]) <= MAX_NODES
      invariant forall k | 0 <= k < i :: |ms[k].key| <= MAX_KEY_LEN && Fits(ms[k].value, depth + 1)
    {
      var m := ms[i];
      assert m in ms;
      NodesOfPrefix(ms, i);
      MembersMonotone(ms, i + 1);
      var fine := WalkMember(m, depth, nodes);
      if !fine { return false; }
    }
    return true;
  }

  method WalkMember(m: Member, depth: nat, nodes: Counter) returns (ok: bool)
    modifies nodes
    ensures ok <==> |m.key| <= MAX_KEY_LEN && Fits(m.value, depth + 1) && old(nodes.n) + Nodes(m.value) <= MAX_NODES
    ensures ok ==> nodes.n == old(nodes.n) + Nodes(m.value)
    decreases m, 0
  {
    if |m.key| > MAX_KEY_LEN { return false; }
    ok := WalkAnnotation(m.value, depth + 1, nodes);
  }

  method WalkItems(v: Json, depth: nat, nodes: Counter) returns (ok: bool)
    requires v.Arr? && nodes.n <= MAX_NODES
    modifies nodes
    ensures ok <==> (forall x | x in v.items :: Fits(x, depth + 1)) && old(nodes.n) + ItemNodes(v.items) <= MAX_NODES
    ensures ok ==> nodes.n == old(nodes.n) + ItemNodes(v.items)
    decreases v, 0
  {
    var items := v.items;
    assert items[..|items|] == items;
    for i := 0 to |items|
      invariant nodes.n == old(nodes.n) + ItemNodes(items[..i]) <= MAX_NODES
      invariant forall k | 0 <= k < i :: Fits(items[k], depth + 1)
    {
      assert items[i] in items;
      NodesOfItems(items, i);
      ItemsMonotone(items, i + 1);
      var fine := WalkAnnotation(items[i], depth + 1, nodes);
      if !fine { return false; }
    }
    return true;
  }

  /** The tag lookup of one decoded shape. */
  method HasTag(v: Json) returns (ok: bool)
    requires v.Obj? ==> KeysDistinct(v.members)
    ensures ok <==> Tagged(v)
  {
    if !v.Obj? { return false; }
    for i := 0 to |v.members|
      invariant forall k | 0 <= k < i :: v.members[k].key != "t"
    {
      if v.members[i].key == "t" {
        return v.members[i].value.Str? && 0 < |v.members[i].value.text| <= MAX_TAG;
      }
    }
    return false;
  }

  /** One shape of a layer: its tag, and the walk below it on the layer's common counter. */
  method ShapeFits(v: Json, nodes: Counter) returns (ok: bool)
    requires v.Obj? ==> KeysDistinct(v.members)
    modifies nodes
    ensures ok <==> Tagged(v) && Fits(v, 1) && old(nodes.n) + Nodes(v) <= MAX_NODES
    ensures ok ==> nodes.n == old(nodes.n) + Nodes(v)
  {
    ok := HasTag(v);
    if ok { ok := WalkAnnotation(v, 1, nodes); }
  }

  method AllShapesFit(shapes: seq<Json>, nodes: Counter) returns (ok: bool)
    requires nodes.n == 0 && forall s | s in shapes && s.Obj? :: KeysDistinct(s.members)
    modifies nodes
    ensures ok <==> (forall s | s in shapes :: Tagged(s) && Fits(s, 1)) && ItemNodes(shapes) <= MAX_NODES
  {
    for i := 0 to |shapes|
      invariant nodes.n == ItemNodes(shapes[..i]) <= MAX_NODES
      invariant forall k | 0 <= k < i :: Tagged(shapes[k]) && Fits(shapes[k], 1)
    {
      assert shapes[i] in shapes;
      NodesOfItems(shapes, i);
      ItemsMonotone(shapes, i + 1);
      var fine := ShapeFits(shapes[i], nodes);
      if !fine { return false; }
    }
    assert shapes[..|shapes|] == shapes;
    return true;
  }

  /** What the decoder made of a payload: its length, and its shapes when it is an array of values. */
  datatype Payload = Payload(bytes: nat, wellFormed: bool, shapes: seq<Json>)

  /** A layer is accepted exactly when the order-free predicate holds of it. */
  method ValidateAnnotationShapes(raw: Payload) returns (ok: bool)
    requires forall s | s in raw.shapes && s.Obj? :: KeysDistinct(s.members)
    ensures ok <==> raw.bytes == 0 || (raw.bytes <= 256 * 1024 && raw.wellFormed && LayerFits(raw.shapes))
  {
    if raw.bytes == 0 { return true; }
    if raw.bytes > MAX_BYTES || !raw.wellFormed { return false; }
    var shapes := raw.shapes;
    if |shapes| > MAX_SHAPES { return false; }
    var nodes := new Counter();
    ok := AllShapesFit(shapes, nodes);
  }

  // ---------- independence of the iteration order ----------

  /** `p` and `q` rearrange 0..n-1 and undo each other. */
  ghost predicate Rearranges(p: seq<nat>, q: seq<nat>, n: nat) {
    && |p| == n && |q| == n
    && (forall i | 0 <= i < n :: p[i] < n && q[p[i]] == i)
    && (forall j | 0 <= j < n :: q[j] < n && p[q[j]] == j)
  }

  /** `w` is `v` with the members of its objects visited in another order, at any level. */
  ghost predicate Reordered(v: Json, w: Json)
    decreases v
  {
    match v
    case Obj(ms) => w.Obj? && |w.members| == |ms| && exists p, q :: ReorderedBy(v, w, p, q)
    case Arr(items) => w.Arr? && |w.items| == |items|
                       && forall i | 0 <= i < |items| :: Reordered(items[i], w.items[i])
    case _ => w == v
  }

  ghost predicate ReorderedBy(v: Json, w: Json, p: seq<nat>, q: seq<nat>)
    requires v.Obj? && w.Obj? && |w.members| == |v.members|
    decreases v, 0
  {
    Rearranges(p, q, |v.members|)
    && forall i | 0 <= i < |v.members| ::
         w.members[p[i]].key == v.members[i].key && Reordered(v.members[i].value, w.members[p[i]].value)
  }

  function Sum(a: seq<nat>): nat {
    if a == [] then 0 else Sum(a[..|a| - 1]) + a[|a| - 1]
  }

  lemma {:induction false} SumWithout(a: seq<nat>, k: nat)
    requires k < |a|
    ensures Sum(a) == Sum(a[..k] + a[k + 1..]) + a[k]
    decreases |a|
  {
    var last := |a| - 1;
    if k == last {
      assert a[..k] + a[k + 1..] == a[..last];
    } else {
      SumWithout(a[..last], k);
      var rest := a[..k] + a[k + 1..];
      assert rest[..|rest| - 1] == a[..last][..k] + a[..last][k + 1..];
    }
  }

  /** `p` says where each term of `a` stands in `b`. */
  ghost predicate Permutes(a: seq<nat>, b: seq<nat>, p: seq<nat>) {
    && |a| == |b| == |p|
    && (forall i | 0 <= i < |p| :: p[i] < |p| && b[p[i]] == a[i])
    && (forall i, j | 0 <= i < j < |p| :: p[i] != p[j])
  }

  /** The places after slot `k` of a list is taken out. */
  function Lowered(p: seq<nat>, k: nat): seq<nat> {
    seq(|p|, i requires 0 <= i < |p| => if p[i] > k then p[i] - 1 else p[i])
  }

  lemma PermutesWithout(a: seq<nat>, b: seq<nat>, p: seq<nat>)
    requires Permutes(a, b, p) && a != []
    ensures var k := p[|a| - 1];
            Permutes(a[..|a| - 1], b[..k] + b[k + 1..], Lowered(p[..|a| - 1], k))
  {
    var n := |a| - 1;
    var k := p[n];
    var rest, lower := b[..k] + b[k + 1..], Lowered(p[..n], k);
    forall i | 0 <= i < n ensures lower[i] < n && rest[lower[i]] == a[..n][i] {
      assert p[i] != p[n];
    }
    forall i, j | 0 <= i < j < n ensures lower[i] != lower[j] {
      assert p[i] != p[j] && p[i] != k && p[j] != k;
    }
  }

  /** A sum does not depend on the order of its terms. */
  lemma {:induction false} SumRearranged(a: seq<nat>, b: seq<nat>, p: seq<nat>)
    requires Permutes(a, b, p)
    ensures Sum(a) == Sum(b)
    decreases |a|
  {
    if a != [] {
      var n := |a| - 1;
      var k := p[n];
      PermutesWithout(a, b, p);
      SumRearranged(a[..n], b[..k] + b[k + 1..], Lowered(p[..n], k));
      SumWithout(b, k);
    }
  }

  function MemberWeights(ms: seq<Member>): seq<nat> {
    seq(|ms|, i requires 0 <= i < |ms| => Nodes(ms[i].value))
  }

  lemma {:induction false} MemberNodesIsSum(ms: seq<Member>)
    ensures MemberNodes(ms) == Sum(MemberWeights(ms))
    decreases |ms|
  {
    if ms != [] {
      MemberNodesIsSum(ms[..|ms| - 1]);
      assert MemberWeights(ms)[..|ms| - 1] == MemberWeights(ms[..|ms| - 1]);
    }
  }

  lemma {:induction false} ItemNodesEqual(a: seq<Json>, b: seq<Json>)
    requires |a| == |b| && forall i | 0 <= i < |a| :: Nodes(a[i]) == Nodes(b[i])
    ensures ItemNodes(a) == ItemNodes(b)
    decreases |a|
  {
    if a != [] {
      ItemNodesEqual(a[..|a| - 1], b[..|b| - 1]);
    }
  }

  /** Bounds and node count are the same for every visiting order. */
  lemma {:induction false} OrderDoesNotMatter(v: Json, w: Json, depth: nat)
    requires Reordered(v, w)
    ensures Nodes(v) == Nodes(w) && (Fits(v, depth) <==> Fits(w, depth))
    decreases v, 1
  {
    match v
    case Obj(ms) =>
      var p, q :| ReorderedBy(v, w, p, q);
      MembersReordered(v, w, p, q, depth);
    case Arr(items) => ItemsReordered(v, w, depth);
    case _ =>
  }

  lemma {:induction false} MembersReordered(v: Json, w: Json, p: seq<nat>, q: seq<nat>, depth: nat)
    requires v.Obj? && w.Obj? && |w.members| == |v.members| && ReorderedBy(v, w, p, q)
    ensures Nodes(v) == Nodes(w) && (Fits(v, depth) <==> Fits(w, depth))
    decreases v, 0
  {
    var ms, ws := v.members, w.members;
    forall i | 0 <= i < |ms|
      ensures Nodes(ms[i].value) == Nodes(ws[p[i]].value)
      ensures Fits(ms[i].value, depth + 1) <==> Fits(ws[p[i]].value, depth + 1)
    {
      assert ms[i] in ms;
      OrderDoesNotMatter(ms[i].value, ws[p[i]].value, depth + 1);
    }
    MemberNodesIsSum(ms);
    MemberNodesIsSum(ws);
    forall i, j | 0 <= i < j < |p| ensures p[i] != p[j] {
      assert q[p[i]] == i && q[p[j]] == j;
    }
    SumRearranged(MemberWeights(ms), MemberWeights(ws), p);
    MembersFit(ms, ws, p, q, depth);
  }

  lemma MembersFit(ms: seq<Member>, ws: seq<Member>, p: seq<nat>, q: seq<nat>, depth: nat)
    requires |ws| == |ms| && Rearranges(p, q, |ms|)
    requires forall i | 0 <= i < |ms| :: ws[p[i]].key == ms[i].key
               && (Fits(ms[i].value, depth + 1) <==> Fits(ws[p[i]].value, depth + 1))
    ensures Fits(Obj(ms), depth) <==> Fits(Obj(ws), depth)
  {
    if Fits(Obj(ms), depth) {
      forall m | m in ws ensures |m.key| <= MAX_KEY_LEN && Fits(m.value, depth + 1) {
        var j :| 0 <= j < |ws| && ws[j] == m;
        assert p[q[j]] == j && ms[q[j]] in ms;
      }
    }
    if Fits(Obj(ws), depth) {
      forall m | m in ms ensures |m.key| <= MAX_KEY_LEN && Fits(m.value, depth + 1) {
        var i :| 0 <= i < |ms| && ms[i] == m;
        assert ws[p[i]] in ws;
      }
    }
  }

  lemma {:induction false} ItemsReordered(v: Json, w: Json, depth: nat)
    requires v.Arr? && Reordered(v, w)
    ensures Nodes(v) == Nodes(w) && (Fits(v, depth) <==> Fits(w, depth))
    decreases v, 0
  {
    var a, b := v.items, w.items;
    forall i | 0 <= i < |a|
      ensures Nodes(a[i]) == Nodes(b[i])
      ensures Fits(a[i], depth + 1) <==> Fits(b[i], depth + 1)
    {
      assert a[i] in a;
      OrderDoesNotMatter(a[i], b[i], depth + 1);
    }
    ItemNodesEqual(a, b);
    if Fits(v, depth) {
      forall x | x in b ensures Fits(x, depth + 1) {
        var j :| 0 <= j < |b| && b[j] == x;
        assert a[j] in a;
      }
    }
    if Fits(w, depth) {
      forall x | x in a ensures Fits(x, depth + 1) {
        var j :| 0 <= j < |a| && a[j] == x;
        assert b[j] in b;
      }
    }
  }

  lemma TagDoesNotMove(v: Json, w: Json)
    requires Reordered(v, w)
    ensures Tagged(v) ==> Tagged(w)
    ensures Tagged(w) ==> Tagged(v)
  {
    if v.Obj? {
      var p, q :| ReorderedBy(v, w, p, q);
      if Tagged(v) {
        var i :| 0 <= i < |v.members| && v.members[i].key == "t" && v.members[i].value.Str?
                 && 0 < |v.members[i].value.text| <= MAX_TAG;
        assert w.members[p[i]].key == "t" && Reordered(v.members[i].value, w.members[p[i]].value);
      }
      if Tagged(w) {
        var j :| 0 <= j < |w.members| && w.members[j].key == "t" && w.members[j].value.Str?
                 && 0 < |w.members[j].value.text| <= MAX_TAG;
        assert p[q[j]] == j && Reordered(v.members[q[j]].value, w.members[p[q[j]]].value);
      }
    }
  }

  /** Whether a layer is accepted does not depend on the order in which any object's members are
      visited, although the walk counts as it goes and stops early. */
  lemma AcceptanceIsOrderFree(a: seq<Json>, b: seq<Json>)
    requires |a| == |b| && forall i | 0 <= i < |a| :: Reordered(a[i], b[i])
    ensures LayerFits(a) <==> LayerFits(b)
  {
    forall i | 0 <= i < |a|
      ensures Nodes(a[i]) == Nodes(b[i]) && (Fits(a[i], 1) <==> Fits(b[i], 1)) && (Tagged(a[i]) <==> Tagged(b[i]))
    {
      OrderDoesNotMatter(a[i], b[i], 1);
      TagDoesNotMove(a[i], b[i]);
    }
    ItemNodesEqual(a, b);
    if LayerFits(a) {
      forall s | s in b ensures Tagged(s) && Fits(s, 1) {
        var j :| 0 <= j < |b| && b[j] == s;
        assert a[j] in a;
      }
    }
    if LayerFits(b) {
      forall s | s in a ensures Tagged(s) && Fits(s, 1) {
        var j :| 0 <= j < |a| && a[j] == s;
        assert b[j] in b;
      }
    }
  }
}
