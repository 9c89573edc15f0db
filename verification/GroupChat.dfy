/** Group management: who may add, remove and promote, and who owns the group when the owner leaves. */
module GroupChat {
  import opened Basics

  const MAX_GROUP_PARTICIPANTS := 200

  datatype Role = Plain | Admin
  datatype Member = Member(role: Role, joined: int)

  /** `owner` is conversations.created_by; the owner's rights come from there, not from a role. */
  datatype Group = Group(owner: int, members: map<int, Member>)

  /** `known` tells whether every id to be added is an existing user. */
  datatype Action =
    | Add(actor: int, ids: seq<int>, known: bool, now: int)
    | Remove(actor: int, target: int)
    | SetRole(actor: int, target: int, role: Role)

  predicate Manages(g: Group, u: int) {
    g.owner == u || (u in g.members && g.members[u].role == Admin)
  }

  function Newcomers(us: set<int>, now: int): map<int, Member> {
    map u | u in us :: Member(Plain, now)
  }

  function Created(creator: int, ids: seq<int>, now: int): Group {
    Group(creator, Newcomers({creator} + SetOf(ids), now))
  }

  /** Joining again changes nothing for someone already in. */
  function Joined(ms: map<int, Member>, ids: seq<int>, now: int): map<int, Member> {
    Newcomers(SetOf(ids), now) + ms
  }

  lemma JoinOneMore(ms: map<int, Member>, ids: seq<int>, x: int, now: int)
    ensures var before := Joined(ms, ids, now);
            Joined(ms, ids + [x], now) == if x in before then before else before[x := Member(Plain, now)]
  {
    assert SetOf(ids + [x]) == SetOf(ids) + {x};
  }

  predicate MayAdd(g: Group, a: Action)
    requires a.Add?
  {
    a.actor in g.members && Manages(g, a.actor) && a.ids != [] && a.known
    && |g.members| + |a.ids| <= MAX_GROUP_PARTICIPANTS
  }

  /** Anyone may leave; the owner may remove anyone; an admin only a plain member who is not the owner. */
  predicate MayRemove(g: Group, actor: int, target: int) {
    && actor in g.members
    && (target != actor ==> Manages(g, actor))
    && (target != actor && g.owner != actor ==>
          g.owner != target && !(target in g.members && g.members[target].role == Admin))
  }

  predicate MaySetRole(g: Group, actor: int, target: int) {
    actor in g.members && g.owner == actor && target != actor && target in g.members
  }

  /** Admins before plain members, then by time of joining. */
  predicate NoLater(a: Member, b: Member) {
    if a.role == b.role then a.joined <= b.joined else a.role == Admin
  }

  /** A first row of the ordering; which one, when several joined at once, is the engine's choice. */
  predicate IsHeir(ms: map<int, Member>, u: int) {
    u in ms && forall v | v in ms :: NoLater(ms[u], ms[v])
  }

  /** What taking `target` out leaves behind. */
  ghost predicate Without(g: Group, target: int, h: Group) {
    && h.members == g.members - {target}
    && (if g.owner == target && h.members != map[] then IsHeir(h.members, h.owner) else h.owner == g.owner)
  }

  /** One request: refused requests change nothing. */
  ghost predicate Step(g: Group, a: Action, h: Group) {
    match a
    case Add(actor, ids, known, now) => h == if MayAdd(g, a) then g.(members := Joined(g.members, ids, now)) else g
    case Remove(actor, target) => if MayRemove(g, actor, target) then Without(g, target, h) else h == g
    case SetRole(actor, target, role) =>
      h == if MaySetRole(g, actor, target) then g.(members := g.members[target := g.members[target].(role := role)])
           else g
  }

  ghost predicate IsRun(gs: seq<Group>, actions: seq<Action>) {
    |gs| == |actions| + 1 && forall i | 0 <= i < |actions| :: Step(gs[i], actions[i], gs[i + 1])
  }

  // ---------- what every run keeps ----------

  /** A group with anyone in it is owned by someone in it. */
  predicate Owned(g: Group) {
    g.members == map[] || g.owner in g.members
  }

  lemma StepKeepsOwned(g: Group, a: Action, h: Group)
    requires Owned(g) && Step(g, a, h)
    ensures Owned(h)
  {
    if a.Remove? && h != g && g.owner != a.target {
      assert g.owner in g.members ==> g.owner in h.members;
    }
  }

  lemma {:induction false} OwnerIsAlwaysAMember(gs: seq<Group>, actions: seq<Action>, creator: int, ids: seq<int>, now: int)
    requires IsRun(gs, actions) && gs[0] == Created(creator, ids, now)
    ensures forall i | 0 <= i < |gs| :: Owned(gs[i])
  {
    assert creator in gs[0].members;
    var k := 0;
    while k < |actions|
      invariant k <= |actions| && forall i | 0 <= i <= k :: Owned(gs[i])
    {
      StepKeepsOwned(gs[k], actions[k], gs[k + 1]);
      k := k + 1;
    }
  }

  // ---------- who can do what, by owner and role ----------

  predicate IsAdmin(g: Group, u: int) {
    u in g.members && g.members[u].role != Plain
  }

  /** A request by somebody who is not in the group changes nothing. */
  lemma StrangersAreRefused(g: Group, a: Action, h: Group)
    requires Step(g, a, h) && a.actor !in g.members
    ensures h == g
  {
  }

  /** All a plain member who is not the owner can bring about is to leave. */
  lemma PlainMembersOnlyLeave(g: Group, a: Action, h: Group)
    requires Step(g, a, h) && !IsAdmin(g, a.actor) && a.actor != g.owner
    ensures h == g || (a.Remove? && a.target == a.actor && h.owner == g.owner && h.members == g.members - {a.actor})
  {
  }

  /** Whoever goes was asked to go by himself or herself, by the owner, or, a plain member and not the
      owner, by an admin; and goes alone. */
  lemma WhoeverGoes(g: Group, a: Action, h: Group, v: int)
    requires Step(g, a, h) && v in g.members && v !in h.members
    ensures a.Remove? && a.target == v && a.actor in g.members && h.members == g.members - {v}
    ensures a.actor == v || a.actor == g.owner || (IsAdmin(g, a.actor) && !IsAdmin(g, v) && v != g.owner)
  {
  }

  /** The other way round, such a request takes effect, and every other one changes nothing. */
  lemma RemoveExact(g: Group, actor: int, target: int, h: Group)
    requires Step(g, Remove(actor, target), h)
    ensures if actor in g.members && (actor == target || actor == g.owner
                                      || (IsAdmin(g, actor) && !IsAdmin(g, target) && target != g.owner))
            then h.members == g.members - {target} && (target != g.owner || h.members == map[] ==> h.owner == g.owner)
            else h == g
  {
  }

  /** The owner and the admins add; everybody named and not yet in becomes a plain member, those in already
      stay as they are, and the owner stays. Any other request changes nothing. */
  lemma AddExact(g: Group, actor: int, ids: seq<int>, known: bool, now: int, h: Group)
    requires Step(g, Add(actor, ids, known, now), h)
    ensures h.owner == g.owner
    ensures forall v | v in g.members :: v in h.members && h.members[v] == g.members[v]
    ensures var takes := actor in g.members && (actor == g.owner || IsAdmin(g, actor)) && known && |g.members| + |ids| <= 200;
            forall v | v !in g.members :: v in h.members <==> takes && v in ids
    ensures forall v | v in h.members && v !in g.members :: h.members[v].role == Plain && h.members[v].joined == now
  {
  }

  /** The owner gives another member a role, and nothing else about anybody changes; nobody else does. */
  lemma SetRoleExact(g: Group, actor: int, target: int, role: Role, h: Group)
    requires Step(g, SetRole(actor, target, role), h)
    ensures h.owner == g.owner && h.members.Keys == g.members.Keys
    ensures forall v | v in g.members && v != target :: h.members[v] == g.members[v]
    ensures target in g.members ==> h.members[target].joined == g.members[target].joined
    ensures target in g.members ==>
              h.members[target].role == if actor == g.owner && actor in g.members && actor != target
                                        then role else g.members[target].role
  {
  }

  /** A new group is its creator's, who is in it with exactly the others named, all plain members. */
  lemma CreatedExact(creator: int, ids: seq<int>, now: int)
    ensures var g := Created(creator, ids, now);
            && g.owner == creator
            && (forall v :: v in g.members <==> v == creator || v in ids)
            && (forall v | v in g.members :: g.members[v].role == Plain && g.members[v].joined == now)
  {
  }

  /** Someone other than the owner never changes a role or a joining time, never removes the owner or
      another admin, and never moves the ownership. */
  lemma NonOwnersAreHarmless(g: Group, a: Action, h: Group)
    requires Owned(g) && Step(g, a, h) && a.actor != g.owner
    ensures h.owner == g.owner
    ensures forall v | v in g.members && v in h.members :: h.members[v] == g.members[v]
    ensures forall v | v in g.members && v !in h.members && v != a.actor ::
              v != g.owner && g.members[v].role == Plain
    ensures forall v | v in h.members && v !in g.members :: h.members[v].role == Plain
  {
  }

  /** Ownership moves only when the owner leaves a group with someone left in it, and then to an admin
      if any remains, otherwise to an earliest joiner. */
  lemma OwnershipPassesOn(g: Group, a: Action, h: Group)
    requires Owned(g) && Step(g, a, h) && h.owner != g.owner
    ensures a.Remove? && a.actor == a.target == g.owner && h.members == g.members - {g.owner}
    ensures h.owner in h.members
    ensures (exists v :: v in h.members && h.members[v].role == Admin) ==>
              h.members[h.owner].role == Admin
    ensures forall v | v in h.members && h.members[v].role == h.members[h.owner].role ::
              h.members[h.owner].joined <= h.members[v].joined
  {
  }

  /** An emptied group stays empty. */
  lemma EmptyGroupStaysEmpty(g: Group, a: Action, h: Group)
    requires Step(g, a, h) && g.members == map[]
    ensures h == g
  {
  }

  lemma StepSize(g: Group, a: Action, h: Group)
    requires Step(g, a, h)
    ensures |h.members| <= |g.members| || |h.members| <= MAX_GROUP_PARTICIPANTS
  {
    assert |h.members| == |h.members.Keys| && |g.members| == |g.members.Keys|;
    match a
    case Add(actor, ids, known, now) =>
      if MayAdd(g, a) {
        var added := SetOf(ids);
        SetOfSize(ids);
        assert h.members.Keys == added + g.members.Keys;
        assert |added + g.members.Keys| <= |added| + |g.members.Keys|;
      }
    case Remove(actor, target) =>
      if MayRemove(g, actor, target) {
        assert h.members.Keys == g.members.Keys - {target};
        SubsetSize(h.members.Keys, g.members.Keys);
      }
    case SetRole(actor, target, role) =>
      if MaySetRole(g, actor, target) {
        assert h.members.Keys == g.members.Keys;
      }
  }

  lemma CreatedSize(creator: int, ids: seq<int>, now: int)
    ensures |Created(creator, ids, now).members| == |{creator} + SetOf(ids)| <= 1 + |ids|
  {
    assert Created(creator, ids, now).members.Keys == {creator} + SetOf(ids);
    SetOfSize(ids);
  }

  lemma {:induction false} RunSize(gs: seq<Group>, actions: seq<Action>, bound: nat, k: nat)
    requires IsRun(gs, actions) && k < |gs| && |gs[0].members| <= bound && MAX_GROUP_PARTICIPANTS <= bound
    ensures |gs[k].members| <= bound
  {
    if k > 0 {
      RunSize(gs, actions, bound, k - 1);
      StepSize(gs[k - 1], actions[k - 1], gs[k]);
    }
  }

  /** Every group of a run keeps within the limit if and only if it did so with its creator counted when
      it was made; and it never exceeds the limit by more than the creator. */
  lemma GroupKeepsLimitIff(gs: seq<Group>, actions: seq<Action>, creator: int, ids: seq<int>, now: int)
    requires IsRun(gs, actions) && gs[0] == Created(creator, ids, now) && |ids| <= MAX_GROUP_PARTICIPANTS
    ensures (forall i | 0 <= i < |gs| :: |gs[i].members| <= MAX_GROUP_PARTICIPANTS) <==>
            |{creator} + SetOf(ids)| <= MAX_GROUP_PARTICIPANTS
    ensures forall i | 0 <= i < |gs| :: |gs[i].members| <= MAX_GROUP_PARTICIPANTS + 1
  {
    CreatedSize(creator, ids, now);
    forall i | 0 <= i < |gs| ensures |gs[i].members| <= MAX_GROUP_PARTICIPANTS + 1 {
      RunSize(gs, actions, MAX_GROUP_PARTICIPANTS + 1, i);
    }
    if |{creator} + SetOf(ids)| <= MAX_GROUP_PARTICIPANTS {
      forall i | 0 <= i < |gs| ensures |gs[i].members| <= MAX_GROUP_PARTICIPANTS {
        RunSize(gs, actions, MAX_GROUP_PARTICIPANTS, i);
      }
    }
  }

  function OneTo(n: nat): (ids: seq<int>)
    ensures |ids| == n && forall i | 0 <= i < n :: ids[i] == i + 1
  {
    seq(n, i => i + 1)
  }

  /** The limit is exceeded: user 0 makes a group with 200 others, and it has 201 members. */
  lemma GroupOfTooMany(now: int)
    ensures |OneTo(MAX_GROUP_PARTICIPANTS)| <= MAX_GROUP_PARTICIPANTS
    ensures |Created(0, OneTo(MAX_GROUP_PARTICIPANTS), now).members| == MAX_GROUP_PARTICIPANTS + 1
  {
    var ids := OneTo(MAX_GROUP_PARTICIPANTS);
    CreatedSize(0, ids, now);
    SetOfSize(ids);
    assert 0 !in SetOf(ids);
  }

  // ---------- the handlers ----------

  class Conversation {
    var owner: int
    var members: map<int, Member>

    function View(): Group
      reads this
    {
      Group(owner, members)
    }

    constructor (creator: int, ids: seq<int>, now: int)
      ensures View() == Created(creator, ids, now)
    {
      owner := creator;
      members := Newcomers({creator} + SetOf(ids), now);
    }

    method RequireManager(actor: int) returns (ok: bool)
      ensures ok <==> Manages(View(), actor)
    {
      if owner == actor { return true; }
      return actor in members && members[actor].role == Admin;
    }

    method AddParticipants(actor: int, ids: seq<int>, known: bool, now: int)
      modifies this`members
      ensures Step(old(View()), Add(actor, ids, known, now), View())
    {
      if actor !in members { return; }
      var ok := RequireManager(actor);
      if !ok || ids == [] || !known || |members| + |ids| > MAX_GROUP_PARTICIPANTS { return; }
      AddEach(ids, now);
    }

    method AddEach(ids: seq<int>, now: int)
      modifies this`members
      ensures members == Joined(old(members), ids, now)
    {
      ghost var before := members;
      for i := 0 to |ids|
        invariant members == Joined(before, ids[..i], now)
      {
        assert ids[..i + 1] == ids[..i] + [ids[i]];
        JoinOneMore(before, ids[..i], ids[i], now);
        if ids[i] !in members {
          members := members[ids[i] := Member(Plain, now)];
        }
      }
      assert ids[..|ids|] == ids;
    }

    method RemoveParticipant(actor: int, target: int)
      modifies this
      ensures Step(old(View()), Remove(actor, target), View())
    {
      if actor !in members { return; }
      if target != actor {
        var ok := RequireManager(actor);
        if !ok { return; }
        if owner != actor {
          if owner == target { return; }
          if target in members && members[target].role == Admin { return; }
        }
      }
      members := members - {target};
      if owner == target && members.Keys != {} {
        owner := FirstInOrder();
      }
    }

    /** The first row of the ordering, found by one scan in whatever order the rows come. */
    method FirstInOrder() returns (best: int)
      requires members.Keys != {}
      ensures IsHeir(members, best)
    {
      ghost var some := SomeMember(members.Keys);
      best :| best in members.Keys;
      var left := members.Keys - {best};
      while left != {}
        invariant best in members && left <= members.Keys
        invariant forall v | v in members && v !in left :: NoLater(members[best], members[v])
        decreases left
      {
        ghost var one := SomeMember(left);
        var v :| v in left;
        if !NoLater(members[best], members[v]) {
          best := v;
        }
        left := left - {v};
      }
    }

    method SetParticipantRole(actor: int, target: int, role: Role)
      modifies this`members
      ensures Step(old(View()), SetRole(actor, target, role), View())
    {
      if actor !in members || owner != actor || target == actor || target !in members { return; }
      members := members[target := members[target].(role := role)];
    }
  }
}
