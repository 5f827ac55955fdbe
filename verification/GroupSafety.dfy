/** Ownership and the member counter of every group, over every serial run. */
module GroupSafety {
  import opened Base
  import opened Groups

  // ---------- Every row belongs to a group ----------

  ghost predicate Rooted(db: Db) {
    && db.members.Keys == db.groups.Keys
    && forall i :: 0 <= i < |db.requests| ==> db.requests[i].group in db.groups
  }

  lemma {:induction false} InviteRooted(db: Db, g: string, ids: seq<string>, verify: bool)
    requires Rooted(db) && g in db.groups
    ensures Rooted(InviteAll(db, g, ids, verify)) && InviteAll(db, g, ids, verify).groups.Keys == db.groups.Keys
  {
    if ids != [] {
      InviteRooted(db, g, ids[..|ids| - 1], verify);
    }
  }

  lemma HandledRooted(db: Db, user: string, g: string, request: nat, accept: bool)
    requires Rooted(db)
    ensures var db' := Handled(db, user, g, request, accept).0; Rooted(db') && db'.groups.Keys == db.groups.Keys
  {
  }

  lemma CreatedRooted(db: Db, user: string, g: string, ids: seq<string>)
    requires Rooted(db)
    ensures var db' := Created(db, user, g, ids).0; Rooted(db') && db.groups.Keys <= db'.groups.Keys
  {
  }

  lemma StepRooted(db: Db, op: Op)
    requires Rooted(db)
    ensures Rooted(Step(db, op).0) && db.groups.Keys <= Step(db, op).0.groups.Keys
  {
    match op
    case Create(user, g, ids) => CreatedRooted(db, user, g, ids);
    case Invite(_, g, ids) =>
      if Active(db, g) {
        InviteRooted(db, g, ids, Verifies(db, g));
      }
    case HandleRequest(user, g, request, accept) => HandledRooted(db, user, g, request, accept);
    case _ =>
  }

  lemma {:induction false} RunRooted(ops: seq<Op>)
    ensures Rooted(Run(EMPTY, ops))
  {
    if ops != [] {
      RunRooted(ops[..|ops| - 1]);
      StepRooted(Run(EMPTY, ops[..|ops| - 1]), ops[|ops| - 1]);
    }
  }

  // ---------- Ownership ----------

  /** The owner row of a group is that of owner_id, and there is no other. */
  ghost predicate Owned(db: Db, g: string)
    requires g in db.groups
  {
    forall u :: HasRole(db, g, u, OWNER) <==> u == db.groups[g].owner
  }

  ghost predicate Seated(db: Db, g: string)
    requires g in db.groups
  {
    HasRole(db, g, db.groups[g].owner, OWNER)
  }

  /** Somebody else than owner_id has an owner row. */
  ghost predicate Rivalled(db: Db, g: string)
    requires g in db.groups
  {
    exists u :: u != db.groups[g].owner && HasRole(db, g, u, OWNER)
  }

  lemma OwnedExact(db: Db, g: string)
    requires g in db.groups
    ensures Owned(db, g) <==> Seated(db, g) && !Rivalled(db, g)
  {
    assert Owned(db, g) ==> (HasRole(db, g, db.groups[g].owner, OWNER) <==> true);
  }

  /** owner_id and the owner rows of the group are as before. */
  ghost predicate SameOwners(db: Db, db': Db, g: string) {
    && g in db.groups && g in db'.groups && db'.groups[g].owner == db.groups[g].owner
    && forall u :: HasRole(db', g, u, OWNER) <==> HasRole(db, g, u, OWNER)
  }

  lemma {:induction false} InitialOwner(creator: string, ids: seq<string>)
    requires InitialRows(creator, ids).Some?
    ensures var rows := InitialRows(creator, ids).value;
      forall u :: u in rows && rows[u] == OWNER <==> u == creator
  {
    if ids != [] {
      InitialOwner(creator, ids[..|ids| - 1]);
    }
  }

  lemma {:induction false} InviteOwners(db: Db, g: string, ids: seq<string>, verify: bool, h: string)
    requires h in db.groups
    ensures SameOwners(db, InviteAll(db, g, ids, verify), h)
  {
    if ids != [] {
      InviteOwners(db, g, ids[..|ids| - 1], verify, h);
      var before, db' := InviteAll(db, g, ids[..|ids| - 1], verify), InviteAll(db, g, ids, verify);
      forall u ensures HasRole(db', h, u, OWNER) <==> HasRole(before, h, u, OWNER) {
      }
    }
  }

  lemma {:induction false} InviteActive(db: Db, g: string, ids: seq<string>, verify: bool, h: string)
    ensures Active(InviteAll(db, g, ids, verify), h) <==> Active(db, h)
  {
    if ids != [] {
      InviteActive(db, g, ids[..|ids| - 1], verify, h);
    }
  }

  lemma ExpelOwners(db: Db, group: string, u: string, g: string)
    requires g in db.groups && IsMember(db, group, u) && !HasRole(db, group, u, OWNER)
    ensures SameOwners(db, Expel(db, group, u), g)
  {
    forall v ensures HasRole(Expel(db, group, u), g, v, OWNER) <==> HasRole(db, g, v, OWNER) {
    }
  }

  lemma AdmitOwners(db: Db, group: string, u: string, g: string)
    requires g in db.groups && Admit(db, group, u).Some?
    ensures SameOwners(db, Admit(db, group, u).value, g)
  {
    forall v ensures HasRole(Admit(db, group, u).value, g, v, OWNER) <==> HasRole(db, g, v, OWNER) {
    }
  }

  lemma RoleOwners(db: Db, group: string, u: string, role: int, g: string)
    requires g in db.groups && !HasRole(db, group, u, OWNER) && (role == OWNER ==> group != g)
    ensures SameOwners(db, PutRole(db, group, u, role), g)
  {
    forall v ensures HasRole(PutRole(db, group, u, role), g, v, OWNER) <==> HasRole(db, g, v, OWNER) {
    }
  }

  lemma SameRowsOwners(db: Db, db': Db, g: string)
    requires g in db.groups && g in db'.groups
    requires db'.groups[g].owner == db.groups[g].owner && MembersOf(db', g) == MembersOf(db, g)
    ensures SameOwners(db, db', g)
  {
    forall v ensures HasRole(db', g, v, OWNER) <==> HasRole(db, g, v, OWNER) {
    }
  }

  lemma HandledOwners(db: Db, user: string, group: string, request: nat, accept: bool, g: string)
    requires g in db.groups
    ensures SameOwners(db, Handled(db, user, group, request, accept).0, g)
  {
    var db' := Handled(db, user, group, request, accept).0;
    if request < |db.requests| {
      var r := db.requests[request];
      var admitted := Admit(db, r.group, r.user);
      if admitted.Some? && MembersOf(db', g) != MembersOf(db, g) {
        AdmitOwners(db, r.group, r.user, g);
        SameRowsOwners(admitted.value, db', g);
      } else {
        SameRowsOwners(db, db', g);
      }
    } else {
      SameRowsOwners(db, db', g);
    }
  }

  /** The role updates that put a second owner row beside the first in this live group. */
  predicate Usurps(db: Db, op: Op, g: string) {
    && op.UpdateRole? && op.group == g && op.role == OWNER && Active(db, g) && HasRole(db, g, op.user, OWNER)
    && IsMember(db, g, op.target) && !HasRole(db, g, op.target, OWNER)
  }

  /** The steps that neither create nor transfer a group nor handle a request. */
  lemma PlainOwners(db: Db, op: Op, g: string)
    requires !op.Create? && !op.Invite? && !op.Transfer? && !op.HandleRequest?
    requires Active(db, g) && !Usurps(db, op, g)
    ensures SameOwners(db, Step(db, op).0, g)
  {
    var db' := Step(db, op).0;
    if db' == db {
      SameRowsOwners(db, db', g);
    } else {
      match op
      case Remove(_, group, target) => ExpelOwners(db, group, target, g);
      case Quit(user, group) =>
        if HasRole(db, group, user, OWNER) {
          SameRowsOwners(db, db', g);
        } else {
          ExpelOwners(db, group, user, g);
        }
      case UpdateRole(_, group, target, role) => RoleOwners(db, group, target, role, g);
      case Join(user, group, _) =>
        if db'.requests == db.requests {
          AdmitOwners(db, group, user, g);
        } else {
          SameRowsOwners(db, db', g);
        }
      case Disband(_, _) => SameRowsOwners(db, db', g);
      case Configure(_, _) => SameRowsOwners(db, db', g);
    }
  }

  lemma LiveBefore(db: Db, op: Op, g: string)
    requires !op.Create? && Active(Step(db, op).0, g)
    ensures Active(db, g)
  {
    if op.Invite? {
      InviteActive(db, op.group, op.ids, Verifies(db, op.group), g);
    }
  }

  lemma SameOwnersStand(db: Db, db': Db, g: string)
    requires SameOwners(db, db', g)
    ensures Seated(db', g) <==> Seated(db, g)
    ensures Rivalled(db', g) <==> Rivalled(db, g)
  {
    if u :| u != db.groups[g].owner && HasRole(db, g, u, OWNER) {
      assert HasRole(db', g, u, OWNER);
    }
    if u :| u != db.groups[g].owner && HasRole(db', g, u, OWNER) {
      assert HasRole(db, g, u, OWNER);
    }
  }

  /** A transfer seats the new owner and rids nobody of a rival: the old owner_id stays if the rival hands over. */
  lemma TransferOwners(db: Db, user: string, group: string, target: string, g: string)
    requires Active(db, g) && Seated(db, g)
    ensures var db' := Transferred(db, user, group, target).0;
      Active(db', g) && Seated(db', g) && (Rivalled(db', g) <==> Rivalled(db, g))
  {
    var db' := Transferred(db, user, group, target).0;
    if group != g || db' == db {
      SameRowsOwners(db, db', g);
      SameOwnersStand(db, db', g);
    } else {
      forall u ensures HasRole(db', g, u, OWNER) <==> (u == target || (u != user && HasRole(db, g, u, OWNER))) {
      }
      if u :| u != db.groups[g].owner && HasRole(db, g, u, OWNER) {
        var rival := if u == user then db.groups[g].owner else u;
        assert HasRole(db', g, rival, OWNER) && rival != target;
      }
      if u :| u != target && HasRole(db', g, u, OWNER) {
        assert HasRole(db, g, u, OWNER) && u != user;
        assert HasRole(db, g, user, OWNER);
      }
    }
  }

  lemma CreatedOwners(db: Db, user: string, group: string, ids: seq<string>, g: string)
    requires Rooted(db) && Active(Created(db, user, group, ids).0, g)
    ensures var db' := Created(db, user, group, ids).0;
      if Active(db, g) then SameOwners(db, db', g) else Seated(db', g) && !Rivalled(db', g)
  {
    var db' := Created(db, user, group, ids).0;
    if Active(db, g) {
      SameRowsOwners(db, db', g);
    } else {
      InitialOwner(user, ids);
      assert forall u :: HasRole(db', g, u, OWNER) <==> u == user;
    }
  }

  lemma UsurpedRival(db: Db, op: Op, g: string)
    requires Usurps(db, op, g) && Seated(db, g)
    ensures var db' := Step(db, op).0; Active(db', g) && Seated(db', g) && Rivalled(db', g)
  {
    var db' := Step(db, op).0;
    assert HasRole(db', g, op.target, OWNER) && op.target != db.groups[g].owner;
    assert HasRole(db', g, db.groups[g].owner, OWNER);
  }

  /** A live group keeps owner_id's owner row; it gets a rival exactly by such an update and never loses it again. */
  lemma StepOwners(db: Db, op: Op, g: string)
    requires Rooted(db) && (Active(db, g) ==> Seated(db, g)) && Active(Step(db, op).0, g)
    ensures Seated(Step(db, op).0, g)
    ensures Rivalled(Step(db, op).0, g) <==> (Active(db, g) && Rivalled(db, g)) || Usurps(db, op, g)
  {
    var db' := Step(db, op).0;
    if op.Create? {
      CreatedOwners(db, op.user, op.group, op.ids, g);
      if Active(db, g) {
        SameOwnersStand(db, db', g);
      }
    } else {
      LiveBefore(db, op, g);
      if op.Transfer? {
        TransferOwners(db, op.user, op.group, op.target, g);
      } else if Usurps(db, op, g) {
        UsurpedRival(db, op, g);
      } else {
        KeptOwners(db, op, g);
        SameOwnersStand(db, db', g);
      }
    }
  }

  lemma KeptOwners(db: Db, op: Op, g: string)
    requires Active(db, g) && !op.Create? && !op.Transfer? && !Usurps(db, op, g)
    ensures SameOwners(db, Step(db, op).0, g)
  {
    if op.Invite? {
      InviteOwners(db, op.group, op.ids, Verifies(db, op.group), g);
      SameRowsOwners(db, db, g);
    } else if op.HandleRequest? {
      HandledOwners(db, op.user, op.group, op.request, op.accept, g);
    } else {
      PlainOwners(db, op, g);
    }
  }

  /** Some step of the run was such an update of the group. */
  predicate Usurped(ops: seq<Op>, g: string) {
    ops != [] && (Usurped(ops[..|ops| - 1], g) || Usurps(Run(EMPTY, ops[..|ops| - 1]), ops[|ops| - 1], g))
  }

  lemma {:induction false} RunOwners(ops: seq<Op>, g: string)
    ensures var db := Run(EMPTY, ops);
      && (Active(db, g) ==> Seated(db, g) && (Rivalled(db, g) <==> Usurped(ops, g)))
      && (g !in db.groups ==> !Usurped(ops, g))
  {
    if ops != [] {
      var before, op := ops[..|ops| - 1], ops[|ops| - 1];
      RunOwners(before, g);
      RunRooted(before);
      StepRooted(Run(EMPTY, before), op);
      if Active(Run(EMPTY, ops), g) {
        StepOwners(Run(EMPTY, before), op, g);
        LiveOrNew(Run(EMPTY, before), op, g);
      }
    }
  }

  lemma LiveOrNew(db: Db, op: Op, g: string)
    requires Active(Step(db, op).0, g)
    ensures Active(db, g) || g !in db.groups
  {
    if !op.Create? {
      LiveBefore(db, op, g);
    }
  }

  /**
   In every serial run a live group has exactly one owner row, that of owner_id, exactly when no role update ever made
   a second owner of it.
   */
  lemma {:induction false} OwnershipExact(ops: seq<Op>, g: string)
    requires Active(Run(EMPTY, ops), g)
    ensures Owned(Run(EMPTY, ops), g) <==> !Usurped(ops, g)
  {
    RunOwners(ops, g);
    OwnedExact(Run(EMPTY, ops), g);
  }

  lemma RunLast(db: Db, ops: seq<Op>, op: Op)
    ensures Run(db, ops + [op]) == Step(Run(db, ops), op).0
  {
    assert (ops + [op])[..|ops|] == ops;
  }

  /** The state right after a group of two was created in an otherwise empty database. */
  function Pair(a: string, b: string, g: string): Db {
    Db(map[g := Group(a, 2, MAX_MEMBERS, true)], map[g := map[a := OWNER, b := MEMBER]],
       map[g := Setting(true, true)], [])
  }

  lemma PairCreated(a: string, b: string, g: string)
    requires a != b
    ensures Run(EMPTY, [Create(a, g, [b])]) == Pair(a, b, g)
  {
    RunLast(EMPTY, [], Create(a, g, [b]));
    assert [] + [Create(a, g, [b])] == [Create(a, g, [b])];
    assert [b][..0] == [];
    assert InitialRows(a, []) == Some(map[a := OWNER]);
    assert InitialRows(a, [b]) == Some(map[a := OWNER, b := MEMBER]);
  }

  /** Any two users can end up as two owners of one live group. */
  lemma TwoOwners(a: string, b: string, g: string)
    requires a != b
    ensures var end := Run(EMPTY, [Create(a, g, [b]), UpdateRole(a, g, b, OWNER)]);
      Active(end, g) && HasRole(end, g, a, OWNER) && HasRole(end, g, b, OWNER)
  {
    PairCreated(a, b, g);
    RunLast(EMPTY, [Create(a, g, [b])], UpdateRole(a, g, b, OWNER));
    assert [Create(a, g, [b])] + [UpdateRole(a, g, b, OWNER)] == [Create(a, g, [b]), UpdateRole(a, g, b, OWNER)];
  }

  /** Role updates of the group that ask for admin or member only. */
  ghost predicate Modest(ops: seq<Op>, g: string) {
    forall i :: 0 <= i < |ops| && ops[i].UpdateRole? && ops[i].group == g ==>
      ops[i].role == ADMIN || ops[i].role == MEMBER
  }

  lemma {:induction false} ModestNeverUsurps(ops: seq<Op>, g: string)
    requires Modest(ops, g)
    ensures !Usurped(ops, g)
  {
    if ops != [] {
      ModestNeverUsurps(ops[..|ops| - 1], g);
    }
  }

  /** In every serial run whose role updates of a group are modest, the group has exactly one owner row while live. */
  lemma {:induction false} OneOwner(ops: seq<Op>, g: string)
    requires Modest(ops, g) && Active(Run(EMPTY, ops), g)
    ensures Owned(Run(EMPTY, ops), g)
  {
    ModestNeverUsurps(ops, g);
    OwnershipExact(ops, g);
  }

  /** owner_id changes only when somebody with an owner row transfers the live group, and then to the named member. */
  lemma OwnerChanges(db: Db, op: Op, g: string)
    requires g in db.groups && g in Step(db, op).0.groups
    requires Step(db, op).0.groups[g].owner != db.groups[g].owner
    ensures op.Transfer? && op.group == g && Active(db, g) && HasRole(db, g, op.user, OWNER)
    ensures op.target == Step(db, op).0.groups[g].owner && IsMember(db, g, op.target)
    ensures Owned(db, g) ==> op.user == db.groups[g].owner
  {
    if op.Invite? {
      InviteOwners(db, op.group, op.ids, Verifies(db, op.group), g);
    }
  }

  // ---------- Who comes, who goes, who is promoted ----------

  lemma {:induction false} InviteRows(db: Db, g: string, ids: seq<string>, verify: bool, h: string, u: string)
    ensures var db' := InviteAll(db, g, ids, verify);
      && (IsMember(db, h, u) ==> IsMember(db', h, u) && MembersOf(db', h)[u] == MembersOf(db, h)[u])
      && (IsMember(db', h, u) && !IsMember(db, h, u) ==>
            h == g && u in ids && !verify && MembersOf(db', h)[u] == MEMBER)
  {
    if ids != [] {
      InviteRows(db, g, ids[..|ids| - 1], verify, h, u);
    }
  }

  /** A member leaves only by quitting, or by a removal its operator's role permits; an owner never does. */
  lemma MembershipEnds(db: Db, op: Op, g: string, u: string)
    requires Rooted(db) && IsMember(db, g, u) && !IsMember(Step(db, op).0, g, u)
    ensures !HasRole(db, g, u, OWNER)
    ensures op == Quit(u, g)
      || (op.Remove? && op.group == g && op.target == u
          && (HasRole(db, g, op.user, OWNER) || (HasRole(db, g, op.user, ADMIN) && HasRole(db, g, u, MEMBER))))
  {
    if op.Invite? {
      InviteRows(db, op.group, op.ids, Verifies(db, op.group), g, u);
    }
  }

  /** An invitation or a join while the group asks for no verification, or the accept of a pending request. */
  predicate Enters(db: Db, op: Op, g: string, u: string) {
    match op
    case Invite(user, group, ids) =>
      group == g && u in ids && IsMember(db, g, user) && Active(db, g) && !Verifies(db, g)
    case Join(user, group, _) => group == g && user == u && Active(db, g) && !Verifies(db, g)
    case HandleRequest(user, group, request, accept) =>
      && accept && CanManage(db, group, user)
      && request < |db.requests| && db.requests[request] == JoinRequest(g, u, Pending)
    case _ => false
  }

  /** Only such a call brings a user into an existing group, and only as a plain member. */
  lemma MembershipBegins(db: Db, op: Op, g: string, u: string)
    requires Rooted(db) && g in db.groups && !IsMember(db, g, u) && IsMember(Step(db, op).0, g, u)
    ensures Enters(db, op, g, u) && HasRole(Step(db, op).0, g, u, MEMBER)
  {
    if op.Invite? {
      InviteRows(db, op.group, op.ids, Verifies(db, op.group), g, u);
    }
  }

  ghost predicate Admits(db: Db, op: Op, g: string, u: string) {
    !IsMember(db, g, u) && IsMember(Step(db, op).0, g, u)
  }

  /** The accepts of a pending request for another group than the one the operator was checked in. */
  predicate Oversteps(db: Db, op: Op) {
    && op.HandleRequest? && op.accept && op.request < |db.requests|
    && var r := db.requests[op.request];
    && r.status == Pending && r.group != op.group && !IsMember(db, r.group, r.user)
    && CanManage(db, op.group, op.user) && !CanManage(db, r.group, op.user)
  }

  /** Handling a request admits somebody into a group its operator does not manage exactly when it is such an accept. */
  lemma AdmissionExact(db: Db, op: Op)
    requires op.HandleRequest?
    ensures (exists g, u :: Admits(db, op, g, u) && !CanManage(db, g, op.user)) <==> Oversteps(db, op)
  {
    if Oversteps(db, op) {
      var r := db.requests[op.request];
      assert Admits(db, op, r.group, r.user);
    }
  }

  /** The state in which `u` asks to join `h`, owned by `c`, while `a` owns `g`. */
  function Asked(a: string, c: string, u: string, g: string, h: string): Db {
    Db(map[g := Group(a, 2, MAX_MEMBERS, true), h := Group(c, 2, MAX_MEMBERS, true)],
       map[g := map[a := OWNER, c := MEMBER], h := map[c := OWNER, a := MEMBER]],
       map[g := Setting(true, true), h := Setting(true, true)], [JoinRequest(h, u, Pending)])
  }

  lemma RequestFiled(a: string, c: string, u: string, g: string, h: string)
    requires a != c && u != a && u != c && g != h
    ensures Run(EMPTY, [Create(a, g, [c]), Create(c, h, [a]), Join(u, h, false)]) == Asked(a, c, u, g, h)
  {
    var first, second, third := Create(a, g, [c]), Create(c, h, [a]), Join(u, h, false);
    PairCreated(a, c, g);
    PairCreated(c, a, h);
    RunLast(EMPTY, [], second);
    assert [] + [second] == [second] && [first] + [second] == [first, second];
    assert [first, second] + [third] == [first, second, third];
    assert InitialRows(c, [a]) == Some(map[c := OWNER, a := MEMBER]);
    RunLast(EMPTY, [first], second);
    RunLast(EMPTY, [first, second], third);
    assert Run(EMPTY, [first, second]) == Asked(a, c, u, g, h).(requests := []);
  }

  /** Whoever owns some group can, by naming it, admit anybody who asked into a group of someone else. */
  lemma ForeignAccept(a: string, c: string, u: string, g: string, h: string)
    requires a != c && u != a && u != c && g != h
    ensures var ops := [Create(a, g, [c]), Create(c, h, [a]), Join(u, h, false)];
            var op := HandleRequest(a, g, 0, true);
      Admits(Run(EMPTY, ops), op, h, u) && !CanManage(Run(EMPTY, ops), h, a)
  {
    RequestFiled(a, c, u, g, h);
    AskedAccept(a, c, u, g, h);
  }

  lemma AskedAccept(a: string, c: string, u: string, g: string, h: string)
    requires a != c && u != a && u != c && g != h
    ensures var db := Asked(a, c, u, g, h); Admits(db, HandleRequest(a, g, 0, true), h, u) && !CanManage(db, h, a)
  {
    var db := Asked(a, c, u, g, h);
    assert CanManage(db, g, a) && !IsMember(db, h, u);
  }

  /** A member's role changes only when an owner of the group updates it or hands the group over. */
  lemma RoleChanges(db: Db, op: Op, g: string, u: string)
    requires Rooted(db) && IsMember(db, g, u) && IsMember(Step(db, op).0, g, u)
    requires MembersOf(Step(db, op).0, g)[u] != MembersOf(db, g)[u]
    ensures (op.UpdateRole? || op.Transfer?) && op.group == g && HasRole(db, g, op.user, OWNER)
    ensures op.UpdateRole? ==> op.target == u && HasRole(Step(db, op).0, g, u, op.role)
    ensures op.Transfer? ==>
      (u == op.target && HasRole(Step(db, op).0, g, u, OWNER)) || (u == op.user && HasRole(Step(db, op).0, g, u, ADMIN))
  {
    if op.Invite? {
      InviteRows(db, op.group, op.ids, Verifies(db, op.group), g, u);
    }
  }

  // ---------- The member counter ----------

  /** member_count minus the number of member rows. */
  function Surplus(db: Db, g: string): int
    requires g in db.groups
  {
    db.groups[g].memberCount - |MembersOf(db, g)|
  }

  lemma DropOne(m: map<string, int>, u: string)
    requires u in m
    ensures |m - {u}| == |m| - 1
  {
    assert (m - {u}).Keys == m.Keys - {u};
  }

  lemma {:induction false} InviteSurplus(db: Db, g: string, ids: seq<string>, verify: bool, h: string)
    requires g in db.groups && h in db.groups
    ensures var db' := InviteAll(db, g, ids, verify);
      g in db'.groups && h in db'.groups && Surplus(db', h) == Surplus(db, h)
  {
    if ids != [] {
      InviteSurplus(db, g, ids[..|ids| - 1], verify, h);
    }
  }

  lemma ExpelSurplus(db: Db, g: string, u: string, h: string)
    requires g in db.groups && h in db.groups && IsMember(db, g, u)
    ensures h in Expel(db, g, u).groups && Surplus(Expel(db, g, u), h) == Surplus(db, h)
  {
    DropOne(MembersOf(db, g), u);
  }

  lemma HandledSurplus(db: Db, user: string, g: string, request: nat, accept: bool, h: string)
    requires Rooted(db) && h in db.groups
    ensures var db' := Handled(db, user, g, request, accept).0; h in db'.groups && Surplus(db', h) == Surplus(db, h)
  {
  }

  lemma InvitedSurplus(db: Db, user: string, g: string, ids: seq<string>, h: string)
    requires h in db.groups
    ensures var db' := Invited(db, user, g, ids).0; h in db'.groups && Surplus(db', h) == Surplus(db, h)
  {
    if Active(db, g) {
      InviteSurplus(db, g, ids, Verifies(db, g), h);
    }
  }

  lemma RemovedSurplus(db: Db, user: string, g: string, target: string, h: string)
    requires Rooted(db) && h in db.groups
    ensures var db' := Removed(db, user, g, target).0; h in db'.groups && Surplus(db', h) == Surplus(db, h)
  {
    if IsMember(db, g, target) {
      ExpelSurplus(db, g, target, h);
    }
  }

  lemma DisbandedSurplus(db: Db, user: string, g: string, h: string)
    requires h in db.groups
    ensures var db' := Disbanded(db, user, g).0; h in db'.groups && Surplus(db', h) == Surplus(db, h)
  {
  }

  lemma QuitSurplus(db: Db, user: string, g: string, h: string)
    requires Rooted(db) && h in db.groups
    ensures var db' := HasQuit(db, user, g).0; h in db'.groups && Surplus(db', h) == Surplus(db, h)
  {
    DisbandedSurplus(db, user, g, h);
    if IsMember(db, g, user) {
      ExpelSurplus(db, g, user, h);
    }
  }

  lemma CreatedSurplus(db: Db, user: string, group: string, ids: seq<string>, h: string)
    requires h in db.groups
    ensures var db' := Created(db, user, group, ids).0; h in db'.groups && Surplus(db', h) == Surplus(db, h)
  {
  }

  lemma RoleSurplus(db: Db, g: string, u: string, role: int, h: string)
    requires h in db.groups && IsMember(db, g, u)
    ensures Surplus(PutRole(db, g, u, role), h) == Surplus(db, h)
  {
    assert MembersOf(db, g)[u := role].Keys == MembersOf(db, g).Keys;
  }

  lemma RoleUpdatedSurplus(db: Db, user: string, g: string, target: string, role: int, h: string)
    requires h in db.groups
    ensures var db' := RoleUpdated(db, user, g, target, role).0; h in db'.groups && Surplus(db', h) == Surplus(db, h)
  {
    if IsMember(db, g, target) {
      RoleSurplus(db, g, target, role, h);
    }
  }

  lemma TransferSurplus(db: Db, user: string, g: string, target: string, h: string)
    requires h in db.groups
    ensures var db' := Transferred(db, user, g, target).0; h in db'.groups && Surplus(db', h) == Surplus(db, h)
  {
    var db' := Transferred(db, user, g, target).0;
    if db' != db {
      var named := if Active(db, g) then db.(groups := db.groups[g := db.groups[g].(owner := target)]) else db;
      RoleSurplus(named, g, user, ADMIN, h);
      RoleSurplus(PutRole(named, g, user, ADMIN), g, target, OWNER, h);
    }
  }

  lemma JoinedSurplus(db: Db, user: string, g: string, byCode: bool, h: string)
    requires h in db.groups
    ensures var db' := Joined(db, user, g, byCode).0; h in db'.groups && Surplus(db', h) == Surplus(db, h)
  {
  }

  lemma StepSurplus(db: Db, op: Op, g: string)
    requires Rooted(db) && g in db.groups
    ensures g in Step(db, op).0.groups && Surplus(Step(db, op).0, g) == Surplus(db, g)
  {
    match op
    case Invite(user, group, ids) => InvitedSurplus(db, user, group, ids, g);
    case Remove(user, group, target) => RemovedSurplus(db, user, group, target, g);
    case Quit(user, group) => QuitSurplus(db, user, group, g);
    case HandleRequest(user, group, request, accept) => HandledSurplus(db, user, group, request, accept, g);
    case Create(user, group, ids) => CreatedSurplus(db, user, group, ids, g);
    case UpdateRole(user, group, target, role) => RoleUpdatedSurplus(db, user, group, target, role, g);
    case Transfer(user, group, target) => TransferSurplus(db, user, group, target, g);
    case Join(user, group, byCode) => JoinedSurplus(db, user, group, byCode, g);
    case Disband(user, group) => DisbandedSurplus(db, user, group, g);
    case Configure(_, _) =>
  }

  function Occurrences(ids: seq<string>, u: string): nat {
    if ids == [] then 0 else Occurrences(ids[..|ids| - 1], u) + if ids[|ids| - 1] == u then 1 else 0
  }

  lemma {:induction false} InitialCount(creator: string, ids: seq<string>)
    requires InitialRows(creator, ids).Some?
    ensures |InitialRows(creator, ids).value| == 1 + |ids| - Occurrences(ids, creator)
  {
    if ids != [] {
      InitialCount(creator, ids[..|ids| - 1]);
    }
  }

  /**
   In every serial run, the counter of a group exceeds its number of member rows by exactly how often the
   creator's own id was listed at creation, whatever is done afterwards.
   */
  lemma CounterDrift(before: seq<Op>, create: Op, after: seq<Op>)
    requires create.Create? && Step(Run(EMPTY, before), create).1 == Success
    ensures var db := Run(EMPTY, before + [create] + after);
      create.group in db.groups && Surplus(db, create.group) == Occurrences(create.ids, create.user)
  {
    CreateDrift(Run(EMPTY, before), create);
    RunLast(EMPTY, before, create);
    SurplusKept(before + [create], after, create.group);
  }

  lemma {:induction false} SurplusKept(ops: seq<Op>, after: seq<Op>, g: string)
    requires g in Run(EMPTY, ops).groups
    ensures g in Run(EMPTY, ops + after).groups
    ensures Surplus(Run(EMPTY, ops + after), g) == Surplus(Run(EMPTY, ops), g)
  {
    if after == [] {
      assert ops + after == ops;
    } else {
      var k := |after| - 1;
      SurplusKept(ops, after[..k], g);
      assert ops + after == (ops + after[..k]) + [after[k]];
      SurplusLast(ops + after[..k], after[k], g);
    }
  }

  lemma CreateDrift(db: Db, create: Op)
    requires create.Create? && Step(db, create).1 == Success
    ensures create.group in Step(db, create).0.groups
    ensures Surplus(Step(db, create).0, create.group) == Occurrences(create.ids, create.user)
  {
    InitialCount(create.user, create.ids);
  }

  lemma SurplusLast(ops: seq<Op>, op: Op, g: string)
    requires g in Run(EMPTY, ops).groups
    ensures g in Run(EMPTY, ops + [op]).groups && Surplus(Run(EMPTY, ops + [op]), g) == Surplus(Run(EMPTY, ops), g)
  {
    RunLast(EMPTY, ops, op);
    RunRooted(ops);
    StepSurplus(Run(EMPTY, ops), op, g);
  }
}
