/** The group service over its tables: every call is one step of the group state machine. */
module GroupService {
  import opened Base
  import opened Groups
  import opened GroupSafety

  /** The invited ids without the creator's own. */
  function Others(ids: seq<string>, creator: string): seq<string> {
    if ids == [] then []
    else
      var k := |ids| - 1;
      Others(ids[..k], creator) + if ids[k] == creator then [] else [ids[k]]
  }

  /** A batch insert of plain members, None when it violates the unique key. */
  function InsertAll(rows: map<string, int>, ids: seq<string>): Option<map<string, int>> {
    if ids == [] then Some(rows)
    else
      var k := |ids| - 1;
      var before := InsertAll(rows, ids[..k]);
      if before.None? || ids[k] in before.value then None else Some(before.value[ids[k] := MEMBER])
  }

  /** Skipping the creator and then inserting in one batch gives the initial rows. */
  lemma {:induction false} BatchIsInitial(creator: string, ids: seq<string>)
    ensures InsertAll(map[creator := OWNER], Others(ids, creator)) == InitialRows(creator, ids)
  {
    if ids != [] {
      var k := |ids| - 1;
      BatchIsInitial(creator, ids[..k]);
      var others := Others(ids, creator);
      if ids[k] == creator {
        assert others == Others(ids[..k], creator);
      } else {
        assert others[..|others| - 1] == Others(ids[..k], creator);
      }
    }
  }

  lemma {:induction false} InsertFailsOnce(rows: map<string, int>, ids: seq<string>, k: nat)
    requires k <= |ids| && InsertAll(rows, ids[..k]).None?
    ensures InsertAll(rows, ids).None?
  {
    if k < |ids| {
      assert ids[..|ids| - 1][..k] == ids[..k];
      InsertFailsOnce(rows, ids[..|ids| - 1], k);
    } else {
      assert ids[..k] == ids;
    }
  }

  class GroupService {
    var groups: map<string, Group>
    var members: map<string, map<string, int>>
    var settings: map<string, Setting>
    var requests: seq<JoinRequest>

    function View(): Db
      reads this
    {
      Db(groups, members, settings, requests)
    }

    ghost predicate Valid()
      reads this
    {
      Rooted(View())
    }

    constructor ()
      ensures View() == EMPTY && Valid()
    {
      groups, members, settings, requests := map[], map[], map[], [];
    }

    // ---------- Rows ----------

    method AddMember(g: string, u: string, role: int) returns (ok: bool)
      modifies this`members
      ensures ok <==> !IsMember(old(View()), g, u)
      ensures View() == if ok then PutRole(old(View()), g, u, role) else old(View())
    {
      if IsMember(View(), g, u) {
        return false;
      }
      members := members[g := MembersOf(View(), g)[u := role]];
      return true;
    }

    /** One statement inserts the whole batch or nothing. */
    method AddMembers(g: string, ids: seq<string>) returns (ok: bool)
      requires g in members
      modifies this`members
      ensures ok <==> InsertAll(old(members[g]), ids).Some?
      ensures members == if ok then old(members)[g := InsertAll(old(members[g]), ids).value] else old(members)
    {
      var before := members;
      ghost var rows := members[g];
      var k := 0;
      while k < |ids|
        invariant 0 <= k <= |ids| && g in members
        invariant InsertAll(rows, ids[..k]) == Some(members[g])
        invariant members == old(members)[g := members[g]]
      {
        assert ids[..k + 1][..k] == ids[..k];
        var added := AddMember(g, ids[k], MEMBER);
        if !added {
          InsertFailsOnce(rows, ids, k + 1);
          members := before;
          return false;
        }
        k := k + 1;
      }
      assert ids[..k] == ids;
      return true;
    }

    method UpdateMemberCount(g: string, delta: int)
      modifies this`groups
      ensures View() == AddCount(old(View()), g, delta)
    {
      if g in groups {
        groups := groups[g := groups[g].(memberCount := groups[g].memberCount + delta)];
      }
    }

    method UpdateRole(g: string, u: string, role: int)
      modifies this`members
      ensures View() == if IsMember(old(View()), g, u) then PutRole(old(View()), g, u, role) else old(View())
    {
      if IsMember(View(), g, u) {
        members := members[g := members[g][u := role]];
      }
    }

    /** The transaction shared by every way of joining. */
    method Join(g: string, u: string) returns (ok: bool)
      modifies this`members, this`groups
      ensures ok <==> Admit(old(View()), g, u).Some?
      ensures View() == if ok then Admit(old(View()), g, u).value else old(View())
    {
      ok := AddMember(g, u, MEMBER);
      if ok {
        UpdateMemberCount(g, 1);
      }
    }

    /** The transaction shared by removal and quitting. */
    method Leave(g: string, u: string)
      requires IsMember(View(), g, u)
      modifies this`members, this`groups
      ensures View() == Expel(old(View()), g, u)
    {
      members := members[g := members[g] - {u}];
      UpdateMemberCount(g, -1);
    }

    /** The creation transaction: group, settings, owner and members, or nothing. */
    method InsertGroup(user: string, g: string, count: int, others: seq<string>) returns (ok: bool)
      requires Valid()
      modifies this
      ensures ok <==> g !in old(groups) && InsertAll(map[user := OWNER], others).Some?
      ensures View() ==
        if !ok then old(View())
        else Db(old(groups)[g := Group(user, count, MAX_MEMBERS, true)],
                old(members)[g := InsertAll(map[user := OWNER], others).value],
                old(settings)[g := Setting(true, true)], old(requests))
    {
      if g in groups {
        return false;
      }
      var before := View();
      groups := groups[g := Group(user, count, MAX_MEMBERS, true)];
      settings := settings[g := Setting(true, true)];
      var _ := AddMember(g, user, OWNER);
      assert members[g] == map[user := OWNER];
      ok := AddMembers(g, others);
      if !ok {
        groups, members, settings := before.groups, before.members, before.settings;
      }
    }

    method CollectOthers(ids: seq<string>, user: string) returns (others: seq<string>)
      ensures others == Others(ids, user)
    {
      others := [];
      for k := 0 to |ids|
        invariant others == Others(ids[..k], user)
      {
        assert ids[..k + 1][..k] == ids[..k];
        if ids[k] != user {
          others := others + [ids[k]];
        }
      }
      assert ids[..|ids|] == ids;
    }

    // ---------- Service calls ----------

    method CreateGroup(user: string, g: string, ids: seq<string>) returns (r: Outcome)
      requires Valid()
      modifies this
      ensures Valid() && (View(), r) == Step(old(View()), Create(user, g, ids))
    {
      StepRooted(View(), Create(user, g, ids));
      if ids == [] {
        return Failed(TooFew);
      }
      var total := |ids| + 1;
      if total > MAX_MEMBERS {
        return Failed(LimitReached);
      }
      var others := CollectOthers(ids, user);
      BatchIsInitial(user, ids);
      var ok := InsertGroup(user, g, total, others);
      return if ok then Success else Failed(Duplicate);
    }

    method InviteMembers(user: string, g: string, ids: seq<string>) returns (r: Outcome)
      requires Valid()
      modifies this
      ensures Valid() && (View(), r) == Step(old(View()), Invite(user, g, ids))
    {
      StepRooted(View(), Invite(user, g, ids));
      if !Active(View(), g) {
        return Failed(GroupNotFound);
      }
      if !IsMember(View(), g, user) {
        return Failed(NotMember);
      }
      if g in settings && !settings[g].allowInvite && !CanManage(View(), g, user) {
        return Failed(NoPermission);
      }
      var verify := Verifies(View(), g);
      if groups[g].memberCount >= groups[g].maxMembers {
        return Failed(LimitReached);
      }
      var k := 0;
      while k < |ids|
        invariant 0 <= k <= |ids| && View() == InviteAll(old(View()), g, ids[..k], verify)
      {
        assert ids[..k + 1][..k] == ids[..k];
        if !IsMember(View(), g, ids[k]) {
          if verify {
            requests := requests + [JoinRequest(g, ids[k], Pending)];
          } else {
            var _ := Join(g, ids[k]);
          }
        }
        k := k + 1;
      }
      assert ids[..k] == ids;
      return Success;
    }

    method RemoveMember(user: string, g: string, target: string) returns (r: Outcome)
      requires Valid()
      modifies this
      ensures Valid() && (View(), r) == Step(old(View()), Remove(user, g, target))
    {
      StepRooted(View(), Remove(user, g, target));
      if !IsMember(View(), g, user) {
        return Failed(NotMember);
      }
      if !IsMember(View(), g, target) {
        return Failed(NotMember);
      }
      var operatorRole, targetRole := members[g][user], members[g][target];
      if targetRole == OWNER {
        return Failed(CannotRemoveOwner);
      }
      if !CanRemove(operatorRole, targetRole) {
        return Failed(if targetRole == ADMIN then CannotRemoveAdmin else NoPermission);
      }
      Leave(g, target);
      return Success;
    }

    method DisbandGroup(user: string, g: string) returns (r: Outcome)
      requires Valid()
      modifies this
      ensures Valid() && (View(), r) == Step(old(View()), Disband(user, g))
    {
      StepRooted(View(), Disband(user, g));
      if !IsMember(View(), g, user) {
        return Failed(NotMember);
      }
      if members[g][user] != OWNER {
        return Failed(NoPermission);
      }
      if g in groups {
        groups := groups[g := groups[g].(active := false)];
      }
      return Success;
    }

    method QuitGroup(user: string, g: string) returns (r: Outcome)
      requires Valid()
      modifies this
      ensures Valid() && (View(), r) == Step(old(View()), Quit(user, g))
    {
      StepRooted(View(), Quit(user, g));
      if !IsMember(View(), g, user) {
        return Failed(NotMember);
      }
      if members[g][user] == OWNER {
        if |members[g]| == 1 {
          r := DisbandGroup(user, g);
          return;
        }
        return Failed(CannotQuit);
      }
      Leave(g, user);
      return Success;
    }

    method UpdateMemberRole(user: string, g: string, target: string, role: int) returns (r: Outcome)
      requires Valid()
      modifies this
      ensures Valid() && (View(), r) == Step(old(View()), Op.UpdateRole(user, g, target, role))
    {
      StepRooted(View(), Op.UpdateRole(user, g, target, role));
      if !IsMember(View(), g, user) {
        return Failed(NotMember);
      }
      if members[g][user] != OWNER {
        return Failed(NoPermission);
      }
      if !IsMember(View(), g, target) {
        return Failed(NotMember);
      }
      if members[g][target] == OWNER {
        return Failed(NoPermission);
      }
      UpdateRole(g, target, role);
      return Success;
    }

    method TransferOwnership(user: string, g: string, target: string) returns (r: Outcome)
      requires Valid()
      modifies this
      ensures Valid() && (View(), r) == Step(old(View()), Transfer(user, g, target))
    {
      StepRooted(View(), Transfer(user, g, target));
      if !IsMember(View(), g, user) {
        return Failed(NotMember);
      }
      if members[g][user] != OWNER {
        return Failed(NoPermission);
      }
      if !IsMember(View(), g, target) {
        return Failed(NotMember);
      }
      if members[g][target] == OWNER {
        return Success;
      }
      if Active(View(), g) {
        groups := groups[g := groups[g].(owner := target)];
      }
      UpdateRole(g, user, ADMIN);
      UpdateRole(g, target, OWNER);
      return Success;
    }

    method JoinGroup(user: string, g: string) returns (r: Outcome)
      requires Valid()
      modifies this
      ensures Valid() && (View(), r) == Step(old(View()), Op.Join(user, g, false))
    {
      StepRooted(View(), Op.Join(user, g, false));
      if !Active(View(), g) {
        return Failed(GroupNotFound);
      }
      if IsMember(View(), g, user) {
        return Failed(AlreadyMember);
      }
      if HasPending(View(), g, user) {
        return Waiting;
      }
      if Verifies(View(), g) {
        requests := requests + [JoinRequest(g, user, Pending)];
        return Waiting;
      }
      var _ := Join(g, user);
      return Success;
    }

    /** From the group a valid QR token names. */
    method JoinGroupByQRCode(user: string, g: string) returns (r: Outcome)
      requires Valid()
      modifies this
      ensures Valid() && (View(), r) == Step(old(View()), Op.Join(user, g, true))
    {
      StepRooted(View(), Op.Join(user, g, true));
      if !Active(View(), g) {
        return Failed(GroupNotFound);
      }
      if groups[g].memberCount >= groups[g].maxMembers {
        return Failed(LimitReached);
      }
      if IsMember(View(), g, user) {
        return Failed(AlreadyMember);
      }
      if Verifies(View(), g) {
        if !HasPending(View(), g, user) {
          requests := requests + [JoinRequest(g, user, Pending)];
        }
        return Waiting;
      }
      var _ := Join(g, user);
      return Success;
    }

    method HandleJoinRequest(user: string, g: string, request: nat, accept: bool) returns (r: Outcome)
      requires Valid()
      modifies this
      ensures Valid() && (View(), r) == Step(old(View()), HandleRequest(user, g, request, accept))
    {
      StepRooted(View(), HandleRequest(user, g, request, accept));
      if request >= |requests| {
        return Failed(RequestNotFound);
      }
      var asked := requests[request];
      if asked.status != Pending {
        return Failed(RequestProcessed);
      }
      if !IsMember(View(), g, user) {
        return Failed(NotMember);
      }
      if !CanManage(View(), g, user) {
        return Failed(NoPermission);
      }
      if !accept {
        requests := requests[request := asked.(status := Rejected)];
        return Success;
      }
      var before := requests;
      requests := requests[request := asked.(status := Accepted)];
      var joined := Join(asked.group, asked.user);
      if !joined {
        requests := before;
        return Failed(Duplicate);
      }
      return Success;
    }
  }
}
