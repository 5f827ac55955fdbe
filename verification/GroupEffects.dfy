/** What each group operation requires and does, row by row. */
module GroupEffects {
  import opened Base
  import opened Groups

  /** The role of a user in a group, if the user has a row there. */
  function RoleOf(db: Db, g: string, u: string): Option<int> {
    if g in db.members && u in db.members[g] then Some(db.members[g][u]) else None
  }

  /** No member row has changed, come or gone except that of `u` in `g`. */
  ghost predicate OnlyRow(db: Db, db': Db, g: string, u: string) {
    forall h, v :: (h, v) != (g, u) ==> RoleOf(db', h, v) == RoleOf(db, h, v)
  }

  ghost predicate SameRows(db: Db, db': Db) {
    forall h, v :: RoleOf(db', h, v) == RoleOf(db, h, v)
  }

  /** The counter of `g` moved by `delta`; no other column of any group has changed and no group came or went. */
  ghost predicate Counted(db: Db, db': Db, g: string, delta: int) {
    && db'.groups.Keys == db.groups.Keys
    && forall h :: h in db.groups ==>
         db'.groups[h] == db.groups[h].(memberCount := db.groups[h].memberCount + if h == g then delta else 0)
  }

  ghost predicate SameRest(db: Db, db': Db) { db'.settings == db.settings && db'.requests == db.requests }

  /** Owners and admins manage a group. */
  predicate Manages(db: Db, g: string, u: string) { RoleOf(db, g, u) == Some(OWNER) || RoleOf(db, g, u) == Some(ADMIN) }

  /** Joining needs approval unless the settings say otherwise. */
  predicate Approves(db: Db, g: string) { g !in db.settings || db.settings[g].joinVerify }

  predicate Live(db: Db, g: string) { g in db.groups && db.groups[g].active }

  // ---------- Leaving ----------

  lemma ExpelEffect(db: Db, g: string, u: string)
    requires IsMember(db, g, u)
    ensures var db' := Expel(db, g, u);
      RoleOf(db', g, u) == None && OnlyRow(db, db', g, u) && Counted(db, db', g, -1) && SameRest(db, db')
  {
  }

  /**
   A removal succeeds exactly when both are members, the target is no owner, and the operator is an owner, or an admin
   over a plain member. Then the target's row is gone, the count is one lower, and nothing else has changed.
   */
  lemma RemoveEffect(db: Db, user: string, g: string, target: string)
    ensures var (db', r) := Step(db, Remove(user, g, target));
      && (r == Success <==>
            && RoleOf(db, g, user).Some? && RoleOf(db, g, target).Some? && RoleOf(db, g, target) != Some(OWNER)
            && (RoleOf(db, g, user) == Some(OWNER)
                || (RoleOf(db, g, user) == Some(ADMIN) && RoleOf(db, g, target) == Some(MEMBER))))
      && (r == Success ==>
            && RoleOf(db', g, target) == None && OnlyRow(db, db', g, target)
            && Counted(db, db', g, -1) && SameRest(db, db'))
      && (r == Failed(NotMember) <==> RoleOf(db, g, user).None? || RoleOf(db, g, target).None?)
      && (r == Failed(CannotRemoveOwner) <==> RoleOf(db, g, user).Some? && RoleOf(db, g, target) == Some(OWNER))
      && (r == Failed(CannotRemoveAdmin) <==>
            && RoleOf(db, g, user).Some? && RoleOf(db, g, user) != Some(OWNER)
            && RoleOf(db, g, target) == Some(ADMIN))
      && (r.Failed? ==> r.error in {NotMember, CannotRemoveOwner, CannotRemoveAdmin, NoPermission})
      && (r != Success ==> db' == db)
  {
    if IsMember(db, g, target) {
      ExpelEffect(db, g, target);
    }
  }

  /**
   A member who is no owner quits and loses the row; an owner only quits alone, which dissolves the group and leaves
   the rows.
   */
  lemma QuitEffect(db: Db, user: string, g: string)
    ensures var (db', r) := Step(db, Quit(user, g));
      && (r == Success <==>
            RoleOf(db, g, user).Some? && (RoleOf(db, g, user) == Some(OWNER) ==> |db.members[g]| == 1))
      && (r == Success && RoleOf(db, g, user) != Some(OWNER) ==>
            && RoleOf(db', g, user) == None && OnlyRow(db, db', g, user)
            && Counted(db, db', g, -1) && SameRest(db, db'))
      && (r == Success && RoleOf(db, g, user) == Some(OWNER) ==> Dissolved(db, db', g))
      && (r == Failed(NotMember) <==> RoleOf(db, g, user).None?)
      && (r == Failed(CannotQuit) <==> RoleOf(db, g, user) == Some(OWNER) && |db.members[g]| != 1)
      && (r == Success || r.Failed?)
      && (r != Success ==> db' == db)
  {
    if IsMember(db, g, user) {
      ExpelEffect(db, g, user);
    }
  }

  /** The group is no longer live; nothing else has changed. */
  ghost predicate Dissolved(db: Db, db': Db, g: string) {
    && SameRows(db, db') && SameRest(db, db') && db'.groups.Keys == db.groups.Keys
    && forall h :: h in db.groups ==>
         db'.groups[h] == if h == g then db.groups[h].(active := false) else db.groups[h]
  }

  lemma DisbandEffect(db: Db, user: string, g: string)
    ensures var (db', r) := Step(db, Disband(user, g));
      && (r == Success <==> RoleOf(db, g, user) == Some(OWNER))
      && (r == Success ==> Dissolved(db, db', g))
      && (r == Failed(NotMember) <==> RoleOf(db, g, user).None?)
      && (r == Failed(NoPermission) <==> RoleOf(db, g, user).Some? && RoleOf(db, g, user) != Some(OWNER))
      && (r != Success ==> db' == db)
  {
  }

  // ---------- Roles ----------

  lemma RoleEffect(db: Db, user: string, g: string, target: string, role: int)
    ensures var (db', r) := Step(db, UpdateRole(user, g, target, role));
      && (r == Success <==>
            RoleOf(db, g, user) == Some(OWNER) && RoleOf(db, g, target).Some? && RoleOf(db, g, target) != Some(OWNER))
      && (r == Success ==>
            && RoleOf(db', g, target) == Some(role) && OnlyRow(db, db', g, target)
            && db'.groups == db.groups && SameRest(db, db'))
      && (r == Failed(NotMember) <==>
            RoleOf(db, g, user).None? || (RoleOf(db, g, user) == Some(OWNER) && RoleOf(db, g, target).None?))
      && (r != Success && r != Failed(NotMember) ==> r == Failed(NoPermission))
      && (r != Success ==> db' == db)
  {
  }

  /** The old owner becomes an admin and the target the owner, by row and, while the group is live, by owner_id. */
  lemma TransferEffect(db: Db, user: string, g: string, target: string)
    ensures var (db', r) := Step(db, Transfer(user, g, target));
      && (r == Success <==> RoleOf(db, g, user) == Some(OWNER) && RoleOf(db, g, target).Some?)
      && (r == Success && RoleOf(db, g, target) != Some(OWNER) ==>
            && RoleOf(db', g, target) == Some(OWNER) && RoleOf(db', g, user) == Some(ADMIN)
            && (forall h, v :: (h, v) != (g, user) && (h, v) != (g, target) ==> RoleOf(db', h, v) == RoleOf(db, h, v))
            && db'.groups.Keys == db.groups.Keys && SameRest(db, db')
            && (forall h :: h in db.groups ==>
                  db'.groups[h]
                  == if h == g && db.groups[g].active then db.groups[g].(owner := target) else db.groups[h]))
      && (r == Failed(NotMember) <==>
            RoleOf(db, g, user).None? || (RoleOf(db, g, user) == Some(OWNER) && RoleOf(db, g, target).None?))
      && (r != Success && r != Failed(NotMember) ==> r == Failed(NoPermission))
      && (r != Success || RoleOf(db, g, target) == Some(OWNER) ==> db' == db)
  {
  }

  // ---------- Joining ----------

  /** `u` is a plain member of `g` now, counted, and nothing else has changed but maybe a request. */
  ghost predicate Entered(db: Db, db': Db, g: string, u: string) {
    && RoleOf(db, g, u) == None && RoleOf(db', g, u) == Some(MEMBER) && OnlyRow(db, db', g, u)
    && Counted(db, db', g, 1) && db'.settings == db.settings
  }

  lemma AdmitEffect(db: Db, g: string, u: string)
    ensures Admit(db, g, u).Some? <==> RoleOf(db, g, u) == None
    ensures Admit(db, g, u).Some? ==>
      Entered(db, Admit(db, g, u).value, g, u) && Admit(db, g, u).value.requests == db.requests
  {
  }

  /**
   Who joins a live group is a member at once if no approval is needed, and otherwise has exactly one more pending
   request, unless one was pending. A QR code is refused by a full group, and an open request only matters to it when
   approval is needed.
   */
  lemma JoinEffect(db: Db, user: string, g: string, byCode: bool)
    ensures var (db', r) := Step(db, Join(user, g, byCode));
      var pending := JoinRequest(g, user, Pending) in db.requests;
      var open := Live(db, g) && RoleOf(db, g, user) == None
        && (byCode ==> db.groups[g].memberCount < db.groups[g].maxMembers);
      && (r == Success <==> open && !Approves(db, g) && (pending ==> byCode))
      && (r == Waiting <==> open && (Approves(db, g) || (pending && !byCode)))
      && (r == Success ==> Entered(db, db', g, user) && db'.requests == db.requests)
      && (r == Waiting ==>
            db' == db.(requests := db.requests + if pending then [] else [JoinRequest(g, user, Pending)]))
      && (r == Failed(GroupNotFound) <==> !Live(db, g))
      && (r == Failed(LimitReached) <==>
            Live(db, g) && byCode && db.groups[g].memberCount >= db.groups[g].maxMembers)
      && (r.Failed? && r.error != GroupNotFound && r.error != LimitReached ==> r == Failed(AlreadyMember))
      && (r.Failed? ==> db' == db)
  {
    AdmitEffect(db, g, user);
  }

  /**
   Handling takes a pending request and a manager of the named group. A rejection only marks the request; an accept
   marks it and admits its user into its group, or fails without a change if the user is a member there.
   */
  lemma HandleEffect(db: Db, user: string, g: string, request: nat, accept: bool)
    ensures var (db', r) := Step(db, HandleRequest(user, g, request, accept));
      && (r == Success <==>
            && request < |db.requests| && db.requests[request].status == Pending && Manages(db, g, user)
            && (accept ==> RoleOf(db, db.requests[request].group, db.requests[request].user) == None))
      && (r == Success ==>
            var asked := db.requests[request];
            && db'.requests == db.requests[request := asked.(status := if accept then Accepted else Rejected)]
            && (accept ==> Entered(db, db', asked.group, asked.user))
            && (!accept ==> db' == db.(requests := db'.requests)))
      && (r == Failed(RequestNotFound) <==> request >= |db.requests|)
      && (r == Failed(RequestProcessed) <==> request < |db.requests| && db.requests[request].status != Pending)
      && (request < |db.requests| && db.requests[request].status == Pending ==>
            && (r == Failed(NotMember) <==> RoleOf(db, g, user).None?)
            && (r == Failed(NoPermission) <==> RoleOf(db, g, user).Some? && !Manages(db, g, user))
            && (r == Failed(Duplicate) <==>
                  && Manages(db, g, user) && accept
                  && RoleOf(db, db.requests[request].group, db.requests[request].user).Some?))
      && (r != Success ==> db' == db)
  {
    if request < |db.requests| {
      AdmitEffect(db, db.requests[request].group, db.requests[request].user);
    }
  }

  // ---------- Inviting ----------

  /** The ids that are no members yet, in order. */
  function Strangers(db: Db, g: string, ids: seq<string>): seq<string> {
    if ids == [] then []
    else
      var k := |ids| - 1;
      Strangers(db, g, ids[..k]) + if RoleOf(db, g, ids[k]).Some? then [] else [ids[k]]
  }

  function Requests(g: string, ids: seq<string>): seq<JoinRequest> {
    seq(|ids|, i requires 0 <= i < |ids| => JoinRequest(g, ids[i], Pending))
  }

  lemma {:induction false} AskedAll(db: Db, g: string, ids: seq<string>)
    ensures InviteAll(db, g, ids, true) == db.(requests := db.requests + Requests(g, Strangers(db, g, ids)))
  {
    if ids == [] {
      assert db.requests + Requests(g, []) == db.requests;
    } else {
      var k := |ids| - 1;
      AskedAll(db, g, ids[..k]);
      var before, all := Strangers(db, g, ids[..k]), Strangers(db, g, ids);
      if RoleOf(db, g, ids[k]).Some? {
        assert all == before;
      } else {
        assert Requests(g, all) == Requests(g, before) + [JoinRequest(g, ids[k], Pending)];
        assert db.requests + Requests(g, before) + [JoinRequest(g, ids[k], Pending)] == db.requests + Requests(g, all);
      }
    }
  }

  /** Everybody invited is a member, newcomers as plain members; no other row, group or request has changed. */
  ghost predicate AllIn(db: Db, db': Db, g: string, ids: seq<string>) {
    && (forall u :: RoleOf(db', g, u)
          == if RoleOf(db, g, u).Some? then RoleOf(db, g, u) else if u in ids then Some(MEMBER) else None)
    && (forall h, u :: h != g ==> RoleOf(db', h, u) == RoleOf(db, h, u))
    && (forall h :: h in db.groups && h != g ==> h in db'.groups && db'.groups[h] == db.groups[h])
    && db'.groups.Keys == db.groups.Keys && SameRest(db, db')
  }

  lemma {:induction false} AdmittedAll(db: Db, g: string, ids: seq<string>)
    requires g in db.groups
    ensures AllIn(db, InviteAll(db, g, ids, false), g, ids)
    ensures InviteAll(db, g, ids, false).groups[g] == db.groups[g].(memberCount :=
      db.groups[g].memberCount + |MembersOf(InviteAll(db, g, ids, false), g)| - |MembersOf(db, g)|)
  {
    if ids != [] {
      var k := |ids| - 1;
      AdmittedAll(db, g, ids[..k]);
      var before, db' := InviteAll(db, g, ids[..k], false), InviteAll(db, g, ids, false);
      AdmitEffect(before, g, ids[k]);
      assert RoleOf(before, g, ids[k]).Some? <==> IsMember(before, g, ids[k]);
      forall u ensures u in ids <==> u in ids[..k] || u == ids[k] {
        assert ids == ids[..k] + [ids[k]];
      }
    }
  }

  /**
   An invitation succeeds exactly for a member of a live group that is not full and lets its members invite, or for a
   manager of it. If approval is needed, exactly the strangers get a pending request each, in order; else all invited
   are members and the count has grown by as many as came.
   */
  lemma InviteEffect(db: Db, user: string, g: string, ids: seq<string>)
    ensures var (db', r) := Step(db, Invite(user, g, ids));
      && (r == Success <==>
            && Live(db, g) && RoleOf(db, g, user).Some? && db.groups[g].memberCount < db.groups[g].maxMembers
            && (g in db.settings && !db.settings[g].allowInvite ==> Manages(db, g, user)))
      && (r == Success && Approves(db, g) ==>
            db' == db.(requests := db.requests + Requests(g, Strangers(db, g, ids))))
      && (r == Success && !Approves(db, g) ==>
            && AllIn(db, db', g, ids)
            && db'.groups[g] == db.groups[g].(memberCount :=
                 db.groups[g].memberCount + |MembersOf(db', g)| - |MembersOf(db, g)|))
      && (r == Failed(GroupNotFound) <==> !Live(db, g))
      && (r == Failed(NotMember) <==> Live(db, g) && RoleOf(db, g, user).None?)
      && (r == Failed(NoPermission) <==>
            && Live(db, g) && RoleOf(db, g, user).Some? && !Manages(db, g, user)
            && g in db.settings && !db.settings[g].allowInvite)
      && (r == Success || r == Failed(GroupNotFound) || r == Failed(NotMember) || r == Failed(NoPermission)
          || r == Failed(LimitReached))
      && (r != Success ==> db' == db)
  {
    if g in db.groups {
      AskedAll(db, g, ids);
      AdmittedAll(db, g, ids);
    }
  }

  // ---------- Creating ----------

  /** No id but the creator's is listed twice. */
  ghost predicate Distinct(creator: string, ids: seq<string>) {
    forall i, j :: 0 <= i < j < |ids| && ids[i] == ids[j] ==> ids[i] == creator
  }

  lemma {:induction false} InitialExact(creator: string, ids: seq<string>)
    ensures InitialRows(creator, ids).Some? <==> Distinct(creator, ids)
    ensures InitialRows(creator, ids).Some? ==>
      var rows := InitialRows(creator, ids).value;
      && (forall u :: u in rows <==> u == creator || u in ids)
      && (forall u :: u in rows ==> rows[u] == if u == creator then OWNER else MEMBER)
  {
    if ids != [] {
      var k := |ids| - 1;
      InitialExact(creator, ids[..k]);
      assert ids == ids[..k] + [ids[k]];
      if Distinct(creator, ids) {
        forall i, j | 0 <= i < j < k && ids[..k][i] == ids[..k][j] ensures ids[..k][i] == creator {
          assert ids[i] == ids[j];
        }
        if ids[k] in ids[..k] {
          var i :| 0 <= i < k && ids[..k][i] == ids[k];
          assert ids[i] == ids[k];
        }
      } else {
        var i, j :| 0 <= i < j < |ids| && ids[i] == ids[j] && ids[i] != creator;
        if j < k {
          assert ids[..k][i] == ids[..k][j];
        } else {
          assert ids[..k][i] == ids[k];
        }
      }
    }
  }

  /**
   A creation succeeds exactly with 1 to 499 ids, none but the creator's listed twice, under a new group id. The group
   then has its creator as owner and all others as plain members, is live, and nothing else has changed.
   */
  lemma CreateEffect(db: Db, user: string, g: string, ids: seq<string>)
    ensures var (db', r) := Step(db, Create(user, g, ids));
      && (r == Success <==> 1 <= |ids| <= 499 && g !in db.groups && Distinct(user, ids))
      && (r == Success ==>
            && (forall u :: RoleOf(db', g, u)
                  == if u == user then Some(OWNER) else if u in ids then Some(MEMBER) else None)
            && (forall h, u :: h != g ==> RoleOf(db', h, u) == RoleOf(db, h, u))
            && db'.groups == db.groups[g := Group(user, |ids| + 1, 500, true)]
            && db'.settings == db.settings[g := Setting(true, true)] && db'.requests == db.requests)
      && (r == Failed(TooFew) <==> ids == [])
      && (r == Failed(LimitReached) <==> |ids| >= 500)
      && (r != Success && 1 <= |ids| <= 499 ==> r == Failed(Duplicate))
      && (r != Success ==> db' == db)
  {
    InitialExact(user, ids);
  }
}
