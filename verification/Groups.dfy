/** Group membership: groups, member rows with roles, and join requests, changed by transactional service calls. */
module Groups {
  import opened Base

  /** Role column values. */
  const OWNER := 1
  const ADMIN := 2
  const MEMBER := 3

  const MAX_MEMBERS := 500

  datatype Group = Group(owner: string, memberCount: int, maxMembers: int, active: bool)

  datatype RequestStatus = Pending | Accepted | Rejected

  datatype JoinRequest = JoinRequest(group: string, user: string, status: RequestStatus)

  datatype Setting = Setting(joinVerify: bool, allowInvite: bool)

  /** Member rows by group and user, the unique key of the table; requests in order of their ids. */
  datatype Db = Db(groups: map<string, Group>, members: map<string, map<string, int>>,
                   settings: map<string, Setting>, requests: seq<JoinRequest>)

  const EMPTY := Db(map[], map[], map[], [])

  datatype Error =
    | TooFew | LimitReached | Duplicate | GroupNotFound | NotMember | AlreadyMember | NoPermission
    | CannotRemoveOwner | CannotRemoveAdmin | CannotQuit | RequestNotFound | RequestProcessed

  datatype Outcome = Success | Waiting | Failed(error: Error)

  function MembersOf(db: Db, g: string): map<string, int> {
    if g in db.members then db.members[g] else map[]
  }

  predicate IsMember(db: Db, g: string, u: string) { u in MembersOf(db, g) }

  predicate HasRole(db: Db, g: string, u: string, role: int) {
    u in MembersOf(db, g) && MembersOf(db, g)[u] == role
  }

  /** Owners and admins. */
  predicate CanManage(db: Db, g: string, u: string) { HasRole(db, g, u, OWNER) || HasRole(db, g, u, ADMIN) }

  predicate CanRemove(operatorRole: int, targetRole: int) {
    operatorRole == OWNER || (operatorRole == ADMIN && targetRole == MEMBER)
  }

  predicate Active(db: Db, g: string) { g in db.groups && db.groups[g].active }

  predicate Verifies(db: Db, g: string) { g in db.settings ==> db.settings[g].joinVerify }

  function PutRole(db: Db, g: string, u: string, role: int): Db {
    db.(members := db.members[g := MembersOf(db, g)[u := role]])
  }

  function AddCount(db: Db, g: string, delta: int): Db {
    if g in db.groups then db.(groups := db.groups[g := db.groups[g].(memberCount := db.groups[g].memberCount + delta)])
    else db
  }

  /** The join transaction: a second row for the user violates the unique key and rolls back. */
  function Admit(db: Db, g: string, u: string): Option<Db> {
    if IsMember(db, g, u) then None else Some(AddCount(PutRole(db, g, u, MEMBER), g, 1))
  }

  function Expel(db: Db, g: string, u: string): Db {
    AddCount(db.(members := db.members[g := MembersOf(db, g) - {u}]), g, -1)
  }

  function Ask(db: Db, g: string, u: string): Db {
    db.(requests := db.requests + [JoinRequest(g, u, Pending)])
  }

  predicate HasPending(db: Db, g: string, u: string) {
    JoinRequest(g, u, Pending) in db.requests
  }

  /** The member rows of a new group, or None when an id other than the creator's is listed twice. */
  function InitialRows(creator: string, ids: seq<string>): Option<map<string, int>> {
    if ids == [] then Some(map[creator := OWNER])
    else
      var k := |ids| - 1;
      var before := InitialRows(creator, ids[..k]);
      if before.None? || ids[k] == creator then before
      else if ids[k] in before.value then None
      else Some(before.value[ids[k] := MEMBER])
  }

  /** Invitees one after the other: members are skipped, the others asked or admitted. */
  function InviteAll(db: Db, g: string, ids: seq<string>, verify: bool): Db {
    if ids == [] then db
    else
      var k := |ids| - 1;
      var before := InviteAll(db, g, ids[..k], verify);
      if IsMember(before, g, ids[k]) then before
      else if verify then Ask(before, g, ids[k])
      else Admit(before, g, ids[k]).value
  }

  datatype Op =
    | Create(user: string, group: string, ids: seq<string>)
    | Invite(user: string, group: string, ids: seq<string>)
    | Remove(user: string, group: string, target: string)
    | Quit(user: string, group: string)
    | Disband(user: string, group: string)
    | UpdateRole(user: string, group: string, target: string, role: int)
    | Transfer(user: string, group: string, target: string)
    | Join(user: string, group: string, byCode: bool)
    | HandleRequest(user: string, group: string, request: nat, accept: bool)
    | Configure(group: string, setting: Setting)

  function Created(db: Db, creator: string, g: string, ids: seq<string>): (Db, Outcome) {
    if ids == [] then (db, Failed(TooFew))
    else if |ids| + 1 > MAX_MEMBERS then (db, Failed(LimitReached))
    else
      var rows := InitialRows(creator, ids);
      if g in db.groups || rows.None? then (db, Failed(Duplicate))
      else
        (Db(db.groups[g := Group(creator, |ids| + 1, MAX_MEMBERS, true)], db.members[g := rows.value],
            db.settings[g := Setting(true, true)], db.requests), Success)
  }

  function Invited(db: Db, user: string, g: string, ids: seq<string>): (Db, Outcome) {
    if !Active(db, g) then (db, Failed(GroupNotFound))
    else if !IsMember(db, g, user) then (db, Failed(NotMember))
    else if g in db.settings && !db.settings[g].allowInvite && !CanManage(db, g, user) then (db, Failed(NoPermission))
    else if db.groups[g].memberCount >= db.groups[g].maxMembers then (db, Failed(LimitReached))
    else (InviteAll(db, g, ids, Verifies(db, g)), Success)
  }

  function Removed(db: Db, user: string, g: string, target: string): (Db, Outcome) {
    if !IsMember(db, g, user) || !IsMember(db, g, target) then (db, Failed(NotMember))
    else if HasRole(db, g, target, OWNER) then (db, Failed(CannotRemoveOwner))
    else if !CanRemove(MembersOf(db, g)[user], MembersOf(db, g)[target]) then
      (db, Failed(if HasRole(db, g, target, ADMIN) then CannotRemoveAdmin else NoPermission))
    else (Expel(db, g, target), Success)
  }

  function Disbanded(db: Db, user: string, g: string): (Db, Outcome) {
    if !IsMember(db, g, user) then (db, Failed(NotMember))
    else if !HasRole(db, g, user, OWNER) then (db, Failed(NoPermission))
    else (if g in db.groups then db.(groups := db.groups[g := db.groups[g].(active := false)]) else db, Success)
  }

  function HasQuit(db: Db, user: string, g: string): (Db, Outcome) {
    if !IsMember(db, g, user) then (db, Failed(NotMember))
    else if HasRole(db, g, user, OWNER) then
      if |MembersOf(db, g)| == 1 then Disbanded(db, user, g) else (db, Failed(CannotQuit))
    else (Expel(db, g, user), Success)
  }

  function RoleUpdated(db: Db, user: string, g: string, target: string, role: int): (Db, Outcome) {
    if !IsMember(db, g, user) then (db, Failed(NotMember))
    else if !HasRole(db, g, user, OWNER) then (db, Failed(NoPermission))
    else if !IsMember(db, g, target) then (db, Failed(NotMember))
    else if HasRole(db, g, target, OWNER) then (db, Failed(NoPermission))
    else (PutRole(db, g, target, role), Success)
  }

  /** owner_id changes only while the group is active; the roles change in any case. */
  function Transferred(db: Db, user: string, g: string, target: string): (Db, Outcome) {
    if !IsMember(db, g, user) then (db, Failed(NotMember))
    else if !HasRole(db, g, user, OWNER) then (db, Failed(NoPermission))
    else if !IsMember(db, g, target) then (db, Failed(NotMember))
    else if HasRole(db, g, target, OWNER) then (db, Success)
    else
      var named := if Active(db, g) then db.(groups := db.groups[g := db.groups[g].(owner := target)]) else db;
      (PutRole(PutRole(named, g, user, ADMIN), g, target, OWNER), Success)
  }

  function Joined(db: Db, user: string, g: string, byCode: bool): (Db, Outcome) {
    if !Active(db, g) then (db, Failed(GroupNotFound))
    else if byCode && db.groups[g].memberCount >= db.groups[g].maxMembers then (db, Failed(LimitReached))
    else if IsMember(db, g, user) then (db, Failed(AlreadyMember))
    else if !byCode && HasPending(db, g, user) then (db, Waiting)
    else if Verifies(db, g) then (if HasPending(db, g, user) then db else Ask(db, g, user), Waiting)
    else (Admit(db, g, user).value, Success)
  }

  /** The group checked is the one named by the call; the group joined is the one the request was made for. */
  function Handled(db: Db, user: string, g: string, request: nat, accept: bool): (Db, Outcome) {
    if request >= |db.requests| then (db, Failed(RequestNotFound))
    else
      var r := db.requests[request];
      if r.status != Pending then (db, Failed(RequestProcessed))
      else if !IsMember(db, g, user) then (db, Failed(NotMember))
      else if !CanManage(db, g, user) then (db, Failed(NoPermission))
      else if !accept then (db.(requests := db.requests[request := r.(status := Rejected)]), Success)
      else
        var admitted := Admit(db, r.group, r.user);
        if admitted.None? then (db, Failed(Duplicate))
        else (admitted.value.(requests := db.requests[request := r.(status := Accepted)]), Success)
  }

  function Step(db: Db, op: Op): (Db, Outcome) {
    match op
    case Create(user, g, ids) => Created(db, user, g, ids)
    case Invite(user, g, ids) => Invited(db, user, g, ids)
    case Remove(user, g, target) => Removed(db, user, g, target)
    case Quit(user, g) => HasQuit(db, user, g)
    case Disband(user, g) => Disbanded(db, user, g)
    case UpdateRole(user, g, target, role) => RoleUpdated(db, user, g, target, role)
    case Transfer(user, g, target) => Transferred(db, user, g, target)
    case Join(user, g, byCode) => Joined(db, user, g, byCode)
    case HandleRequest(user, g, request, accept) => Handled(db, user, g, request, accept)
    case Configure(g, setting) => (db.(settings := db.settings[g := setting]), Success)
  }

  function Run(db: Db, ops: seq<Op>): Db {
    if ops == [] then db else Step(Run(db, ops[..|ops| - 1]), ops[|ops| - 1]).0
  }
}
