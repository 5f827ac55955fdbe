/** Friendship: two directed rows per pair of friends, friend requests and a blacklist, changed by service calls. */
module Friends {
  import opened Base

  datatype RowStatus = Normal | Deleted

  type Rows = map<(string, string), RowStatus>

  datatype RequestStatus = Pending | Accepted | Rejected

  datatype Request = Request(from: string, to: string, status: RequestStatus)

  /** Rows by user and friend, the unique key of the table; requests in order of their ids; (user, blocked) pairs. */
  datatype Db = Db(rows: Rows, requests: seq<Request>, blacklist: set<(string, string)>)

  const EMPTY := Db(map[], [], {})

  /** Request handling actions; every other value is invalid. */
  const ACCEPT := 1
  const REJECT := 2

  datatype Outcome =
    | Success | UserBlocked | AlreadyFriend | RequestExists | SettingsUnavailable | Duplicate | RequestNotFound
    | PermissionDenied | RequestProcessed | InvalidAction | NotFriend | AlreadyInBlacklist | NotInBlacklist

  predicate IsFriend(db: Db, a: string, b: string) {
    (a, b) in db.rows && db.rows[(a, b)] == Normal
  }

  predicate IsBlocked(db: Db, a: string, b: string) {
    (a, b) in db.blacklist || (b, a) in db.blacklist
  }

  /** Both rows of a new friendship, or None when one of them exists or they are the same row. */
  function WithPair(rows: Rows, a: string, b: string): Option<Rows> {
    if a == b || (a, b) in rows || (b, a) in rows then None else Some(rows[(a, b) := Normal][(b, a) := Normal])
  }

  /** Soft delete: the row stays and keeps its key taken. */
  function Marked(rows: Rows, a: string, b: string): Rows {
    if (a, b) in rows then rows[(a, b) := Deleted] else rows
  }

  function Severed(db: Db, a: string, b: string): Db {
    db.(rows := Marked(Marked(db.rows, a, b), b, a))
  }

  datatype Op =
    | Send(user: string, to: string, verifyRequired: Option<bool>)
    | Handle(user: string, request: nat, action: int)
    | Remove(user: string, friend: string)
    | Block(user: string, blocked: string)
    | Unblock(user: string, blocked: string)

  /** verifyRequired is the recipient's setting, None when it cannot be read. */
  function Sent(db: Db, from: string, to: string, verifyRequired: Option<bool>): (Db, Outcome) {
    if IsBlocked(db, from, to) then (db, UserBlocked)
    else if IsFriend(db, from, to) then (db, AlreadyFriend)
    else if Request(from, to, Pending) in db.requests then (db, RequestExists)
    else if verifyRequired.None? then (db, SettingsUnavailable)
    else if verifyRequired.value then (db.(requests := db.requests + [Request(from, to, Pending)]), Success)
    else
      var paired := WithPair(db.rows, from, to);
      if paired.None? then (db, Duplicate)
      else (db.(rows := paired.value, requests := db.requests + [Request(from, to, Accepted)]), Success)
  }

  /** The blacklist is not consulted. */
  function Handled(db: Db, user: string, request: nat, action: int): (Db, Outcome) {
    if request >= |db.requests| then (db, RequestNotFound)
    else
      var r := db.requests[request];
      if r.to != user then (db, PermissionDenied)
      else if r.status != Pending then (db, RequestProcessed)
      else if action == REJECT then (db.(requests := db.requests[request := r.(status := Rejected)]), Success)
      else if action != ACCEPT then (db, InvalidAction)
      else
        var paired := WithPair(db.rows, user, r.from);
        if paired.None? then (db, Duplicate)
        else (db.(rows := paired.value, requests := db.requests[request := r.(status := Accepted)]), Success)
  }

  function Removed(db: Db, user: string, friend: string): (Db, Outcome) {
    if IsFriend(db, user, friend) then (Severed(db, user, friend), Success) else (db, NotFriend)
  }

  function Blocked(db: Db, user: string, blocked: string): (Db, Outcome) {
    if (user, blocked) in db.blacklist then (db, AlreadyInBlacklist)
    else
      var listed := db.(blacklist := db.blacklist + {(user, blocked)});
      (if IsFriend(db, user, blocked) then Severed(listed, user, blocked) else listed, Success)
  }

  function Unblocked(db: Db, user: string, blocked: string): (Db, Outcome) {
    if (user, blocked) in db.blacklist then (db.(blacklist := db.blacklist - {(user, blocked)}), Success)
    else (db, NotInBlacklist)
  }

  function Step(db: Db, op: Op): (Db, Outcome) {
    match op
    case Send(user, to, verifyRequired) => Sent(db, user, to, verifyRequired)
    case Handle(user, request, action) => Handled(db, user, request, action)
    case Remove(user, friend) => Removed(db, user, friend)
    case Block(user, blocked) => Blocked(db, user, blocked)
    case Unblock(user, blocked) => Unblocked(db, user, blocked)
  }

  function Run(db: Db, ops: seq<Op>): Db {
    if ops == [] then db else Step(Run(db, ops[..|ops| - 1]), ops[|ops| - 1]).0
  }

  class FriendService {
    var rows: Rows
    var requests: seq<Request>
    var blacklist: set<(string, string)>

    function View(): Db
      reads this
    {
      Db(rows, requests, blacklist)
    }

    constructor ()
      ensures View() == EMPTY
    {
      rows, requests, blacklist := map[], [], {};
    }

    /** One statement inserts both rows or none. */
    method CreateBatch(a: string, b: string, c: string, d: string) returns (ok: bool)
      modifies this`rows
      ensures ok <==> (a, b) != (c, d) && (a, b) !in old(rows) && (c, d) !in old(rows)
      ensures rows == if ok then old(rows)[(a, b) := Normal][(c, d) := Normal] else old(rows)
    {
      var before := rows;
      if (a, b) in rows {
        return false;
      }
      rows := rows[(a, b) := Normal];
      if (c, d) in rows {
        rows := before;
        return false;
      }
      rows := rows[(c, d) := Normal];
      return true;
    }

    method Delete(a: string, b: string)
      modifies this`rows
      ensures rows == Marked(old(rows), a, b)
    {
      if (a, b) in rows {
        rows := rows[(a, b) := Deleted];
      }
    }

    method DeleteBidirectional(a: string, b: string)
      modifies this`rows
      ensures View() == Severed(old(View()), a, b)
    {
      Delete(a, b);
      Delete(b, a);
    }

    method SendFriendRequest(user: string, to: string, verifyRequired: Option<bool>) returns (r: Outcome)
      modifies this
      ensures (View(), r) == Step(old(View()), Send(user, to, verifyRequired))
    {
      if IsBlocked(View(), user, to) {
        return UserBlocked;
      }
      if IsFriend(View(), user, to) {
        return AlreadyFriend;
      }
      if Request(user, to, Pending) in requests {
        return RequestExists;
      }
      if verifyRequired.None? {
        return SettingsUnavailable;
      }
      var before := View();
      requests := requests + [Request(user, to, if verifyRequired.value then Pending else Accepted)];
      if !verifyRequired.value {
        var ok := CreateBatch(user, to, to, user);
        if !ok {
          rows, requests := before.rows, before.requests;
          return Duplicate;
        }
      }
      return Success;
    }

    method HandleFriendRequest(user: string, request: nat, action: int) returns (r: Outcome)
      modifies this
      ensures (View(), r) == Step(old(View()), Handle(user, request, action))
    {
      if request >= |requests| {
        return RequestNotFound;
      }
      var asked := requests[request];
      if asked.to != user {
        return PermissionDenied;
      }
      if asked.status != Pending {
        return RequestProcessed;
      }
      if action != ACCEPT && action != REJECT {
        return InvalidAction;
      }
      if action == REJECT {
        requests := requests[request := asked.(status := Rejected)];
        return Success;
      }
      var before := View();
      requests := requests[request := asked.(status := Accepted)];
      var ok := CreateBatch(user, asked.from, asked.from, user);
      if !ok {
        rows, requests := before.rows, before.requests;
        return Duplicate;
      }
      return Success;
    }

    method DeleteFriend(user: string, friend: string) returns (r: Outcome)
      modifies this
      ensures (View(), r) == Step(old(View()), Remove(user, friend))
    {
      if !IsFriend(View(), user, friend) {
        return NotFriend;
      }
      DeleteBidirectional(user, friend);
      return Success;
    }

    method AddToBlacklist(user: string, blocked: string) returns (r: Outcome)
      modifies this
      ensures (View(), r) == Step(old(View()), Block(user, blocked))
    {
      if (user, blocked) in blacklist {
        return AlreadyInBlacklist;
      }
      blacklist := blacklist + {(user, blocked)};
      if IsFriend(View(), user, blocked) {
        DeleteBidirectional(user, blocked);
      }
      return Success;
    }

    method RemoveFromBlacklist(user: string, blocked: string) returns (r: Outcome)
      modifies this
      ensures (View(), r) == Step(old(View()), Unblock(user, blocked))
    {
      if (user, blocked) !in blacklist {
        return NotInBlacklist;
      }
      blacklist := blacklist - {(user, blocked)};
      return Success;
    }
  }
}
