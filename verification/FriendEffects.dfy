/** What each friend operation requires and does. */
module FriendEffects {
  import opened Base
  import opened Friends
  import opened FriendSafety

  /** One of the two has the other on the blacklist. */
  predicate Barred(db: Db, a: string, b: string) { (a, b) in db.blacklist || (b, a) in db.blacklist }

  /** No friendship row has changed, come or gone except the two between `a` and `b`. */
  ghost predicate OnlyPair(db: Db, db': Db, a: string, b: string) {
    forall p :: p != (a, b) && p != (b, a) ==>
      (p in db'.rows <==> p in db.rows) && (p in db.rows ==> db'.rows[p] == db.rows[p])
  }

  /** The two have become friends; they had no rows before. */
  ghost predicate Befriended(db: Db, db': Db, a: string, b: string) {
    && a != b && (a, b) !in db.rows && (b, a) !in db.rows && OnlyPair(db, db', a, b)
    && IsFriend(db', a, b) && IsFriend(db', b, a)
  }

  /** The two are friends no more: both rows are there and marked deleted. */
  ghost predicate Unfriended(db: Db, db': Db, a: string, b: string) {
    Ended(db', a, b) && OnlyPair(db, db', a, b)
  }

  /**
   A request is filed exactly between two users of whom neither blocks the other, who are no friends and have none
   pending in that direction; if the recipient asks for no verification it is accepted at once and makes them friends,
   which takes that they never were.
   */
  lemma SendEffect(db: Db, user: string, to: string, verifyRequired: Option<bool>)
    ensures var (db', r) := Step(db, Send(user, to, verifyRequired));
      && (r == Success <==>
            && !Barred(db, user, to) && !IsFriend(db, user, to) && Request(user, to, Pending) !in db.requests
            && verifyRequired.Some?
            && (!verifyRequired.value ==> user != to && (user, to) !in db.rows && (to, user) !in db.rows))
      && (r == Success ==>
            && db'.blacklist == db.blacklist
            && db'.requests == db.requests + [Request(user, to, if verifyRequired.value then Pending else Accepted)]
            && (if verifyRequired.value then db'.rows == db.rows else Befriended(db, db', user, to)))
      && (r == UserBlocked <==> Barred(db, user, to))
      && (r == AlreadyFriend <==> !Barred(db, user, to) && IsFriend(db, user, to))
      && (r == RequestExists <==>
            !Barred(db, user, to) && !IsFriend(db, user, to) && Request(user, to, Pending) in db.requests)
      && (r == SettingsUnavailable ==> verifyRequired.None?)
      && (r == Duplicate ==> verifyRequired == Some(false))
      && r in {Success, UserBlocked, AlreadyFriend, RequestExists, SettingsUnavailable, Duplicate}
      && (r != Success ==> db' == db)
  {
  }

  /**
   Only the recipient handles a pending request, by accepting or rejecting it. A rejection only marks the request; an
   accept marks it and makes the two friends, or fails without a change if they have rows or are one.
   */
  lemma HandleEffect(db: Db, user: string, request: nat, action: int)
    ensures var (db', r) := Step(db, Handle(user, request, action));
      && (r == Success <==>
            && request < |db.requests| && db.requests[request].to == user && db.requests[request].status == Pending
            && (action == 1 || action == 2)
            && (action == 1 ==>
                  && db.requests[request].from != user
                  && (user, db.requests[request].from) !in db.rows && (db.requests[request].from, user) !in db.rows))
      && (r == Success ==>
            var asked := db.requests[request];
            && db'.blacklist == db.blacklist
            && db'.requests == db.requests[request := asked.(status := if action == 1 then Accepted else Rejected)]
            && (if action == 1 then Befriended(db, db', user, asked.from) else db'.rows == db.rows))
      && (r == RequestNotFound <==> request >= |db.requests|)
      && (r == PermissionDenied <==> request < |db.requests| && db.requests[request].to != user)
      && (r == RequestProcessed <==>
            request < |db.requests| && db.requests[request].to == user && db.requests[request].status != Pending)
      && (r == InvalidAction ==> action != 1 && action != 2)
      && (r == Duplicate ==> action == 1)
      && r in {Success, RequestNotFound, PermissionDenied, RequestProcessed, InvalidAction, Duplicate}
      && (r != Success ==> db' == db)
  {
  }

  /** In every run a removal succeeds exactly between friends, who are friends no more then; nothing else changes. */
  lemma {:induction false} RemoveEffect(ops: seq<Op>, user: string, friend: string)
    ensures var db := Run(EMPTY, ops);
      var (db', r) := Step(db, Remove(user, friend));
      && (r == Success <==> IsFriend(db, user, friend))
      && (r == Success ==>
            && Unfriended(db, db', user, friend)
            && !IsFriend(db', user, friend) && !IsFriend(db', friend, user)
            && db'.requests == db.requests && db'.blacklist == db.blacklist)
      && (r == Success || r == NotFriend)
      && (r != Success ==> db' == db)
  {
    FriendshipsPaired(ops, user, friend);
  }

  /** In every run a block succeeds exactly where there is none; it lists the pair and ends their friendship. */
  lemma {:induction false} BlockEffect(ops: seq<Op>, user: string, blocked: string)
    ensures var db := Run(EMPTY, ops);
      var (db', r) := Step(db, Block(user, blocked));
      && (r == Success <==> (user, blocked) !in db.blacklist)
      && (r == Success ==>
            && Barred(db', user, blocked) && !IsFriend(db', user, blocked) && !IsFriend(db', blocked, user)
            && db'.blacklist == db.blacklist + {(user, blocked)} && db'.requests == db.requests
            && (if IsFriend(db, user, blocked) then Unfriended(db, db', user, blocked) else db'.rows == db.rows))
      && (r == Success || r == AlreadyInBlacklist)
      && (r != Success ==> db' == db)
  {
    FriendshipsPaired(ops, user, blocked);
  }

  /** An unblock succeeds exactly where there is a block, takes the pair off the list and changes nothing else. */
  lemma UnblockEffect(db: Db, user: string, blocked: string)
    ensures var (db', r) := Step(db, Unblock(user, blocked));
      && (r == Success <==> (user, blocked) in db.blacklist)
      && (r == Success ==>
            && (user, blocked) !in db'.blacklist && db'.rows == db.rows && db'.requests == db.requests
            && forall p :: p != (user, blocked) ==> (p in db'.blacklist <==> p in db.blacklist))
      && (r == Success || r == NotInBlacklist)
      && (r != Success ==> db' == db)
  {
  }
}
