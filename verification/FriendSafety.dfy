/** What every serial run of the friend service keeps for every pair of users. */
module FriendSafety {
  import opened Base
  import opened Friends

  predicate Between(r: Request, a: string, b: string) {
    (r.from == a && r.to == b) || (r.from == b && r.to == a)
  }

  /** How many requests between the two, in either direction, are accepted. */
  function AcceptedBetween(requests: seq<Request>, a: string, b: string): nat {
    if requests == [] then 0
    else
      var r := requests[|requests| - 1];
      AcceptedBetween(requests[..|requests| - 1], a, b) + if r.status == Accepted && Between(r, a, b) then 1 else 0
  }

  lemma {:induction false} AcceptedAppended(requests: seq<Request>, r: Request, a: string, b: string)
    ensures AcceptedBetween(requests + [r], a, b)
      == AcceptedBetween(requests, a, b) + if r.status == Accepted && Between(r, a, b) then 1 else 0
  {
    assert (requests + [r])[..|requests|] == requests;
  }

  lemma {:induction false} AcceptedUpdated(requests: seq<Request>, i: nat, status: RequestStatus, a: string, b: string)
    requires i < |requests| && requests[i].status == Pending
    ensures AcceptedBetween(requests[i := requests[i].(status := status)], a, b)
      == AcceptedBetween(requests, a, b) + if status == Accepted && Between(requests[i], a, b) then 1 else 0
  {
    var k := |requests| - 1;
    var updated := requests[i := requests[i].(status := status)];
    if i == k {
      assert updated[..k] == requests[..k];
    } else {
      assert updated[..k] == requests[..k][i := requests[i].(status := status)];
      AcceptedUpdated(requests[..k], i, status, a, b);
    }
  }

  /**
   The two rows of a pair exist together and with one status, nobody has a row with themselves, and the rows
   exist exactly when exactly one request between the two is accepted; otherwise none is.
   */
  ghost predicate Paired(db: Db, a: string, b: string) {
    && ((a, b) in db.rows <==> (b, a) in db.rows)
    && ((a, b) in db.rows ==> a != b && db.rows[(a, b)] == db.rows[(b, a)])
    && AcceptedBetween(db.requests, a, b) == if (a, b) in db.rows then 1 else 0
  }

  /** New rows between two users come in a pair, and only where there were none. */
  lemma WithPairRows(db: Db, user: string, to: string, a: string, b: string)
    requires Paired(db, a, b) && WithPair(db.rows, user, to).Some?
    ensures var rows := WithPair(db.rows, user, to).value;
      && ((a, b) in rows <==> (b, a) in rows)
      && ((a, b) in rows ==> a != b && rows[(a, b)] == rows[(b, a)])
      && ((a, b) in rows <==> (a, b) in db.rows || Between(Request(user, to, Accepted), a, b))
      && (Between(Request(user, to, Accepted), a, b) ==> (a, b) !in db.rows)
  {
  }

  lemma SentPaired(db: Db, user: string, to: string, verifyRequired: Option<bool>, a: string, b: string)
    requires Paired(db, a, b)
    ensures Paired(Sent(db, user, to, verifyRequired).0, a, b)
  {
    if verifyRequired == Some(false) {
      AcceptedAppended(db.requests, Request(user, to, Accepted), a, b);
      if WithPair(db.rows, user, to).Some? {
        WithPairRows(db, user, to, a, b);
      }
    } else {
      AcceptedAppended(db.requests, Request(user, to, Pending), a, b);
    }
  }

  lemma HandledPaired(db: Db, user: string, i: nat, action: int, a: string, b: string)
    requires Paired(db, a, b)
    ensures Paired(Handled(db, user, i, action).0, a, b)
  {
    if i < |db.requests| && db.requests[i].status == Pending {
      AcceptedUpdated(db.requests, i, if action == REJECT then Rejected else Accepted, a, b);
      if WithPair(db.rows, user, db.requests[i].from).Some? {
        WithPairRows(db, user, db.requests[i].from, a, b);
      }
    }
  }

  lemma SeveredPaired(db: Db, user: string, friend: string, a: string, b: string)
    requires Paired(db, a, b)
    ensures Paired(Severed(db, user, friend), a, b)
  {
  }

  lemma StepPaired(db: Db, op: Op, a: string, b: string)
    requires Paired(db, a, b)
    ensures Paired(Step(db, op).0, a, b)
  {
    match op
    case Send(user, to, verifyRequired) => SentPaired(db, user, to, verifyRequired, a, b);
    case Handle(user, i, action) => HandledPaired(db, user, i, action, a, b);
    case Remove(user, friend) => SeveredPaired(db, user, friend, a, b);
    case Block(user, blocked) => SeveredPaired(db, user, blocked, a, b);
    case Unblock(_, _) =>
  }

  /** Every pair of users, in every serial run. */
  lemma {:induction false} FriendshipsPaired(ops: seq<Op>, a: string, b: string)
    ensures Paired(Run(EMPTY, ops), a, b)
  {
    if ops != [] {
      FriendshipsPaired(ops[..|ops| - 1], a, b);
      StepPaired(Run(EMPTY, ops[..|ops| - 1]), ops[|ops| - 1], a, b);
    }
  }

  /** Friendship is symmetric and never with oneself. */
  lemma {:induction false} FriendsSymmetric(ops: seq<Op>, a: string, b: string)
    ensures IsFriend(Run(EMPTY, ops), a, b) <==> IsFriend(Run(EMPTY, ops), b, a)
    ensures !IsFriend(Run(EMPTY, ops), a, a)
  {
    FriendshipsPaired(ops, a, b);
    FriendshipsPaired(ops, a, a);
  }

  // ---------- One acceptance per pair ----------

  lemma {:induction false} RunAppend(before: seq<Op>, after: seq<Op>)
    ensures Run(EMPTY, before + after) == Run(Run(EMPTY, before), after)
  {
    var ops := before + after;
    if after == [] {
      assert ops == before;
    } else {
      var k := |after| - 1;
      assert ops[..|ops| - 1] == before + after[..k];
      RunAppend(before, after[..k]);
    }
  }

  /** Accepting a second request between the two changes nothing: the request stays pending. */
  lemma SecondAccept(ops: seq<Op>, user: string, i: nat)
    requires i < |Run(EMPTY, ops).requests| && Run(EMPTY, ops).requests[i].to == user
    requires Run(EMPTY, ops).requests[i].status == Pending
    ensures var db := Run(EMPTY, ops);
      var from := db.requests[i].from;
      Step(db, Handle(user, i, ACCEPT)) == (db, Duplicate)
      <==> user == from || AcceptedBetween(db.requests, user, from) == 1
  {
    FriendshipsPaired(ops, user, Run(EMPTY, ops).requests[i].from);
  }

  /** Rows, once there, stay, and the accepted requests between the two are the same in every continuation. */
  lemma {:induction false} AcceptanceFinal(db: Db, after: seq<Op>, a: string, b: string)
    requires (a, b) in db.rows && (b, a) in db.rows
    ensures var end := Run(db, after);
      && (a, b) in end.rows && (b, a) in end.rows && |db.requests| <= |end.requests|
      && forall i :: 0 <= i < |end.requests| && Between(end.requests[i], a, b) && end.requests[i].status == Accepted
           ==> i < |db.requests| && db.requests[i] == end.requests[i]
    decreases after
  {
    if after != [] {
      AcceptanceFinal(db, after[..|after| - 1], a, b);
    }
  }

  /** An auto-accepted request of an unblocked pair, or the recipient's accept of a pending request. */
  predicate Befriends(db: Db, op: Op, a: string, b: string) {
    match op
    case Send(user, to, verifyRequired) =>
      Between(Request(user, to, Pending), a, b) && verifyRequired == Some(false) && !IsBlocked(db, a, b)
    case Handle(user, i, action) =>
      && action == ACCEPT && i < |db.requests| && Between(db.requests[i], a, b)
      && db.requests[i].status == Pending && db.requests[i].to == user
    case _ => false
  }

  /** Only such a call makes two users friends, and only two who never were. */
  lemma FriendshipBegins(db: Db, op: Op, a: string, b: string)
    requires Paired(db, a, b) && !IsFriend(db, a, b) && IsFriend(Step(db, op).0, a, b)
    ensures Befriends(db, op, a, b) && (a, b) !in db.rows && AcceptedBetween(db.requests, a, b) == 0
  {
  }

  // ---------- The end of a friendship ----------

  /** The calls that end a friendship between the two. */
  predicate Parts(op: Op, a: string, b: string) {
    || (op.Remove? && ((op.user == a && op.friend == b) || (op.user == b && op.friend == a)))
    || (op.Block? && ((op.user == a && op.blocked == b) || (op.user == b && op.blocked == a)))
  }

  predicate Ended(db: Db, a: string, b: string) {
    && (a, b) in db.rows && db.rows[(a, b)] == Deleted
    && (b, a) in db.rows && db.rows[(b, a)] == Deleted
  }

  lemma {:induction false} EndedForever(db: Db, after: seq<Op>, a: string, b: string)
    requires Ended(db, a, b)
    ensures Ended(Run(db, after), a, b)
    decreases after
  {
    if after != [] {
      EndedForever(db, after[..|after| - 1], a, b);
    }
  }

  /** A friendship ends only by a removal or a block between the two, and then they are never friends again. */
  lemma NeverAgain(before: seq<Op>, op: Op, after: seq<Op>, a: string, b: string)
    requires IsFriend(Run(EMPTY, before), a, b) && !IsFriend(Run(EMPTY, before + [op]), a, b)
    ensures Parts(op, a, b)
    ensures var end := Run(EMPTY, before + [op] + after); !IsFriend(end, a, b) && !IsFriend(end, b, a)
    ensures var end := Run(EMPTY, before + [op] + after); Sent(end, a, b, Some(false)).1 != Success
    ensures var end := Run(EMPTY, before + [op] + after);
      forall i :: 0 <= i < |end.requests| && Between(end.requests[i], a, b) && end.requests[i].status == Pending
        ==> Handled(end, end.requests[i].to, i, ACCEPT) == (end, Duplicate)
  {
    assert (before + [op])[..|before|] == before;
    FriendshipsPaired(before, a, b);
    FriendshipsPaired(before + [op], a, b);
    EndedBy(Run(EMPTY, before), op, a, b);
    RunAppend(before + [op], after);
    EndedForever(Run(EMPTY, before + [op]), after, a, b);
    EndedRefuses(Run(EMPTY, before + [op] + after), a, b);
  }

  lemma EndedBy(db: Db, op: Op, a: string, b: string)
    requires Paired(db, a, b) && IsFriend(db, a, b) && !IsFriend(Step(db, op).0, a, b)
    ensures Parts(op, a, b) && Ended(Step(db, op).0, a, b)
  {
  }

  lemma EndedRefuses(db: Db, a: string, b: string)
    requires Ended(db, a, b)
    ensures !IsFriend(db, a, b) && !IsFriend(db, b, a) && Sent(db, a, b, Some(false)).1 != Success
    ensures
      forall i :: 0 <= i < |db.requests| && Between(db.requests[i], a, b) && db.requests[i].status == Pending
        ==> Handled(db, db.requests[i].to, i, ACCEPT) == (db, Duplicate)
  {
  }

  // ---------- The blacklist ----------

  /** The two are friends although one blocks the other. */
  predicate AtOdds(db: Db, a: string, b: string) { IsFriend(db, a, b) && IsBlocked(db, a, b) }

  /** The accepting call of a blocked pair that has no rows yet. */
  predicate Overlooks(db: Db, op: Op, a: string, b: string) {
    && op.Handle? && op.action == ACCEPT && op.request < |db.requests|
    && var r := db.requests[op.request];
      && Between(r, a, b) && r.status == Pending && r.to == op.user && r.from != r.to
      && (a, b) !in db.rows && IsBlocked(db, a, b)
  }

  /** A step puts the two at odds exactly when it is such a call. */
  lemma OddsStep(db: Db, op: Op, a: string, b: string)
    requires Paired(db, a, b)
    ensures Overlooks(db, op, a, b) ==> AtOdds(Step(db, op).0, a, b)
    ensures AtOdds(Step(db, op).0, a, b) && !AtOdds(db, a, b) ==> Overlooks(db, op, a, b)
  {
  }

  ghost predicate WereAtOdds(ops: seq<Op>, a: string, b: string) {
    exists k :: 0 <= k <= |ops| && AtOdds(Run(EMPTY, ops[..k]), a, b)
  }

  ghost predicate Overlooked(ops: seq<Op>, a: string, b: string) {
    exists k :: 0 <= k < |ops| && Overlooks(Run(EMPTY, ops[..k]), ops[k], a, b)
  }

  lemma RunNext(ops: seq<Op>, k: nat)
    requires k < |ops|
    ensures Run(EMPTY, ops[..k + 1]) == Step(Run(EMPTY, ops[..k]), ops[k]).0
  {
    assert ops[..k + 1][..k] == ops[..k];
  }

  lemma {:induction false} OddsCause(ops: seq<Op>, k: nat, a: string, b: string)
    requires k <= |ops| && AtOdds(Run(EMPTY, ops[..k]), a, b)
    ensures Overlooked(ops, a, b)
  {
    if k > 0 {
      RunNext(ops, k - 1);
      FriendshipsPaired(ops[..k - 1], a, b);
      OddsStep(Run(EMPTY, ops[..k - 1]), ops[k - 1], a, b);
      if AtOdds(Run(EMPTY, ops[..k - 1]), a, b) {
        OddsCause(ops, k - 1, a, b);
      }
    }
  }

  /** Two users were friends with one blocking the other at some point of a run exactly when it has such a call. */
  lemma {:induction false} PeaceExact(ops: seq<Op>, a: string, b: string)
    ensures WereAtOdds(ops, a, b) <==> Overlooked(ops, a, b)
  {
    if k :| 0 <= k <= |ops| && AtOdds(Run(EMPTY, ops[..k]), a, b) {
      OddsCause(ops, k, a, b);
    }
    if k :| 0 <= k < |ops| && Overlooks(Run(EMPTY, ops[..k]), ops[k], a, b) {
      FriendshipsPaired(ops[..k], a, b);
      OddsStep(Run(EMPTY, ops[..k]), ops[k], a, b);
      RunNext(ops, k);
    }
  }

  /** Any two users can end up friends although one blocks the other. */
  lemma BlockedFriends(a: string, b: string)
    requires a != b
    ensures var end := Run(EMPTY, [Send(a, b, Some(true)), Block(b, a), Handle(b, 0, ACCEPT)]);
      IsFriend(end, a, b) && IsBlocked(end, a, b)
  {
    var send, block, accept := Send(a, b, Some(true)), Block(b, a), Handle(b, 0, ACCEPT);
    assert [send, block, accept][..2] == [send, block] && [send, block][..1] == [send] && [send][..0] == [];
    assert Run(EMPTY, []) == EMPTY;
    assert Run(EMPTY, [send]) == Db(map[], [Request(a, b, Pending)], {});
    assert Run(EMPTY, [send, block]) == Db(map[], [Request(a, b, Pending)], {(b, a)});
  }
}
