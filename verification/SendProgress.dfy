/** The send protocol never deadlocks, and from every reachable state it can run dry without any abort. */
module SendProgress {
  import opened Base
  import opened MessageModel
  import opened SendProtocol
  import opened SendSafety

  ghost predicate Unfinished(txns: seq<Txn>, t: int) {
    0 <= t < |txns| && !txns[t].phase.Done?
  }

  /** No choice of fresh id makes the next statement of `t` wait. */
  ghost predicate CanRun(txns: seq<Txn>, t: nat) {
    Unfinished(txns, t) && forall uuid :: !Blocked(txns, t, uuid)
  }

  lemma Inserted(s: State, u: nat)
    requires Inv(s) && u < |s.txns| && s.txns[u].message.Some?
    ensures CanRun(s.txns, u)
  {
    assert TxnInv(s.db, s.txns[u]);
    assert forall v :: 0 <= v < |s.txns| && v != u ==> Apart(s.txns[u], s.txns[v]);
  }

  lemma Counting(s: State, u: nat)
    requires Inv(s) && u < |s.txns| && s.txns[u].counter.Some?
    requires forall v :: 0 <= v < |s.txns| ==> s.txns[v].message.None?
    ensures CanRun(s.txns, u)
  {
    assert TxnInv(s.db, s.txns[u]);
    assert forall v :: 0 <= v < |s.txns| && v != u ==> Apart(s.txns[u], s.txns[v]);
  }

  lemma Owning(s: State, u: nat)
    requires Inv(s) && u < |s.txns| && s.txns[u].holdsKey
    requires forall v :: 0 <= v < |s.txns| ==> s.txns[v].message.None? && s.txns[v].counter.None?
    ensures CanRun(s.txns, u)
  {
    assert TxnInv(s.db, s.txns[u]);
    assert forall v :: 0 <= v < |s.txns| && v != u ==> Apart(s.txns[u], s.txns[v]);
  }

  lemma Unhindered(s: State, u: nat)
    requires Inv(s) && Unfinished(s.txns, u)
    requires forall v :: 0 <= v < |s.txns| ==> s.txns[v].message.None? && s.txns[v].counter.None? && !s.txns[v].holdsKey
    ensures CanRun(s.txns, u)
  {
    forall v | 0 <= v < |s.txns| ensures s.txns[v].claim.None? {
      assert TxnInv(s.db, s.txns[v]);
    }
  }

  /**
   Follow the lock order backwards: a transaction that has inserted its message waits for nobody; with none of
   those, one that holds a sequence row waits for nobody; with none of those, a key holder; else anyone.
   */
  lemma Runnable(s: State, t: nat) returns (u: nat)
    requires Inv(s) && Unfinished(s.txns, t)
    ensures CanRun(s.txns, u)
  {
    var txns := s.txns;
    if i :| 0 <= i < |txns| && txns[i].message.Some? {
      u := i;
      Inserted(s, u);
    } else if i :| 0 <= i < |txns| && txns[i].counter.Some? {
      u := i;
      Counting(s, u);
    } else if i :| 0 <= i < |txns| && txns[i].holdsKey {
      u := i;
      Owning(s, u);
    } else {
      u := t;
      Unhindered(s, u);
    }
  }

  /** In every reachable state with an unfinished transaction, some transaction's next statement is not blocked. */
  lemma NoDeadlock(es: seq<Event>, t: nat)
    requires Exec(es).Some? && Unfinished(Exec(es).value.txns, t)
    ensures exists u: nat :: CanRun(Exec(es).value.txns, u)
  {
    RunKeeps(es);
    var u := Runnable(Exec(es).value, t);
  }

  // ---------- Running dry ----------

  function Rank(p: Phase): nat {
    match p
    case Claiming => 9
    case Locking => 8
    case Probing => 7
    case Creating => 6
    case Bumping => 5
    case Reading => 4
    case Inserting(_) => 3
    case Binding => 2
    case Fetching(_) => 2
    case Committing(_, _) => 1
    case Done(_) => 0
  }

  function Work(txns: seq<Txn>): nat {
    if txns == [] then 0 else Rank(txns[0].phase) + Work(txns[1..])
  }

  lemma {:induction false} WorkUpdate(txns: seq<Txn>, t: nat, x: Txn)
    requires t < |txns|
    ensures Work(txns[t := x]) == Work(txns) - Rank(txns[t].phase) + Rank(x.phase)
  {
    if t == 0 {
      assert txns[t := x][1..] == txns[1..];
    } else {
      assert txns[t := x][1..] == txns[1..][t - 1 := x];
      WorkUpdate(txns[1..], t - 1, x);
    }
  }

  /** Every statement takes its transaction strictly closer to its end. */
  lemma AdvanceWorks(s: State, t: nat, uuid: string, now: int)
    requires Enabled(s, Advance(t, uuid, now))
    ensures Work(Next(s, Advance(t, uuid, now)).txns) < Work(s.txns)
  {
    var x := s.txns[t];
    WorkUpdate(s.txns, t, if x.phase.Committing? then Ended(x, true) else Statement(s.db, x, uuid, now));
  }

  ghost predicate OnlyAdvances(es: seq<Event>) {
    forall i :: 0 <= i < |es| ==> es[i].Advance?
  }

  lemma ExecLast(es: seq<Event>, e: Event)
    requires Exec(es).Some? && Enabled(Exec(es).value, e)
    ensures Exec(es + [e]) == Some(Next(Exec(es).value, e))
  {
    LastOf(es, e);
  }

  ghost predicate Idle(s: State) {
    forall t :: !Unfinished(s.txns, t)
  }

  /** Some length that no string of the set exceeds. */
  lemma {:induction false} LengthBound(ids: set<string>) returns (n: nat)
    ensures forall id :: id in ids ==> |id| <= n
  {
    n := 0;
    if ids != {} {
      var id :| id in ids;
      n := LengthBound(ids - {id});
      if n < |id| {
        n := |id|;
      }
    }
  }

  lemma FreshId(ids: set<string>) returns (id: string)
    ensures id !in ids && id != ""
  {
    var n := LengthBound(ids);
    id := seq(n + 1, i => 'x');
  }

  /** The key is bound to a message that is deleted. */
  ghost predicate Gone(db: Db, key: Key) {
    key in db.claims && db.claims[key] in db.messages && db.messages[db.claims[key]].status == Deleted
  }

  /** A transaction in flight, committed, or rolled back because the message its key is bound to is deleted. */
  ghost predicate Fares(db: Db, x: Txn) {
    x.phase.Done? && !x.phase.committed ==> Gone(db, x.request.key)
  }

  /** With a fresh id, a statement fails only where it fetches a deleted message. */
  lemma StatementFares(db: Db, log: seq<Response>, x: Txn, uuid: string, now: int)
    requires DbInv(db, log) && TxnInv(db, x) && uuid !in db.messages
    requires !x.phase.Committing? && !x.phase.Done?
    ensures Fares(db, Statement(db, x, uuid, now))
    ensures Statement(db, x, uuid, now).request == x.request
  {
    if x.phase.Inserting? {
      NoCollision(db, log, x, uuid);
    }
  }

  /** A commit in flight binds no key that is bound already and revives no message. */
  lemma CommitKeepsGone(db: Db, log: seq<Response>, x: Txn, key: Key)
    requires ClaimsInv(db, log) && MessagesInv(db, log) && TxnInv(db, x) && x.phase.Committing? && Gone(db, key)
    ensures Gone(Committed(db, x), key)
  {
    assert db.claims[key] != "";
  }

  /** Since `before`, every transaction unfinished then has kept its request and had none but those ends. */
  ghost predicate AllFare(s: State, before: seq<Txn>) {
    && |s.txns| == |before|
    && forall t :: 0 <= t < |before| && !before[t].phase.Done? ==>
         s.txns[t].request == before[t].request && Fares(s.db, s.txns[t])
  }

  lemma AdvanceFares(s: State, t: nat, uuid: string, now: int, before: seq<Txn>)
    requires Inv(s) && Enabled(s, Advance(t, uuid, now)) && uuid !in s.db.messages && AllFare(s, before)
    ensures AllFare(Next(s, Advance(t, uuid, now)), before)
  {
    var s' := Next(s, Advance(t, uuid, now));
    forall u | 0 <= u < |before| && !before[u].phase.Done?
      ensures s'.txns[u].request == before[u].request && Fares(s'.db, s'.txns[u])
    {
      OneFares(s, t, uuid, now, u);
    }
  }

  lemma OneFares(s: State, t: nat, uuid: string, now: int, u: nat)
    requires Inv(s) && Enabled(s, Advance(t, uuid, now)) && uuid !in s.db.messages
    requires u < |s.txns| && Fares(s.db, s.txns[u])
    ensures var s' := Next(s, Advance(t, uuid, now));
      s'.txns[u].request == s.txns[u].request && Fares(s'.db, s'.txns[u])
  {
    var x := s.txns[t];
    assert TxnInv(s.db, x);
    if !x.phase.Committing? {
      StatementFares(s.db, s.log, x, uuid, now);
    } else if s.txns[u].phase.Done? && !s.txns[u].phase.committed {
      CommitKeepsGone(s.db, s.log, x, s.txns[u].request.key);
    }
  }

  /** One more statement of some transaction, and less work left. */
  lemma OneMore(es: seq<Event>, t: nat, before: seq<Txn>) returns (e: Event)
    requires Exec(es).Some? && Unfinished(Exec(es).value.txns, t) && AllFare(Exec(es).value, before)
    ensures e.Advance? && Exec(es + [e]).Some? && AllFare(Exec(es + [e]).value, before)
    ensures Work(Exec(es + [e]).value.txns) < Work(Exec(es).value.txns)
  {
    RunKeeps(es);
    var s := Exec(es).value;
    var u := Runnable(s, t);
    var id := FreshId(s.db.messages.Keys);
    e := Advance(u, id, 0);
    ExecLast(es, e);
    AdvanceWorks(s, u, id, 0);
    AdvanceFares(s, u, id, 0, before);
  }

  lemma OneThenRest(es: seq<Event>, e: Event, rest: seq<Event>)
    ensures es + ([e] + rest) == es + [e] + rest
    ensures e.Advance? && OnlyAdvances(rest) ==> OnlyAdvances([e] + rest)
  {
  }

  lemma {:induction false} Finish(es: seq<Event>, before: seq<Txn>) returns (more: seq<Event>)
    requires Exec(es).Some? && AllFare(Exec(es).value, before)
    ensures OnlyAdvances(more) && Exec(es + more).Some?
    ensures Idle(Exec(es + more).value) && AllFare(Exec(es + more).value, before)
    decreases Work(Exec(es).value.txns)
  {
    if t: nat :| Unfinished(Exec(es).value.txns, t) {
      var e := OneMore(es, t, before);
      var rest := Finish(es + [e], before);
      more := [e] + rest;
      OneThenRest(es, e, rest);
    } else {
      more := [];
      assert es + more == es;
    }
  }

  /**
   Every reachable state has a continuation of plain statements, without any abort, in which every unfinished
   transaction commits, save those whose key is bound to a deleted message.
   */
  lemma RunsDry(es: seq<Event>) returns (more: seq<Event>)
    requires Exec(es).Some?
    ensures OnlyAdvances(more) && Exec(es + more).Some?
    ensures var s, s' := Exec(es).value, Exec(es + more).value;
      |s'.txns| == |s.txns| && forall t :: Unfinished(s.txns, t) ==>
        && s'.txns[t].request == s.txns[t].request && s'.txns[t].phase.Done?
        && (s'.txns[t].phase.committed || Gone(s'.db, s.txns[t].request.key))
  {
    var s := Exec(es).value;
    more := Finish(es, s.txns);
    var s' := Exec(es + more).value;
    forall t | Unfinished(s.txns, t) ensures s'.txns[t].phase.Done? {
      assert !Unfinished(s'.txns, t);
    }
  }
}
