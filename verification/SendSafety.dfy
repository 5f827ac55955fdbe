/** Safety of the send protocol over every run: one message per key, and dense sequence numbers. */
module SendSafety {
  import opened Base
  import opened MessageModel
  import opened SendProtocol

  // ---------- What a transaction knows at each phase ----------

  /** The transaction owns its key's row and the row is not bound to a message. */
  ghost predicate Unbound(db: Db, x: Txn) {
    var key := x.request.key;
    && x.holdsKey
    && (if x.claim.Some? then x.claim.value == "" && key !in db.claims
        else key in db.claims && db.claims[key] == "")
  }

  /** The transaction holds the sequence row at one above the committed value. */
  ghost predicate Bumped(db: Db, x: Txn) {
    x.counter == Some(Current(db, x.request.key.conversation) + 1)
  }

  /** The transaction's message is fully determined apart from its id, content and time. */
  ghost predicate Drafted(db: Db, x: Txn) {
    && Bumped(db, x)
    && x.message.Some?
    && var m := x.message.value;
    && m.id != "" && m.id !in db.messages
    && m.conversation == x.request.key.conversation && m.sender == x.request.key.sender
    && m.sequence == x.counter.value
  }

  /** `reply` is, up to storage, what the row bound to the key says now. */
  ghost predicate Answers(db: Db, key: Key, reply: Reply) {
    && key in db.claims && db.claims[key] == reply.id && reply.id != ""
    && reply.id in db.messages && ReplyOf(db.messages[reply.id]) == Restored(reply)
    && reply.sender == key.sender && reply.conversation == key.conversation
  }

  ghost predicate TxnInv(db: Db, x: Txn) {
    var key := x.request.key;
    match x.phase
    case Claiming => x.claim.None? && !x.holdsKey && x.counter.None? && x.message.None?
    case Locking =>
      && x.counter.None? && x.message.None?
      && (if x.claim.Some? then Unbound(db, x) else !x.holdsKey && key in db.claims)
    case Fetching(id) =>
      && x.claim.None? && x.counter.None? && x.message.None?
      && x.holdsKey && key in db.claims && db.claims[key] == id && id != ""
    case Probing => Unbound(db, x) && x.counter.None? && x.message.None?
    case Creating => Unbound(db, x) && x.counter.None? && x.message.None?
    case Bumping =>
      && Unbound(db, x) && x.message.None?
      && (if x.counter.Some? then x.counter.value == 0 && key.conversation !in db.counters
          else key.conversation in db.counters)
    case Reading => Unbound(db, x) && Bumped(db, x) && x.message.None?
    case Inserting(n) => Unbound(db, x) && Bumped(db, x) && n == x.counter.value && x.message.None?
    case Binding => Unbound(db, x) && Drafted(db, x)
    case Committing(reply, created) =>
      && x.holdsKey
      && (if created
          then && Drafted(db, x) && x.claim == Some(x.message.value.id) && reply == ReplyOf(x.message.value)
               && (key in db.claims ==> db.claims[key] == "")
          else && x.claim.None? && x.counter.None? && x.message.None?
               && Answers(db, key, reply) && reply == Restored(reply))
    case Done(_) => x.claim.None? && !x.holdsKey && x.counter.None? && x.message.None?
  }

  /** Locks exclude each other, and no two transactions in flight have inserted the same id. */
  ghost predicate Apart(x: Txn, y: Txn) {
    && (SameKey(x, y) ==> !(x.holdsKey && y.holdsKey))
    && (SameConversation(x, y) ==> !(x.counter.Some? && y.counter.Some?))
    && (x.message.Some? && y.message.Some? ==> x.message.value.id != y.message.value.id)
  }

  ghost predicate Exclusive(txns: seq<Txn>) {
    forall i, j :: 0 <= i < |txns| && 0 <= j < |txns| && i != j ==> Apart(txns[i], txns[j])
  }

  // ---------- What the committed tables and the response log say ----------

  function CreatedIds(log: seq<Response>): set<string> {
    if log == [] then {}
    else
      var last := log[|log| - 1];
      CreatedIds(log[..|log| - 1]) + if last.created then {last.reply.id} else {}
  }

  function CreatedKeys(log: seq<Response>): set<Key> {
    if log == [] then {}
    else
      var last := log[|log| - 1];
      CreatedKeys(log[..|log| - 1]) + if last.created then {last.key} else {}
  }

  /** The row bound to the key is a message of the key's sender and conversation, created under the key. */
  ghost predicate BoundRow(db: Db, log: seq<Response>, key: Key) {
    && key in db.claims && key in CreatedKeys(log)
    && db.claims[key] in db.messages
    && db.messages[db.claims[key]].sender == key.sender
    && db.messages[db.claims[key]].conversation == key.conversation
  }

  ghost predicate ClaimsInv(db: Db, log: seq<Response>) {
    forall key :: key in db.claims && db.claims[key] != "" ==> BoundRow(db, log, key)
  }

  ghost predicate MessagesInv(db: Db, log: seq<Response>) {
    && db.messages.Keys == CreatedIds(log)
    && forall id :: id in db.messages ==>
      && db.messages[id].id == id && id != ""
      && ReplyOf(db.messages[id]) == Restored(ReplyOf(db.messages[id]))
      && 1 <= db.messages[id].sequence <= Current(db, db.messages[id].conversation)
  }

  ghost predicate LogInv(db: Db, log: seq<Response>) {
    && (forall i :: 0 <= i < |log| ==> Answers(db, log[i].key, log[i].reply))
    && (forall i :: 0 <= i < |log| && !log[i].created ==> log[i].reply == Restored(log[i].reply))
    && (forall i, j :: 0 <= i < j < |log| && log[i].key == log[j].key ==> !log[j].created)
    && (forall i, j :: 0 <= i < j < |log| && log[i].created && log[j].created ==> log[i].reply.id != log[j].reply.id)
  }

  ghost predicate NumbersInv(db: Db, log: seq<Response>) {
    forall c :: Numbers(log, c) == UpTo(Current(db, c))
  }

  ghost predicate DbInv(db: Db, log: seq<Response>) {
    ClaimsInv(db, log) && MessagesInv(db, log) && LogInv(db, log) && NumbersInv(db, log)
  }

  ghost predicate TxnsInv(db: Db, txns: seq<Txn>) {
    forall i :: 0 <= i < |txns| ==> TxnInv(db, txns[i])
  }

  ghost predicate Inv(s: State) {
    DbInv(s.db, s.log) && TxnsInv(s.db, s.txns) && Exclusive(s.txns)
  }

  // ---------- One statement ----------

  /** In a state of the invariant, the allocated number is never one that a committed message has. */
  lemma NoCollision(db: Db, log: seq<Response>, x: Txn, uuid: string)
    requires DbInv(db, log) && TxnInv(db, x) && x.phase.Inserting?
    ensures Collides(db.messages, uuid, x.request.key.conversation, x.phase.sequence) <==> uuid in db.messages
  {
  }

  lemma StatementKeeps(db: Db, log: seq<Response>, x: Txn, uuid: string, now: int)
    requires DbInv(db, log) && TxnInv(db, x) && uuid != ""
    requires !x.phase.Committing? && !x.phase.Done?
    ensures TxnInv(db, Statement(db, x, uuid, now))
  {
  }

  /** A statement that did not have to wait for `y` acquires nothing that `y` holds. */
  lemma StatementApart(db: Db, x: Txn, y: Txn, uuid: string, now: int)
    requires TxnInv(db, x) && TxnInv(db, y) && Apart(x, y) && Apart(y, x)
    requires !x.phase.Committing? && !x.phase.Done? && !Waits(x, uuid, y)
    ensures Apart(Statement(db, x, uuid, now), y) && Apart(y, Statement(db, x, uuid, now))
  {
  }

  lemma ReplaceKeeps(db: Db, txns: seq<Txn>, t: nat, x: Txn)
    requires t < |txns| && TxnsInv(db, txns) && Exclusive(txns) && TxnInv(db, x)
    requires forall u :: 0 <= u < |txns| && u != t ==> Apart(x, txns[u]) && Apart(txns[u], x)
    ensures TxnsInv(db, txns[t := x]) && Exclusive(txns[t := x])
  {
  }

  lemma AdvanceKeeps(s: State, t: nat, uuid: string, now: int)
    requires Inv(s) && Enabled(s, Advance(t, uuid, now)) && !s.txns[t].phase.Committing?
    ensures Inv(Next(s, Advance(t, uuid, now)))
  {
    var x := s.txns[t];
    StatementKeeps(s.db, s.log, x, uuid, now);
    forall u | 0 <= u < |s.txns| && u != t
      ensures Apart(Statement(s.db, x, uuid, now), s.txns[u]) && Apart(s.txns[u], Statement(s.db, x, uuid, now))
    {
      StatementApart(s.db, x, s.txns[u], uuid, now);
    }
    ReplaceKeeps(s.db, s.txns, t, Statement(s.db, x, uuid, now));
  }

  // ---------- Commit ----------

  /** What every other transaction knows survives a commit. */
  lemma CommitKeepsOther(db: Db, x: Txn, y: Txn)
    requires TxnInv(db, x) && TxnInv(db, y) && Apart(x, y) && x.phase.Committing?
    ensures TxnInv(Committed(db, x), y)
  {
  }

  lemma CommitKeepsTxns(db: Db, txns: seq<Txn>, t: nat)
    requires t < |txns| && TxnsInv(db, txns) && Exclusive(txns) && txns[t].phase.Committing?
    ensures TxnsInv(Committed(db, txns[t]), txns[t := Ended(txns[t], true)])
  {
    forall u | 0 <= u < |txns| && u != t ensures TxnInv(Committed(db, txns[t]), txns[u]) {
      assert Apart(txns[t], txns[u]);
      CommitKeepsOther(db, txns[t], txns[u]);
    }
  }

  lemma LastOf<T>(s: seq<T>, x: T)
    ensures (s + [x])[..|s|] == s && (s + [x])[|s|] == x
  {
  }

  /** A hit changes no row and repeats the reply of the key's earlier responses. */
  lemma HitKeepsDb(db: Db, log: seq<Response>, x: Txn)
    requires DbInv(db, log) && TxnInv(db, x) && x.phase.Committing? && !x.phase.created
    ensures DbInv(Committed(db, x), log + [Response(x.request.key, x.phase.reply, false)])
  {
    var r := Response(x.request.key, x.phase.reply, false);
    assert Committed(db, x) == db;
    HitCreatesNothing(log, r);
    HitKeepsRows(db, log, r);
    HitKeepsLog(db, log, r);
    forall c ensures Numbers(log + [r], c) == Numbers(log, c) {
      NumbersLast(log, r, c);
    }
  }

  lemma HitCreatesNothing(log: seq<Response>, r: Response)
    requires !r.created
    ensures CreatedKeys(log + [r]) == CreatedKeys(log) && CreatedIds(log + [r]) == CreatedIds(log)
  {
    LastOf(log, r);
  }

  lemma HitKeepsRows(db: Db, log: seq<Response>, r: Response)
    requires ClaimsInv(db, log) && MessagesInv(db, log)
    requires CreatedKeys(log + [r]) == CreatedKeys(log) && CreatedIds(log + [r]) == CreatedIds(log)
    ensures ClaimsInv(db, log + [r]) && MessagesInv(db, log + [r])
  {
    forall key | key in db.claims && db.claims[key] != "" ensures BoundRow(db, log + [r], key) {
      assert BoundRow(db, log, key);
    }
  }

  lemma HitKeepsLog(db: Db, log: seq<Response>, r: Response)
    requires LogInv(db, log) && !r.created && Answers(db, r.key, r.reply) && r.reply == Restored(r.reply)
    ensures LogInv(db, log + [r])
  {
    var log' := log + [r];
    assert forall i :: 0 <= i < |log| ==> log'[i] == log[i];
  }

  /** The response a creating transaction is about to log. */
  function Creation(x: Txn): Response
    requires x.phase.Committing?
  {
    Response(x.request.key, x.phase.reply, true)
  }

  ghost predicate Creates(db: Db, x: Txn) {
    TxnInv(db, x) && x.phase.Committing? && x.phase.created
  }

  lemma UpToNext(n: nat)
    ensures UpTo(n + 1) == UpTo(n) + [n + 1]
  {
  }

  lemma NumbersLast(log: seq<Response>, r: Response, c: string)
    ensures Numbers(log + [r], c)
      == Numbers(log, c) + if r.created && r.key.conversation == c then [r.reply.sequence] else []
  {
    LastOf(log, r);
  }

  /** The created message's conversation counts one further; the others stand still. */
  lemma CreateCounts(db: Db, log: seq<Response>, x: Txn, c: string)
    requires Creates(db, x) && Numbers(log, c) == UpTo(Current(db, c))
    ensures Numbers(log + [Creation(x)], c) == UpTo(Current(Committed(db, x), c))
  {
    NumbersLast(log, Creation(x), c);
    if c == x.request.key.conversation {
      UpToNext(Current(db, c));
    } else {
      assert Current(Committed(db, x), c) == Current(db, c);
    }
  }

  lemma CreateKeepsAnswer(db: Db, log: seq<Response>, x: Txn, i: nat)
    requires Creates(db, x) && LogInv(db, log) && i < |log|
    ensures Answers(Committed(db, x), log[i].key, log[i].reply)
    ensures log[i].key != x.request.key && log[i].reply.id != x.phase.reply.id
  {
    assert Answers(db, log[i].key, log[i].reply);
  }

  lemma CreateAnswers(db: Db, log: seq<Response>, x: Txn)
    requires Creates(db, x) && LogInv(db, log)
    ensures LogInv(Committed(db, x), log + [Creation(x)])
  {
    forall i | 0 <= i < |log|
      ensures Answers(Committed(db, x), log[i].key, log[i].reply)
      ensures log[i].key != x.request.key && log[i].reply.id != x.phase.reply.id
    {
      CreateKeepsAnswer(db, log, x, i);
    }
    assert Answers(Committed(db, x), x.request.key, x.phase.reply);
    var log' := log + [Creation(x)];
    assert forall i :: 0 <= i < |log| ==> log'[i] == log[i];
    forall i, j | 0 <= i < j < |log'| && log'[i].created && log'[j].created
      ensures log'[i].reply.id != log'[j].reply.id
    {
    }
    forall i, j | 0 <= i < j < |log'| && log'[i].key == log'[j].key ensures !log'[j].created {
    }
  }

  lemma CreateKeepsClaim(db: Db, log: seq<Response>, x: Txn, key: Key)
    requires Creates(db, x) && BoundRow(db, log, key) && db.claims[key] != ""
    ensures BoundRow(Committed(db, x), log + [Creation(x)], key) && key != x.request.key
  {
    LastOf(log, Creation(x));
  }

  lemma CreateBinds(db: Db, log: seq<Response>, x: Txn)
    requires Creates(db, x)
    ensures BoundRow(Committed(db, x), log + [Creation(x)], x.request.key)
  {
    LastOf(log, Creation(x));
  }

  lemma CreateClaims(db: Db, log: seq<Response>, x: Txn)
    requires Creates(db, x) && ClaimsInv(db, log)
    ensures ClaimsInv(Committed(db, x), log + [Creation(x)])
  {
    CreateBinds(db, log, x);
    forall key | key in db.claims && db.claims[key] != ""
      ensures BoundRow(Committed(db, x), log + [Creation(x)], key)
    {
      CreateKeepsClaim(db, log, x, key);
    }
  }

  lemma CreateMessages(db: Db, log: seq<Response>, x: Txn)
    requires Creates(db, x) && MessagesInv(db, log)
    ensures MessagesInv(Committed(db, x), log + [Creation(x)])
  {
    LastOf(log, Creation(x));
    ReplyOfStored(x.message.value);
    assert forall c :: Current(db, c) <= Current(Committed(db, x), c);
  }

  /** A creation binds its key for the first time and takes the next number of its conversation. */
  lemma CreateKeepsDb(db: Db, log: seq<Response>, x: Txn)
    requires Creates(db, x) && DbInv(db, log)
    ensures DbInv(Committed(db, x), log + [Creation(x)])
  {
    CreateAnswers(db, log, x);
    CreateClaims(db, log, x);
    CreateMessages(db, log, x);
    forall c ensures Numbers(log + [Creation(x)], c) == UpTo(Current(Committed(db, x), c)) {
      CreateCounts(db, log, x, c);
    }
  }

  lemma EndKeepsApart(txns: seq<Txn>, t: nat)
    requires t < |txns| && Exclusive(txns)
    ensures Exclusive(txns[t := Ended(txns[t], true)])
  {
  }

  lemma CommitKeepsDb(db: Db, log: seq<Response>, x: Txn)
    requires DbInv(db, log) && TxnInv(db, x) && x.phase.Committing?
    ensures DbInv(Committed(db, x), log + [Response(x.request.key, x.phase.reply, x.phase.created)])
  {
    if x.phase.created {
      CreateKeepsDb(db, log, x);
    } else {
      HitKeepsDb(db, log, x);
    }
  }

  lemma CommitKeeps(s: State, t: nat, uuid: string, now: int)
    requires Inv(s) && Enabled(s, Advance(t, uuid, now)) && s.txns[t].phase.Committing?
    ensures Inv(Next(s, Advance(t, uuid, now)))
  {
    CommitKeepsTxns(s.db, s.txns, t);
    EndKeepsApart(s.txns, t);
    CommitKeepsDb(s.db, s.log, s.txns[t]);
  }

  // ---------- Updates from outside ----------

  function Disturbed(db: Db, op: TableOp): Db {
    db.(messages := Apply(db.messages, op))
  }

  lemma OutsideAnswers(db: Db, op: TableOp, key: Key, reply: Reply)
    requires Answers(db, key, reply)
    ensures Answers(Disturbed(db, op), key, reply)
  {
    ApplyEvolves(db.messages, op);
  }

  lemma OutsideKeepsTxn(db: Db, op: TableOp, x: Txn)
    requires TxnInv(db, x)
    ensures TxnInv(Disturbed(db, op), x)
  {
    ApplyEvolves(db.messages, op);
    if x.phase.Committing? && !x.phase.created {
      OutsideAnswers(db, op, x.request.key, x.phase.reply);
    }
  }

  lemma OutsideKeepsRows(db: Db, log: seq<Response>, op: TableOp)
    requires ClaimsInv(db, log) && MessagesInv(db, log)
    ensures ClaimsInv(Disturbed(db, op), log) && MessagesInv(Disturbed(db, op), log)
  {
    ApplyEvolves(db.messages, op);
  }

  lemma OutsideKeepsLog(db: Db, log: seq<Response>, op: TableOp)
    requires LogInv(db, log) && NumbersInv(db, log)
    ensures LogInv(Disturbed(db, op), log) && NumbersInv(Disturbed(db, op), log)
  {
    forall i | 0 <= i < |log| ensures Answers(Disturbed(db, op), log[i].key, log[i].reply) {
      OutsideAnswers(db, op, log[i].key, log[i].reply);
    }
    forall c ensures Current(Disturbed(db, op), c) == Current(db, c) {
    }
  }

  lemma OutsideKeepsTxns(db: Db, txns: seq<Txn>, op: TableOp)
    requires TxnsInv(db, txns)
    ensures TxnsInv(Disturbed(db, op), txns)
  {
    forall i | 0 <= i < |txns| ensures TxnInv(Disturbed(db, op), txns[i]) {
      OutsideKeepsTxn(db, op, txns[i]);
    }
  }

  lemma {:induction false} OutsideKeeps(s: State, op: TableOp)
    requires Inv(s)
    ensures Inv(Next(s, Outside(op)))
  {
    OutsideKeepsRows(s.db, s.log, op);
    OutsideKeepsLog(s.db, s.log, op);
    OutsideKeepsTxns(s.db, s.txns, op);
  }

  // ---------- Whole runs ----------

  lemma BeginKeeps(s: State, request: Request)
    requires Inv(s) && Enabled(s, Begin(request))
    ensures Inv(Next(s, Begin(request)))
  {
    var x := Txn(request, Claiming, None, false, None, None);
    assert forall i :: 0 <= i < |s.txns| ==> Apart(s.txns[i], x) && Apart(x, s.txns[i]);
  }

  lemma AbortKeeps(s: State, t: nat)
    requires Inv(s) && Enabled(s, Abort(t))
    ensures Inv(Next(s, Abort(t)))
  {
    ReplaceKeeps(s.db, s.txns, t, Ended(s.txns[t], false));
  }

  lemma NextKeeps(s: State, e: Event)
    requires Inv(s) && Enabled(s, e)
    ensures Inv(Next(s, e))
  {
    match e
    case Begin(request) => BeginKeeps(s, request);
    case Advance(t, uuid, now) =>
      if s.txns[t].phase.Committing? {
        CommitKeeps(s, t, uuid, now);
      } else {
        AdvanceKeeps(s, t, uuid, now);
      }
    case Abort(t) => AbortKeeps(s, t);
    case Outside(op) => OutsideKeeps(s, op);
  }

  lemma {:induction false} RunKeeps(es: seq<Event>)
    requires Exec(es).Some?
    ensures Inv(Exec(es).value)
  {
    if es == [] {
      assert forall c :: Numbers([], c) == UpTo(0);
    } else {
      RunKeeps(es[..|es| - 1]);
      NextKeeps(Exec(es[..|es| - 1]).value, es[|es| - 1]);
    }
  }

  // ---------- Results ----------

  /** Some response up to position `j` created the message of that position's key. */
  ghost predicate CreatedBy(log: seq<Response>, j: nat)
    requires j < |log|
  {
    exists i :: 0 <= i <= j && log[i].key == log[j].key && log[i].created
  }

  /** Some response created the row with this reply. */
  ghost predicate HasCreator(log: seq<Response>, reply: Reply) {
    exists i :: 0 <= i < |log| && log[i].created && Restored(log[i].reply) == reply
  }

  /**
   All successful responses for a key agree up to what storing a message changes, and all but the first are
   equal to the last bit and to what the row still says; the first of them and no other created something, and
   every message row was created by exactly one response.
   */
  ghost predicate Idempotent(s: State) {
    && (forall i, j :: 0 <= i < |s.log| && 0 <= j < |s.log| && s.log[i].key == s.log[j].key ==>
          Restored(s.log[i].reply) == Restored(s.log[j].reply))
    && (forall j :: 0 <= j < |s.log| && !s.log[j].created ==> Repeats(s, j))
    && (forall i, j :: 0 <= i < j < |s.log| && s.log[i].key == s.log[j].key ==> !s.log[j].created)
    && (forall j :: 0 <= j < |s.log| ==> CreatedBy(s.log, j))
    && (forall id :: id in s.db.messages ==> HasCreator(s.log, ReplyOf(s.db.messages[id])))
    && (forall i, j :: 0 <= i < j < |s.log| && s.log[i].created && s.log[j].created ==>
          s.log[i].reply.id != s.log[j].reply.id)
  }

  /** The response is word for word the row as it is now. */
  ghost predicate Repeats(s: State, j: nat)
    requires j < |s.log|
  {
    s.log[j].reply.id in s.db.messages && s.log[j].reply == ReplyOf(s.db.messages[s.log[j].reply.id])
  }

  ghost predicate Carries(t: Table, id: string, c: string, n: int) {
    id in t && t[id].conversation == c && t[id].sequence == n
  }

  ghost predicate InUse(t: Table, c: string, n: int) {
    exists id :: Carries(t, id, c, n)
  }

  /**
   The committed messages of a conversation, whatever their status, carry exactly the numbers from 1 to the
   counter, each once, and became visible in that order.
   */
  ghost predicate Dense(s: State, c: string) {
    && Numbers(s.log, c) == UpTo(Current(s.db, c))
    && (forall n: int :: InUse(s.db.messages, c, n) <==> 1 <= n <= Current(s.db, c))
    && (forall id, id', n :: Carries(s.db.messages, id, c, n) && Carries(s.db.messages, id', c, n) ==> id == id')
  }

  lemma {:induction false} CreatorOf(log: seq<Response>, id: string) returns (i: nat)
    requires id in CreatedIds(log)
    ensures i < |log| && log[i].created && log[i].reply.id == id
  {
    i := |log| - 1;
    if !(log[i].created && log[i].reply.id == id) {
      i := CreatorOf(log[..i], id);
    }
  }

  lemma {:induction false} FirstOf(log: seq<Response>, key: Key) returns (i: nat)
    requires key in CreatedKeys(log)
    ensures i < |log| && log[i].created && log[i].key == key
  {
    i := |log| - 1;
    if !(log[i].created && log[i].key == key) {
      i := FirstOf(log[..i], key);
    }
  }

  lemma FirstCreated(s: State, j: nat)
    requires Inv(s) && j < |s.log|
    ensures CreatedBy(s.log, j)
  {
    assert Answers(s.db, s.log[j].key, s.log[j].reply);
    var i := FirstOf(s.log, s.log[j].key);
    assert !(j < i);
  }

  lemma RowCreated(s: State, id: string)
    requires Inv(s) && id in s.db.messages
    ensures HasCreator(s.log, ReplyOf(s.db.messages[id]))
  {
    var i := CreatorOf(s.log, id);
    assert Answers(s.db, s.log[i].key, s.log[i].reply);
  }

  lemma OneReplyPerKey(s: State, i: nat, j: nat)
    requires Inv(s) && i < |s.log| && j < |s.log| && s.log[i].key == s.log[j].key
    ensures Restored(s.log[i].reply) == Restored(s.log[j].reply)
  {
    assert Answers(s.db, s.log[i].key, s.log[i].reply) && Answers(s.db, s.log[j].key, s.log[j].reply);
  }

  /** In every interleaving of sends, retries, aborts and outside updates. */
  lemma {:induction false} SendIdempotent(es: seq<Event>)
    requires Exec(es).Some?
    ensures Idempotent(Exec(es).value)
  {
    RunKeeps(es);
    var s := Exec(es).value;
    forall i, j | 0 <= i < |s.log| && 0 <= j < |s.log| && s.log[i].key == s.log[j].key
      ensures Restored(s.log[i].reply) == Restored(s.log[j].reply)
    {
      OneReplyPerKey(s, i, j);
    }
    forall j | 0 <= j < |s.log| && !s.log[j].created ensures Repeats(s, j) {
      assert Answers(s.db, s.log[j].key, s.log[j].reply);
    }
    forall j | 0 <= j < |s.log| ensures CreatedBy(s.log, j) {
      FirstCreated(s, j);
    }
    forall id | id in s.db.messages ensures HasCreator(s.log, ReplyOf(s.db.messages[id])) {
      RowCreated(s, id);
    }
  }

  /** The position in the log of the n-th number of a conversation. */
  lemma {:induction false} HolderOf(log: seq<Response>, c: string, k: nat) returns (i: nat)
    requires k < |Numbers(log, c)|
    ensures i < |log| && log[i].created && log[i].key.conversation == c
    ensures log[i].reply.sequence == Numbers(log, c)[k]
    ensures k == |Numbers(log[..i], c)|
  {
    i := |log| - 1;
    if k < |Numbers(log[..i], c)| {
      var j := HolderOf(log[..i], c, k);
      assert log[..i][..j] == log[..j];
      i := j;
    }
  }

  lemma {:induction false} NumberAt(log: seq<Response>, c: string, i: nat)
    requires i < |log| && log[i].created && log[i].key.conversation == c
    ensures |Numbers(log[..i], c)| < |Numbers(log, c)|
    ensures Numbers(log, c)[|Numbers(log[..i], c)|] == log[i].reply.sequence
    ensures forall j :: i < j < |log| ==> |Numbers(log[..i], c)| < |Numbers(log[..j], c)|
  {
    var last := |log| - 1;
    if i < last {
      NumberAt(log[..last], c, i);
      assert log[..last][..i] == log[..i];
      assert forall j :: 0 <= j < last ==> log[..last][..j] == log[..j];
    }
  }

  /** Two creations in one conversation with one number are the same log entry. */
  lemma SameNumberSameRow(s: State, c: string, i: nat, j: nat)
    requires Inv(s) && i < |s.log| && j < |s.log| && s.log[i].created && s.log[j].created
    requires s.log[i].reply.sequence == s.log[j].reply.sequence
    requires s.log[i].key.conversation == c && s.log[j].key.conversation == c
    ensures i == j
  {
    NumberAt(s.log, c, i);
    NumberAt(s.log, c, j);
    assert Numbers(s.log, c) == UpTo(Current(s.db, c));
  }

  lemma NumberInUse(s: State, c: string, n: int)
    requires Inv(s) && 1 <= n <= Current(s.db, c)
    ensures InUse(s.db.messages, c, n)
  {
    assert Numbers(s.log, c) == UpTo(Current(s.db, c));
    var i := HolderOf(s.log, c, n - 1);
    assert Answers(s.db, s.log[i].key, s.log[i].reply);
    assert Carries(s.db.messages, s.log[i].reply.id, c, n);
  }

  lemma OneRowPerNumber(s: State, c: string, id: string, id': string, n: int)
    requires Inv(s) && Carries(s.db.messages, id, c, n) && Carries(s.db.messages, id', c, n)
    ensures id == id'
  {
    var i := CreatorOf(s.log, id);
    var j := CreatorOf(s.log, id');
    assert Answers(s.db, s.log[i].key, s.log[i].reply) && Answers(s.db, s.log[j].key, s.log[j].reply);
    SameNumberSameRow(s, c, i, j);
  }

  /** In every interleaving of sends, retries, aborts and outside updates. */
  lemma SendDense(es: seq<Event>, c: string)
    requires Exec(es).Some?
    ensures Dense(Exec(es).value, c)
  {
    RunKeeps(es);
    var s := Exec(es).value;
    forall n: int ensures InUse(s.db.messages, c, n) <==> 1 <= n <= Current(s.db, c) {
      if 1 <= n <= Current(s.db, c) {
        NumberInUse(s, c, n);
      }
    }
    forall id, id', n | Carries(s.db.messages, id, c, n) && Carries(s.db.messages, id', c, n) ensures id == id' {
      OneRowPerNumber(s, c, id, id', n);
    }
  }
}
