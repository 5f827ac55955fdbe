/**
 Concurrent SendMessage transactions as a state machine over Postgres READ COMMITTED tables.

 Each unfinished call is a transaction that executes one SQL statement per step. A statement reads
 committed rows plus the transaction's own writes, waits while another transaction in flight holds what it
 needs, and may be interleaved with the statements of any other transaction, with aborts, with retries of
 the same key and with every other update of the message table.
 */
module SendProtocol {
  import opened Base
  import opened MessageModel

  /** The unique key of an idempotency row. */
  datatype Key = Key(sender: string, conversation: string, localId: string)

  datatype Request = Request(key: Key, content: Content, policy: Policy)

  /** The statement a transaction executes next. */
  datatype Phase =
    | Claiming                                  // INSERT idempotency row ON CONFLICT DO NOTHING
    | Locking                                   // SELECT idempotency row FOR UPDATE
    | Fetching(id: string)                      // SELECT the message the row is bound to
    | Probing                                   // SELECT sequence row
    | Creating                                  // INSERT sequence row ON CONFLICT DO NOTHING
    | Bumping                                   // UPDATE current_seq = current_seq + 1
    | Reading                                   // SELECT current_seq
    | Inserting(sequence: nat)                  // INSERT message
    | Binding                                   // UPDATE idempotency row with the message id
    | Committing(reply: Reply, created: bool)   // COMMIT
    | Done(committed: bool)                     // committed or rolled back

  /**
   `claim` and `counter` are the transaction's uncommitted versions of its idempotency row and sequence row;
   a version carries the row's lock. `holdsKey` is the lock on the idempotency row, which FOR UPDATE takes
   without writing a version.
   */
  datatype Txn = Txn(request: Request, phase: Phase, claim: Option<string>, holdsKey: bool,
                     counter: Option<nat>, message: Option<Message>)

  /** Committed rows. An idempotency row holds "" until it is bound to a message id. */
  datatype Db = Db(claims: map<Key, string>, counters: map<string, nat>, messages: Table)

  /** A successful response; `created` tells an insert from an idempotency hit. */
  datatype Response = Response(key: Key, reply: Reply, created: bool)

  /** `log` lists the successful responses in commit order. */
  datatype State = State(db: Db, txns: seq<Txn>, log: seq<Response>)

  datatype Event =
    | Begin(request: Request)
    | Advance(t: nat, uuid: string, now: int)
    | Abort(t: nat)
    | Outside(op: TableOp)

  const INITIAL: State := State(Db(map[], map[], map[]), [], [])

  /** The committed value of a conversation's counter; an absent row counts as 0. */
  function Current(db: Db, conversation: string): nat {
    if conversation in db.counters then db.counters[conversation] else 0
  }

  predicate SameKey(x: Txn, y: Txn) { x.request.key == y.request.key }

  predicate SameConversation(x: Txn, y: Txn) { x.request.key.conversation == y.request.key.conversation }

  /** Whether the next statement of `x` must wait for the end of transaction `y`. */
  predicate Waits(x: Txn, uuid: string, y: Txn) {
    match x.phase
    case Claiming => y.claim.Some? && SameKey(x, y)
    case Locking => y.holdsKey && SameKey(x, y)
    case Binding => y.holdsKey && SameKey(x, y)
    case Creating => y.counter.Some? && SameConversation(x, y)
    case Bumping => y.counter.Some? && SameConversation(x, y)
    case Inserting(n) =>
      && y.message.Some?
      && (y.message.value.id == uuid || (SameConversation(x, y) && y.message.value.sequence == n))
    case _ => false
  }

  predicate Blocked(txns: seq<Txn>, t: nat, uuid: string)
    requires t < |txns|
  {
    exists u :: 0 <= u < |txns| && u != t && Waits(txns[t], uuid, txns[u])
  }

  function Ended(x: Txn, committed: bool): Txn {
    x.(phase := Done(committed), claim := None, holdsKey := false, counter := None, message := None)
  }

  /** Unique constraints of the message table: message_id, and (conversation_id, sequence). */
  predicate Collides(t: Table, uuid: string, conversation: string, n: nat) {
    uuid in t || exists id :: id in t && t[id].conversation == conversation && t[id].sequence == n
  }

  /** The transaction after its next statement; a statement that errors rolls the transaction back. */
  function Statement(db: Db, x: Txn, uuid: string, now: int): Txn
    requires !x.phase.Committing? && !x.phase.Done?
  {
    var key := x.request.key;
    var conversation := key.conversation;
    match x.phase
    case Claiming =>
      if key in db.claims then x.(phase := Locking)
      else x.(phase := Locking, claim := Some(""), holdsKey := true)
    case Locking =>
      if x.claim.None? && key !in db.claims then Ended(x, false)
      else
        var bound := if x.claim.Some? then x.claim.value else db.claims[key];
        x.(phase := if bound != "" then Fetching(bound) else Probing, holdsKey := true)
    case Fetching(id) =>
      if id in db.messages && db.messages[id].status != Deleted
      then x.(phase := Committing(ReplyOf(db.messages[id]), false))
      else Ended(x, false)
    case Probing =>
      x.(phase := if conversation in db.counters then Bumping else Creating)
    case Creating =>
      if conversation in db.counters then x.(phase := Bumping)
      else x.(phase := Bumping, counter := Some(0))
    case Bumping =>
      if x.counter.Some? then x.(phase := Reading, counter := Some(x.counter.value + 1))
      else if conversation in db.counters then x.(phase := Reading, counter := Some(db.counters[conversation] + 1))
      else x.(phase := Reading)
    case Reading =>
      if x.counter.Some? then x.(phase := Inserting(x.counter.value))
      else if conversation in db.counters then x.(phase := Inserting(db.counters[conversation]))
      else Ended(x, false)
    case Inserting(n) =>
      if Collides(db.messages, uuid, conversation, n) then Ended(x, false)
      else x.(phase := Binding,
              message := Some(Compose(uuid, conversation, key.sender, x.request.content, n, now, x.request.policy)))
    case Binding =>
      if x.message.None? then Ended(x, false)
      else x.(phase := Committing(ReplyOf(x.message.value), true), claim := Some(x.message.value.id), holdsKey := true)
  }

  /** Committing publishes every row version the transaction wrote; the message is published as its columns hold it. */
  function Committed(db: Db, x: Txn): Db {
    var key := x.request.key;
    Db(if x.claim.Some? then db.claims[key := x.claim.value] else db.claims,
       if x.counter.Some? then db.counters[key.conversation := x.counter.value] else db.counters,
       if x.message.Some? then db.messages[x.message.value.id := Stored(x.message.value)] else db.messages)
  }

  predicate Enabled(s: State, e: Event) {
    match e
    case Begin(request) => request.key.localId != ""
    case Advance(t, uuid, _) => t < |s.txns| && !s.txns[t].phase.Done? && uuid != "" && !Blocked(s.txns, t, uuid)
    case Abort(t) => t < |s.txns| && !s.txns[t].phase.Done?
    case Outside(_) => true
  }

  function Next(s: State, e: Event): State
    requires Enabled(s, e)
  {
    match e
    case Begin(request) => s.(txns := s.txns + [Txn(request, Claiming, None, false, None, None)])
    case Advance(t, uuid, now) =>
      var x := s.txns[t];
      if x.phase.Committing? then
        State(Committed(s.db, x), s.txns[t := Ended(x, true)],
              s.log + [Response(x.request.key, x.phase.reply, x.phase.created)])
      else s.(txns := s.txns[t := Statement(s.db, x, uuid, now)])
    case Abort(t) => s.(txns := s.txns[t := Ended(s.txns[t], false)])
    case Outside(op) => s.(db := s.db.(messages := Apply(s.db.messages, op)))
  }

  /** The state after a run, or None when some event was not enabled. */
  function Exec(es: seq<Event>): Option<State> {
    if es == [] then Some(INITIAL)
    else
      var last := |es| - 1;
      var before := Exec(es[..last]);
      if before.Some? && Enabled(before.value, es[last]) then Some(Next(before.value, es[last])) else None
  }

  /** The sequence numbers of a conversation's messages, in the order in which they became visible. */
  function Numbers(log: seq<Response>, conversation: string): seq<int> {
    if log == [] then []
    else
      var last := log[|log| - 1];
      Numbers(log[..|log| - 1], conversation)
      + if last.created && last.key.conversation == conversation then [last.reply.sequence] else []
  }

  function UpTo(n: nat): seq<int> {
    seq(n, i => i + 1)
  }
}
