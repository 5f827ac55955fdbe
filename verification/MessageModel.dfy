/** Message rows, the wire reply built from them, and the row updates made outside the send transaction. */
module MessageModel {
  import opened Base

  /** Message status column: 0 normal, 1 recalled, 2 deleted. */
  datatype Status = Normal | Recalled | Deleted

  /** Conversation settings copied into a message when it is sent, in seconds; 0 or less disables a policy. */
  datatype Policy = Policy(autoDelete: int, burn: int)

  /** Business errors of the message service. */
  datatype ServiceError =
    | ParamError | ConversationNotFound | MessageNotFound | PermissionDenied | RecallTimeLimit | PublishFailed

  /** JSON text: the value it denotes, and the spelling (spacing, key order, repeated keys) that jsonb drops. */
  datatype Content = Content(value: string, spelling: string)

  datatype Message = Message(
    id: string, conversation: string, sender: string, content: Content, sequence: int,
    status: Status, createdAt: int,
    burnSeconds: int, autoExpire: Option<int>, burnExpire: Option<int>, expire: Option<int>)

  type Table = map<string, Message>

  const RECALL_LIMIT: int := 120 * SECOND

  /** The message a send builds in memory. */
  function Compose(id: string, conversation: string, sender: string, content: Content, sequence: int,
                   now: int, policy: Policy): Message
  {
    var auto := if policy.autoDelete > 0 then Some(now + policy.autoDelete * SECOND) else None;
    Message(id, conversation, sender, content, sequence, Normal, now,
            if policy.burn > 0 then policy.burn else 0, auto, None, auto)
  }

  /** The message as a client sees it in a response. */
  datatype Reply = Reply(
    id: string, conversation: string, sender: string, content: Content, sequence: int, createdAt: int)

  function ReplyOf(m: Message): Reply {
    Reply(m.id, m.conversation, m.sender, m.content, m.sequence, m.createdAt)
  }

  // ---------- What storing a message changes ----------

  /** Timestamp columns hold whole microseconds. */
  const MICROSECOND: int := 1_000

  function Micros(t: int): int { t / MICROSECOND * MICROSECOND }

  function MicrosOf(t: Option<int>): Option<int> { if t.Some? then Some(Micros(t.value)) else None }

  function StoredContent(c: Content): Content { c.(spelling := "") }

  /** The row that is read back after a message was inserted. */
  function Stored(m: Message): Message {
    m.(content := StoredContent(m.content), createdAt := Micros(m.createdAt),
       autoExpire := MicrosOf(m.autoExpire), burnExpire := MicrosOf(m.burnExpire), expire := MicrosOf(m.expire))
  }

  /** A reply as it would be built from the stored row. */
  function Restored(r: Reply): Reply {
    r.(content := StoredContent(r.content), createdAt := Micros(r.createdAt))
  }

  lemma ReplyOfStored(m: Message)
    ensures ReplyOf(Stored(m)) == Restored(ReplyOf(m)) && Stored(Stored(m)) == Stored(m)
    ensures Restored(Restored(ReplyOf(m))) == Restored(ReplyOf(m))
  {
  }

  // ---------- Row updates ----------

  /** Row updates made by the other operations on the message table, each one atomic. */
  datatype TableOp =
    | Recall(id: string, user: string, now: int)
    | Delete(id: string, user: string)
    | Ack(user: string, ids: set<string>, now: int)
    | Sweep(ids: set<string>)

  predicate Burnable(m: Message, user: string) {
    m.status == Normal && m.burnSeconds > 0 && m.sender != user
  }

  function Earlier(a: Option<int>, b: Option<int>): (r: Option<int>) {
    match (a, b)
    case (Some(x), Some(y)) => if x < y then a else b
    case (Some(_), None) => a
    case (None, _) => b
  }

  /** A burn-after-reading acknowledgement at `now`: both deadlines only move when the new one is strictly earlier. */
  function Ignite(m: Message, now: int): Message {
    var burn := now + m.burnSeconds * SECOND;
    var final := if m.autoExpire.Some? && m.autoExpire.value < burn then m.autoExpire.value else burn;
    m.(burnExpire := if m.burnExpire.None? || burn < m.burnExpire.value then Some(Micros(burn)) else m.burnExpire,
       expire := if m.expire.None? || final < m.expire.value then Some(Micros(final)) else m.expire)
  }

  function Apply(t: Table, op: TableOp): Table {
    match op
    case Recall(id, user, now) =>
      if id in t && t[id].status != Deleted && t[id].sender == user && now - t[id].createdAt <= RECALL_LIMIT
      then t[id := t[id].(status := Recalled)] else t
    case Delete(id, user) =>
      if id in t && t[id].status != Deleted && t[id].sender == user
      then t[id := t[id].(status := Deleted)] else t
    case Ack(user, ids, now) =>
      map id | id in t :: if id in ids && Burnable(t[id], user) then Ignite(t[id], now) else t[id]
    case Sweep(ids) =>
      map id | id in t :: if id in ids then t[id].(status := Deleted) else t[id]
  }

  /** What no row update changes, and the one direction in which status moves. */
  ghost predicate Evolves(m: Message, m': Message) {
    && ReplyOf(m') == ReplyOf(m)
    && m'.burnSeconds == m.burnSeconds && m'.autoExpire == m.autoExpire
    && (m'.status == Normal ==> m.status == Normal)
    && (m.status == Deleted ==> m'.status == Deleted)
  }

  lemma ApplyEvolves(t: Table, op: TableOp)
    ensures Apply(t, op).Keys == t.Keys
    ensures forall id :: id in t ==> Evolves(t[id], Apply(t, op)[id])
  {
  }
}
