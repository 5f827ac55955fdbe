/** A created message carries the content, sender and policies of its own request, and the clock of its insert. */
module SendContent {
  import opened Base
  import opened MessageModel
  import opened SendProtocol
  import opened SendSafety

  /** A timestamp column's value for a time. */
  function Whole(t: int): int { t / 1_000 * 1_000 }

  /** A policy's deadline in seconds after `now`; 0 or less is no deadline. */
  function Deadline(now: int, seconds: int): Option<int> {
    if seconds > 0 then Some(now + seconds * 1_000_000_000) else None
  }

  /** The message in memory is what the request asks for at time `now`. */
  ghost predicate Drafts(q: Request, now: int, m: Message) {
    && m.sender == q.key.sender && m.conversation == q.key.conversation && m.content == q.content
    && m.createdAt == now && m.status == Normal
    && m.burnSeconds == (if q.policy.burn > 0 then q.policy.burn else 0)
    && m.autoExpire == Deadline(now, q.policy.autoDelete)
  }

  /** The reply shows the request as it was made, and the row holds it as its columns do. */
  ghost predicate Reflects(q: Request, now: int, r: Response, row: Message) {
    && r.key == q.key
    && r.reply == Reply(row.id, q.key.conversation, q.key.sender, q.content, row.sequence, now)
    && row.sender == q.key.sender && row.conversation == q.key.conversation
    && row.content == Content(q.content.value, "") && row.createdAt == Whole(now)
    && row.burnSeconds == (if q.policy.burn > 0 then q.policy.burn else 0)
    && (if q.policy.autoDelete > 0
        then row.autoExpire == Some(Whole(now + q.policy.autoDelete * 1_000_000_000))
        else row.autoExpire == None)
  }

  /** Event `k` is the insert of transaction `t`. */
  ghost predicate Inserts(es: seq<Event>, t: nat, k: nat) {
    && k < |es| && es[k].Advance? && es[k].t == t
    && Exec(es[..k]).Some? && t < |Exec(es[..k]).value.txns| && Exec(es[..k]).value.txns[t].phase.Inserting?
  }

  lemma InsertsLater(es: seq<Event>, e: Event, t: nat, k: nat)
    requires Inserts(es, t, k)
    ensures Inserts(es + [e], t, k) && (es + [e])[k] == es[k]
  {
    assert (es + [e])[..k] == es[..k];
  }

  /** The transaction's message was drafted from its request by its insert. */
  ghost predicate DraftedAt(es: seq<Event>, x: Txn, t: nat, k: nat) {
    && x.message.Some? && Inserts(es, t, k)
    && es[k].uuid == x.message.value.id && Drafts(x.request, es[k].now, x.message.value)
  }

  /** The response was created by transaction `t`, whose insert was event `k`. */
  ghost predicate CreatedAt(es: seq<Event>, s: State, r: Response, t: nat, k: nat) {
    && Inserts(es, t, k) && t < |s.txns| && r.reply.id in s.db.messages && es[k].uuid == r.reply.id
    && Reflects(s.txns[t].request, es[k].now, r, s.db.messages[r.reply.id])
  }

  ghost predicate TxnTold(es: seq<Event>, s: State, t: nat)
    requires t < |s.txns|
  {
    s.txns[t].message.Some? ==> exists k: nat :: DraftedAt(es, s.txns[t], t, k)
  }

  ghost predicate ResponseTold(es: seq<Event>, s: State, i: nat)
    requires i < |s.log|
  {
    s.log[i].created ==> exists t: nat, k: nat :: CreatedAt(es, s, s.log[i], t, k)
  }

  // ---------- One event ----------

  /** A statement keeps the request, and drafts a message only when it inserts one. */
  lemma StatementDrafts(db: Db, x: Txn, uuid: string, now: int)
    requires !x.phase.Committing? && !x.phase.Done?
    ensures var x' := Statement(db, x, uuid, now);
      && x'.request == x.request
      && (x'.message.Some? && x.message != x'.message ==>
            x.phase.Inserting? && x'.message.value.id == uuid && Drafts(x.request, now, x'.message.value))
  {
  }

  lemma NextRequest(s: State, e: Event, t: nat)
    requires Enabled(s, e) && t < |s.txns|
    ensures t < |Next(s, e).txns| && Next(s, e).txns[t].request == s.txns[t].request
  {
    if e.Advance? && !s.txns[e.t].phase.Committing? {
      StatementDrafts(s.db, s.txns[e.t], e.uuid, e.now);
    }
  }

  lemma NextTxnTold(es: seq<Event>, e: Event, t: nat)
    requires Exec(es).Some? && Enabled(Exec(es).value, e) && t < |Next(Exec(es).value, e).txns|
    requires t < |Exec(es).value.txns| ==> TxnTold(es, Exec(es).value, t)
    ensures TxnTold(es + [e], Next(Exec(es).value, e), t)
  {
    var s, s' := Exec(es).value, Next(Exec(es).value, e);
    if s'.txns[t].message.Some? {
      if e.Advance? && e.t == t && s.txns[t].message != s'.txns[t].message {
        StatementDrafts(s.db, s.txns[t], e.uuid, e.now);
        assert (es + [e])[..|es|] == es;
        assert DraftedAt(es + [e], s'.txns[t], t, |es|);
      } else {
        NextRequest(s, e, t);
        var k: nat :| DraftedAt(es, s.txns[t], t, k);
        InsertsLater(es, e, t, k);
        assert DraftedAt(es + [e], s'.txns[t], t, k);
      }
    }
  }

  /** A row keeps what its creating response carries. */
  lemma NextReflects(s: State, e: Event, q: Request, now: int, r: Response)
    requires Inv(s) && Enabled(s, e) && r.reply.id in s.db.messages
    requires Reflects(q, now, r, s.db.messages[r.reply.id])
    ensures r.reply.id in Next(s, e).db.messages && Reflects(q, now, r, Next(s, e).db.messages[r.reply.id])
  {
    match e
    case Outside(op) => ApplyEvolves(s.db.messages, op);
    case Advance(t, _, _) => assert TxnInv(s.db, s.txns[t]);
    case _ =>
  }

  lemma CreatedLater(es: seq<Event>, e: Event, r: Response, t: nat, k: nat)
    requires Exec(es).Some? && Inv(Exec(es).value) && Enabled(Exec(es).value, e)
    requires CreatedAt(es, Exec(es).value, r, t, k)
    ensures CreatedAt(es + [e], Next(Exec(es).value, e), r, t, k)
  {
    var s := Exec(es).value;
    InsertsLater(es, e, t, k);
    NextRequest(s, e, t);
    NextReflects(s, e, s.txns[t].request, es[k].now, r);
  }

  lemma NextLog(s: State, e: Event)
    requires Enabled(s, e)
    ensures s.log <= Next(s, e).log && |Next(s, e).log| <= |s.log| + 1
    ensures |s.log| < |Next(s, e).log| ==> e.Advance? && s.txns[e.t].phase.Committing?
  {
  }

  lemma OldResponseTold(es: seq<Event>, e: Event, i: nat)
    requires Exec(es).Some? && Inv(Exec(es).value) && Enabled(Exec(es).value, e)
    requires i < |Exec(es).value.log| && ResponseTold(es, Exec(es).value, i)
    ensures i < |Next(Exec(es).value, e).log| && ResponseTold(es + [e], Next(Exec(es).value, e), i)
  {
    var s, s' := Exec(es).value, Next(Exec(es).value, e);
    NextLog(s, e);
    assert s'.log[i] == s.log[i];
    if s.log[i].created {
      var t: nat, k: nat :| CreatedAt(es, s, s.log[i], t, k);
      CreatedLater(es, e, s.log[i], t, k);
    }
  }

  /** The row a commit publishes carries what its transaction drafted. */
  lemma CommitReflects(db: Db, x: Txn, now: int)
    requires Creates(db, x) && Drafts(x.request, now, x.message.value)
    ensures var id := x.phase.reply.id;
      id in Committed(db, x).messages && Reflects(x.request, now, Creation(x), Committed(db, x).messages[id])
  {
  }

  lemma NewResponseTold(es: seq<Event>, e: Event)
    requires Exec(es).Some? && Inv(Exec(es).value) && Enabled(Exec(es).value, e)
    requires e.Advance? && Exec(es).value.txns[e.t].phase.Committing? && TxnTold(es, Exec(es).value, e.t)
    ensures var s' := Next(Exec(es).value, e); ResponseTold(es + [e], s', |s'.log| - 1)
  {
    var s, s' := Exec(es).value, Next(Exec(es).value, e);
    var x := s.txns[e.t];
    assert TxnInv(s.db, x);
    if x.phase.created {
      var k: nat :| DraftedAt(es, x, e.t, k);
      InsertsLater(es, e, e.t, k);
      CommitReflects(s.db, x, es[k].now);
      assert CreatedAt(es + [e], s', s'.log[|s.log|], e.t, k);
    }
  }

  // ---------- Whole runs ----------

  lemma {:induction false} RunTxnTold(es: seq<Event>, t: nat)
    requires Exec(es).Some? && t < |Exec(es).value.txns|
    ensures TxnTold(es, Exec(es).value, t)
  {
    if es != [] {
      var before, e := es[..|es| - 1], es[|es| - 1];
      assert es == before + [e];
      if t < |Exec(before).value.txns| {
        RunTxnTold(before, t);
      }
      NextTxnTold(before, e, t);
    }
  }

  lemma {:induction false} RunResponseTold(es: seq<Event>, i: nat)
    requires Exec(es).Some? && i < |Exec(es).value.log|
    ensures ResponseTold(es, Exec(es).value, i)
  {
    if es != [] {
      var before, e := es[..|es| - 1], es[|es| - 1];
      assert es == before + [e];
      RunKeeps(before);
      var s := Exec(before).value;
      if i < |s.log| {
        RunResponseTold(before, i);
        OldResponseTold(before, e, i);
      } else {
        NextLog(s, e);
        RunTxnTold(before, e.t);
        NewResponseTold(before, e);
      }
    }
  }

  ghost predicate Begun(es: seq<Event>, q: Request) {
    exists j :: 0 <= j < |es| && es[j] == Begin(q)
  }

  lemma {:induction false} RequestBegun(es: seq<Event>, t: nat)
    requires Exec(es).Some? && t < |Exec(es).value.txns|
    ensures Begun(es, Exec(es).value.txns[t].request)
  {
    var before, e := es[..|es| - 1], es[|es| - 1];
    if t < |Exec(before).value.txns| {
      RequestBegun(before, t);
      NextRequest(Exec(before).value, e, t);
      var j :| 0 <= j < |before| && before[j] == Begin(Exec(before).value.txns[t].request);
      assert es[j] == Begin(Exec(es).value.txns[t].request);
    } else {
      assert es[|es| - 1] == Begin(Exec(es).value.txns[t].request);
    }
  }

  /**
   In every interleaving, each response that created a message answers a request that was made: it shows that
   request's content under the request's sender and conversation and the clock of the insert, and the row holds the
   content, the clock and the two policies of that request, to the microsecond and ever after.
   */
  lemma {:induction false} SendFaithful(es: seq<Event>, i: nat) returns (t: nat, k: nat)
    requires Exec(es).Some? && i < |Exec(es).value.log| && Exec(es).value.log[i].created
    ensures var s := Exec(es).value;
      && Inserts(es, t, k) && t < |s.txns| && Begun(es, s.txns[t].request)
      && es[k].uuid == s.log[i].reply.id && s.log[i].reply.id in s.db.messages
      && Reflects(s.txns[t].request, es[k].now, s.log[i], s.db.messages[s.log[i].reply.id])
  {
    var s := Exec(es).value;
    RunResponseTold(es, i);
    t, k :| CreatedAt(es, s, s.log[i], t, k);
    RequestBegun(es, t);
  }
}
