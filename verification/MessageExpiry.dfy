/** Auto-delete and burn-after-reading deadlines of a message, over every run of the message store. */
module MessageExpiry {
  import opened Base
  import opened MessageModel
  import opened SendProtocol
  import opened SendSafety

  /** A stored deadline is a whole number of microseconds. */
  ghost predicate Whole(t: Option<int>) { t == MicrosOf(t) }

  /** expire_time is the earlier of the two policy deadlines that are set, and absent when neither is. */
  ghost predicate Timed(m: Message) {
    Whole(m.autoExpire) && Whole(m.burnExpire) && m.expire == Earlier(m.autoExpire, m.burnExpire)
  }

  /** Deadline `a` is not later than `b`; an absent deadline is the latest. */
  ghost predicate NotLater(a: Option<int>, b: Option<int>) {
    b.Some? ==> a.Some? && a.value <= b.value
  }

  ghost predicate AllTimed(t: Table) {
    forall id :: id in t ==> Timed(t[id])
  }

  /** An acknowledgement makes the burn deadline the earlier of the old and the new one and keeps expire_time exact. */
  lemma IgniteTimed(m: Message, now: int)
    requires Timed(m)
    ensures var m' := Ignite(m, now);
      && Timed(m') && m'.burnExpire == Earlier(m.burnExpire, Some(Micros(now + m.burnSeconds * SECOND)))
      && NotLater(m'.burnExpire, m.burnExpire) && NotLater(m'.expire, m.expire)
  {
  }

  lemma ApplyTimed(t: Table, op: TableOp)
    requires AllTimed(t)
    ensures AllTimed(Apply(t, op))
    ensures forall id :: id in t ==> NotLater(Apply(t, op)[id].expire, t[id].expire)
  {
    forall id | id in t
      ensures Timed(Apply(t, op)[id]) && NotLater(Apply(t, op)[id].expire, t[id].expire)
    {
      assert Timed(t[id]);
      if op.Ack? {
        IgniteTimed(t[id], op.now);
      }
    }
  }

  // ---------- Deadlines in runs of the send protocol ----------

  ghost predicate TimedState(s: State) {
    && AllTimed(s.db.messages)
    && forall i :: 0 <= i < |s.txns| && s.txns[i].message.Some? ==> Timed(Stored(s.txns[i].message.value))
  }

  lemma NextTimed(s: State, e: Event)
    requires TimedState(s) && Enabled(s, e)
    ensures TimedState(Next(s, e))
  {
    match e
    case Outside(op) => ApplyTimed(s.db.messages, op);
    case Advance(t, uuid, now) =>
      if !s.txns[t].phase.Committing? {
        StatementTimed(s.db, s.txns[t], uuid, now);
      }
    case _ =>
  }

  lemma StatementTimed(db: Db, x: Txn, uuid: string, now: int)
    requires !x.phase.Committing? && !x.phase.Done? && (x.message.Some? ==> Timed(Stored(x.message.value)))
    ensures var x' := Statement(db, x, uuid, now); x'.message.Some? ==> Timed(Stored(x'.message.value))
  {
  }

  lemma {:induction false} RunTimed(es: seq<Event>)
    requires Exec(es).Some?
    ensures TimedState(Exec(es).value)
  {
    if es != [] {
      RunTimed(es[..|es| - 1]);
      NextTimed(Exec(es[..|es| - 1]).value, es[|es| - 1]);
    }
  }

  lemma NextNotLater(s: State, e: Event, id: string)
    requires Inv(s) && TimedState(s) && Enabled(s, e) && id in s.db.messages
    ensures var t := Next(s, e).db.messages; id in t && NotLater(t[id].expire, s.db.messages[id].expire)
  {
    if e.Outside? {
      ApplyTimed(s.db.messages, e.op);
      ApplyEvolves(s.db.messages, e.op);
    } else if e.Advance? {
      assert TxnInv(s.db, s.txns[e.t]);
    }
  }

  /** In every continuation of a run a stored message keeps its row, and its expiry never moves later. */
  lemma {:induction false} ExpiryNeverLater(es: seq<Event>, more: seq<Event>, id: string)
    requires Exec(es).Some? && Exec(es + more).Some? && id in Exec(es).value.db.messages
    ensures var t, t' := Exec(es).value.db.messages, Exec(es + more).value.db.messages;
      id in t' && NotLater(t'[id].expire, t[id].expire)
  {
    if more == [] {
      assert es + more == es;
    } else {
      var k := |more| - 1;
      assert (es + more)[..|es + more| - 1] == es + more[..k];
      ExpiryNeverLater(es, more[..k], id);
      RunKeeps(es + more[..k]);
      RunTimed(es + more[..k]);
      NextNotLater(Exec(es + more[..k]).value, more[k], id);
    }
  }

  // ---------- Delete reason ----------

  datatype Reason = AutoDelete | BurnAfterReading | Both

  function InferDeleteReason(m: Message): Reason {
    if m.autoExpire.Some? && m.burnExpire.Some? then
      if m.autoExpire.value < m.burnExpire.value then AutoDelete
      else if m.burnExpire.value < m.autoExpire.value then BurnAfterReading
      else Both
    else if m.burnExpire.Some? then BurnAfterReading
    else AutoDelete
  }

  predicate NamesAuto(r: Reason) { r != BurnAfterReading }

  predicate NamesBurn(r: Reason) { r != AutoDelete }

  /** The inferred reason names exactly the policies whose deadline is the expiry. */
  lemma ReasonExact(m: Message)
    requires Timed(m) && m.expire.Some?
    ensures NamesAuto(InferDeleteReason(m)) <==> m.autoExpire == m.expire
    ensures NamesBurn(InferDeleteReason(m)) <==> m.burnExpire == m.expire
  {
  }

  /**
   In every run, every stored message has its exact expiry, and the reason the worker would give for deleting
   it names exactly the policies that attain it.
   */
  lemma ExpiryExact(es: seq<Event>, id: string)
    requires Exec(es).Some? && id in Exec(es).value.db.messages
    ensures var m := Exec(es).value.db.messages[id];
      && Timed(m)
      && (m.expire.None? <==> m.autoExpire.None? && m.burnExpire.None?)
      && (m.expire.Some? ==>
            && (NamesAuto(InferDeleteReason(m)) <==> m.autoExpire == m.expire)
            && (NamesBurn(InferDeleteReason(m)) <==> m.burnExpire == m.expire))
  {
    RunTimed(es);
    var m := Exec(es).value.db.messages[id];
    if m.expire.Some? {
      ReasonExact(m);
    }
  }
}
