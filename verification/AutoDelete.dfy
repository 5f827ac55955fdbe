/** The auto-delete worker's cleanup loop, interleaved with every other update of the message table. */
module AutoDelete {
  import opened Base
  import opened MessageModel
  import opened MessageExpiry

  /** What can happen to the table between two statements of the worker. */
  datatype EnvOp =
    | Outside(op: TableOp)
    | Sent(id: string, conversation: string, sender: string, content: Content, sequence: int, now: int,
           policy: Policy)

  function Disturb(t: Table, e: EnvOp): Table {
    match e
    case Outside(op) => Apply(t, op)
    case Sent(id, conversation, sender, content, sequence, now, policy) =>
      if id in t then t
      else t[id := Stored(Compose(id, conversation, sender, content, sequence, now, policy))]
  }

  function DisturbAll(t: Table, es: seq<EnvOp>): Table
    decreases es
  {
    if es == [] then t else DisturbAll(Disturb(t, es[0]), es[1..])
  }

  /** Sends and acknowledgements that read the clock at or after `now`. */
  predicate Timely(e: EnvOp, now: int) {
    match e
    case Sent(_, _, _, _, _, at, _) => at >= now
    case Outside(Ack(_, _, at)) => at >= now
    case _ => true
  }

  predicate IsExpired(m: Message, now: int) {
    m.status == Normal && m.expire.Some? && m.expire.value <= now
  }

  /** The messages the worker is after: normal, with an expiry at or before `now`. */
  function Expired(t: Table, now: int): set<string> {
    set id | id in t && IsExpired(t[id], now)
  }

  ghost predicate Keyed(t: Table) {
    forall id :: id in t ==> t[id].id == id
  }

  ghost predicate Sound(t: Table) {
    AllTimed(t) && Keyed(t)
  }

  /** How a table may have changed behind the worker's back. */
  ghost predicate Drifts(t: Table, t': Table, now: int) {
    && Sound(t')
    && t.Keys <= t'.Keys
    && Expired(t', now) <= Expired(t, now)
    && (forall id :: id in t && t[id].status == Deleted ==> t'[id].status == Deleted)
    && (forall id :: id in t ==> t'[id].autoExpire == t[id].autoExpire && NotLater(t'[id].burnExpire, t[id].burnExpire))
  }

  lemma RowDrifts(t: Table, op: TableOp, id: string, now: int)
    requires Sound(t) && Timely(Outside(op), now) && id in t
    ensures var t' := Apply(t, op);
      && id in t'
      && NotLater(t'[id].burnExpire, t[id].burnExpire) && (IsExpired(t'[id], now) ==> IsExpired(t[id], now))
  {
    ApplyEvolves(t, op);
    assert Timed(t[id]) && Evolves(t[id], Apply(t, op)[id]);
    if op.Ack? {
      IgniteTimed(t[id], op.now);
    }
  }

  /** No send, recall, deletion or acknowledgement at or after `now` enlarges the worker's target set. */
  lemma {:induction false} DisturbDrifts(t: Table, e: EnvOp, now: int)
    requires Sound(t) && Timely(e, now)
    ensures Drifts(t, Disturb(t, e), now)
  {
    var t' := Disturb(t, e);
    if e.Outside? {
      ApplyEvolves(t, e.op);
      ApplyTimed(t, e.op);
      forall id | id in t
        ensures NotLater(t'[id].burnExpire, t[id].burnExpire) && (IsExpired(t'[id], now) ==> IsExpired(t[id], now))
      {
        RowDrifts(t, e.op, id, now);
      }
    }
  }

  lemma {:induction false} DisturbAllDrifts(t: Table, es: seq<EnvOp>, now: int)
    requires Sound(t) && forall e :: e in es ==> Timely(e, now)
    ensures Drifts(t, DisturbAll(t, es), now)
    decreases es
  {
    if es != [] {
      DisturbDrifts(t, es[0], now);
      DisturbAllDrifts(Disturb(t, es[0]), es[1..], now);
    }
  }

  lemma SweepDrifts(t: Table, ids: set<string>, now: int)
    requires Sound(t)
    ensures Drifts(t, Apply(t, Sweep(ids)), now) && Expired(Apply(t, Sweep(ids)), now) == Expired(t, now) - ids
  {
    DisturbDrifts(t, Outside(Sweep(ids)), now);
  }

  /**
   One pass of the loop as the outside world lets it happen: whether a stop is requested, what is done to the
   table before the fetch and between fetch and update, and whether either statement fails.
   */
  datatype Round = Round(stop: bool, before: seq<EnvOp>, fetchFails: bool, between: seq<EnvOp>, updateFails: bool)

  const CALM: Round := Round(false, [], false, [], false)

  predicate RoundTimely(r: Round, now: int) {
    (forall e :: e in r.before ==> Timely(e, now)) && (forall e :: e in r.between ==> Timely(e, now))
  }

  datatype Exit = Stopped | FetchFailed | UpdateFailed | Drained

  /** Every entry of a batch is one of the worker's targets. */
  predicate Targets(t: Table, ids: seq<string>, now: int) {
    forall i :: 0 <= i < |ids| ==> ids[i] in t && IsExpired(t[ids[i]], now)
  }

  ghost predicate EarliestFirst(t: Table, ids: seq<string>, now: int)
    requires Targets(t, ids, now)
  {
    && (forall i, j :: 0 <= i < j < |ids| ==> ids[i] != ids[j] && t[ids[i]].expire.value <= t[ids[j]].expire.value)
    && (forall i, id :: 0 <= i < |ids| && id in t && IsExpired(t[id], now) && id !in ids ==>
          t[ids[i]].expire.value <= t[id].expire.value)
  }

  /** A reason names only policies whose deadline had passed at `now`. */
  ghost predicate Justified(m: Message, r: Reason, now: int) {
    (NamesAuto(r) ==> NotLater(m.autoExpire, Some(now))) && (NamesBurn(r) ==> NotLater(m.burnExpire, Some(now)))
  }

  /** What a cleanup started on table `t0` has done when the table is `t`. */
  ghost predicate Cleaned(t0: Table, t: Table, deleted: set<string>, reasons: map<string, Reason>, now: int) {
    && deleted <= Expired(t0, now) && Expired(t, now) <= Expired(t0, now)
    && reasons.Keys == deleted
    && forall id :: id in deleted ==> id in t && t[id].status == Deleted && Justified(t[id], reasons[id], now)
  }

  lemma DriftCleaned(t0: Table, t: Table, t': Table, deleted: set<string>, reasons: map<string, Reason>, now: int)
    requires Cleaned(t0, t, deleted, reasons, now) && Drifts(t, t', now)
    ensures Cleaned(t0, t', deleted, reasons, now)
  {
  }

  /** The reasons found in `t` for a batch still stand in a table `t'` that drifted from it. */
  ghost predicate Found(t: Table, batch: seq<string>, found: map<string, Reason>, now: int) {
    && found.Keys == (set id | id in batch)
    && forall i :: 0 <= i < |batch| ==> batch[i] in t && Justified(t[batch[i]], found[batch[i]], now)
  }

  lemma SweepCleaned(t0: Table, t: Table, batch: seq<string>, found: map<string, Reason>,
                     deleted: set<string>, reasons: map<string, Reason>, now: int)
    requires Cleaned(t0, t, deleted, reasons, now) && Sound(t) && Found(t, batch, found, now)
    requires forall i :: 0 <= i < |batch| ==> batch[i] in Expired(t0, now)
    ensures Cleaned(t0, Apply(t, Sweep(set id | id in batch)), deleted + (set id | id in batch), reasons + found, now)
  {
    var ids := set id | id in batch;
    SweepDrifts(t, ids, now);
    DriftCleaned(t0, t, Apply(t, Sweep(ids)), deleted, reasons, now);
    forall id | id in ids
      ensures id in t && id in Expired(t0, now)
      ensures Apply(t, Sweep(ids))[id].status == Deleted && Justified(Apply(t, Sweep(ids))[id], found[id], now)
    {
      var i :| 0 <= i < |batch| && batch[i] == id;
    }
    MoreCleaned(t0, Apply(t, Sweep(ids)), ids, found, deleted, reasons, now);
  }

  lemma MoreCleaned(t0: Table, t: Table, ids: set<string>, found: map<string, Reason>,
                    deleted: set<string>, reasons: map<string, Reason>, now: int)
    requires Cleaned(t0, t, deleted, reasons, now) && found.Keys == ids
    requires forall id :: id in ids ==>
      id in t && id in Expired(t0, now) && t[id].status == Deleted && Justified(t[id], found[id], now)
    ensures Cleaned(t0, t, deleted + ids, reasons + found, now)
  {
  }

  /** The rows of `deleted` have only had their status set to deleted; no other row has changed, come or gone. */
  ghost predicate OnlyDeleted(t: Table, t': Table, deleted: set<string>) {
    && t'.Keys == t.Keys
    && (forall id :: id in t && id !in deleted ==> t'[id] == t[id])
    && (forall id :: id in t && id in deleted ==> t'[id] == t[id].(status := Deleted))
  }

  /** The table as other transactions left it. */
  function Met(t: Table, es: seq<EnvOp>): Table { DisturbAll(t, es) }

  /** The table at an exit: what other transactions made of it up to there, and nothing else. */
  function LeftBy(t: Table, round: Round, exit: Exit): Table {
    match exit
    case Stopped => t
    case UpdateFailed => Met(t, round.before + round.between)
    case _ => Met(t, round.before)
  }

  lemma DeletedOn(t0: Table, t: Table, t': Table, deleted: set<string>, ids: set<string>)
    requires OnlyDeleted(t0, t, deleted) && OnlyDeleted(t, t', ids)
    ensures OnlyDeleted(t0, t', deleted + ids)
  {
  }

  lemma DeletedBefore(t0: Table, t: Table, t': Table, deleted: set<string>, reasons: map<string, Reason>,
                      ids: set<string>, now: int)
    requires Cleaned(t0, t, deleted, reasons, now) && OnlyDeleted(t, t', ids)
    ensures OnlyDeleted(t, t', deleted + ids)
  {
  }

  lemma {:induction false} MetBoth(t: Table, before: seq<EnvOp>, between: seq<EnvOp>)
    ensures Met(t, before + between) == Met(Met(t, before), between)
    decreases before
  {
    if before == [] {
      assert before + between == between;
    } else {
      assert (before + between)[0] == before[0] && (before + between)[1..] == before[1..] + between;
      MetBoth(Disturb(t, before[0]), before[1..], between);
    }
  }

  lemma SweepTwice(t: Table, a: set<string>, b: set<string>)
    ensures Apply(Apply(t, Sweep(a)), Sweep(b)) == Apply(t, Sweep(a + b))
  {
  }

  /** A batch fetched from `t1` and swept from the table `t2` it drifted into. */
  lemma SweepPass(t0: Table, t1: Table, t2: Table, batch: seq<string>, found: map<string, Reason>,
                  deleted: set<string>, reasons: map<string, Reason>, now: int)
    requires Cleaned(t0, t1, deleted, reasons, now) && Cleaned(t0, t2, deleted, reasons, now)
    requires Targets(t1, batch, now) && batch != [] && Found(t1, batch, found, now)
    requires Sound(t2) && Drifts(t1, t2, now)
    ensures var t3 := Apply(t2, Sweep(set id | id in batch));
      && Sound(t3) && Expired(t3, now) < Expired(t1, now)
      && Cleaned(t0, t3, deleted + (set id | id in batch), reasons + found, now)
  {
    var ids := set id | id in batch;
    forall i | 0 <= i < |batch| ensures batch[i] in Expired(t1, now) && batch[i] in Expired(t0, now) {
    }
    assert Found(t2, batch, found, now);
    SweepCleaned(t0, t2, batch, found, deleted, reasons, now);
    SweepDrifts(t2, ids, now);
    assert batch[0] in ids && batch[0] in Expired(t1, now);
  }

  /** If one sweep of expired messages left none, it swept them all. */
  lemma SweptAll(t0: Table, t: Table, deleted: set<string>, now: int)
    requires Sound(t0) && t == Apply(t0, Sweep(deleted)) && deleted <= Expired(t0, now) && Expired(t, now) == {}
    ensures deleted == Expired(t0, now)
  {
    SweepDrifts(t0, deleted, now);
    assert forall id :: id in Expired(t0, now) && id !in deleted ==> id in Expired(t0, now) - deleted;
  }

  /** A world that leaves the table alone. */
  predicate Quiet(world: seq<Round>) {
    forall r :: r in world ==> Calm(r)
  }

  predicate Calm(r: Round) { r.before == [] && r.between == [] }

  class AutoDeleteWorker {
    var messages: Table
    const batchSize: nat

    constructor (messages: Table, batchSize: nat)
      ensures this.messages == messages && this.batchSize == batchSize
    {
      this.messages := messages;
      this.batchSize := batchSize;
    }

    /** A message of least expiry among `ids`. */
    method Soonest(ids: set<string>, now: int) returns (first: string)
      requires ids != {} && ids <= Expired(messages, now)
      ensures first in ids && forall id :: id in ids ==> messages[first].expire.value <= messages[id].expire.value
    {
      first :| first in ids;
      var rest := ids - {first};
      while rest != {}
        invariant rest <= ids && first in ids
        invariant forall id :: id in ids - rest ==> messages[first].expire.value <= messages[id].expire.value
        decreases rest
      {
        var id :| id in rest;
        if messages[id].expire.value < messages[first].expire.value {
          first := id;
        }
        rest := rest - {id};
      }
    }

    /** The expired messages in order of expiry, at most a batch of them. */
    method GetExpiredMessages(now: int) returns (ids: seq<string>)
      ensures Targets(messages, ids, now) && EarliestFirst(messages, ids, now)
      ensures |ids| <= batchSize
      ensures |ids| < batchSize ==> forall id :: id in Expired(messages, now) ==> id in ids
    {
      ids := [];
      var rest := Expired(messages, now);
      while |ids| < batchSize && rest != {}
        invariant |ids| <= batchSize && rest <= Expired(messages, now)
        invariant forall id :: id in Expired(messages, now) ==> (id in ids <==> id !in rest)
        invariant Targets(messages, ids, now) && EarliestFirst(messages, ids, now)
        decreases rest
      {
        var id := Soonest(rest, now);
        ids, rest := ids + [id], rest - {id};
      }
    }

    /**
     The loop ends whatever the world does. The worker wrote only to messages that were normal and expired at
     `now` when it started, and an exit on an empty batch leaves no such message. Each reported reason names
     policies whose deadline had passed at `now`. In a world that leaves the table alone, the pass amounts to
     one sweep of the deleted set.
     */
    method Cleanup(now: int, world: seq<Round>)
      returns (exit: Exit, deleted: set<string>, reasons: map<string, Reason>)
      requires Sound(messages) && batchSize > 0
      requires forall i :: 0 <= i < |world| ==> RoundTimely(world[i], now)
      modifies this
      ensures Sound(messages) && Cleaned(old(messages), messages, deleted, reasons, now)
      ensures exit == Drained ==> Expired(messages, now) == {}
      ensures Quiet(world) ==> messages == Apply(old(messages), Sweep(deleted))
      ensures Quiet(world) && exit == Drained ==> deleted == Expired(old(messages), now)
      ensures Quiet(world) ==> OnlyDeleted(old(messages), messages, deleted)
      ensures forall id :: id in deleted ==>
        && id in old(messages) && old(messages)[id].status == Normal
        && old(messages)[id].expire.Some? && old(messages)[id].expire.value <= now
      ensures exit == Drained ==> forall id :: id in messages && messages[id].status == Normal ==>
        messages[id].expire.None? || messages[id].expire.value > now
    {
      deleted, reasons := {}, map[];
      var i := 0;
      while true
        invariant Sound(messages) && Cleaned(old(messages), messages, deleted, reasons, now)
        invariant Quiet(world) ==> messages == Apply(old(messages), Sweep(deleted))
        invariant Quiet(world) ==> OnlyDeleted(old(messages), messages, deleted)
        decreases Expired(messages, now)
      {
        var round := if i < |world| then world[i] else CALM;
        assert RoundTimely(round, now) && (Quiet(world) ==> Calm(round));
        i := i + 1;
        var end;
        end, deleted, reasons := Pass(round, now, old(messages), deleted, reasons);
        if end.Some? {
          if Quiet(world) && end.value == Drained {
            SweptAll(old(messages), messages, deleted, now);
          }
          assert forall id :: id in messages && IsExpired(messages[id], now) ==> id in Expired(messages, now);
          assert forall id :: id in deleted ==> id in Expired(old(messages), now);
          return end.value, deleted, reasons;
        }
      }
    }

    /** One pass of the loop: it ends the cleanup, or strictly shrinks what is left to delete. */
    method Pass(round: Round, now: int, ghost t0: Table, deleted: set<string>, reasons: map<string, Reason>)
      returns (end: Option<Exit>, deleted': set<string>, reasons': map<string, Reason>)
      requires Sound(messages) && Cleaned(t0, messages, deleted, reasons, now)
      requires RoundTimely(round, now) && batchSize > 0
      modifies this
      ensures Sound(messages) && Cleaned(t0, messages, deleted', reasons', now)
      ensures end.None? ==> Expired(messages, now) < Expired(old(messages), now)
      ensures end == Some(Drained) ==> Expired(messages, now) == {}
      ensures Calm(round) && old(messages) == Apply(t0, Sweep(deleted)) ==> messages == Apply(t0, Sweep(deleted'))
      ensures Calm(round) && OnlyDeleted(t0, old(messages), deleted) ==> OnlyDeleted(t0, messages, deleted')
      ensures end.None? ==>
        deleted <= deleted' && OnlyDeleted(Met(old(messages), round.before + round.between), messages, deleted')
      ensures end.Some? ==>
        deleted' == deleted && reasons' == reasons && messages == LeftBy(old(messages), round, end.value)
    {
      deleted', reasons' := deleted, reasons;
      if round.stop {
        return Some(Stopped), deleted', reasons';
      }
      MetBoth(messages, round.before, round.between);
      Interrupt(round.before, now, t0, deleted, reasons);
      if round.fetchFails {
        return Some(FetchFailed), deleted', reasons';
      }
      var batch := GetExpiredMessages(now);
      if |batch| == 0 {
        return Some(Drained), deleted', reasons';
      }
      ghost var t1 := messages;
      var found := BatchReasons(batch, now);
      Interrupt(round.between, now, t0, deleted, reasons);
      if round.updateFails {
        return Some(UpdateFailed), deleted', reasons';
      }
      Update(batch, found, now, t0, t1, deleted, reasons);
      return None, deleted + (set id | id in batch), reasons + found;
    }

    /** The update statement of a pass, for a batch fetched from `t1`. */
    method Update(batch: seq<string>, found: map<string, Reason>, now: int, ghost t0: Table, ghost t1: Table,
                  ghost deleted: set<string>, ghost reasons: map<string, Reason>)
      requires Cleaned(t0, t1, deleted, reasons, now) && Cleaned(t0, messages, deleted, reasons, now)
      requires Targets(t1, batch, now) && batch != [] && Found(t1, batch, found, now)
      requires Sound(messages) && Drifts(t1, messages, now)
      modifies this
      ensures var deleted' := deleted + (set id | id in batch);
        && Sound(messages) && Expired(messages, now) < Expired(t1, now)
        && Cleaned(t0, messages, deleted', reasons + found, now)
        && OnlyDeleted(old(messages), messages, deleted')
        && (old(messages) == Apply(t0, Sweep(deleted)) ==> messages == Apply(t0, Sweep(deleted')))
        && (OnlyDeleted(t0, old(messages), deleted) ==> OnlyDeleted(t0, messages, deleted'))
    {
      ghost var ids, t2 := (set id | id in batch), messages;
      SweepPass(t0, t1, messages, batch, found, deleted, reasons, now);
      SweepTwice(t0, deleted, ids);
      BatchUpdateStatus(batch);
      DeletedBefore(t0, t2, messages, deleted, reasons, ids, now);
      if OnlyDeleted(t0, t2, deleted) {
        DeletedOn(t0, t2, messages, deleted, ids);
      }
    }

    /** UPDATE the status of the rows of a batch. */
    method BatchUpdateStatus(batch: seq<string>)
      modifies this
      ensures OnlyDeleted(old(messages), messages, set id | id in batch)
      ensures messages == Apply(old(messages), Sweep(set id | id in batch))
    {
      messages := map id | id in messages ::
        if id in batch then messages[id].(status := Deleted) else messages[id];
    }

    /** Other transactions commit between two statements of the worker. */
    method Interrupt(es: seq<EnvOp>, now: int, ghost t0: Table,
                     ghost deleted: set<string>, ghost reasons: map<string, Reason>)
      requires Sound(messages) && Cleaned(t0, messages, deleted, reasons, now)
      requires forall e :: e in es ==> Timely(e, now)
      modifies this
      ensures messages == Met(old(messages), es)
      ensures Drifts(old(messages), messages, now) && Cleaned(t0, messages, deleted, reasons, now)
    {
      DisturbAllDrifts(messages, es, now);
      DriftCleaned(t0, messages, DisturbAll(messages, es), deleted, reasons, now);
      messages := DisturbAll(messages, es);
    }

    /** The reason for each message of a fetched batch. */
    method BatchReasons(batch: seq<string>, now: int) returns (reasons: map<string, Reason>)
      requires Sound(messages) && Targets(messages, batch, now)
      ensures Found(messages, batch, reasons, now)
      ensures forall i :: 0 <= i < |batch| ==>
        && (NamesAuto(reasons[batch[i]]) <==> messages[batch[i]].autoExpire == messages[batch[i]].expire)
        && (NamesBurn(reasons[batch[i]]) <==> messages[batch[i]].burnExpire == messages[batch[i]].expire)
    {
      reasons := map[];
      for k := 0 to |batch|
        invariant reasons.Keys == set id | id in batch[..k]
        invariant forall i :: 0 <= i < k ==> reasons[batch[i]] == InferDeleteReason(messages[batch[i]])
      {
        reasons := reasons[batch[k] := InferDeleteReason(messages[batch[k]])];
      }
      forall i | 0 <= i < |batch| ensures batch[i] in reasons && Timed(messages[batch[i]]) {
        ReasonExact(messages[batch[i]]);
      }
    }
  }
}
