/** The service methods that update message rows, statement by statement. */
module MessageService {
  import opened Base
  import opened MessageModel
  import opened AutoDelete
  import opened MessageExpiry

  /** Where an id first appears. */
  function FirstIndex(events: seq<string>, id: string): (i: nat)
    requires id in events
    ensures i < |events| && events[i] == id && id !in events[..i]
  {
    if events[0] == id then 0
    else
      assert id in events[1..];
      var i := FirstIndex(events[1..], id) + 1;
      assert events[..i] == [events[0]] + events[1..][..i - 1];
      i
  }

  lemma FirstIndexEarlier(events: seq<string>, k: nat, id: string)
    requires k < |events| && id in events[..k] && events[k] !in events[..k]
    ensures FirstIndex(events, id) < FirstIndex(events, events[k]) == k
  {
    var i, j := FirstIndex(events, events[k]), FirstIndex(events, id);
    forall h | 0 <= h < k ensures events[h] != events[k] {
      assert events[h] in events[..k];
    }
    assert i == k && j < k;
  }

  /** The distinct non-empty ids of a request, in order of first appearance. */
  method DistinctIds(events: seq<string>) returns (ids: seq<string>)
    ensures forall id :: id in ids <==> id in events && id != ""
    ensures forall i, j :: 0 <= i < j < |ids| ==> ids[i] != ids[j]
    ensures forall i, j :: 0 <= i < j < |ids| ==> FirstIndex(events, ids[i]) < FirstIndex(events, ids[j])
  {
    var seen := {};
    ids := [];
    for k := 0 to |events|
      invariant forall id :: id in ids <==> id in events[..k] && id != ""
      invariant forall id :: id in seen <==> id in ids
      invariant forall i :: 0 <= i < |ids| ==> ids[i] in events[..k]
      invariant forall i, j :: 0 <= i < j < |ids| ==> FirstIndex(events, ids[i]) < FirstIndex(events, ids[j])
    {
      if events[k] != "" && events[k] !in seen {
        forall i | 0 <= i < |ids| ensures FirstIndex(events, ids[i]) < FirstIndex(events, events[k]) {
          FirstIndexEarlier(events, k, ids[i]);
        }
        seen := seen + {events[k]};
        ids := ids + [events[k]];
      }
    }
    assert events[..|events|] == events;
  }

  /** Messages of a request whose burn timer `user` may start. */
  function Triggered(t: Table, user: string, ids: set<string>): set<string> {
    set id | id in ids && id in t && Burnable(t[id], user)
  }

  function IgniteAll(t: Table, ids: set<string>, now: int): Table {
    map id | id in t :: if id in ids then Ignite(t[id], now) else t[id]
  }

  /**
   Only the deadlines moved: burning ends at the earlier of the old deadline and the acknowledgement's, to the
   microsecond, and the message at the earlier of that and its auto-delete deadline.
   */
  ghost predicate Burning(m: Message, m': Message, now: int) {
    && m'.(burnExpire := m.burnExpire, expire := m.expire) == m
    && m'.burnExpire == Earlier(m.burnExpire, Some((now + m.burnSeconds * 1_000_000_000) / 1_000 * 1_000))
    && m'.expire == Earlier(m.autoExpire, m'.burnExpire)
  }

  /**
   Acknowledged were exactly the named normal burn messages of other senders; they are burning now, and no other row
   has changed, come or gone.
   */
  ghost predicate Acknowledged(t: Table, t': Table, user: string, events: seq<string>, acked: seq<string>, now: int) {
    && t'.Keys == t.Keys
    && (forall id :: id in acked <==>
          && id in events && id != "" && id in t
          && t[id].status == Normal && t[id].burnSeconds > 0 && t[id].sender != user)
    && (forall id :: id in t && id !in acked ==> t'[id] == t[id])
    && (forall id :: id in acked && Timed(t[id]) ==> Burning(t[id], t'[id], now))
  }

  lemma AckEffect(t: Table, t': Table, user: string, events: seq<string>, acked: seq<string>, now: int)
    requires var wanted := set id | id in events && id != "";
      && t' == IgniteAll(t, Triggered(t, user, wanted), now)
      && forall id :: id in acked <==> id in Triggered(t, user, wanted)
    ensures Acknowledged(t, t', user, events, acked, now)
  {
    forall id | id in acked && Timed(t[id]) ensures Burning(t[id], t'[id], now) {
      IgniteTimed(t[id], now);
    }
  }

  class MessageService {
    var messages: Table

    constructor (messages: Table)
      ensures this.messages == messages
    {
      this.messages := messages;
    }

    /** SELECT the normal burn-after-reading messages among `ids`. */
    method BurnCandidates(ids: seq<string>) returns (rows: seq<Message>)
      requires Keyed(messages) && forall i, j :: 0 <= i < j < |ids| ==> ids[i] != ids[j]
      ensures forall i, j :: 0 <= i < j < |rows| ==> rows[i].id != rows[j].id
      ensures forall m :: m in rows <==>
        m.id in ids && m.id in messages && messages[m.id] == m && m.status == Normal && m.burnSeconds > 0
    {
      rows := [];
      for k := 0 to |ids|
        invariant forall i, j :: 0 <= i < j < |rows| ==> rows[i].id != rows[j].id
        invariant forall m :: m in rows <==>
          m.id in ids[..k] && m.id in messages && messages[m.id] == m && m.status == Normal && m.burnSeconds > 0
      {
        if ids[k] in messages && messages[ids[k]].status == Normal && messages[ids[k]].burnSeconds > 0 {
          assert ids[k] !in ids[..k];
          assert forall i :: 0 <= i < |rows| ==> rows[i] in rows;
          rows := rows + [messages[ids[k]]];
        }
      }
      assert ids[..|ids|] == ids;
    }

    /** Starts or shortens the burn timers of one message; a write happens only when a deadline gets earlier. */
    method UpdateDeadlines(m: Message, now: int)
      requires m.id in messages && messages[m.id] == m
      modifies this
      ensures messages == old(messages)[m.id := Ignite(m, now)]
    {
      var burn := now + m.burnSeconds * SECOND;
      var row := m;
      var shouldUpdate := false;
      if m.burnExpire.None? || burn < m.burnExpire.value {
        row := row.(burnExpire := Some(Micros(burn)));
        shouldUpdate := true;
      }
      var final := burn;
      if m.autoExpire.Some? && m.autoExpire.value < final {
        final := m.autoExpire.value;
      }
      if m.expire.None? || final < m.expire.value {
        row := row.(expire := Some(Micros(final)));
        shouldUpdate := true;
      }
      if shouldUpdate {
        messages := messages[m.id := row];
      } else {
        assert messages == messages[m.id := m];
      }
    }

    /** Acknowledges exactly the triggered messages of the request and moves their deadlines. */
    method AckReadTriggers(user: string, events: seq<string>, now: int) returns (r: Result<seq<string>, ServiceError>)
      requires Keyed(messages)
      modifies this
      ensures user == "" ==> r == Err(ParamError) && messages == old(messages)
      ensures user != "" ==>
        && r.Ok?
        && var ids := set id | id in events && id != "";
        && messages == Apply(old(messages), Ack(user, ids, now))
        && (forall id :: id in r.value <==> id in Triggered(old(messages), user, ids))
        && (forall i, j :: 0 <= i < j < |r.value| ==> r.value[i] != r.value[j])
      ensures r.Ok? ==> Acknowledged(old(messages), messages, user, events, r.value, now)
    {
      if user == "" {
        return Err(ParamError);
      }
      var ids := DistinctIds(events);
      var candidates := BurnCandidates(ids);
      ghost var t := messages;
      var acked := [];
      for k := 0 to |candidates|
        invariant forall i :: 0 <= i < |acked| ==> acked[i] in Acked(candidates, user, k)
        invariant forall id :: id in Acked(candidates, user, k) ==> id in acked
        invariant forall i, j :: 0 <= i < j < |acked| ==> acked[i] != acked[j]
        invariant messages == IgniteAll(t, Acked(candidates, user, k), now)
      {
        var m := candidates[k];
        assert m in candidates;
        AckedNext(candidates, user, k);
        if m.sender != user {
          IgniteOne(t, Acked(candidates, user, k), m.id, now);
          acked := acked + [m.id];
          UpdateDeadlines(m, now);
        }
      }
      ghost var wanted := set id | id in events && id != "";
      AckedAll(t, user, candidates, ids, wanted);
      AckIsIgnite(t, user, wanted, now);
      AckEffect(t, messages, user, events, acked, now);
      return Ok(acked);
    }

    /** Recalling is open to the sender for two minutes; a deleted message counts as missing. */
    method RecallMessage(id: string, user: string, now: int) returns (r: Result<(), ServiceError>)
      modifies this
      ensures messages == Apply(old(messages), Recall(id, user, now))
      ensures r == (
        if id !in old(messages) || old(messages)[id].status == Deleted then Err(MessageNotFound)
        else if old(messages)[id].sender != user then Err(PermissionDenied)
        else if now - old(messages)[id].createdAt > 120_000_000_000 then Err(RecallTimeLimit)
        else Ok(()))
      ensures r.Ok? ==> messages == old(messages)[id := old(messages)[id].(status := Recalled)]
      ensures r.Err? ==> messages == old(messages)
    {
      if id !in messages || messages[id].status == Deleted {
        return Err(MessageNotFound);
      }
      if messages[id].sender != user {
        return Err(PermissionDenied);
      }
      if now - messages[id].createdAt > RECALL_LIMIT {
        return Err(RecallTimeLimit);
      }
      messages := messages[id := messages[id].(status := Recalled)];
      return Ok(());
    }

    /** A failure to announce the deletion is reported although the message is gone. */
    method DeleteMessage(id: string, user: string, published: bool) returns (r: Result<(), ServiceError>)
      modifies this
      ensures messages == Apply(old(messages), Delete(id, user))
      ensures r == (
        if id !in old(messages) || old(messages)[id].status == Deleted then Err(MessageNotFound)
        else if old(messages)[id].sender != user then Err(PermissionDenied)
        else if !published then Err(PublishFailed)
        else Ok(()))
      ensures r == Ok(()) || r == Err(PublishFailed) ==>
        messages == old(messages)[id := old(messages)[id].(status := Deleted)]
      ensures r == Err(MessageNotFound) || r == Err(PermissionDenied) ==> messages == old(messages)
    {
      if id !in messages || messages[id].status == Deleted {
        return Err(MessageNotFound);
      }
      if messages[id].sender != user {
        return Err(PermissionDenied);
      }
      messages := messages[id := messages[id].(status := Deleted)];
      return if published then Ok(()) else Err(PublishFailed);
    }
  }

  /** The ids acknowledged after the first `k` candidates: those not sent by the user. */
  ghost function Acked(candidates: seq<Message>, user: string, k: nat): set<string>
    requires k <= |candidates|
  {
    set i | 0 <= i < k && candidates[i].sender != user :: candidates[i].id
  }

  lemma AckedNext(candidates: seq<Message>, user: string, k: nat)
    requires k < |candidates| && forall i, j :: 0 <= i < j < |candidates| ==> candidates[i].id != candidates[j].id
    ensures candidates[k].id !in Acked(candidates, user, k)
    ensures Acked(candidates, user, k + 1)
      == Acked(candidates, user, k) + if candidates[k].sender != user then {candidates[k].id} else {}
  {
  }

  lemma IgniteOne(t: Table, ids: set<string>, id: string, now: int)
    requires id in t && id !in ids
    ensures IgniteAll(t, ids, now)[id] == t[id]
    ensures IgniteAll(t, ids, now)[id := Ignite(t[id], now)] == IgniteAll(t, ids + {id}, now)
  {
  }

  lemma AckedAll(t: Table, user: string, candidates: seq<Message>, ids: seq<string>, wanted: set<string>)
    requires forall id :: id in ids <==> id in wanted
    requires forall m :: m in candidates <==>
      m.id in ids && m.id in t && t[m.id] == m && m.status == Normal && m.burnSeconds > 0
    requires Keyed(t)
    ensures Acked(candidates, user, |candidates|) == Triggered(t, user, wanted)
  {
    forall id | id in Triggered(t, user, wanted) ensures id in Acked(candidates, user, |candidates|) {
      assert t[id] in candidates;
      var i :| 0 <= i < |candidates| && candidates[i] == t[id];
    }
    forall id | id in Acked(candidates, user, |candidates|) ensures id in Triggered(t, user, wanted) {
      var i :| 0 <= i < |candidates| && candidates[i].sender != user && candidates[i].id == id;
      assert candidates[i] in candidates;
    }
  }

  lemma AckIsIgnite(t: Table, user: string, ids: set<string>, now: int)
    ensures Apply(t, Ack(user, ids, now)) == IgniteAll(t, Triggered(t, user, ids), now)
  {
  }
}
