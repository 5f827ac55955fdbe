/** The message table of a reachable state, listed in commit order, is in the order the window queries rely on. */
module SendHistory {
  import opened Base
  import opened MessageModel
  import opened SendProtocol
  import opened SendSafety
  import opened MessageWindow
  import opened MessagePaging

  /** The rows of the created messages, in the order in which they were committed. */
  function RowsOf(log: seq<Response>, t: Table): Rows
    requires forall i :: 0 <= i < |log| ==> log[i].reply.id in t
  {
    if log == [] then []
    else
      var last := log[|log| - 1];
      RowsOf(log[..|log| - 1], t) + if last.created then [t[last.reply.id]] else []
  }

  lemma {:induction false} RowSource(log: seq<Response>, t: Table, m: Message) returns (i: nat)
    requires forall i :: 0 <= i < |log| ==> log[i].reply.id in t
    requires m in RowsOf(log, t)
    ensures i < |log| && log[i].created && t[log[i].reply.id] == m
  {
    i := |log| - 1;
    if !(log[i].created && t[log[i].reply.id] == m) {
      i := RowSource(log[..i], t, m);
    }
  }

  lemma {:induction false} RowPresent(log: seq<Response>, t: Table, i: nat)
    requires forall i :: 0 <= i < |log| ==> log[i].reply.id in t
    requires i < |log| && log[i].created
    ensures t[log[i].reply.id] in RowsOf(log, t)
  {
    if i < |log| - 1 {
      RowPresent(log[..|log| - 1], t, i);
    }
  }

  /** Of two creations in a conversation the earlier one has the lower number. */
  lemma EarlierIsLower(db: Db, log: seq<Response>, i: nat, j: nat)
    requires NumbersInv(db, log) && i < j < |log| && log[i].created && log[j].created
    requires log[i].key.conversation == log[j].key.conversation
    ensures log[i].reply.sequence < log[j].reply.sequence
  {
    var c := log[i].key.conversation;
    NumberAt(log, c, i);
    NumberAt(log, c, j);
    assert Numbers(log, c) == UpTo(Current(db, c));
  }

  /** A row committed before response `j` has another id than its row and, in its conversation, a lower number. */
  lemma RowBefore(db: Db, log: seq<Response>, j: nat, x: Message)
    requires LogInv(db, log) && NumbersInv(db, log) && j < |log| && log[j].created
    requires forall i :: 0 <= i < |log| ==> log[i].reply.id in db.messages
    requires x in RowsOf(log[..j], db.messages)
    ensures Follows(x, db.messages[log[j].reply.id])
  {
    var i := RowSource(log[..j], db.messages, x);
    assert Answers(db, log[i].key, log[i].reply);
    assert Answers(db, log[j].key, log[j].reply);
    if x.conversation == db.messages[log[j].reply.id].conversation {
      EarlierIsLower(db, log, i, j);
    }
  }

  ghost predicate Follows(x: Message, m: Message) {
    x.id != m.id && (x.conversation == m.conversation ==> x.sequence < m.sequence)
  }

  lemma OrderedAppend(rows: Rows, m: Message)
    requires Ordered(rows) && m.sequence >= 1 && forall i :: 0 <= i < |rows| ==> Follows(rows[i], m)
    ensures Ordered(rows + [m])
  {
  }

  lemma RowsOfNext(log: seq<Response>, t: Table, k: nat)
    requires k < |log| && forall i :: 0 <= i < |log| ==> log[i].reply.id in t
    ensures RowsOf(log[..k + 1], t) == RowsOf(log[..k], t) + if log[k].created then [t[log[k].reply.id]] else []
  {
    assert log[..k + 1][..k] == log[..k];
  }

  lemma NextOrdered(db: Db, log: seq<Response>, k: nat)
    requires LogInv(db, log) && NumbersInv(db, log) && MessagesInv(db, log) && k < |log|
    requires forall i :: 0 <= i < |log| ==> log[i].reply.id in db.messages
    requires Ordered(RowsOf(log[..k], db.messages))
    ensures Ordered(RowsOf(log[..k + 1], db.messages))
  {
    RowsOfNext(log, db.messages, k);
    var earlier, m := RowsOf(log[..k], db.messages), db.messages[log[k].reply.id];
    if log[k].created {
      forall a | 0 <= a < |earlier| ensures Follows(earlier[a], m) {
        RowBefore(db, log, k, earlier[a]);
      }
      OrderedAppend(earlier, m);
    } else {
      assert RowsOf(log[..k + 1], db.messages) == earlier;
    }
  }

  lemma {:induction false} PrefixOrdered(db: Db, log: seq<Response>, k: nat)
    requires LogInv(db, log) && NumbersInv(db, log) && MessagesInv(db, log) && k <= |log|
    requires forall i :: 0 <= i < |log| ==> log[i].reply.id in db.messages
    ensures Ordered(RowsOf(log[..k], db.messages))
  {
    if k > 0 {
      PrefixOrdered(db, log, k - 1);
      NextOrdered(db, log, k - 1);
    }
  }

  /** In every run, the rows in commit order are exactly the table and are ordered for the window queries. */
  lemma RowsOrdered(es: seq<Event>)
    requires Exec(es).Some?
    ensures var s := Exec(es).value;
      && (forall i :: 0 <= i < |s.log| ==> s.log[i].reply.id in s.db.messages)
      && Ordered(RowsOf(s.log, s.db.messages))
      && (forall m :: m in RowsOf(s.log, s.db.messages) <==> m in s.db.messages.Values)
  {
    RunKeeps(es);
    var s := Exec(es).value;
    assert forall i :: 0 <= i < |s.log| ==> Answers(s.db, s.log[i].key, s.log[i].reply);
    PrefixOrdered(s.db, s.log, |s.log|);
    assert s.log[..|s.log|] == s.log;
    forall m | m in RowsOf(s.log, s.db.messages) ensures m in s.db.messages.Values {
      var i := RowSource(s.log, s.db.messages, m);
    }
    forall m | m in s.db.messages.Values ensures m in RowsOf(s.log, s.db.messages) {
      var id :| id in s.db.messages && s.db.messages[id] == m;
      var i := CreatorOf(s.log, id);
      RowPresent(s.log, s.db.messages, i);
    }
  }

  // ---------- The table between the requests of a paging client ----------

  /** The message table after a run, in commit order. */
  ghost function TableAfter(es: seq<Event>): Rows
    requires Exec(es).Some?
  {
    RowsOrdered(es);
    RowsOf(Exec(es).value.log, Exec(es).value.db.messages)
  }

  /** Every row is still there and at most left the normal status. */
  ghost predicate TableEvolves(t: Table, t': Table) {
    forall id :: id in t ==> id in t' && Evolves(t[id], t'[id])
  }

  lemma NextTable(s: State, e: Event)
    requires Inv(s) && Enabled(s, e)
    ensures TableEvolves(s.db.messages, Next(s, e).db.messages) && s.log <= Next(s, e).log
  {
    match e
    case Outside(op) => ApplyEvolves(s.db.messages, op);
    case Advance(t, _, _) =>
      if s.txns[t].phase.Committing? {
        assert TxnInv(s.db, s.txns[t]);
        CommitKept(s.db, s.txns[t]);
      }
    case _ =>
  }

  ghost predicate TableKeeps(t: Table, t': Table) {
    forall id :: id in t ==> id in t' && t'[id] == t[id]
  }

  lemma CommitKept(db: Db, x: Txn)
    requires TxnInv(db, x) && x.phase.Committing?
    ensures TableKeeps(db.messages, Committed(db, x).messages)
  {
  }

  lemma {:induction false} ExecPrefix(es: seq<Event>, more: seq<Event>)
    requires Exec(es + more).Some?
    ensures Exec(es).Some?
  {
    if more == [] {
      assert es + more == es;
    } else {
      assert (es + more)[..|es + more| - 1] == es + more[..|more| - 1];
      ExecPrefix(es, more[..|more| - 1]);
    }
  }

  lemma EvolvesOn(t: Table, t': Table, t'': Table)
    requires TableEvolves(t, t') && TableEvolves(t', t'')
    ensures TableEvolves(t, t'')
  {
  }

  lemma {:induction false} RunTable(es: seq<Event>, more: seq<Event>)
    requires Exec(es).Some? && Exec(es + more).Some?
    ensures var s, s' := Exec(es).value, Exec(es + more).value;
      TableEvolves(s.db.messages, s'.db.messages) && s.log <= s'.log
  {
    if more == [] {
      assert es + more == es;
    } else {
      var k := |more| - 1;
      assert (es + more)[..|es + more| - 1] == es + more[..k];
      ExecPrefix(es + more[..k], [more[k]]);
      RunTable(es, more[..k]);
      RunKeeps(es + more[..k]);
      NextTable(Exec(es + more[..k]).value, more[k]);
      EvolvesOn(Exec(es).value.db.messages, Exec(es + more[..k]).value.db.messages, Exec(es + more).value.db.messages);
    }
  }

  /** Rows of a longer log in a later table start with the rows of the log, each the same message later on. */
  lemma {:induction false} RowsLast(log: seq<Response>, t: Table, log': seq<Response>, t': Table)
    requires log <= log' && TableEvolves(t, t')
    requires forall i :: 0 <= i < |log| ==> log[i].reply.id in t
    requires forall i :: 0 <= i < |log'| ==> log'[i].reply.id in t'
    ensures |RowsOf(log, t)| <= |RowsOf(log', t')|
    ensures forall i :: 0 <= i < |RowsOf(log, t)| ==> Lasting(RowsOf(log, t)[i], RowsOf(log', t')[i])
    decreases |log'|
  {
    if |log| < |log'| {
      RowsLast(log, t, log'[..|log'| - 1], t');
    } else if log != [] {
      assert log == log';
      RowsLast(log[..|log| - 1], t, log'[..|log'| - 1], t');
      RowsSameLength(log[..|log| - 1], t, t');
    }
  }

  lemma {:induction false} RowsSameLength(log: seq<Response>, t: Table, t': Table)
    requires forall i :: 0 <= i < |log| ==> log[i].reply.id in t && log[i].reply.id in t'
    ensures |RowsOf(log, t)| == |RowsOf(log, t')|
  {
    if log != [] {
      RowsSameLength(log[..|log| - 1], t, t');
    }
  }

  /** Whatever happens between two requests, the table a later one finds progresses from the earlier one's. */
  lemma {:induction false} RunProgresses(es: seq<Event>, more: seq<Event>)
    requires Exec(es).Some? && Exec(es + more).Some?
    ensures Progresses(TableAfter(es), TableAfter(es + more))
  {
    RowsOrdered(es);
    RowsOrdered(es + more);
    RunTable(es, more);
    var s, s' := Exec(es).value, Exec(es + more).value;
    RowsLast(s.log, s.db.messages, s'.log, s'.db.messages);
  }

  /** All that happens up to and between the requests of a client. */
  function Whole(es: seq<Event>, pauses: seq<seq<Event>>): seq<Event>
    decreases |pauses|
  {
    if pauses == [] then es else Whole(es + pauses[0], pauses[1..])
  }

  lemma {:induction false} WholePrefix(es: seq<Event>, pauses: seq<seq<Event>>)
    requires Exec(Whole(es, pauses)).Some?
    ensures Exec(es).Some?
    decreases |pauses|
  {
    if pauses != [] {
      WholePrefix(es + pauses[0], pauses[1..]);
      ExecPrefix(es, pauses[0]);
    }
  }

  /** The tables that the requests after the first one find. */
  ghost function TablesAfter(es: seq<Event>, pauses: seq<seq<Event>>): seq<Rows>
    requires Exec(Whole(es, pauses)).Some?
    decreases |pauses|
  {
    if pauses == [] then []
    else
      WholePrefix(es + pauses[0], pauses[1..]);
      [TableAfter(es + pauses[0])] + TablesAfter(es + pauses[0], pauses[1..])
  }

  lemma {:induction false} RunHistory(es: seq<Event>, pauses: seq<seq<Event>>)
    requires Exec(es).Some? && Exec(Whole(es, pauses)).Some?
    ensures History(TableAfter(es), TablesAfter(es, pauses))
    decreases |pauses|
  {
    RowsOrdered(es);
    if pauses != [] {
      WholePrefix(es + pauses[0], pauses[1..]);
      RunProgresses(es, pauses[0]);
      RunHistory(es + pauses[0], pauses[1..]);
      assert TablesAfter(es, pauses)[1..] == TablesAfter(es + pauses[0], pauses[1..]);
    }
  }

  /**
   In every run of the send protocol, with any events between the requests of a client that pages forwards from a
   message of the table: nothing that is visible at the end and behind the anchor is skipped or served twice, up to
   an anchor that was recalled or deleted meanwhile.
   */
  lemma {:induction false} ForwardInRuns(es: seq<Event>, pauses: seq<seq<Event>>, anchor: Message, limit: nat)
    requires Exec(es).Some? && Exec(Whole(es, pauses)).Some? && limit > 0
    requires anchor in TableAfter(es)
    ensures History(TableAfter(es), TablesAfter(es, pauses)) && Has(TableAfter(es), anchor)
    ensures Serves(TableAfter(es), anchor, Forward(TableAfter(es), TablesAfter(es, pauses), anchor, limit))
  {
    RunHistory(es, pauses);
    var rows := TableAfter(es);
    var i :| 0 <= i < |rows| && rows[i] == anchor;
    assert SameMessage(rows[i], anchor);
    ForwardServes(rows, TablesAfter(es, pauses), anchor, limit);
  }

  /** The same for a client that pages backwards from a message of sequence 2 or more. */
  lemma {:induction false} BackwardInRuns(es: seq<Event>, pauses: seq<seq<Event>>, anchor: Message, limit: nat)
    requires Exec(es).Some? && Exec(Whole(es, pauses)).Some? && limit > 0
    requires anchor in TableAfter(es) && anchor.sequence >= 2
    ensures History(TableAfter(es), TablesAfter(es, pauses)) && Has(TableAfter(es), anchor)
    ensures BackServes(TableAfter(es), anchor, Backward(TableAfter(es), TablesAfter(es, pauses), anchor, limit))
  {
    RunHistory(es, pauses);
    var rows := TableAfter(es);
    var i :| 0 <= i < |rows| && rows[i] == anchor;
    assert SameMessage(rows[i], anchor);
    BackwardServes(rows, TablesAfter(es, pauses), anchor, limit);
  }

  // ---------- Runs in which messages are only sent ----------

  ghost predicate OnlyTransactions(es: seq<Event>) {
    forall i :: 0 <= i < |es| ==> !es[i].Outside?
  }

  lemma NextKept(s: State, e: Event)
    requires Inv(s) && Enabled(s, e) && !e.Outside?
    ensures TableKeeps(s.db.messages, Next(s, e).db.messages)
  {
    if e.Advance? && s.txns[e.t].phase.Committing? {
      assert TxnInv(s.db, s.txns[e.t]);
      CommitKept(s.db, s.txns[e.t]);
    }
  }

  lemma {:induction false} RunKept(es: seq<Event>, more: seq<Event>)
    requires Exec(es).Some? && Exec(es + more).Some? && OnlyTransactions(more)
    ensures TableKeeps(Exec(es).value.db.messages, Exec(es + more).value.db.messages)
  {
    if more == [] {
      assert es + more == es;
    } else {
      var k := |more| - 1;
      assert (es + more)[..|es + more| - 1] == es + more[..k];
      ExecPrefix(es + more[..k], [more[k]]);
      RunKept(es, more[..k]);
      RunKeeps(es + more[..k]);
      NextKept(Exec(es + more[..k]).value, more[k]);
    }
  }

  lemma {:induction false} RowsKept(log: seq<Response>, t: Table, log': seq<Response>, t': Table)
    requires log <= log' && TableKeeps(t, t')
    requires forall i :: 0 <= i < |log| ==> log[i].reply.id in t
    requires forall i :: 0 <= i < |log'| ==> log'[i].reply.id in t'
    ensures RowsOf(log, t) <= RowsOf(log', t')
    ensures log == log' ==> RowsOf(log, t) == RowsOf(log', t')
    decreases |log'|
  {
    if |log| < |log'| {
      RowsKept(log, t, log'[..|log'| - 1], t');
    } else if log != [] {
      assert log == log';
      RowsKept(log[..|log| - 1], t, log'[..|log'| - 1], t');
    }
  }

  lemma {:induction false} RunOnlySends(es: seq<Event>, pauses: seq<seq<Event>>)
    requires Exec(es).Some? && Exec(Whole(es, pauses)).Some?
    requires forall i :: 0 <= i < |pauses| ==> OnlyTransactions(pauses[i])
    ensures OnlySends(TableAfter(es), TablesAfter(es, pauses))
    decreases |pauses|
  {
    if pauses != [] {
      WholePrefix(es + pauses[0], pauses[1..]);
      TableGrows(es, pauses[0]);
      RunOnlySends(es + pauses[0], pauses[1..]);
      assert TablesAfter(es, pauses)[1..] == TablesAfter(es + pauses[0], pauses[1..]);
    }
  }

  lemma TableGrows(es: seq<Event>, more: seq<Event>)
    requires Exec(es).Some? && Exec(es + more).Some? && OnlyTransactions(more)
    ensures TableAfter(es) <= TableAfter(es + more)
  {
    RowsOrdered(es);
    RowsOrdered(es + more);
    RunTable(es, more);
    RunKept(es, more);
    var s, s' := Exec(es).value, Exec(es + more).value;
    RowsKept(s.log, s.db.messages, s'.log, s'.db.messages);
  }

  /**
   In every run, while only send transactions step, commit or abort between the requests, a client that pages
   forwards gets exactly what follows the anchor when the last page is served.
   */
  lemma {:induction false} CompleteInRuns(es: seq<Event>, pauses: seq<seq<Event>>, anchor: Message, limit: nat)
    requires Exec(es).Some? && Exec(Whole(es, pauses)).Some? && limit > 0
    requires forall i :: 0 <= i < |pauses| ==> OnlyTransactions(pauses[i])
    requires anchor in TableAfter(es) && anchor.status == Normal
    ensures History(TableAfter(es), TablesAfter(es, pauses)) && Has(TableAfter(es), anchor)
    ensures var r := Forward(TableAfter(es), TablesAfter(es, pauses), anchor, limit);
      r.stop.None? && r.messages == After(r.last, anchor.conversation, anchor.sequence)
  {
    ForwardInRuns(es, pauses, anchor, limit);
    RunOnlySends(es, pauses);
    ForwardComplete(TableAfter(es), TablesAfter(es, pauses), anchor, limit);
  }
}
