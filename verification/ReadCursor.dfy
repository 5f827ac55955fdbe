/** Read receipts: the cursor a user has in a conversation, and what is unread behind it. */
module ReadCursor {
  import opened Base
  import opened MessageModel
  import opened MessageWindow
  import MessageService

  datatype Who = Who(conversation: string, user: string)

  type Receipts = map<Who, int>

  /** What the conversation service answers: whether the conversation exists and is a single or group one. */
  datatype Lookup = Lookup(found: bool, chat: bool)

  /** Moves a cursor forward to `n`, creating it if need be. */
  function Submit(receipts: Receipts, who: Who, n: int): Receipts {
    receipts[who := if who in receipts && receipts[who] > n then receipts[who] else n]
  }

  /** The normal messages of a conversation among `ids`. */
  function Named(rows: Rows, conversation: string, ids: set<string>): set<Message> {
    set m | m in rows && m.conversation == conversation && m.status == Normal && m.id in ids
  }

  ghost predicate IsMaxSequence(named: set<Message>, n: int) {
    (exists m :: m in named && m.sequence == n) && forall m :: m in named ==> m.sequence <= n
  }

  /** The highest sequence among those messages, 0 if there are none. */
  function Highest(rows: Rows, conversation: string, ids: set<string>): int {
    if rows == [] then 0
    else
      var last, rest := rows[|rows| - 1], Highest(rows[..|rows| - 1], conversation, ids);
      if last.conversation == conversation && last.status == Normal && last.id in ids && last.sequence > rest
      then last.sequence else rest
  }

  lemma {:induction false} HighestIsMax(rows: Rows, conversation: string, ids: set<string>)
    requires forall m :: m in rows ==> m.sequence >= 1
    ensures Highest(rows, conversation, ids) >= 0
    ensures if Named(rows, conversation, ids) == {} then Highest(rows, conversation, ids) == 0
            else IsMaxSequence(Named(rows, conversation, ids), Highest(rows, conversation, ids))
  {
    if rows != [] {
      var before, last := rows[..|rows| - 1], rows[|rows| - 1];
      HighestIsMax(before, conversation, ids);
      assert rows == before + [last];
      assert last in rows;
      var named, earlier := Named(rows, conversation, ids), Named(before, conversation, ids);
      if last.conversation == conversation && last.status == Normal && last.id in ids {
        assert last in named && named == earlier + {last};
      } else {
        assert named == earlier;
      }
    }
  }

  // ---------- Calls and the position each one asks for ----------

  datatype Call =
    | MarkRead(who: Who, lookup: Lookup, lastReadSeq: Option<int>)
    | MarkMessages(who: Who, lookup: Lookup, rows: Rows, messageIds: seq<string>)

  function Requested(c: Call): set<string>
    requires c.MarkMessages?
  {
    set id | id in c.messageIds && id != ""
  }

  /** The read position a call stands for, None when it is refused or names no normal message. */
  function Effective(c: Call): Option<int> {
    if c.who.user == "" || c.who.conversation == "" || !c.lookup.found || !c.lookup.chat then None
    else
      match c
      case MarkRead(_, _, n) => Some(if n.Some? then n.value else 0)
      case MarkMessages(who, _, rows, _) =>
        if Named(rows, who.conversation, Requested(c)) == {} then None
        else Some(Highest(rows, who.conversation, Requested(c)))
  }

  function Advanced(receipts: Receipts, c: Call): Receipts {
    if Effective(c).Some? then Submit(receipts, c.who, Effective(c).value) else receipts
  }

  /** The cursor of `who` is now the later of where it was, if anywhere, and `n`; no other cursor has changed. */
  ghost predicate MovedTo(before: Receipts, after: Receipts, who: Who, n: int) {
    && who in after && after[who] == (if who in before && before[who] > n then before[who] else n)
    && forall w :: w != who ==> (w in after <==> w in before) && (w in after ==> after[w] == before[w])
  }

  class ReadReceipts {
    var receipts: Receipts

    constructor ()
      ensures receipts == map[]
    {
      receipts := map[];
    }

    method MarkAsRead(who: Who, lookup: Lookup, lastReadSeq: Option<int>) returns (r: Result<(), ServiceError>)
      modifies this
      ensures receipts == Advanced(old(receipts), MarkRead(who, lookup, lastReadSeq))
      ensures r.Ok? ==> MovedTo(old(receipts), receipts, who, if lastReadSeq.Some? then lastReadSeq.value else 0)
      ensures r.Err? ==> receipts == old(receipts)
      ensures r == (
        if who.user == "" || who.conversation == "" then Err(ParamError)
        else if !lookup.found then Err(ConversationNotFound)
        else if !lookup.chat then Err(ParamError)
        else Ok(()))
    {
      if who.user == "" || who.conversation == "" {
        return Err(ParamError);
      }
      if !lookup.found {
        return Err(ConversationNotFound);
      }
      if !lookup.chat {
        return Err(ParamError);
      }
      var effective := 0;
      if lastReadSeq.Some? {
        effective := lastReadSeq.value;
      }
      if who in receipts && receipts[who] > effective {
        effective := receipts[who];
      }
      receipts := receipts[who := effective];
      return Ok(());
    }

    /** SELECT the normal messages of the conversation among `ids`. */
    method Lookups(rows: Rows, conversation: string, ids: seq<string>) returns (found: seq<Message>)
      ensures forall m :: m in found <==> m in Named(rows, conversation, set id | id in ids)
    {
      found := [];
      for k := 0 to |rows|
        invariant forall m :: m in found <==> m in Named(rows[..k], conversation, set id | id in ids)
      {
        if rows[k].conversation == conversation && rows[k].status == Normal && rows[k].id in ids {
          found := found + [rows[k]];
        }
      }
      assert rows[..|rows|] == rows;
    }

    /** The highest sequence among the rows found, 0 if there are none, and the ids found. */
    method Scan(found: seq<Message>) returns (maxSeq: int, accepted: set<string>)
      requires forall m :: m in found ==> m.sequence >= 1
      ensures accepted == set m | m in found :: m.id
      ensures if found == [] then maxSeq == 0 else IsMaxSequence((set m | m in found), maxSeq)
    {
      maxSeq, accepted := 0, {};
      for k := 0 to |found|
        invariant accepted == set m | m in found[..k] :: m.id
        invariant maxSeq >= 0 && (k == 0 ==> maxSeq == 0)
        invariant k > 0 ==> exists i :: 0 <= i < k && found[i].sequence == maxSeq
        invariant forall i :: 0 <= i < k ==> found[i].sequence <= maxSeq
      {
        accepted := accepted + {found[k].id};
        assert found[k] in found;
        if found[k].sequence >= maxSeq {
          maxSeq := found[k].sequence;
        }
      }
      assert found[..|found|] == found;
      if found != [] {
        var i :| 0 <= i < |found| && found[i].sequence == maxSeq;
        assert found[i] in (set m | m in found);
      }
    }

    /** The ids of `ids` that were accepted, in request order. */
    method Keep(ids: seq<string>, accepted: set<string>) returns (kept: seq<string>)
      requires forall i, j :: 0 <= i < j < |ids| ==> ids[i] != ids[j]
      ensures forall id :: id in kept <==> id in ids && id in accepted
      ensures forall i, j :: 0 <= i < j < |kept| ==> kept[i] != kept[j]
    {
      kept := [];
      for k := 0 to |ids|
        invariant forall id :: id in kept <==> id in ids[..k] && id in accepted
        invariant forall i, j :: 0 <= i < j < |kept| ==> kept[i] != kept[j]
      {
        assert ids[k] !in ids[..k];
        if ids[k] in accepted {
          kept := kept + [ids[k]];
        }
      }
      assert ids[..|ids|] == ids;
    }

    /** The distinct ids of a request, the highest sequence among the normal messages they name, and their ids. */
    method Resolve(rows: Rows, conversation: string, messageIds: seq<string>)
      returns (kept: seq<string>, maxSeq: int)
      requires Ordered(rows)
      ensures var ids := set id | id in messageIds && id != "";
        && maxSeq == Highest(rows, conversation, ids)
        && (forall id :: id in kept <==> exists m :: m in Named(rows, conversation, ids) && m.id == id)
      ensures forall i, j :: 0 <= i < j < |kept| ==> kept[i] != kept[j]
    {
      var ids := MessageService.DistinctIds(messageIds);
      var found := Lookups(rows, conversation, ids);
      ghost var wanted := set id | id in messageIds && id != "";
      assert (set id | id in ids) == wanted;
      assert (set m | m in found) == Named(rows, conversation, wanted);
      assert forall m :: m in rows ==> m.sequence >= 1;
      HighestIsMax(rows, conversation, wanted);
      var accepted;
      maxSeq, accepted := Scan(found);
      kept := Keep(ids, accepted);
    }

    /** Accepts exactly the named normal messages, each once, and submits the highest of their sequences. */
    method MarkMessagesRead(rows: Rows, who: Who, lookup: Lookup, messageIds: seq<string>)
      returns (r: Result<seq<string>, ServiceError>)
      requires Ordered(rows)
      modifies this
      ensures receipts == Advanced(old(receipts), MarkMessages(who, lookup, rows, messageIds))
      ensures r.Ok? && r.value != [] ==>
        exists n :: MovedTo(old(receipts), receipts, who, n)
          && IsMaxSequence(Named(rows, who.conversation, set id | id in messageIds && id != ""), n)
      ensures r.Err? || r.value == [] ==> receipts == old(receipts)
      ensures var n := Highest(rows, who.conversation, set id | id in messageIds && id != "");
        r.Err? <==>
          || who.user == "" || who.conversation == "" || (messageIds != [] && !lookup.found)
          || (messageIds != [] && !lookup.chat && n > 0 && (who in old(receipts) ==> n > old(receipts)[who]))
      ensures r.Err? ==>
        r.error ==
          if who.user != "" && who.conversation != "" && !lookup.found then ConversationNotFound else ParamError
      ensures r.Ok? ==>
        && (forall i, j :: 0 <= i < j < |r.value| ==> r.value[i] != r.value[j])
        && forall id :: id in r.value <==>
             exists m :: m in Named(rows, who.conversation, set id | id in messageIds && id != "") && m.id == id
    {
      if who.user == "" || who.conversation == "" {
        return Err(ParamError);
      }
      ghost var call := MarkMessages(who, lookup, rows, messageIds);
      assert forall m :: m in rows ==> m.sequence >= 1;
      HighestIsMax(rows, who.conversation, Requested(call));
      if |messageIds| == 0 {
        return Ok([]);
      }
      if !lookup.found {
        return Err(ConversationNotFound);
      }
      var kept, maxSeq := Resolve(rows, who.conversation, messageIds);
      if |kept| == 0 {
        assert Named(rows, who.conversation, Requested(call)) == {} by {
          assert forall m :: m in Named(rows, who.conversation, Requested(call)) ==> m.id in kept;
        }
        return Ok(kept);
      }
      assert kept[0] in kept;
      var current := 0;
      if who in receipts {
        current := receipts[who];
      }
      if maxSeq > current {
        var marked := MarkAsRead(who, lookup, Some(maxSeq));
        if marked.Err? {
          return Err(marked.error);
        }
      } else {
        assert receipts == receipts[who := receipts[who]];
      }
      assert MovedTo(old(receipts), receipts, who, maxSeq);
      return Ok(kept);
    }

    /** How many messages are unread behind the given position, or behind the caller's cursor. */
    method GetUnreadCount(rows: Rows, who: Who, lookup: Lookup, lastReadSeq: Option<int>)
      returns (r: Result<nat, ServiceError>)
      ensures r == (
        if who.user == "" || who.conversation == "" then Err(ParamError)
        else if !lookup.found then Err(ConversationNotFound)
        else Ok(UnreadCount(rows, who.conversation, if lastReadSeq.Some? then lastReadSeq.value else Cursor(who))))
    {
      if who.user == "" || who.conversation == "" {
        return Err(ParamError);
      }
      if !lookup.found {
        return Err(ConversationNotFound);
      }
      var readSeq := 0;
      if lastReadSeq.Some? {
        readSeq := lastReadSeq.value;
      } else if who in receipts {
        readSeq := receipts[who];
      }
      var count := 0;
      for k := 0 to |rows|
        invariant count == UnreadCount(rows[..k], who.conversation, readSeq)
      {
        assert rows[..k + 1] == rows[..k] + [rows[k]];
        SelectAppend(rows[..k], [rows[k]], who.conversation, Some(readSeq + 1), None);
        if rows[k].conversation == who.conversation && rows[k].sequence > readSeq && rows[k].status == Normal {
          count := count + 1;
        }
      }
      assert rows[..|rows|] == rows;
      return Ok(count);
    }

    /** The cursor of `who`, 0 without a receipt. */
    function Cursor(who: Who): int
      reads this
    {
      if who in receipts then receipts[who] else 0
    }

    /** The oldest unread message and the unread count the response carries. */
    method GetFirstUnreadAnchor(rows: Rows, who: Who, lookup: Lookup)
      returns (r: Result<(Option<Message>, int), ServiceError>)
      ensures r == (
        if who.user == "" || who.conversation == "" then Err(ParamError)
        else if !lookup.found then Err(ConversationNotFound)
        else Ok(FirstUnread(rows, who.conversation, Cursor(who))))
    {
      if who.user == "" || who.conversation == "" {
        return Err(ParamError);
      }
      if !lookup.found {
        return Err(ConversationNotFound);
      }
      var lastRead := 0;
      if who in receipts {
        lastRead := receipts[who];
      }
      var unread := GetByConversation(rows, who.conversation, lastRead + 1, 0, 1, false);
      if |unread| == 0 {
        return Ok((None, 0));
      }
      return Ok((Some(unread[0]), |unread|));
    }
  }

  // ---------- The cursor over whole runs ----------

  function Replay(run: seq<Call>): Receipts {
    if run == [] then map[] else Advanced(Replay(run[..|run| - 1]), run[|run| - 1])
  }

  /** The call is well-formed and its conversation a chat. */
  predicate Heard(c: Call) { c.who.user != "" && c.who.conversation != "" && c.lookup.found && c.lookup.chat }

  /** The call submits the number `n` for `who`, outright or as the sequence of a normal message it names. */
  ghost predicate Submits(c: Call, who: Who, n: int) {
    && c.who == who && Heard(c)
    && match c
       case MarkRead(_, _, given) => n == if given.Some? then given.value else 0
       case MarkMessages(_, _, rows, ids) =>
         exists m :: && m in rows && m.conversation == who.conversation && m.status == Normal && m.sequence == n
                     && m.id in ids && m.id != ""
  }

  ghost predicate Submitted(run: seq<Call>, who: Who, n: int) {
    exists i :: 0 <= i < |run| && Submits(run[i], who, n)
  }

  /** Sequence numbers start at 1. */
  ghost predicate Numbered(c: Call) { c.MarkMessages? ==> forall m :: m in c.rows ==> m.sequence >= 1 }

  ghost predicate AllNumbered(run: seq<Call>) { forall i :: 0 <= i < |run| ==> Numbered(run[i]) }

  /** The position a call stands for is the greatest number it submits, and there is none exactly if it submits none. */
  lemma EffectiveExact(c: Call)
    requires Numbered(c)
    ensures Effective(c).Some? ==> Submits(c, c.who, Effective(c).value)
    ensures forall n :: Submits(c, c.who, n) ==> Effective(c).Some? && n <= Effective(c).value
  {
    if c.MarkMessages? {
      var named := Named(c.rows, c.who.conversation, Requested(c));
      HighestIsMax(c.rows, c.who.conversation, Requested(c));
      forall n | Submits(c, c.who, n) ensures Effective(c).Some? && n <= Effective(c).value {
        var m :| && m in c.rows && m.conversation == c.who.conversation && m.status == Normal && m.sequence == n
                 && m.id in c.messageIds && m.id != "";
        assert m in named;
      }
      if Effective(c).Some? {
        var m :| m in named && m.sequence == Effective(c).value;
        assert m in c.rows && m.id in c.messageIds && m.id != "";
      }
    }
  }

  lemma SubmittedLast(before: seq<Call>, last: Call, who: Who, n: int)
    ensures Submitted(before + [last], who, n) <==> Submitted(before, who, n) || Submits(last, who, n)
  {
    var run := before + [last];
    if Submitted(before, who, n) {
      var i :| 0 <= i < |before| && Submits(before[i], who, n);
      assert Submits(run[i], who, n);
    }
    if Submits(last, who, n) {
      assert Submits(run[|before|], who, n);
    }
    if i :| 0 <= i < |run| && Submits(run[i], who, n) && i < |before| {
      assert Submits(before[i], who, n);
    }
  }

  /**
   After any run of the two calls the cursor is the maximum of the numbers submitted, and is absent when there is
   none.
   */
  lemma {:induction false} CursorIsMaximum(run: seq<Call>, who: Who)
    requires AllNumbered(run)
    ensures who in Replay(run) <==> exists n :: Submitted(run, who, n)
    ensures who in Replay(run) ==>
      Submitted(run, who, Replay(run)[who]) && forall n :: Submitted(run, who, n) ==> n <= Replay(run)[who]
  {
    if run != [] {
      var before, last := run[..|run| - 1], run[|run| - 1];
      assert run == before + [last];
      CursorIsMaximum(before, who);
      EffectiveExact(last);
      forall n ensures Submitted(run, who, n) <==> Submitted(before, who, n) || Submits(last, who, n) {
        SubmittedLast(before, last, who, n);
      }
      if last.who == who && Effective(last).Some? {
        assert Submitted(run, who, Effective(last).value);
      }
    }
  }

  /** Whatever else was called, a message once marked as read is not unread behind the cursor. */
  lemma {:induction false} MarkedStaysRead(run: seq<Call>, i: nat, m: Message)
    requires AllNumbered(run) && i < |run| && run[i].MarkMessages? && Heard(run[i])
    requires m in run[i].rows && m.conversation == run[i].who.conversation && m.status == Normal
    requires m.id in run[i].messageIds && m.id != ""
    ensures run[i].who in Replay(run)
    ensures m !in After(run[i].rows, m.conversation, Replay(run)[run[i].who])
  {
    assert Submits(run[i], run[i].who, m.sequence);
    assert Submitted(run, run[i].who, m.sequence);
    CursorIsMaximum(run, run[i].who);
    SelectSound(run[i].rows, m.conversation, Some(Replay(run)[run[i].who] + 1), None);
  }

  /** A cursor never moves back. */
  lemma {:induction false} CursorNeverDecreases(run: seq<Call>, more: seq<Call>, who: Who)
    requires who in Replay(run)
    ensures who in Replay(run + more) && Replay(run)[who] <= Replay(run + more)[who]
  {
    if more == [] {
      assert run + more == run;
    } else {
      var k := |more| - 1;
      CursorNeverDecreases(run, more[..k], who);
      assert (run + more)[..|run + more| - 1] == run + more[..k];
    }
  }

  // ---------- What is unread ----------

  /** Normal messages above a read position. */
  function UnreadCount(rows: Rows, conversation: string, lastRead: int): nat {
    |After(rows, conversation, lastRead)|
  }

  /** It is the number of normal messages of the conversation with a higher sequence. */
  lemma {:induction false} UnreadCountExact(rows: Rows, conversation: string, lastRead: int)
    requires Ordered(rows)
    ensures UnreadCount(rows, conversation, lastRead)
      == |set m | m in rows && m.conversation == conversation && m.status == Normal && m.sequence > lastRead|
  {
    var a := After(rows, conversation, lastRead);
    SelectSound(rows, conversation, Some(lastRead + 1), None);
    SelectIncreasing(rows, conversation, Some(lastRead + 1), None);
    IncreasingCount(a);
    assert (set m | m in a)
      == set m | m in rows && m.conversation == conversation && m.status == Normal && m.sequence > lastRead;
  }

  lemma {:induction false} IncreasingCount(s: seq<Message>)
    requires Increasing(s)
    ensures |set m | m in s| == |s|
  {
    if s != [] {
      var k := |s| - 1;
      IncreasingCount(s[..k]);
      assert s == s[..k] + [s[k]];
      assert (set m | m in s) == (set m | m in s[..k]) + {s[k]};
      assert s[k] !in s[..k];
    }
  }

  function FirstUnread(rows: Rows, conversation: string, cursor: int): (Option<Message>, int) {
    var unread := GetByConversation(rows, conversation, cursor + 1, 0, 1, false);
    if unread == [] then (None, 0) else (Some(unread[0]), |unread|)
  }

  /** A cursor below 1 drops the query's bound, which excludes nothing since numbers start at 1. */
  lemma UnreadQuery(rows: Rows, conversation: string, cursor: int)
    requires Ordered(rows)
    ensures GetByConversation(rows, conversation, cursor + 1, 0, 1, false)
      == First(After(rows, conversation, cursor), 1)
  {
    if cursor + 1 <= 0 {
      forall m | m in rows
        ensures Matches(m, conversation, None, None) <==> Matches(m, conversation, Some(cursor + 1), None)
      {
        var i :| 0 <= i < |rows| && rows[i] == m;
      }
      SelectSame(rows, conversation, None, None, Some(cursor + 1), None);
    }
  }

  /** An anchor exists exactly when something is unread, and is then the least unread message. */
  lemma FirstUnreadExact(rows: Rows, conversation: string, cursor: int)
    requires Ordered(rows)
    ensures var first := FirstUnread(rows, conversation, cursor).0;
      && (first.Some? <==> UnreadCount(rows, conversation, cursor) > 0)
      && (first.Some? ==>
            && first.value in rows && first.value.conversation == conversation && first.value.status == Normal
            && first.value.sequence > cursor
            && forall m :: m in rows && m.conversation == conversation && m.status == Normal && m.sequence > cursor ==>
                 first.value.sequence <= m.sequence)
  {
    UnreadQuery(rows, conversation, cursor);
    var a := After(rows, conversation, cursor);
    SelectSound(rows, conversation, Some(cursor + 1), None);
    SelectIncreasing(rows, conversation, Some(cursor + 1), None);
    if a != [] {
      assert a[0] in a;
      forall m | m in rows && m.conversation == conversation && m.status == Normal && m.sequence > cursor
        ensures a[0].sequence <= m.sequence
      {
        assert m in a;
        var i :| 0 <= i < |a| && a[i] == m;
      }
    }
  }

  /** The count sent along with the anchor is the size of a query limited to one row: right only up to 1. */
  lemma ReportedCount(rows: Rows, conversation: string, cursor: int)
    requires Ordered(rows)
    ensures FirstUnread(rows, conversation, cursor).1 == UnreadCount(rows, conversation, cursor)
      <==> UnreadCount(rows, conversation, cursor) <= 1
  {
    UnreadQuery(rows, conversation, cursor);
  }

  /** With two messages and nothing read, the response reports one unread message. */
  lemma ReportedCountCounterexample()
    ensures var m1 := Stored(Compose("m1", "c", "u", Content("", ""), 1, 0, Policy(0, 0)));
            var m2 := Stored(Compose("m2", "c", "u", Content("", ""), 2, 0, Policy(0, 0)));
      && Ordered([m1, m2]) && FirstUnread([m1, m2], "c", 0).1 == 1 && UnreadCount([m1, m2], "c", 0) == 2
  {
    var m1 := Stored(Compose("m1", "c", "u", Content("", ""), 1, 0, Policy(0, 0)));
    var m2 := Stored(Compose("m2", "c", "u", Content("", ""), 2, 0, Policy(0, 0)));
    assert m1.id[1] != m2.id[1];
    assert [m1, m2][1..] == [m2];
    assert Select([m2], "c", Some(1), None) == [m2];
  }
}
