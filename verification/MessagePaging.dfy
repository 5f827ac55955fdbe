/** A client that pages until HasMore is false sees every visible message on that side once, in order. */
module MessagePaging {
  import opened Base
  import opened MessageModel
  import opened MessageWindow

  /** An increasing list cut at a sequence: exactly the entries below the cut are in front. */
  lemma CutAt(s: seq<Message>, x: seq<Message>, y: seq<Message>, cut: int, k: nat)
    requires Increasing(s) && s == x + y && k <= |s|
    requires (forall m :: m in x ==> m.sequence < cut) && (forall m :: m in y ==> m.sequence >= cut)
    requires (k > 0 ==> s[k - 1].sequence < cut) && (k < |s| ==> s[k].sequence >= cut)
    ensures x == s[..k] && y == s[k..]
  {
    forall i | 0 <= i < |s| ensures i < |x| <==> s[i].sequence < cut {
      if i < |x| {
        assert s[i] == x[i] && x[i] in x;
      } else {
        assert s[i] == y[i - |x|] && y[i - |x|] in y;
      }
    }
    assert 0 < |x| ==> s[|x| - 1].sequence < cut;
    assert |x| < |s| ==> s[|x|].sequence >= cut;
  }

  /** What follows an anchor is any prefix of it and what follows that prefix. */
  lemma AfterContinues(rows: Rows, conversation: string, anchor: int, k: nat)
    requires Ordered(rows) && k < |After(rows, conversation, anchor)|
    ensures var a := After(rows, conversation, anchor);
      a == a[..k + 1] + After(rows, conversation, a[k].sequence)
  {
    var a := After(rows, conversation, anchor);
    SelectIncreasing(rows, conversation, Some(anchor + 1), None);
    SelectSound(rows, conversation, Some(anchor + 1), None);
    assert a[k] in a;
    SelectSound(rows, conversation, Some(anchor + 1), Some(a[k].sequence));
    SelectSound(rows, conversation, Some(a[k].sequence + 1), None);
    SplitAt(rows, conversation, Some(anchor + 1), None, a[k].sequence + 1);
    var x := Select(rows, conversation, Some(anchor + 1), Some(a[k].sequence));
    var y := After(rows, conversation, a[k].sequence);
    CutAt(a, x, y, a[k].sequence + 1, k + 1);
  }

  /** What precedes an anchor is what precedes any of its entries, and the rest from there. */
  lemma BeforeContinues(rows: Rows, conversation: string, anchor: int, k: nat)
    requires Ordered(rows) && k < |Before(rows, conversation, anchor)|
    ensures var b := Before(rows, conversation, anchor);
      b == Before(rows, conversation, b[k].sequence) + b[k..]
  {
    var b := Before(rows, conversation, anchor);
    SelectIncreasing(rows, conversation, None, Some(anchor - 1));
    SelectSound(rows, conversation, None, Some(anchor - 1));
    assert b[k] in b;
    SelectSound(rows, conversation, None, Some(b[k].sequence - 1));
    SelectSound(rows, conversation, Some(b[k].sequence), Some(anchor - 1));
    SplitAt(rows, conversation, None, Some(anchor - 1), b[k].sequence);
    CutAt(b, Before(rows, conversation, b[k].sequence),
          Select(rows, conversation, Some(b[k].sequence), Some(anchor - 1)), b[k].sequence, k);
  }

  // ---------- Forwards, while the table changes ----------

  /** The same message later on: it keeps its identity and, once not normal, never becomes normal again. */
  ghost predicate Lasting(m: Message, m': Message) {
    && m'.id == m.id && m'.conversation == m.conversation && m'.sequence == m.sequence
    && (m'.status == Normal ==> m.status == Normal)
  }

  /** The table after any number of sends, recalls, deletions and deadline changes. */
  ghost predicate Progresses(rows: Rows, rows': Rows) {
    |rows| <= |rows'| && Ordered(rows') && forall i :: 0 <= i < |rows| ==> Lasting(rows[i], rows'[i])
  }

  lemma ProgressesOn(a: Rows, b: Rows, c: Rows)
    requires Progresses(a, b) && Progresses(b, c)
    ensures Progresses(a, c)
  {
    forall i | 0 <= i < |a| ensures Lasting(a[i], c[i]) {
      assert Lasting(a[i], b[i]) && Lasting(b[i], c[i]);
    }
  }

  /** `later` lists the tables that the following requests find; afterwards the table stays as it is. */
  ghost predicate History(rows: Rows, later: seq<Rows>)
    decreases later
  {
    Ordered(rows) && (later != [] ==> Progresses(rows, later[0]) && History(later[0], later[1..]))
  }

  function Found(rows: Rows, later: seq<Rows>): Rows { if later == [] then rows else later[0] }

  function Rest(later: seq<Rows>): seq<Rows> { if later == [] then [] else later[1..] }

  lemma HistoryOn(rows: Rows, later: seq<Rows>)
    requires History(rows, later)
    ensures Progresses(rows, Found(rows, later)) && History(Found(rows, later), Rest(later))
  {
  }

  /** The table has the message, whatever its status by now. */
  ghost predicate Has(rows: Rows, m: Message) {
    exists i :: 0 <= i < |rows| && SameMessage(rows[i], m)
  }

  predicate SameMessage(x: Message, m: Message) {
    x.id == m.id && x.conversation == m.conversation && x.sequence == m.sequence
  }

  /** The service takes the message as an anchor. */
  predicate Accepts(rows: Rows, m: Message) {
    var found := GetByMessageID(rows, m.id);
    found.Some? && found.value.conversation == m.conversation && found.value.status == Normal
  }

  /** That is, its row is still normal. */
  lemma AcceptsExact(rows: Rows, m: Message, i: nat)
    requires Ordered(rows) && i < |rows| && SameMessage(rows[i], m)
    ensures Accepts(rows, m) <==> rows[i].status == Normal
  {
    if rows[i].status == Normal {
      LookupFinds(rows, rows[i]);
    }
    if Accepts(rows, m) {
      LookupSound(rows, m.id);
      var j :| 0 <= j < |rows| && rows[j] == GetByMessageID(rows, m.id).value;
      assert i == j;
    }
  }

  lemma AnchorFound(rows: Rows, m: Message, caller: Caller)
    requires m.id != "" && m.conversation != "" && caller.user != "" && caller.accessible
    ensures FindAnchor(rows, caller, m.conversation, m.id).Ok? <==> Accepts(rows, m)
  {
  }

  lemma PrefixUpTo(a: seq<Message>, k: nat)
    requires Increasing(a) && k < |a|
    ensures Increasing(a[..k + 1])
    ensures forall m :: m in a[..k + 1] <==> m in a && m.sequence <= a[k].sequence
  {
    forall m | m in a && m.sequence <= a[k].sequence ensures m in a[..k + 1] {
      var i :| 0 <= i < |a| && a[i] == m;
    }
  }

  lemma PageShape(rows: Rows, anchor: Message, limit: nat)
    requires Ordered(rows) && limit > 0 && AfterPage(rows, anchor.conversation, anchor.sequence, limit).hasMore
    ensures var c, a := anchor.conversation, After(rows, anchor.conversation, anchor.sequence);
            var page := AfterPage(rows, c, anchor.sequence, limit).messages;
      && Increasing(page) && |page| == limit
      && (forall m :: m in page <==> m in a && m.sequence <= page[limit - 1].sequence)
      && |After(rows, c, page[limit - 1].sequence)| < |a|
  {
    var c, a := anchor.conversation, After(rows, anchor.conversation, anchor.sequence);
    SelectIncreasing(rows, c, Some(anchor.sequence + 1), None);
    PageIsPrefix(rows, anchor, limit);
    AfterContinues(rows, c, anchor.sequence, limit - 1);
    PrefixUpTo(a, limit - 1);
    assert a[..limit - 1 + 1] == a[..limit] && a[..limit][limit - 1] == a[limit - 1];
  }

  lemma PageIsPrefix(rows: Rows, anchor: Message, limit: nat)
    requires AfterPage(rows, anchor.conversation, anchor.sequence, limit).hasMore
    ensures var a := After(rows, anchor.conversation, anchor.sequence);
      |a| > limit && AfterPage(rows, anchor.conversation, anchor.sequence, limit).messages == a[..limit]
  {
  }

  /** A page with more to come holds exactly the visible messages up to its last one. */
  lemma PageExact(rows: Rows, anchor: Message, limit: nat)
    requires Ordered(rows) && limit > 0 && AfterPage(rows, anchor.conversation, anchor.sequence, limit).hasMore
    ensures var page := AfterPage(rows, anchor.conversation, anchor.sequence, limit).messages;
            var next := page[limit - 1];
      && Increasing(page) && |page| == limit
      && (forall m :: m in page <==>
            m in rows && Matches(m, anchor.conversation, Some(anchor.sequence + 1), Some(next.sequence)))
      && |After(rows, anchor.conversation, next.sequence)| < |After(rows, anchor.conversation, anchor.sequence)|
  {
    PageShape(rows, anchor, limit);
    SelectSound(rows, anchor.conversation, Some(anchor.sequence + 1), None);
  }

  lemma NextHas(rows: Rows, later: seq<Rows>, anchor: Message, limit: nat)
    requires History(rows, later) && limit > 0
    requires AfterPage(rows, anchor.conversation, anchor.sequence, limit).hasMore
    ensures var next := AfterPage(rows, anchor.conversation, anchor.sequence, limit).messages[limit - 1];
      && next in rows && next.status == Normal
      && next.conversation == anchor.conversation && next.sequence > anchor.sequence
      && Has(Found(rows, later), next)
  {
    PageExact(rows, anchor, limit);
    HistoryOn(rows, later);
    var page := AfterPage(rows, anchor.conversation, anchor.sequence, limit).messages;
    assert page[limit - 1] in page;
    var i :| 0 <= i < |rows| && rows[i] == page[limit - 1];
    assert Lasting(rows[i], Found(rows, later)[i]);
  }

  /** `stop` is the sequence of the anchor whose request failed, `last` the table at the last request. */
  datatype Browse = Browse(messages: seq<Message>, stop: Option<int>, last: Rows)

  /** All pages of a client that goes forwards from `anchor` until a page has no more or a request fails. */
  ghost function Forward(rows: Rows, later: seq<Rows>, anchor: Message, limit: nat): Browse
    requires History(rows, later) && Has(rows, anchor) && limit > 0
    decreases |later|, |After(rows, anchor.conversation, anchor.sequence)|
  {
    var page := AfterPage(rows, anchor.conversation, anchor.sequence, limit);
    if !Accepts(rows, anchor) then Browse([], Some(anchor.sequence), rows)
    else if !page.hasMore then Browse(page.messages, None, rows)
    else
      PageExact(rows, anchor, limit);
      NextHas(rows, later, anchor, limit);
      HistoryOn(rows, later);
      var rest := Forward(Found(rows, later), Rest(later), page.messages[limit - 1], limit);
      Browse(page.messages + rest.messages, rest.stop, rest.last)
  }

  predicate Served(messages: seq<Message>, id: string) {
    exists i :: 0 <= i < |messages| && messages[i].id == id
  }

  /** The pages are in order, behind the anchor, and hold messages of the table only. */
  ghost predicate InOrder(r: Browse, anchor: Message) {
    && Increasing(r.messages)
    && forall m :: m in r.messages ==> m.sequence > anchor.sequence && Has(r.last, m)
  }

  /** A message still visible was served exactly if it is behind the anchor, up to where a request failed. */
  ghost predicate Complete(r: Browse, anchor: Message) {
    forall i :: 0 <= i < |r.last| && Matches(r.last[i], anchor.conversation, None, None) ==>
      (Served(r.messages, r.last[i].id)
       <==> anchor.sequence < r.last[i].sequence && (r.stop.Some? ==> r.last[i].sequence <= r.stop.value))
  }

  /** A request fails only because its anchor, the client's first or one it was served, is no longer visible. */
  ghost predicate Excused(r: Browse, anchor: Message) {
    r.stop.Some? ==>
      && r.stop.value >= anchor.sequence
      && exists i :: 0 <= i < |r.last| && Blames(r, anchor, r.last[i])
  }

  predicate Blames(r: Browse, anchor: Message, x: Message) {
    && x.conversation == anchor.conversation && x.status != Normal
    && r.stop == Some(x.sequence) && (x.id == anchor.id || Served(r.messages, x.id))
  }

  lemma PageServes(rows: Rows, last: Rows, anchor: Message, limit: nat, i: nat)
    requires Progresses(rows, last) && Ordered(rows) && limit > 0 && i < |last|
    requires AfterPage(rows, anchor.conversation, anchor.sequence, limit).hasMore
    requires Matches(last[i], anchor.conversation, None, None)
    ensures var page := AfterPage(rows, anchor.conversation, anchor.sequence, limit).messages;
      Served(page, last[i].id) <==> anchor.sequence < last[i].sequence <= page[limit - 1].sequence
  {
    PageExact(rows, anchor, limit);
    var page := AfterPage(rows, anchor.conversation, anchor.sequence, limit).messages;
    if k :| 0 <= k < |page| && page[k].id == last[i].id {
      assert page[k] in page;
      var j :| 0 <= j < |rows| && rows[j] == page[k];
      assert Lasting(rows[j], last[j]);
      assert j == i;
    }
    if anchor.sequence < last[i].sequence <= page[limit - 1].sequence {
      assert page[limit - 1] in page;
      var j :| 0 <= j < |rows| && rows[j] == page[limit - 1];
      assert Lasting(rows[j], last[j]);
      assert i < |rows|;
      assert Lasting(rows[i], last[i]);
      assert rows[i] in page;
    }
  }

  lemma LastPageServes(rows: Rows, anchor: Message)
    requires Ordered(rows)
    ensures var r := Browse(After(rows, anchor.conversation, anchor.sequence), None, rows);
      InOrder(r, anchor) && Complete(r, anchor)
  {
    var a := After(rows, anchor.conversation, anchor.sequence);
    SelectSound(rows, anchor.conversation, Some(anchor.sequence + 1), None);
    SelectIncreasing(rows, anchor.conversation, Some(anchor.sequence + 1), None);
    forall m | m in a ensures m.sequence > anchor.sequence && Has(rows, m) {
      var i :| 0 <= i < |rows| && rows[i] == m;
      assert SameMessage(rows[i], m);
    }
    forall i | 0 <= i < |rows| && Matches(rows[i], anchor.conversation, None, None)
      ensures Served(a, rows[i].id) <==> anchor.sequence < rows[i].sequence
    {
      if k :| 0 <= k < |a| && a[k].id == rows[i].id {
        assert a[k] in a;
        var j :| 0 <= j < |rows| && rows[j] == a[k];
        assert j == i;
      }
      if anchor.sequence < rows[i].sequence {
        assert rows[i] in a;
      }
    }
  }

  lemma ServedBoth(a: seq<Message>, b: seq<Message>, id: string)
    ensures Served(a + b, id) <==> Served(a, id) || Served(b, id)
  {
    var s := a + b;
    if k :| 0 <= k < |a| && a[k].id == id {
      assert s[k].id == id;
    }
    if k :| 0 <= k < |b| && b[k].id == id {
      assert s[|a| + k].id == id;
    }
    if k :| 0 <= k < |s| && s[k].id == id {
      assert k < |a| ==> a[k].id == id;
      assert k >= |a| ==> b[k - |a|].id == id;
    }
  }

  lemma JoinedInOrder(rows: Rows, anchor: Message, limit: nat, rest: Browse)
    requires Ordered(rows) && limit > 0 && AfterPage(rows, anchor.conversation, anchor.sequence, limit).hasMore
    requires var next := AfterPage(rows, anchor.conversation, anchor.sequence, limit).messages[limit - 1];
      InOrder(rest, next) && next.sequence > anchor.sequence
    requires Progresses(rows, rest.last)
    ensures var page := AfterPage(rows, anchor.conversation, anchor.sequence, limit).messages;
      InOrder(Browse(page + rest.messages, rest.stop, rest.last), anchor)
  {
    PageExact(rows, anchor, limit);
    var page := AfterPage(rows, anchor.conversation, anchor.sequence, limit).messages;
    var next, all := page[limit - 1], page + rest.messages;
    forall m | m in page ensures m.sequence > anchor.sequence && m.sequence <= next.sequence && Has(rest.last, m) {
      var i :| 0 <= i < |rows| && rows[i] == m;
      assert Lasting(rows[i], rest.last[i]);
      assert SameMessage(rest.last[i], m);
    }
    forall i, j | 0 <= i < j < |all| ensures all[i].sequence < all[j].sequence {
      if j >= limit {
        assert all[j] in rest.messages;
        if i < limit {
          assert all[i] in page;
        }
      }
    }
  }

  lemma JoinedComplete(rows: Rows, anchor: Message, limit: nat, rest: Browse)
    requires Ordered(rows) && limit > 0 && AfterPage(rows, anchor.conversation, anchor.sequence, limit).hasMore
    requires var next := AfterPage(rows, anchor.conversation, anchor.sequence, limit).messages[limit - 1];
      && Complete(rest, next) && Excused(rest, next)
      && next.conversation == anchor.conversation && next.sequence > anchor.sequence && next in rows
    requires Progresses(rows, rest.last)
    ensures var page := AfterPage(rows, anchor.conversation, anchor.sequence, limit).messages;
      Complete(Browse(page + rest.messages, rest.stop, rest.last), anchor)
  {
    var page := AfterPage(rows, anchor.conversation, anchor.sequence, limit).messages;
    var last := rest.last;
    forall i | 0 <= i < |last| && Matches(last[i], anchor.conversation, None, None)
      ensures Served(page + rest.messages, last[i].id)
        <==> anchor.sequence < last[i].sequence && (rest.stop.Some? ==> last[i].sequence <= rest.stop.value)
    {
      PageServes(rows, last, anchor, limit, i);
      ServedBoth(page, rest.messages, last[i].id);
    }
  }

  lemma JoinedExcused(page: seq<Message>, anchor: Message, rest: Browse)
    requires page != [] && page[|page| - 1].conversation == anchor.conversation
    requires page[|page| - 1].sequence > anchor.sequence && Excused(rest, page[|page| - 1])
    ensures Excused(Browse(page + rest.messages, rest.stop, rest.last), anchor)
  {
    var next, r := page[|page| - 1], Browse(page + rest.messages, rest.stop, rest.last);
    if rest.stop.Some? {
      var i :| 0 <= i < |rest.last| && Blames(rest, next, rest.last[i]);
      ServedBoth(page, rest.messages, rest.last[i].id);
      assert Served(page, next.id);
      assert Blames(r, anchor, r.last[i]);
    }
  }

  ghost predicate Serves(rows: Rows, anchor: Message, r: Browse) {
    Progresses(rows, r.last) && InOrder(r, anchor) && Complete(r, anchor) && Excused(r, anchor)
  }

  lemma JoinedServes(rows: Rows, rows': Rows, anchor: Message, limit: nat, rest: Browse)
    requires Ordered(rows) && limit > 0 && AfterPage(rows, anchor.conversation, anchor.sequence, limit).hasMore
    requires var next := AfterPage(rows, anchor.conversation, anchor.sequence, limit).messages[limit - 1];
      && Progresses(rows, rows') && Serves(rows', next, rest)
      && next.conversation == anchor.conversation && next.sequence > anchor.sequence && next in rows
    ensures var page := AfterPage(rows, anchor.conversation, anchor.sequence, limit).messages;
      Serves(rows, anchor, Browse(page + rest.messages, rest.stop, rest.last))
  {
    ProgressesOn(rows, rows', rest.last);
    JoinedInOrder(rows, anchor, limit, rest);
    JoinedComplete(rows, anchor, limit, rest);
    JoinedExcused(AfterPage(rows, anchor.conversation, anchor.sequence, limit).messages, anchor, rest);
  }

  lemma RefusedServes(rows: Rows, anchor: Message)
    requires Ordered(rows) && Has(rows, anchor) && !Accepts(rows, anchor)
    ensures Serves(rows, anchor, Browse([], Some(anchor.sequence), rows))
  {
    var i :| 0 <= i < |rows| && SameMessage(rows[i], anchor);
    AcceptsExact(rows, anchor, i);
    assert Blames(Browse([], Some(anchor.sequence), rows), anchor, rows[i]);
  }

  lemma DoneServes(rows: Rows, anchor: Message, limit: nat)
    requires Ordered(rows) && !AfterPage(rows, anchor.conversation, anchor.sequence, limit).hasMore
    ensures var page := AfterPage(rows, anchor.conversation, anchor.sequence, limit);
      Serves(rows, anchor, Browse(page.messages, None, rows))
  {
    LastPageServes(rows, anchor);
    var a := After(rows, anchor.conversation, anchor.sequence);
    assert First(a, limit) == a;
  }

  /**
   Whatever is sent, recalled or deleted between the pages: they are strictly increasing, a message that is visible
   at the end was served, once, exactly if it is behind the anchor and not behind an anchor whose request failed,
   and a request fails only because its anchor was recalled or deleted.
   */
  lemma {:induction false} ForwardServes(rows: Rows, later: seq<Rows>, anchor: Message, limit: nat)
    requires History(rows, later) && Has(rows, anchor) && limit > 0
    ensures Serves(rows, anchor, Forward(rows, later, anchor, limit))
    decreases |later|, |After(rows, anchor.conversation, anchor.sequence)|
  {
    if Accepts(rows, anchor) && AfterPage(rows, anchor.conversation, anchor.sequence, limit).hasMore {
      PageExact(rows, anchor, limit);
      NextHas(rows, later, anchor, limit);
      HistoryOn(rows, later);
      var next := AfterPage(rows, anchor.conversation, anchor.sequence, limit).messages[limit - 1];
      ForwardServes(Found(rows, later), Rest(later), next, limit);
      JoinedServes(rows, Found(rows, later), anchor, limit, Forward(Found(rows, later), Rest(later), next, limit));
    } else if Accepts(rows, anchor) {
      DoneServes(rows, anchor, limit);
    } else {
      RefusedServes(rows, anchor);
    }
  }

  // ---------- Forwards, while messages are only sent ----------

  ghost predicate OnlySends(rows: Rows, later: seq<Rows>)
    decreases later
  {
    later != [] ==> rows <= later[0] && OnlySends(later[0], later[1..])
  }

  lemma {:induction false} OnlySendsServes(rows: Rows, later: seq<Rows>, anchor: Message, limit: nat)
    requires History(rows, later) && Has(rows, anchor) && limit > 0 && OnlySends(rows, later) && Accepts(rows, anchor)
    ensures var r := Forward(rows, later, anchor, limit);
      && rows <= r.last && r.stop.None?
      && forall m :: m in r.messages ==> m in r.last && Matches(m, anchor.conversation, None, None)
    decreases |later|, |After(rows, anchor.conversation, anchor.sequence)|
  {
    var page := AfterPage(rows, anchor.conversation, anchor.sequence, limit);
    if page.hasMore {
      PageExact(rows, anchor, limit);
      NextHas(rows, later, anchor, limit);
      HistoryOn(rows, later);
      var next, rows' := page.messages[limit - 1], Found(rows, later);
      NextAccepted(rows, rows', next);
      OnlySendsServes(rows', Rest(later), next, limit);
      PrefixOn(rows, rows', Forward(rows', Rest(later), next, limit).last);
    } else {
      SelectSound(rows, anchor.conversation, Some(anchor.sequence + 1), None);
      assert page.messages == After(rows, anchor.conversation, anchor.sequence);
    }
  }

  lemma NextAccepted(rows: Rows, rows': Rows, next: Message)
    requires rows <= rows' && Ordered(rows') && next in rows && next.status == Normal
    ensures Accepts(rows', next)
  {
    var i :| 0 <= i < |rows| && rows[i] == next;
    AcceptsExact(rows', next, i);
  }

  lemma PrefixOn(a: Rows, b: Rows, c: Rows)
    requires a <= b <= c
    ensures a <= c && forall m :: m in a ==> m in c
  {
  }

  lemma HeadIn(s: seq<Message>)
    ensures s != [] ==> s[0] in s
  {
  }

  /** Two increasing lists with the same elements are the same list. */
  lemma {:induction false} IncreasingUnique(a: seq<Message>, b: seq<Message>)
    requires Increasing(a) && Increasing(b) && forall m :: m in a <==> m in b
    ensures a == b
  {
    HeadIn(a);
    HeadIn(b);
    if a != [] {
      assert a[0] == b[0];
      forall m ensures m in a[1..] <==> m in b[1..] {
        if m in a[1..] {
          var i :| 0 < i < |a| && a[i] == m;
          assert m in a && m != a[0];
        }
        if m in b[1..] {
          var i :| 0 < i < |b| && b[i] == m;
          assert m in b && m != b[0];
        }
      }
      IncreasingUnique(a[1..], b[1..]);
    }
  }

  /** While messages are only sent, the pages are exactly what follows the anchor when the last one is served. */
  lemma ForwardComplete(rows: Rows, later: seq<Rows>, anchor: Message, limit: nat)
    requires History(rows, later) && OnlySends(rows, later) && limit > 0
    requires anchor in rows && anchor.status == Normal && Has(rows, anchor)
    ensures var r := Forward(rows, later, anchor, limit);
      r.stop.None? && rows <= r.last && r.messages == After(r.last, anchor.conversation, anchor.sequence)
  {
    var r := Forward(rows, later, anchor, limit);
    var i :| 0 <= i < |rows| && rows[i] == anchor;
    AcceptsExact(rows, anchor, i);
    OnlySendsServes(rows, later, anchor, limit);
    ForwardServes(rows, later, anchor, limit);
    ServedAreAfter(r, anchor);
  }

  lemma ServedAreAfter(r: Browse, anchor: Message)
    requires InOrder(r, anchor) && Complete(r, anchor) && r.stop.None? && Ordered(r.last)
    requires forall m :: m in r.messages ==> m in r.last
    requires forall m :: m in r.messages ==> Matches(m, anchor.conversation, None, None)
    ensures r.messages == After(r.last, anchor.conversation, anchor.sequence)
  {
    var a := After(r.last, anchor.conversation, anchor.sequence);
    SelectSound(r.last, anchor.conversation, Some(anchor.sequence + 1), None);
    SelectIncreasing(r.last, anchor.conversation, Some(anchor.sequence + 1), None);
    forall m | m in a ensures m in r.messages {
      var i :| 0 <= i < |r.last| && r.last[i] == m;
      assert Served(r.messages, m.id);
      var k :| 0 <= k < |r.messages| && r.messages[k].id == m.id;
      assert r.messages[k] in r.messages;
      var j :| 0 <= j < |r.last| && r.last[j] == r.messages[k];
      assert i == j;
    }
    IncreasingUnique(r.messages, a);
  }

  // ---------- Backwards, while the table changes ----------

  lemma SuffixFrom(b: seq<Message>, k: nat)
    requires Increasing(b) && k < |b|
    ensures Increasing(b[k..])
    ensures forall m :: m in b[k..] <==> m in b && m.sequence >= b[k].sequence
  {
    forall m | m in b && m.sequence >= b[k].sequence ensures m in b[k..] {
      var i :| 0 <= i < |b| && b[i] == m;
      assert b[k..][i - k] == m;
    }
  }

  lemma BackShape(rows: Rows, anchor: Message, limit: nat)
    requires Ordered(rows) && limit > 0 && anchor.sequence >= 2
    requires BeforePage(rows, anchor.conversation, anchor.sequence, limit).hasMore
    ensures var c, b := anchor.conversation, Before(rows, anchor.conversation, anchor.sequence);
            var page := BeforePage(rows, c, anchor.sequence, limit).messages;
      && Increasing(page) && |page| == limit
      && (forall m :: m in page <==> m in b && m.sequence >= page[0].sequence)
      && b == Before(rows, c, page[0].sequence) + page && b[0].sequence < page[0].sequence
      && |Before(rows, c, page[0].sequence)| < |b|
  {
    var c, b := anchor.conversation, Before(rows, anchor.conversation, anchor.sequence);
    var k := |b| - limit;
    SelectIncreasing(rows, c, None, Some(anchor.sequence - 1));
    BeforeContinues(rows, c, anchor.sequence, k);
    SuffixFrom(b, k);
    assert BeforePage(rows, c, anchor.sequence, limit).messages == b[k..];
  }

  /** A page with more to come holds exactly the visible messages from its first one on, which has others before it. */
  lemma BackExact(rows: Rows, anchor: Message, limit: nat)
    requires Ordered(rows) && limit > 0 && anchor.sequence >= 2
    requires BeforePage(rows, anchor.conversation, anchor.sequence, limit).hasMore
    ensures var page := BeforePage(rows, anchor.conversation, anchor.sequence, limit).messages;
            var next := page[0];
      && Increasing(page) && |page| == limit && next in page && next.sequence >= 2
      && (forall m :: m in page <==>
            m in rows && Matches(m, anchor.conversation, Some(next.sequence), Some(anchor.sequence - 1)))
      && |Before(rows, anchor.conversation, next.sequence)| < |Before(rows, anchor.conversation, anchor.sequence)|
  {
    BackShape(rows, anchor, limit);
    FirstPositive(rows, anchor.conversation, anchor.sequence);
    BeforeSound(rows, anchor.conversation, anchor.sequence);
    BackMembers(rows, anchor, Before(rows, anchor.conversation, anchor.sequence),
                BeforePage(rows, anchor.conversation, anchor.sequence, limit).messages);
  }

  lemma BackMembers(rows: Rows, anchor: Message, b: seq<Message>, page: seq<Message>)
    requires page != [] && forall m :: m in page <==> m in b && m.sequence >= page[0].sequence
    requires forall m :: m in b <==> m in rows && Matches(m, anchor.conversation, None, Some(anchor.sequence - 1))
    ensures page[0] in page
    ensures forall m :: m in page <==>
      m in rows && Matches(m, anchor.conversation, Some(page[0].sequence), Some(anchor.sequence - 1))
  {
  }

  lemma BeforeSound(rows: Rows, conversation: string, anchor: int)
    ensures forall m ::
      m in Before(rows, conversation, anchor) <==> m in rows && Matches(m, conversation, None, Some(anchor - 1))
  {
    SelectSound(rows, conversation, None, Some(anchor - 1));
  }

  lemma FirstPositive(rows: Rows, conversation: string, anchor: int)
    requires Ordered(rows)
    ensures Before(rows, conversation, anchor) != [] ==> Before(rows, conversation, anchor)[0].sequence >= 1
  {
    SelectSound(rows, conversation, None, Some(anchor - 1));
    HeadIn(Before(rows, conversation, anchor));
  }

  lemma BackHas(rows: Rows, later: seq<Rows>, anchor: Message, limit: nat)
    requires History(rows, later) && limit > 0 && anchor.sequence >= 2
    requires BeforePage(rows, anchor.conversation, anchor.sequence, limit).hasMore
    ensures var next := BeforePage(rows, anchor.conversation, anchor.sequence, limit).messages[0];
      && next in rows && next.status == Normal
      && next.conversation == anchor.conversation && 2 <= next.sequence < anchor.sequence
      && Has(Found(rows, later), next)
  {
    BackExact(rows, anchor, limit);
    HistoryOn(rows, later);
    var next := BeforePage(rows, anchor.conversation, anchor.sequence, limit).messages[0];
    var i :| 0 <= i < |rows| && rows[i] == next;
    assert Lasting(rows[i], Found(rows, later)[i]);
  }

  /** All pages of a client that goes backwards from `anchor` until a page has no more or a request fails. */
  ghost function Backward(rows: Rows, later: seq<Rows>, anchor: Message, limit: nat): Browse
    requires History(rows, later) && Has(rows, anchor) && limit > 0 && anchor.sequence >= 2
    decreases |later|, |Before(rows, anchor.conversation, anchor.sequence)|
  {
    var page := BeforePage(rows, anchor.conversation, anchor.sequence, limit);
    if !Accepts(rows, anchor) then Browse([], Some(anchor.sequence), rows)
    else if !page.hasMore then Browse(page.messages, None, rows)
    else
      BackExact(rows, anchor, limit);
      BackHas(rows, later, anchor, limit);
      HistoryOn(rows, later);
      var rest := Backward(Found(rows, later), Rest(later), page.messages[0], limit);
      Browse(rest.messages + page.messages, rest.stop, rest.last)
  }

  ghost predicate BackInOrder(r: Browse, anchor: Message) {
    && Increasing(r.messages)
    && forall m :: m in r.messages ==> m.sequence < anchor.sequence && Has(r.last, m)
  }

  /** A message still visible was served exactly if it is before the anchor, down to where a request failed. */
  ghost predicate BackComplete(r: Browse, anchor: Message) {
    forall i :: 0 <= i < |r.last| && Matches(r.last[i], anchor.conversation, None, None) ==>
      (Served(r.messages, r.last[i].id)
       <==> r.last[i].sequence < anchor.sequence && (r.stop.Some? ==> r.last[i].sequence >= r.stop.value))
  }

  ghost predicate BackExcused(r: Browse, anchor: Message) {
    r.stop.Some? ==>
      && r.stop.value <= anchor.sequence
      && exists i :: 0 <= i < |r.last| && Blames(r, anchor, r.last[i])
  }

  ghost predicate BackServes(rows: Rows, anchor: Message, r: Browse) {
    Progresses(rows, r.last) && BackInOrder(r, anchor) && BackComplete(r, anchor) && BackExcused(r, anchor)
  }

  /** Messages of the anchor's conversation that were not there yet come after it. */
  lemma NewComeAfter(rows: Rows, last: Rows, anchor: Message, i: nat)
    requires Progresses(rows, last) && Has(rows, anchor) && |rows| <= i < |last|
    requires last[i].conversation == anchor.conversation
    ensures last[i].sequence > anchor.sequence
  {
    var j :| 0 <= j < |rows| && SameMessage(rows[j], anchor);
    assert Lasting(rows[j], last[j]);
  }

  lemma BackPageServes(rows: Rows, last: Rows, anchor: Message, limit: nat, i: nat)
    requires Progresses(rows, last) && Ordered(rows) && Has(rows, anchor) && anchor.sequence >= 2
    requires limit > 0 && i < |last| && BeforePage(rows, anchor.conversation, anchor.sequence, limit).hasMore
    requires Matches(last[i], anchor.conversation, None, None)
    ensures var page := BeforePage(rows, anchor.conversation, anchor.sequence, limit).messages;
      Served(page, last[i].id) <==> page[0].sequence <= last[i].sequence < anchor.sequence
  {
    BackExact(rows, anchor, limit);
    BackPageServed(rows, last, anchor, BeforePage(rows, anchor.conversation, anchor.sequence, limit).messages, i);
  }

  lemma BackPageServed(rows: Rows, last: Rows, anchor: Message, page: seq<Message>, i: nat)
    requires Progresses(rows, last) && Has(rows, anchor) && i < |last| && page != []
    requires Matches(last[i], anchor.conversation, None, None)
    requires forall m :: m in page <==>
      m in rows && Matches(m, anchor.conversation, Some(page[0].sequence), Some(anchor.sequence - 1))
    ensures Served(page, last[i].id) <==> page[0].sequence <= last[i].sequence < anchor.sequence
  {
    if k :| 0 <= k < |page| && page[k].id == last[i].id {
      assert page[k] in page;
      var j :| 0 <= j < |rows| && rows[j] == page[k];
      assert Lasting(rows[j], last[j]);
      assert j == i;
    }
    if page[0].sequence <= last[i].sequence < anchor.sequence {
      if i >= |rows| {
        NewComeAfter(rows, last, anchor, i);
      }
      assert Lasting(rows[i], last[i]);
      assert rows[i] in page;
    }
  }

  lemma FirstPageServes(rows: Rows, anchor: Message)
    requires Ordered(rows) && anchor.sequence >= 2
    ensures var r := Browse(Before(rows, anchor.conversation, anchor.sequence), None, rows);
      BackInOrder(r, anchor) && BackComplete(r, anchor)
  {
    var b := Before(rows, anchor.conversation, anchor.sequence);
    SelectSound(rows, anchor.conversation, None, Some(anchor.sequence - 1));
    SelectIncreasing(rows, anchor.conversation, None, Some(anchor.sequence - 1));
    forall m | m in b ensures m.sequence < anchor.sequence && Has(rows, m) {
      var i :| 0 <= i < |rows| && rows[i] == m;
      assert SameMessage(rows[i], m);
    }
    forall i | 0 <= i < |rows| && Matches(rows[i], anchor.conversation, None, None)
      ensures Served(b, rows[i].id) <==> rows[i].sequence < anchor.sequence
    {
      if k :| 0 <= k < |b| && b[k].id == rows[i].id {
        assert b[k] in b;
        var j :| 0 <= j < |rows| && rows[j] == b[k];
        assert j == i;
      }
      if rows[i].sequence < anchor.sequence {
        assert rows[i] in b;
      }
    }
  }

  lemma BackJoinedInOrder(rows: Rows, anchor: Message, limit: nat, rest: Browse)
    requires Ordered(rows) && limit > 0 && anchor.sequence >= 2
    requires BeforePage(rows, anchor.conversation, anchor.sequence, limit).hasMore
    requires var next := BeforePage(rows, anchor.conversation, anchor.sequence, limit).messages[0];
      BackInOrder(rest, next) && next.sequence < anchor.sequence
    requires Progresses(rows, rest.last)
    ensures var page := BeforePage(rows, anchor.conversation, anchor.sequence, limit).messages;
      BackInOrder(Browse(rest.messages + page, rest.stop, rest.last), anchor)
  {
    BackExact(rows, anchor, limit);
    var page := BeforePage(rows, anchor.conversation, anchor.sequence, limit).messages;
    var all := rest.messages + page;
    forall m | m in page ensures page[0].sequence <= m.sequence < anchor.sequence && Has(rest.last, m) {
      var i :| 0 <= i < |rows| && rows[i] == m;
      assert Lasting(rows[i], rest.last[i]);
      assert SameMessage(rest.last[i], m);
    }
    forall i, j | 0 <= i < j < |all| ensures all[i].sequence < all[j].sequence {
      if i < |rest.messages| <= j {
        assert all[i] in rest.messages && all[j] in page;
      }
    }
  }

  lemma BackJoinedComplete(rows: Rows, anchor: Message, limit: nat, rest: Browse)
    requires Ordered(rows) && limit > 0 && anchor.sequence >= 2 && Has(rows, anchor)
    requires BeforePage(rows, anchor.conversation, anchor.sequence, limit).hasMore
    requires var next := BeforePage(rows, anchor.conversation, anchor.sequence, limit).messages[0];
      && BackComplete(rest, next) && BackExcused(rest, next)
      && next.conversation == anchor.conversation && next.sequence < anchor.sequence
    requires Progresses(rows, rest.last)
    ensures var page := BeforePage(rows, anchor.conversation, anchor.sequence, limit).messages;
      BackComplete(Browse(rest.messages + page, rest.stop, rest.last), anchor)
  {
    var page := BeforePage(rows, anchor.conversation, anchor.sequence, limit).messages;
    var last := rest.last;
    forall i | 0 <= i < |last| && Matches(last[i], anchor.conversation, None, None)
      ensures Served(rest.messages + page, last[i].id)
        <==> last[i].sequence < anchor.sequence && (rest.stop.Some? ==> last[i].sequence >= rest.stop.value)
    {
      BackPageServes(rows, last, anchor, limit, i);
      ServedBoth(rest.messages, page, last[i].id);
    }
  }

  lemma BackJoinedExcused(page: seq<Message>, anchor: Message, rest: Browse)
    requires page != [] && page[0].conversation == anchor.conversation
    requires page[0].sequence < anchor.sequence && BackExcused(rest, page[0])
    ensures BackExcused(Browse(rest.messages + page, rest.stop, rest.last), anchor)
  {
    var r := Browse(rest.messages + page, rest.stop, rest.last);
    if rest.stop.Some? {
      var i :| 0 <= i < |rest.last| && Blames(rest, page[0], rest.last[i]);
      ServedBoth(rest.messages, page, rest.last[i].id);
      assert Served(page, page[0].id);
      assert Blames(r, anchor, r.last[i]);
    }
  }

  lemma BackJoinedServes(rows: Rows, rows': Rows, anchor: Message, limit: nat, rest: Browse)
    requires Ordered(rows) && limit > 0 && anchor.sequence >= 2 && Has(rows, anchor)
    requires BeforePage(rows, anchor.conversation, anchor.sequence, limit).hasMore
    requires var next := BeforePage(rows, anchor.conversation, anchor.sequence, limit).messages[0];
      && Progresses(rows, rows') && BackServes(rows', next, rest)
      && next.conversation == anchor.conversation && next.sequence < anchor.sequence
    ensures var page := BeforePage(rows, anchor.conversation, anchor.sequence, limit).messages;
      BackServes(rows, anchor, Browse(rest.messages + page, rest.stop, rest.last))
  {
    ProgressesOn(rows, rows', rest.last);
    BackJoinedInOrder(rows, anchor, limit, rest);
    BackJoinedComplete(rows, anchor, limit, rest);
    BackExact(rows, anchor, limit);
    BackJoinedExcused(BeforePage(rows, anchor.conversation, anchor.sequence, limit).messages, anchor, rest);
  }

  lemma BackRefusedServes(rows: Rows, anchor: Message)
    requires Ordered(rows) && Has(rows, anchor) && !Accepts(rows, anchor)
    ensures BackServes(rows, anchor, Browse([], Some(anchor.sequence), rows))
  {
    var i :| 0 <= i < |rows| && SameMessage(rows[i], anchor);
    AcceptsExact(rows, anchor, i);
    assert Blames(Browse([], Some(anchor.sequence), rows), anchor, rows[i]);
  }

  lemma BackDoneServes(rows: Rows, anchor: Message, limit: nat)
    requires Ordered(rows) && anchor.sequence >= 2
    requires !BeforePage(rows, anchor.conversation, anchor.sequence, limit).hasMore
    ensures var page := BeforePage(rows, anchor.conversation, anchor.sequence, limit);
      BackServes(rows, anchor, Browse(page.messages, None, rows))
  {
    FirstPageServes(rows, anchor);
    var b := Before(rows, anchor.conversation, anchor.sequence);
    assert Last(b, limit) == b;
  }

  /**
   From any anchor but a conversation's first message, whatever is sent, recalled or deleted between the pages: joined
   they are strictly increasing, a message that is visible at the end was served, once, exactly if it is before the
   anchor and not before an anchor whose request failed, and a request fails only because its anchor was recalled or
   deleted.
   */
  lemma {:induction false} BackwardServes(rows: Rows, later: seq<Rows>, anchor: Message, limit: nat)
    requires History(rows, later) && Has(rows, anchor) && limit > 0 && anchor.sequence >= 2
    ensures BackServes(rows, anchor, Backward(rows, later, anchor, limit))
    decreases |later|, |Before(rows, anchor.conversation, anchor.sequence)|
  {
    if Accepts(rows, anchor) && BeforePage(rows, anchor.conversation, anchor.sequence, limit).hasMore {
      BackExact(rows, anchor, limit);
      BackHas(rows, later, anchor, limit);
      HistoryOn(rows, later);
      var next := BeforePage(rows, anchor.conversation, anchor.sequence, limit).messages[0];
      BackwardServes(Found(rows, later), Rest(later), next, limit);
      BackJoinedServes(rows, Found(rows, later), anchor, limit,
                       Backward(Found(rows, later), Rest(later), next, limit));
    } else if Accepts(rows, anchor) {
      BackDoneServes(rows, anchor, limit);
    } else {
      BackRefusedServes(rows, anchor);
    }
  }

  // ---------- Backwards on a fixed table ----------

  lemma {:induction false} BackwardAll(rows: Rows, anchor: Message, limit: nat)
    requires Ordered(rows) && Has(rows, anchor) && Accepts(rows, anchor) && anchor.sequence >= 2 && limit > 0
    ensures Backward(rows, [], anchor, limit)
      == Browse(Before(rows, anchor.conversation, anchor.sequence), None, rows)
    decreases |Before(rows, anchor.conversation, anchor.sequence)|
  {
    var page := BeforePage(rows, anchor.conversation, anchor.sequence, limit);
    if page.hasMore {
      BackExact(rows, anchor, limit);
      BackShape(rows, anchor, limit);
      BackHas(rows, [], anchor, limit);
      NextAccepted(rows, rows, page.messages[0]);
      BackwardAll(rows, page.messages[0], limit);
    } else {
      assert page.messages == Before(rows, anchor.conversation, anchor.sequence);
    }
  }

  /** On a fixed table, going back from any anchor but a conversation's first yields everything before it, in order. */
  lemma {:induction false} BackwardComplete(rows: Rows, anchor: Message, limit: nat)
    requires Ordered(rows) && anchor in rows && anchor.status == Normal && anchor.sequence >= 2 && limit > 0
    ensures Has(rows, anchor)
    ensures Backward(rows, [], anchor, limit).messages == Before(rows, anchor.conversation, anchor.sequence)
    ensures Increasing(Backward(rows, [], anchor, limit).messages) && Backward(rows, [], anchor, limit).stop.None?
  {
    NextAccepted(rows, rows, anchor);
    var i :| 0 <= i < |rows| && rows[i] == anchor;
    assert SameMessage(rows[i], anchor);
    BackwardAll(rows, anchor, limit);
    BeforeIncreasing(rows, anchor.conversation, anchor.sequence);
  }

  lemma BeforeIncreasing(rows: Rows, conversation: string, anchor: int)
    requires Ordered(rows)
    ensures Increasing(Before(rows, conversation, anchor))
  {
    SelectIncreasing(rows, conversation, None, Some(anchor - 1));
  }
}
