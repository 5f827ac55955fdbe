/** Sequence-window queries around an anchor message, and paging through a conversation with them. */
module MessageWindow {
  import opened Base
  import opened MessageModel

  /**
   The message table in index order: within a conversation the rows stand in increasing sequence order.
   (`SendHistory.RowsOrdered` derives this from the send protocol.)
   */
  type Rows = seq<Message>

  ghost predicate Ordered(rows: Rows) {
    && (forall i :: 0 <= i < |rows| ==> rows[i].sequence >= 1)
    && (forall i, j :: 0 <= i < j < |rows| && rows[i].conversation == rows[j].conversation ==>
          rows[i].sequence < rows[j].sequence)
    && (forall i, j :: 0 <= i < j < |rows| ==> rows[i].id != rows[j].id)
  }

  // ---------- The repository query ----------

  /** Normal messages of a conversation within the given inclusive sequence bounds. */
  predicate Matches(m: Message, conversation: string, lo: Option<int>, hi: Option<int>) {
    && m.conversation == conversation && m.status == Normal
    && (lo.Some? ==> m.sequence >= lo.value)
    && (hi.Some? ==> m.sequence <= hi.value)
  }

  function Select(rows: Rows, conversation: string, lo: Option<int>, hi: Option<int>): seq<Message> {
    if rows == [] then []
    else (if Matches(rows[0], conversation, lo, hi) then [rows[0]] else []) + Select(rows[1..], conversation, lo, hi)
  }

  /** A bound of the query that is not positive is no bound. */
  function Bound(b: int): Option<int> { if b > 0 then Some(b) else None }

  function Reversed<T>(s: seq<T>): (r: seq<T>)
    ensures |r| == |s| && forall i :: 0 <= i < |s| ==> r[i] == s[|s| - 1 - i]
  {
    seq(|s|, i requires 0 <= i < |s| => s[|s| - 1 - i])
  }

  function Limited<T>(s: seq<T>, limit: int): seq<T> {
    if 0 < limit < |s| then s[..limit] else s
  }

  function GetByConversation(rows: Rows, conversation: string, startSeq: int, endSeq: int, limit: int,
                             reverse: bool): seq<Message>
  {
    var hits := Select(rows, conversation, Bound(startSeq), Bound(endSeq));
    Limited(if reverse then Reversed(hits) else hits, limit)
  }

  /** message_id lookup among the rows that are not deleted. */
  function GetByMessageID(rows: Rows, id: string): Option<Message> {
    if rows == [] then None
    else if rows[0].id == id && rows[0].status != Deleted then Some(rows[0])
    else GetByMessageID(rows[1..], id)
  }

  // ---------- What the windows are meant to be ----------

  /** A conversation's normal messages, oldest first. */
  function Visible(rows: Rows, conversation: string): seq<Message> {
    Select(rows, conversation, None, None)
  }

  function Before(rows: Rows, conversation: string, anchor: int): seq<Message> {
    Select(rows, conversation, None, Some(anchor - 1))
  }

  function After(rows: Rows, conversation: string, anchor: int): seq<Message> {
    Select(rows, conversation, Some(anchor + 1), None)
  }

  function Last<T>(s: seq<T>, n: nat): seq<T> { s[|s| - Min(n, |s|)..] }

  function First<T>(s: seq<T>, n: nat): seq<T> { s[..Min(n, |s|)] }

  ghost predicate Increasing(s: seq<Message>) {
    forall i, j :: 0 <= i < j < |s| ==> s[i].sequence < s[j].sequence
  }

  // ---------- Selection facts ----------

  /** The rows after the first, each at a later index than the first. */
  lemma TailOrdered(rows: Rows)
    requires Ordered(rows) && rows != []
    ensures Ordered(rows[1..])
    ensures forall m :: m in rows[1..] && m.conversation == rows[0].conversation ==> rows[0].sequence < m.sequence
    ensures forall m :: m in rows[1..] ==> m.id != rows[0].id
  {
    forall m | m in rows[1..]
      ensures m.id != rows[0].id && (m.conversation == rows[0].conversation ==> rows[0].sequence < m.sequence)
    {
      var i :| 0 <= i < |rows[1..]| && rows[1..][i] == m;
      assert rows[i + 1] == m;
    }
  }

  lemma {:induction false} SelectSound(rows: Rows, conversation: string, lo: Option<int>, hi: Option<int>)
    ensures forall m :: m in Select(rows, conversation, lo, hi) <==> m in rows && Matches(m, conversation, lo, hi)
  {
    if rows != [] {
      SelectSound(rows[1..], conversation, lo, hi);
      assert forall m :: m in rows <==> m == rows[0] || m in rows[1..];
    }
  }

  lemma {:induction false} SelectAppend(a: Rows, b: Rows, conversation: string, lo: Option<int>, hi: Option<int>)
    ensures Select(a + b, conversation, lo, hi) == Select(a, conversation, lo, hi) + Select(b, conversation, lo, hi)
  {
    if a == [] {
      assert a + b == b;
    } else {
      assert (a + b)[0] == a[0] && (a + b)[1..] == a[1..] + b;
      SelectAppend(a[1..], b, conversation, lo, hi);
      SelectStep(a + b, conversation, lo, hi);
      SelectStep(a, conversation, lo, hi);
    }
  }

  lemma {:induction false} SelectSame(rows: Rows, conversation: string, lo: Option<int>, hi: Option<int>,
                                      lo': Option<int>, hi': Option<int>)
    requires forall m :: m in rows ==> (Matches(m, conversation, lo, hi) <==> Matches(m, conversation, lo', hi'))
    ensures Select(rows, conversation, lo, hi) == Select(rows, conversation, lo', hi')
  {
    if rows != [] {
      assert rows[0] in rows;
      SelectSame(rows[1..], conversation, lo, hi, lo', hi');
    }
  }

  lemma {:induction false} SelectNone(rows: Rows, conversation: string, lo: Option<int>, hi: Option<int>)
    requires forall m :: m in rows ==> !Matches(m, conversation, lo, hi)
    ensures Select(rows, conversation, lo, hi) == []
  {
    if rows != [] {
      assert rows[0] in rows;
      SelectNone(rows[1..], conversation, lo, hi);
    }
  }

  lemma {:induction false} SelectIncreasing(rows: Rows, conversation: string, lo: Option<int>, hi: Option<int>)
    requires Ordered(rows)
    ensures Increasing(Select(rows, conversation, lo, hi))
  {
    if rows != [] {
      TailOrdered(rows);
      SelectIncreasing(rows[1..], conversation, lo, hi);
      SelectSound(rows[1..], conversation, lo, hi);
      var rest, s := Select(rows[1..], conversation, lo, hi), Select(rows, conversation, lo, hi);
      assert forall j :: 0 <= j < |rest| ==> rest[j] in rest;
      if Matches(rows[0], conversation, lo, hi) {
        assert s == [rows[0]] + rest;
      } else {
        assert s == rest;
      }
    }
  }

  lemma SelectStep(rows: Rows, conversation: string, lo: Option<int>, hi: Option<int>)
    requires rows != []
    ensures Select(rows, conversation, lo, hi)
      == (if Matches(rows[0], conversation, lo, hi) then [rows[0]] else []) + Select(rows[1..], conversation, lo, hi)
  {
  }

  /** Cutting a conversation at any sequence splits its visible messages in two. */
  lemma {:induction false} SplitAt(rows: Rows, conversation: string, lo: Option<int>, hi: Option<int>, cut: int)
    requires Ordered(rows) && (lo.Some? ==> lo.value <= cut) && (hi.Some? ==> cut <= hi.value + 1)
    ensures Select(rows, conversation, lo, hi)
      == Select(rows, conversation, lo, Some(cut - 1)) + Select(rows, conversation, Some(cut), hi)
  {
    if rows != [] {
      TailOrdered(rows);
      SplitAt(rows[1..], conversation, lo, hi, cut);
      SelectStep(rows, conversation, lo, hi);
      SelectStep(rows, conversation, lo, Some(cut - 1));
      SelectStep(rows, conversation, Some(cut), hi);
      var head, left := [rows[0]], Select(rows[1..], conversation, lo, Some(cut - 1));
      var right := Select(rows[1..], conversation, Some(cut), hi);
      if Matches(rows[0], conversation, Some(cut), hi) {
        SelectNone(rows[1..], conversation, lo, Some(cut - 1));
        assert head + (left + right) == left + (head + right);
      } else if Matches(rows[0], conversation, lo, Some(cut - 1)) {
        assert head + (left + right) == (head + left) + right;
      }
    }
  }

  /** A visible anchor stands alone at its own sequence. */
  lemma {:induction false} SelectOne(rows: Rows, m: Message)
    requires Ordered(rows) && m in rows && m.status == Normal
    ensures Select(rows, m.conversation, Some(m.sequence), None) == [m] + After(rows, m.conversation, m.sequence)
  {
    TailOrdered(rows);
    if rows[0] == m {
      SelectSame(rows[1..], m.conversation, Some(m.sequence), None, Some(m.sequence + 1), None);
    } else {
      assert m in rows[1..];
      SelectOne(rows[1..], m);
    }
  }

  /** A visible anchor sits between what is before it and what is after it. */
  lemma SplitAround(rows: Rows, m: Message)
    requires Ordered(rows) && m in rows && m.status == Normal
    ensures Visible(rows, m.conversation)
      == Before(rows, m.conversation, m.sequence) + [m] + After(rows, m.conversation, m.sequence)
  {
    SplitAt(rows, m.conversation, None, None, m.sequence);
    SelectOne(rows, m);
  }

  lemma {:induction false} LookupFinds(rows: Rows, m: Message)
    requires Ordered(rows) && m in rows && m.status != Deleted
    ensures GetByMessageID(rows, m.id) == Some(m)
  {
    TailOrdered(rows);
    if rows[0] != m {
      assert m in rows[1..];
      LookupFinds(rows[1..], m);
    }
  }

  lemma {:induction false} LookupSound(rows: Rows, id: string)
    requires GetByMessageID(rows, id).Some?
    ensures var m := GetByMessageID(rows, id).value; m in rows && m.id == id && m.status != Deleted
  {
    if !(rows[0].id == id && rows[0].status != Deleted) {
      LookupSound(rows[1..], id);
    }
  }

  // ---------- The service ----------

  const DEFAULT_LIMIT := 20
  const MAX_LIMIT := 100

  function NormalizeLimit(limit: int): (r: nat)
    ensures 1 <= r <= MAX_LIMIT && (1 <= limit <= MAX_LIMIT ==> r == limit)
    ensures (limit <= 0 ==> r == 20) && (limit > 100 ==> r == 100)
  {
    if limit <= 0 then DEFAULT_LIMIT else if limit > MAX_LIMIT then MAX_LIMIT else limit
  }

  /** Swaps from both ends until the two indices meet. */
  method ReverseModelMessages(messages: array<Message>)
    modifies messages
    ensures messages[..] == Reversed(old(messages[..]))
  {
    var i, j := 0, messages.Length - 1;
    while i < j
      invariant 0 <= i <= j + 1 <= messages.Length && i + j == messages.Length - 1
      invariant forall k :: 0 <= k < messages.Length && !(i <= k <= j) ==>
        messages[k] == old(messages[..])[messages.Length - 1 - k]
      invariant forall k :: i <= k <= j ==> messages[k] == old(messages[..])[k]
      decreases j - i
    {
      messages[i], messages[j] := messages[j], messages[i];
      i, j := i + 1, j - 1;
    }
  }

  /** What the before-window query is cut from: every earlier message, except that anchor 1 loses its bound. */
  function BeforeSource(rows: Rows, conversation: string, anchor: int): seq<Message> {
    if anchor <= 0 then [] else if anchor == 1 then Visible(rows, conversation) else Before(rows, conversation, anchor)
  }

  /** Taking from the reversed list and reversing again takes from the end. */
  lemma ReversedFirst<T>(s: seq<T>, n: nat)
    ensures Reversed(First(Reversed(s), n)) == Last(s, n)
  {
    var r, last := Reversed(First(Reversed(s), n)), Last(s, n);
    assert |r| == |last| && forall i :: 0 <= i < |last| ==> r[i] == last[i];
  }

  datatype Page = Page(messages: seq<Message>, hasMore: bool)

  function BeforePage(rows: Rows, conversation: string, anchor: int, limit: nat): Page {
    var source := BeforeSource(rows, conversation, anchor);
    Page(Last(source, limit), |source| > limit)
  }

  function AfterPage(rows: Rows, conversation: string, anchor: int, limit: nat): Page {
    var source := After(rows, conversation, anchor);
    Page(First(source, limit), |source| > limit)
  }

  /** Reverses a result list in place. */
  method ReverseList(messages: seq<Message>) returns (r: seq<Message>)
    ensures r == Reversed(messages)
  {
    var buffer := new Message[|messages|](i requires 0 <= i < |messages| => messages[i]);
    assert buffer[..] == messages;
    ReverseModelMessages(buffer);
    r := buffer[..];
  }

  /** Truncating the descending query to the limit and reversing it gives the page. */
  lemma BeforeQuery(rows: Rows, conversation: string, anchor: int, limit: nat)
    requires limit > 0 && anchor >= 1
    ensures var found := GetByConversation(rows, conversation, 0, anchor - 1, limit + 1, true);
      && (|found| > limit <==> BeforePage(rows, conversation, anchor, limit).hasMore)
      && Reversed(if |found| > limit then found[..limit] else found)
           == BeforePage(rows, conversation, anchor, limit).messages
  {
    var source := BeforeSource(rows, conversation, anchor);
    var found := Limited(Reversed(source), limit + 1);
    assert (if |found| > limit then found[..limit] else found) == First(Reversed(source), limit);
    ReversedFirst(source, limit);
  }

  method FetchBeforeMessages(rows: Rows, conversation: string, anchor: int, limit: nat) returns (page: Page)
    requires limit > 0
    ensures page == BeforePage(rows, conversation, anchor, limit)
  {
    if anchor <= 0 {
      return Page([], false);
    }
    var messages := GetByConversation(rows, conversation, 0, anchor - 1, limit + 1, true);
    BeforeQuery(rows, conversation, anchor, limit);
    var hasMore := false;
    if |messages| > limit {
      hasMore := true;
      messages := messages[..limit];
    }
    messages := ReverseList(messages);
    return Page(messages, hasMore);
  }

  method FetchAfterMessages(rows: Rows, conversation: string, anchor: int, limit: nat) returns (page: Page)
    requires limit > 0 && anchor >= 0
    ensures page == AfterPage(rows, conversation, anchor, limit)
  {
    var messages := GetByConversation(rows, conversation, anchor + 1, 0, limit + 1, false);
    var hasMore := false;
    if |messages| > limit {
      hasMore := true;
      messages := messages[..limit];
    }
    return Page(messages, hasMore);
  }

  // ---------- Requests ----------

  /** `accessible` is the answer of the conversation service. */
  datatype Caller = Caller(user: string, accessible: bool)

  /** The anchor named by a request, or the error the request fails with. */
  function FindAnchor(rows: Rows, caller: Caller, conversation: string, anchorId: string)
    : Result<Message, ServiceError>
  {
    if conversation == "" || anchorId == "" || caller.user == "" then Err(ParamError)
    else if !caller.accessible then Err(ConversationNotFound)
    else
      var found := GetByMessageID(rows, anchorId);
      if found.None? || found.value.conversation != conversation || found.value.status != Normal
      then Err(MessageNotFound)
      else Ok(found.value)
  }

  /**
   A request finds its anchor exactly if it is well-formed, its caller has access to the conversation, and the anchor
   is a normal message of it; otherwise the error tells which of these fails first.
   */
  lemma {:induction false} FindAnchorExact(rows: Rows, caller: Caller, conversation: string, anchorId: string)
    requires Ordered(rows)
    ensures var r, formed := FindAnchor(rows, caller, conversation, anchorId),
                             conversation != "" && anchorId != "" && caller.user != "";
      && (forall m :: r == Ok(m) <==>
            && formed && caller.accessible
            && m in rows && m.id == anchorId && m.conversation == conversation && m.status == Normal)
      && (r == Err(ParamError) <==> !formed)
      && (r == Err(ConversationNotFound) <==> formed && !caller.accessible)
      && (r.Err? && formed && caller.accessible ==> r == Err(MessageNotFound))
  {
    if GetByMessageID(rows, anchorId).Some? {
      LookupSound(rows, anchorId);
    }
    forall m | m in rows && m.id == anchorId && m.status == Normal
      ensures GetByMessageID(rows, anchorId) == Some(m)
    {
      LookupFinds(rows, m);
    }
  }

  method GetMessagesBefore(rows: Rows, caller: Caller, conversation: string, anchorId: string, limit: int)
    returns (r: Result<Page, ServiceError>)
    ensures var a := FindAnchor(rows, caller, conversation, anchorId);
      r == if a.Err? then Err(a.error) else Ok(BeforePage(rows, conversation, a.value.sequence, NormalizeLimit(limit)))
  {
    var anchor := FindAnchor(rows, caller, conversation, anchorId);
    if anchor.Err? {
      return Err(anchor.error);
    }
    var page := FetchBeforeMessages(rows, conversation, anchor.value.sequence, NormalizeLimit(limit));
    return Ok(page);
  }

  method GetMessagesAfter(rows: Rows, caller: Caller, conversation: string, anchorId: string, limit: int)
    returns (r: Result<Page, ServiceError>)
    requires Ordered(rows)
    ensures var a := FindAnchor(rows, caller, conversation, anchorId);
      r == if a.Err? then Err(a.error) else Ok(AfterPage(rows, conversation, a.value.sequence, NormalizeLimit(limit)))
  {
    var anchor := FindAnchor(rows, caller, conversation, anchorId);
    if anchor.Err? {
      return Err(anchor.error);
    }
    LookupSound(rows, anchorId);
    var page := FetchAfterMessages(rows, conversation, anchor.value.sequence, NormalizeLimit(limit));
    return Ok(page);
  }

  datatype Around = Around(messages: seq<Message>, moreBefore: bool, moreAfter: bool)

  /** The slice of the visible messages around position `i`, with at most the given number on each side. */
  function Slice(visible: seq<Message>, i: nat, before: nat, after: nat): Around
    requires i < |visible|
  {
    var lo := i - Min(before, i);
    var hi := i + 1 + Min(after, |visible| - i - 1);
    Around(visible[lo..hi], lo > 0, hi < |visible|)
  }

  lemma FirstHasNoneBefore(rows: Rows, a: Message)
    requires Ordered(rows)
    ensures a.sequence == 1 ==> Before(rows, a.conversation, a.sequence) == []
  {
    if a.sequence == 1 {
      assert forall m :: m in rows ==> exists i :: 0 <= i < |rows| && rows[i] == m;
      SelectNone(rows, a.conversation, None, Some(0));
    }
  }

  lemma SliceOf(b: seq<Message>, m: Message, c: seq<Message>, before: nat, after: nat)
    ensures var s := Slice(b + [m] + c, |b|, before, after);
      && s.messages == Last(b, before) + [m] + First(c, after)
      && s.moreBefore == (|b| > before) && s.moreAfter == (|c| > after)
  {
  }

  /** The concatenation the service builds around an anchor. */
  function Joined(rows: Rows, a: Message, before: nat, after: nat): Around {
    var earlier := BeforePage(rows, a.conversation, a.sequence, before);
    var later := AfterPage(rows, a.conversation, a.sequence, after);
    Around(earlier.messages + [a] + later.messages, earlier.hasMore, later.hasMore)
  }

  ghost predicate IsWindow(rows: Rows, a: Message, before: nat, after: nat, r: Around) {
    var v, i := Visible(rows, a.conversation), |Before(rows, a.conversation, a.sequence)|;
    i < |v| && v[i] == a && r == Slice(v, i, before, after)
  }

  /** The answer is the window exactly when the anchor is not the first message of its conversation. */
  lemma AroundExact(rows: Rows, a: Message, before: nat, after: nat)
    requires Ordered(rows) && a in rows && a.status == Normal && before > 0
    ensures IsWindow(rows, a, before, after, Joined(rows, a, before, after)) <==> a.sequence >= 2
  {
    var i :| 0 <= i < |rows| && rows[i] == a;
    var b, c := Before(rows, a.conversation, a.sequence), After(rows, a.conversation, a.sequence);
    SplitAround(rows, a);
    FirstHasNoneBefore(rows, a);
    SliceOf(b, a, c, before, after);
    if a.sequence == 1 {
      assert |Joined(rows, a, before, after).messages| > |[a] + First(c, after)|;
    }
  }

  /**
   For an anchor of sequence 2 or more the answer is the contiguous slice of the visible messages around the
   anchor, as long on each side as its limit allows, with exact flags.
   */
  method GetMessagesAroundAnchor(rows: Rows, caller: Caller, conversation: string, anchorId: string,
                                 before: int, after: int)
    returns (r: Result<Around, ServiceError>)
    requires Ordered(rows)
    ensures var a := FindAnchor(rows, caller, conversation, anchorId);
      if a.Err? then r == Err(a.error)
      else
        && r.Ok? && r.value == Joined(rows, a.value, NormalizeLimit(before), NormalizeLimit(after))
        && (a.value.sequence >= 2 ==> IsWindow(rows, a.value, NormalizeLimit(before), NormalizeLimit(after), r.value))
  {
    var anchor := FindAnchor(rows, caller, conversation, anchorId);
    if anchor.Err? {
      return Err(anchor.error);
    }
    LookupSound(rows, anchorId);
    var a := anchor.value;
    var earlier := FetchBeforeMessages(rows, conversation, a.sequence, NormalizeLimit(before));
    var later := FetchAfterMessages(rows, conversation, a.sequence, NormalizeLimit(after));
    var all := earlier.messages;
    all := all + [a];
    all := all + later.messages;
    AroundExact(rows, a, NormalizeLimit(before), NormalizeLimit(after));
    return Ok(Around(all, earlier.hasMore, later.hasMore));
  }

  lemma OnceOnly(s: seq<Message>, k: nat)
    requires Increasing(s) && k < |s|
    ensures multiset(s)[s[k]] == 1
  {
    assert s == s[..k] + [s[k]] + s[k + 1..];
    assert s[k] !in s[..k] && s[k] !in s[k + 1..];
  }

  /** The window is strictly increasing, holds the anchor once, and is as wide as the limits allow. */
  lemma SliceShape(rows: Rows, conversation: string, i: nat, before: nat, after: nat)
    requires Ordered(rows) && i < |Visible(rows, conversation)|
    ensures var v := Visible(rows, conversation); var s := Slice(v, i, before, after);
      && Increasing(s.messages)
      && |s.messages| == Min(before, i) + 1 + Min(after, |v| - i - 1)
      && s.messages[Min(before, i)] == v[i]
      && multiset(s.messages)[v[i]] == 1
  {
    var v := Visible(rows, conversation);
    SelectIncreasing(rows, conversation, None, None);
    OnceOnly(Slice(v, i, before, after).messages, Min(before, i));
  }

  // ---------- Where the bound of 0 bites ----------

  /** The before-window is right for every limit exactly when the visible anchor is not the first message. */
  lemma BeforeExact(rows: Rows, anchor: Message, limit: nat)
    requires Ordered(rows) && anchor in rows && anchor.status == Normal && limit > 0
    ensures var right := Page(Last(Before(rows, anchor.conversation, anchor.sequence), limit),
                              |Before(rows, anchor.conversation, anchor.sequence)| > limit);
      BeforePage(rows, anchor.conversation, anchor.sequence, limit) == right <==> anchor.sequence >= 2
  {
    var i :| 0 <= i < |rows| && rows[i] == anchor;
    SplitAround(rows, anchor);
    FirstHasNoneBefore(rows, anchor);
  }

  /** A conversation of two messages: asked for what is before the first, the service returns both. */
  lemma BeforeFirstCounterexample()
    ensures var m1 := Compose("m1", "c", "u", Content("", ""), 1, 0, Policy(0, 0));
            var m2 := Compose("m2", "c", "u", Content("", ""), 2, 0, Policy(0, 0));
      && Ordered([m1, m2]) && BeforePage([m1, m2], "c", 1, 20).messages == [m1, m2]
  {
    var m1 := Compose("m1", "c", "u", Content("", ""), 1, 0, Policy(0, 0));
    var m2 := Compose("m2", "c", "u", Content("", ""), 2, 0, Policy(0, 0));
    assert m1.id[1] != m2.id[1];
    assert [m1, m2][1..] == [m2];
    assert Select([m2], "c", None, None) == [m2];
  }
}
