/** Collecting the members of a group page by page, from a query that orders ties as it likes. */
module MemberListing {
  import opened Base

  const PAGE_SIZE := 100

  datatype Member = Member(user: string, joinedAt: int)

  ghost predicate Sorted(s: seq<Member>) {
    forall i, j :: 0 <= i < j < |s| ==> s[i].joinedAt <= s[j].joinedAt
  }

  /** The member rows of a group, listed by join time; a user has one row. */
  ghost predicate IsTable(table: seq<Member>) {
    Sorted(table) && forall i, j :: 0 <= i < j < |table| ==> table[i].user != table[j].user
  }

  /** An order in which the query may see the rows: by join time, ties in any order. */
  ghost predicate IsOrder(table: seq<Member>, o: seq<Member>) {
    multiset(o) == multiset(table) && Sorted(o)
  }

  /** The orders in which the queries for the pages see the rows. */
  type Orders = int -> seq<Member>

  ghost predicate Possible(table: seq<Member>, orders: Orders) {
    forall page :: IsOrder(table, orders(page))
  }

  datatype MemberPage = MemberPage(members: seq<Member>, total: int)

  /** OFFSET and LIMIT of the paged query. */
  function Cut(o: seq<Member>, page: int, size: int): seq<Member>
    requires page >= 1 && size >= 1
  {
    var lo := Min((page - 1) * size, |o|);
    o[lo..Min(lo + size, |o|)]
  }

  predicate IsMember(o: seq<Member>, user: string) {
    exists i :: 0 <= i < |o| && o[i].user == user
  }

  /** The group service's answer; only members may ask, and out-of-range paging falls back to the defaults. */
  function GetGroupMembers(o: seq<Member>, operator: string, page: Option<int>, size: Option<int>)
    : Result<MemberPage, ()>
  {
    if !IsMember(o, operator) then Err(())
    else
      var p := if page.Some? && page.value > 0 then page.value else 1;
      var s := if size.Some? && 0 < size.value <= 100 then size.value else 20;
      Ok(MemberPage(Cut(o, p, s), |o|))
  }

  predicate Wanted(user: string, excluded: set<string>) { user != "" && user !in excluded }

  /** The recipients a listing is meant to contain. */
  function Recipients(table: seq<Member>, excluded: set<string>): set<string> {
    set m | m in table && Wanted(m.user, excluded) :: m.user
  }

  /** What the first `pages` pages contribute. */
  function Gathered(orders: Orders, excluded: set<string>, pages: nat): set<string> {
    if pages == 0 then {}
    else Gathered(orders, excluded, pages - 1) + Recipients(Cut(orders(pages), pages, PAGE_SIZE), excluded)
  }

  function Pages(total: nat): nat { (total + PAGE_SIZE - 1) / PAGE_SIZE }

  // ---------- The listing ----------

  /** Adds a page's members to the set, skipping empty and excluded ids. */
  method Collect(page: seq<Member>, excluded: set<string>, start: set<string>) returns (s: set<string>)
    ensures s == start + Recipients(page, excluded)
  {
    s := start;
    for k := 0 to |page|
      invariant s == start + Recipients(page[..k], excluded)
    {
      if page[k].user != "" && page[k].user !in excluded {
        s := s + {page[k].user};
      }
    }
    assert page[..|page|] == page;
  }

  method ToList(ids: set<string>) returns (r: seq<string>)
    ensures forall id :: id in r <==> id in ids
    ensures forall i, j :: 0 <= i < j < |r| ==> r[i] != r[j]
  {
    r := [];
    var rest := ids;
    while rest != {}
      invariant rest <= ids && forall id :: id in r <==> id in ids - rest
      invariant forall i, j :: 0 <= i < j < |r| ==> r[i] != r[j]
      decreases rest
    {
      var id :| id in rest;
      assert id !in r;
      r, rest := r + [id], rest - {id};
    }
  }

  lemma SameRows(table: seq<Member>, o: seq<Member>)
    requires multiset(o) == multiset(table)
    ensures |o| == |table| && (forall m :: m in o <==> m in table)
    ensures forall user :: IsMember(o, user) <==> IsMember(table, user)
  {
    assert |o| == |multiset(o)| && |table| == |multiset(table)|;
    forall m ensures m in o <==> m in table {
      assert m in o <==> m in multiset(o);
    }
    forall user ensures IsMember(o, user) <==> IsMember(table, user) {
      if i :| 0 <= i < |o| && o[i].user == user {
        assert o[i] in table;
      }
      if i :| 0 <= i < |table| && table[i].user == user {
        assert table[i] in o;
      }
    }
  }

  lemma PageAnswer(table: seq<Member>, o: seq<Member>, operator: string, page: int)
    requires IsOrder(table, o) && page >= 1
    ensures var resp := GetGroupMembers(o, operator, Some(page), Some(PAGE_SIZE));
      && (resp.Err? <==> !IsMember(table, operator))
      && (resp.Ok? ==> resp.value == MemberPage(Cut(o, page, PAGE_SIZE), |table|))
      && (resp.Ok? ==> |table| > 0 && (|resp.value.members| == 0 <==> (page - 1) * PAGE_SIZE >= |table|))
  {
    SameRows(table, o);
  }

  lemma LastPage(total: nat, page: int)
    requires page >= 1 && (page - 1) * PAGE_SIZE < total <= page * PAGE_SIZE
    ensures Pages(total) == page
  {
  }

  /** Reads page after page and collects what they contribute. */
  method Gather(table: seq<Member>, orders: Orders, operator: string, excluded: set<string>)
    returns (r: Result<set<string>, ()>)
    requires Possible(table, orders)
    ensures r.Err? <==> !IsMember(table, operator)
    ensures r.Ok? ==> r.value == Gathered(orders, excluded, Pages(|table|))
  {
    var page := 1;
    var memberSet := {};
    while true
      invariant page >= 1 && (page > 1 ==> (page - 1) * PAGE_SIZE < |table| && IsMember(table, operator))
      invariant memberSet == Gathered(orders, excluded, page - 1)
      decreases |table| + PAGE_SIZE - page * PAGE_SIZE
    {
      assert IsOrder(table, orders(page));
      PageAnswer(table, orders(page), operator, page);
      var resp := GetGroupMembers(orders(page), operator, Some(page), Some(PAGE_SIZE));
      if resp.Err? {
        return Err(());
      }
      if |resp.value.members| == 0 {
        break;
      }
      memberSet := Collect(resp.value.members, excluded, memberSet);
      if page * PAGE_SIZE >= resp.value.total {
        LastPage(resp.value.total, page);
        page := page + 1;
        break;
      }
      page := page + 1;
    }
    return Ok(memberSet);
  }

  /**
   Reading page after page ends, and yields what the pages contribute, each id once. That is every recipient if all
   pages see the rows in one order, or if no tie with a recipient stretches over a page boundary.
   */
  method ListGroupMemberIDs(table: seq<Member>, orders: Orders, operator: string, excluded: set<string>)
    returns (r: Result<seq<string>, ()>)
    requires IsTable(table) && Possible(table, orders)
    ensures r.Err? <==> !IsMember(table, operator)
    ensures r.Ok? ==>
      && (forall id :: id in r.value <==> id in Gathered(orders, excluded, Pages(|table|)))
      && (forall i, j :: 0 <= i < j < |r.value| ==> r.value[i] != r.value[j])
    ensures r.Ok? && ((forall p :: orders(p) == table) || Unsplit(table, excluded)) ==>
      forall id :: id in r.value <==> id in Recipients(table, excluded)
  {
    var gathered := Gather(table, orders, operator, excluded);
    if gathered.Err? {
      return Err(());
    }
    if forall p :: orders(p) == table {
      FixedOrder(table, orders, excluded);
    } else if Unsplit(table, excluded) {
      UnsplitComplete(table, orders, excluded);
    }
    var ids := ToList(gathered.value);
    return Ok(ids);
  }

  // ---------- One order for all pages ----------

  /** The page read after the first members continues exactly there. */
  lemma PageFollows(o: seq<Member>, page: int)
    requires page >= 1
    ensures var k := Min((page - 1) * PAGE_SIZE, |o|);
      o[..k] + Cut(o, page, PAGE_SIZE) == o[..Min(page * PAGE_SIZE, |o|)]
  {
  }

  lemma {:induction false} FixedOrderPages(o: seq<Member>, orders: Orders, excluded: set<string>, pages: nat)
    requires forall p :: orders(p) == o
    ensures Gathered(orders, excluded, pages) == Recipients(o[..Min(pages * PAGE_SIZE, |o|)], excluded)
  {
    if pages > 0 {
      FixedOrderPages(o, orders, excluded, pages - 1);
      PageFollows(o, pages);
      RecipientsBoth(o[..Min((pages - 1) * PAGE_SIZE, |o|)], Cut(o, pages, PAGE_SIZE), excluded);
    }
  }

  lemma RecipientsBoth(a: seq<Member>, b: seq<Member>, excluded: set<string>)
    ensures Recipients(a + b, excluded) == Recipients(a, excluded) + Recipients(b, excluded)
  {
    assert forall m :: m in a + b <==> m in a || m in b;
  }

  /** If every page sees the rows in the same order, nobody is missed, whatever the ties. */
  lemma FixedOrder(o: seq<Member>, orders: Orders, excluded: set<string>)
    requires forall p :: orders(p) == o
    ensures Gathered(orders, excluded, Pages(|o|)) == Recipients(o, excluded)
  {
    FixedOrderPages(o, orders, excluded, Pages(|o|));
    assert o[..|o|] == o;
  }

  // ---------- Ties ----------

  /** No tie with a recipient stretches over a page boundary. */
  ghost predicate Unsplit(table: seq<Member>, excluded: set<string>) {
    forall i, j | 0 <= i < |table| && 0 <= j < |table| && table[i].joinedAt == table[j].joinedAt
      && Wanted(table[i].user, excluded) :: i / PAGE_SIZE == j / PAGE_SIZE
  }

  /** Removing an entry of greatest join time leaves the join times in front as they were. */
  lemma WithoutOne(b: seq<Member>, j: nat)
    requires Sorted(b) && j < |b| && b[j].joinedAt == b[|b| - 1].joinedAt
    ensures var b' := b[..j] + b[j + 1..];
      && Sorted(b') && multiset(b') == multiset(b) - multiset{b[j]}
      && forall i :: 0 <= i < |b'| ==> b'[i].joinedAt == b[i].joinedAt
  {
    var b' := b[..j] + b[j + 1..];
    assert b == b[..j] + [b[j]] + b[j + 1..];
    forall i | 0 <= i < |b'| ensures b'[i].joinedAt == b[i].joinedAt {
      if i >= j {
        assert b[j].joinedAt <= b[i].joinedAt <= b[i + 1].joinedAt <= b[|b| - 1].joinedAt;
      }
    }
  }

  /** The last row of one order, found in the other, has the greatest join time there too. */
  lemma FindLast(a: seq<Member>, b: seq<Member>) returns (j: nat)
    requires Sorted(a) && Sorted(b) && multiset(a) == multiset(b) && a != []
    ensures |a| == |b| && j < |b| && b[j] == a[|a| - 1] && b[j].joinedAt == b[|b| - 1].joinedAt
  {
    SameRows(a, b);
    var n := |a| - 1;
    assert a[n] in a && b[n] in b;
    j :| 0 <= j < |b| && b[j] == a[n];
    var k :| 0 <= k < |a| && a[k] == b[n];
    assert a[k].joinedAt <= a[n].joinedAt && b[j].joinedAt <= b[n].joinedAt;
  }

  /** Two orders of the same rows have the same join time at every rank. */
  lemma {:induction false} RanksAgree(a: seq<Member>, b: seq<Member>)
    requires Sorted(a) && Sorted(b) && multiset(a) == multiset(b)
    ensures |a| == |b| && forall i :: 0 <= i < |a| ==> a[i].joinedAt == b[i].joinedAt
  {
    SameRows(a, b);
    if a != [] {
      var j := FindLast(a, b);
      WithoutOne(b, j);
      WithoutLast(a);
      RanksAgree(a[..|a| - 1], b[..j] + b[j + 1..]);
      RanksLift(a, b, b[..j] + b[j + 1..]);
    }
  }

  lemma WithoutLast(a: seq<Member>)
    requires Sorted(a) && a != []
    ensures Sorted(a[..|a| - 1]) && multiset(a[..|a| - 1]) == multiset(a) - multiset{a[|a| - 1]}
  {
    assert a == a[..|a| - 1] + [a[|a| - 1]];
  }

  lemma RanksLift(a: seq<Member>, b: seq<Member>, b': seq<Member>)
    requires a != [] && |a| == |b| == |b'| + 1 && a[|a| - 1].joinedAt == b[|b| - 1].joinedAt
    requires forall i :: 0 <= i < |b'| ==> a[..|a| - 1][i].joinedAt == b'[i].joinedAt
    requires forall i :: 0 <= i < |b'| ==> b'[i].joinedAt == b[i].joinedAt
    ensures forall i :: 0 <= i < |a| ==> a[i].joinedAt == b[i].joinedAt
  {
    forall i | 0 <= i < |b'| ensures a[i].joinedAt == b[i].joinedAt {
      assert a[..|a| - 1][i] == a[i];
    }
  }

  lemma CutHas(o: seq<Member>, page: int, k: nat)
    requires page >= 1 && k < |o| && k / PAGE_SIZE == page - 1
    ensures o[k] in Cut(o, page, PAGE_SIZE)
  {
    assert Cut(o, page, PAGE_SIZE)[k - (page - 1) * PAGE_SIZE] == o[k];
  }

  lemma CutOnly(o: seq<Member>, page: int, m: Member) returns (k: nat)
    requires page >= 1 && m in Cut(o, page, PAGE_SIZE)
    ensures k < |o| && o[k] == m && k / PAGE_SIZE == page - 1
  {
    var lo := Min((page - 1) * PAGE_SIZE, |o|);
    var i :| 0 <= i < |Cut(o, page, PAGE_SIZE)| && Cut(o, page, PAGE_SIZE)[i] == m;
    k := lo + i;
  }

  lemma {:induction false} GatheredHas(orders: Orders, excluded: set<string>, pages: nat, page: int, user: string)
    requires 1 <= page <= pages && user in Recipients(Cut(orders(page), page, PAGE_SIZE), excluded)
    ensures user in Gathered(orders, excluded, pages)
  {
    if page < pages {
      GatheredHas(orders, excluded, pages - 1, page, user);
    }
  }

  lemma {:induction false} GatheredOnly(orders: Orders, excluded: set<string>, pages: nat, user: string)
    returns (page: int)
    requires user in Gathered(orders, excluded, pages)
    ensures 1 <= page <= pages && user in Recipients(Cut(orders(page), page, PAGE_SIZE), excluded)
  {
    page := pages;
    if user !in Recipients(Cut(orders(page), page, PAGE_SIZE), excluded) {
      page := GatheredOnly(orders, excluded, pages - 1, user);
    }
  }

  /** Nobody but recipients is gathered, whatever the orders. */
  lemma GatheredSound(table: seq<Member>, orders: Orders, excluded: set<string>, user: string)
    requires Possible(table, orders) && user in Gathered(orders, excluded, Pages(|table|))
    ensures user in Recipients(table, excluded)
  {
    var page := GatheredOnly(orders, excluded, Pages(|table|), user);
    assert IsOrder(table, orders(page));
    SameRows(table, orders(page));
    var m :| m in Cut(orders(page), page, PAGE_SIZE) && Wanted(m.user, excluded) && m.user == user;
    var k := CutOnly(orders(page), page, m);
    assert m in table;
  }

  lemma UnsplitFinds(table: seq<Member>, orders: Orders, excluded: set<string>, i: nat)
    requires IsTable(table) && Possible(table, orders) && Unsplit(table, excluded)
    requires i < |table| && Wanted(table[i].user, excluded)
    ensures table[i].user in Gathered(orders, excluded, Pages(|table|))
  {
    var page := i / PAGE_SIZE + 1;
    var o := orders(page);
    assert IsOrder(table, o);
    SameRows(table, o);
    RanksAgree(o, table);
    assert table[i] in o;
    var k :| 0 <= k < |o| && o[k] == table[i];
    assert table[k].joinedAt == table[i].joinedAt;
    assert i / PAGE_SIZE == k / PAGE_SIZE;
    CutHas(o, page, k);
    GatheredHas(orders, excluded, Pages(|table|), page, table[i].user);
  }

  lemma UnsplitComplete(table: seq<Member>, orders: Orders, excluded: set<string>)
    requires IsTable(table) && Possible(table, orders) && Unsplit(table, excluded)
    ensures Gathered(orders, excluded, Pages(|table|)) == Recipients(table, excluded)
  {
    forall user | user in Gathered(orders, excluded, Pages(|table|)) ensures user in Recipients(table, excluded) {
      GatheredSound(table, orders, excluded, user);
    }
    forall user | user in Recipients(table, excluded) ensures user in Gathered(orders, excluded, Pages(|table|)) {
      var m :| m in table && Wanted(m.user, excluded) && m.user == user;
      var i :| 0 <= i < |table| && table[i] == m;
      UnsplitFinds(table, orders, excluded, i);
    }
  }

  /** The order with two rows of equal join time exchanged. */
  function Exchanged(table: seq<Member>, i: nat, j: nat): seq<Member>
    requires i < |table| && j < |table|
  {
    table[i := table[j]][j := table[i]]
  }

  lemma ExchangedIsOrder(table: seq<Member>, i: nat, j: nat)
    requires Sorted(table) && i < |table| && j < |table| && table[i].joinedAt == table[j].joinedAt
    ensures IsOrder(table, Exchanged(table, i, j))
  {
  }

  /** The orders under which the page of rank `i` sees rows `i` and `j` exchanged, and every other page does not. */
  function Shifty(table: seq<Member>, i: nat, j: nat): Orders
    requires i < |table| && j < |table|
  {
    page => if page == i / PAGE_SIZE + 1 then Exchanged(table, i, j) else table
  }

  lemma ShiftyHides(table: seq<Member>, i: nat, j: nat, page: int)
    requires IsTable(table) && i < |table| && j < |table| && i / PAGE_SIZE != j / PAGE_SIZE && page >= 1
    ensures forall m :: m in Cut(Shifty(table, i, j)(page), page, PAGE_SIZE) ==> m.user != table[i].user
  {
    var o := if page == i / PAGE_SIZE + 1 then Exchanged(table, i, j) else table;
    assert Shifty(table, i, j)(page) == o;
    forall m | m in Cut(o, page, PAGE_SIZE) ensures m.user != table[i].user {
      var k := CutOnly(o, page, m);
      assert k != i || o == Exchanged(table, i, j);
      var origin := if k == i then j else k;
      assert k != j || page != i / PAGE_SIZE + 1;
      assert m == table[origin] && origin != i;
    }
  }

  lemma SplitMisses(table: seq<Member>, excluded: set<string>, i: nat, j: nat)
    requires IsTable(table) && i < |table| && j < |table| && i / PAGE_SIZE != j / PAGE_SIZE
    requires table[i].joinedAt == table[j].joinedAt
    ensures Possible(table, Shifty(table, i, j))
    ensures table[i].user !in Gathered(Shifty(table, i, j), excluded, Pages(|table|))
  {
    var orders, u := Shifty(table, i, j), table[i].user;
    ExchangedIsOrder(table, i, j);
    forall page ensures IsOrder(table, orders(page)) {
    }
    if u in Gathered(orders, excluded, Pages(|table|)) {
      var page := GatheredOnly(orders, excluded, Pages(|table|), u);
      ShiftyHides(table, i, j, page);
      assert false;
    }
  }

  ghost predicate AlwaysComplete(table: seq<Member>, excluded: set<string>) {
    forall orders :: Possible(table, orders) ==>
      Gathered(orders, excluded, Pages(|table|)) == Recipients(table, excluded)
  }

  /** The listing is complete however the query orders ties exactly when no tie with a recipient is split. */
  lemma ListingExact(table: seq<Member>, excluded: set<string>)
    requires IsTable(table)
    ensures AlwaysComplete(table, excluded) <==> Unsplit(table, excluded)
  {
    if Unsplit(table, excluded) {
      forall orders | Possible(table, orders)
        ensures Gathered(orders, excluded, Pages(|table|)) == Recipients(table, excluded)
      {
        UnsplitComplete(table, orders, excluded);
      }
    } else {
      var i, j :| 0 <= i < |table| && 0 <= j < |table| && table[i].joinedAt == table[j].joinedAt
        && Wanted(table[i].user, excluded) && i / PAGE_SIZE != j / PAGE_SIZE;
      SplitMisses(table, excluded, i, j);
      assert table[i] in table;
      assert table[i].user in Recipients(table, excluded);
    }
  }

  /** The rows a group is created with: its owner, and the other members with one common join time. */
  function CreatedRows(owner: Member, ids: seq<string>, joinedAt: int): seq<Member> {
    [owner] + seq(|ids|, i requires 0 <= i < |ids| => Member(ids[i], joinedAt))
  }

  /** In every group created with a hundred or more members besides the owner, a listing can lose one. */
  lemma CreatedGroupsSplit(owner: Member, ids: seq<string>, joinedAt: int)
    requires |ids| >= PAGE_SIZE && owner.joinedAt <= joinedAt && owner.user !in ids
    requires forall i, j :: 0 <= i < j < |ids| ==> ids[i] != ids[j]
    requires forall i :: 0 <= i < |ids| ==> ids[i] != ""
    ensures IsTable(CreatedRows(owner, ids, joinedAt)) && !AlwaysComplete(CreatedRows(owner, ids, joinedAt), {})
  {
    var table := CreatedRows(owner, ids, joinedAt);
    forall i, j | 0 <= i < j < |table|
      ensures table[i].user != table[j].user && table[i].joinedAt <= table[j].joinedAt
    {
      assert table[j].user == ids[j - 1];
    }
    var last := PAGE_SIZE - 1;
    assert table[last].joinedAt == table[last + 1].joinedAt && Wanted(table[last].user, {});
    assert last / PAGE_SIZE != (last + 1) / PAGE_SIZE;
    ListingExact(table, {});
  }
}
