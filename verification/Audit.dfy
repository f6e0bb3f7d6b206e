/** Audit search and paging (`registry_api/audit.py`): two filtered streams, merged, cut to a limit. */
module Audit {
  import opened Basics

  datatype Actor = Issuer | AdminActor | System

  /** A row of the action log, or of the admin log, which has no asset and one actor. */
  datatype Row = Row(id: int, assetId: Option<string>, operation: string, actor: Actor, receivedAt: int)

  datatype Order = Asc | Desc

  datatype Query = Query(
    since: int, limit: int, assetId: Option<string>, operation: Option<string>, actor: Option<Actor>,
    from: Option<int>, to: Option<int>, order: Order)

  datatype Tables = Tables(actions: seq<Row>, adminActions: seq<Row>)

  const MAX_AUDIT_ID := 9_223_372_036_854_775_807

  ghost predicate Ascending(rows: seq<Row>) {
    forall i, j | 0 <= i < j < |rows| :: rows[i].id < rows[j].id
  }

  /** Both logs are numbered from one sequence. */
  ghost predicate ValidTables(t: Tables) {
    && Ascending(t.actions) && Ascending(t.adminActions)
    && (forall a, b | a in t.actions && b in t.adminActions :: a.id != b.id)
    && (forall r | r in t.adminActions :: r.assetId.None? && r.actor == AdminActor)
    && (forall r | r in t.actions :: r.assetId.Some?)
  }

  // ---- The two streams ----

  predicate InRange(q: Query, r: Row) {
    && q.since < r.id && (q.operation.Some? ==> r.operation == q.operation.value)
    && (q.from.Some? ==> q.from.value <= r.receivedAt) && (q.to.Some? ==> r.receivedAt <= q.to.value)
  }

  predicate ActionSelected(q: Query, r: Row) {
    && InRange(q, r) && (q.assetId.Some? ==> r.assetId == q.assetId) && (q.actor.Some? ==> r.actor == q.actor.value)
  }

  predicate SkipsAdminLog(q: Query) { q.assetId.Some? || q.actor == Some(Issuer) || q.actor == Some(System) }

  function Filter(rows: seq<Row>, p: Row -> bool): (r: seq<Row>)
    ensures forall x :: x in r <==> x in rows && p(x)
  {
    if |rows| == 0 then [] else if p(rows[0]) then [rows[0]] + Filter(rows[1..], p) else Filter(rows[1..], p)
  }

  function Reverse(rows: seq<Row>): (r: seq<Row>)
    ensures |r| == |rows| && forall i | 0 <= i < |r| :: r[i] == rows[|rows| - 1 - i]
    ensures forall x :: x in r <==> x in rows
  {
    if |rows| == 0 then [] else Reverse(rows[1..]) + [rows[0]]
  }

  function Ordered(order: Order, rows: seq<Row>): seq<Row> { if order == Desc then Reverse(rows) else rows }

  function ActionStream(t: Tables, q: Query): seq<Row> {
    Ordered(q.order, Filter(t.actions, r => ActionSelected(q, r)))
  }

  function AdminStream(t: Tables, q: Query): seq<Row> {
    if SkipsAdminLog(q) then [] else Ordered(q.order, Filter(t.adminActions, r => InRange(q, r)))
  }

  function Take(n: nat, rows: seq<Row>): seq<Row> { if |rows| <= n then rows else rows[..n] }

  // ---- Sorting ----

  /** Position in the result: audit number, negated for descending order. */
  function Key(order: Order, r: Row): int { if order == Desc then -r.id else r.id }

  function Insert(order: Order, x: Row, rows: seq<Row>): seq<Row> {
    if |rows| == 0 then [x]
    else if Key(order, x) <= Key(order, rows[0]) then [x] + rows
    else [rows[0]] + Insert(order, x, rows[1..])
  }

  /** `sorted` by audit number. */
  function Sort(order: Order, rows: seq<Row>): seq<Row> {
    if |rows| == 0 then [] else Insert(order, rows[0], Sort(order, rows[1..]))
  }

  ghost predicate Increasing(order: Order, rows: seq<Row>) {
    forall i, j | 0 <= i < j < |rows| :: Key(order, rows[i]) < Key(order, rows[j])
  }

  /** Two increasing lists interleaved. */
  function Merge(order: Order, a: seq<Row>, b: seq<Row>): (m: seq<Row>)
    ensures forall x :: x in m <==> x in a || x in b
    ensures |m| == |a| + |b|
  {
    if |a| == 0 then b
    else if |b| == 0 then a
    else if Key(order, a[0]) <= Key(order, b[0]) then [a[0]] + Merge(order, a[1..], b)
    else [b[0]] + Merge(order, a, b[1..])
  }

  ghost predicate Disjoint(a: seq<Row>, b: seq<Row>) {
    forall x, y | x in a && y in b :: x.id != y.id
  }

  lemma {:induction false} MergeIncreasing(order: Order, a: seq<Row>, b: seq<Row>)
    requires Increasing(order, a) && Increasing(order, b) && Disjoint(a, b)
    ensures Increasing(order, Merge(order, a, b))
    decreases |a| + |b|
  {
    if |a| > 0 && |b| > 0 {
      if Key(order, a[0]) <= Key(order, b[0]) {
        MergeIncreasing(order, a[1..], b);
        HeadFirst(order, a[0], a[1..], b);
      } else {
        MergeIncreasing(order, a, b[1..]);
        HeadFirst(order, b[0], a, b[1..]);
      }
    }
  }

  lemma HeadFirst(order: Order, x: Row, a: seq<Row>, b: seq<Row>)
    requires Increasing(order, Merge(order, a, b))
    requires (forall y | y in a :: Key(order, x) < Key(order, y)) && (forall y | y in b :: Key(order, x) < Key(order, y))
    ensures Increasing(order, [x] + Merge(order, a, b))
  {
  }

  /** Inserting the head of an increasing list in front of a merge that lacks only it. */
  lemma {:induction false} MergeInsert(order: Order, a: seq<Row>, b: seq<Row>)
    requires |a| > 0 && Increasing(order, a) && Increasing(order, b)
    ensures Insert(order, a[0], Merge(order, a[1..], b)) == Merge(order, a, b)
    decreases |b|
  {
    var rest := a[1..];
    if |b| > 0 && Key(order, a[0]) > Key(order, b[0]) {
      MergeInsert(order, a, b[1..]);
      if |rest| > 0 { assert Key(order, rest[0]) > Key(order, b[0]); }
      else { assert Merge(order, rest, b) == b && Merge(order, rest, b[1..]) == b[1..]; }
    }
  }

  lemma {:induction false} SortIncreasing(order: Order, b: seq<Row>)
    requires Increasing(order, b)
    ensures Sort(order, b) == b
  {
    if |b| > 0 {
      SortIncreasing(order, b[1..]);
      if |b| > 1 { assert Key(order, b[0]) < Key(order, b[1]); }
    }
  }

  lemma {:induction false} SortIsMerge(order: Order, a: seq<Row>, b: seq<Row>)
    requires Increasing(order, a) && Increasing(order, b)
    ensures Sort(order, a + b) == Merge(order, a, b)
  {
    if |a| == 0 {
      assert a + b == b;
      SortIncreasing(order, b);
    } else {
      assert (a + b)[1..] == a[1..] + b;
      SortIsMerge(order, a[1..], b);
      MergeInsert(order, a, b);
    }
  }

  lemma TakeCons(n: nat, x: Row, rows: seq<Row>)
    requires n > 0
    ensures Take(n, [x] + rows) == [x] + Take(n - 1, rows)
  {
  }

  /** The first `n` of a merge depend on the first `n` of each input only, so cutting both inputs first
      loses nothing that the cut merge keeps. */
  lemma {:induction false} CutsAgree(order: Order, n: nat, a: seq<Row>, b: seq<Row>, c: seq<Row>, d: seq<Row>)
    requires Take(n, a) == Take(n, c) && Take(n, b) == Take(n, d)
    ensures Take(n, Merge(order, a, b)) == Take(n, Merge(order, c, d))
    decreases n
  {
    if n > 0 {
      HeadsAgree(n, a, c);
      HeadsAgree(n, b, d);
      if |a| > 0 && |b| > 0 {
        if Key(order, a[0]) <= Key(order, b[0]) {
          CutsAgree(order, n - 1, a[1..], b, c[1..], d);
          TakeCons(n, a[0], Merge(order, a[1..], b));
          TakeCons(n, a[0], Merge(order, c[1..], d));
        } else {
          CutsAgree(order, n - 1, a, b[1..], c, d[1..]);
          TakeCons(n, b[0], Merge(order, a, b[1..]));
          TakeCons(n, b[0], Merge(order, c, d[1..]));
        }
      }
    }
  }

  lemma HeadsAgree(n: nat, a: seq<Row>, c: seq<Row>)
    requires n > 0 && Take(n, a) == Take(n, c)
    ensures |a| == 0 <==> |c| == 0
    ensures |a| > 0 ==> a[0] == c[0] && Take(n - 1, a[1..]) == Take(n - 1, c[1..]) && Take(n - 1, a) == Take(n - 1, c)
  {
  }

  // ---- The search ----

  datatype Page = Page(items: seq<Row>, next: Option<int>)

  function MaxId(rows: seq<Row>): (m: Option<int>)
    ensures |rows| == 0 <==> m.None?
    ensures m.Some? ==> (exists r | r in rows :: r.id == m.value) && forall r | r in rows :: r.id <= m.value
  {
    if |rows| == 0 then None
    else
      var rest := MaxId(rows[1..]);
      if rest.None? || rest.value <= rows[0].id then Some(rows[0].id) else rest
  }

  predicate ValidQuery(q: Query) { 0 <= q.since <= MAX_AUDIT_ID && 1 <= q.limit <= 1000 }

  /** None is a validation error. */
  function Search(t: Tables, q: Query): Option<Page> {
    if !ValidQuery(q) then None
    else
      var rows := Take(q.limit, Sort(q.order, Take(q.limit, ActionStream(t, q)) + Take(q.limit, AdminStream(t, q))));
      Some(Page(rows, MaxId(rows)))
  }

  // ---- The reference ----

  /** The one filter a reader of the API has in mind, over both logs. */
  predicate Matches(q: Query, r: Row) {
    && q.since < r.id
    && (q.assetId.Some? ==> r.assetId == q.assetId)
    && (q.operation.Some? ==> r.operation == q.operation.value)
    && (q.actor.Some? ==> r.actor == q.actor.value)
    && (q.from.Some? ==> q.from.value <= r.receivedAt) && (q.to.Some? ==> r.receivedAt <= q.to.value)
  }

  /** `rows` lists exactly the matching rows of both logs, in order. */
  ghost predicate ListsMatches(t: Tables, q: Query, rows: seq<Row>) {
    && Increasing(q.order, rows)
    && forall r :: r in rows <==> (r in t.actions || r in t.adminActions) && Matches(q, r)
  }

  /** The increasing list of a set of rows is unique. */
  lemma {:induction false} IncreasingUnique(order: Order, a: seq<Row>, b: seq<Row>)
    requires Increasing(order, a) && Increasing(order, b)
    requires forall r :: r in a <==> r in b
    ensures a == b
  {
    assert |a| > 0 ==> a[0] in b;
    assert |b| > 0 ==> b[0] in a;
    if |a| > 0 && |b| > 0 {
      assert a[0] == b[0];
      forall r ensures r in a[1..] <==> r in b[1..] {
        TailMembers(order, a, r);
        TailMembers(order, b, r);
      }
      IncreasingUnique(order, a[1..], b[1..]);
    }
  }

  lemma TailMembers(order: Order, a: seq<Row>, r: Row)
    requires |a| > 0 && Increasing(order, a)
    ensures r in a[1..] <==> r in a && r != a[0]
  {
  }

  lemma {:induction false} FilterAscending(rows: seq<Row>, p: Row -> bool)
    requires Ascending(rows)
    ensures Ascending(Filter(rows, p))
  {
    if |rows| > 0 {
      FilterAscending(rows[1..], p);
      var rest := Filter(rows[1..], p);
      forall i | 0 <= i < |rest| ensures rows[0].id < rest[i].id {
        assert rest[i] in rest;
        var k :| 0 <= k < |rows[1..]| && rows[1..][k] == rest[i];
        assert rows[0].id < rows[k + 1].id;
      }
    }
  }

  lemma OrderedIncreasing(order: Order, rows: seq<Row>)
    requires Ascending(rows)
    ensures Increasing(order, Ordered(order, rows))
  {
  }

  function Everything(t: Tables, q: Query): seq<Row> { Merge(q.order, ActionStream(t, q), AdminStream(t, q)) }

  lemma StreamsIncrease(t: Tables, q: Query)
    requires ValidTables(t)
    ensures Increasing(q.order, ActionStream(t, q)) && Increasing(q.order, AdminStream(t, q))
    ensures Disjoint(ActionStream(t, q), AdminStream(t, q))
  {
    FilterAscending(t.actions, r => ActionSelected(q, r));
    FilterAscending(t.adminActions, r => InRange(q, r));
    OrderedIncreasing(q.order, Filter(t.actions, r => ActionSelected(q, r)));
    OrderedIncreasing(q.order, Filter(t.adminActions, r => InRange(q, r)));
  }

  lemma EverythingListsMatches(t: Tables, q: Query)
    requires ValidTables(t)
    ensures ListsMatches(t, q, Everything(t, q))
  {
    StreamsIncrease(t, q);
    MergeIncreasing(q.order, ActionStream(t, q), AdminStream(t, q));
    forall r ensures r in Everything(t, q) <==> (r in t.actions || r in t.adminActions) && Matches(q, r) {
      assert r in ActionStream(t, q) <==> r in t.actions && Matches(q, r);
      assert r in AdminStream(t, q) <==> r in t.adminActions && Matches(q, r);
    }
  }

  /** The cursor of a page is its newest audit number; an empty page has none. */
  ghost predicate NewestOf(page: Page) {
    && (page.next.None? <==> page.items == [])
    && (page.next.Some? ==>
          && (exists r | r in page.items :: r.id == page.next.value)
          && forall r | r in page.items :: r.id <= page.next.value)
  }

  /** Taking `limit` from each stream, merging, sorting and cutting is taking `limit` from the ordered
      list of everything that matches. */
  lemma SearchIsPrefix(t: Tables, q: Query, all: seq<Row>)
    requires ValidTables(t) && ValidQuery(q) && ListsMatches(t, q, all)
    ensures Search(t, q).Some? && Search(t, q).value.items == Take(q.limit, all)
    ensures NewestOf(Search(t, q).value)
  {
    hide ActionStream, AdminStream, Sort, Merge, Increasing;
    StreamsIncrease(t, q);
    EverythingListsMatches(t, q);
    IncreasingUnique(q.order, all, Everything(t, q));
    var a, b := ActionStream(t, q), AdminStream(t, q);
    SortIsMerge(q.order, Take(q.limit, a), Take(q.limit, b));
    CutsAgree(q.order, q.limit, Take(q.limit, a), Take(q.limit, b), a, b);
  }

  // ---- Paging ----

  /** A page is a proper beginning of what matches, and its cursor leaves exactly the rest. */
  ghost predicate CutsWell(t: Tables, q: Query, page: Page) {
    var n := |page.items|;
    && 0 < n <= |Everything(t, q)| && page.items == Everything(t, q)[..n]
    && page.next.Some? && page.next.value > q.since
    && Everything(t, q.(since := page.next.value)) == Everything(t, q)[n..]
  }

  lemma PageIsPrefix(t: Tables, q: Query)
    requires ValidTables(t) && ValidQuery(q)
    ensures var all := Everything(t, q);
            && ListsMatches(t, q, all) && Search(t, q).Some?
            && Search(t, q).value.items == Take(q.limit, all) && Search(t, q).value.next == MaxId(Take(q.limit, all))
  {
    EverythingListsMatches(t, q);
    SearchIsPrefix(t, q, Everything(t, q));
  }

  lemma RestIsNext(t: Tables, q: Query, n: nat)
    requires ValidTables(t) && q.order == Asc && 0 < n <= |Everything(t, q)|
    ensures var all := Everything(t, q); all[n - 1].id > q.since && Everything(t, q.(since := all[n - 1].id)) == all[n..]
  {
    hide Everything;
    var all := Everything(t, q);
    EverythingListsMatches(t, q);
    assert all[n - 1] in all;
    var q' := q.(since := all[n - 1].id);
    EverythingListsMatches(t, q');
    forall r ensures r in all[n..] <==> r in Everything(t, q') { RestMembers(all, n, r); }
    IncreasingUnique(Asc, all[n..], Everything(t, q'));
  }

  lemma CursorLeavesTheRest(t: Tables, q: Query)
    requires ValidTables(t) && ValidQuery(q) && q.order == Asc && |Everything(t, q)| > 0
    ensures Search(t, q).Some? && CutsWell(t, q, Search(t, q).value)
  {
    hide Everything, Search, ListsMatches;
    PageIsPrefix(t, q);
    var all := Everything(t, q);
    var n := |Search(t, q).value.items|;
    assert Take(q.limit, all) == all[..n];
    PrefixMax(all, n);
    RestIsNext(t, q, n);
  }

  lemma PrefixMax(all: seq<Row>, n: nat)
    requires Increasing(Asc, all) && 0 < n <= |all|
    ensures MaxId(all[..n]) == Some(all[n - 1].id)
  {
  }

  lemma RestMembers(all: seq<Row>, n: nat, r: Row)
    requires Increasing(Asc, all) && 0 < n <= |all|
    ensures r in all[n..] <==> r in all && all[n - 1].id < r.id
  {
  }

  lemma EmptyPageMeansDone(t: Tables, q: Query)
    requires ValidTables(t) && ValidQuery(q)
    ensures Search(t, q).Some? && (Search(t, q).value.next.None? <==> Everything(t, q) == [])
  {
  }

  lemma NextInRange(t: Tables, q: Query)
    requires ValidTables(t) && ValidQuery(q) && Search(t, q).Some? && Search(t, q).value.next.Some?
    requires forall r | r in t.actions || r in t.adminActions :: r.id <= MAX_AUDIT_ID
    ensures q.since < Search(t, q).value.next.value <= MAX_AUDIT_ID
  {
    PageIsPrefix(t, q);
    var items := Take(q.limit, Everything(t, q));
    var r :| r in items && r.id == MaxId(items).value;
    assert r in Everything(t, q);
  }

  ghost predicate NumbersFit(t: Tables) {
    forall r | r in t.actions || r in t.adminActions :: r.id <= MAX_AUDIT_ID
  }

  ghost predicate Pageable(t: Tables, q: Query) {
    ValidTables(t) && NumbersFit(t) && ValidQuery(q) && q.order == Asc
  }

  lemma ListsUnique(t: Tables, q: Query, a: seq<Row>, b: seq<Row>)
    requires ListsMatches(t, q, a) && ListsMatches(t, q, b)
    ensures a == b
  {
    IncreasingUnique(q.order, a, b);
  }

  /** One request of a client that pages through: the rows of the page and the query for the next one.
      `all` and `rest` are what still matches before and after. */
  method FetchPage(t: Tables, q: Query, ghost all: seq<Row>)
    returns (items: seq<Row>, more: bool, cursor: Query, ghost rest: seq<Row>)
    requires Pageable(t, q) && ListsMatches(t, q, all)
    ensures Pageable(t, cursor) && ListsMatches(t, cursor, rest)
    ensures items + rest == all && (more <==> all != []) && (more ==> |items| > 0)
  {
    hide Everything, Search, ListsMatches;
    EverythingListsMatches(t, q);
    ListsUnique(t, q, all, Everything(t, q));
    EmptyPageMeansDone(t, q);
    var page := Search(t, q).value;
    if page.next.None? { return [], false, q, all; }
    CursorLeavesTheRest(t, q);
    NextInRange(t, q);
    items, more, cursor := page.items, true, q.(since := page.next.value);
    rest := all[|items|..];
    EverythingListsMatches(t, cursor);
  }

  /** Following `next_since_audit_id` in ascending order over a fixed log returns every matching row
      exactly once, in order, and stops. */
  method FollowPages(t: Tables, q: Query) returns (seen: seq<Row>)
    requires Pageable(t, q)
    ensures ListsMatches(t, q, seen)
  {
    seen := [];
    var cursor, more := q, true;
    EverythingListsMatches(t, q);
    ghost var all := Everything(t, q);
    ghost var rest := all;
    while more
      invariant Pageable(t, cursor) && ListsMatches(t, cursor, rest)
      invariant seen + rest == all && (!more ==> rest == [])
      decreases |rest|, more
    {
      var items;
      ghost var before := rest;
      items, more, cursor, rest := FetchPage(t, cursor, rest);
      assert seen + before == (seen + items) + rest;
      seen := seen + items;
    }
    assert seen == seen + [] == all;
  }

  lemma OlderThanFirst(rows: seq<Row>, r: Row)
    requires Increasing(Desc, rows) && r in rows
    ensures r.id <= rows[0].id
  {
  }

  lemma NothingAfterTheNewest(t: Tables, q: Query)
    requires ValidTables(t) && q.order == Desc && |Everything(t, q)| > 0
    ensures Everything(t, q.(since := Everything(t, q)[0].id)) == []
  {
    hide Everything;
    var all := Everything(t, q);
    var q' := q.(since := all[0].id);
    EverythingListsMatches(t, q);
    EverythingListsMatches(t, q');
    assert all[0] in all;
    if Everything(t, q') != [] {
      var r := Everything(t, q')[0];
      assert r in Everything(t, q');
      OlderThanFirst(all, r);
      assert false;
    }
  }

  lemma FirstIsNewest(rows: seq<Row>)
    requires Increasing(Desc, rows) && |rows| > 0
    ensures MaxId(rows) == Some(rows[0].id)
  {
  }

  lemma PageShowsNewest(t: Tables, q: Query, all: seq<Row>)
    requires ListsMatches(t, q, all) && q.order == Desc && q.limit > 0 && |all| > 0
    ensures MaxId(Take(q.limit, all)) == Some(all[0].id)
  {
    FirstIsNewest(Take(q.limit, all));
  }

  lemma CutListsAll(t: Tables, q: Query, all: seq<Row>)
    requires ListsMatches(t, q, all) && q.limit >= 0
    ensures ListsMatches(t, q, Take(q.limit, all)) <==> |all| <= q.limit
  {
    if q.limit < |all| && ListsMatches(t, q, Take(q.limit, all)) {
      IncreasingUnique(q.order, Take(q.limit, all), all);
    }
  }

  /** In descending order the cursor is the newest number of the page, so the next page is always empty:
      following it returns everything exactly when everything fits in the first page. */
  lemma DescendingCursorSkips(t: Tables, q: Query)
    requires ValidTables(t) && ValidQuery(q) && q.order == Desc && Everything(t, q) != []
    ensures Search(t, q).Some? && Search(t, q).value.next.Some?
    ensures Everything(t, q.(since := Search(t, q).value.next.value)) == []
    ensures ListsMatches(t, q, Search(t, q).value.items) <==> |Everything(t, q)| <= q.limit
  {
    hide Everything, Search, ListsMatches;
    PageIsPrefix(t, q);
    PageShowsNewest(t, q, Everything(t, q));
    NothingAfterTheNewest(t, q);
    CutListsAll(t, q, Everything(t, q));
  }

  // ---- Two rows of which one is missed ----

  function SampleRow(id: int): Row { Row(id, Some("id"), "register_asset", System, id) }

  const TWO_ROWS := Tables([SampleRow(1), SampleRow(2)], [])
  const NEWEST_FIRST := Query(0, 1, None, None, None, None, None, Desc)

  lemma PairHas(a: Row, b: Row, r: Row)
    ensures r in [a, b] <==> r == a || r == b
  {
    assert [a, b][0] == a && [a, b][1] == b;
  }

  lemma TwoRowsValid()
    ensures ValidTables(TWO_ROWS) && ValidQuery(NEWEST_FIRST)
  {
    forall r ensures r in TWO_ROWS.actions <==> r == SampleRow(1) || r == SampleRow(2) { PairHas(SampleRow(1), SampleRow(2), r); }
  }

  lemma TwoRowsMatch()
    ensures ListsMatches(TWO_ROWS, NEWEST_FIRST, [SampleRow(2), SampleRow(1)])
  {
    var all := [SampleRow(2), SampleRow(1)];
    forall r ensures r in all <==> (r in TWO_ROWS.actions || r in TWO_ROWS.adminActions) && Matches(NEWEST_FIRST, r) {
      PairHas(SampleRow(2), SampleRow(1), r);
      PairHas(SampleRow(1), SampleRow(2), r);
    }
  }

  /** It happens: with two rows and pages of one, the first page has the newer row, the page its cursor leads to
      has none, and the older row is never seen. */
  lemma DescendingCursorMisses()
    ensures
      var first := Search(TWO_ROWS, NEWEST_FIRST);
      && first == Some(Page([SampleRow(2)], Some(2)))
      && Search(TWO_ROWS, NEWEST_FIRST.(since := first.value.next.value)) == Some(Page([], None))
      && SampleRow(1) in TWO_ROWS.actions && Matches(NEWEST_FIRST, SampleRow(1))
  {
    hide Everything, Search, ListsMatches;
    TwoRowsValid();
    TwoRowsMatch();
    PairHas(SampleRow(1), SampleRow(2), SampleRow(1));
    var all := [SampleRow(2), SampleRow(1)];
    EverythingListsMatches(TWO_ROWS, NEWEST_FIRST);
    ListsUnique(TWO_ROWS, NEWEST_FIRST, all, Everything(TWO_ROWS, NEWEST_FIRST));
    PageIsPrefix(TWO_ROWS, NEWEST_FIRST);
    DescendingCursorSkips(TWO_ROWS, NEWEST_FIRST);
    PageShowsNewest(TWO_ROWS, NEWEST_FIRST, all);
    assert Take(1, all) == [SampleRow(2)];
    PageIsPrefix(TWO_ROWS, NEWEST_FIRST.(since := 2));
    SearchHasBoth(TWO_ROWS, NEWEST_FIRST);
    SearchHasBoth(TWO_ROWS, NEWEST_FIRST.(since := 2));
  }

  lemma SearchHasBoth(t: Tables, q: Query)
    ensures Search(t, q).Some? ==> Search(t, q) == Some(Page(Search(t, q).value.items, MaxId(Search(t, q).value.items)))
  {
  }
}
