/**
 Page requests over a table (gormx/pagination.go; Table.List and listByOffset in gormx/table.go).

 A table maps the values of the cursor column to rows, which makes cursor values unique and ties each
 to its row for good; everything else about the table may change between two calls. `Find` is the
 database's answer to WHERE cursor > ? ORDER BY cursor OFFSET ? LIMIT ?, in either direction.
 Page tokens are the cursor values they encode.
 */
module Pagination {

  import opened Options

  const DEFAULT_PAGE_SIZE := 10
  const MAX_PAGE_SIZE := 1000

  /** A value of the cursor column, by its rank in the column's order. */
  datatype Value = Value(rank: int)

  type Table<Row> = map<Value, Row>

  datatype Item<Row> = Item(cursor: Value, row: Row)

  // ----- The database -----

  /** `a` comes strictly before `b` in the request's order. */
  predicate Before(desc: bool, a: Value, b: Value) {
    if desc then a.rank > b.rank else a.rank < b.rank
  }

  lemma {:induction false} HasFirst(s: set<Value>, desc: bool) returns (m: Value)
    requires s != {}
    ensures m in s && forall x :: x in s && x != m ==> Before(desc, m, x)
  {
    m :| m in s;
    if s != {m} {
      var m' := HasFirst(s - {m}, desc);
      assert forall x :: x in s ==> x == m || x in s - {m};
      if Before(desc, m', m) {
        m := m';
      }
    }
  }

  function First(s: set<Value>, desc: bool): (m: Value)
    requires s != {}
    ensures m in s && forall x :: x in s && x != m ==> Before(desc, m, x)
  {
    assert exists m :: m in s && forall x :: x in s && x != m ==> Before(desc, m, x) by {
      var m := HasFirst(s, desc);
    }
    var m :| m in s && forall x :: x in s && x != m ==> Before(desc, m, x);
    m
  }

  /** The cursor values in the request's order. */
  function Ordered(s: set<Value>, desc: bool): seq<Value> {
    if s == {} then [] else [First(s, desc)] + Ordered(s - {First(s, desc)}, desc)
  }

  /** The cursor values a query with the condition `cursor > after` (or `<`) selects. */
  function Matching<Row>(t: Table<Row>, desc: bool, after: Option<Value>): set<Value> {
    set c | c in t && (after.Some? ==> Before(desc, after.value, c))
  }

  function ItemsOf<Row>(t: Table<Row>, cursors: seq<Value>): (items: seq<Item<Row>>)
    requires forall i :: 0 <= i < |cursors| ==> cursors[i] in t
    ensures |items| == |cursors|
    ensures forall i :: 0 <= i < |items| ==> items[i] == Item(cursors[i], t[cursors[i]])
  {
    seq(|cursors|, i requires 0 <= i < |cursors| => Item(cursors[i], t[cursors[i]]))
  }

  /** Every matching row, in the request's order. */
  function Selected<Row>(t: Table<Row>, desc: bool, after: Option<Value>): (items: seq<Item<Row>>)
    ensures Cursors(items) == Ordered(Matching(t, desc, after), desc)
    ensures |items| == |Matching(t, desc, after)|
    ensures forall i :: 0 <= i < |items| ==> items[i].cursor in Matching(t, desc, after)
                                             && items[i] == Item(items[i].cursor, t[items[i].cursor])
    ensures forall i, j :: 0 <= i < j < |items| ==> Before(desc, items[i].cursor, items[j].cursor)
  {
    var cursors := Ordered(Matching(t, desc, after), desc);
    OrderedElements(Matching(t, desc, after), desc);
    assert forall i :: 0 <= i < |cursors| ==> cursors[i] in cursors;
    var items := ItemsOf(t, cursors);
    assert Cursors(items) == cursors;
    items
  }

  function Cursors<Row>(items: seq<Item<Row>>): (cs: seq<Value>)
    ensures |cs| == |items| && forall i :: 0 <= i < |cs| ==> cs[i] == items[i].cursor
  {
    seq(|items|, i requires 0 <= i < |items| => items[i].cursor)
  }

  function Min(a: nat, b: nat): nat {
    if a < b then a else b
  }

  function Find<Row>(t: Table<Row>, desc: bool, after: Option<Value>, offset: nat, limit: nat): seq<Item<Row>> {
    var all := Selected(t, desc, after);
    var from := Min(offset, |all|);
    all[from..Min(from + limit, |all|)]
  }

  // ----- Ordering facts -----

  predicate Increasing(s: seq<Value>, desc: bool) {
    forall i, j :: 0 <= i < j < |s| ==> Before(desc, s[i], s[j])
  }

  lemma {:induction false} OrderedElements(s: set<Value>, desc: bool)
    ensures Increasing(Ordered(s, desc), desc)
    ensures |Ordered(s, desc)| == |s|
    ensures forall c :: c in Ordered(s, desc) <==> c in s
  {
    if s != {} {
      OrderedElements(s - {First(s, desc)}, desc);
    }
  }

  /** An increasing sequence is determined by its elements. */
  lemma {:induction false} IncreasingUnique(a: seq<Value>, b: seq<Value>, desc: bool)
    requires Increasing(a, desc) && Increasing(b, desc)
    requires forall c :: c in a <==> c in b
    ensures a == b
  {
    assert |b| > 0 ==> b[0] in b;
    if a != [] {
      assert a[0] in a && b != [];
      assert a[0] in b && b[0] in a;
      assert a[0] == b[0];
      assert forall c :: c in a[1..] <==> c in a && c != a[0] by {
        assert a == [a[0]] + a[1..];
      }
      assert forall c :: c in b[1..] <==> c in b && c != b[0] by {
        assert b == [b[0]] + b[1..];
      }
      IncreasingUnique(a[1..], b[1..], desc);
    }
  }

  lemma {:induction false} AfterIth(all: seq<Value>, desc: bool, i: nat, c: Value)
    requires Increasing(all, desc) && i < |all|
    ensures c in all[i + 1..] <==> c in all && Before(desc, all[i], c)
  {
    if c in all && Before(desc, all[i], c) {
      var j :| 0 <= j < |all| && all[j] == c;
      assert j > i;
      assert all[i + 1..][j - i - 1] == c;
    }
  }

  lemma {:induction false} OrderAdvances<Row>(t: Table<Row>, desc: bool, after: Option<Value>, i: nat)
    requires i < |Ordered(Matching(t, desc, after), desc)|
    ensures var all := Ordered(Matching(t, desc, after), desc);
            Ordered(Matching(t, desc, Some(all[i])), desc) == all[i + 1..]
  {
    var all := Ordered(Matching(t, desc, after), desc);
    var rest := Ordered(Matching(t, desc, Some(all[i])), desc);
    OrderedElements(Matching(t, desc, after), desc);
    OrderedElements(Matching(t, desc, Some(all[i])), desc);
    assert all[i] in all;
    forall c
      ensures c in all[i + 1..] <==> c in rest
    {
      AfterIth(all, desc, i, c);
    }
    IncreasingUnique(all[i + 1..], rest, desc);
  }

  /** Moving the cursor to the `i`-th match leaves exactly the matches after it. */
  lemma {:induction false} CursorAdvances<Row>(t: Table<Row>, desc: bool, after: Option<Value>, i: nat)
    requires i < |Selected(t, desc, after)|
    ensures var all := Selected(t, desc, after);
            Selected(t, desc, Some(all[i].cursor)) == all[i + 1..]
  {
    var all := Selected(t, desc, after);
    var rest := Selected(t, desc, Some(all[i].cursor));
    assert Cursors(all)[i] == all[i].cursor;
    OrderAdvances(t, desc, after, i);
    assert Cursors(all[i + 1..]) == Cursors(all)[i + 1..];
    SameItems(t, rest, all[i + 1..]);
  }

  /** Items of one table are determined by their cursors. */
  lemma {:induction false} SameItems<Row>(t: Table<Row>, a: seq<Item<Row>>, b: seq<Item<Row>>)
    requires forall i :: 0 <= i < |a| ==> a[i].cursor in t && a[i] == Item(a[i].cursor, t[a[i].cursor])
    requires forall i :: 0 <= i < |b| ==> b[i].cursor in t && b[i] == Item(b[i].cursor, t[b[i].cursor])
    requires Cursors(a) == Cursors(b)
    ensures a == b
  {
    assert |a| == |Cursors(a)| == |b|;
    forall i | 0 <= i < |a|
      ensures a[i] == b[i]
    {
      assert Cursors(a)[i] == Cursors(b)[i];
    }
  }

  // ----- Answers in terms of ranks alone -----

  /** The ranks of the items strictly ascend, or strictly descend for a descending request. */
  predicate RanksInOrder<Row>(items: seq<Item<Row>>, desc: bool) {
    forall i, j :: 0 <= i < j < |items| ==>
      if desc then items[i].cursor.rank > items[j].cursor.rank else items[i].cursor.rank < items[j].cursor.rank
  }

  /** The items are rows of the table as they are. */
  predicate RowsOf<Row(==)>(items: seq<Item<Row>>, t: Table<Row>) {
    forall i :: 0 <= i < |items| ==> items[i].cursor in t && t[items[i].cursor] == items[i].row
  }

  /** Rank `r` lies beyond the token, on the side the request moves to. */
  predicate RankBeyond(desc: bool, token: Option<Value>, r: int) {
    token.Some? ==> if desc then r < token.value.rank else r > token.value.rank
  }

  /** A page that answers a cursor request: rows of the table in rank order and beyond the token, and every
      such row that is not on the page lies beyond the next token. */
  ghost predicate AnswersCursor<Row>(t: Table<Row>, desc: bool, token: Option<Value>, size: nat, p: Page<Row>) {
    && RowsOf(p.items, t) && RanksInOrder(p.items, desc) && |p.items| <= size
    && (forall i :: 0 <= i < |p.items| ==> RankBeyond(desc, token, p.items[i].cursor.rank))
    && (p.next.Some? ==> |p.items| == size > 0 && p.next.value == p.items[size - 1].cursor)
    && (p.next.Some? <==> exists c :: c in t && RankBeyond(desc, token, c.rank) && c !in Cursors(p.items))
    && (forall c :: c in t && RankBeyond(desc, token, c.rank) && c !in Cursors(p.items) ==> RankBeyond(desc, p.next, c.rank))
  }

  /** The rows of the table that come before rank `r` in the request's order. */
  ghost function RowsAhead<Row>(t: Table<Row>, desc: bool, r: int): set<Value> {
    set c | c in t && if desc then c.rank > r else c.rank < r
  }

  /** A page that answers an offset request: rows of the table in rank order, the `i`-th of them with exactly
      `offset + i` rows ahead of it, and as many as the size and the table allow. */
  ghost predicate AnswersOffset<Row>(t: Table<Row>, desc: bool, offset: nat, size: nat, p: Page<Row>) {
    && RowsOf(p.items, t) && RanksInOrder(p.items, desc)
    && (forall i :: 0 <= i < |p.items| ==> |RowsAhead(t, desc, p.items[i].cursor.rank)| == offset + i)
    && |p.items| == (if offset >= |t| then 0 else Min(size, |t| - offset))
    && p.totalCount == |t| && p.next.None?
  }

  lemma {:induction false} CursorPageAnswers<Row>(t: Table<Row>, desc: bool, after: Option<Value>, size: nat)
    requires size > 0
    ensures AnswersCursor(t, desc, after, size, CursorPage(t, desc, after, size))
  {
    var p := CursorPage(t, desc, after, size);
    SelectedInRanks(t, desc, after);
    forall c | c in t && RankBeyond(desc, after, c.rank) && c !in Cursors(p.items)
      ensures p.next.Some? && RankBeyond(desc, p.next, c.rank)
    {
      LeftOffPage(t, desc, after, size, c);
    }
    if p.next.Some? {
      TokenMeansMore(t, desc, after, size);
    }
  }

  lemma {:induction false} SelectedInRanks<Row>(t: Table<Row>, desc: bool, after: Option<Value>)
    ensures var all := Selected(t, desc, after);
            && RowsOf(all, t) && RanksInOrder(all, desc)
            && forall i :: 0 <= i < |all| ==> RankBeyond(desc, after, all[i].cursor.rank)
  {
  }

  lemma {:induction false} TokenMeansMore<Row>(t: Table<Row>, desc: bool, after: Option<Value>, size: nat)
    requires size > 0 && CursorPage(t, desc, after, size).next.Some?
    ensures exists c :: c in t && RankBeyond(desc, after, c.rank) && c !in Cursors(CursorPage(t, desc, after, size).items)
  {
    var all, cs := Selected(t, desc, after), Cursors(CursorPage(t, desc, after, size).items);
    var c := all[size].cursor;
    assert c in Matching(t, desc, after);
    forall i | 0 <= i < |cs|
      ensures cs[i] != c
    {
      assert Before(desc, all[i].cursor, all[size].cursor);
    }
  }

  lemma {:induction false} LeftOffPage<Row>(t: Table<Row>, desc: bool, after: Option<Value>, size: nat, c: Value)
    requires size > 0 && c in t && RankBeyond(desc, after, c.rank)
    requires c !in Cursors(CursorPage(t, desc, after, size).items)
    ensures var p := CursorPage(t, desc, after, size); p.next.Some? && RankBeyond(desc, p.next, c.rank)
  {
    var all, p := Selected(t, desc, after), CursorPage(t, desc, after, size);
    OrderedElements(Matching(t, desc, after), desc);
    assert c in Matching(t, desc, after) && c in Cursors(all);
    var m :| 0 <= m < |all| && Cursors(all)[m] == c;
    assert forall i :: 0 <= i < |p.items| ==> Cursors(p.items)[i] == Cursors(all)[i];
    assert m >= size;
    assert Before(desc, all[size - 1].cursor, all[m].cursor);
  }

  /** The rows ahead of the `i`-th of all are the `i` before it. */
  lemma {:induction false} AheadOf<Row>(t: Table<Row>, desc: bool, i: nat)
    requires i < |Selected(t, desc, None)|
    ensures |RowsAhead(t, desc, Selected(t, desc, None)[i].cursor.rank)| == i
  {
    var all := Selected(t, desc, None);
    var cs := Cursors(all);
    OrderedElements(Matching(t, desc, None), desc);
    var ahead := Elements(cs[..i]);
    DistinctPrefix(cs, desc, i);
    forall c
      ensures c in ahead <==> c in RowsAhead(t, desc, all[i].cursor.rank)
    {
      AheadIsEarlier(t, desc, i, c);
    }
    assert ahead == RowsAhead(t, desc, all[i].cursor.rank);
  }

  lemma {:induction false} AheadIsEarlier<Row>(t: Table<Row>, desc: bool, i: nat, c: Value)
    requires i < |Selected(t, desc, None)|
    ensures c in Cursors(Selected(t, desc, None))[..i] <==> c in RowsAhead(t, desc, Selected(t, desc, None)[i].cursor.rank)
  {
    var all := Selected(t, desc, None);
    var cs := Cursors(all);
    OrderedElements(Matching(t, desc, None), desc);
    assert c in t <==> c in cs;
    if c in t {
      var m :| 0 <= m < |cs| && cs[m] == c;
      assert if m < i then Before(desc, all[m].cursor, all[i].cursor)
             else m == i || Before(desc, all[i].cursor, all[m].cursor);
      if m < i {
        assert cs[..i][m] == c;
      }
    }
  }

  function Elements(cs: seq<Value>): set<Value> {
    set c | c in cs
  }

  lemma {:induction false} OneMoreElement(cs: seq<Value>, c: Value)
    requires c !in cs
    ensures |Elements(cs + [c])| == |Elements(cs)| + 1
  {
    assert Elements(cs + [c]) == Elements(cs) + {c};
  }

  lemma {:induction false} DistinctPrefix(cs: seq<Value>, desc: bool, i: nat)
    requires Increasing(cs, desc) && i <= |cs|
    ensures |Elements(cs[..i])| == i
    decreases i
  {
    if i == 0 {
      assert Elements(cs[..0]) == {};
    } else {
      var p, c := cs[..i - 1], cs[i - 1];
      DistinctPrefix(cs, desc, i - 1);
      assert cs[..i] == p + [c];
      assert forall j :: 0 <= j < |p| ==> p[j] != c;
      OneMoreElement(p, c);
    }
  }

  lemma {:induction false} WholeTable<Row>(t: Table<Row>, desc: bool)
    ensures |Selected(t, desc, None)| == |t|
  {
    assert Matching(t, desc, None) == t.Keys;
  }

  lemma {:induction false} OffsetPageAnswers<Row>(t: Table<Row>, desc: bool, offset: nat, size: nat)
    ensures AnswersOffset(t, desc, offset, size, OffsetPage(t, desc, offset, size))
  {
    var all, p := Selected(t, desc, None), OffsetPage(t, desc, offset, size);
    SelectedInRanks(t, desc, None);
    WholeTable(t, desc);
    var from := Min(offset, |all|);
    assert p.items == all[from..Min(from + size, |all|)];
    forall i | 0 <= i < |p.items|
      ensures p.items[i] == all[offset + i] && |RowsAhead(t, desc, p.items[i].cursor.rank)| == offset + i
    {
      AheadOf(t, desc, offset + i);
    }
  }

  // ----- Requests -----

  /** A decoded page token; an absent or empty one means the first page. */
  datatype Token = NoToken | Cursor(value: Value) | Malformed

  datatype Request = Request(pageSize: int, token: Token, page: Option<int>, desc: bool)

  datatype Page<Row> = Page(items: seq<Item<Row>>, pageSize: int, totalCount: int, next: Option<Value>)

  datatype Response<Row> = Ok(page: Page<Row>) | BadPageSize | BadOffset | BadToken

  function RequestedSize(req: Request): int {
    if req.pageSize == 0 then DEFAULT_PAGE_SIZE else req.pageSize
  }

  method CheckedPageSize(n: int) returns (size: int, ok: bool)
    ensures ok <==> 0 <= n <= MAX_PAGE_SIZE
    ensures ok ==> 1 <= size <= MAX_PAGE_SIZE && (n != 0 ==> size == n) && (n == 0 ==> size == DEFAULT_PAGE_SIZE)
  {
    if n == 0 {
      return DEFAULT_PAGE_SIZE, true;
    }
    if n < 0 || n > MAX_PAGE_SIZE {
      return 0, false;
    }
    return n, true;
  }

  /** The 1-based page number, clamped to the first page. */
  function PageNumber(page: int): int {
    if page < 1 then 1 else page
  }

  /** How many rows precede the requested page. */
  function RowsBefore(req: Request): int
    requires req.page.Some?
  {
    (PageNumber(req.page.value) - 1) * RequestedSize(req)
  }

  lemma {:induction false} QuotientGuard(a: nat, size: nat, maxInt: nat)
    requires size > 0
    ensures a > maxInt / size <==> a * size > maxInt
  {
    var q := maxInt / size;
    assert q * size <= maxInt < q * size + size;
    if a > q {
      MulMonotone(q + 1, a, size);
      assert (q + 1) * size == q * size + size;
    } else {
      MulMonotone(a, q, size);
    }
  }

  lemma {:induction false} MulMonotone(a: nat, b: nat, k: nat)
    requires a <= b
    ensures a * k <= b * k
  {
  }

  /** The row offset of page-number pagination on a platform whose largest int is `maxInt`: the guard
      rejects exactly the products that would overflow. */
  method Offset(req: Request, maxInt: nat) returns (offset: int, ok: bool)
    ensures ok <==> req.page.Some?
    ensures ok && RequestedSize(req) > 0 ==>
              && (offset == -1 <==> RowsBefore(req) > maxInt)
              && (RowsBefore(req) <= maxInt ==> offset == RowsBefore(req) && offset >= 0)
    ensures ok && RequestedSize(req) <= 0 ==> offset == -1
  {
    if req.page.None? {
      return 0, false;
    }
    var page := if req.page.value > 1 then req.page.value else 1;
    var size := RequestedSize(req);
    if size <= 0 {
      return -1, true;
    }
    QuotientGuard(page - 1, size, maxInt);
    if page - 1 > maxInt / size {
      return -1, true;
    }
    return (page - 1) * size, true;
  }

  function TokenCursor(t: Token): Option<Value> {
    if t.Cursor? then Some(t.value) else None
  }

  /** The page a cursor request should get: the first `size` matches after the cursor, and a token
      for the last of them exactly when more matches follow. */
  function CursorPage<Row>(t: Table<Row>, desc: bool, after: Option<Value>, size: nat): Page<Row>
    requires size > 0
  {
    PageOf(Selected(t, desc, after), size)
  }

  /** The first page of the matches, in the request's order. */
  function PageOf<Row>(all: seq<Item<Row>>, size: nat): Page<Row>
    requires size > 0
  {
    Page(all[..Min(size, |all|)], size, -1, if |all| > size then Some(all[size - 1].cursor) else None)
  }

  /** The page at a row offset of the whole table, with the total count. */
  function OffsetPage<Row>(t: Table<Row>, desc: bool, offset: nat, size: nat): Page<Row> {
    Page(Find(t, desc, None, offset, size), size, |t|, None)
  }

  method ListByCursor<Row>(t: Table<Row>, desc: bool, after: Option<Value>, pageSize: nat) returns (p: Page<Row>)
    requires pageSize > 0
    ensures p == CursorPage(t, desc, after, pageSize)
    ensures AnswersCursor(t, desc, after, pageSize, p)
  {
    CursorPageAnswers(t, desc, after, pageSize);
    // One extra row shows whether a next page exists.
    var items := Find(t, desc, after, 0, pageSize + 1);
    var next := None;
    if |items| > pageSize {
      items := items[..pageSize];
      next := Some(items[|items| - 1].cursor);
    }
    p := Page(items, pageSize, -1, next);
  }

  method List<Row>(t: Table<Row>, req: Request, maxInt: nat) returns (r: Response<Row>)
    ensures r.BadPageSize? <==> !(0 <= req.pageSize <= MAX_PAGE_SIZE)
    ensures !r.BadPageSize? && req.page.Some? ==>
              && (r.BadOffset? <==> RowsBefore(req) > maxInt)
              && (!r.BadOffset? ==> RowsBefore(req) >= 0
                                    && r == Ok(OffsetPage(t, req.desc, RowsBefore(req), RequestedSize(req))))
    ensures !r.BadPageSize? && req.page.None? ==>
              r == if req.token.Malformed? then BadToken
                   else Ok(CursorPage(t, req.desc, TokenCursor(req.token), RequestedSize(req)))
    ensures r.BadToken? <==> 0 <= req.pageSize <= MAX_PAGE_SIZE && req.page.None? && req.token.Malformed?
    ensures r.Ok? ==> r.page.pageSize == (if req.pageSize == 0 then DEFAULT_PAGE_SIZE else req.pageSize) && r.page.pageSize > 0
    ensures r.Ok? && req.page.None? && req.token.NoToken? ==>
              AnswersCursor(t, req.desc, None, r.page.pageSize, r.page)
    ensures r.Ok? && req.page.None? && req.token.Cursor? ==>
              AnswersCursor(t, req.desc, Some(req.token.value), r.page.pageSize, r.page)
    ensures r.Ok? && req.page.Some? && req.page.value <= 1 ==>
              AnswersOffset(t, req.desc, 0, r.page.pageSize, r.page)
    ensures r.Ok? && req.page.Some? && req.page.value > 1 ==>
              var offset := (req.page.value - 1) * r.page.pageSize;
              0 <= offset <= maxInt && AnswersOffset(t, req.desc, offset, r.page.pageSize, r.page)
    ensures r.BadOffset? ==> req.page.Some? && req.page.value > 1
                             && (req.page.value - 1) * (if req.pageSize == 0 then DEFAULT_PAGE_SIZE else req.pageSize) > maxInt
  {
    var pageSize, sizeOk := CheckedPageSize(RequestedSize(req));
    if !sizeOk {
      return BadPageSize;
    }
    var offset, isOffset := Offset(req, maxInt);
    if isOffset {
      if offset < 0 {
        return BadOffset;
      }
      OffsetPageAnswers(t, req.desc, offset, pageSize);
      return Ok(Page(Find(t, req.desc, None, offset, pageSize), pageSize, |t|, None));
    }
    if req.token.Malformed? {
      return BadToken;
    }
    var page := ListByCursor(t, req.desc, TokenCursor(req.token), pageSize);
    return Ok(page);
  }

  // ----- Walking with the cursor -----

  /** Follow next-page tokens, the k-th call seeing table `ts[k]`; stop at a page without a token or
      when `ts` runs out. */
  function Walk<Row>(ts: seq<Table<Row>>, desc: bool, size: nat, after: Option<Value>): seq<seq<Item<Row>>>
    requires size > 0
  {
    if ts == [] then []
    else
      var p := CursorPage(ts[0], desc, after, size);
      if p.next.None? then [p.items] else [p.items] + Walk(ts[1..], desc, size, p.next)
  }

  /** The walk reached a page without a token. */
  predicate Finishes<Row>(ts: seq<Table<Row>>, desc: bool, size: nat, after: Option<Value>)
    requires size > 0
  {
    ts != [] &&
    var p := CursorPage(ts[0], desc, after, size);
    p.next.None? || Finishes(ts[1..], desc, size, p.next)
  }

  function Flat<T>(ss: seq<seq<T>>): seq<T> {
    if ss == [] then [] else ss[0] + Flat(ss[1..])
  }

  /** A page leaves out no match up to its token. */
  lemma {:induction false} PageCovers<Row>(t: Table<Row>, desc: bool, after: Option<Value>, size: nat, c: Value)
    requires size > 0 && c in Matching(t, desc, after)
    requires var p := CursorPage(t, desc, after, size); p.next.Some? ==> !Before(desc, p.next.value, c)
    ensures c in Cursors(CursorPage(t, desc, after, size).items)
  {
    var all := Cursors(Selected(t, desc, after));
    OrderedElements(Matching(t, desc, after), desc);
    var j :| 0 <= j < |all| && all[j] == c;
    assert Cursors(CursorPage(t, desc, after, size).items)[j] == c;
  }

  /** What one page is worth: its cursors increase past the previous token and stop at the next. */
  lemma {:induction false} PageBounds<Row>(t: Table<Row>, desc: bool, after: Option<Value>, size: nat)
    requires size > 0
    ensures var p := CursorPage(t, desc, after, size);
            && Increasing(Cursors(p.items), desc)
            && (forall i :: 0 <= i < |p.items| ==> p.items[i].cursor in t && p.items[i].row == t[p.items[i].cursor])
            && (forall i :: 0 <= i < |p.items| && after.Some? ==> Before(desc, after.value, p.items[i].cursor))
            && (p.next.Some? ==> |p.items| > 0 && p.next.value == p.items[|p.items| - 1].cursor)
            && (forall c :: c in Matching(t, desc, after) && (p.next.Some? ==> !Before(desc, p.next.value, c)) ==>
                  c in Cursors(p.items))
  {
    var p := CursorPage(t, desc, after, size);
    forall c | c in Matching(t, desc, after) && (p.next.Some? ==> !Before(desc, p.next.value, c))
      ensures c in Cursors(p.items)
    {
      PageCovers(t, desc, after, size, c);
    }
  }

  lemma {:induction false} CursorsSplit<Row>(a: seq<Item<Row>>, b: seq<Item<Row>>)
    ensures Cursors(a + b) == Cursors(a) + Cursors(b)
  {
  }

  lemma {:induction false} IncreasingJoin(a: seq<Value>, b: seq<Value>, desc: bool)
    requires Increasing(a, desc) && Increasing(b, desc)
    requires a != [] && forall i :: 0 <= i < |b| ==> Before(desc, a[|a| - 1], b[i])
    ensures Increasing(a + b, desc)
  {
  }

  /** The walk's first page, then the rest. */
  lemma {:induction false} WalkUnfolds<Row>(ts: seq<Table<Row>>, desc: bool, size: nat, after: Option<Value>)
    requires size > 0 && ts != []
    ensures var p := CursorPage(ts[0], desc, after, size);
            Cursors(Flat(Walk(ts, desc, size, after)))
            == Cursors(p.items) + if p.next.None? then [] else Cursors(Flat(Walk(ts[1..], desc, size, p.next)))
  {
    var p, w := CursorPage(ts[0], desc, after, size), Walk(ts, desc, size, after);
    if p.next.None? {
      assert Flat(w) == p.items + Flat([]) == p.items;
    } else {
      var rest := Walk(ts[1..], desc, size, p.next);
      assert w[1..] == rest;
      CursorsSplit(p.items, Flat(rest));
    }
  }

  /** However the table changes between pages, the cursors returned keep increasing, so no value is
      ever returned twice. */
  lemma {:induction false} WalkIncreases<Row>(ts: seq<Table<Row>>, desc: bool, size: nat, after: Option<Value>)
    requires size > 0
    ensures var cs := Cursors(Flat(Walk(ts, desc, size, after)));
            Increasing(cs, desc) && (after.Some? ==> forall i :: 0 <= i < |cs| ==> Before(desc, after.value, cs[i]))
  {
    if ts != [] {
      var p := CursorPage(ts[0], desc, after, size);
      PageBounds(ts[0], desc, after, size);
      WalkUnfolds(ts, desc, size, after);
      if p.next.Some? {
        WalkIncreases(ts[1..], desc, size, p.next);
        IncreasingJoin(Cursors(p.items), Cursors(Flat(Walk(ts[1..], desc, size, p.next))), desc);
      }
    }
  }

  /** A row that stays in the table from the first call to the last is returned by a finished walk. */
  lemma {:induction false} WalkFinds<Row>(ts: seq<Table<Row>>, desc: bool, size: nat, after: Option<Value>, c: Value)
    requires size > 0 && Finishes(ts, desc, size, after)
    requires forall t :: t in ts ==> c in t
    requires after.Some? ==> Before(desc, after.value, c)
    ensures c in Cursors(Flat(Walk(ts, desc, size, after)))
  {
    var p := CursorPage(ts[0], desc, after, size);
    PageBounds(ts[0], desc, after, size);
    assert ts[0] in ts;
    assert c in Matching(ts[0], desc, after);
    WalkUnfolds(ts, desc, size, after);
    if p.next.Some? && Before(desc, p.next.value, c) {
      WalkFinds(ts[1..], desc, size, p.next, c);
    }
  }

  /** Over a table mutated arbitrarily between pages: no cursor value twice, and every row present
      throughout exactly once. */
  lemma {:induction false} WalkExactlyOnce<Row>(ts: seq<Table<Row>>, desc: bool, size: nat, c: Value)
    requires size > 0 && Finishes(ts, desc, size, None)
    ensures var cs := Cursors(Flat(Walk(ts, desc, size, None)));
            && (forall i, j :: 0 <= i < j < |cs| ==> cs[i] != cs[j])
            && ((forall t :: t in ts ==> c in t) ==> exists i :: 0 <= i < |cs| && cs[i] == c)
  {
    WalkIncreases(ts, desc, size, None);
    if forall t :: t in ts ==> c in t {
      WalkFinds(ts, desc, size, None, c);
    }
  }

  // ----- A table that does not change -----

  /** A sequence cut into consecutive pieces of `size`; the last may be shorter, and there is always
      at least one. */
  function Chunks<T>(s: seq<T>, size: nat): seq<seq<T>>
    requires size > 0
    decreases |s|
  {
    if |s| <= size then [s] else [s[..size]] + Chunks(s[size..], size)
  }

  /** max(1, ceil(n / size)). */
  function PageCount(n: nat, size: nat): nat
    requires size > 0
  {
    if n == 0 then 1 else (n + size - 1) / size
  }

  lemma {:induction false} CeilStep(n: nat, size: nat)
    requires size > 0
    ensures n <= size ==> PageCount(n, size) == 1
    ensures n > size ==> PageCount(n, size) == 1 + PageCount(n - size, size)
  {
    if n > size {
      DivStep(n - 1, size);
      assert n - size > 0;
      assert n + size - 1 == (n - 1) + size && (n - size) + size - 1 == n - 1;
    } else if n > 0 {
      DivStep(n - 1, size);
      DivSmall(n - 1, size);
    }
  }

  lemma {:induction false} DivStep(a: nat, k: nat)
    requires k > 0
    ensures (a + k) / k == a / k + 1
  {
    var q, r := a / k, a % k;
    assert a == q * k + r;
    assert a + k == (q + 1) * k + r;
    DivUnique(a + k, k, q + 1, r);
  }

  lemma {:induction false} DivSmall(a: nat, k: nat)
    requires a < k
    ensures a / k == 0
  {
    DivUnique(a, k, 0, a);
  }

  lemma {:induction false} DivUnique(a: nat, k: nat, q: nat, r: nat)
    requires k > 0 && r < k && a == q * k + r
    ensures a / k == q
  {
    var q' := a / k;
    assert q' * k <= a < q' * k + k;
    assert (q' + 1) * k == q' * k + k && (q + 1) * k == q * k + k;
    if q' < q {
      MulMonotone(q' + 1, q, k);
    } else if q < q' {
      MulMonotone(q + 1, q', k);
    }
  }

  lemma {:induction false} ChunksProps<T>(s: seq<T>, size: nat)
    requires size > 0
    ensures Flat(Chunks(s, size)) == s
    ensures |Chunks(s, size)| == PageCount(|s|, size)
    decreases |s|
  {
    CeilStep(|s|, size);
    if |s| <= size {
      assert Flat([s]) == s + Flat([]) == s;
    } else {
      ChunksProps(s[size..], size);
      var cs := Chunks(s, size);
      assert cs[1..] == Chunks(s[size..], size);
      assert s[..size] + s[size..] == s;
    }
  }

  /** The k-th piece is the stretch of length `size` that starts at row k * size. */
  lemma {:induction false} ChunkAt<T>(s: seq<T>, size: nat, k: nat, from: nat)
    requires size > 0 && k < |Chunks(s, size)| && from == k * size
    ensures from <= |s|
    ensures Chunks(s, size)[k] == s[from..Min(from + size, |s|)]
    decreases |s|
  {
    if k > 0 {
      assert (k - 1) * size == from - size;
      ChunkAt(s[size..], size, k - 1, from - size);
      Shifted(s, size, from - size, Min(from, |s| - size));
    }
  }

  lemma {:induction false} Shifted<T>(s: seq<T>, n: nat, a: nat, b: nat)
    requires n <= |s| && a <= b <= |s| - n
    ensures s[n..][a..b] == s[n + a..n + b]
  {
  }

  /** The first page is the first piece, and its token stands for the rest. */
  lemma {:induction false} PageIsChunk<Row>(t: Table<Row>, desc: bool, after: Option<Value>, size: nat)
    requires size > 0
    ensures var all, p := Selected(t, desc, after), CursorPage(t, desc, after, size);
            if |all| <= size then p.next.None? && p.items == all
            else p.next.Some? && p.items == all[..size] && Selected(t, desc, p.next) == all[size..]
  {
    if |Selected(t, desc, after)| > size {
      CursorAdvances(t, desc, after, size - 1);
    }
  }

  /** On a fixed table the walk is the ordered table cut into pages. */
  lemma {:induction false} WalkIsChunks<Row>(ts: seq<Table<Row>>, t: Table<Row>, desc: bool, size: nat, after: Option<Value>)
    requires size > 0 && forall i :: 0 <= i < |ts| ==> ts[i] == t
    requires |ts| >= PageCount(|Selected(t, desc, after)|, size)
    ensures Finishes(ts, desc, size, after)
    ensures Walk(ts, desc, size, after) == Chunks(Selected(t, desc, after), size)
    decreases |ts|
  {
    var all := Selected(t, desc, after);
    CeilStep(|all|, size);
    PageIsChunk(t, desc, after, size);
    if |all| > size {
      WalkIsChunks(ts[1..], t, desc, size, Some(all[size - 1].cursor));
    }
  }

  /** The whole table in order. */
  function Whole<Row>(t: Table<Row>, desc: bool): (items: seq<Item<Row>>)
    ensures |items| == |t|
  {
    assert Matching(t, desc, None) == t.Keys;
    Selected(t, desc, None)
  }

  /** On a fixed table a cursor walk takes max(1, ceil(n / size)) calls and concatenates to the whole
      table in order. */
  lemma {:induction false} FixedTableWalk<Row>(t: Table<Row>, desc: bool, size: nat)
    requires size > 0
    ensures var ts := seq(PageCount(|t|, size), _ => t);
            && Finishes(ts, desc, size, None)
            && |Walk(ts, desc, size, None)| == PageCount(|t|, size)
            && Flat(Walk(ts, desc, size, None)) == Whole(t, desc)
  {
    ChunksProps(Whole(t, desc), size);
    WalkIsChunks(seq(PageCount(|t|, size), _ => t), t, desc, size, None);
  }

  lemma {:induction false} FindsWalkedPage<Row>(t: Table<Row>, desc: bool, size: nat, k: nat, from: nat)
    requires size > 0 && k < PageCount(|t|, size) && from == k * size
    ensures var w := Walk(seq(PageCount(|t|, size), _ => t), desc, size, None);
            k < |w| && Find(t, desc, None, from, size) == w[k]
  {
    assert |Whole(t, desc)| == |t|;
    WalkIsChunks(seq(PageCount(|t|, size), _ => t), t, desc, size, None);
    FindsChunk(t, desc, size, k, from);
  }

  lemma {:induction false} FindsNothing<Row>(t: Table<Row>, desc: bool, size: nat, from: nat)
    requires from >= |t|
    ensures Find(t, desc, None, from, size) == []
  {
    assert |Whole(t, desc)| == |t|;
  }

  lemma {:induction false} FindsChunk<Row>(t: Table<Row>, desc: bool, size: nat, k: nat, from: nat)
    requires size > 0 && k < PageCount(|t|, size) && from == k * size
    ensures k < |Chunks(Whole(t, desc), size)| && Find(t, desc, None, from, size) == Chunks(Whole(t, desc), size)[k]
  {
    ChunksProps(Whole(t, desc), size);
    ChunkAt(Whole(t, desc), size, k, from);
  }

  /** Page numbers and cursors agree: on a fixed table page k+1 of offset mode holds the same items as
      the k-th call of the cursor walk, and its total is the number of rows. Beyond the last page
      offset mode gives an empty page. */
  lemma {:induction false} OffsetAgreesWithCursor<Row>(t: Table<Row>, desc: bool, size: nat, k: nat)
    requires size > 0
    ensures var p := OffsetPage(t, desc, k * size, size);
            && p.totalCount == |t|
            && (k < PageCount(|t|, size) ==>
                  var w := Walk(seq(PageCount(|t|, size), _ => t), desc, size, None);
                  k < |w| && p.items == w[k])
            && (k >= PageCount(|t|, size) ==> p.items == [])
  {
    if k < PageCount(|t|, size) {
      FindsWalkedPage(t, desc, size, k, k * size);
    } else {
      BeyondLastPage(|t|, size, k);
      FindsNothing(t, desc, size, k * size);
    }
  }

  lemma {:induction false} BeyondLastPage(n: nat, size: nat, k: nat)
    requires size > 0 && k >= PageCount(n, size)
    ensures k * size >= n
    decreases n
  {
    CeilStep(n, size);
    if n > size {
      BeyondLastPage(n - size, size, k - 1);
      assert k * size == (k - 1) * size + size;
    } else {
      MulMonotone(1, k, size);
    }
  }
}
