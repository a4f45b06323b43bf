/**
 Cursor pages over a column whose values repeat (gormx/pagination.go, gormx/table.go).

 The token of a page is the cursor value of its last row and the next call asks for greater values only,
 so rows that share a value with the end of a page can be passed over. This module says exactly when,
 for a table that stays as it is and for one that changes between the calls.
 */
module PaginationTies {

  import opened Options
  import opened Pagination

  // ----- What a query returns -----

  /** Rows as the database keeps them in the request's order; those with equal cursor values stand side by
      side. */
  predicate Sorted<Row>(rows: seq<Item<Row>>, desc: bool) {
    forall i, j :: 0 <= i < j < |rows| ==> !Before(desc, rows[j].cursor, rows[i].cursor)
  }

  /** The condition `cursor > after` (or `<`), if there is one. */
  predicate Past<Row>(desc: bool, after: Option<Value>, x: Item<Row>) {
    after.Some? ==> Before(desc, after.value, x.cursor)
  }

  /** The rows that meet it. */
  function Beyond<Row>(rows: seq<Item<Row>>, desc: bool, after: Option<Value>): (r: seq<Item<Row>>)
    ensures |r| <= |rows|
  {
    if rows == [] then []
    else if Past(desc, after, rows[0]) then [rows[0]] + Beyond(rows[1..], desc, after)
    else Beyond(rows[1..], desc, after)
  }

  lemma {:induction false} BeyondSplits<Row>(a: seq<Item<Row>>, b: seq<Item<Row>>, desc: bool, after: Option<Value>)
    ensures Beyond(a + b, desc, after) == Beyond(a, desc, after) + Beyond(b, desc, after)
    decreases |a|
  {
    if a == [] {
      assert a + b == b;
      assert Beyond(a, desc, after) + Beyond(b, desc, after) == Beyond(b, desc, after);
    } else {
      var x, c := a[0], a[1..];
      assert (a + b)[0] == x && (a + b)[1..] == c + b;
      BeyondSplits(c, b, desc, after);
      assert [x] + (Beyond(c, desc, after) + Beyond(b, desc, after)) == [x] + Beyond(c, desc, after) + Beyond(b, desc, after);
    }
  }

  lemma {:induction false} BeyondNone<Row>(rows: seq<Item<Row>>, desc: bool, b: Value)
    requires forall i :: 0 <= i < |rows| ==> !Before(desc, b, rows[i].cursor)
    ensures Beyond(rows, desc, Some(b)) == []
    decreases |rows|
  {
    if rows != [] {
      BeyondNone(rows[1..], desc, b);
    }
  }

  lemma {:induction false} BeyondAll<Row>(rows: seq<Item<Row>>, desc: bool, after: Option<Value>)
    requires forall i :: 0 <= i < |rows| ==> Past(desc, after, rows[i])
    ensures Beyond(rows, desc, after) == rows
    decreases |rows|
  {
    if rows != [] {
      BeyondAll(rows[1..], desc, after);
    }
  }

  lemma {:induction false} BeyondElements<Row>(rows: seq<Item<Row>>, desc: bool, after: Option<Value>)
    ensures forall x :: x in Beyond(rows, desc, after) ==> x in rows && Past(desc, after, x)
    ensures forall x :: x in rows && Past(desc, after, x) ==> x in Beyond(rows, desc, after)
    decreases |rows|
  {
    if rows != [] {
      BeyondElements(rows[1..], desc, after);
      assert rows == [rows[0]] + rows[1..];
    }
  }

  lemma {:induction false} BeyondSorted<Row>(rows: seq<Item<Row>>, desc: bool, after: Option<Value>)
    requires Sorted(rows, desc)
    ensures Sorted(Beyond(rows, desc, after), desc)
    decreases |rows|
  {
    if rows != [] {
      BeyondSorted(rows[1..], desc, after);
      if Past(desc, after, rows[0]) {
        SortedCons(rows, Beyond(rows[1..], desc, after), desc, after);
      }
    }
  }

  lemma {:induction false} SortedCons<Row>(rows: seq<Item<Row>>, rest: seq<Item<Row>>, desc: bool, after: Option<Value>)
    requires rows != [] && Sorted(rows, desc) && Sorted(rest, desc) && rest == Beyond(rows[1..], desc, after)
    ensures Sorted([rows[0]] + rest, desc)
  {
    BeyondElements(rows[1..], desc, after);
    forall j | 0 <= j < |rest|
      ensures !Before(desc, rest[j].cursor, rows[0].cursor)
    {
      assert rest[j] in rows[1..];
      var m :| 0 <= m < |rows[1..]| && rows[1..][m] == rest[j];
      assert rows[m + 1] == rest[j];
    }
  }

  /** Asking again from a later value gives what is later among the matches so far. */
  lemma {:induction false} BeyondNested<Row>(rows: seq<Item<Row>>, desc: bool, after: Option<Value>, b: Value)
    requires after.Some? ==> Before(desc, after.value, b)
    ensures Beyond(rows, desc, Some(b)) == Beyond(Beyond(rows, desc, after), desc, Some(b))
    decreases |rows|
  {
    if rows != [] {
      BeyondNested(rows[1..], desc, after, b);
      if Past(desc, after, rows[0]) {
        var all := [rows[0]] + Beyond(rows[1..], desc, after);
        assert all[1..] == Beyond(rows[1..], desc, after);
      }
    }
  }

  /** If the first `n` matches are not past `b`, asking from `b` leaves them out. */
  lemma {:induction false} TokenCuts<Row>(rows: seq<Item<Row>>, desc: bool, after: Option<Value>, b: Value, n: nat)
    requires n <= |Beyond(rows, desc, after)| && (after.Some? ==> Before(desc, after.value, b))
    requires forall i :: 0 <= i < n ==> !Before(desc, b, Beyond(rows, desc, after)[i].cursor)
    ensures Beyond(rows, desc, Some(b)) == Beyond(Beyond(rows, desc, after)[n..], desc, Some(b))
  {
    var all := Beyond(rows, desc, after);
    BeyondNested(rows, desc, after, b);
    assert all == all[..n] + all[n..];
    BeyondNone(all[..n], desc, b);
    BeyondSplits(all[..n], all[n..], desc, Some(b));
    assert [] + Beyond(all[n..], desc, Some(b)) == Beyond(all[n..], desc, Some(b));
  }

  /** The token after `k` matches excludes those, and the next one too if it has the same value. */
  lemma {:induction false} TokenDrops<Row>(rows: seq<Item<Row>>, desc: bool, after: Option<Value>, k: nat)
    requires Sorted(rows, desc) && 0 < k <= |Beyond(rows, desc, after)|
    ensures var all := Beyond(rows, desc, after);
            var rest := Beyond(rows, desc, Some(all[k - 1].cursor));
            && |rest| <= |all| - k
            && (k < |all| && all[k].cursor == all[k - 1].cursor ==> |rest| < |all| - k)
  {
    var all := Beyond(rows, desc, after);
    var b := all[k - 1].cursor;
    BeyondSorted(rows, desc, after);
    BeyondElements(rows, desc, after);
    assert all[k - 1] in all && Past(desc, after, all[k - 1]);
    var n := if k < |all| && all[k].cursor == b then k + 1 else k;
    TokenCuts(rows, desc, after, b, n);
  }

  /** Otherwise it excludes no more than those. */
  lemma {:induction false} TokenKeeps<Row>(rows: seq<Item<Row>>, desc: bool, after: Option<Value>, k: nat)
    requires Sorted(rows, desc) && 0 < k < |Beyond(rows, desc, after)|
    requires Beyond(rows, desc, after)[k].cursor != Beyond(rows, desc, after)[k - 1].cursor
    ensures Beyond(rows, desc, Some(Beyond(rows, desc, after)[k - 1].cursor)) == Beyond(rows, desc, after)[k..]
  {
    var all := Beyond(rows, desc, after);
    var b := all[k - 1].cursor;
    BeyondSorted(rows, desc, after);
    BeyondElements(rows, desc, after);
    assert all[k - 1] in all && Past(desc, after, all[k - 1]);
    TokenCuts(rows, desc, after, b, k);
    forall i | 0 <= i < |all[k..]|
      ensures Past(desc, Some(b), all[k..][i])
    {
      assert !Before(desc, all[k].cursor, b) && (i > 0 ==> !Before(desc, all[k + i].cursor, all[k].cursor));
    }
    BeyondAll(all[k..], desc, Some(b));
  }

  // ----- A table that does not change -----

  /** Follow the tokens over a fixed table whose cursor values may repeat. */
  function TiedWalk<Row>(rows: seq<Item<Row>>, desc: bool, size: nat, after: Option<Value>): seq<seq<Item<Row>>>
    requires size > 0 && Sorted(rows, desc)
    decreases |Beyond(rows, desc, after)|
  {
    var all := Beyond(rows, desc, after);
    var p := PageOf(all, size);
    if p.next.None? then [p.items]
    else
      TokenDrops(rows, desc, after, size);
      [p.items] + TiedWalk(rows, desc, size, p.next)
  }

  /** Cut into pages of `size` from row `k` on, the table has two rows with the same cursor value on either
      side of a cut. */
  predicate CutsTies<Row>(rows: seq<Item<Row>>, size: nat, k: nat)
    requires size > 0
    decreases |rows| - k
  {
    k + size < |rows| && (rows[k + size].cursor == rows[k + size - 1].cursor || CutsTies(rows, size, k + size))
  }

  /** The walk's first page, then the walk from its token. */
  lemma {:induction false} TiedWalkUnfolds<Row>(rows: seq<Item<Row>>, desc: bool, size: nat, after: Option<Value>)
    requires size > 0 && Sorted(rows, desc)
    ensures var all := Beyond(rows, desc, after);
            Flat(TiedWalk(rows, desc, size, after))
            == if |all| <= size then all else all[..size] + Flat(TiedWalk(rows, desc, size, Some(all[size - 1].cursor)))
  {
    var all, w := Beyond(rows, desc, after), TiedWalk(rows, desc, size, after);
    if |all| <= size {
      assert w[1..] == [] && Flat(w) == all[..|all|] + Flat(w[1..]);
    } else {
      assert w[1..] == TiedWalk(rows, desc, size, Some(all[size - 1].cursor));
    }
  }

  lemma {:induction false} TiedWalkBounded<Row>(rows: seq<Item<Row>>, desc: bool, size: nat, after: Option<Value>)
    requires size > 0 && Sorted(rows, desc)
    ensures |Flat(TiedWalk(rows, desc, size, after))| <= |Beyond(rows, desc, after)|
    decreases |Beyond(rows, desc, after)|
  {
    TiedWalkUnfolds(rows, desc, size, after);
    var all := Beyond(rows, desc, after);
    if |all| > size {
      TokenDrops(rows, desc, after, size);
      TiedWalkBounded(rows, desc, size, Some(all[size - 1].cursor));
    }
  }

  lemma {:induction false} SamePrefix<T>(s: seq<T>, k: nat, t: seq<T>)
    requires k <= |s|
    ensures s[..k] + t == s <==> t == s[k..]
  {
    assert s == s[..k] + s[k..];
    assert (s[..k] + t)[k..] == t;
  }

  /** A tie at the end of the page: the rest of the walk is too short. */
  lemma {:induction false} TieShortens<Row>(rows: seq<Item<Row>>, desc: bool, size: nat, after: Option<Value>)
    requires size > 0 && Sorted(rows, desc) && size < |Beyond(rows, desc, after)|
    requires Beyond(rows, desc, after)[size].cursor == Beyond(rows, desc, after)[size - 1].cursor
    ensures |Flat(TiedWalk(rows, desc, size, after))| < |Beyond(rows, desc, after)|
  {
    var all := Beyond(rows, desc, after);
    TiedWalkUnfolds(rows, desc, size, after);
    TokenDrops(rows, desc, after, size);
    TiedWalkBounded(rows, desc, size, Some(all[size - 1].cursor));
  }

  /** No tie there: the walk is exact if the rest of it is. */
  lemma {:induction false} PageThenRest<Row>(rows: seq<Item<Row>>, desc: bool, size: nat, after: Option<Value>, k: nat)
    requires size > 0 && Sorted(rows, desc) && k + size < |rows| && Beyond(rows, desc, after) == rows[k..]
    requires rows[k + size].cursor != rows[k + size - 1].cursor
    ensures var next := Some(rows[k + size - 1].cursor);
            && Beyond(rows, desc, next) == rows[k + size..]
            && (Flat(TiedWalk(rows, desc, size, after)) == rows[k..] <==>
                Flat(TiedWalk(rows, desc, size, next)) == rows[k + size..])
  {
    var all, next := rows[k..], Some(rows[k + size - 1].cursor);
    TiedWalkUnfolds(rows, desc, size, after);
    TokenKeeps(rows, desc, after, size);
    assert all[size..] == rows[k + size..];
    SamePrefix(all, size, Flat(TiedWalk(rows, desc, size, next)));
  }

  lemma {:induction false} LastPageExact<Row>(rows: seq<Item<Row>>, desc: bool, size: nat, after: Option<Value>)
    requires size > 0 && Sorted(rows, desc) && |Beyond(rows, desc, after)| <= size
    ensures Flat(TiedWalk(rows, desc, size, after)) == Beyond(rows, desc, after)
  {
    TiedWalkUnfolds(rows, desc, size, after);
  }

  lemma {:induction false} TiedWalkFrom<Row>(rows: seq<Item<Row>>, desc: bool, size: nat, after: Option<Value>, k: nat)
    requires size > 0 && Sorted(rows, desc) && k <= |rows| && Beyond(rows, desc, after) == rows[k..]
    ensures Flat(TiedWalk(rows, desc, size, after)) == rows[k..] <==> !CutsTies(rows, size, k)
    decreases |rows| - k
  {
    var all := rows[k..];
    if |all| <= size {
      LastPageExact(rows, desc, size, after);
    } else if all[size].cursor == all[size - 1].cursor {
      TieShortens(rows, desc, size, after);
    } else {
      PageThenRest(rows, desc, size, after, k);
      TiedWalkFrom(rows, desc, size, Some(rows[k + size - 1].cursor), k + size);
    }
  }

  /** With a cursor column whose values repeat, a walk over a fixed table returns every row in order if and
      only if cutting the table into pages never separates two rows with the same value; otherwise it skips
      rows. */
  lemma {:induction false} TiedWalkExact<Row>(rows: seq<Item<Row>>, desc: bool, size: nat)
    requires size > 0 && Sorted(rows, desc)
    ensures Flat(TiedWalk(rows, desc, size, None)) == rows <==> !CutsTies(rows, size, 0)
    ensures |Flat(TiedWalk(rows, desc, size, None))| <= |rows|
  {
    BeyondAll(rows, desc, None);
    assert rows[0..] == rows;
    TiedWalkFrom(rows, desc, size, None, 0);
    TiedWalkBounded(rows, desc, size, None);
  }

  /** Three rows of the same instant, two to a page: the third is never returned. */
  lemma {:induction false} EqualCursorSkipped()
    ensures var rows := [Item(Value(1), 'a'), Item(Value(1), 'b'), Item(Value(1), 'c')];
            Sorted(rows, false) && Flat(TiedWalk(rows, false, 2, None)) == rows[..2]
  {
    var rows := [Item(Value(1), 'a'), Item(Value(1), 'b'), Item(Value(1), 'c')];
    BeyondAll(rows, false, None);
    BeyondNone(rows, false, Value(1));
    TiedWalkUnfolds(rows, false, 2, None);
    TiedWalkUnfolds(rows, false, 2, Some(Value(1)));
    assert rows[..2] + [] == rows[..2];
  }

  // ----- A table that changes between calls -----

  /** Follow the tokens, the k-th call seeing the rows `ts[k]`. */
  function WalkOver<Row>(ts: seq<seq<Item<Row>>>, desc: bool, size: nat, after: Option<Value>): seq<seq<Item<Row>>>
    requires size > 0
  {
    if ts == [] then []
    else
      var p := PageOf(Beyond(ts[0], desc, after), size);
      if p.next.None? then [p.items] else [p.items] + WalkOver(ts[1..], desc, size, p.next)
  }

  /** The walk reached a page without a token. */
  predicate Ends<Row>(ts: seq<seq<Item<Row>>>, desc: bool, size: nat, after: Option<Value>)
    requires size > 0
  {
    ts != [] &&
    var p := PageOf(Beyond(ts[0], desc, after), size);
    p.next.None? || Ends(ts[1..], desc, size, p.next)
  }

  /** Some page ends at the cursor value of `x` without holding `x`. */
  ghost predicate PassedOver<Row>(ts: seq<seq<Item<Row>>>, desc: bool, size: nat, after: Option<Value>, x: Item<Row>)
    requires size > 0
  {
    ts != [] &&
    var p := PageOf(Beyond(ts[0], desc, after), size);
    p.next.Some? && ((p.next.value == x.cursor && x !in p.items) || PassedOver(ts[1..], desc, size, p.next, x))
  }

  ghost predicate AllSorted<Row>(ts: seq<seq<Item<Row>>>, desc: bool) {
    forall i :: 0 <= i < |ts| ==> Sorted(ts[i], desc)
  }

  /** The rows of one page are matches, up to its token. */
  lemma {:induction false} TiedPage<Row>(rows: seq<Item<Row>>, desc: bool, after: Option<Value>, size: nat, x: Item<Row>)
    requires size > 0 && Sorted(rows, desc) && x in PageOf(Beyond(rows, desc, after), size).items
    ensures var p := PageOf(Beyond(rows, desc, after), size);
            && x in rows && Past(desc, after, x)
            && (p.next.Some? ==> !Before(desc, p.next.value, x.cursor))
  {
    var all := Beyond(rows, desc, after);
    BeyondElements(rows, desc, after);
    BeyondSorted(rows, desc, after);
    var m :| 0 <= m < Min(size, |all|) && all[m] == x;
    assert x in all;
  }

  /** Its token is past the previous one. */
  lemma {:induction false} TokenAdvances<Row>(rows: seq<Item<Row>>, desc: bool, after: Option<Value>, size: nat)
    requires size > 0 && Sorted(rows, desc) && PageOf(Beyond(rows, desc, after), size).next.Some? && after.Some?
    ensures Before(desc, after.value, PageOf(Beyond(rows, desc, after), size).next.value)
  {
    var all := Beyond(rows, desc, after);
    assert all[..size][size - 1] == all[size - 1];
    TiedPage(rows, desc, after, size, all[size - 1]);
  }

  /** Every match is on the page, if it is the last page or the match comes before the token. */
  lemma {:induction false} TiedPageCovers<Row>(rows: seq<Item<Row>>, desc: bool, after: Option<Value>, size: nat, x: Item<Row>)
    requires size > 0 && Sorted(rows, desc) && x in rows && Past(desc, after, x)
    requires var p := PageOf(Beyond(rows, desc, after), size); p.next.Some? ==> Before(desc, x.cursor, p.next.value)
    ensures x in PageOf(Beyond(rows, desc, after), size).items
  {
    var all := Beyond(rows, desc, after);
    BeyondElements(rows, desc, after);
    BeyondSorted(rows, desc, after);
    var m :| 0 <= m < |all| && all[m] == x;
    assert m < Min(size, |all|);
    assert PageOf(all, size).items[m] == x;
  }

  lemma {:induction false} WalkOverUnfolds<Row>(ts: seq<seq<Item<Row>>>, desc: bool, size: nat, after: Option<Value>, x: Item<Row>)
    requires size > 0 && ts != []
    ensures var p := PageOf(Beyond(ts[0], desc, after), size);
            x in Flat(WalkOver(ts, desc, size, after)) <==>
            x in p.items || (p.next.Some? && x in Flat(WalkOver(ts[1..], desc, size, p.next)))
  {
    var p, w := PageOf(Beyond(ts[0], desc, after), size), WalkOver(ts, desc, size, after);
    if p.next.None? {
      assert w[1..] == [];
    } else {
      assert w[1..] == WalkOver(ts[1..], desc, size, p.next);
    }
  }

  /** A walk returns only rows past the token it starts from. */
  lemma {:induction false} WalkOverPast<Row>(ts: seq<seq<Item<Row>>>, desc: bool, size: nat, after: Option<Value>, x: Item<Row>)
    requires size > 0 && AllSorted(ts, desc) && x in Flat(WalkOver(ts, desc, size, after))
    ensures Past(desc, after, x)
    decreases |ts|
  {
    var p := PageOf(Beyond(ts[0], desc, after), size);
    WalkOverUnfolds(ts, desc, size, after, x);
    if x in p.items {
      TiedPage(ts[0], desc, after, size, x);
    } else {
      WalkOverPast(ts[1..], desc, size, p.next, x);
      if after.Some? {
        TokenAdvances(ts[0], desc, after, size);
      }
    }
  }

  /** However the table changes, whatever a walk returns on a later page comes strictly after everything on
      an earlier one: no row is returned by two pages. */
  lemma {:induction false} PagesApart<Row>(ts: seq<seq<Item<Row>>>, desc: bool, size: nat, after: Option<Value>,
                                           i: nat, j: nat, x: Item<Row>, y: Item<Row>)
    requires size > 0 && AllSorted(ts, desc)
    requires i < j < |WalkOver(ts, desc, size, after)|
    requires x in WalkOver(ts, desc, size, after)[i] && y in WalkOver(ts, desc, size, after)[j]
    ensures Before(desc, x.cursor, y.cursor)
    decreases |ts|
  {
    var p, w := PageOf(Beyond(ts[0], desc, after), size), WalkOver(ts, desc, size, after);
    var rest := WalkOver(ts[1..], desc, size, p.next);
    assert w == [p.items] + rest;
    if i == 0 {
      TiedPage(ts[0], desc, after, size, x);
      InFlat(rest, j - 1, y);
      WalkOverPast(ts[1..], desc, size, p.next, y);
    } else {
      PagesApart(ts[1..], desc, size, p.next, i - 1, j - 1, x, y);
    }
  }

  lemma {:induction false} InFlat<T>(ss: seq<seq<T>>, i: nat, x: T)
    requires i < |ss| && x in ss[i]
    ensures x in Flat(ss)
    decreases |ss|
  {
    if i > 0 {
      InFlat(ss[1..], i - 1, x);
    }
  }

  /** A row already behind the token is not passed over any more. */
  lemma {:induction false} BehindToken<Row>(ts: seq<seq<Item<Row>>>, desc: bool, size: nat, after: Value, x: Item<Row>)
    requires size > 0 && AllSorted(ts, desc) && !Before(desc, after, x.cursor)
    ensures !PassedOver(ts, desc, size, Some(after), x)
    decreases |ts|
  {
    if ts != [] {
      var p := PageOf(Beyond(ts[0], desc, Some(after)), size);
      if p.next.Some? {
        TokenAdvances(ts[0], desc, Some(after), size);
        BehindToken(ts[1..], desc, size, p.next.value, x);
      }
    }
  }

  /** Over a table mutated arbitrarily between pages, cursor values repeating as they may: a row present
      throughout is returned by a finished walk if and only if no page ended at its value without it. */
  lemma {:induction false} TiedWalkFinds<Row>(ts: seq<seq<Item<Row>>>, desc: bool, size: nat, after: Option<Value>, x: Item<Row>)
    requires size > 0 && AllSorted(ts, desc) && Ends(ts, desc, size, after)
    requires (forall i :: 0 <= i < |ts| ==> x in ts[i]) && Past(desc, after, x)
    ensures x in Flat(WalkOver(ts, desc, size, after)) <==> !PassedOver(ts, desc, size, after, x)
    decreases |ts|
  {
    var p := PageOf(Beyond(ts[0], desc, after), size);
    WalkOverUnfolds(ts, desc, size, after, x);
    if p.next.None? || Before(desc, x.cursor, p.next.value) {
      TiedPageCovers(ts[0], desc, after, size, x);
    }
    if p.next.Some? && Before(desc, p.next.value, x.cursor) {
      TiedWalkFinds(ts[1..], desc, size, p.next, x);
      if x in p.items {
        TiedPage(ts[0], desc, after, size, x);
      }
    } else if p.next.Some? {
      BehindToken(ts[1..], desc, size, p.next.value, x);
      if x in Flat(WalkOver(ts[1..], desc, size, p.next)) {
        WalkOverPast(ts[1..], desc, size, p.next, x);
      }
    }
  }

  /** In particular a row that is alone with its value is never passed over. */
  lemma {:induction false} AloneNotPassedOver<Row>(ts: seq<seq<Item<Row>>>, desc: bool, size: nat, after: Option<Value>, x: Item<Row>)
    requires size > 0 && AllSorted(ts, desc)
    requires forall i, y :: 0 <= i < |ts| && y in ts[i] && y.cursor == x.cursor ==> y == x
    ensures !PassedOver(ts, desc, size, after, x)
    decreases |ts|
  {
    if ts != [] {
      var all := Beyond(ts[0], desc, after);
      var p := PageOf(all, size);
      if p.next.Some? {
        assert p.items[size - 1] == all[size - 1] && p.items[size - 1] in p.items;
        TiedPage(ts[0], desc, after, size, p.items[size - 1]);
        AloneNotPassedOver(ts[1..], desc, size, p.next, x);
      }
    }
  }
}
