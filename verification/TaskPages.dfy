/** The order of the Task list and its keyset pages. */
module TaskPages {
  import opened Prelude

  /** One listed row; `terminal` is 0 for live, 1 for completed, 2 for cancelled. */
  datatype ListRow = ListRow(app: string, task: string, updatedAt: int, terminal: nat)

  // ---- Text order ----

  predicate TextLess(a: string, b: string)
    decreases |a|
  {
    b != [] && (a == [] || a[0] < b[0] || (a[0] == b[0] && TextLess(a[1..], b[1..])))
  }

  lemma {:induction false} TextOrder(a: string, b: string, c: string)
    ensures !TextLess(a, a)
    ensures a != b ==> TextLess(a, b) || TextLess(b, a)
    ensures TextLess(a, b) && TextLess(b, c) ==> TextLess(a, c)
    decreases |a|
  {
    if a != [] {
      TextOrder(a[1..], if b != [] then b[1..] else b, if c != [] then c[1..] else c);
      if b != [] && a[0] == b[0] && a[1..] == b[1..] { assert a == [a[0]] + a[1..] == [b[0]] + b[1..] == b; }
    }
  }

  // ---- Row order ----

  /** Newest first, then by App, Task and kind of row. */
  predicate Less(a: ListRow, b: ListRow) {
    || a.updatedAt > b.updatedAt
    || (a.updatedAt == b.updatedAt
        && (TextLess(a.app, b.app)
            || (a.app == b.app
                && (TextLess(a.task, b.task) || (a.task == b.task && a.terminal < b.terminal)))))
  }

  lemma {:induction false} LessIsTotal(a: ListRow, b: ListRow)
    ensures !Less(a, a)
    ensures a != b ==> Less(a, b) || Less(b, a)
    ensures !(Less(a, b) && Less(b, a))
  {
    TextOrder(a.app, b.app, a.app);
    TextOrder(a.task, b.task, a.task);
    TextOrder(b.app, a.app, b.app);
    TextOrder(b.task, a.task, b.task);
  }

  lemma {:induction false} LessIsTransitive(a: ListRow, b: ListRow, c: ListRow)
    requires Less(a, b) && Less(b, c)
    ensures Less(a, c)
  {
    TextOrder(a.app, b.app, c.app);
    TextOrder(a.task, b.task, c.task);
  }

  // ---- Sorting ----

  function InsertListed(s: seq<ListRow>, r: ListRow): seq<ListRow>
    decreases |s|
  {
    if s == [] || Less(r, s[0]) then [r] + s else [s[0]] + InsertListed(s[1..], r)
  }

  function Order(rows: seq<ListRow>): seq<ListRow>
    decreases |rows|
  {
    if rows == [] then [] else InsertListed(Order(rows[1..]), rows[0])
  }

  ghost predicate InListOrder(s: seq<ListRow>) { forall i, j | 0 <= i < j < |s| :: Less(s[i], s[j]) }

  ghost predicate Distinct(s: seq<ListRow>) { forall i, j | 0 <= i < j < |s| :: s[i] != s[j] }

  lemma {:induction false} InsertKeepsListOrder(s: seq<ListRow>, r: ListRow)
    requires InListOrder(s) && r !in s
    ensures InListOrder(InsertListed(s, r)) && Elements(InsertListed(s, r)) == Elements(s) + {r}
    ensures |InsertListed(s, r)| == |s| + 1
    decreases |s|
  {
    if s == [] || Less(r, s[0]) {
      var out := [r] + s;
      forall j | 1 <= j < |out| ensures Less(r, out[j]) { if j > 1 { LessIsTransitive(r, s[0], s[j - 1]); } }
      assert Elements(out) == Elements(s) + {r};
    } else {
      var rest := InsertListed(s[1..], r);
      assert s == [s[0]] + s[1..];
      InsertKeepsListOrder(s[1..], r);
      LessIsTotal(s[0], r);
      forall j | 0 <= j < |rest| ensures Less(s[0], rest[j]) {
        assert rest[j] in Elements(s[1..]) + {r};
        if rest[j] != r { var k :| 0 <= k < |s[1..]| && s[1..][k] == rest[j]; assert s[k + 1] == rest[j]; }
      }
      assert Elements([s[0]] + rest) == Elements(s) + {r};
    }
  }

  /** Sorting lists exactly the given rows, in order. */
  lemma {:induction false} OrderSorts(rows: seq<ListRow>)
    requires Distinct(rows)
    ensures InListOrder(Order(rows)) && Elements(Order(rows)) == Elements(rows) && |Order(rows)| == |rows|
    decreases |rows|
  {
    if rows != [] {
      assert rows == [rows[0]] + rows[1..];
      OrderSorts(rows[1..]);
      assert rows[0] !in Elements(rows[1..]);
      InsertKeepsListOrder(Order(rows[1..]), rows[0]);
      assert Elements(rows) == Elements(rows[1..]) + {rows[0]};
    }
  }

  /** There is only one sorted listing of a set of rows. */
  lemma {:induction false} SortedIsUnique(s: seq<ListRow>, u: seq<ListRow>)
    requires InListOrder(s) && InListOrder(u) && Elements(s) == Elements(u)
    ensures s == u
    decreases |s|
  {
    assert u != [] ==> u[0] in Elements(u);
    if s == [] {
      assert Elements(s) == {};
    } else {
      assert s[0] in Elements(s);
      assert u[0] in Elements(s);
      var i :| 0 <= i < |u| && u[i] == s[0];
      var j :| 0 <= j < |s| && s[j] == u[0];
      LessIsTotal(s[0], u[0]);
      assert s[0] == u[0];
      TailRows(s);
      TailRows(u);
      SortedIsUnique(s[1..], u[1..]);
      assert s == [s[0]] + s[1..] && u == [u[0]] + u[1..];
    }
  }

  lemma {:induction false} TailRows(s: seq<ListRow>)
    requires InListOrder(s) && s != []
    ensures Elements(s[1..]) == Elements(s) - {s[0]}
  {
    assert s == [s[0]] + s[1..];
    if s[0] in s[1..] {
      var i :| 0 <= i < |s[1..]| && s[1..][i] == s[0];
      LessIsTotal(s[0], s[i + 1]);
      assert false;
    }
  }

  // ---- Pages ----

  /** The position a cursor names: the sort key of the last row of the page before. */
  datatype Cursor = Cursor(updatedAt: int, app: string, task: string, terminal: nat)

  const MAX_SAFE_INTEGER: int := 9007199254740991

  /** A row a cursor can be made from. */
  predicate Cursorable(r: ListRow) {
    r.app != "" && r.task != "" && -MAX_SAFE_INTEGER <= r.updatedAt <= MAX_SAFE_INTEGER
  }

  /** The WHERE clause of a page that starts after a cursor. */
  predicate PastCursor(c: Cursor, r: ListRow) {
    || r.updatedAt < c.updatedAt
    || (r.updatedAt == c.updatedAt && TextLess(c.app, r.app))
    || (r.updatedAt == c.updatedAt && r.app == c.app && TextLess(c.task, r.task))
    || (r.updatedAt == c.updatedAt && r.app == c.app && r.task == c.task && r.terminal > c.terminal)
  }

  function CursorOf(r: ListRow): Cursor { Cursor(r.updatedAt, r.app, r.task, r.terminal) }

  function After(rows: seq<ListRow>, c: Option<Cursor>): seq<ListRow>
    decreases |rows|
  {
    if rows == [] then []
    else if c.None? || PastCursor(c.value, rows[0]) then [rows[0]] + After(rows[1..], c)
    else After(rows[1..], c)
  }

  datatype Page = Page(items: seq<ListRow>, next: Option<Cursor>)

  /** One page: fetch one row more than the limit to know whether there is a next page. */
  function PageAfter(rows: seq<ListRow>, c: Option<Cursor>, limit: nat): Page
    requires limit >= 1
  {
    var ordered := Order(After(rows, c));
    var fetched := if |ordered| > limit + 1 then ordered[..limit + 1] else ordered;
    if |fetched| > limit then
      Page(fetched[..limit], if Cursorable(fetched[limit - 1]) then Some(CursorOf(fetched[limit - 1])) else None)
    else Page(fetched, None)
  }

  /**
   * A page is the beginning of what comes after its cursor. It has a cursor of its own exactly when there is more
   * and its last row has both ids and a time that JavaScript holds exactly; the cursor is then that row's place.
   */
  lemma {:induction false} NextCursorExactlyWhen(rows: seq<ListRow>, c: Option<Cursor>, limit: nat)
    requires limit >= 1
    ensures var page, ordered := PageAfter(rows, c, limit), Order(After(rows, c));
            && page.items == (if |ordered| > limit then ordered[..limit] else ordered)
            && (page.next.Some? <==>
                && |ordered| > limit
                && var last := ordered[limit - 1];
                && |last.app| > 0 && |last.task| > 0
                && -9007199254740992 < last.updatedAt < 9007199254740992)
            && (page.next.Some? ==>
                var last := page.items[limit - 1];
                page.next == Some(Cursor(last.updatedAt, last.app, last.task, last.terminal)))
  {
  }

  /** The cursor clause is the row order. */
  lemma {:induction false} PastCursorIsLess(x: ListRow, r: ListRow)
    ensures PastCursor(CursorOf(x), r) <==> Less(x, r)
  {
  }

  lemma {:induction false} AfterHas(rows: seq<ListRow>, c: Option<Cursor>, x: ListRow)
    ensures x in After(rows, c) <==> x in rows && (c.Some? ==> PastCursor(c.value, x))
    decreases |rows|
  {
    if rows != [] {
      assert rows == [rows[0]] + rows[1..];
      AfterHas(rows[1..], c, x);
    }
  }

  lemma {:induction false} AfterDistinct(rows: seq<ListRow>, c: Option<Cursor>)
    requires Distinct(rows)
    ensures Distinct(After(rows, c))
    decreases |rows|
  {
    if rows != [] {
      AfterDistinct(rows[1..], c);
      var rest := After(rows[1..], c);
      forall i | 0 <= i < |rest| ensures rest[i] != rows[0] {
        AfterHas(rows[1..], c, rest[i]);
        var j :| 0 <= j < |rows[1..]| && rows[1..][j] == rest[i];
        assert rows[j + 1] == rest[i];
      }
    }
  }

  /** The rows past the k-th of the list, sorted, are the list from k on. */
  lemma {:induction false} AfterIsSuffix(rows: seq<ListRow>, k: nat)
    requires Distinct(rows) && 1 <= k <= |Order(rows)|
    ensures Order(After(rows, Some(CursorOf(Order(rows)[k - 1])))) == Order(rows)[k..]
  {
    var s := Order(rows);
    var c := Some(CursorOf(s[k - 1]));
    OrderSorts(rows);
    AfterDistinct(rows, c);
    OrderSorts(After(rows, c));
    forall x ensures x in Elements(After(rows, c)) <==> x in Elements(s[k..]) {
      AfterHas(rows, c, x);
      PastCursorIsLess(s[k - 1], x);
      if x in rows && Less(s[k - 1], x) {
        assert x in Elements(s);
        var i :| 0 <= i < |s| && s[i] == x;
        LessIsTotal(s[k - 1], x);
        assert i >= k;
        assert s[k..][i - k] == x;
      }
      if x in s[k..] {
        var i :| 0 <= i < |s[k..]| && s[k..][i] == x;
        assert s[k + i] == x && s[k + i] in Elements(s);
      }
    }
    SortedIsUnique(Order(After(rows, c)), s[k..]);
  }

  lemma {:induction false} AfterNothing(rows: seq<ListRow>)
    ensures After(rows, None) == rows
    decreases |rows|
  {
    if rows != [] { AfterNothing(rows[1..]); }
  }

  lemma {:induction false} InsertHas(s: seq<ListRow>, r: ListRow, x: ListRow)
    ensures x in InsertListed(s, r) <==> x in s || x == r
    decreases |s|
  {
    if s != [] {
      assert s == [s[0]] + s[1..];
      InsertHas(s[1..], r, x);
    }
  }

  lemma {:induction false} OrderHas(rows: seq<ListRow>, x: ListRow)
    ensures x in Order(rows) <==> x in rows
    decreases |rows|
  {
    if rows != [] {
      assert rows == [rows[0]] + rows[1..];
      OrderHas(rows[1..], x);
      InsertHas(Order(rows[1..]), rows[0], x);
    }
  }

  /** Moving the cursor to a row past it leaves fewer rows. */
  lemma {:induction false} AfterShrinks(rows: seq<ListRow>, c: Option<Cursor>, x: ListRow)
    requires c.Some? ==> PastCursor(c.value, x)
    ensures |After(rows, Some(CursorOf(x)))| <= |After(rows, c)|
    ensures x in rows ==> |After(rows, Some(CursorOf(x)))| < |After(rows, c)|
    decreases |rows|
  {
    if rows != [] {
      assert rows == [rows[0]] + rows[1..];
      AfterShrinks(rows[1..], c, x);
      LessIsTotal(x, x);
      if c.Some? && PastCursor(CursorOf(x), rows[0]) {
        LessIsTransitive(ListRow(c.value.app, c.value.task, c.value.updatedAt, c.value.terminal), x, rows[0]);
      }
    }
  }

  lemma {:induction false} CursorAdvances(rows: seq<ListRow>, c: Option<Cursor>, limit: nat)
    requires limit >= 1 && PageAfter(rows, c, limit).next.Some?
    ensures |After(rows, PageAfter(rows, c, limit).next)| < |After(rows, c)|
  {
    var x := Order(After(rows, c))[limit - 1];
    OrderHas(After(rows, c), x);
    AfterHas(rows, c, x);
    AfterShrinks(rows, c, x);
  }

  /** All pages from a cursor on, as a client that follows `next` collects them. It always ends. */
  function Follow(rows: seq<ListRow>, c: Option<Cursor>, limit: nat): seq<ListRow>
    requires limit >= 1
    decreases |After(rows, c)|
  {
    var page := PageAfter(rows, c, limit);
    if page.next.None? then page.items
    else
      CursorAdvances(rows, c, limit);
      page.items + Follow(rows, page.next, limit)
  }

  /** From the k-th row on, every row that ends a page other than the last can be turned into a cursor. */
  ghost predicate BoundariesHold(s: seq<ListRow>, k: nat, limit: nat)
    requires limit >= 1
    decreases |s| - k
  {
    k + limit >= |s| || (Cursorable(s[k + limit - 1]) && BoundariesHold(s, k + limit, limit))
  }

  ghost predicate CursorAt(s: seq<ListRow>, k: nat, c: Option<Cursor>)
    requires k <= |s|
  {
    c == if k == 0 then None else Some(CursorOf(s[k - 1]))
  }

  lemma {:induction false} FetchedSlice(s: seq<ListRow>, k: nat, limit: nat)
    requires limit >= 1 && k + limit < |s|
    ensures var fetched := if |s[k..]| > limit + 1 then s[k..][..limit + 1] else s[k..];
            |fetched| > limit && fetched[..limit] == s[k..k + limit] && fetched[limit - 1] == s[k + limit - 1]
  {
  }

  lemma {:induction false} OrderAfterCursor(rows: seq<ListRow>, k: nat, c: Option<Cursor>)
    requires Distinct(rows) && k <= |Order(rows)| && CursorAt(Order(rows), k, c)
    ensures Order(After(rows, c)) == Order(rows)[k..]
  {
    if k == 0 { AfterNothing(rows); assert Order(rows)[0..] == Order(rows); } else { AfterIsSuffix(rows, k); }
  }

  /** The page after the k-th row is the next stretch of the sorted list, and the rest is what its cursor leads to. */
  lemma {:induction false} FollowPage(rows: seq<ListRow>, k: nat, c: Option<Cursor>, limit: nat)
    requires Distinct(rows) && limit >= 1 && k <= |Order(rows)| && CursorAt(Order(rows), k, c)
    ensures var s := Order(rows);
            Follow(rows, c, limit) ==
            if k + limit >= |s| then s[k..]
            else if Cursorable(s[k + limit - 1]) then
              s[k..k + limit] + Follow(rows, Some(CursorOf(s[k + limit - 1])), limit)
            else s[k..k + limit]
  {
    OrderAfterCursor(rows, k, c);
    if k + limit < |Order(rows)| { FetchedSlice(Order(rows), k, limit); }
  }

  /** `seen` is a stretch of the list from the k-th row on, and reaches its end exactly when boundaries hold. */
  ghost predicate SeenFrom(s: seq<ListRow>, k: nat, limit: nat, seen: seq<ListRow>)
    requires limit >= 1 && k <= |s|
  {
    && k + |seen| <= |s| && seen == s[k..k + |seen|]
    && (k + |seen| == |s| <==> BoundariesHold(s, k, limit))
  }

  lemma {:induction false} SeenOneMorePage(s: seq<ListRow>, k: nat, limit: nat, more: seq<ListRow>)
    requires limit >= 1 && k + limit < |s| && Cursorable(s[k + limit - 1]) && SeenFrom(s, k + limit, limit, more)
    ensures SeenFrom(s, k, limit, s[k..k + limit] + more)
  {
    var seen := s[k..k + limit] + more;
    assert |seen| == limit + |more|;
    forall i | 0 <= i < |seen| ensures seen[i] == s[k + i] {
      if i >= limit { assert more[i - limit] == s[k + limit..k + limit + |more|][i - limit]; }
    }
  }

  lemma {:induction false} SeenLastPage(s: seq<ListRow>, k: nat, limit: nat)
    requires limit >= 1 && k <= |s| && (k + limit < |s| ==> !Cursorable(s[k + limit - 1]))
    ensures SeenFrom(s, k, limit, if k + limit < |s| then s[k..k + limit] else s[k..])
  {
  }

  lemma {:induction false} FollowLast(rows: seq<ListRow>, s: seq<ListRow>, k: nat, c: Option<Cursor>, limit: nat)
    requires Distinct(rows) && limit >= 1 && s == Order(rows) && k <= |s| && CursorAt(s, k, c)
    requires k + limit < |s| ==> !Cursorable(s[k + limit - 1])
    ensures SeenFrom(s, k, limit, Follow(rows, c, limit))
  {
    FollowPage(rows, k, c, limit);
    SeenLastPage(s, k, limit);
  }

  lemma {:induction false} FollowMore(rows: seq<ListRow>, s: seq<ListRow>, k: nat, c: Option<Cursor>, limit: nat)
    requires Distinct(rows) && limit >= 1 && s == Order(rows) && k + limit < |s| && CursorAt(s, k, c)
    requires Cursorable(s[k + limit - 1])
    requires SeenFrom(s, k + limit, limit, Follow(rows, Some(CursorOf(s[k + limit - 1])), limit))
    ensures SeenFrom(s, k, limit, Follow(rows, c, limit))
  {
    FollowPage(rows, k, c, limit);
    SeenOneMorePage(s, k, limit, Follow(rows, Some(CursorOf(s[k + limit - 1])), limit));
  }

  /** The pages followed from the k-th row on. */
  lemma {:induction false} FollowFrom(rows: seq<ListRow>, s: seq<ListRow>, k: nat, c: Option<Cursor>, limit: nat)
    requires Distinct(rows) && limit >= 1 && s == Order(rows) && k <= |s| && CursorAt(s, k, c)
    ensures SeenFrom(s, k, limit, Follow(rows, c, limit))
    decreases |s| - k
  {
    if k + limit < |s| && Cursorable(s[k + limit - 1]) {
      FollowFrom(rows, s, k + limit, Some(CursorOf(s[k + limit - 1])), limit);
      FollowMore(rows, s, k, c, limit);
    } else {
      FollowLast(rows, s, k, c, limit);
    }
  }

  /**
   * Following the cursors from the first page always visits a prefix of the sorted list, in order and without
   * repetition; it visits all of it exactly when every page boundary can be named by a cursor.
   */
  lemma {:induction false} PagesVisitTheList(rows: seq<ListRow>, limit: nat)
    requires Distinct(rows) && limit >= 1
    ensures var seen := Follow(rows, None, limit);
            && InListOrder(Order(rows)) && Elements(Order(rows)) == Elements(rows) && |Order(rows)| == |rows|
            && |seen| <= |rows| && seen == Order(rows)[..|seen|]
            && (seen == Order(rows) <==> BoundariesHold(Order(rows), 0, limit))
  {
    OrderSorts(rows);
    FollowFrom(rows, Order(rows), 0, None, limit);
    var seen := Follow(rows, None, limit);
    assert Order(rows)[0..|seen|] == Order(rows)[..|seen|];
  }

  lemma {:induction false} CursorableRowsHoldBoundaries(s: seq<ListRow>, k: nat, limit: nat)
    requires limit >= 1 && forall i | 0 <= i < |s| :: Cursorable(s[i])
    ensures BoundariesHold(s, k, limit)
    decreases |s| - k
  {
    if k + limit < |s| { CursorableRowsHoldBoundaries(s, k + limit, limit); }
  }

  /** With ordinary identities and times, following the cursors visits every row exactly once, for every limit. */
  lemma {:induction false} PagesVisitEveryRowOnce(rows: seq<ListRow>, limit: nat)
    requires Distinct(rows) && limit >= 1 && forall r | r in rows :: Cursorable(r)
    ensures Follow(rows, None, limit) == Order(rows)
    ensures InListOrder(Order(rows)) && Elements(Order(rows)) == Elements(rows) && |Order(rows)| == |rows|
  {
    PagesVisitTheList(rows, limit);
    forall i | 0 <= i < |Order(rows)| ensures Cursorable(Order(rows)[i]) { assert Order(rows)[i] in Elements(rows); }
    CursorableRowsHoldBoundaries(Order(rows), 0, limit);
  }

  lemma {:induction false} OrderOfTwo(x: ListRow, y: ListRow)
    requires Less(x, y)
    ensures Order([x, y]) == [x, y]
  {
    assert [x, y][1..] == [y] && [y][1..] == [];
    assert Order([y]) == InsertListed([], y) == [y];
    assert InsertListed([y], x) == [x] + [y];
  }

  /** A row whose time is past the integers that JavaScript holds exactly. */
  const FAR_ROW := ListRow("a", "t", MAX_SAFE_INTEGER + 1, 0)
  const NEAR_ROW := ListRow("a", "u", 1, 0)

  /** With a limit of one, no cursor follows the first row, so the other is never shown. */
  lemma {:induction false} UnnameableRowHidesTheRest()
    ensures Follow([FAR_ROW, NEAR_ROW], None, 1) != Order([FAR_ROW, NEAR_ROW])
  {
    OrderOfTwo(FAR_ROW, NEAR_ROW);
    PagesVisitTheList([FAR_ROW, NEAR_ROW], 1);
    assert !BoundariesHold([FAR_ROW, NEAR_ROW], 0, 1);
  }
}
