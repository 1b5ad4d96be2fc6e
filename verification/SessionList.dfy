/** The paged session list: the keyset query of db/query/room_session.go and the cursor rules of
    http/handler/session/session.go. The table of a user's open sessions is a set of rows. */
module SessionList {
  import opened Lists
  import opened Options

  /** What the list needs of a user_room_session row; ids are assigned from 1 on. */
  datatype Row = Row(id: int, updateTime: int, lastMsgTime: int, rid: string, lastSeqId: int)

  datatype Cursor = Cursor(updateTime: int, lastMsgTime: int, id: int)

  const PAGE_SIZE: nat := 15

  predicate IsTable(rows: set<Row>)
  {
    && (forall r :: r in rows ==> r.id >= 1)
    && (forall r, q :: r in rows && q in rows && r.id == q.id ==> r == q)
  }

  function CursorOf(r: Row): Cursor
  {
    Cursor(r.updateTime, r.lastMsgTime, r.id)
  }

  /** The WHERE clause of a continuation page. */
  predicate Below(r: Row, c: Cursor)
  {
    || r.updateTime < c.updateTime
    || (r.updateTime == c.updateTime && r.lastMsgTime < c.lastMsgTime)
    || (r.updateTime == c.updateTime && r.lastMsgTime == c.lastMsgTime && r.id < c.id)
  }

  function RowsBelow(rows: set<Row>, c: Cursor): set<Row>
  {
    set r | r in rows && Below(r, c)
  }

  // ---------- ORDER BY update_time DESC, last_room_message_create_time DESC, id DESC ----------

  predicate Descending(s: seq<Row>)
  {
    forall i, j :: 0 <= i < j < |s| ==> Below(s[j], CursorOf(s[i]))
  }

  predicate IsFirst(rows: set<Row>, m: Row)
  {
    m in rows && forall r :: r in rows && r != m ==> Below(r, CursorOf(m))
  }

  lemma {:induction false} FirstExists(rows: set<Row>)
    requires IsTable(rows) && rows != {}
    ensures exists m :: IsFirst(rows, m)
    decreases |rows|
  {
    var x :| x in rows;
    var others := rows - {x};
    assert rows == others + {x};
    if others == {} {
      assert IsFirst(rows, x);
    } else {
      FirstExists(others);
      var y :| IsFirst(others, y);
      assert IsFirst(rows, if Below(x, CursorOf(y)) then y else x);
    }
  }

  ghost function First(rows: set<Row>): (m: Row)
    requires IsTable(rows) && rows != {}
    ensures IsFirst(rows, m)
  {
    FirstExists(rows);
    var m :| IsFirst(rows, m);
    m
  }

  lemma FirstIsUnique(rows: set<Row>, m: Row)
    requires IsTable(rows) && IsFirst(rows, m)
    ensures m == First(rows)
  {
    assert IsFirst(rows, First(rows));
  }

  /** The full sort of a table. */
  ghost function Sorted(rows: set<Row>): (s: seq<Row>)
    requires IsTable(rows)
    ensures |s| == |rows|
    decreases |rows|
  {
    if rows == {} then [] else [First(rows)] + Sorted(rows - {First(rows)})
  }

  lemma ElementsOfCons(m: Row, rest: seq<Row>)
    ensures Elements([m] + rest) == {m} + Elements(rest)
  {
  }

  lemma {:induction false} SortedIsSorted(rows: set<Row>)
    requires IsTable(rows)
    ensures Elements(Sorted(rows)) == rows && Descending(Sorted(rows))
    ensures forall i, j :: 0 <= i < j < |Sorted(rows)| ==>
              var a, b := Sorted(rows)[i], Sorted(rows)[j];
              || a.updateTime > b.updateTime
              || (a.updateTime == b.updateTime && a.lastMsgTime > b.lastMsgTime)
              || (a.updateTime == b.updateTime && a.lastMsgTime == b.lastMsgTime && a.id > b.id)
    decreases |rows|
  {
    if rows != {} {
      var m := First(rows);
      var rest := Sorted(rows - {m});
      SortedIsSorted(rows - {m});
      ElementsOfCons(m, rest);
      DescendingCons(rows, m, rest);
    }
  }

  lemma DescendingCons(rows: set<Row>, m: Row, rest: seq<Row>)
    requires IsFirst(rows, m) && Elements(rest) == rows - {m} && Descending(rest)
    ensures Descending([m] + rest)
  {
    forall j | 0 <= j < |rest| ensures Below(rest[j], CursorOf(m)) {
      assert rest[j] in Elements(rest);
    }
  }

  lemma HeadIsFirst(rows: set<Row>, s: seq<Row>)
    requires IsTable(rows) && Descending(s) && Elements(s) == rows && s != [] && s[0] in rows
    ensures s[0] == First(rows) && Elements(s[1..]) == rows - {s[0]}
  {
    forall r | r in rows && r != s[0] ensures Below(r, CursorOf(s[0])) {
      var k :| 0 <= k < |s| && s[k] == r;
    }
    assert s[0] in Elements(s);
    assert IsFirst(rows, First(rows));
    assert s == [s[0]] + s[1..];
    ElementsOfCons(s[0], s[1..]);
    forall r | r in s[1..] ensures r != s[0] {
      var k :| 0 <= k < |s[1..]| && s[1..][k] == r;
      assert s[k + 1] == r;
    }
  }

  /** The full sort is the only descending arrangement of a table. */
  lemma {:induction false} SortedIsUnique(rows: set<Row>, s: seq<Row>)
    requires IsTable(rows) && Descending(s) && Elements(s) == rows
    ensures s == Sorted(rows)
    decreases |s|
  {
    if s == [] {
      assert rows == {};
    } else {
      assert s[0] in Elements(s);
      HeadIsFirst(rows, s);
      SortedIsUnique(rows - {s[0]}, s[1..]);
    }
  }

  /** The rows below the i-th row of a descending arrangement are those after it. */
  lemma ElementsAfter(s: seq<Row>, i: nat)
    requires Descending(s) && i < |s|
    ensures Elements(s[i + 1..]) == RowsBelow(Elements(s), CursorOf(s[i]))
  {
    var rest := s[i + 1..];
    forall r | r in RowsBelow(Elements(s), CursorOf(s[i])) ensures r in Elements(rest) {
      var k :| 0 <= k < |s| && s[k] == r;
      assert k > i;
      assert s[k] == rest[k - (i + 1)];
    }
    forall r | r in Elements(rest) ensures r in RowsBelow(Elements(s), CursorOf(s[i])) {
      var k :| 0 <= k < |rest| && rest[k] == r;
      assert s[i + 1 + k] == r;
    }
  }

  lemma RestIsSorted(rows: set<Row>, i: nat)
    requires IsTable(rows) && i < |rows|
    ensures Sorted(RowsBelow(rows, CursorOf(Sorted(rows)[i]))) == Sorted(rows)[i + 1..]
  {
    var s := Sorted(rows);
    SortedIsSorted(rows);
    ElementsAfter(s, i);
    var below := RowsBelow(rows, CursorOf(s[i]));
    assert Descending(s[i + 1..]);
    SortedIsUnique(below, s[i + 1..]);
  }

  // ---------- One page ----------

  /** The rows a query ranges over; without a cursor it is the whole table. */
  function Selected(rows: set<Row>, cursor: Option<Cursor>): set<Row>
  {
    match cursor
    case None => rows
    case Some(c) => RowsBelow(rows, c)
  }

  datatype Page = Page(rows: seq<Row>, next: Cursor, hasMore: bool)

  function Take<T>(s: seq<T>, n: nat): seq<T>
  {
    if |s| <= n then s else s[..n]
  }

  ghost function PageOf(rows: set<Row>, cursor: Option<Cursor>): Page
    requires IsTable(rows)
  {
    var s := Sorted(Selected(rows, cursor));
    var list := Take(s, PAGE_SIZE);
    Page(list, if list == [] then Cursor(0, 0, 0) else CursorOf(list[|list| - 1]), |s| > PAGE_SIZE)
  }

  lemma FirstThenRest(rows: set<Row>, m: Row, found: seq<Row>)
    requires IsTable(rows) && IsFirst(rows, m)
    ensures found + Sorted(rows) == found + [m] + Sorted(rows - {m})
  {
    FirstIsUnique(rows, m);
    assert found + ([m] + Sorted(rows - {m})) == found + [m] + Sorted(rows - {m});
  }

  /** What the database answers: ORDER BY and LIMIT over the selected rows. */
  method Find(rows: set<Row>, limit: nat) returns (found: seq<Row>)
    requires IsTable(rows)
    ensures found == Take(Sorted(rows), limit)
  {
    found := [];
    var remaining := rows;
    while |found| < limit && remaining != {}
      invariant remaining <= rows && IsTable(remaining) && |found| <= limit
      invariant found + Sorted(remaining) == Sorted(rows)
      decreases |remaining|
    {
      FirstExists(remaining);
      var m :| m in remaining && IsFirst(remaining, m);
      FirstThenRest(remaining, m, found);
      found := found + [m];
      remaining := remaining - {m};
    }
  }

  lemma TakenComesFirst<T>(s: seq<T>, n: nat, a: T, b: T) returns (i: nat, j: nat)
    requires a in Take(s, n) && b in s && b !in Take(s, n)
    ensures i < j < |s| && s[i] == a && s[j] == b
  {
    var taken := Take(s, n);
    i :| 0 <= i < |taken| && taken[i] == a;
    j :| 0 <= j < |s| && s[j] == b;
    assert forall k :: 0 <= k < |taken| ==> s[k] == taken[k] && taken[k] in taken;
  }

  /** The first rows of the sort are newer, column by column, than all others. */
  lemma TakenAreNewest(rows: set<Row>, limit: nat)
    requires IsTable(rows)
    ensures forall x :: x in Take(Sorted(rows), limit) ==> x in rows
    ensures forall a, b :: a in Take(Sorted(rows), limit) && b in rows && b !in Take(Sorted(rows), limit) ==>
              || a.updateTime > b.updateTime
              || (a.updateTime == b.updateTime && a.lastMsgTime > b.lastMsgTime)
              || (a.updateTime == b.updateTime && a.lastMsgTime == b.lastMsgTime && a.id > b.id)
  {
    var s := Sorted(rows);
    var taken := Take(s, limit);
    SortedIsSorted(rows);
    forall x | x in taken ensures x in rows {
      assert x in Elements(s);
    }
    forall a, b | a in taken && b in rows && b !in taken
      ensures a.updateTime > b.updateTime
              || (a.updateTime == b.updateTime && a.lastMsgTime > b.lastMsgTime)
              || (a.updateTime == b.updateTime && a.lastMsgTime == b.lastMsgTime && a.id > b.id)
    {
      assert b in Elements(s);
      var i, j := TakenComesFirst(s, limit, a, b);
    }
  }

  /** What a page is, column by column: at most 15 rows older than the cursor, newest first, and newer than every other
      such row; has_more tells whether there are others, and the next cursor is the last row of the page. */
  lemma PageInColumns(rows: set<Row>, cursor: Option<Cursor>)
    requires IsTable(rows)
    ensures var page := PageOf(rows, cursor);
      var selected := set r | r in rows && (cursor.None? ||
                        var c := cursor.value;
                        || r.updateTime < c.updateTime
                        || (r.updateTime == c.updateTime && r.lastMsgTime < c.lastMsgTime)
                        || (r.updateTime == c.updateTime && r.lastMsgTime == c.lastMsgTime && r.id < c.id));
      && |page.rows| == (if |selected| <= 15 then |selected| else 15) && (page.hasMore <==> |selected| > 15)
      && (forall x :: x in page.rows ==> x in selected)
      && (forall a, b :: a in page.rows && b in selected && b !in page.rows ==>
            || a.updateTime > b.updateTime
            || (a.updateTime == b.updateTime && a.lastMsgTime > b.lastMsgTime)
            || (a.updateTime == b.updateTime && a.lastMsgTime == b.lastMsgTime && a.id > b.id))
      && (page.rows != [] ==>
            var last := page.rows[|page.rows| - 1];
            page.next == Cursor(last.updateTime, last.lastMsgTime, last.id))
  {
    var selected := set r | r in rows && (cursor.None? ||
                        var c := cursor.value;
                        || r.updateTime < c.updateTime
                        || (r.updateTime == c.updateTime && r.lastMsgTime < c.lastMsgTime)
                        || (r.updateTime == c.updateTime && r.lastMsgTime == c.lastMsgTime && r.id < c.id));
    assert selected == Selected(rows, cursor);
    TakenAreNewest(selected, PAGE_SIZE);
  }

  /** GetUserRoomSessionPage */
  method GetUserRoomSessionPage(rows: set<Row>, cursor: Cursor, firstPage: bool)
    returns (sessions: seq<Row>, next: Cursor, hasMore: bool)
    requires IsTable(rows)
    ensures Page(sessions, next, hasMore) == PageOf(rows, if firstPage then None else Some(cursor))
  {
    var q := rows;
    if !firstPage {
      q := RowsBelow(rows, cursor);
    }
    sessions := Find(q, PAGE_SIZE + 1);
    hasMore := |sessions| > PAGE_SIZE;
    if hasMore {
      sessions := sessions[..PAGE_SIZE];
    }
    next := Cursor(0, 0, 0);
    if |sessions| > 0 {
      next := CursorOf(sessions[|sessions| - 1]);
    }
  }

  // ---------- Cursor parameters ----------

  datatype Param = Absent | NotANumber | Number(n: int)

  datatype Response = BadRequest | Listed(page: Page)

  /** Absent parameters, or three zeros, ask for the first page. */
  function IsFirstPage(c: Cursor): bool
  {
    c.updateTime == 0 && c.lastMsgTime == 0 && c.id == 0
  }

  predicate GoodCursor(ut: Param, lm: Param, id: Param)
  {
    (ut.Absent? && lm.Absent? && id.Absent?) || (ut.Number? && lm.Number? && id.Number?)
  }

  function Decoded(ut: Param, lm: Param, id: Param): Option<Cursor>
    requires GoodCursor(ut, lm, id)
  {
    if ut.Absent? || IsFirstPage(Cursor(ut.n, lm.n, id.n)) then None else Some(Cursor(ut.n, lm.n, id.n))
  }

  method ListSessions(rows: set<Row>, ut: Param, lm: Param, id: Param) returns (r: Response)
    requires IsTable(rows)
    ensures r == if GoodCursor(ut, lm, id) then Listed(PageOf(rows, Decoded(ut, lm, id))) else BadRequest
    ensures r == BadRequest <==>
              !(ut.Absent? && lm.Absent? && id.Absent?) && !(ut.Number? && lm.Number? && id.Number?)
    ensures ut.Absent? && lm.Absent? && id.Absent? ==> r == Listed(PageOf(rows, None))
    ensures ut.Number? && lm.Number? && id.Number? ==>
              r == Listed(PageOf(rows, if ut.n == 0 && lm.n == 0 && id.n == 0 then None
                                       else Some(Cursor(ut.n, lm.n, id.n))))
  {
    if !(ut.Absent? == lm.Absent? == id.Absent?) {
      return BadRequest;
    }
    var cursor := Cursor(0, 0, 0);
    var firstPage := true;
    if !ut.Absent? {
      if ut.NotANumber? || lm.NotANumber? || id.NotANumber? {
        return BadRequest;
      }
      cursor := Cursor(ut.n, lm.n, id.n);
      firstPage := IsFirstPage(cursor);
    }
    var sessions, next, hasMore := GetUserRoomSessionPage(rows, cursor, firstPage);
    return Listed(Page(sessions, next, hasMore));
  }

  // ---------- Main results ----------

  /** The parameters of a request that sends back a next cursor. */
  function SentBack(c: Cursor): Option<Cursor>
  {
    Decoded(Number(c.updateTime), Number(c.lastMsgTime), Number(c.id))
  }

  lemma SelectedBelow(rows: set<Row>, cursor: Option<Cursor>, last: Row)
    requires last in Selected(rows, cursor)
    ensures RowsBelow(rows, CursorOf(last)) == RowsBelow(Selected(rows, cursor), CursorOf(last))
  {
  }

  /** The next cursor of a page with more to come is never taken for the first-page marker, and the next
      query ranges over exactly the rows that follow in the sort. */
  lemma NextPageFollows(rows: set<Row>, cursor: Option<Cursor>)
    requires IsTable(rows) && PageOf(rows, cursor).hasMore
    ensures var next := PageOf(rows, cursor).next;
      && SentBack(next) == Some(next)
      && Sorted(Selected(rows, Some(next))) == Sorted(Selected(rows, cursor))[PAGE_SIZE..]
  {
    var selected := Selected(rows, cursor);
    var s := Sorted(selected);
    SortedIsSorted(selected);
    var last := s[PAGE_SIZE - 1];
    assert last in Elements(s);
    SelectedBelow(rows, cursor, last);
    RestIsSorted(selected, PAGE_SIZE - 1);
  }

  /** The pages a client gets that sends every next cursor back until has_more is false. */
  ghost function Pages(rows: set<Row>, cursor: Option<Cursor>): seq<Page>
    requires IsTable(rows)
    decreases |Sorted(Selected(rows, cursor))|
  {
    var page := PageOf(rows, cursor);
    if !page.hasMore then [page]
    else
      NextPageFollows(rows, cursor);
      [page] + Pages(rows, SentBack(page.next))
  }

  function Concat(pages: seq<Page>): seq<Row>
  {
    if pages == [] then [] else pages[0].rows + Concat(pages[1..])
  }

  /** Every page but the last is full and announces more; the last one does not. */
  predicate EndsWithoutMore(pages: seq<Page>)
  {
    && (forall i :: 0 <= i < |pages| ==> (pages[i].hasMore <==> i < |pages| - 1))
    && (forall i :: 0 <= i < |pages| - 1 ==> |pages[i].rows| == PAGE_SIZE)
  }

  lemma ConcatCons(page: Page, rest: seq<Page>)
    ensures Concat([page] + rest) == page.rows + Concat(rest)
    ensures page.hasMore && |page.rows| == PAGE_SIZE && rest != [] && EndsWithoutMore(rest) ==>
            EndsWithoutMore([page] + rest)
  {
    assert ([page] + rest)[1..] == rest;
  }

  lemma {:induction false} PagesFollowTheSort(rows: set<Row>, cursor: Option<Cursor>)
    requires IsTable(rows)
    ensures Pages(rows, cursor) != [] && EndsWithoutMore(Pages(rows, cursor))
    ensures Concat(Pages(rows, cursor)) == Sorted(Selected(rows, cursor))
    decreases |Sorted(Selected(rows, cursor))|
  {
    var page := PageOf(rows, cursor);
    if page.hasMore {
      NextPageFollows(rows, cursor);
      PagesFollowTheSort(rows, SentBack(page.next));
      ConcatCons(page, Pages(rows, SentBack(page.next)));
    } else {
      ConcatCons(page, []);
      assert [page] + [] == [page];
    }
  }

  /** Following the next cursors from the first page lists every session exactly once, in strictly descending
      order: the pages make up the full sort. has_more is false exactly on the last page. */
  lemma PagesListEverySessionOnce(rows: set<Row>)
    requires IsTable(rows)
    ensures var all := Concat(Pages(rows, None));
      all == Sorted(rows) && Elements(all) == rows && |all| == |rows| && Descending(all)
    ensures forall i, j :: 0 <= i < j < |Concat(Pages(rows, None))| ==>
              var a, b := Concat(Pages(rows, None))[i], Concat(Pages(rows, None))[j];
              || a.updateTime > b.updateTime
              || (a.updateTime == b.updateTime && a.lastMsgTime > b.lastMsgTime)
              || (a.updateTime == b.updateTime && a.lastMsgTime == b.lastMsgTime && a.id > b.id)
    ensures EndsWithoutMore(Pages(rows, None))
  {
    PagesFollowTheSort(rows, None);
    SortedIsSorted(rows);
  }
}
