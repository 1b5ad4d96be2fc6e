/** The last message of every room for the session list, db/query/room_session.go: a Redis cache per room, filled on
    reads and invalidated by new messages and withdrawals, against the direct query; and the unread counts. */
module LastMessage {
  import opened Lists
  import opened SessionList
  import opened Options

  /** A row of room_message; visible stands for state = 1, not deleted and not withdrawn. */
  datatype Message = Message(rid: string, seqId: int, mid: string, visible: bool, content: string)

  /** What is cached and returned for a room. */
  datatype RoomMessage = RoomMessage(rid: string, mid: string, seqId: int, content: string)

  type Cache = map<string, RoomMessage>

  /** The unique index on (rid, seq_id); room ids and mids are never empty. */
  predicate IsMessageTable(messages: set<Message>)
  {
    && (forall m, n :: m in messages && n in messages && m.rid == n.rid && m.seqId == n.seqId ==> m == n)
    && (forall m :: m in messages ==> m.rid != "" && m.mid != "")
  }

  // ---------- The direct query ----------

  /** DISTINCT ON (rid) ... ORDER BY rid, seq_id DESC over the visible messages. */
  predicate IsLast(messages: set<Message>, rid: string, m: Message)
  {
    && m in messages && m.rid == rid && m.visible
    && forall n :: n in messages && n.rid == rid && n.visible ==> n.seqId <= m.seqId
  }

  predicate HasVisible(messages: set<Message>, rid: string)
  {
    exists m :: m in messages && m.rid == rid && m.visible
  }

  lemma {:induction false} LastExists(messages: set<Message>, rid: string)
    requires HasVisible(messages, rid)
    ensures exists m :: IsLast(messages, rid, m)
    decreases |messages|
  {
    var x :| x in messages && x.rid == rid && x.visible;
    var others := messages - {x};
    assert messages == others + {x};
    if HasVisible(others, rid) {
      LastExists(others, rid);
      var y :| IsLast(others, rid, y);
      assert IsLast(messages, rid, if x.seqId < y.seqId then y else x);
    } else {
      assert IsLast(messages, rid, x);
    }
  }

  ghost function Direct(messages: set<Message>, rid: string): (r: Option<RoomMessage>)
  {
    if HasVisible(messages, rid) then
      LastExists(messages, rid);
      var m :| IsLast(messages, rid, m);
      Some(RoomMessage(rid, m.mid, m.seqId, m.content))
    else None
  }

  lemma DirectIs(messages: set<Message>, rid: string, m: Message)
    requires IsMessageTable(messages) && IsLast(messages, rid, m)
    ensures Direct(messages, rid) == Some(RoomMessage(rid, m.mid, m.seqId, m.content))
  {
  }

  // ---------- The cache ----------

  /** Equal up to the content. */
  predicate Same(a: RoomMessage, b: RoomMessage)
  {
    a.rid == b.rid && a.mid == b.mid && a.seqId == b.seqId
  }

  ghost predicate CacheOk(messages: set<Message>, cache: Cache)
  {
    forall rid :: rid in cache ==>
      Direct(messages, rid).Some? && Same(cache[rid], Direct(messages, rid).value)
  }

  /** Messages of other rooms do not matter. */
  lemma DirectOfOthers(messages: set<Message>, messages': set<Message>, rid: string)
    requires IsMessageTable(messages) && IsMessageTable(messages')
    requires forall m: Message :: m.rid == rid ==> (m in messages <==> m in messages')
    ensures Direct(messages, rid) == Direct(messages', rid)
  {
    if HasVisible(messages, rid) {
      LastExists(messages, rid);
      var m :| IsLast(messages, rid, m);
      assert IsLast(messages', rid, m);
      DirectIs(messages, rid, m);
      DirectIs(messages', rid, m);
    }
  }

  /** A change in one room that invalidates its entry. */
  lemma InvalidatedKeeps(messages: set<Message>, messages': set<Message>, cache: Cache, rid: string)
    requires IsMessageTable(messages) && IsMessageTable(messages') && CacheOk(messages, cache)
    requires forall m: Message :: m.rid != rid ==> (m in messages <==> m in messages')
    ensures CacheOk(messages', cache - {rid})
  {
    forall r | r in cache - {rid} ensures Direct(messages', r) == Direct(messages, r) {
      DirectOfOthers(messages, messages', r);
    }
  }

  function WithContent(messages: set<Message>, m: Message, content: string): set<Message>
  {
    messages - {m} + {m.(content := content)}
  }

  lemma DirectWithContent(messages: set<Message>, m: Message, content: string, rid: string)
    requires IsMessageTable(messages) && m in messages && HasVisible(messages, rid)
    ensures IsMessageTable(WithContent(messages, m, content))
    ensures var last := Direct(messages, rid).value;
      Direct(WithContent(messages, m, content), rid) ==
        Some(if IsLast(messages, rid, m) then last.(content := content) else last)
  {
    var messages' := WithContent(messages, m, content);
    LastExists(messages, rid);
    var l :| IsLast(messages, rid, l);
    DirectIs(messages, rid, l);
    assert IsLast(messages, rid, m) ==> l == m;
    var l' := if l == m then m.(content := content) else l;
    assert IsLast(messages', rid, l');
    DirectIs(messages', rid, l');
  }

  /** A change of content does not invalidate: mid and seq_id of every entry stay right. */
  lemma ContentKeeps(messages: set<Message>, m: Message, content: string, cache: Cache)
    requires IsMessageTable(messages) && CacheOk(messages, cache) && m in messages
    ensures IsMessageTable(WithContent(messages, m, content)) && CacheOk(WithContent(messages, m, content), cache)
  {
    forall rid | rid in cache
      ensures Direct(WithContent(messages, m, content), rid).Some?
      ensures Same(cache[rid], Direct(WithContent(messages, m, content), rid).value)
    {
      DirectWithContent(messages, m, content, rid);
    }
  }

  /** An entry that is right to the letter stays so exactly when the change is not to the last message. */
  lemma ContentGoesStale(messages: set<Message>, m: Message, content: string, cache: Cache, rid: string)
    requires IsMessageTable(messages) && m in messages && rid in cache && Direct(messages, rid) == Some(cache[rid])
    ensures Direct(WithContent(messages, m, content), rid) == Some(cache[rid]) <==>
              !IsLast(messages, rid, m) || content == m.content
  {
    DirectWithContent(messages, m, content, rid);
    if IsLast(messages, rid, m) {
      DirectIs(messages, rid, m);
    }
  }

  class MessageStore {
    var messages: set<Message>
    var cache: Cache

    ghost predicate Valid()
      reads this
    {
      IsMessageTable(messages) && CacheOk(messages, cache)
    }

    constructor ()
      ensures Valid() && messages == {} && cache == map[]
    {
      messages, cache := {}, map[];
    }

    method Invalidate(rid: string)
      modifies `cache
      ensures cache == if rid == "" then old(cache) else old(cache) - {rid}
    {
      if rid != "" {
        cache := cache - {rid};
      }
    }

    /** A message is stored and its sessions are bumped. Without a positive createTime, which is a clock
        reading, the bump would leave the cache entry of the room in place. */
    method InsertAndBump(m: Message, createTime: int)
      requires Valid() && m.rid != "" && m.mid != ""
      requires forall n :: n in messages && n.rid == m.rid ==> n.seqId != m.seqId
      modifies this
      ensures messages == old(messages) + {m}
      ensures cache == if createTime > 0 then old(cache) - {m.rid} else old(cache)
      ensures createTime > 0 ==> Valid()
    {
      InvalidatedKeeps(messages, messages + {m}, cache, m.rid);
      messages := messages + {m};
      if m.rid == "" || createTime <= 0 {
        return;
      }
      Invalidate(m.rid);
    }

    method Withdraw(m: Message, notice: string)
      requires Valid() && m in messages
      modifies this
      ensures Valid() && cache == old(cache) - {m.rid}
      ensures messages == old(messages) - {m} + {m.(visible := false, content := notice)}
    {
      InvalidatedKeeps(messages, messages - {m} + {m.(visible := false, content := notice)}, cache, m.rid);
      messages := messages - {m} + {m.(visible := false, content := notice)};
      Invalidate(m.rid);
    }

    /** A file status update rewrites the content and leaves the cache alone. */
    method UpdateContent(m: Message, content: string)
      requires Valid() && m in messages
      modifies `messages
      ensures Valid() && messages == old(messages) - {m} + {m.(content := content)}
    {
      ContentKeeps(messages, m, content, cache);
      messages := WithContent(messages, m, content);
    }

    /** The entry of a room expires. */
    method Expire(rid: string)
      requires Valid()
      modifies `cache
      ensures Valid() && cache == old(cache) - {rid}
    {
      cache := cache - {rid};
    }

    /** The direct query for one room. */
    method QueryLast(rid: string) returns (r: Option<RoomMessage>)
      requires IsMessageTable(messages)
      ensures r == Direct(messages, rid)
    {
      var visible := set m | m in messages && m.rid == rid && m.visible;
      if visible == {} {
        assert forall m :: m in messages && m.rid == rid && m.visible ==> m in visible;
        return None;
      }
      var last :| last in visible;
      var left := visible - {last};
      while left != {}
        invariant left <= visible && last in visible
        invariant forall n :: n in visible - left ==> n.seqId <= last.seqId
        decreases |left|
      {
        var n :| n in left;
        if n.seqId > last.seqId {
          last := n;
        }
        left := left - {n};
      }
      assert forall n :: n in messages && n.rid == rid && n.visible ==> n in visible - left;
      DirectIs(messages, rid, last);
      return Some(RoomMessage(rid, last.mid, last.seqId, last.content));
    }

    /** Puts a looked-up last message into the cache, which stays right exactly when it is still the last one. */
    method Fill(last: RoomMessage)
      modifies `cache
      ensures cache == old(cache)[last.rid := last]
      ensures old(CacheOk(messages, cache)) ==>
                (CacheOk(messages, cache) <==>
                 Direct(messages, last.rid).Some? && Same(last, Direct(messages, last.rid).value))
    {
      cache := cache[last.rid := last];
    }

    /** getLastMessagesForUserSessions with a list of rooms: cached rooms first, the others from the database
        if the user has a session there, which also fills the cache. */
    method GetLastMessages(rids: seq<string>, sessions: set<string>) returns (result: map<string, RoomMessage>)
      requires Valid()
      modifies `cache
      ensures Valid()
      ensures forall rid :: rid in result ==>
                Direct(messages, rid).Some? && Same(result[rid], Direct(messages, rid).value)
      ensures forall rid :: rid in rids && rid != "" && rid in sessions && Direct(messages, rid).Some? ==> rid in result
      ensures forall rid :: rid in result ==> rid in rids && rid != "" && rid in cache && cache[rid] == result[rid]
    {
      var uniq := Dedup(rids);
      result := map[];
      for i := 0 to |uniq|
        modifies `cache
        invariant Valid() && CacheOk(messages, result)
        invariant forall rid :: rid in uniq[..i] && rid in sessions && Direct(messages, rid).Some? ==> rid in result
        invariant forall rid :: rid in result ==> rid in uniq[..i] && rid in cache && cache[rid] == result[rid]
      {
        var rid := uniq[i];
        if rid in cache && cache[rid].rid == rid && cache[rid].mid != "" {
          result := result[rid := cache[rid]];
        } else if rid in sessions {
          var last := QueryLast(rid);
          if last.Some? {
            result := result[rid := last.value];
            Fill(last.value);
          }
        }
        assert uniq[..i + 1] == uniq[..i] + [rid];
      }
      assert uniq[..|uniq|] == uniq;
    }
  }

  /** A slow reader looks up the last message of a room, a newer one is stored and invalidates the entry, and then the
      reader fills the cache: the old last message is back, and stays until the next invalidation or its expiry. */
  method LateFillIsStale(store: MessageStore, newer: Message, createTime: int) returns (looked: RoomMessage)
    requires store.Valid() && HasVisible(store.messages, newer.rid) && createTime > 0
    requires newer.rid != "" && newer.mid != "" && newer.visible
    requires forall n :: n in store.messages && n.rid == newer.rid ==> n.seqId < newer.seqId
    modifies store
    ensures store.messages == old(store.messages) + {newer}
    ensures Direct(store.messages, newer.rid) == Some(RoomMessage(newer.rid, newer.mid, newer.seqId, newer.content))
    ensures newer.rid in store.cache && store.cache[newer.rid] == looked && looked.seqId < newer.seqId
    ensures Some(looked) == old(Direct(store.messages, newer.rid)) && !CacheOk(store.messages, store.cache)
  {
    var last := store.QueryLast(newer.rid);
    LastExists(store.messages, newer.rid);
    looked := last.value;
    DirectIsStored(store.messages, newer.rid);
    store.InsertAndBump(newer, createTime);
    DirectIs(store.messages, newer.rid, newer);
    store.Fill(looked);
  }

  lemma DirectIsStored(messages: set<Message>, rid: string)
    requires IsMessageTable(messages) && HasVisible(messages, rid)
    ensures var last := Direct(messages, rid).value;
      last.rid == rid && exists m :: m in messages && m.rid == rid && m.seqId == last.seqId
  {
    LastExists(messages, rid);
    var m :| IsLast(messages, rid, m);
    DirectIs(messages, rid, m);
  }

  // ---------- Unread counts ----------

  function Unread(lastSeqId: int, last: Option<RoomMessage>): (n: nat)
  {
    if last.Some? && last.value.seqId > lastSeqId then last.value.seqId - lastSeqId else 0
  }

  /** The unread count of a session by the direct query. */
  ghost function RowUnread(messages: set<Message>, row: Row): nat
  {
    Unread(row.lastSeqId, Direct(messages, row.rid))
  }

  ghost function Total(messages: set<Message>, rows: seq<Row>): nat
  {
    if rows == [] then 0 else Total(messages, rows[..|rows| - 1]) + RowUnread(messages, rows[|rows| - 1])
  }

  /** The counts that SessionList puts on a page, from the messages it looked up for the page. */
  function PageTotal(page: seq<Row>, found: map<string, RoomMessage>): nat
  {
    if page == [] then 0
    else
      var row := page[|page| - 1];
      PageTotal(page[..|page| - 1], found) +
      Unread(row.lastSeqId, if row.rid in found then Some(found[row.rid]) else None)
  }

  /** The count of a row is the number of seq_ids after the read position up to the last visible message. */
  lemma UnreadCounts(messages: set<Message>, row: Row)
    requires IsMessageTable(messages)
    ensures !HasVisible(messages, row.rid) ==> RowUnread(messages, row) == 0
    ensures forall m :: IsLast(messages, row.rid, m) ==>
              && (m.seqId > row.lastSeqId ==> RowUnread(messages, row) + row.lastSeqId == m.seqId)
              && (m.seqId <= row.lastSeqId ==> RowUnread(messages, row) == 0)
  {
    forall m | IsLast(messages, row.rid, m) ensures Direct(messages, row.rid).Some? {
      DirectIs(messages, row.rid, m);
    }
  }

  function Sum(counts: seq<nat>): nat
  {
    if counts == [] then 0 else Sum(counts[..|counts| - 1]) + counts[|counts| - 1]
  }

  /** ComputeUserTotalUnread over the sessions in the order the database returns them: the sum of their counts. */
  method ComputeUserTotalUnread(store: MessageStore, seqRows: seq<Row>) returns (sum: nat, ghost counts: seq<nat>)
    requires store.Valid()
    ensures sum == Total(store.messages, seqRows)
    ensures sum == Sum(counts) && |counts| == |seqRows|
    ensures forall i :: 0 <= i < |seqRows| && !HasVisible(store.messages, seqRows[i].rid) ==> counts[i] == 0
    ensures forall i, m :: 0 <= i < |seqRows| && IsLast(store.messages, seqRows[i].rid, m) ==>
              && (m.seqId > seqRows[i].lastSeqId ==> counts[i] + seqRows[i].lastSeqId == m.seqId)
              && (m.seqId <= seqRows[i].lastSeqId ==> counts[i] == 0)
  {
    sum, counts := 0, [];
    for i := 0 to |seqRows|
      invariant |counts| == i && sum == Total(store.messages, seqRows[..i]) == Sum(counts)
      invariant forall k :: 0 <= k < i ==> counts[k] == RowUnread(store.messages, seqRows[k])
    {
      assert seqRows[..i + 1][..i] == seqRows[..i];
      var row := seqRows[i];
      ghost var before := counts;
      counts := counts + [RowUnread(store.messages, row)];
      assert counts[..i] == before;
      if row.rid == "" {
        assert !HasVisible(store.messages, "");
        continue;
      }
      var last := store.QueryLast(row.rid);
      sum := sum + Unread(row.lastSeqId, last);
    }
    assert seqRows[..|seqRows|] == seqRows;
    CountsAre(store.messages, seqRows, counts);
  }

  lemma CountsAre(messages: set<Message>, rows: seq<Row>, counts: seq<nat>)
    requires IsMessageTable(messages) && |counts| == |rows|
    requires forall i :: 0 <= i < |rows| ==> counts[i] == RowUnread(messages, rows[i])
    ensures forall i :: 0 <= i < |rows| && !HasVisible(messages, rows[i].rid) ==> counts[i] == 0
    ensures forall i, m :: 0 <= i < |rows| && IsLast(messages, rows[i].rid, m) ==>
              && (m.seqId > rows[i].lastSeqId ==> counts[i] + rows[i].lastSeqId == m.seqId)
              && (m.seqId <= rows[i].lastSeqId ==> counts[i] == 0)
  {
    forall i, m | 0 <= i < |rows| && IsLast(messages, rows[i].rid, m)
      ensures m.seqId > rows[i].lastSeqId ==> counts[i] + rows[i].lastSeqId == m.seqId
      ensures m.seqId <= rows[i].lastSeqId ==> counts[i] == 0
    {
      UnreadCounts(messages, rows[i]);
    }
  }

  /** What GetLastMessages promises for the rooms of a page. */
  ghost predicate Answers(messages: set<Message>, page: seq<Row>, found: map<string, RoomMessage>)
  {
    && (forall rid :: rid in found ==> Direct(messages, rid).Some? && Same(found[rid], Direct(messages, rid).value))
    && (forall r :: r in page && Direct(messages, r.rid).Some? ==> r.rid in found)
  }

  /** The part of SessionList after the page was fetched: the last messages of its rooms, and the unread count of every
      session on it. sessions are the rooms in which the user has an open session, so they include those of the page. */
  method CountUnread(store: MessageStore, page: seq<Row>, sessions: set<string>)
    returns (found: map<string, RoomMessage>, counts: seq<nat>)
    requires store.Valid() && forall r :: r in page ==> r.rid in sessions
    modifies store`cache
    ensures store.Valid() && Answers(store.messages, page, found)
    ensures |counts| == |page| && forall i :: 0 <= i < |page| ==> counts[i] == RowUnread(store.messages, page[i])
    ensures forall i :: 0 <= i < |page| && !HasVisible(store.messages, page[i].rid) ==> counts[i] == 0
    ensures forall i, m :: 0 <= i < |page| && IsLast(store.messages, page[i].rid, m) ==>
              && (m.seqId > page[i].lastSeqId ==> counts[i] + page[i].lastSeqId == m.seqId)
              && (m.seqId <= page[i].lastSeqId ==> counts[i] == 0)
  {
    var rids: seq<string> := [];
    for i := 0 to |page|
      invariant forall rid :: rid in rids <==> rid != "" && exists k :: 0 <= k < i && page[k].rid == rid
    {
      if page[i].rid != "" {
        rids := rids + [page[i].rid];
      }
    }
    found := store.GetLastMessages(rids, sessions);
    PageIsAnswered(store.messages, page, rids, sessions, found);
    counts := [];
    for i := 0 to |page|
      invariant |counts| == i
      invariant forall k :: 0 <= k < i ==> counts[k] == RowUnread(store.messages, page[k])
    {
      assert page[i] in page;
      counts := counts + [Unread(page[i].lastSeqId, if page[i].rid in found then Some(found[page[i].rid]) else None)];
    }
    CountsAre(store.messages, page, counts);
  }

  lemma PageIsAnswered(messages: set<Message>, page: seq<Row>, rids: seq<string>, sessions: set<string>,
                       found: map<string, RoomMessage>)
    requires IsMessageTable(messages)
    requires forall r :: r in page ==> r.rid in sessions && (r.rid != "" ==> r.rid in rids)
    requires forall rid :: rid in found ==> Direct(messages, rid).Some? && Same(found[rid], Direct(messages, rid).value)
    requires forall rid :: rid in rids && rid != "" && rid in sessions && Direct(messages, rid).Some? ==> rid in found
    ensures Answers(messages, page, found)
  {
    assert !HasVisible(messages, "");
  }

  /** Cached or not, the counts on a page are those of the direct query. */
  lemma {:induction false} PageTotalIsDirect(messages: set<Message>, page: seq<Row>, found: map<string, RoomMessage>)
    requires Answers(messages, page, found)
    ensures PageTotal(page, found) == Total(messages, page)
  {
    if page != [] {
      var row := page[|page| - 1];
      assert row in page;
      PageTotalIsDirect(messages, page[..|page| - 1], found);
    }
  }

  /** The unread counts of the pages, each with the answers it was built from. */
  function PagesTotal(pages: seq<Page>, found: seq<map<string, RoomMessage>>): nat
    requires |pages| == |found|
  {
    if pages == [] then 0 else PageTotal(pages[0].rows, found[0]) + PagesTotal(pages[1..], found[1..])
  }

  lemma {:induction false} PagesTotalIsDirect(messages: set<Message>, pages: seq<Page>,
                                              found: seq<map<string, RoomMessage>>)
    requires |pages| == |found|
    requires forall i :: 0 <= i < |pages| ==> Answers(messages, pages[i].rows, found[i])
    ensures PagesTotal(pages, found) == Total(messages, Concat(pages))
  {
    if pages != [] {
      PageTotalIsDirect(messages, pages[0].rows, found[0]);
      PagesTotalIsDirect(messages, pages[1..], found[1..]);
      TotalAppend(messages, pages[0].rows, Concat(pages[1..]));
    }
  }

  lemma {:induction false} TotalAppend(messages: set<Message>, a: seq<Row>, b: seq<Row>)
    ensures Total(messages, a + b) == Total(messages, a) + Total(messages, b)
  {
    if b == [] {
      assert a + b == a;
    } else {
      assert (a + b)[..|a + b| - 1] == a + b[..|b| - 1];
      TotalAppend(messages, a, b[..|b| - 1]);
    }
  }

  /** The order of the rows does not matter. */
  lemma {:induction false} TotalOfSameRows(messages: set<Message>, a: seq<Row>, b: seq<Row>)
    requires Distinct(a) && Distinct(b) && Elements(a) == Elements(b)
    ensures Total(messages, a) == Total(messages, b)
    decreases |a|
  {
    if a == [] {
      assert Elements(b) == {};
      assert forall i :: 0 <= i < |b| ==> b[i] in Elements(b);
    } else {
      var x := a[|a| - 1];
      var a' := a[..|a| - 1];
      assert x in Elements(a);
      var k :| 0 <= k < |b| && b[k] == x;
      var b' := b[..k] + b[k + 1..];
      RemovedRow(a, |a| - 1);
      RemovedRow(b, k);
      assert a[..|a| - 1] + a[|a| - 1 + 1..] == a';
      TotalOfSameRows(messages, a', b');
      assert b == b[..k] + [x] + b[k + 1..];
      TotalAppend(messages, b[..k] + [x], b[k + 1..]);
      TotalAppend(messages, b[..k], [x]);
      TotalAppend(messages, b[..k], b[k + 1..]);
      assert Total(messages, [x]) == Total(messages, []) + RowUnread(messages, x);
    }
  }

  lemma RemovedRow(s: seq<Row>, k: nat)
    requires Distinct(s) && k < |s|
    ensures var r := s[..k] + s[k + 1..];
      Distinct(r) && Elements(r) == Elements(s) - {s[k]}
  {
    var r := s[..k] + s[k + 1..];
    forall x | x in Elements(s) - {s[k]} ensures x in r {
      var i :| 0 <= i < |s| && s[i] == x;
      assert r[if i < k then i else i - 1] == x;
    }
    forall i | 0 <= i < |r| ensures r[i] in Elements(s) - {s[k]} {
      assert r[i] == s[if i < k then i else i + 1];
    }
  }

  /** The room columns that the list joins. */
  datatype RoomRow = RoomRow(state: int, deleteTime: int)

  const ROOM_DISSOLVED := 0
  const ROOM_ACTIVE := 1

  predicate IsShown(rooms: map<string, RoomRow>, rid: string)
  {
    && rid in rooms && rooms[rid].deleteTime == 0
    && (rooms[rid].state == ROOM_DISSOLVED || rooms[rid].state == ROOM_ACTIVE)
  }

  /** The sessions the list ranges over: those whose room the join finds. The total does not join. */
  function Listed(rows: set<Row>, rooms: map<string, RoomRow>): set<Row>
  {
    set r | r in rows && IsShown(rooms, r.rid)
  }

  lemma ListedRooms(rows: set<Row>, rooms: map<string, RoomRow>, r: Row)
    ensures r in Listed(rows, rooms) <==>
            && r in rows && r.rid in rooms && rooms[r.rid].deleteTime == 0
            && (rooms[r.rid].state == 0 || rooms[r.rid].state == 1)
  {
  }

  /** Rooms are created active, dissolved by their owner, and never deleted. */
  predicate RoomsAsWritten(rows: set<Row>, rooms: map<string, RoomRow>)
  {
    forall r :: r in rows ==> r.rid in rooms && rooms[r.rid].deleteTime == 0
                              && rooms[r.rid].state in {ROOM_DISSOLVED, ROOM_ACTIVE}
  }

  /** The unread counts on all pages, each built from whatever its cache held, add up to the uncached total. */
  lemma PagesAddUpToTotal(messages: set<Message>, rows: set<Row>, rooms: map<string, RoomRow>, seqRows: seq<Row>,
                          found: seq<map<string, RoomMessage>>)
    requires IsTable(rows) && RoomsAsWritten(rows, rooms)
    requires Distinct(seqRows) && Elements(seqRows) == rows
    requires |found| == |Pages(Listed(rows, rooms), None)|
    requires forall i :: 0 <= i < |found| ==> Answers(messages, Pages(Listed(rows, rooms), None)[i].rows, found[i])
    ensures Total(messages, seqRows) == PagesTotal(Pages(Listed(rows, rooms), None), found)
  {
    assert Listed(rows, rooms) == rows;
    assert rows - Listed(rows, rooms) == {};
    HiddenSessionsAddOn(messages, rows, rooms, seqRows, found);
  }

  /** For whatever room rows: the total exceeds the counts on all pages by the sessions whose room the join does
      not find, so the two agree exactly when those have nothing unread. */
  lemma HiddenSessionsAddOn(messages: set<Message>, rows: set<Row>, rooms: map<string, RoomRow>, seqRows: seq<Row>,
                            found: seq<map<string, RoomMessage>>)
    requires IsTable(rows) && Distinct(seqRows) && Elements(seqRows) == rows
    requires |found| == |Pages(Listed(rows, rooms), None)|
    requires forall i :: 0 <= i < |found| ==> Answers(messages, Pages(Listed(rows, rooms), None)[i].rows, found[i])
    ensures var hidden := rows - Listed(rows, rooms);
      && Total(messages, seqRows) ==
           PagesTotal(Pages(Listed(rows, rooms), None), found) + Total(messages, Sorted(hidden))
      && (Total(messages, Sorted(hidden)) == 0 <==> forall r :: r in hidden ==> RowUnread(messages, r) == 0)
  {
    var listed := Listed(rows, rooms);
    var hidden := rows - listed;
    PagesTotalIsDirect(messages, Pages(listed, None), found);
    PagesFollowTheSort(listed, None);
    assert listed + hidden == rows;
    TotalOfParts(messages, listed, hidden, seqRows);
    SortedTotalIsZero(messages, hidden);
  }

  lemma SortedTotalIsZero(messages: set<Message>, rows: set<Row>)
    requires IsTable(rows)
    ensures Total(messages, Sorted(rows)) == 0 <==> forall r :: r in rows ==> RowUnread(messages, r) == 0
  {
    SortedIsSorted(rows);
    TotalIsZero(messages, Sorted(rows));
    assert forall r :: r in rows <==> r in Elements(Sorted(rows));
  }

  lemma TotalOfParts(messages: set<Message>, listed: set<Row>, hidden: set<Row>, seqRows: seq<Row>)
    requires IsTable(listed + hidden) && listed !! hidden
    requires Distinct(seqRows) && Elements(seqRows) == listed + hidden
    ensures Total(messages, seqRows) == Total(messages, Sorted(listed)) + Total(messages, Sorted(hidden))
  {
    SortedIsSorted(listed);
    SortedIsSorted(hidden);
    DescendingIsDistinct(Sorted(listed));
    DescendingIsDistinct(Sorted(hidden));
    DistinctUnion(Sorted(listed), Sorted(hidden));
    TotalOfSameRows(messages, seqRows, Sorted(listed) + Sorted(hidden));
    TotalAppend(messages, Sorted(listed), Sorted(hidden));
  }

  lemma DescendingIsDistinct(s: seq<Row>)
    requires Descending(s)
    ensures Distinct(s)
  {
  }

  lemma DistinctUnion(a: seq<Row>, b: seq<Row>)
    requires Distinct(a) && Distinct(b) && Elements(a) !! Elements(b)
    ensures Distinct(a + b) && Elements(a + b) == Elements(a) + Elements(b)
  {
    assert forall i :: 0 <= i < |a| ==> a[i] in Elements(a);
    assert forall i :: 0 <= i < |b| ==> b[i] in Elements(b);
    forall x | x in Elements(a) + Elements(b) ensures x in a + b {
    }
  }

  lemma {:induction false} TotalIsZero(messages: set<Message>, rows: seq<Row>)
    ensures Total(messages, rows) == 0 <==> forall r :: r in rows ==> RowUnread(messages, r) == 0
  {
    if rows != [] {
      TotalIsZero(messages, rows[..|rows| - 1]);
      assert rows == rows[..|rows| - 1] + [rows[|rows| - 1]];
    }
  }
}
