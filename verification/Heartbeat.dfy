/** The heartbeat manager of quic/heartbeat/manager.go: an indexed binary min-heap of
    heartbeat entries that is mirrored by a map from client id to entry, and a batched
    eviction loop. The entries are objects shared by the map and the heap slice, and each
    one stores its own slot. The sift operations of Go's container/heap are part of the model. */
module Heartbeat {
  import opened Lists

  // ---------- Heap order on the sequence of heartbeat times ----------

  function Parent(j: int): (p: int)
    requires 0 < j
    ensures 0 <= p < j
  {
    (j - 1) / 2
  }

  /** The first n times are in min-heap order. */
  ghost predicate Ordered(ts: seq<int>, n: nat)
    requires n <= |ts|
  {
    forall j {:trigger Parent(j)} :: 0 < j < n ==> ts[Parent(j)] <= ts[j]
  }

  /** Every edge not touching slot k is in order, and the children of k are not below the parent of k. */
  ghost predicate BrokenAt(ts: seq<int>, n: nat, k: nat)
    requires n <= |ts|
  {
    && (forall j {:trigger Parent(j)} :: 0 < j < n && j != k && Parent(j) != k ==> ts[Parent(j)] <= ts[j])
    && (forall j {:trigger Parent(j)} :: 0 < j < n && 0 < k < n && Parent(j) == k ==> ts[Parent(k)] <= ts[j])
  }

  /** Only the edge above k may be out of order. */
  ghost predicate BrokenAbove(ts: seq<int>, n: nat, k: nat)
    requires n <= |ts|
  {
    && BrokenAt(ts, n, k)
    && (forall j {:trigger Parent(j)} :: 0 < j < n && Parent(j) == k ==> ts[k] <= ts[j])
  }

  /** Only the edges below k may be out of order. */
  ghost predicate BrokenBelow(ts: seq<int>, n: nat, k: nat)
    requires n <= |ts|
  {
    && BrokenAt(ts, n, k)
    && (0 < k < n ==> ts[Parent(k)] <= ts[k])
  }

  function Swapped<T>(s: seq<T>, i: nat, j: nat): (r: seq<T>)
    requires i < |s| && j < |s|
    ensures |r| == |s|
  {
    s[i := s[j]][j := s[i]]
  }

  lemma SwappedMembers<T>(s: seq<T>, i: nat, j: nat)
    requires i < |s| && j < |s|
    ensures (set e | e in Swapped(s, i, j)) == (set e | e in s)
  {
    var r := Swapped(s, i, j);
    forall e | e in s ensures e in r {
      var k :| 0 <= k < |s| && s[k] == e;
      assert r[if k == i then j else if k == j then i else k] == e;
    }
  }

  lemma RootIsLeast(ts: seq<int>, n: nat, k: nat)
    requires n <= |ts| && Ordered(ts, n) && k < n
    ensures ts[0] <= ts[k]
    decreases k
  {
    if k > 0 {
      RootIsLeast(ts, n, Parent(k));
    }
  }

  // ---------- container/heap over heartbeat entries ----------

  class Entry {
    const clientID: string
    var lastHbTime: int
    var index: int

    constructor (clientID: string, now: int)
      ensures this.clientID == clientID && lastHbTime == now
    {
      this.clientID := clientID;
      lastHbTime := now;
      index := 0;
    }
  }

  class HeartbeatHeap {
    var items: seq<Entry>

    constructor ()
      ensures items == []
    {
      items := [];
    }

    /** Every entry knows its own slot; in particular no entry sits in two slots. */
    ghost predicate Indexed()
      reads this, items
    {
      forall i :: 0 <= i < |items| ==> items[i].index == i
    }

    ghost function Times(): (ts: seq<int>)
      reads this, items
      ensures |ts| == |items|
      ensures forall i :: 0 <= i < |items| ==> ts[i] == items[i].lastHbTime
    {
      seq(|items|, i requires 0 <= i < |items| reads this, items => items[i].lastHbTime)
    }

    ghost function Members(): set<Entry>
      reads this
    {
      set e | e in items
    }

    ghost predicate IsHeap()
      reads this, items
    {
      Indexed() && Ordered(Times(), |items|)
    }

    method Swap(i: nat, j: nat)
      requires i < |items| && j < |items| && Indexed()
      modifies `items, Members()`index
      ensures items == Swapped(old(items), i, j) && Indexed()
      ensures Times() == Swapped(old(Times()), i, j)
      ensures Members() == old(Members())
    {
      SwappedMembers(items, i, j);
      items := items[i := items[j]][j := items[i]];
      items[i].index := i;
      items[j].index := j;
    }

    predicate NotBelowParent(i: nat)
      requires i < |items|
      reads this, items
    {
      i == 0 || items[Parent(i)].lastHbTime <= items[i].lastHbTime
    }

    method Up(start: nat, ghost n: nat)
      requires start < n <= |items| && Indexed()
      requires BrokenAbove(Times(), n, start)
      modifies `items, Members()`index
      ensures Indexed() && |items| == old(|items|) && Ordered(Times(), n)
      ensures old(NotBelowParent(start)) ==> items == old(items)
      ensures items[n..] == old(items[n..])
      ensures Members() == old(Members())
    {
      var j := start;
      while true
        invariant j == start ==> items == old(items)
        invariant j != start ==> !old(NotBelowParent(start))
        invariant 0 <= j < n <= |items| == old(|items|) && Indexed()
        invariant BrokenAbove(Times(), n, j)
        invariant items[n..] == old(items[n..])
        invariant Members() == old(Members())
        decreases j
      {
        var i := if j == 0 then 0 else (j - 1) / 2;
        if i == j || !(items[j].lastHbTime < items[i].lastHbTime) {
          UpDone(Times(), n, j);
          return;
        }
        ghost var before := Times();
        Swap(i, j);
        UpStep(before, n, j);
        j := i;
      }
    }

    /** The child of i that is sifted up by Down: the left one unless the right one is strictly older. */
    method LeastChild(i: nat, n: nat) returns (j: nat)
      requires 2 * i + 1 < n <= |items|
      ensures i < j < n && Parent(j) == i
      ensures forall k {:trigger Parent(k)} :: 0 < k < n && Parent(k) == i ==> Times()[j] <= Times()[k]
    {
      j := 2 * i + 1;
      var right := j + 1;
      if right < n && items[right].lastHbTime < items[j].lastHbTime {
        j := right;
      }
    }

    /** One round of Down: sinks the entry in slot i by one level unless it is in place. */
    method Sink(i: nat, n: nat) returns (j: nat)
      requires i <= n <= |items| && Indexed()
      requires BrokenAt(Times(), n, i)
      modifies `items, Members()`index
      ensures Indexed() && |items| == old(|items|) && i <= j <= n
      ensures j == i ==> items == old(items) && BrokenAbove(Times(), n, i)
      ensures j == i && old(BrokenBelow(Times(), n, i)) ==> Ordered(Times(), n)
      ensures j > i ==> BrokenBelow(Times(), n, j) && 2 * i + 1 < n
      ensures items[n..] == old(items[n..])
      ensures Members() == old(Members())
    {
      j := i;
      if 2 * i + 1 < n {
        j := LeastChild(i, n);
        if !(items[j].lastHbTime < items[i].lastHbTime) {
          j := i;
        }
      }
      if j == i {
        DownDone(Times(), n, i);
      } else {
        DownStep(Times(), n, i, j);
        Swap(i, j);
      }
    }

    method Down(start: nat, n: nat) returns (moved: bool)
      requires start <= n <= |items| && Indexed()
      requires BrokenAt(Times(), n, start)
      modifies `items, Members()`index
      ensures Indexed() && |items| == old(|items|)
      ensures moved ==> Ordered(Times(), n)
      ensures !moved ==> items == old(items) && BrokenAbove(Times(), n, start)
      ensures 2 * start + 1 >= n ==> !moved
      ensures items[n..] == old(items[n..])
      ensures Members() == old(Members())
    {
      var i := start;
      while true
        invariant start <= i <= n <= |items| == old(|items|) && Indexed()
        invariant i == start ==> items == old(items) && BrokenAt(Times(), n, start)
        invariant i > start ==> BrokenBelow(Times(), n, i) && 2 * start + 1 < n
        invariant items[n..] == old(items[n..])
        invariant Members() == old(Members())
        decreases n - i
      {
        var j := Sink(i, n);
        if j == i {
          return i > start;
        }
        i := j;
      }
    }

    method Push(x: Entry)
      requires IsHeap() && x !in Members()
      modifies `items, Members()`index, x`index
      ensures IsHeap() && Members() == old(Members()) + {x}
      ensures (forall i :: 0 <= i < old(|items|) ==> old(items[i].lastHbTime) <= old(x.lastHbTime)) ==>
              items == old(items) + [x]
    {
      x.index := |items|;
      items := items + [x];
      assert Members() == old(Members()) + {x};
      Up(|items| - 1, |items|);
    }

    /** The slice's own Pop: drops the last slot. */
    method DropLast() returns (e: Entry)
      requires |items| > 0 && Indexed() && Ordered(Times(), |items| - 1)
      modifies `items, Members()`index
      ensures e == old(items[|items| - 1]) && IsHeap() && Members() == old(Members()) - {e}
    {
      var n := |items| - 1;
      e := items[n];
      e.index := -1;
      items := items[..n];
    }

    method Pop() returns (e: Entry)
      requires IsHeap() && |items| > 0
      modifies `items, Members()`index
      ensures e == old(items[0]) && IsHeap() && Members() == old(Members()) - {e}
    {
      var n := |items| - 1;
      Swap(0, n);
      var moved := Down(0, n);
      e := DropLast();
    }

    method Fix(i: nat)
      requires i < |items| && Indexed() && BrokenAt(Times(), |items|, i)
      modifies `items, Members()`index
      ensures IsHeap() && Members() == old(Members())
      ensures 2 * i + 1 >= old(|items|) && old(NotBelowParent(i)) ==> items == old(items)
    {
      var moved := Down(i, |items|);
      if !moved {
        Up(i, |items|);
      }
    }

    method Remove(i: nat) returns (e: Entry)
      requires i < |items| && IsHeap()
      modifies `items, Members()`index
      ensures e == old(items[i]) && IsHeap() && Members() == old(Members()) - {e}
    {
      var n := |items| - 1;
      if n != i {
        ghost var before := Times();
        Swap(i, n);
        RemovedIsBroken(before, i);
        var moved := Down(i, n);
        if !moved {
          Up(i, n);
        }
      }
      e := DropLast();
    }
  }

  // ---------- What a timeout sweep may do to the table of heartbeats ----------

  /** The listed clients were evicted at time `now`: every one of them was strictly overdue, they
      are listed oldest first, none is younger than a client that stays, nothing else changed. */
  ghost predicate Evicted(before: map<string, int>, after: map<string, int>, evicted: seq<string>,
                          now: int, timeout: int)
  {
    && Distinct(evicted)
    && (forall k :: 0 <= k < |evicted| ==> evicted[k] in before && now - before[evicted[k]] > timeout)
    && after == (map id | id in before && id !in evicted :: before[id])
    && (forall i, j :: 0 <= i < j < |evicted| ==> before[evicted[i]] <= before[evicted[j]])
    && (forall k, id :: 0 <= k < |evicted| && id in after ==> before[evicted[k]] <= after[id])
  }

  /** A complete sweep: the batch limit is the only reason for an overdue client to stay. */
  ghost predicate IsSweep(before: map<string, int>, after: map<string, int>, evicted: seq<string>,
                          now: int, timeout: int, batchSize: nat)
  {
    && Evicted(before, after, evicted, now, timeout)
    && |evicted| <= batchSize
    && (|evicted| < batchSize ==> forall id :: id in after ==> now - after[id] <= timeout)
  }

  lemma EvictNone(before: map<string, int>, now: int, timeout: int)
    ensures Evicted(before, before, [], now, timeout)
  {
  }

  lemma EvictOneMore(before: map<string, int>, between: map<string, int>, after: map<string, int>,
                     evicted: seq<string>, id: string, now: int, timeout: int)
    requires Evicted(before, between, evicted, now, timeout)
    requires id in between && now - between[id] > timeout && after == between - {id}
    requires forall other :: other in between ==> between[id] <= between[other]
    ensures Evicted(before, after, evicted + [id], now, timeout)
  {
  }

  ghost predicate Mirror(entries: map<string, Entry>, members: set<Entry>)
  {
    && (forall e :: e in members ==> e.clientID in entries && entries[e.clientID] == e)
    && (forall id :: id in entries ==> entries[id] in members && entries[id].clientID == id)
  }

  lemma MirrorInsert(entries: map<string, Entry>, members: set<Entry>, e: Entry)
    requires Mirror(entries, members) && e.clientID !in entries
    ensures e !in members && Mirror(entries[e.clientID := e], members + {e})
  {
  }

  lemma MirrorRemove(entries: map<string, Entry>, members: set<Entry>, e: Entry)
    requires Mirror(entries, members) && e in members
    ensures Mirror(entries - {e.clientID}, members - {e})
  {
  }

  class Manager {
    const heap: HeartbeatHeap
    var entries: map<string, Entry>
    ghost var beats: map<string, int> // the last heartbeat of every tracked client
    const timeout: int
    const batchSize: nat

    /** The heap is in order, every entry sits in the slot it stores, and map and heap hold the
        same entries one to one. */
    ghost predicate Valid()
      reads this, heap, heap.items
    {
      && heap.IsHeap() && Mirror(entries, heap.Members())
      && beats.Keys == entries.Keys
      && (forall id :: id in entries ==> entries[id].lastHbTime == beats[id])
    }

    constructor (timeout: int)
      ensures Valid() && beats == map[] && heap.items == [] && this.timeout == timeout && batchSize == 100
      ensures fresh(heap)
    {
      heap := new HeartbeatHeap();
      entries, beats := map[], map[];
      this.timeout := timeout;
      batchSize := 100;
    }

    /** With a clock that does not run backwards, a new client takes the last slot and a leaf that beats again stays. */
    method UpdateHeartbeat(clientID: string, now: int)
      requires Valid()
      modifies this, heap, heap.Members()
      ensures Valid() && beats == old(beats)[clientID := now]
      ensures clientID !in old(entries) && old(NoneLater(now)) ==> heap.items == old(heap.items) + [entries[clientID]]
      ensures clientID in old(entries) && old(NoneLater(now)) && old(IsLeaf(clientID)) ==> heap.items == old(heap.items)
      ensures entries.Keys == old(entries.Keys) + {clientID}
      ensures forall id :: id in old(entries) ==> entries[id] == old(entries)[id]
      ensures fresh(heap.Members() - old(heap.Members()))
    {
      if clientID in entries {
        Touch(clientID, now);
      } else {
        var entry := new Entry(clientID, now);
        Insert(entry);
      }
    }

    ghost predicate NoneLater(now: int)
      reads this, heap, heap.items
    {
      forall i :: 0 <= i < |heap.items| ==> heap.items[i].lastHbTime <= now
    }

    ghost predicate IsLeaf(clientID: string)
      requires clientID in entries
      reads this, heap, entries[clientID]
    {
      2 * entries[clientID].index + 1 >= |heap.items|
    }

    method Touch(clientID: string, now: int)
      requires Valid() && clientID in entries
      modifies `beats, heap, heap.Members()
      ensures Valid() && beats == old(beats)[clientID := now]
      ensures heap.Members() == old(heap.Members())
      ensures old(NoneLater(now)) && old(IsLeaf(clientID)) ==> heap.items == old(heap.items)
    {
      var entry := entries[clientID];
      ghost var before := heap.Times();
      entry.lastHbTime := now;
      beats := beats[clientID := now];
      TouchedIsBroken(before, heap.Times(), entry.index);
      heap.Fix(entry.index);
    }

    method Insert(entry: Entry)
      requires Valid() && entry.clientID !in entries
      modifies `entries, `beats, heap, heap.Members()`index, entry`index
      ensures Valid() && beats == old(beats)[entry.clientID := entry.lastHbTime]
      ensures heap.Members() == old(heap.Members()) + {entry}
      ensures entries == old(entries)[entry.clientID := entry]
      ensures old(NoneLater(entry.lastHbTime)) ==> heap.items == old(heap.items) + [entry]
    {
      ghost var members := heap.Members();
      MirrorInsert(entries, members, entry);
      entries, beats := entries[entry.clientID := entry], beats[entry.clientID := entry.lastHbTime];
      heap.Push(entry);
      assert heap.Members() == members + {entry};
    }

    method RemoveClient(clientID: string)
      requires Valid()
      modifies this, heap, heap.Members()
      ensures Valid() && beats == old(beats) - {clientID}
      ensures heap.Members() <= old(heap.Members())
    {
      if clientID !in entries {
        return;
      }
      MirrorRemove(entries, heap.Members(), entries[clientID]);
      var entry := heap.Remove(entries[clientID].index);
      entries, beats := entries - {clientID}, beats - {clientID};
    }

    /** Pops the root and deletes its map entry: an oldest client leaves the table. */
    method EvictOldest() returns (id: string)
      requires Valid() && |heap.items| > 0
      modifies this, heap, heap.Members()
      ensures Valid() && heap.Members() <= old(heap.Members())
      ensures id in old(beats) && beats == old(beats) - {id}
      ensures old(beats)[id] == old(heap.items[0].lastHbTime)
      ensures forall other :: other in old(beats) ==> old(beats)[id] <= old(beats)[other]
    {
      RootIsOldest();
      MirrorRemove(entries, heap.Members(), heap.items[0]);
      var entry := heap.Pop();
      id := entry.clientID;
      entries, beats := entries - {id}, beats - {id};
    }

    /** No client is older than the one in the root slot. */
    lemma RootIsOldest()
      requires Valid() && |heap.items| > 0
      ensures heap.items[0].clientID in beats
      ensures beats[heap.items[0].clientID] == heap.items[0].lastHbTime
      ensures forall id :: id in beats ==> heap.items[0].lastHbTime <= beats[id]
    {
      assert heap.items[0] in heap.Members();
      forall id | id in beats ensures heap.items[0].lastHbTime <= beats[id] {
        var k :| 0 <= k < |heap.items| && heap.items[k] == entries[id];
        RootIsLeast(heap.Times(), |heap.items|, k);
      }
    }

    /** The root is just not overdue: the heap is adjusted at the root, which changes nothing. */
    method FixRoot()
      requires Valid() && |heap.items| > 0
      modifies heap, heap.Members()`index
      ensures Valid() && beats == old(beats) && heap.Members() == old(heap.Members())
    {
      heap.Fix(0);
    }

    method CheckTimeouts(now: int) returns (timedOut: seq<string>)
      requires Valid()
      modifies this, heap, heap.Members()
      ensures Valid() && heap.Members() <= old(heap.Members())
      ensures IsSweep(old(beats), beats, timedOut, now, timeout, batchSize)
    {
      timedOut := [];
      ghost var before := beats;
      EvictNone(before, now, timeout);
      var threshold := now - timeout;
      while |heap.items| > 0 && |timedOut| < batchSize
        invariant Valid() && heap.Members() <= old(heap.Members())
        invariant |timedOut| <= batchSize && Evicted(before, beats, timedOut, now, timeout)
        decreases batchSize - |timedOut|
      {
        var entry := heap.items[0];
        if entry.lastHbTime > threshold {
          RootIsOldest();
          break;
        }
        if now - entry.lastHbTime > timeout {
          ghost var between := beats;
          var id := EvictOldest();
          EvictOneMore(before, between, beats, timedOut, id, now, timeout);
          timedOut := timedOut + [id];
        } else {
          RootIsOldest();
          FixRoot();
          break;
        }
      }
    }

    method GetLastHeartbeat(clientID: string) returns (last: int, found: bool)
      requires Valid()
      ensures found <==> clientID in beats
      ensures found ==> last == beats[clientID]
    {
      found := clientID in entries;
      last := if found then entries[clientID].lastHbTime else 0;
    }

    /** The number of tracked clients and the oldest heartbeat among them. */
    method GetStats() returns (total: nat, oldest: int)
      requires Valid()
      ensures total == |beats|
      ensures total > 0 ==> (exists id :: id in beats && beats[id] == oldest)
      ensures total > 0 ==> forall id :: id in beats ==> oldest <= beats[id]
    {
      total := |entries|;
      oldest := 0;
      assert forall id :: id in entries ==> entries[id] in heap.Members();
      if |heap.items| > 0 {
        RootIsOldest();
        oldest := heap.items[0].lastHbTime;
      }
    }

    /** The scan stops at the first entry that is not overdue. A heap array is not sorted, so the result
        is only a lower bound of the overdue clients; it is their number exactly when the overdue
        entries happen to fill the first slots. */
    method GetTimeoutCount(warningThreshold: int, now: int) returns (count: nat)
      requires Valid()
      ensures count <= |set id | id in beats && now - beats[id] > warningThreshold|
      ensures count <= |OverdueIds(beats, now - warningThreshold)|
      ensures count > 0 <==> exists id :: id in beats && now - beats[id] > warningThreshold
      ensures count > 0 <==> OverdueIds(beats, now - warningThreshold) != {}
      ensures count == |OverdueIds(beats, now - warningThreshold)| <==>
              OverdueFirst(heap.Times(), now - warningThreshold)
    {
      var t := now - warningThreshold;
      count := 0;
      while count < |heap.items|
        invariant count <= |heap.items|
        invariant forall i :: 0 <= i < count ==> heap.Times()[i] < t
      {
        if !(heap.items[count].lastHbTime < t) {
          break;
        }
        count := count + 1;
      }
      TimeoutCountIsPrefix(t, count);
      assert OverdueIds(beats, t) == set id | id in beats && now - beats[id] > warningThreshold;
    }

    lemma NoneBeatLater(now: int)
      requires Valid() && forall id :: id in beats ==> beats[id] <= now
      ensures NoneLater(now)
    {
      assert forall i :: 0 <= i < |heap.items| ==> heap.items[i] in heap.Members();
    }

    lemma SlotTime(id: string, i: nat)
      requires Valid() && id in entries && i < |heap.items| && heap.items[i] == entries[id]
      ensures heap.Times()[i] == beats[id]
    {
    }

    lemma TimeoutCountIsPrefix(t: int, count: nat)
      requires Valid() && count <= |heap.items|
      requires forall i :: 0 <= i < count ==> heap.Times()[i] < t
      requires count < |heap.items| ==> heap.Times()[count] >= t
      ensures count <= |OverdueIds(beats, t)|
      ensures count > 0 <==> OverdueIds(beats, t) != {}
      ensures count == |OverdueIds(beats, t)| <==> OverdueFirst(heap.Times(), t)
    {
      var ids := SlotIds();
      PrefixCount(ids, heap.Times(), beats, t, count);
    }

    /** The client ids slot by slot. */
    lemma SlotIds() returns (ids: seq<string>)
      requires Valid()
      ensures IsListing(ids, heap.Times(), beats)
    {
      ids := seq(|heap.items|, i requires 0 <= i < |heap.items| reads this, heap, heap.items => heap.items[i].clientID);
      assert forall i :: 0 <= i < |ids| ==> heap.items[i] in heap.Members();
      forall id | id in beats ensures id in ids {
        var i :| 0 <= i < |heap.items| && heap.items[i] == entries[id];
        assert ids[i] == id;
      }
    }
  }

  /** Slot i holds client ids[i] with heartbeat time ts[i], and the slots hold every client once. */
  ghost predicate IsListing(ids: seq<string>, ts: seq<int>, beats: map<string, int>)
  {
    && |ids| == |ts| && Distinct(ids)
    && (forall i :: 0 <= i < |ids| ==> ids[i] in beats && beats[ids[i]] == ts[i])
    && (forall id :: id in beats ==> id in ids)
  }

  ghost function OverdueIds(beats: map<string, int>, t: int): set<string>
  {
    set id | id in beats && beats[id] < t
  }

  lemma PrefixIsOverdue(ids: seq<string>, ts: seq<int>, beats: map<string, int>, t: int, count: nat)
    requires IsListing(ids, ts, beats) && count <= |ts|
    requires forall i :: 0 <= i < count ==> ts[i] < t
    ensures Elements(ids[..count]) <= OverdueIds(beats, t)
    ensures |Elements(ids[..count])| == count
  {
    DistinctSize(ids[..count]);
    forall id | id in ids[..count] ensures id in OverdueIds(beats, t) {
      var i :| 0 <= i < count && ids[..count][i] == id;
      assert ids[i] in beats;
    }
  }

  lemma PrefixIsAll(ids: seq<string>, ts: seq<int>, beats: map<string, int>, t: int, count: nat)
    requires IsListing(ids, ts, beats) && count <= |ts|
    requires forall i :: 0 <= i < count ==> ts[i] < t
    requires count < |ts| ==> ts[count] >= t
    ensures OverdueIds(beats, t) <= Elements(ids[..count]) <==> OverdueFirst(ts, t)
  {
    var prefix := Elements(ids[..count]);
    if OverdueFirst(ts, t) {
      forall id | id in OverdueIds(beats, t) ensures id in prefix {
        var i :| 0 <= i < |ids| && ids[i] == id;
        assert i < count;
        assert ids[..count][i] == id;
      }
    } else {
      var i, j :| 0 <= i < j < |ts| && ts[j] < t && !(ts[i] < t);
      assert ids[j] in beats;
      assert ids[j] !in prefix && ids[j] in OverdueIds(beats, t);
    }
  }

  lemma PrefixCount(ids: seq<string>, ts: seq<int>, beats: map<string, int>, t: int, count: nat)
    requires IsListing(ids, ts, beats) && Ordered(ts, |ts|) && count <= |ts|
    requires forall i :: 0 <= i < count ==> ts[i] < t
    requires count < |ts| ==> ts[count] >= t
    ensures count <= |OverdueIds(beats, t)|
    ensures count > 0 <==> OverdueIds(beats, t) != {}
    ensures count == |OverdueIds(beats, t)| <==> OverdueFirst(ts, t)
  {
    PrefixIsOverdue(ids, ts, beats, t, count);
    PrefixIsAll(ids, ts, beats, t, count);
    SubsetSize(Elements(ids[..count]), OverdueIds(beats, t));
    if id :| id in OverdueIds(beats, t) {
      var k :| 0 <= k < |ids| && ids[k] == id;
      RootIsLeast(ts, |ts|, k);
    }
  }

  /** No slot that is not overdue precedes an overdue one. */
  ghost predicate OverdueFirst(ts: seq<int>, t: int)
  {
    forall i, j :: 0 <= i < j < |ts| && ts[j] < t ==> ts[i] < t
  }

  method OneClient(a: string) returns (m: Manager)
    ensures fresh(m) && fresh(m.heap) && fresh(m.heap.Members()) && m.Valid() && m.beats == map[][a := 1]
    ensures a in m.entries && |m.heap.items| == 1 && m.heap.items[0] == m.entries[a]
  {
    m := new Manager(60);
    m.UpdateHeartbeat(a, 1);
  }

  method TwoClients(a: string, b: string) returns (m: Manager)
    requires a != b
    ensures fresh(m) && fresh(m.heap) && fresh(m.heap.Members()) && m.Valid() && m.beats == map[][a := 1][b := 2]
    ensures a in m.entries && b in m.entries
    ensures |m.heap.items| == 2 && m.heap.items[0] == m.entries[a] && m.heap.items[1] == m.entries[b]
  {
    m := OneClient(a);
    m.NoneBeatLater(2);
    m.UpdateHeartbeat(b, 2);
  }

  method ThreeClients(a: string, b: string, c: string) returns (m: Manager)
    requires a != b && b != c && c != a
    ensures fresh(m) && fresh(m.heap) && fresh(m.heap.Members()) && m.Valid()
    ensures m.beats == map[][a := 1][b := 2][c := 3]
    ensures a in m.entries && b in m.entries && c in m.entries
    ensures |m.heap.items| == 3 && m.heap.items[1] == m.entries[b] && m.heap.items[2] == m.entries[c]
  {
    m := TwoClients(a, b);
    m.NoneBeatLater(3);
    m.UpdateHeartbeat(c, 3);
  }

  method SecondBeatsAgain(a: string, b: string, c: string) returns (m: Manager)
    requires a != b && b != c && c != a
    ensures fresh(m) && m.Valid() && m.beats == map[][a := 1][b := 2][c := 3][b := 9]
    ensures |m.heap.items| == 3 && m.heap.Times()[1] == 9 && m.heap.Times()[2] == 3
  {
    m := ThreeClients(a, b, c);
    m.NoneBeatLater(9);
    m.UpdateHeartbeat(b, 9);
    m.SlotTime(b, 1);
    m.SlotTime(c, 2);
  }

  /** Three clients appear in turn and the second of them beats again: the scan of GetTimeoutCount stops at it and
      counts one of the two that are overdue. */
  method ScanMissesOverdueClient(a: string, b: string, c: string) returns (m: Manager, count: nat)
    requires a != b && b != c && c != a
    ensures fresh(m) && m.Valid() && m.beats == map[a := 1, b := 9, c := 3]
    ensures OverdueIds(m.beats, 15 - 10) == {a, c} && count == 1
  {
    m := SecondBeatsAgain(a, b, c);
    ScanStopsEarly(a, b, c, m.beats, m.heap.Times());
    count := m.GetTimeoutCount(10, 15);
  }

  lemma ScanStopsEarly(a: string, b: string, c: string, beats: map<string, int>, ts: seq<int>)
    requires a != b && b != c && c != a
    requires beats == map[][a := 1][b := 2][c := 3][b := 9] && |ts| == 3 && ts[1] == 9 && ts[2] == 3
    ensures beats == map[a := 1, b := 9, c := 3]
    ensures OverdueIds(beats, 5) == {a, c} && |OverdueIds(beats, 5)| == 2 && !OverdueFirst(ts, 5)
  {
    assert OverdueIds(beats, 5) == {a, c};
    assert ts[2] < 5 && !(ts[1] < 5);
  }

  lemma RemovedIsBroken(ts: seq<int>, i: nat)
    requires i < |ts| - 1 && Ordered(ts, |ts|)
    ensures BrokenAt(Swapped(ts, i, |ts| - 1), |ts| - 1, i)
  {
  }

  lemma TouchedIsBroken(before: seq<int>, after: seq<int>, k: nat)
    requires k < |before| == |after| && Ordered(before, |before|)
    requires forall i :: 0 <= i < |before| && i != k ==> after[i] == before[i]
    ensures BrokenAt(after, |after|, k)
  {
  }

  lemma UpStep(ts: seq<int>, n: nat, j: nat)
    requires 0 < j < n <= |ts| && BrokenAbove(ts, n, j) && ts[j] < ts[Parent(j)]
    ensures BrokenAbove(Swapped(ts, Parent(j), j), n, Parent(j))
  {
  }

  lemma UpDone(ts: seq<int>, n: nat, j: nat)
    requires j < n <= |ts| && BrokenAbove(ts, n, j) && (j > 0 ==> ts[Parent(j)] <= ts[j])
    ensures Ordered(ts, n)
  {
  }

  lemma DownDone(ts: seq<int>, n: nat, i: nat)
    requires i <= n <= |ts| && BrokenAt(ts, n, i)
    requires forall k {:trigger Parent(k)} :: 0 < k < n && Parent(k) == i ==> ts[i] <= ts[k]
    ensures BrokenAbove(ts, n, i)
    ensures BrokenBelow(ts, n, i) ==> Ordered(ts, n)
  {
  }

  lemma DownStep(ts: seq<int>, n: nat, i: nat, j: nat)
    requires i < j < n <= |ts| && Parent(j) == i && BrokenAt(ts, n, i) && ts[j] < ts[i]
    requires forall k {:trigger Parent(k)} :: 0 < k < n && Parent(k) == i ==> ts[j] <= ts[k]
    ensures BrokenBelow(Swapped(ts, i, j), n, j)
  {
  }
}
