/**
  The parser's resumable state (common/ntb.cpp): where it stands between two calls, what one call
  does to it, and what any number of calls returns.
 */
module NtbCursor {

  import opened Common
  import opened Bytes
  import opened NtbFormat
  import opened NtbParser

  /** m_CurrentNdpIndex, m_NextNdpIndex, m_CurrentNdpDatagramIndex, m_CurrentNdpDatagramCount */
  datatype Cursor = Cursor(table: nat, next: nat, index: nat, count: nat)

  datatype Reply = Reply(status: Status, entry: Entry, cursor: Cursor)

  /** GetNextNdp */
  function NextNdp(f: Format, b: seq<byte>, len: nat, cur: Cursor): (r: (Status, Cursor))
    requires Readable(f, b, len)
  {
    if cur.next == 0 then
      (NoMoreEntries, cur)
    else
      match ReadTable(f, b, len, cur.next)
      case None => (BadData, cur.(index := 0, count := 0))
      case Some(t) => (Success, Cursor(cur.next, t.next, 0, |t.entries|))
  }

  /**
    What moving to the next table leaves behind: at the end of the chain everything as it was, at a rejected
    table an empty current table and the same successor, otherwise the start of the new table.
   */
  lemma NextNdpEffects(f: Format, b: seq<byte>, len: nat, cur: Cursor)
    requires Readable(f, b, len)
    ensures var (status, moved) := NextNdp(f, b, len, cur);
            && (cur.next == 0 ==> status == NoMoreEntries && moved == cur)
            && (cur.next != 0 && ReadTable(f, b, len, cur.next).None? ==>
                  && status == BadData && moved.index == 0 && moved.count == 0
                  && moved.table == cur.table && moved.next == cur.next)
            && (cur.next != 0 && ReadTable(f, b, len, cur.next).Some? ==>
                  && status == Success && moved.table == cur.next && moved.index == 0
                  && moved.next == ReadTable(f, b, len, cur.next).value.next
                  && moved.count == |ReadTable(f, b, len, cur.next).value.entries|)
  {
    hide ReadTable;
  }

  /** The state of a block parser between calls. */
  predicate Consistent(f: Format, b: seq<byte>, len: nat, cur: Cursor)
    requires Readable(f, b, len)
  {
    && cur.index <= cur.count
    && (cur.count > 0 ==>
          var t := ReadTable(f, b, len, cur.table);
          t.Some? && |t.value.entries| == cur.count)
  }

  /** The next call moves to another table, or the slot it is going to read lies in the memory. */
  predicate InMemory(f: Format, b: seq<byte>, cur: Cursor) {
    cur.index == cur.count || cur.table + f.NdpSize() + f.Slots(cur.index) + f.DpeSize() <= |b|
  }

  /** GetNextDatagram. After moving to a table it returns slot 0 without looking at the count. */
  function NextDatagram(f: Format, b: seq<byte>, len: nat, cur: Cursor): (r: Reply)
    requires Readable(f, b, len) && InMemory(f, b, cur)
  {
    if cur.index == cur.count then
      var (status, moved) := NextNdp(f, b, len, cur);
      if status != Success then
        Reply(status, NULL_ENTRY, moved)
      else
        assert moved.table + f.MinTableSize() <= len;
        Reply(Success, Slot(f, b, moved.table, 0), moved.(index := 1))
    else
      Reply(Success, Slot(f, b, cur.table, cur.index), cur.(index := cur.index + 1))
  }

  /** Entries of the current table that were not returned yet. */
  function Unread(f: Format, b: seq<byte>, len: nat, cur: Cursor): seq<Entry>
    requires Readable(f, b, len) && Consistent(f, b, len, cur)
  {
    if cur.count == 0 then [] else ReadTable(f, b, len, cur.table).value.entries[cur.index..]
  }

  /** What is still to come: the rest of the current table and the next n tables. */
  function Pending(f: Format, b: seq<byte>, len: nat, cur: Cursor, n: nat): (r: seq<Entry>)
    requires Readable(f, b, len) && Consistent(f, b, len, cur)
    ensures forall e <- r :: !IsNull(e) && InBlock(f, len, e)
  {
    Unread(f, b, len, cur) + Stream(f, b, len, cur.next, n)
  }

  /** The status a finished parser reports for ever: end of chain, or a rejected table. */
  function StopStatus(p: nat): Status {
    if p == 0 then NoMoreEntries else BadData
  }

  /** The tables still ahead are not empty. */
  ghost predicate Full(f: Format, b: seq<byte>, len: nat, p: nat)
    requires Readable(f, b, len)
  {
    TableFull(f, b, len, p) && LaterTablesFull(f, b, len, p)
  }

  lemma FullNext(f: Format, b: seq<byte>, len: nat, p: nat)
    requires Readable(f, b, len) && LaterTablesFull(f, b, len, p) && !Stops(f, b, len, p)
    ensures Full(f, b, len, ReadTable(f, b, len, p).value.next)
  {
    hide ReadTable;
    var next := ReadTable(f, b, len, p).value.next;
    assert At(f, b, len, next, 0) == At(f, b, len, p, 1);
    forall n: nat | n >= 1
      ensures TableFull(f, b, len, At(f, b, len, next, n))
    {
      assert At(f, b, len, next, n) == At(f, b, len, p, n + 1);
    }
  }

  /** A call inside a table returns the next unread entry. */
  lemma CallWithinTable(f: Format, b: seq<byte>, len: nat, cur: Cursor, n: nat)
    requires Readable(f, b, len) && Consistent(f, b, len, cur) && cur.index < cur.count
    ensures var r := NextDatagram(f, b, len, cur);
            && r.status == Success
            && Consistent(f, b, len, r.cursor)
            && Pending(f, b, len, cur, n) == [r.entry] + Pending(f, b, len, r.cursor, n)
  {
    hide ReadTable;
    TableSlots(f, b, len, cur.table, cur.index);
    var es := ReadTable(f, b, len, cur.table).value.entries;
    assert es[cur.index..] == [es[cur.index]] + es[cur.index + 1..];
  }

  /** A call at the end of a table moves on to the next table, or stops. */
  lemma CallAcrossTables(f: Format, b: seq<byte>, len: nat, cur: Cursor, n: nat)
    requires Readable(f, b, len) && Consistent(f, b, len, cur) && cur.index == cur.count
    requires TableFull(f, b, len, cur.next)
    ensures var r := NextDatagram(f, b, len, cur);
            && Consistent(f, b, len, r.cursor)
            && if Stops(f, b, len, cur.next) then
                 && r.status == StopStatus(cur.next) && r.cursor.next == cur.next
                 && r.cursor.index == r.cursor.count
                 && Pending(f, b, len, cur, n) == []
               else
                 && r.status == Success
                 && r.cursor.next == ReadTable(f, b, len, cur.next).value.next
                 && Pending(f, b, len, cur, n + 1) == [r.entry] + Pending(f, b, len, r.cursor, n)
  {
    hide ReadTable;
    hide Slot;
    if !Stops(f, b, len, cur.next) {
      TableSlots(f, b, len, cur.next, 0);
      var es := ReadTable(f, b, len, cur.next).value.entries;
      assert es == [es[0]] + es[1..];
    }
  }

  /**
    Every slice a call returns is non-empty and lies between the header and the end of the block if
    and only if the call did not just move to an empty table: then the slice is the terminator
    itself, which is empty or starts at offset 0.
   */
  lemma ReturnedSliceValidIff(f: Format, b: seq<byte>, len: nat, cur: Cursor)
    requires Readable(f, b, len) && Consistent(f, b, len, cur)
    requires NextDatagram(f, b, len, cur).status == Success
    ensures (var e := NextDatagram(f, b, len, cur).entry; !IsNull(e) && InBlock(f, len, e))
            <==> (cur.index < cur.count || TableFull(f, b, len, cur.next))
  {
    if cur.index < cur.count {
      TableSlots(f, b, len, cur.table, cur.index);
      var es := ReadTable(f, b, len, cur.table).value.entries;
      assert es[cur.index] in es;
    } else {
      var es := ReadTable(f, b, len, cur.next).value.entries;
      if es != [] {
        TableSlots(f, b, len, cur.next, 0);
        assert es[0] in es;
      } else {
        EmptyTableStartsWithNull(f, b, len, cur.next);
      }
    }
  }

  lemma EmptyTableStartsWithNull(f: Format, b: seq<byte>, len: nat, p: nat)
    requires Readable(f, b, len) && ReadTable(f, b, len, p).Some?
    requires ReadTable(f, b, len, p).value.entries == []
    ensures p + f.MinTableSize() <= len && IsNull(Slot(f, b, p, 0))
  {
    ScanIff(f, b, len, p, Field(b, p + 4, 2), 0, []);
  }

  // ---------- Any number of calls ----------

  /** The state after k calls, whatever they returned; None when one of them would leave the memory. */
  function Calls(f: Format, b: seq<byte>, len: nat, cur: Cursor, k: nat): Option<Cursor>
    requires Readable(f, b, len)
    decreases k
  {
    if k == 0 then Some(cur)
    else if !InMemory(f, b, cur) then None
    else Calls(f, b, len, NextDatagram(f, b, len, cur).cursor, k - 1)
  }

  /** With no empty table ahead, every call is made from a consistent state. */
  ghost function After(f: Format, b: seq<byte>, len: nat, cur: Cursor, k: nat): (r: Cursor)
    requires Readable(f, b, len) && Consistent(f, b, len, cur) && Full(f, b, len, cur.next)
    ensures Consistent(f, b, len, r) && Full(f, b, len, r.next)
    ensures Calls(f, b, len, cur, k) == Some(r)
    decreases k
  {
    if k == 0 then cur
    else
      CallKeepsState(f, b, len, cur);
      After(f, b, len, NextDatagram(f, b, len, cur).cursor, k - 1)
  }

  lemma CallKeepsState(f: Format, b: seq<byte>, len: nat, cur: Cursor)
    requires Readable(f, b, len) && Consistent(f, b, len, cur) && Full(f, b, len, cur.next)
    ensures var r := NextDatagram(f, b, len, cur).cursor;
            Consistent(f, b, len, r) && Full(f, b, len, r.next)
  {
    if cur.index < cur.count {
      CallWithinTable(f, b, len, cur, 0);
    } else {
      CallAcrossTables(f, b, len, cur, 0);
      if !Stops(f, b, len, cur.next) {
        FullNext(f, b, len, cur.next);
      }
    }
  }

  /** Later tables only add to the stream; once tables run out it does not grow any more. */
  lemma {:induction false} StreamGrows(f: Format, b: seq<byte>, len: nat, p: nat, n: nat)
    requires Readable(f, b, len) && Full(f, b, len, p)
    ensures Stream(f, b, len, p, n) <= Stream(f, b, len, p, n + 1)
    ensures |Stream(f, b, len, p, n)| < n ==>
              Stream(f, b, len, p, n) == Stream(f, b, len, p, n + 1) && Ends(f, b, len, p, n)
    decreases n
  {
    hide ReadTable;
    if n > 0 && !Stops(f, b, len, p) {
      FullNext(f, b, len, p);
      StreamGrows(f, b, len, ReadTable(f, b, len, p).value.next, n - 1);
    }
  }

  /** Call number k returns what the chain says it should. */
  ghost predicate CallFollows(f: Format, b: seq<byte>, len: nat, cur: Cursor, k: nat)
    requires Readable(f, b, len) && Consistent(f, b, len, cur) && Full(f, b, len, cur.next)
  {
    var r := NextDatagram(f, b, len, After(f, b, len, cur, k));
    var all := Pending(f, b, len, cur, k + 1);
    if k < |all| then
      r.status == Success && r.entry == all[k]
    else
      Ends(f, b, len, cur.next, k + 1) && r.status == StopStatus(At(f, b, len, cur.next, k + 1))
  }

  lemma FollowsWithinTable(f: Format, b: seq<byte>, len: nat, cur: Cursor, k: nat)
    requires Readable(f, b, len) && Consistent(f, b, len, cur) && Full(f, b, len, cur.next)
    requires cur.index < cur.count
    requires var r := NextDatagram(f, b, len, cur).cursor;
             && Consistent(f, b, len, r) && Full(f, b, len, r.next)
             && (k > 0 ==> CallFollows(f, b, len, r, k - 1))
    ensures CallFollows(f, b, len, cur, k)
  {
    hide ReadTable;
    hide Full;
    hide Slot;
    hide Stream;
    hide Unread;
    var first := NextDatagram(f, b, len, cur);
    CallWithinTable(f, b, len, cur, k + 1);
    if k > 0 {
      StreamGrows(f, b, len, cur.next, k);
      if k >= |Pending(f, b, len, cur, k + 1)| {
        EndsMonotone(f, b, len, cur.next, k, k + 1);
      } else {
        assert Pending(f, b, len, first.cursor, k) <= Pending(f, b, len, first.cursor, k + 1);
      }
    }
  }

  lemma FollowsWhenStopped(f: Format, b: seq<byte>, len: nat, cur: Cursor, k: nat)
    requires Readable(f, b, len) && Consistent(f, b, len, cur) && Full(f, b, len, cur.next)
    requires cur.index == cur.count && Stops(f, b, len, cur.next)
    requires var r := NextDatagram(f, b, len, cur).cursor;
             && Consistent(f, b, len, r) && Full(f, b, len, r.next)
             && (k > 0 ==> CallFollows(f, b, len, r, k - 1))
    ensures CallFollows(f, b, len, cur, k)
  {
    hide ReadTable;
    hide Full;
    CallAcrossTables(f, b, len, cur, k + 1);
    if k > 0 {
      CallAcrossTables(f, b, len, NextDatagram(f, b, len, cur).cursor, k);
    }
  }

  lemma FollowsAcrossTables(f: Format, b: seq<byte>, len: nat, cur: Cursor, k: nat)
    requires Readable(f, b, len) && Consistent(f, b, len, cur) && Full(f, b, len, cur.next)
    requires cur.index == cur.count && !Stops(f, b, len, cur.next)
    requires var r := NextDatagram(f, b, len, cur).cursor;
             && Consistent(f, b, len, r) && Full(f, b, len, r.next)
             && (k > 0 ==> CallFollows(f, b, len, r, k - 1))
    ensures CallFollows(f, b, len, cur, k)
  {
    hide ReadTable;
    hide Full;
    CallAcrossTables(f, b, len, cur, k);
  }

  /**
    The parser refines the recursive reading of the chain, over any number of calls and also for
    chains that go round: call number k returns datagram k of the chain if there is one, and
    otherwise fails with the status of the place where the chain stops.
   */
  lemma {:induction false} CallsFollowStream(f: Format, b: seq<byte>, len: nat, cur: Cursor, k: nat)
    requires Readable(f, b, len) && Consistent(f, b, len, cur) && Full(f, b, len, cur.next)
    ensures CallFollows(f, b, len, cur, k)
    decreases k
  {
    hide CallFollows;
    hide NextDatagram;
    CallKeepsState(f, b, len, cur);
    if k > 0 {
      CallsFollowStream(f, b, len, NextDatagram(f, b, len, cur).cursor, k - 1);
    }
    if cur.index < cur.count {
      FollowsWithinTable(f, b, len, cur, k);
    } else if Stops(f, b, len, cur.next) {
      FollowsWhenStopped(f, b, len, cur, k);
    } else {
      FollowsAcrossTables(f, b, len, cur, k);
    }
  }

  /** Once a call has failed, every later call fails with the same status. */
  lemma FailureIsFinal(f: Format, b: seq<byte>, len: nat, cur: Cursor, k: nat, j: nat)
    requires Readable(f, b, len) && Consistent(f, b, len, cur) && Full(f, b, len, cur.next)
    requires k <= j && NextDatagram(f, b, len, After(f, b, len, cur, k)).status != Success
    ensures NextDatagram(f, b, len, After(f, b, len, cur, j)).status
            == NextDatagram(f, b, len, After(f, b, len, cur, k)).status
  {
    hide NextDatagram;
    hide ReadTable;
    hide Stream;
    CallsFollowStream(f, b, len, cur, k);
    CallsFollowStream(f, b, len, cur, j);
    EndsMonotone(f, b, len, cur.next, k + 1, j + 1);
    StreamStable(f, b, len, cur.next, k + 1, j + 1);
  }

  // ---------- Empty tables ----------

  /** A call that succeeds keeps the entry index within the count if and only if it does not enter an empty table. */
  lemma CountKeptIff(f: Format, b: seq<byte>, len: nat, cur: Cursor)
    requires Readable(f, b, len) && Consistent(f, b, len, cur)
    requires NextDatagram(f, b, len, cur).status == Success
    ensures Consistent(f, b, len, NextDatagram(f, b, len, cur).cursor)
            <==> (cur.index < cur.count || TableFull(f, b, len, cur.next))
  {
  }

  /** After k calls, all of them inside the memory, the entry index is within the count. */
  predicate Bounded(f: Format, b: seq<byte>, len: nat, cur: Cursor, k: nat)
    requires Readable(f, b, len)
  {
    var c := Calls(f, b, len, cur, k);
    c.Some? && c.value.index <= c.value.count
  }

  /**
    Over any number of calls the entry index stays within the count if and only if no table still ahead
    is empty.
   */
  lemma AlwaysBoundedIff(f: Format, b: seq<byte>, len: nat, cur: Cursor)
    requires Readable(f, b, len) && Consistent(f, b, len, cur)
    ensures (forall k: nat :: Bounded(f, b, len, cur, k)) <==> Full(f, b, len, cur.next)
  {
    hide ReadTable;
    hide NextDatagram;
    if Full(f, b, len, cur.next) {
      forall k: nat
        ensures Bounded(f, b, len, cur, k)
      {
        var _ := After(f, b, len, cur, k);
      }
    } else {
      var n: nat :| !TableFull(f, b, len, At(f, b, len, cur.next, n));
      var k := MeetsEmptyTable(f, b, len, cur, n);
      assert !Bounded(f, b, len, cur, k);
    }
  }

  /** When the chain has an empty table, the calls get to it. */
  lemma {:induction false} MeetsEmptyTable(f: Format, b: seq<byte>, len: nat, cur: Cursor, n: nat) returns (k: nat)
    requires Readable(f, b, len) && Consistent(f, b, len, cur)
    requires !TableFull(f, b, len, At(f, b, len, cur.next, n))
    ensures var c := Calls(f, b, len, cur, k);
            c.Some? && c.value.index == 1 && c.value.count == 0
    decreases n, cur.count - cur.index
  {
    hide ReadTable;
    hide Calls;
    hide Pending;
    var next := NextDatagram(f, b, len, cur).cursor;
    if cur.index < cur.count {
      CallWithinTable(f, b, len, cur, 0);
      k := MeetsEmptyTable(f, b, len, next, n);
    } else if !TableFull(f, b, len, cur.next) {
      k := 0;
      FirstCall(f, b, len, next, 0);
    } else {
      CallAcrossTables(f, b, len, cur, 0);
      k := MeetsEmptyTable(f, b, len, next, n - 1);
    }
    FirstCall(f, b, len, cur, k + 1);
    k := k + 1;
  }

  lemma FirstCall(f: Format, b: seq<byte>, len: nat, cur: Cursor, k: nat)
    requires Readable(f, b, len) && InMemory(f, b, cur)
    ensures Calls(f, b, len, cur, 0) == Some(cur)
    ensures k > 0 ==> Calls(f, b, len, cur, k) == Calls(f, b, len, NextDatagram(f, b, len, cur).cursor, k - 1)
  {
  }

  /**
    Past the count a parser never finds the end of the chain: call after call succeeds and returns the
    next bytes behind the table as if they were a datagram pointer, until the memory ends.
   */
  lemma {:induction false} PastTheCount(f: Format, b: seq<byte>, len: nat, cur: Cursor, k: nat)
    requires Readable(f, b, len) && cur.index > cur.count
    ensures var o := cur.table + f.NdpSize() + f.Slots(cur.index + k);
            var c := Calls(f, b, len, cur, k + 1);
            if o + f.DpeSize() <= |b| then
              && c == Some(cur.(index := cur.index + k + 1))
              && Calls(f, b, len, cur, k) == Some(cur.(index := cur.index + k))
              && NextDatagram(f, b, len, cur.(index := cur.index + k))
                 == Reply(Success, EntryAt(f, b, o), cur.(index := cur.index + k + 1))
            else c == None
    decreases k
  {
    hide EntryAt;
    if k > 0 && InMemory(f, b, cur) {
      PastTheCount(f, b, len, cur.(index := cur.index + 1), k - 1);
    }
  }
}
