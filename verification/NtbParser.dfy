/**
  What the block parser computes (common/ntb.cpp), as functions of the received bytes: the header,
  one datagram pointer table, and the chain of tables. The class in TransferBlock.dfy, which
  keeps its place between calls, is proved against these functions.
 */
module NtbParser {

  import opened Common
  import opened Bytes
  import opened NtbFormat

  datatype Header = Header(blockLength: nat, ndpIndex: nat)

  datatype Table = Table(entries: seq<Entry>, next: nat)

  /** A received buffer: its memory and the length the driver was told. */
  predicate Readable(f: Format, b: seq<byte>, length: nat) {
    length + f.Slack() <= |b|
  }

  /** The header checks of PrepareToParse. */
  function ParseHeader(f: Format, b: seq<byte>, bufferLength: nat): (r: Option<Header>)
    requires bufferLength <= |b|
    ensures r.Some? ==> r.value.blockLength <= bufferLength && r.value.blockLength < f.PtrLimit()
  {
    if bufferLength < f.NthSize() || Field(b, 0, 4) != f.NthSignature() then
      None
    else
      var declared := Field(b, 8, f.PtrSize());
      FieldBound(f, b, 8);
      if Field(b, 4, 2) != f.NthSize() || declared > bufferLength then
        None
      else
        // a block that declares no length takes the buffer's, cast to the pointer width
        Some(Header(if declared > 0 then declared else f.Truncate(bufferLength),
                    Field(b, 8 + f.PtrSize(), f.PtrSize())))
  }

  lemma FieldBound(f: Format, b: seq<byte>, o: nat)
    requires o + f.PtrSize() <= |b|
    ensures Field(b, o, f.PtrSize()) < f.PtrLimit()
  {
    FromLeBound(Slice(b, o, f.PtrSize()));
    assert Pow256(2) == 0x1_0000;
    assert Pow256(4) == 256 * (256 * Pow256(2));
  }

  predicate IsNull(e: Entry) {
    e.index == 0 || e.length == 0
  }

  predicate InBlock(f: Format, blockLength: nat, e: Entry) {
    f.NthSize() <= e.index && e.index + e.length <= blockLength
  }

  function Slot(f: Format, b: seq<byte>, p: nat, k: nat): Entry
    requires p + f.NdpSize() + f.Slots(k) + f.DpeSize() <= |b|
  {
    EntryAt(f, b, p + f.NdpSize() + f.Slots(k))
  }

  /** The scan still reads slot k: it then lies in the table, or at most Slack bytes beyond. */
  predicate HasSlot(f: Format, tableLength: nat, k: nat): (r: bool)
    ensures r && tableLength % 4 == 0 ==>
      f.NdpSize() + f.Slots(k) + f.DpeSize() <= tableLength + f.Slack()
  {
    assert tableLength % 4 == 0 && f.NdpSize() + f.Slots(k) < tableLength ==>
      f.NdpSize() + f.Slots(k) + f.DpeSize() <= tableLength + f.Slack()
    by {
      Arithmetic.Euclid(tableLength, 4);
      SlotGap(f, tableLength / 4, k);
    }
    f.NdpSize() + f.Slots(k) < tableLength
  }

  /** Offsets and lengths that are multiples of 4 leave room for 4 bytes whenever they differ. */
  lemma SlotGap(f: Format, quads: nat, k: nat)
    ensures f.NdpSize() + f.Slots(k) < 4 * quads ==>
      f.NdpSize() + f.Slots(k) + f.DpeSize() <= 4 * quads + f.Slack()
  {
    var start := if f.Ntb16? then 2 + k else 4 + 2 * k;
    assert f.NdpSize() + f.Slots(k) == 4 * start;
    if start < quads {
      assert start + 1 <= quads;
    }
  }

  /** The entries from slot k of the table at p up to its first null entry; None if the scan rejects it. */
  function Scan(f: Format, b: seq<byte>, blockLength: nat, p: nat, tableLength: nat, k: nat): (r: Option<seq<Entry>>)
    requires Readable(f, b, blockLength) && p + tableLength <= blockLength && tableLength % 4 == 0
    ensures r.Some? ==> forall e <- r.value :: !IsNull(e) && InBlock(f, blockLength, e)
    ensures r.Some? ==> HasSlot(f, tableLength, k + |r.value|)
    decreases tableLength - f.Slots(k)
  {
    if !HasSlot(f, tableLength, k) then
      None
    else
      var e := Slot(f, b, p, k);
      if IsNull(e) then
        Some([])
      else if !InBlock(f, blockLength, e) then
        None
      else
        match Scan(f, b, blockLength, p, tableLength, k + 1)
        case None => None
        case Some(rest) => Some([e] + rest)
  }

  /** The entries at which the scan of a table ends. */
  predicate StopsScan(f: Format, blockLength: nat, e: Entry) {
    IsNull(e) || !InBlock(f, blockLength, e)
  }

  /** How many slots from slot k on the scan reads, whether it accepts the table or not. */
  function SlotsRead(f: Format, b: seq<byte>, blockLength: nat, p: nat, tableLength: nat, k: nat): (n: nat)
    requires Readable(f, b, blockLength) && p + tableLength <= blockLength && tableLength % 4 == 0
    ensures n > 0 ==> HasSlot(f, tableLength, k + n - 1)
    decreases tableLength - f.Slots(k)
  {
    if !HasSlot(f, tableLength, k) then 0
    else if StopsScan(f, blockLength, Slot(f, b, p, k)) then 1
    else 1 + SlotsRead(f, b, blockLength, p, tableLength, k + 1)
  }

  /**
    A scan that accepts has read one slot more than it found entries, the null one; a scan that rejects
    has read up to an entry outside the block, or all there is.
   */
  lemma {:induction false} ScanReads(f: Format, b: seq<byte>, blockLength: nat, p: nat, tableLength: nat, k: nat)
    requires Readable(f, b, blockLength) && p + tableLength <= blockLength && tableLength % 4 == 0
    ensures var n := SlotsRead(f, b, blockLength, p, tableLength, k);
            match Scan(f, b, blockLength, p, tableLength, k)
            case Some(es) => n == |es| + 1 && IsNull(Slot(f, b, p, k + n - 1))
            case None =>
              if n > 0 && StopsScan(f, blockLength, Slot(f, b, p, k + n - 1)) then
                !IsNull(Slot(f, b, p, k + n - 1))
              else
                !HasSlot(f, tableLength, k + n)
    decreases tableLength - f.Slots(k)
  {
    hide Slot;
    if HasSlot(f, tableLength, k) && !StopsScan(f, blockLength, Slot(f, b, p, k)) {
      ScanReads(f, b, blockLength, p, tableLength, k + 1);
    }
  }

  /** The checks GetNextNdp makes on a table's header. */
  predicate GoodTableHeader(f: Format, b: seq<byte>, blockLength: nat, p: nat)
    requires Readable(f, b, blockLength)
  {
    && f.NthSize() <= p && p + f.MinTableSize() <= blockLength
    && Field(b, p, 4) == f.NdpSignature()
    && (var length := Field(b, p + 4, 2);
        f.MinTableSize() <= length && length % 4 == 0 && p + length <= blockLength)
    && (var next := Field(b, p + f.NextNdpOffset(), f.PtrSize());
        next == 0 || (f.NthSize() <= next && next + f.MinTableSize() <= blockLength))
  }

  /** One datagram pointer table; None if it is rejected. */
  function ReadTable(f: Format, b: seq<byte>, blockLength: nat, p: nat): (r: Option<Table>)
    requires Readable(f, b, blockLength)
    ensures r.Some? ==> f.NthSize() <= p && p + f.MinTableSize() <= blockLength
    ensures r.Some? ==> forall e <- r.value.entries :: !IsNull(e) && InBlock(f, blockLength, e)
    ensures r.Some? ==> p + f.NdpSize() + f.Slots(|r.value.entries|) + f.DpeSize() <= |b|
  {
    if !GoodTableHeader(f, b, blockLength, p) then None
    else
      match Scan(f, b, blockLength, p, Field(b, p + 4, 2), 0)
      case None => None
      case Some(entries) => Some(Table(entries, Field(b, p + f.NextNdpOffset(), f.PtrSize())))
  }

  // ---------- The chain of tables ----------

  /** A chain stops at offset 0 (no more tables) and at a rejected table. */
  predicate Stops(f: Format, b: seq<byte>, blockLength: nat, p: nat)
    requires Readable(f, b, blockLength)
  {
    p == 0 || ReadTable(f, b, blockLength, p).None?
  }

  /** The offset reached from p after n tables, or where the chain stops before. */
  function At(f: Format, b: seq<byte>, blockLength: nat, p: nat, n: nat): nat
    requires Readable(f, b, blockLength)
    decreases n
  {
    if n == 0 || Stops(f, b, blockLength, p) then p
    else At(f, b, blockLength, ReadTable(f, b, blockLength, p).value.next, n - 1)
  }

  /** The chain from p stops within n tables. */
  predicate Ends(f: Format, b: seq<byte>, blockLength: nat, p: nat, n: nat)
    requires Readable(f, b, blockLength)
  {
    Stops(f, b, blockLength, At(f, b, blockLength, p, n))
  }

  /** The datagrams of the first n tables of the chain from p. */
  function Stream(f: Format, b: seq<byte>, blockLength: nat, p: nat, n: nat): (r: seq<Entry>)
    requires Readable(f, b, blockLength)
    ensures forall e <- r :: !IsNull(e) && InBlock(f, blockLength, e)
    decreases n
  {
    if n == 0 || Stops(f, b, blockLength, p) then []
    else
      var t := ReadTable(f, b, blockLength, p).value;
      t.entries + Stream(f, b, blockLength, t.next, n - 1)
  }

  /** Every table after the first has an entry. */
  ghost predicate LaterTablesFull(f: Format, b: seq<byte>, blockLength: nat, p: nat)
    requires Readable(f, b, blockLength)
  {
    forall n: nat :: n >= 1 ==> TableFull(f, b, blockLength, At(f, b, blockLength, p, n))
  }

  predicate TableFull(f: Format, b: seq<byte>, blockLength: nat, p: nat)
    requires Readable(f, b, blockLength)
  {
    Stops(f, b, blockLength, p) || ReadTable(f, b, blockLength, p).value.entries != []
  }

  /** The datagrams of a received buffer, in order. */
  function Datagrams(f: Format, b: seq<byte>, bufferLength: nat): (r: seq<Entry>)
    requires Readable(f, b, bufferLength)
    ensures forall e <- r :: e.length > 0 && f.NthSize() <= e.index && e.index + e.length <= bufferLength
  {
    match ParseHeader(f, b, bufferLength)
    case None => []
    case Some(h) => Stream(f, b, h.blockLength, h.ndpIndex, h.blockLength)
  }

  /** The bytes of the datagrams of a received buffer. */
  function Decode(f: Format, b: seq<byte>, bufferLength: nat): (r: seq<seq<byte>>)
    requires Readable(f, b, bufferLength)
    ensures |r| == |Datagrams(f, b, bufferLength)|
  {
    Payloads(b, Datagrams(f, b, bufferLength))
  }

  function Payloads(b: seq<byte>, es: seq<Entry>): (r: seq<seq<byte>>)
    requires forall e <- es :: e.index + e.length <= |b|
    ensures |r| == |es|
    ensures forall i :: 0 <= i < |es| ==> r[i] == Payload(b, es[i])
  {
    seq(|es|, i requires 0 <= i < |es| => Payload(b, es[i]))
  }

  /**
    A scan that accepts found its first null entry at a slot inside the table, and every slot before
    it holds an entry that is not null and lies in the block; and any such slot makes it accept.
   */
  lemma {:induction false} ScanIff(f: Format, b: seq<byte>, blockLength: nat, p: nat, tableLength: nat,
                                   k: nat, es: seq<Entry>)
    requires Readable(f, b, blockLength) && p + tableLength <= blockLength && tableLength % 4 == 0
    ensures Scan(f, b, blockLength, p, tableLength, k) == Some(es)
            <==> FirstNull(f, b, blockLength, p, tableLength, k, es)
    decreases |es|
  {
    hide Slot;
    hide IsNull;
    hide InBlock;
    if HasSlot(f, tableLength, k) {
      var e := Slot(f, b, p, k);
      if es != [] {
        var rest := es[1..];
        ScanIff(f, b, blockLength, p, tableLength, k + 1, rest);
        assert es == [es[0]] + rest;
        if FirstNull(f, b, blockLength, p, tableLength, k, es) {
          assert Slot(f, b, p, k + 0) == es[0];
          forall i | 0 <= i < |rest|
            ensures Slot(f, b, p, k + 1 + i) == rest[i]
          {
            assert Slot(f, b, p, k + (i + 1)) == es[i + 1];
          }
        }
        if FirstNull(f, b, blockLength, p, tableLength, k + 1, rest) && e == es[0] {
          forall i | 0 <= i < |es|
            ensures Slot(f, b, p, k + i) == es[i]
          {
            if i > 0 {
              assert Slot(f, b, p, k + 1 + (i - 1)) == rest[i - 1];
            }
          }
        }
      }
    }
  }

  ghost predicate FirstNull(f: Format, b: seq<byte>, blockLength: nat, p: nat, tableLength: nat,
                            k: nat, es: seq<Entry>)
    requires Readable(f, b, blockLength) && p + tableLength <= blockLength && tableLength % 4 == 0
  {
    && HasSlot(f, tableLength, k + |es|)
    && IsNull(Slot(f, b, p, k + |es|))
    && (forall i :: 0 <= i < |es| ==> Slot(f, b, p, k + i) == es[i])
    && (forall e <- es :: !IsNull(e) && InBlock(f, blockLength, e))
  }

  /** The entries of an accepted table are its leading slots. */
  lemma TableSlots(f: Format, b: seq<byte>, blockLength: nat, p: nat, i: nat)
    requires Readable(f, b, blockLength) && ReadTable(f, b, blockLength, p).Some?
    requires i < |ReadTable(f, b, blockLength, p).value.entries|
    ensures p + f.NdpSize() + f.Slots(i) + f.DpeSize() <= blockLength
    ensures Slot(f, b, p, i) == ReadTable(f, b, blockLength, p).value.entries[i]
  {
    var length := Field(b, p + 4, 2);
    var es := ReadTable(f, b, blockLength, p).value.entries;
    ScanIff(f, b, blockLength, p, length, 0, es);
    assert Slot(f, b, p, 0 + i) == es[i];
  }

  // ---------- Chains ----------

  lemma {:induction false} AtSplits(f: Format, b: seq<byte>, len: nat, p: nat, m: nat, n: nat)
    requires Readable(f, b, len)
    ensures At(f, b, len, p, m + n) == At(f, b, len, At(f, b, len, p, m), n)
    decreases m
  {
    hide ReadTable;
    if m > 0 && !Stops(f, b, len, p) {
      AtSplits(f, b, len, ReadTable(f, b, len, p).value.next, m - 1, n);
    }
  }

  /** Once a chain has stopped it stays there. */
  lemma EndsMonotone(f: Format, b: seq<byte>, len: nat, p: nat, m: nat, n: nat)
    requires Readable(f, b, len) && m <= n && Ends(f, b, len, p, m)
    ensures Ends(f, b, len, p, n) && At(f, b, len, p, n) == At(f, b, len, p, m)
  {
    AtSplits(f, b, len, p, m, n - m);
  }

  /** More tables than a chain has add no datagrams. */
  lemma {:induction false} StreamStable(f: Format, b: seq<byte>, len: nat, p: nat, m: nat, n: nat)
    requires Readable(f, b, len) && m <= n && Ends(f, b, len, p, m)
    ensures Stream(f, b, len, p, n) == Stream(f, b, len, p, m)
    decreases m
  {
    hide ReadTable;
    if !Stops(f, b, len, p) {
      StreamStable(f, b, len, ReadTable(f, b, len, p).value.next, m - 1, n - 1);
    }
  }

  /** The stream of a chain that ends: its first table's entries, then the stream of the rest. */
  lemma StreamUnrolls(f: Format, b: seq<byte>, len: nat, p: nat, n: nat)
    requires Readable(f, b, len) && Ends(f, b, len, p, n) && !Stops(f, b, len, p)
    ensures var t := ReadTable(f, b, len, p).value;
            && Ends(f, b, len, t.next, n)
            && Stream(f, b, len, p, n) == t.entries + Stream(f, b, len, t.next, n)
  {
    var next := ReadTable(f, b, len, p).value.next;
    EndsMonotone(f, b, len, next, n - 1, n);
    StreamStable(f, b, len, next, n - 1, n);
  }

  /** More numbers below a bound than the bound: two of them are equal. */
  lemma {:induction false} Pigeonhole(s: seq<nat>, bound: nat)
    requires |s| > bound && forall i :: 0 <= i < |s| ==> s[i] < bound
    ensures exists i, j :: 0 <= i < j < |s| && s[i] == s[j]
  {
    if forall i, j :: 0 <= i < j < |s| ==> s[i] != s[j] {
      DistinctCount(s);
      SubsetCount(Elements(s), Below(bound));
      assert false;
    }
  }

  function Elements(s: seq<nat>): (r: set<nat>)
    ensures forall x :: x in r <==> x in s
  {
    set x | x in s
  }

  function Below(bound: nat): (r: set<nat>)
    ensures |r| == bound && forall x: nat :: x in r <==> x < bound
  {
    if bound == 0 then {} else Below(bound - 1) + {bound - 1}
  }

  lemma {:induction false} DistinctCount(s: seq<nat>)
    requires forall i, j :: 0 <= i < j < |s| ==> s[i] != s[j]
    ensures |Elements(s)| == |s|
    decreases |s|
  {
    if s != [] {
      var last := |s| - 1;
      var front := s[..last];
      DistinctCount(front);
      assert s == front + [s[last]] && s[last] !in front;
      assert Elements(s) == Elements(front) + {s[last]};
    }
  }

  lemma {:induction false} SubsetCount(a: set<nat>, b: set<nat>)
    requires a <= b
    ensures |a| <= |b|
    decreases a
  {
    if a != {} {
      var x :| x in a;
      SubsetCount(a - {x}, b - {x});
    }
  }

  /**
    A chain ends if and only if it ends within as many tables as the block has bytes: otherwise it
    visits one table twice and goes round forever. So the bound used by Datagrams cuts no chain
    short, and checking that many tables decides whether a block can be parsed to its end.
   */
  lemma ChainEndsIff(f: Format, b: seq<byte>, len: nat, p: nat)
    requires Readable(f, b, len)
    ensures (exists n: nat :: Ends(f, b, len, p, n)) <==> Ends(f, b, len, p, len)
  {
    hide ReadTable;
    hide At;
    if !Ends(f, b, len, p, len) {
      var i, j := Repeats(f, b, len, p);
      forall n: nat
        ensures !Ends(f, b, len, p, n)
      {
        CycleNeverEnds(f, b, len, p, i, j, n);
      }
    }
  }

  /** A chain that does not end visits some table twice. */
  lemma Repeats(f: Format, b: seq<byte>, len: nat, p: nat) returns (i: nat, j: nat)
    requires Readable(f, b, len) && !Ends(f, b, len, p, len)
    ensures i < j <= len && At(f, b, len, p, i) == At(f, b, len, p, j)
  {
    hide ReadTable;
    hide At;
    var visited := seq(len + 1, (i: nat) requires Readable(f, b, len) => At(f, b, len, p, i));
    forall i: nat | i <= len
      ensures visited[i] < len
    {
      if Ends(f, b, len, p, i) {
        EndsMonotone(f, b, len, p, i, len);
      }
    }
    Pigeonhole(visited, len);
    i, j :| 0 <= i < j < |visited| && visited[i] == visited[j];
  }

  lemma {:induction false} CycleNeverEnds(f: Format, b: seq<byte>, len: nat, p: nat, i: nat, j: nat, n: nat)
    requires Readable(f, b, len) && i < j <= len
    requires At(f, b, len, p, i) == At(f, b, len, p, j) && !Ends(f, b, len, p, len)
    ensures !Ends(f, b, len, p, n)
    decreases n
  {
    hide Stops;
    if n <= len {
      if Ends(f, b, len, p, n) {
        EndsMonotone(f, b, len, p, n, len);
      }
    } else {
      AtSplits(f, b, len, p, j, n - j);
      AtSplits(f, b, len, p, i, n - j);
      CycleNeverEnds(f, b, len, p, i, j, i + (n - j));
    }
  }

  // ---------- The datagrams of a chain that goes round ----------

  predicate TableHas(f: Format, b: seq<byte>, len: nat, p: nat, e: Entry)
    requires Readable(f, b, len)
  {
    !Stops(f, b, len, p) && e in ReadTable(f, b, len, p).value.entries
  }

  /** A datagram of the first n tables is in one of them. */
  lemma {:induction false} TableOf(f: Format, b: seq<byte>, len: nat, p: nat, n: nat, e: Entry) returns (m: nat)
    requires Readable(f, b, len) && e in Stream(f, b, len, p, n)
    ensures m < n && TableHas(f, b, len, At(f, b, len, p, m), e)
    decreases n
  {
    hide ReadTable;
    if e in ReadTable(f, b, len, p).value.entries {
      m := 0;
    } else {
      m := TableOf(f, b, len, ReadTable(f, b, len, p).value.next, n - 1, e);
      m := m + 1;
    }
  }

  lemma {:induction false} StreamHas(f: Format, b: seq<byte>, len: nat, p: nat, n: nat, e: Entry, m: nat)
    requires Readable(f, b, len) && m < n && TableHas(f, b, len, At(f, b, len, p, m), e)
    ensures e in Stream(f, b, len, p, n)
    decreases m
  {
    hide ReadTable;
    if m > 0 && !Stops(f, b, len, p) {
      StreamHas(f, b, len, ReadTable(f, b, len, p).value.next, n - 1, e, m - 1);
    }
  }

  /** In a chain that comes back to where it was, every place is one of the first j. */
  lemma {:induction false} FoldsBack(f: Format, b: seq<byte>, len: nat, p: nat, i: nat, j: nat, m: nat) returns (k: nat)
    requires Readable(f, b, len) && i < j && At(f, b, len, p, i) == At(f, b, len, p, j)
    ensures k < j && At(f, b, len, p, k) == At(f, b, len, p, m)
    decreases m
  {
    hide At;
    if m < j {
      k := m;
    } else {
      AtSplits(f, b, len, p, j, m - j);
      AtSplits(f, b, len, p, i, m - j);
      k := FoldsBack(f, b, len, p, i, j, i + (m - j));
    }
  }

  /** However often a chain goes round, it has no datagrams but those of as many tables as the block has bytes. */
  lemma NothingNew(f: Format, b: seq<byte>, len: nat, p: nat, n: nat, e: Entry)
    requires Readable(f, b, len) && e in Stream(f, b, len, p, n)
    ensures e in Stream(f, b, len, p, len)
  {
    hide At;
    hide ReadTable;
    var m := TableOf(f, b, len, p, n, e);
    if m >= len {
      if Ends(f, b, len, p, len) {
        EndsMonotone(f, b, len, p, len, m);
        assert false;
      }
      var i, j := Repeats(f, b, len, p);
      m := FoldsBack(f, b, len, p, i, j, m);
    }
    StreamHas(f, b, len, p, len, e, m);
  }
}
