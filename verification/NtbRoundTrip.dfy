/**
  Builder and parser together: a finished block decodes to the packets that were copied into it,
  whatever the buffer held before, whatever follows the block in the receiver's buffer.
 */
module NtbRoundTrip {

  import opened Common
  import opened Bits
  import opened Bytes
  import opened NtbFormat
  import opened NtbBuilder
  import opened NtbParser
  import opened NtbCursor

  function NdpOffset(c: Config, st: Build): nat
    requires c.Valid()
  {
    AlignUpBy(st.offset, c.ndpAlignment)
  }

  /** Neither the block length nor the table length is truncated by the casts of SetNdp. */
  predicate FieldsFit(c: Config, st: Build)
    requires c.Valid()
  {
    && FinishedSize(c, st) < c.format.PtrLimit()
    && c.format.NdpSize() + c.format.Slots(|st.spans| + 1) < 0x1_0000
  }

  /** The transfer is the whole finished block if and only if neither length field was truncated. */
  lemma TransferWholeIff(c: Config, st: Build)
    requires c.Valid()
    ensures TransferLength(c, st) == FinishedSize(c, st) <==> FieldsFit(c, st)
  {
    hide AlignUpBy;
  }

  /** What SetNdp leaves in the buffer: header, table header, table, and the datagrams untouched. */
  ghost predicate IsFinished(c: Config, st: Build, sequence: nat, b: seq<byte>)
    requires c.Valid()
  {
    var f, n, ndp := c.format, |st.spans|, NdpOffset(c, st);
    && f.NthSize() <= ndp
    && FinishedSize(c, st) <= |b|
    && Slice(b, 0, f.NthSize()) == f.NthBytes(sequence, TransferLength(c, st), f.Truncate(ndp))
    && Slice(b, ndp, 4) == ToLe(f.NdpSignature(), 4)
    && Slice(b, ndp + 4, 2) == ToLe(TableLengthField(c, n), 2)
    && Slice(b, ndp + f.NextNdpOffset(), f.PtrSize()) == ToLe(0, f.PtrSize())
    && Slice(b, ndp + f.NdpSize(), f.Slots(n + 1)) == f.TableBytes(StoredAll(f, st.spans) + [NULL_ENTRY])
  }

  lemma FinishWrites(c: Config, st: Build, sequence: nat)
    requires c.Valid() && FinishedSize(c, st) <= |st.bytes| && c.format.NthSize() <= st.offset
    ensures IsFinished(c, st, sequence, Finish(c, st, sequence))
  {
    hide Put;
    hide Slice;
    hide ToLe;
    hide AlignUpBy;
    var f, n, ndp := c.format, |st.spans|, NdpOffset(c, st);
    var table := f.TableBytes(StoredAll(f, st.spans) + [NULL_ENTRY]);
    var sig, len, next := ToLe(f.NdpSignature(), 4), ToLe(TableLengthField(c, n), 2), ToLe(0, f.PtrSize());
    var nth := f.NthBytes(sequence, TransferLength(c, st), f.Truncate(ndp));
    var b1 := Put(st.bytes, ndp, sig);
    var b2 := Put(b1, ndp + 4, len);
    var b3 := Put(b2, ndp + f.NextNdpOffset(), next);
    var b4 := Put(b3, ndp + f.NdpSize(), table);
    SlicePutSame(st.bytes, ndp, sig);
    SlicePutApart(b1, ndp + 4, len, ndp, 4);
    SlicePutApart(b2, ndp + f.NextNdpOffset(), next, ndp, 4);
    SlicePutApart(b3, ndp + f.NdpSize(), table, ndp, 4);
    SlicePutApart(b4, 0, nth, ndp, 4);
    SlicePutSame(b1, ndp + 4, len);
    SlicePutApart(b2, ndp + f.NextNdpOffset(), next, ndp + 4, 2);
    SlicePutApart(b3, ndp + f.NdpSize(), table, ndp + 4, 2);
    SlicePutApart(b4, 0, nth, ndp + 4, 2);
    SlicePutSame(b2, ndp + f.NextNdpOffset(), next);
    SlicePutApart(b3, ndp + f.NdpSize(), table, ndp + f.NextNdpOffset(), f.PtrSize());
    SlicePutApart(b4, 0, nth, ndp + f.NextNdpOffset(), f.PtrSize());
    SlicePutSame(b3, ndp + f.NdpSize(), table);
    SlicePutApart(b4, 0, nth, ndp + f.NdpSize(), f.Slots(n + 1));
    SlicePutSame(b4, 0, nth);
  }

  /** SetNdp keeps the bytes of every datagram. */
  lemma FinishKeepsDatagrams(c: Config, st: Build, packets: seq<seq<byte>>, sequence: nat, i: nat)
    requires c.Valid() && Holds(c, st, packets) && FinishedSize(c, st) <= |st.bytes| && i < |packets|
    ensures SpanHolds(c, st, packets, i)
    ensures st.spans[i].index + st.spans[i].length <= NdpOffset(c, st)
    ensures Payload(Finish(c, st, sequence), st.spans[i]) == packets[i]
  {
    hide Put;
    hide Slice;
    hide ToLe;
    hide AlignUpBy;
    assert SpanHolds(c, st, packets, i);
    var f, n, ndp, e := c.format, |st.spans|, NdpOffset(c, st), st.spans[i];
    var table := f.TableBytes(StoredAll(f, st.spans) + [NULL_ENTRY]);
    var sig, len, next := ToLe(f.NdpSignature(), 4), ToLe(TableLengthField(c, n), 2), ToLe(0, f.PtrSize());
    var b1 := Put(st.bytes, ndp, sig);
    var b2 := Put(b1, ndp + 4, len);
    var b3 := Put(b2, ndp + f.NextNdpOffset(), next);
    var b4 := Put(b3, ndp + f.NdpSize(), table);
    SlicePutApart(st.bytes, ndp, sig, e.index, e.length);
    SlicePutApart(b1, ndp + 4, len, e.index, e.length);
    SlicePutApart(b2, ndp + f.NextNdpOffset(), next, e.index, e.length);
    SlicePutApart(b3, ndp + f.NdpSize(), table, e.index, e.length);
    SlicePutApart(b4, 0, f.NthBytes(sequence, TransferLength(c, st), f.Truncate(ndp)), e.index, e.length);
  }

  ghost predicate AllNonEmpty(packets: seq<seq<byte>>) {
    forall p <- packets :: p != []
  }

  /** The receiver's memory starts with total bytes of the block. */
  ghost predicate Shares(block: seq<byte>, m: seq<byte>, total: nat) {
    total <= |block| && total <= |m| && m[..total] == block[..total]
  }

  lemma SharedSlice(block: seq<byte>, m: seq<byte>, total: nat, o: nat, n: nat)
    requires Shares(block, m, total) && o + n <= total
    ensures Slice(m, o, n) == Slice(block, o, n)
  {
    forall i | 0 <= i < n
      ensures Slice(m, o, n)[i] == Slice(block, o, n)[i]
    {
      assert m[..total][o + i] == block[..total][o + i];
    }
  }

  lemma SharedField(block: seq<byte>, m: seq<byte>, total: nat, o: nat, n: nat, v: nat)
    requires Shares(block, m, total) && o + n <= total
    requires (n == 2 && v < 0x1_0000) || (n == 4 && v < 0x1_0000_0000)
    requires Slice(block, o, n) == ToLe(v, n)
    ensures Field(m, o, n) == v
  {
    hide FromLe;
    hide Slice;
    hide ToLe;
    SharedSlice(block, m, total, o, n);
    FieldReadsBack(v, n);
  }

  /** A receiver's memory that starts with the finished block. */
  ghost predicate Carries(c: Config, st: Build, block: seq<byte>, m: seq<byte>, length: nat)
    requires c.Valid()
  {
    FinishedSize(c, st) <= length && Readable(c.format, m, length) && Shares(block, m, FinishedSize(c, st))
  }

  lemma HeaderParses(c: Config, st: Build, sequence: nat, b: seq<byte>, m: seq<byte>, length: nat)
    requires c.Valid() && FieldsFit(c, st) && IsFinished(c, st, sequence, b) && Carries(c, st, b, m, length)
    ensures ParseHeader(c.format, m, length) == Some(Header(FinishedSize(c, st), NdpOffset(c, st)))
  {
    hide FromLe;
    hide Slice;
    hide ToLe;
    hide AlignUpBy;
    var f := c.format;
    SharedSlice(b, m, FinishedSize(c, st), 0, f.NthSize());
    NthReadsBack(f, m, sequence, TransferLength(c, st), f.Truncate(NdpOffset(c, st)));
  }

  /** Slot i of the finished table, as a receiver reads it who has got that far. */
  lemma SlotParses(c: Config, st: Build, sequence: nat, b: seq<byte>, m: seq<byte>, total: nat, i: nat)
    requires c.Valid() && IsFinished(c, st, sequence, b) && Shares(b, m, total) && i <= |st.spans|
    requires NdpOffset(c, st) + c.format.NdpSize() + c.format.Slots(i) + c.format.DpeSize() <= total
    ensures Slot(c.format, m, NdpOffset(c, st), i)
            == if i < |st.spans| then c.format.Stored(st.spans[i]) else NULL_ENTRY
  {
    hide Slice;
    hide Format.TableBytes;
    hide AlignUpBy;
    var f, n, o := c.format, |st.spans|, NdpOffset(c, st) + c.format.NdpSize();
    var es := StoredAll(f, st.spans) + [NULL_ENTRY];
    TableSlice(f, es, i);
    SliceOfSlice(b, o, f.Slots(n + 1), f.Slots(i), f.DpeSize());
    SharedSlice(b, m, total, o + f.Slots(i), f.DpeSize());
    EntryReadsBack(f, m, o + f.Slots(i), es[i]);
  }

  lemma TableHeaderParses(c: Config, st: Build, sequence: nat, b: seq<byte>, m: seq<byte>, length: nat)
    requires c.Valid() && FieldsFit(c, st) && IsFinished(c, st, sequence, b) && Carries(c, st, b, m, length)
    ensures Field(m, NdpOffset(c, st), 4) == c.format.NdpSignature()
    ensures Field(m, NdpOffset(c, st) + 4, 2) == c.format.NdpSize() + c.format.Slots(|st.spans| + 1)
    ensures Field(m, NdpOffset(c, st) + c.format.NextNdpOffset(), c.format.PtrSize()) == 0
  {
    hide FromLe;
    hide Slice;
    hide ToLe;
    hide AlignUpBy;
    var f, n, ndp := c.format, |st.spans|, NdpOffset(c, st);
    SharedField(b, m, FinishedSize(c, st), ndp, 4, f.NdpSignature());
    SharedField(b, m, FinishedSize(c, st), ndp + 4, 2, TableLengthField(c, n));
    SharedField(b, m, FinishedSize(c, st), ndp + f.NextNdpOffset(), f.PtrSize(), 0);
  }

  lemma TableSizeAligned(f: Format, n: nat)
    ensures (f.NdpSize() + f.Slots(n)) % 4 == 0
  {
    Arithmetic.DivModUnique(f.NdpSize() + f.Slots(n), 4, if f.Ntb16? then 2 + n else 4 + 2 * n, 0);
  }

  lemma TableScans(c: Config, st: Build, packets: seq<seq<byte>>, sequence: nat, b: seq<byte>,
                   m: seq<byte>, length: nat)
    requires c.Valid() && Holds(c, st, packets) && AllNonEmpty(packets)
    requires FieldsFit(c, st) && IsFinished(c, st, sequence, b) && Carries(c, st, b, m, length)
    requires (c.format.NdpSize() + c.format.Slots(|st.spans| + 1)) % 4 == 0
    ensures Scan(c.format, m, FinishedSize(c, st), NdpOffset(c, st),
                 c.format.NdpSize() + c.format.Slots(|st.spans| + 1), 0) == Some(st.spans)
  {
    hide AlignUpBy;
    hide Scan;
    hide EntryAt;
    var f, n, ndp, total := c.format, |st.spans|, NdpOffset(c, st), FinishedSize(c, st);
    forall i | 0 <= i < n
      ensures Slot(f, m, ndp, 0 + i) == st.spans[i] && !IsNull(st.spans[i]) && InBlock(f, total, st.spans[i])
    {
      SlotParses(c, st, sequence, b, m, total, i);
      assert SpanHolds(c, st, packets, i);
      assert packets[i] in packets;
    }
    SlotParses(c, st, sequence, b, m, total, n);
    ScanIff(f, m, total, ndp, f.NdpSize() + f.Slots(n + 1), 0, st.spans);
  }

  lemma TableParses(c: Config, st: Build, packets: seq<seq<byte>>, sequence: nat, b: seq<byte>,
                    m: seq<byte>, length: nat)
    requires c.Valid() && Holds(c, st, packets) && packets != [] && AllNonEmpty(packets)
    requires FieldsFit(c, st) && IsFinished(c, st, sequence, b) && Carries(c, st, b, m, length)
    ensures ReadTable(c.format, m, FinishedSize(c, st), NdpOffset(c, st)) == Some(Table(st.spans, 0))
  {
    hide Field;
    hide Scan;
    TableHeaderParses(c, st, sequence, b, m, length);
    TableSizeAligned(c.format, |st.spans| + 1);
    TableScans(c, st, packets, sequence, b, m, length);
  }

  /**
    Round trip, both widths: for any initial buffer contents, any non-empty run of accepted
    non-empty packets, and any bytes after the block, decoding the finished block gives exactly the
    packets, in order. The table chain has one table, so the parser then reports no more entries.
   */
  lemma RoundTrip(c: Config, st: Build, packets: seq<seq<byte>>, sequence: nat, m: seq<byte>, length: nat)
    requires c.Valid() && Holds(c, st, packets) && packets != [] && AllNonEmpty(packets)
    requires FieldsFit(c, st) && FinishedSize(c, st) <= |st.bytes|
    requires Carries(c, st, Finish(c, st, sequence), m, length)
    ensures ParseHeader(c.format, m, length) == Some(Header(FinishedSize(c, st), NdpOffset(c, st)))
    ensures ReadTable(c.format, m, FinishedSize(c, st), NdpOffset(c, st)) == Some(Table(st.spans, 0))
    ensures Decode(c.format, m, length) == packets
  {
    hide Finish;
    hide ReadTable;
    hide ParseHeader;
    var b := Finish(c, st, sequence);
    FinishWrites(c, st, sequence);
    HeaderParses(c, st, sequence, b, m, length);
    TableParses(c, st, packets, sequence, b, m, length);
    OneTableStream(c.format, m, FinishedSize(c, st), NdpOffset(c, st), st.spans);
    forall i | 0 <= i < |packets|
      ensures st.spans[i].index + st.spans[i].length <= |m| && Payload(m, st.spans[i]) == packets[i]
    {
      FinishKeepsDatagrams(c, st, packets, sequence, i);
      SharedSlice(b, m, FinishedSize(c, st), st.spans[i].index, st.spans[i].length);
    }
  }

  /** A chain of one table. */
  lemma OneTableStream(f: Format, m: seq<byte>, len: nat, p: nat, es: seq<Entry>)
    requires Readable(f, m, len) && len > 0 && p != 0
    requires ReadTable(f, m, len, p) == Some(Table(es, 0))
    ensures Stream(f, m, len, p, len) == es && Ends(f, m, len, p, 1) && LaterTablesFull(f, m, len, p)
  {
    hide ReadTable;
    assert Stops(f, m, len, 0);
    forall n: nat | n >= 1
      ensures At(f, m, len, p, n) == 0
    {
      assert At(f, m, len, 0, n - 1) == 0;
    }
    assert Stream(f, m, len, 0, len - 1) == [];
    assert es + [] == es;
  }

  /**
    The same, call by call: the parser opens the finished block, its k-th call returns the k-th packet,
    and every call after the last packet reports that there are no more entries.
   */
  lemma ParserReturnsPackets(c: Config, st: Build, packets: seq<seq<byte>>, sequence: nat,
                             m: seq<byte>, length: nat, k: nat)
    requires c.Valid() && Holds(c, st, packets) && packets != [] && AllNonEmpty(packets)
    requires FieldsFit(c, st) && FinishedSize(c, st) <= |st.bytes|
    requires Carries(c, st, Finish(c, st, sequence), m, length)
    ensures var (status, cur) := NextNdp(c.format, m, FinishedSize(c, st), Cursor(0, NdpOffset(c, st), 0, 0));
            && status == Success
            && Consistent(c.format, m, FinishedSize(c, st), cur) && Full(c.format, m, FinishedSize(c, st), cur.next)
            && var r := NextDatagram(c.format, m, FinishedSize(c, st), After(c.format, m, FinishedSize(c, st), cur, k));
               if k < |packets| then
                 && r.status == Success && r.entry.index + r.entry.length <= |m|
                 && Payload(m, r.entry) == packets[k]
               else
                 r.status == NoMoreEntries
  {
    hide Finish;
    hide Holds;
    hide ReadTable;
    hide ParseHeader;
    hide NextDatagram;
    hide NextNdp;
    hide FinishedSize;
    hide NdpOffset;
    hide Carries;
    hide FieldsFit;
    hide Decode;
    hide Full;
    hide Consistent;
    var f, len, ndp := c.format, FinishedSize(c, st), NdpOffset(c, st);
    BlockFacts(c, st, packets, sequence, m, length);
    RoundTrip(c, st, packets, sequence, m, length);
    OneTableCalls(f, m, len, ndp, st.spans, k);
    DecodeOne(f, m, length, len, ndp, st.spans);
    if k < |packets| {
      assert st.spans[k] in st.spans;
      assert Payloads(m, st.spans)[k] == Payload(m, st.spans[k]);
    }
  }

  lemma BlockFacts(c: Config, st: Build, packets: seq<seq<byte>>, sequence: nat, m: seq<byte>, length: nat)
    requires c.Valid() && Holds(c, st, packets) && packets != [] && FinishedSize(c, st) <= |st.bytes|
    requires Carries(c, st, Finish(c, st, sequence), m, length)
    ensures Readable(c.format, m, FinishedSize(c, st)) && Readable(c.format, m, length)
    ensures FinishedSize(c, st) > 0 && NdpOffset(c, st) > 0 && |st.spans| == |packets|
  {
    hide AlignUpBy;
    hide Finish;
    hide SpanHolds;
  }

  lemma DecodeOne(f: Format, m: seq<byte>, length: nat, len: nat, p: nat, es: seq<Entry>)
    requires Readable(f, m, length) && ParseHeader(f, m, length) == Some(Header(len, p))
    requires ReadTable(f, m, len, p) == Some(Table(es, 0))
    ensures forall e <- es :: e.index + e.length <= |m|
    ensures Decode(f, m, length) == Payloads(m, es)
  {
    OneTableStream(f, m, len, p, es);
  }

  /** The calls on a chain of one table return its entries in order, then report the end. */
  lemma OneTableCalls(f: Format, m: seq<byte>, len: nat, p: nat, es: seq<Entry>, k: nat)
    requires Readable(f, m, len) && len > 0 && p != 0 && es != []
    requires ReadTable(f, m, len, p) == Some(Table(es, 0))
    ensures var (status, cur) := NextNdp(f, m, len, Cursor(0, p, 0, 0));
            && status == Success && Consistent(f, m, len, cur) && Full(f, m, len, cur.next)
            && var r := NextDatagram(f, m, len, After(f, m, len, cur, k));
               if k < |es| then r.status == Success && r.entry == es[k] else r.status == NoMoreEntries
  {
    hide ReadTable;
    hide NextDatagram;
    OneTableStream(f, m, len, p, es);
    FullNext(f, m, len, p);
    var cur := NextNdp(f, m, len, Cursor(0, p, 0, 0)).1;
    CallsFollowStream(f, m, len, cur, k);
    assert Stops(f, m, len, 0);
    assert Stream(f, m, len, 0, k + 1) == [] && At(f, m, len, 0, k + 1) == 0;
    assert es[0..] + [] == es;
  }
}
