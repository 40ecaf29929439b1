/**
  The edges of the block code (common/ntb.cpp): inputs on which a promise fails, and for each the
  exact condition under which it holds.
 */
module NtbLimits {

  import opened Common
  import opened Bits
  import opened Bytes
  import opened NtbFormat
  import opened NtbBuilder
  import opened NtbParser
  import opened NtbCursor
  import opened NtbRoundTrip
  import opened TxLog
  import opened RxFrames

  // ---------- Blocks of packets of one size ----------

  /** Settings with the alignments the function driver hands out. */
  function Sample(f: Format, maxDatagrams: nat, capacity: nat): Config {
    Config(f, maxDatagrams, 4, 4, 0, capacity)
  }

  lemma FourIsPow2()
    ensures IsPow2(4)
  {
    assert Pow2(2) == 4;
  }

  lemma AlignUpBy4(m: nat, r: nat)
    requires r < 4
    ensures IsPow2(4) && AlignUpBy(4 * m + r, 4) == if r == 0 then 4 * m else 4 * m + 4
  {
    hide AndNot;
    FourIsPow2();
    AlignUpByIsRoundUp(4 * m + r, 4);
    Arithmetic.DivModUnique(4 * m + r, 4, m, r);
  }

  function Uniform(size: nat, n: nat): (s: seq<nat>)
    ensures |s| == n && forall i :: 0 <= i < n ==> s[i] == size
  {
    seq(n, _ => size)
  }

  lemma NextOffset(f: Format, maxDatagrams: nat, capacity: nat, k: nat)
    ensures Sample(f, maxDatagrams, capacity).Valid()
    ensures Sample(f, maxDatagrams, capacity).DatagramOffset(f.NthSize() + 4 * k) == f.NthSize() + 4 * k + 2
  {
    hide AlignUpBy;
    AlignUpBy4(k + if f.Ntb16? then 6 else 7, 2);
  }

  /** Datagrams of 4 * m - 2 bytes lie 4 * m bytes apart. */
  lemma {:induction false} UniformEnds(f: Format, maxDatagrams: nat, capacity: nat, m: nat, n: nat)
    requires m > 0
    ensures Sample(f, maxDatagrams, capacity).Valid()
    ensures EndAfter(Sample(f, maxDatagrams, capacity), Uniform(4 * m - 2, n)) == f.NthSize() + 4 * (m * n)
    decreases n
  {
    hide Config.DatagramOffset;
    hide IsPow2;
    FourIsPow2();
    if n > 0 {
      assert Uniform(4 * m - 2, n)[..n - 1] == Uniform(4 * m - 2, n - 1);
      UniformEnds(f, maxDatagrams, capacity, m, n - 1);
      NextOffset(f, maxDatagrams, capacity, m * (n - 1));
      Arithmetic.Distribute(n, 1, m);
    }
  }

  // ---------- The finished block and its buffer ----------

  /** The longest packet that fits a block in a buffer of 2048 bytes, the smallest the function driver accepts. */
  function LongestIn2048(f: Format): nat {
    if f.Ntb16? then 2022 else 2006
  }

  lemma FitsIn2048Iff(f: Format, n: nat)
    ensures Sample(f, 16, 2048).Valid()
    ensures FitsAlone(Sample(f, 16, 2048), n) <==> n <= LongestIn2048(f)
  {
    hide AlignUpBy;
    hide IsPow2;
    var at := if f.Ntb16? then 14 else 18;
    FourIsPow2();
    AlignUpBy4(if f.Ntb16? then 6 else 7, 2);
    Arithmetic.Euclid(at + n, 4);
    AlignUpBy4((at + n) / 4, (at + n) % 4);
  }

  /** That packet is accepted, and the finished block is one entry longer than the buffer. */
  lemma FinishedBlockOverruns(f: Format, bytes: seq<byte>, data: seq<byte>)
    requires |bytes| >= 2048 && |data| == LongestIn2048(f)
    ensures Sample(f, 16, 2048).Valid()
    ensures var c := Sample(f, 16, 2048);
            var r := Copy(c, Start(c, bytes), data);
            r.Some? && FinishedSize(c, r.value) == 2048 + f.DpeSize()
  {
    hide AlignUpBy;
    hide IsPow2;
    hide Put;
    FourIsPow2();
    AlignUpBy4(if f.Ntb16? then 6 else 7, 2);
    AlignUpBy4(if f.Ntb16? then 509 else 506, 0);
  }

  // ---------- Assertions that fail ----------

  /**
    The first assertion of the transmit path, at an input: in a buffer of 2048 bytes, which a host may
    choose, the machine halts on every packet longer than 2022 or 2006 bytes, though the driver
    offers datagrams of up to 9014 bytes; and on no shorter one.
   */
  lemma SmallBufferHaltsIff(f: Format, data: seq<seq<byte>>, e: TxEvent)
    requires EventOk(data, e) && !e.outcome.Dropped? && e.outcome.config == Sample(f, 16, 2048)
    ensures e.from < |data|
    ensures e.outcome.Halted? && e.to == e.from <==> |data[e.from]| > LongestIn2048(f)
  {
    hide BlockOf;
    hide TransferLength;
    hide Finish;
    hide FitsAlone;
    hide HaltsOn;
    hide Taken;
    HaltsIff(data, e);
    FitsIn2048Iff(f, |data[e.from]|);
  }

  /** Seven packets of the largest size and one more that together fill 64 KiB to the last byte. */
  function JumboSizes(): seq<nat> {
    Uniform(9014, 7) + [2366]
  }

  /** A 16-bit block of 64 KiB takes all of them, and its length is stored as 0. */
  lemma BlockLengthVanishes()
    ensures var c := Sample(Ntb16, 16, 0x1_0000);
            && c.Valid()
            && Taken(c, JumboSizes(), 0) == 8
            && c.SizeWith(EndAfter(c, JumboSizes()), 9) == 0x1_0000
            && StoredLength(c, EndAfter(c, JumboSizes()), 8) == 0
  {
    hide AlignUpBy;
    hide IsPow2;
    hide EndAfter;
    var c, sizes := Sample(Ntb16, 16, 0x1_0000), JumboSizes();
    JumboEnd();
    forall i | 0 <= i < 8
      ensures Takes(c, sizes, i)
    {
      if i < 7 {
        assert sizes[..i + 1] == Uniform(9014, i + 1);
        UniformEnds(Ntb16, 16, 0x1_0000, 2254, i + 1);
        AlignUpBy4(2254 * (i + 1) + 3, 0);
      } else {
        assert sizes[..8] == sizes;
      }
    }
    TakenIs(c, sizes, 0, 8);
  }

  lemma JumboEnd()
    ensures var c := Sample(Ntb16, 16, 0x1_0000);
            && c.Valid() && EndAfter(c, JumboSizes()) == 65492
            && AlignUpBy(65492, 4) == 65492
  {
    hide AlignUpBy;
    UniformEnds(Ntb16, 16, 0x1_0000, 2254, 7);
    assert JumboSizes()[..7] == Uniform(9014, 7);
    AlignUpBy4(15784, 2);
    AlignUpBy4(16373, 0);
  }

  /**
    The second assertion, at an input: on these packets the machine halts unless the sending is cancelled,
    and the event in which it does so is one that can happen.
   */
  lemma JumboPacketsHalt(data: seq<seq<byte>>, before: seq<byte>, e: TxEvent)
    requires Sizes(data) == JumboSizes() && |before| >= 0x1_0004
    requires EventOk(data, e) && e.from == 0 && !e.outcome.Dropped? && !e.outcome.Cancelled?
    requires e.outcome.config == Sample(Ntb16, 16, 0x1_0000)
    ensures e.outcome.Halted? && e.to == 8
    ensures EventOk(data, TxEvent(0, 8, Halted(Sample(Ntb16, 16, 0x1_0000), before)))
  {
    hide EventOk;
    hide FitsAlone;
    hide Taken;
    hide StoredLength;
    hide EndAfter;
    hide Config.SizeWith;
    assert data[0..] == data;
    HaltsIff(data, e);
    BlockLengthVanishes();
    assert JumboSizes()[..8] == JumboSizes();
    HaltHappens(Sample(Ntb16, 16, 0x1_0000), before, data, 0);
  }

  // ---------- The length fields ----------

  /**
    8189 packets of 62 bytes make a 32-bit table of 64 KiB: its length is stored as 0, and the transfer
    ends where the table starts.
   */
  lemma TableLengthVanishes()
    ensures var c, sizes := Sample(Ntb32, 8189, 0x10_0000), Uniform(62, 8189);
            && c.Valid()
            && Taken(c, sizes, 0) == 8189
            && TableLengthField(c, 8189) == 0
            && StoredLength(c, EndAfter(c, sizes), 8189) == AlignUpBy(EndAfter(c, sizes), 4)
            && StoredLength(c, EndAfter(c, sizes), 8189) == c.SizeWith(EndAfter(c, sizes), 8190) - 0x1_0000
  {
    hide AlignUpBy;
    hide IsPow2;
    hide EndAfter;
    var c, sizes := Sample(Ntb32, 8189, 0x10_0000), Uniform(62, 8189);
    FourIsPow2();
    forall i: nat | i < 8189
      ensures Takes(c, sizes, i)
    {
      assert sizes[..i + 1] == Uniform(62, i + 1);
      UniformEnds(Ntb32, 8189, 0x10_0000, 16, i + 1);
      AlignUpBy4(16 * (i + 1) + 4, 0);
    }
    TakenIs(c, sizes, 0, 8189);
    UniformEnds(Ntb32, 8189, 0x10_0000, 16, 8189);
    AlignUpBy4(16 * 8189 + 4, 0);
  }

  /**
    Whatever the capacity, as long as the table's offset fits its field the receiver of the transfer decodes
    the packets if and only if neither length field was truncated; otherwise it finds no datagram at all.
   */
  lemma TransferDecodesIff(c: Config, st: Build, packets: seq<seq<byte>>, sequence: nat, m: seq<byte>)
    requires c.Valid() && Holds(c, st, packets) && packets != [] && AllNonEmpty(packets)
    requires FinishedSize(c, st) <= |st.bytes| && NdpOffset(c, st) < c.format.PtrLimit()
    requires Readable(c.format, m, TransferLength(c, st))
    requires Shares(Finish(c, st, sequence), m, TransferLength(c, st))
    ensures Decode(c.format, m, TransferLength(c, st)) == (if FieldsFit(c, st) then packets else [])
  {
    hide Finish;
    hide Decode;
    hide ParseHeader;
    hide ReadTable;
    hide TransferLength;
    hide FinishedSize;
    hide Holds;
    hide AllNonEmpty;
    hide FieldsFit;
    hide Config.Valid;
    hide NdpOffset;
    TransferWholeIff(c, st);
    if FieldsFit(c, st) {
      RoundTrip(c, st, packets, sequence, m, TransferLength(c, st));
    } else if TransferLength(c, st) < c.format.NthSize() {
      TooShortToDecode(c.format, m, TransferLength(c, st));
    } else {
      StartsBehindHeader(c, st, packets);
      FinishWrites(c, st, sequence);
      TruncatedHeader(c, st, sequence, Finish(c, st, sequence), m);
      TruncatedTable(c, st, packets, sequence, Finish(c, st, sequence), m);
      NothingToDecode(c.format, m, TransferLength(c, st), Header(TransferLength(c, st), NdpOffset(c, st)));
    }
  }

  /** In a buffer of at most 64 KiB the table's offset always fits, and only the block length can be truncated. */
  lemma SmallBufferFields(c: Config, st: Build, packets: seq<seq<byte>>)
    requires c.Valid() && Holds(c, st, packets) && packets != [] && c.capacity <= 0x1_0000
    ensures NdpOffset(c, st) < c.format.PtrLimit()
    ensures FieldsFit(c, st) <==> FinishedSize(c, st) < c.format.PtrLimit()
  {
    hide AlignUpBy;
    hide SpanHolds;
    FinishedSizeBound(c, st, packets);
  }

  lemma StartsBehindHeader(c: Config, st: Build, packets: seq<seq<byte>>)
    requires c.Valid() && Holds(c, st, packets)
    ensures c.format.NthSize() <= st.offset
  {
  }

  lemma TooShortToDecode(f: Format, m: seq<byte>, length: nat)
    requires Readable(f, m, length) && length < f.NthSize()
    ensures Decode(f, m, length) == []
  {
  }

  lemma NothingToDecode(f: Format, m: seq<byte>, length: nat, h: Header)
    requires Readable(f, m, length) && ParseHeader(f, m, length) == Some(h)
    requires ReadTable(f, m, h.blockLength, h.ndpIndex).None?
    ensures Decode(f, m, length) == []
  {
  }

  lemma TruncatedHeader(c: Config, st: Build, sequence: nat, b: seq<byte>, m: seq<byte>)
    requires c.Valid() && IsFinished(c, st, sequence, b) && NdpOffset(c, st) < c.format.PtrLimit()
    requires c.format.NthSize() <= TransferLength(c, st)
    requires Readable(c.format, m, TransferLength(c, st)) && Shares(b, m, TransferLength(c, st))
    ensures ParseHeader(c.format, m, TransferLength(c, st)) == Some(Header(TransferLength(c, st), NdpOffset(c, st)))
  {
    hide FromLe;
    hide Slice;
    hide ToLe;
    hide AlignUpBy;
    hide StoredLength;
    var f := c.format;
    SharedSlice(b, m, TransferLength(c, st), 0, f.NthSize());
    NthReadsBack(f, m, sequence, TransferLength(c, st), f.Truncate(NdpOffset(c, st)));
  }

  /** A truncated transfer that still reaches the table's entries lost the high part of the table length only. */
  lemma TruncatedLength(c: Config, st: Build)
    requires c.Valid() && NdpOffset(c, st) < c.format.PtrLimit() && !FieldsFit(c, st)
    requires NdpOffset(c, st) <= TransferLength(c, st)
    ensures TransferLength(c, st) == NdpOffset(c, st) + TableLengthField(c, |st.spans|)
    ensures TableLengthField(c, |st.spans|) + 0x1_0000 <= c.format.NdpSize() + c.format.Slots(|st.spans| + 1)
  {
    hide AlignUpBy;
    var f, ndp, field := c.format, NdpOffset(c, st), TableLengthField(c, |st.spans|);
    if ndp + field >= f.PtrLimit() {
      Arithmetic.DivModUnique(ndp + field, f.PtrLimit(), 1, ndp + field - f.PtrLimit());
      assert false;
    }
  }

  /** The stored table length is a whole number of entries, truncated or not. */
  lemma FieldIsWhole(c: Config, n: nat)
    ensures TableLengthField(c, n) < 0x1_0000 && TableLengthField(c, n) % c.format.DpeSize() == 0
  {
    var d, full := c.format.DpeSize(), c.format.NdpSize() + c.format.Slots(n + 1);
    Arithmetic.DivModUnique(full, d, n + 3, 0);
    Arithmetic.ModMultiple(full, d, if c.format.Ntb16? then 0x4000 else 0x2000);
  }

  /** A slot that starts inside a table of whole entries ends inside it. */
  lemma SlotEnds(f: Format, tableLength: nat, i: nat)
    requires tableLength % f.DpeSize() == 0 && f.NdpSize() + f.Slots(i) < tableLength
    ensures f.NdpSize() + f.Slots(i) + f.DpeSize() <= tableLength
  {
    Arithmetic.Euclid(tableLength, f.DpeSize());
    var q := tableLength / f.DpeSize();
    assert q >= i + 3;
  }

  /** The part of the table that such a transfer declares has no terminator. */
  lemma TruncatedTable(c: Config, st: Build, packets: seq<seq<byte>>, sequence: nat, b: seq<byte>, m: seq<byte>)
    requires c.Valid() && Holds(c, st, packets) && AllNonEmpty(packets)
    requires IsFinished(c, st, sequence, b) && NdpOffset(c, st) < c.format.PtrLimit() && !FieldsFit(c, st)
    requires Readable(c.format, m, TransferLength(c, st)) && Shares(b, m, TransferLength(c, st))
    ensures ReadTable(c.format, m, TransferLength(c, st), NdpOffset(c, st)).None?
  {
    hide AlignUpBy;
    hide Scan;
    hide EntryAt;
    hide ToLe;
    hide FromLe;
    hide StoredLength;
    hide FieldsFit;
    hide TableLengthField;
    var f, total, ndp := c.format, TransferLength(c, st), NdpOffset(c, st);
    if ndp + f.MinTableSize() <= total {
      TruncatedLength(c, st);
      var field := TableLengthField(c, |st.spans|);
      FieldIsWhole(c, |st.spans|);
      SharedField(b, m, total, ndp + 4, 2, field);
      if ReadTable(f, m, total, ndp).Some? {
        var es := ReadTable(f, m, total, ndp).value.entries;
        ScanIff(f, m, total, ndp, field, 0, es);
        var i := |es|;
        SlotEnds(f, field, i);
        assert SpanHolds(c, st, packets, i) && packets[i] in packets;
        SlotParses(c, st, sequence, b, m, total, i);
        assert false;
      }
    }
  }

  // ---------- A block that declares no length ----------

  /** The header is in order and declares no block length. */
  predicate Undeclared(f: Format, b: seq<byte>, length: nat)
    requires length <= |b|
  {
    && f.NthSize() <= length && Field(b, 0, 4) == f.NthSignature() && Field(b, 4, 2) == f.NthSize()
    && Field(b, 8, f.PtrSize()) == 0
  }

  /**
    Such a block is meant to take the buffer's length, at most the largest a pointer can hold. The cast
    in front of the minimum gives that if and only if the buffer is shorter than 64 KiB (16-bit) or 4 GiB
    (32-bit), or its length happens to end in ones.
   */
  lemma UndeclaredLengthIff(f: Format, b: seq<byte>, length: nat)
    requires length <= |b| && Undeclared(f, b, length)
    ensures ParseHeader(f, b, length).Some?
    ensures ParseHeader(f, b, length).value.blockLength == Min(f.PtrLimit() - 1, length)
            <==> length < f.PtrLimit() || length % f.PtrLimit() == f.PtrLimit() - 1
  {
  }

  /** A buffer of 64 KiB, the size the function driver reads with, that holds such a 16-bit block is rejected whole. */
  lemma UndeclaredFullBuffer(b: seq<byte>)
    requires |b| >= 0x1_0000 && Undeclared(Ntb16, b, 0x1_0000)
    ensures Decode(Ntb16, b, 0x1_0000) == []
  {
    Arithmetic.DivModUnique(0x1_0000, 0x1_0000, 1, 0);
  }

  // ---------- The scan and the end of its table ----------

  /** The full slots of the table, from slot k on, hold an entry at which the scan stops. */
  ghost predicate StopsInFullSlot(f: Format, b: seq<byte>, blockLength: nat, p: nat, tableLength: nat, k: nat)
    requires Readable(f, b, blockLength) && p + tableLength <= blockLength
  {
    exists i: nat :: k <= i && FullSlotStops(f, b, blockLength, p, tableLength, i)
  }

  predicate FullSlotStops(f: Format, b: seq<byte>, blockLength: nat, p: nat, tableLength: nat, i: nat)
    requires Readable(f, b, blockLength) && p + tableLength <= blockLength
  {
    && f.NdpSize() + f.Slots(i + 1) <= tableLength
    && StopsScan(f, blockLength, Slot(f, b, p, i))
  }

  /**
    The scan reads only bytes of its table if and only if the table length is a multiple of the
    entry size or the scan stops at one of the full entries. The check for a multiple of 4 is enough
    for 16-bit blocks only.
   */
  lemma {:induction false} ScanStaysInTableIff(f: Format, b: seq<byte>, blockLength: nat, p: nat,
                                               tableLength: nat, k: nat)
    requires Readable(f, b, blockLength) && p + tableLength <= blockLength && tableLength % 4 == 0
    requires f.NdpSize() + f.Slots(k) <= tableLength
    ensures f.NdpSize() + f.Slots(k + SlotsRead(f, b, blockLength, p, tableLength, k)) <= tableLength
            <==> (tableLength % f.DpeSize() == 0 || StopsInFullSlot(f, b, blockLength, p, tableLength, k))
    decreases tableLength - f.Slots(k)
  {
    hide EntryAt;
    LastSlot(f, tableLength, k);
    if f.NdpSize() + f.Slots(k + 1) <= tableLength {
      if StopsScan(f, blockLength, Slot(f, b, p, k)) {
        assert FullSlotStops(f, b, blockLength, p, tableLength, k);
      } else {
        ScanStaysInTableIff(f, b, blockLength, p, tableLength, k + 1);
        if StopsInFullSlot(f, b, blockLength, p, tableLength, k) {
          var i: nat :| k <= i && FullSlotStops(f, b, blockLength, p, tableLength, i);
          assert i != k;
        }
      }
    }
  }

  /** Where no full slot is left, the table is used up exactly when its length is a multiple of the entry size. */
  lemma LastSlot(f: Format, tableLength: nat, k: nat)
    requires tableLength % 4 == 0 && f.NdpSize() + f.Slots(k) <= tableLength
    ensures f.NdpSize() + f.Slots(k + 1) > tableLength ==>
              (f.NdpSize() + f.Slots(k) == tableLength <==> tableLength % f.DpeSize() == 0)
  {
    if f.NdpSize() + f.Slots(k + 1) > tableLength {
      Arithmetic.DivModUnique(tableLength, f.DpeSize(), k + 2, tableLength - f.NdpSize() - f.Slots(k));
    }
  }

  /** A datagram pointer table as it lies in the block; the length field is given separately. */
  function TableImage(f: Format, length: nat, next: nat, es: seq<Entry>): (s: seq<byte>)
    ensures |s| == f.NdpSize() + f.Slots(|es|)
  {
    ToLe(f.NdpSignature(), 4) + ToLe(length, 2) + (if f.Ntb16? then [] else ToLe(0, 2))
    + ToLe(next, f.PtrSize()) + (if f.Ntb16? then [] else ToLe(0, 4)) + f.TableBytes(es)
  }

  lemma TableImageReads(f: Format, b: seq<byte>, p: nat, length: nat, next: nat, es: seq<Entry>)
    requires p + f.NdpSize() + f.Slots(|es|) <= |b|
    requires Slice(b, p, f.NdpSize() + f.Slots(|es|)) == TableImage(f, length, next, es)
    requires length < 0x1_0000 && next < 0x1_0000
    ensures Field(b, p, 4) == f.NdpSignature() && Field(b, p + 4, 2) == length
    ensures Field(b, p + f.NextNdpOffset(), f.PtrSize()) == next
    ensures forall i :: 0 <= i < |es| ==> Slot(f, b, p, i) == f.Stored(es[i])
  {
    hide Format.TableBytes;
    hide ToLe;
    hide FromLe;
    hide EntryAt;
    var d, n := TableImage(f, length, next, es), f.PtrSize();
    TableImageParts(f, length, next, es);
    FieldOfSlice(b, p, 4, d, 0);
    FieldOfSlice(b, p, 2, d, 4);
    FieldOfSlice(b, p, n, d, f.NextNdpOffset());
    FieldReadsBack(f.NdpSignature(), 4);
    FieldReadsBack(length, 2);
    FieldReadsBack(next, n);
    SliceOfSlice(b, p, |d|, f.NdpSize(), f.Slots(|es|));
    forall i | 0 <= i < |es|
      ensures Slot(f, b, p, i) == f.Stored(es[i])
    {
      TableReadsBack(f, b, p + f.NdpSize(), es, i);
    }
  }

  lemma TableImageParts(f: Format, length: nat, next: nat, es: seq<Entry>)
    ensures var d := TableImage(f, length, next, es);
            && Slice(d, 0, 4) == ToLe(f.NdpSignature(), 4) && Slice(d, 4, 2) == ToLe(length, 2)
            && Slice(d, f.NextNdpOffset(), f.PtrSize()) == ToLe(next, f.PtrSize())
            && Slice(d, f.NdpSize(), f.Slots(|es|)) == f.TableBytes(es)
  {
    hide Format.TableBytes;
    hide ToLe;
    var sig, len, ptr, table := ToLe(f.NdpSignature(), 4), ToLe(length, 2), ToLe(next, f.PtrSize()), f.TableBytes(es);
    if f.Ntb16? {
      FourParts(sig, len, [], ptr, [], table);
    } else {
      SixParts(sig, len, ToLe(0, 2), ptr, ToLe(0, 4), table);
    }
  }

  lemma FourParts(a: seq<byte>, b: seq<byte>, c: seq<byte>, d: seq<byte>, e: seq<byte>, g: seq<byte>)
    requires |a| == 4 && |b| == 2 && c == [] && |d| == 2 && e == []
    ensures var s := a + b + c + d + e + g;
            Slice(s, 0, 4) == a && Slice(s, 4, 2) == b && Slice(s, 6, 2) == d && Slice(s, 8, |g|) == g
  {
  }

  lemma SixParts(a: seq<byte>, b: seq<byte>, c: seq<byte>, d: seq<byte>, e: seq<byte>, g: seq<byte>)
    requires |a| == 4 && |b| == 2 && |c| == 2 && |d| == 4 && |e| == 4
    ensures var s := a + b + c + d + e + g;
            Slice(s, 0, 4) == a && Slice(s, 4, 2) == b && Slice(s, 8, 4) == d && Slice(s, 16, |g|) == g
  {
  }

  lemma HeaderReads(f: Format, b: seq<byte>, blockLength: nat, ndpIndex: nat)
    requires blockLength <= |b| && f.NthSize() <= blockLength < 0x1_0000 && ndpIndex < 0x1_0000
    requires Slice(b, 0, f.NthSize()) == f.NthBytes(1, blockLength, ndpIndex)
    ensures ParseHeader(f, b, blockLength) == Some(Header(blockLength, ndpIndex))
  {
    hide FromLe;
    hide Slice;
    hide ToLe;
    NthReadsBack(f, b, 1, blockLength, ndpIndex);
  }

  /**
    A 32-bit block of 52 bytes, and 4 bytes of the receiver's memory behind it. The table declares
    36 bytes: two entries and half of a third one, whose other half is behind the block.
   */
  function OddTable(behind: nat): (s: seq<byte>)
    ensures |s| == 56
  {
    Ntb32.NthBytes(1, 52, 16) + TableImage(Ntb32, 36, 0, [Entry(16, 1), Entry(16, 1), Entry(16, behind)])
  }

  /**
    The scan reads 40 bytes of that table, 4 bytes past the end of the block. So what the block says
    depends on what happens to lie behind it: the same 52 bytes are two datagrams or none at all.
   */
  lemma ScanLeavesTable(behind: nat)
    requires behind <= 1
    ensures OddTable(behind)[..52] == OddTable(0)[..52]
    ensures ParseHeader(Ntb32, OddTable(behind), 52) == Some(Header(52, 16))
    ensures GoodTableHeader(Ntb32, OddTable(behind), 52, 16) && Field(OddTable(behind), 20, 2) == 36
    ensures Ntb32.NdpSize() + Ntb32.Slots(SlotsRead(Ntb32, OddTable(behind), 52, 16, 36, 0)) == 40
    ensures ReadTable(Ntb32, OddTable(behind), 52, 16)
            == if behind == 0 then Some(Table([Entry(16, 1), Entry(16, 1)], 0)) else None
  {
    hide TableImage;
    hide Format.NthBytes;
    hide Slot;
    hide Field;
    hide ParseHeader;
    var b, es := OddTable(behind), [Entry(16, 1), Entry(16, 1), Entry(16, behind)];
    assert Slice(b, 0, 16) == Ntb32.NthBytes(1, 52, 16);
    HeaderReads(Ntb32, b, 52, 16);
    assert Slice(b, 16, 40) == TableImage(Ntb32, 36, 0, es);
    TableImageReads(Ntb32, b, 16, 36, 0, es);
    OddTableBytes(behind);
    assert Slot(Ntb32, b, 16, 0) == es[0] && Slot(Ntb32, b, 16, 1) == es[1] && Slot(Ntb32, b, 16, 2) == es[2];
    OddScan(b, behind);
  }

  lemma OddScan(b: seq<byte>, behind: nat)
    requires behind <= 1 && |b| == 56
    requires Slot(Ntb32, b, 16, 0) == Slot(Ntb32, b, 16, 1) == Entry(16, 1)
    requires Slot(Ntb32, b, 16, 2) == Entry(16, behind)
    ensures SlotsRead(Ntb32, b, 52, 16, 36, 0) == 3
    ensures Scan(Ntb32, b, 52, 16, 36, 0) == if behind == 0 then Some([Entry(16, 1), Entry(16, 1)]) else None
  {
    hide Slot;
    assert SlotsRead(Ntb32, b, 52, 16, 36, 3) == 0 && Scan(Ntb32, b, 52, 16, 36, 3) == None;
    assert SlotsRead(Ntb32, b, 52, 16, 36, 2) == 1;
    assert Scan(Ntb32, b, 52, 16, 36, 2) == if behind == 0 then Some([]) else None;
    assert SlotsRead(Ntb32, b, 52, 16, 36, 1) == 2;
    assert [Entry(16, 1)] + [] == [Entry(16, 1)] && [Entry(16, 1)] + [Entry(16, 1)] == [Entry(16, 1), Entry(16, 1)];
    assert Scan(Ntb32, b, 52, 16, 36, 1) == if behind == 0 then Some([Entry(16, 1)]) else None;
  }

  lemma OddTableBytes(behind: nat)
    requires behind <= 1
    ensures OddTable(behind)[..52] == OddTable(0)[..52]
  {
    hide ToLe;
    hide Format.NthBytes;
    var front := [Entry(16, 1), Entry(16, 1)];
    assert (front + [Entry(16, behind)])[..2] == front == (front + [Entry(16, 0)])[..2];
    assert front + [Entry(16, behind)] == [Entry(16, 1), Entry(16, 1), Entry(16, behind)];
    assert front + [Entry(16, 0)] == [Entry(16, 1), Entry(16, 1), Entry(16, 0)];
  }

  // ---------- An empty table behind another ----------

  /** A 44-byte block: a table with one datagram, then a table without any. */
  function TwoTables(): (s: seq<byte>)
    ensures |s| == 44
  {
    Ntb16.NthBytes(1, 44, 12)
    + TableImage(Ntb16, 16, 28, [Entry(12, 4), NULL_ENTRY])
    + TableImage(Ntb16, 16, 0, [NULL_ENTRY, NULL_ENTRY])
  }

  lemma FirstTableReads()
    ensures ReadTable(Ntb16, TwoTables(), 44, 12) == Some(Table([Entry(12, 4)], 28))
  {
    hide TableImage;
    hide Format.NthBytes;
    hide Format.TableBytes;
    hide Field;
    hide Slot;
    hide Scan;
    var b := TwoTables();
    var es := [Entry(12, 4), NULL_ENTRY];
    assert Slice(b, 12, 16) == TableImage(Ntb16, 16, 28, es);
    TableImageReads(Ntb16, b, 12, 16, 28, es);
    assert FirstNull(Ntb16, b, 44, 12, 16, 0, [es[0]]) by {
      assert Slot(Ntb16, b, 12, 1) == es[1];
      assert Slot(Ntb16, b, 12, 0) == es[0];
    }
    ScanIff(Ntb16, b, 44, 12, 16, 0, [es[0]]);
  }

  lemma SecondTableReads()
    ensures ReadTable(Ntb16, TwoTables(), 44, 28) == Some(Table([], 0))
    ensures Slot(Ntb16, TwoTables(), 28, 0) == NULL_ENTRY && Slot(Ntb16, TwoTables(), 28, 1) == NULL_ENTRY
  {
    hide TableImage;
    hide Slot;
    hide Field;
    var b := TwoTables();
    var es := [NULL_ENTRY, NULL_ENTRY];
    assert Slice(b, 28, 16) == TableImage(Ntb16, 16, 0, es);
    TableImageReads(Ntb16, b, 28, 16, 0, es);
    assert Slot(Ntb16, b, 28, 0) == es[0] && Slot(Ntb16, b, 28, 1) == es[1];
    ScanIff(Ntb16, b, 44, 28, 16, 0, []);
  }

  /**
    The parser accepts that block and returns its datagram. The second call succeeds again, with the
    terminator of the empty table, and leaves the index past the count; so does the third one, with the
    table's last entry, and a fourth call would read behind the block.
   */
  lemma EmptyLaterTable()
    ensures var b := TwoTables();
            && ParseHeader(Ntb16, b, 44) == Some(Header(44, 12))
            && var (status, cur) := NextNdp(Ntb16, b, 44, Cursor(0, 12, 0, 0));
            && status == Success && Consistent(Ntb16, b, 44, cur)
            && NextDatagram(Ntb16, b, 44, cur) == Reply(Success, Entry(12, 4), Cursor(12, 28, 1, 1))
            && NextDatagram(Ntb16, b, 44, Cursor(12, 28, 1, 1)) == Reply(Success, NULL_ENTRY, Cursor(28, 0, 1, 0))
            && Calls(Ntb16, b, 44, cur, 3) == Some(Cursor(28, 0, 2, 0))
            && Calls(Ntb16, b, 44, cur, 4) == None
  {
    hide TwoTables;
    hide ReadTable;
    hide Slot;
    hide Calls;
    FirstTableReads();
    SecondTableReads();
    TwoTablesHeader();
    var b := TwoTables();
    TableSlots(Ntb16, b, 44, 12, 0);
    var cur := NextNdp(Ntb16, b, 44, Cursor(0, 12, 0, 0)).1;
    assert cur == Cursor(12, 28, 0, 1);
    FirstCall(Ntb16, b, 44, cur, 3);
    FirstCall(Ntb16, b, 44, cur, 4);
    FirstCall(Ntb16, b, 44, Cursor(12, 28, 1, 1), 2);
    FirstCall(Ntb16, b, 44, Cursor(12, 28, 1, 1), 3);
    PastTheCount(Ntb16, b, 44, Cursor(28, 0, 1, 0), 0);
    PastTheCount(Ntb16, b, 44, Cursor(28, 0, 1, 0), 1);
  }

  lemma TwoTablesHeader()
    ensures ParseHeader(Ntb16, TwoTables(), 44) == Some(Header(44, 12))
  {
    hide TableImage;
    hide Format.NthBytes;
    hide ParseHeader;
    assert Slice(TwoTables(), 0, 12) == Ntb16.NthBytes(1, 44, 12);
    HeaderReads(Ntb16, TwoTables(), 44, 12);
  }

  // ---------- A table that leads back to itself ----------

  /** A 28-byte block whose one table names itself as the next one. */
  function LoopedTable(): (s: seq<byte>)
    ensures |s| == 28
  {
    Ntb16.NthBytes(1, 28, 12) + TableImage(Ntb16, 16, 12, [Entry(12, 4), NULL_ENTRY])
  }

  lemma LoopedTableReads()
    ensures ParseHeader(Ntb16, LoopedTable(), 28) == Some(Header(28, 12))
    ensures ReadTable(Ntb16, LoopedTable(), 28, 12) == Some(Table([Entry(12, 4)], 12))
  {
    hide TableImage;
    hide Format.NthBytes;
    hide ParseHeader;
    hide Field;
    hide Slot;
    hide Scan;
    var b, es := LoopedTable(), [Entry(12, 4), NULL_ENTRY];
    assert Slice(b, 0, 12) == Ntb16.NthBytes(1, 28, 12);
    HeaderReads(Ntb16, b, 28, 12);
    assert Slice(b, 12, 16) == TableImage(Ntb16, 16, 12, es);
    TableImageReads(Ntb16, b, 12, 16, 12, es);
    assert FirstNull(Ntb16, b, 28, 12, 16, 0, [es[0]]) by {
      assert Slot(Ntb16, b, 12, 1) == es[1];
      assert Slot(Ntb16, b, 12, 0) == es[0];
    }
    ScanIff(Ntb16, b, 28, 12, 16, 0, [es[0]]);
  }

  /** The chain of a table that leads back to itself never leaves it. */
  lemma {:induction false} StaysAtTable(f: Format, b: seq<byte>, len: nat, p: nat, es: seq<Entry>, n: nat)
    requires Readable(f, b, len) && p != 0 && ReadTable(f, b, len, p) == Some(Table(es, p))
    ensures At(f, b, len, p, n) == p && !Ends(f, b, len, p, n)
    ensures forall e <- Stream(f, b, len, p, n) :: e in es
    decreases n
  {
    hide ReadTable;
    if n > 0 {
      StaysAtTable(f, b, len, p, es, n - 1);
    }
  }

  /**
    The parser accepts that block and opens its table, no table ahead is empty, and yet the loop of
    GetNextFrame never comes to an end on it, whatever the filter: each call succeeds with the
    same 4 bytes, too short to be a frame.
   */
  lemma LoopNeverEnds(p: RxParameters)
    requires p.format == Ntb16
    ensures var b, cur := LoopedTable(), Cursor(12, 12, 0, 1);
            && ParseHeader(Ntb16, b, 28) == Some(Header(28, 12))
            && NextNdp(Ntb16, b, 28, Cursor(0, 12, 0, 0)) == (Success, cur)
            && Consistent(Ntb16, b, 28, cur) && Full(Ntb16, b, 28, cur.next)
            && !exists k: nat :: EndsLoop(p, b, 28, cur, k)
  {
    hide LoopedTable;
    hide ReadTable;
    hide ParseHeader;
    hide EndsLoop;
    var b, cur, es := LoopedTable(), Cursor(12, 12, 0, 1), [Entry(12, 4)];
    LoopedTableReads();
    forall n: nat
      ensures TableFull(Ntb16, b, 28, At(Ntb16, b, 28, 12, n))
    {
      StaysAtTable(Ntb16, b, 28, 12, es, n);
    }
    StaysAtTable(Ntb16, b, 28, 12, es, 28);
    LoopEndsIff(p, b, 28, cur);
  }
}
