/**
  The blocks byte by byte (USB CDC NCM Rev 1.0 Errata 1, sections 3.2 and 3.3; common/ntb.cpp): what the
  builder writes where, and exactly which headers and tables the parser accepts, told from the bytes.
 */
module NtbWire {

  import opened Common
  import opened Bits
  import opened Bytes
  import opened NtbFormat
  import opened NtbBuilder
  import opened NtbParser
  import opened NtbRoundTrip
  import opened TxLog

  // ---------- Numbers in bytes, low byte first ----------

  function U16(b: seq<byte>, o: nat): (r: nat)
    requires o + 2 <= |b|
    ensures r < 0x1_0000
  {
    b[o] as int + 0x100 * (b[o + 1] as int)
  }

  function U32(b: seq<byte>, o: nat): (r: nat)
    requires o + 4 <= |b|
    ensures r < 0x1_0000_0000
  {
    b[o] as int + 0x100 * (b[o + 1] as int) + 0x1_0000 * (b[o + 2] as int) + 0x100_0000 * (b[o + 3] as int)
  }

  lemma Field16(b: seq<byte>, o: nat)
    requires o + 2 <= |b|
    ensures Field(b, o, 2) == U16(b, o)
  {
    var s := Slice(b, o, 2);
    assert s[1..] == [b[o + 1]] && [b[o + 1]][1..] == [];
    assert FromLe([b[o + 1]]) == b[o + 1];
  }

  lemma Field32(b: seq<byte>, o: nat)
    requires o + 4 <= |b|
    ensures Field(b, o, 4) == U32(b, o)
  {
    var s := Slice(b, o, 4);
    assert s[1..][1..] == s[2..] && s[2..][1..] == s[3..] && s[3..][1..] == [];
    assert FromLe(s[3..]) == b[o + 3];
    assert FromLe(s[2..]) == b[o + 2] as int + 256 * (b[o + 3] as int);
    assert FromLe(s[1..]) == b[o + 1] as int + 256 * (b[o + 2] as int + 256 * (b[o + 3] as int));
  }

  lemma Written16(b: seq<byte>, o: nat, v: nat)
    requires o + 2 <= |b| && Slice(b, o, 2) == ToLe(v, 2) && v < 0x1_0000
    ensures b[o] == v % 0x100 && b[o + 1] == v / 0x100
  {
    assert ToLe(v, 2) == [v % 256] + ToLe(v / 256, 1);
    assert ToLe(v / 256, 1) == [v / 256 % 256] + ToLe(v / 256 / 256, 0);
    assert Slice(b, o, 2)[0] == b[o] && Slice(b, o, 2)[1] == b[o + 1];
  }

  lemma Written32(b: seq<byte>, o: nat, v: nat)
    requires o + 4 <= |b| && Slice(b, o, 4) == ToLe(v, 4) && v < 0x1_0000_0000
    ensures U32(b, o) == v
  {
    Field32(b, o);
    FieldReadsBack(v, 4);
    Arithmetic.DivModUnique(v, 0x1_0000_0000, 0, v);
  }

  /** Four bytes and the number they make determine each other. */
  lemma FourBytes(b: seq<byte>, o: nat, w: byte, x: byte, y: byte, z: byte)
    requires o + 4 <= |b|
    ensures U32(b, o) == w as int + 0x100 * (x as int) + 0x1_0000 * (y as int) + 0x100_0000 * (z as int)
            <==> b[o..o + 4] == [w, x, y, z]
  {
    if U32(b, o) == w as int + 0x100 * (x as int) + 0x1_0000 * (y as int) + 0x100_0000 * (z as int) {
      assert b[o + 3] == z;
      assert b[o + 2] == y;
      assert b[o + 1] == x;
    }
  }

  // ---------- What the parser accepts ----------

  /** A 16-bit header is accepted, with this length and table offset, if and only if its bytes say so. */
  lemma Header16Iff(b: seq<byte>, length: nat, h: Header)
    requires length <= |b|
    ensures ParseHeader(Ntb16, b, length) == Some(h) <==>
              && 12 <= length
              && b[0..0 + 4] == [0x4E, 0x43, 0x4D, 0x48]
              && U16(b, 4) == 12
              && U16(b, 8) <= length
              && h.blockLength == (if U16(b, 8) > 0 then U16(b, 8) else length % 0x1_0000)
              && h.ndpIndex == U16(b, 10)
  {
    hide Field;
    if 12 <= length {
      Field32(b, 0);
      FourBytes(b, 0, 0x4E, 0x43, 0x4D, 0x48);
      Field16(b, 4);
      Field16(b, 8);
      Field16(b, 10);
    }
  }

  lemma Header32Iff(b: seq<byte>, length: nat, h: Header)
    requires length <= |b|
    ensures ParseHeader(Ntb32, b, length) == Some(h) <==>
              && 16 <= length
              && b[0..0 + 4] == [0x6E, 0x63, 0x6D, 0x68]
              && U16(b, 4) == 16
              && U32(b, 8) <= length
              && h.blockLength == (if U32(b, 8) > 0 then U32(b, 8) else length % 0x1_0000_0000)
              && h.ndpIndex == U32(b, 12)
  {
    hide Field;
    if 16 <= length {
      Field32(b, 0);
      FourBytes(b, 0, 0x6E, 0x63, 0x6D, 0x68);
      Field16(b, 4);
      Field32(b, 8);
      Field32(b, 12);
    }
  }

  /**
    A 16-bit table is accepted, with these entries and this successor, if and only if its bytes say so: it
    lies behind the header with room for two entries, is signed "NCM0", has a whole number of entries
    inside the block, names no successor or one with the same room, and its entries are all non-zero
    and inside the block up to the first one that has a zero in it.
   */
  lemma Table16Iff(b: seq<byte>, len: nat, p: nat, es: seq<Entry>, next: nat)
    requires len <= |b|
    ensures ReadTable(Ntb16, b, len, p) == Some(Table(es, next)) <==>
              && 12 <= p && p + 16 <= len
              && b[p..p + 4] == [0x4E, 0x43, 0x4D, 0x30]
              && 16 <= U16(b, p + 4) && U16(b, p + 4) % 4 == 0 && p + U16(b, p + 4) <= len
              && next == U16(b, p + 6) && (next == 0 || (12 <= next && next + 16 <= len))
              && 8 + 4 * |es| + 4 <= U16(b, p + 4)
              && (U16(b, p + 8 + 4 * |es|) == 0 || U16(b, p + 10 + 4 * |es|) == 0)
              && forall i :: 0 <= i < |es| ==>
                   && es[i].index == U16(b, p + 8 + 4 * i) && es[i].length == U16(b, p + 10 + 4 * i)
                   && es[i].length > 0 && 12 <= es[i].index && es[i].index + es[i].length <= len
  {
    hide Field;
    hide Scan;
    hide Slot;
    if 12 <= p && p + 16 <= len {
      Field32(b, p);
      FourBytes(b, p, 0x4E, 0x43, 0x4D, 0x30);
      Field16(b, p + 4);
      Field16(b, p + 6);
      if U16(b, p + 4) % 4 == 0 && p + U16(b, p + 4) <= len {
        Scan16Iff(b, len, p, U16(b, p + 4), es);
      }
    }
  }

  lemma Scan16Iff(b: seq<byte>, len: nat, p: nat, tableLength: nat, es: seq<Entry>)
    requires p + tableLength <= len <= |b| && tableLength % 4 == 0
    ensures Scan(Ntb16, b, len, p, tableLength, 0) == Some(es) <==>
              && 8 + 4 * |es| + 4 <= tableLength
              && (U16(b, p + 8 + 4 * |es|) == 0 || U16(b, p + 10 + 4 * |es|) == 0)
              && forall i :: 0 <= i < |es| ==>
                   && es[i].index == U16(b, p + 8 + 4 * i) && es[i].length == U16(b, p + 10 + 4 * i)
                   && es[i].length > 0 && 12 <= es[i].index && es[i].index + es[i].length <= len
  {
    hide Scan;
    hide Slot;
    hide U16;
    ScanIff(Ntb16, b, len, p, tableLength, 0, es);
    forall i: nat | 8 + 4 * i + 4 <= tableLength
      ensures Slot(Ntb16, b, p, 0 + i) == Entry(U16(b, p + 8 + 4 * i), U16(b, p + 10 + 4 * i))
    {
      Slot16(b, p, i);
    }
    if 8 + 4 * |es| + 4 <= tableLength {
      assert Slot(Ntb16, b, p, 0 + |es|) == Entry(U16(b, p + 8 + 4 * |es|), U16(b, p + 10 + 4 * |es|));
    }
    if FirstNull(Ntb16, b, len, p, tableLength, 0, es) {
      forall i | 0 <= i < |es|
        ensures Slot(Ntb16, b, p, 0 + i) == es[i] && es[i] in es
      {
      }
    }
  }

  lemma Slot16(b: seq<byte>, p: nat, i: nat)
    requires p + 8 + 4 * i + 4 <= |b|
    ensures Slot(Ntb16, b, p, i) == Entry(U16(b, p + 8 + 4 * i), U16(b, p + 10 + 4 * i))
  {
    Field16(b, p + 8 + 4 * i);
    Field16(b, p + 10 + 4 * i);
  }

  /** The same for 32-bit tables; only a multiple of 4 is asked of the length, so the last entry may stick out. */
  lemma Table32Iff(b: seq<byte>, len: nat, p: nat, es: seq<Entry>, next: nat)
    requires len + 4 <= |b|
    ensures ReadTable(Ntb32, b, len, p) == Some(Table(es, next)) <==>
              && 16 <= p && p + 32 <= len
              && b[p..p + 4] == [0x6E, 0x63, 0x6D, 0x30]
              && 32 <= U16(b, p + 4) && U16(b, p + 4) % 4 == 0 && p + U16(b, p + 4) <= len
              && next == U32(b, p + 8) && (next == 0 || (16 <= next && next + 32 <= len))
              && 16 + 8 * |es| + 4 <= U16(b, p + 4)
              && (U32(b, p + 16 + 8 * |es|) == 0 || U32(b, p + 20 + 8 * |es|) == 0)
              && forall i :: 0 <= i < |es| ==>
                   && es[i].index == U32(b, p + 16 + 8 * i) && es[i].length == U32(b, p + 20 + 8 * i)
                   && es[i].length > 0 && 16 <= es[i].index && es[i].index + es[i].length <= len
  {
    hide Field;
    hide Scan;
    hide Slot;
    if 16 <= p && p + 32 <= len {
      Field32(b, p);
      FourBytes(b, p, 0x6E, 0x63, 0x6D, 0x30);
      Field16(b, p + 4);
      Field32(b, p + 8);
      if U16(b, p + 4) % 4 == 0 && p + U16(b, p + 4) <= len {
        Scan32Iff(b, len, p, U16(b, p + 4), es);
      }
    }
  }

  lemma Scan32Iff(b: seq<byte>, len: nat, p: nat, tableLength: nat, es: seq<Entry>)
    requires p + tableLength <= len && len + 4 <= |b| && tableLength % 4 == 0
    ensures Scan(Ntb32, b, len, p, tableLength, 0) == Some(es) <==>
              && 16 + 8 * |es| + 4 <= tableLength
              && (U32(b, p + 16 + 8 * |es|) == 0 || U32(b, p + 20 + 8 * |es|) == 0)
              && forall i :: 0 <= i < |es| ==>
                   && es[i].index == U32(b, p + 16 + 8 * i) && es[i].length == U32(b, p + 20 + 8 * i)
                   && es[i].length > 0 && 16 <= es[i].index && es[i].index + es[i].length <= len
  {
    hide Scan;
    hide Slot;
    hide U32;
    ScanIff(Ntb32, b, len, p, tableLength, 0, es);
    forall i: nat | 16 + 8 * i + 4 <= tableLength
      ensures Slot(Ntb32, b, p, 0 + i) == Entry(U32(b, p + 16 + 8 * i), U32(b, p + 20 + 8 * i))
    {
      Slot32(b, p, i);
    }
    if 16 + 8 * |es| + 4 <= tableLength {
      assert Slot(Ntb32, b, p, 0 + |es|) == Entry(U32(b, p + 16 + 8 * |es|), U32(b, p + 20 + 8 * |es|));
    }
    if FirstNull(Ntb32, b, len, p, tableLength, 0, es) {
      forall i | 0 <= i < |es|
        ensures Slot(Ntb32, b, p, 0 + i) == es[i] && es[i] in es
      {
      }
    }
  }

  lemma Slot32(b: seq<byte>, p: nat, i: nat)
    requires p + 16 + 8 * i + 8 <= |b|
    ensures Slot(Ntb32, b, p, i) == Entry(U32(b, p + 16 + 8 * i), U32(b, p + 20 + 8 * i))
  {
    Field32(b, p + 16 + 8 * i);
    Field32(b, p + 20 + 8 * i);
  }

  // ---------- What the builder writes ----------

  /** The eight bytes every block starts with: "NCMH" or "ncmh", the header's own length and the sequence number. */
  lemma HeaderBytes(c: Config, st: Build, sequence: nat)
    requires c.Valid() && FinishedSize(c, st) <= |st.bytes| && c.format.NthSize() <= st.offset && sequence < 0x1_0000
    ensures |st.bytes| >= 16
    ensures Finish(c, st, sequence)[0..8]
            == (if c.format.Ntb16? then [0x4E, 0x43, 0x4D, 0x48, 12, 0] else [0x6E, 0x63, 0x6D, 0x68, 16, 0])
               + [sequence % 0x100, sequence / 0x100]
  {
    hide Finish;
    hide AlignUpBy;
    hide ToLe;
    hide TransferLength;
    var f, b := c.format, Finish(c, st, sequence);
    FinishWrites(c, st, sequence);
    var d := f.NthBytes(sequence, TransferLength(c, st), f.Truncate(NdpOffset(c, st)));
    SliceOfSlice(b, 0, f.NthSize(), 0, 4);
    SliceOfSlice(b, 0, f.NthSize(), 4, 2);
    SliceOfSlice(b, 0, f.NthSize(), 6, 2);
    assert Slice(d, 0, 4) == ToLe(f.NthSignature(), 4);
    assert Slice(d, 4, 2) == ToLe(f.NthSize(), 2);
    assert Slice(d, 6, 2) == ToLe(sequence, 2);
    Written32(b, 0, f.NthSignature());
    if f.Ntb16? {
      FourBytes(b, 0, 0x4E, 0x43, 0x4D, 0x48);
    } else {
      FourBytes(b, 0, 0x6E, 0x63, 0x6D, 0x68);
    }
    Written16(b, 4, f.NthSize());
    Written16(b, 6, sequence);
    assert b[0..8] == b[0..0 + 4] + [b[4], b[5], b[6], b[7]];
  }

  /** The rest of a 16-bit header, and the table at the offset it names: signature, length, no successor. */
  lemma TableBytes16(c: Config, st: Build, sequence: nat)
    requires c.Valid() && c.format.Ntb16? && FinishedSize(c, st) <= |st.bytes| && 12 <= st.offset
    requires FieldsFit(c, st)
    ensures var b := Finish(c, st, sequence);
            && 12 <= |b| && U16(b, 8) == FinishedSize(c, st)
            && var p := U16(b, 10);
               && p + 8 <= |b| && b[p..p + 4] == [0x4E, 0x43, 0x4D, 0x30]
               && U16(b, p + 4) == 8 + 4 * (|st.spans| + 1) && U16(b, p + 6) == 0
               && p + U16(b, p + 4) == FinishedSize(c, st)
               && p % c.ndpAlignment == 0 && st.offset <= p < st.offset + c.ndpAlignment
  {
    hide Finish;
    hide AlignUpBy;
    hide ToLe;
    var b, p := Finish(c, st, sequence), NdpOffset(c, st);
    FinishWrites(c, st, sequence);
    TransferWholeIff(c, st);
    NthReadsBack(Ntb16, b, sequence, FinishedSize(c, st), p);
    Field16(b, 8);
    Field16(b, 10);
    Written32(b, p, Ntb16.NdpSignature());
    FourBytes(b, p, 0x4E, 0x43, 0x4D, 0x30);
    Written16(b, p + 4, 8 + 4 * (|st.spans| + 1));
    Written16(b, p + 6, 0);
  }

  lemma TableBytes32(c: Config, st: Build, sequence: nat)
    requires c.Valid() && c.format.Ntb32? && FinishedSize(c, st) <= |st.bytes| && 16 <= st.offset
    requires FieldsFit(c, st)
    ensures var b := Finish(c, st, sequence);
            && 16 <= |b| && U32(b, 8) == FinishedSize(c, st)
            && var p := U32(b, 12);
               && p + 16 <= |b| && b[p..p + 4] == [0x6E, 0x63, 0x6D, 0x30]
               && U16(b, p + 4) == 16 + 8 * (|st.spans| + 1) && U32(b, p + 8) == 0
               && p + U16(b, p + 4) == FinishedSize(c, st)
               && p % c.ndpAlignment == 0 && st.offset <= p < st.offset + c.ndpAlignment
  {
    hide Finish;
    hide AlignUpBy;
    hide ToLe;
    var b, p := Finish(c, st, sequence), NdpOffset(c, st);
    FinishWrites(c, st, sequence);
    TransferWholeIff(c, st);
    NthReadsBack(Ntb32, b, sequence, FinishedSize(c, st), p);
    Field32(b, 8);
    Field32(b, 12);
    Written32(b, p, Ntb32.NdpSignature());
    FourBytes(b, p, 0x6E, 0x63, 0x6D, 0x30);
    Written16(b, p + 4, 16 + 8 * (|st.spans| + 1));
    Written32(b, p + 8, 0);
  }

  /** Behind the table's header, entry i is where datagram i lies, and the last entry is all zeros. */
  lemma EntryBytes(c: Config, st: Build, sequence: nat, i: nat)
    requires c.Valid() && FinishedSize(c, st) <= |st.bytes| && c.format.NthSize() <= st.offset
    requires FieldsFit(c, st) && i <= |st.spans|
    requires forall e <- st.spans :: e.index + e.length <= st.offset
    ensures var b, p := Finish(c, st, sequence), AlignUpBy(st.offset, c.ndpAlignment);
            var e := if i < |st.spans| then st.spans[i] else Entry(0, 0);
            if c.format.Ntb16? then
              && p + 8 + 4 * i + 4 <= |b|
              && U16(b, p + 8 + 4 * i) == e.index && U16(b, p + 10 + 4 * i) == e.length
            else
              && p + 16 + 8 * i + 8 <= |b|
              && U32(b, p + 16 + 8 * i) == e.index && U32(b, p + 20 + 8 * i) == e.length
  {
    hide Finish;
    hide AlignUpBy;
    hide ToLe;
    hide EntryAt;
    hide Slice;
    hide Format.TableBytes;
    hide U16;
    hide U32;
    hide StoredLength;
    var f, n, b, p := c.format, |st.spans|, Finish(c, st, sequence), NdpOffset(c, st);
    FinishWrites(c, st, sequence);
    var es := StoredAll(f, st.spans) + [NULL_ENTRY];
    TableReadsBack(f, b, p + f.NdpSize(), es, i);
    if f.Ntb16? {
      Slot16(b, p, i);
    } else {
      Slot32(b, p, i);
    }
  }

  // ---------- Where things lie, in plain arithmetic ----------

  /** x rounded up to a multiple of a. */
  lemma RoundedUp(x: nat, a: nat)
    requires IsPow2(a)
    ensures a > 0 && AlignUpBy(x, a) == if x % a == 0 then x else x + (a - x % a)
  {
    AlignUpByIsRoundUp(x, a);
  }

  /**
    A copy is accepted if and only if the block has fewer datagrams than allowed and the table, put at the
    next multiple of its alignment behind the new datagram, ends within the buffer with one entry for
    each datagram. The datagram's payload, 14 bytes into it, lies the remainder behind the next
    multiple of the divisor.
   */
  lemma CopyIff(c: Config, st: Build, data: seq<byte>)
    requires c.Valid() && c.capacity <= |st.bytes|
    ensures c.divisor > 0 && c.ndpAlignment > 0
    ensures var x := st.offset + 14;
            var payload := (if x % c.divisor == 0 then x else x + (c.divisor - x % c.divisor)) + c.remainder;
            var end := payload - 14 + |data|;
            var table := if end % c.ndpAlignment == 0 then end else end + (c.ndpAlignment - end % c.ndpAlignment);
            var size := if c.format.Ntb16? then table + 8 + 4 * (|st.spans| + 1) else table + 16 + 8 * (|st.spans| + 1);
            var r := Copy(c, st, data);
            && (r.Some? <==> |st.spans| < c.maxDatagrams && size <= c.capacity)
            && (r.Some? ==>
                  && r.value.spans == st.spans + [Entry(payload - 14, |data|)] && r.value.offset == end
                  && r.value.bytes == st.bytes[..payload - 14] + data + st.bytes[end..])
  {
    hide AlignUpBy;
    hide IsPow2;
    RoundedUp(st.offset + 14, c.divisor);
    RoundedUp(c.DatagramOffset(st.offset) + |data|, c.ndpAlignment);
  }

  /** The first datagram follows the 12 or 16 bytes of the header, each later one its predecessor. */
  lemma {:induction false} EndsAtLast(c: Config, bytes: seq<byte>, packets: seq<seq<byte>>)
    requires c.Valid() && c.capacity <= |bytes| && Fill(c, Start(c, bytes), packets).Some?
    ensures var st := Fill(c, Start(c, bytes), packets).value;
            && |st.spans| == |packets|
            && st.offset == if packets == [] then (if c.format.Ntb16? then 12 else 16)
                            else st.spans[|packets| - 1].index + st.spans[|packets| - 1].length
    decreases |packets|
  {
    hide AlignUpBy;
    hide Put;
    if packets != [] {
      EndsAtLast(c, bytes, packets[..|packets| - 1]);
    }
  }

  /** The table offset a receiver parses is aligned and the next such offset behind the datagrams. */
  lemma ParsedTableOffset(c: Config, st: Build, packets: seq<seq<byte>>, sequence: nat, m: seq<byte>, length: nat)
    requires c.Valid() && Holds(c, st, packets) && packets != [] && AllNonEmpty(packets)
    requires FieldsFit(c, st) && FinishedSize(c, st) <= |st.bytes|
    requires Carries(c, st, Finish(c, st, sequence), m, length)
    ensures var h := ParseHeader(c.format, m, length);
            && h.Some? && c.ndpAlignment > 0
            && h.value.ndpIndex % c.ndpAlignment == 0
            && st.offset <= h.value.ndpIndex < st.offset + c.ndpAlignment
            && h.value.blockLength
               == h.value.ndpIndex + if c.format.Ntb16? then 8 + 4 * (|packets| + 1) else 16 + 8 * (|packets| + 1)
  {
    hide Finish;
    hide ParseHeader;
    hide ReadTable;
    hide Decode;
    hide Carries;
    hide AllNonEmpty;
    RoundTrip(c, st, packets, sequence, m, length);
    RoundedUp(st.offset, c.ndpAlignment);
  }

  // ---------- Transfers ----------

  /** A transfer that is not cut off inside the header starts with those bytes. */
  lemma WireBytes(data: seq<seq<byte>>, e: TxEvent)
    requires EventOk(data, e) && e.outcome.Handed? && e.outcome.sequence < 0x1_0000
    requires Representable(data, e)
    ensures |e.outcome.wire| >= 8
    ensures e.outcome.wire[0..8]
            == (if e.outcome.config.format.Ntb16? then [0x4E, 0x43, 0x4D, 0x48, 12, 0]
                else [0x6E, 0x63, 0x6D, 0x68, 16, 0])
               + [e.outcome.sequence % 0x100, e.outcome.sequence / 0x100]
  {
    hide Finish;
    hide FieldsFit;
    hide SizesFit;
    hide Fill;
    hide Closed;
    hide TransferLength;
    var c, packets, wire := e.outcome.config, PacketsOf(data, e), e.outcome.wire;
    var st := BlockState(data, e);
    FillHolds(c, e.outcome.before, packets);
    FieldsFitIff(c, e.outcome.before, packets, st);
    TransferWholeIff(c, st);
    HeaderBytes(c, st, e.outcome.sequence);
    var image, total := Finish(c, st, e.outcome.sequence), TransferLength(c, st);
    assert wire[0..8] == wire[..total][0..8] == image[..total][0..8] == image[0..8];
  }

  /**
    On the wire: bytes 6 and 7 of each transfer of a log count the blocks that were started, from the
    number of the block before, low byte first and modulo 2^16.
   */
  lemma WireNumbers(data: seq<seq<byte>>, log: seq<TxEvent>, done: nat, start: word, i: nat)
    requires Accounts(data, log, done) && Numbered(log, start) && i < |log| && log[i].outcome.Handed?
    requires log[i].from <= log[i].to <= |data| && Representable(data, log[i])
    ensures |log[i].outcome.wire| >= 8
    ensures log[i].outcome.wire[6] as int + 0x100 * (log[i].outcome.wire[7] as int)
            == (start + Blocks(log[..i + 1])) % 0x1_0000
  {
    hide EventOk;
    hide Representable;
    assert log[i] in log;
    NumberedAt(log, start, i);
    WireBytes(data, log[i]);
    var wire := log[i].outcome.wire;
    assert wire[6] == wire[0..8][6] && wire[7] == wire[0..8][7];
  }

  lemma {:induction false} NumberedAt(log: seq<TxEvent>, start: word, i: nat)
    requires Numbered(log, start) && i < |log| && log[i].outcome.Handed?
    ensures log[i].outcome.sequence == (start + Blocks(log[..i + 1])) % 0x1_0000
    decreases |log|
  {
    hide Blocks;
    if i < |log| - 1 {
      NumberedAt(log[..|log| - 1], start, i);
      assert log[..|log| - 1][..i + 1] == log[..i + 1];
    } else {
      assert log[..i + 1] == log;
    }
  }
}
