/**
  The wire layout of NCM transfer blocks (USB CDC NCM Rev 1.0 Errata 1, sections 3.2 and 3.3) in
  both widths. One Format value stands for one instance of the driver's template.
 */
module NtbFormat {

  import opened Bytes

  /** One datagram pointer: where a datagram starts in the block and how long it is. */
  datatype Entry = Entry(index: nat, length: nat)

  const NULL_ENTRY := Entry(0, 0)

  const ETHERNET_HEADER_SIZE: nat := 14

  datatype Format = Ntb16 | Ntb32 {

    function NthSize(): nat { if Ntb16? then 12 else 16 }
    function NdpSize(): nat { if Ntb16? then 8 else 16 }
    function DpeSize(): nat { if Ntb16? then 4 else 8 }
    function PtrSize(): nat { if Ntb16? then 2 else 4 }
    function PtrLimit(): nat { if Ntb16? then 0x1_0000 else 0x1_0000_0000 }
    function NthSignature(): nat { if Ntb16? then 0x484D434E else 0x686D636E }
    function NdpSignature(): nat { if Ntb16? then 0x304D434E else 0x306D636E }

    /** Offset of the next-table field inside a datagram pointer table header. */
    function NextNdpOffset(): nat { if Ntb16? then 6 else 8 }

    /** Size of n datagram pointers. */
    function Slots(n: nat): nat { if Ntb16? then 4 * n else 8 * n }

    /** Smallest table the parser accepts: a header and two entries. */
    function MinTableSize(): nat { NdpSize() + Slots(2) }

    /**
      How far the parser's last entry read can reach past the declared block: the table length
      is only checked to be a multiple of 4, while a 32-bit entry has 8 bytes.
     */
    function Slack(): nat { if Ntb16? then 0 else 4 }

    /** What a cast to the pointer type leaves of a length or offset. */
    function Truncate(v: nat): (r: nat)
      ensures r < PtrLimit() && r <= v
      ensures v < PtrLimit() ==> r == v
    {
      v % PtrLimit()
    }

    function Stored(e: Entry): Entry {
      Entry(Truncate(e.index), Truncate(e.length))
    }

    function EntryBytes(e: Entry): (s: seq<byte>)
      ensures |s| == DpeSize()
    {
      ToLe(e.index, PtrSize()) + ToLe(e.length, PtrSize())
    }

    /** The in-memory image of a pointer table. */
    function TableBytes(es: seq<Entry>): (s: seq<byte>)
      ensures |s| == Slots(|es|)
    {
      if |es| == 0 then [] else TableBytes(es[..|es| - 1]) + EntryBytes(es[|es| - 1])
    }

    /** The transfer header at the start of a block. */
    function NthBytes(sequence: nat, blockLength: nat, ndpIndex: nat): (s: seq<byte>)
      ensures |s| == NthSize()
    {
      ToLe(NthSignature(), 4) + ToLe(NthSize(), 2) + ToLe(sequence, 2)
      + ToLe(blockLength, PtrSize()) + ToLe(ndpIndex, PtrSize())
    }
  }

  /** Little-endian field of n bytes at offset o. */
  function Field(b: seq<byte>, o: nat, n: nat): nat
    requires o + n <= |b|
  {
    FromLe(Slice(b, o, n))
  }

  function EntryAt(f: Format, b: seq<byte>, o: nat): Entry
    requires o + f.DpeSize() <= |b|
  {
    Entry(Field(b, o, f.PtrSize()), Field(b, o + f.PtrSize(), f.PtrSize()))
  }

  /** The bytes a datagram pointer designates. */
  function Payload(b: seq<byte>, e: Entry): (s: seq<byte>)
    requires e.index + e.length <= |b|
    ensures |s| == e.length
  {
    Slice(b, e.index, e.length)
  }

  lemma FieldOfSlice(b: seq<byte>, o: nat, n: nat, d: seq<byte>, k: nat)
    requires o + |d| <= |b| && Slice(b, o, |d|) == d && k + n <= |d|
    ensures Field(b, o + k, n) == FromLe(Slice(d, k, n))
  {
    SliceOfSlice(b, o, |d|, k, n);
  }

  /** Reading an entry back gives what the cast left of it. */
  lemma EntryReadsBack(f: Format, b: seq<byte>, o: nat, e: Entry)
    requires o + f.DpeSize() <= |b| && Slice(b, o, f.DpeSize()) == f.EntryBytes(e)
    ensures EntryAt(f, b, o) == f.Stored(e)
  {
    var d, n := f.EntryBytes(e), f.PtrSize();
    FieldOfSlice(b, o, n, d, 0);
    FieldOfSlice(b, o, n, d, n);
    assert Slice(d, 0, n) == ToLe(e.index, n) && Slice(d, n, n) == ToLe(e.length, n);
    FieldReadsBack(e.index, n);
    FieldReadsBack(e.length, n);
  }

  lemma {:induction false} TableSlice(f: Format, es: seq<Entry>, i: nat)
    requires i < |es|
    ensures f.Slots(i) + f.DpeSize() <= f.Slots(|es|)
    ensures Slice(f.TableBytes(es), f.Slots(i), f.DpeSize()) == f.EntryBytes(es[i])
    decreases |es|
  {
    var front := es[..|es| - 1];
    if i < |front| {
      TableSlice(f, front, i);
    }
  }

  /** The i-th slot of a table image holds the i-th entry. */
  lemma TableReadsBack(f: Format, b: seq<byte>, o: nat, es: seq<Entry>, i: nat)
    requires i < |es| && o + f.Slots(|es|) <= |b|
    requires Slice(b, o, f.Slots(|es|)) == f.TableBytes(es)
    ensures f.Slots(i) + f.DpeSize() <= f.Slots(|es|)
    ensures EntryAt(f, b, o + f.Slots(i)) == f.Stored(es[i])
  {
    TableSlice(f, es, i);
    SliceOfSlice(b, o, f.Slots(|es|), f.Slots(i), f.DpeSize());
    EntryReadsBack(f, b, o + f.Slots(i), es[i]);
  }

  /** The fields of a transfer header read back, up to the truncation of the casts. */
  lemma NthReadsBack(f: Format, b: seq<byte>, sequence: nat, blockLength: nat, ndpIndex: nat)
    requires f.NthSize() <= |b| && Slice(b, 0, f.NthSize()) == f.NthBytes(sequence, blockLength, ndpIndex)
    ensures Field(b, 0, 4) == f.NthSignature() && Field(b, 4, 2) == f.NthSize()
    ensures Field(b, 8, f.PtrSize()) == f.Truncate(blockLength)
    ensures Field(b, 8 + f.PtrSize(), f.PtrSize()) == f.Truncate(ndpIndex)
  {
    var d, n := f.NthBytes(sequence, blockLength, ndpIndex), f.PtrSize();
    FieldOfSlice(b, 0, 4, d, 0);
    FieldOfSlice(b, 0, 2, d, 4);
    FieldOfSlice(b, 0, n, d, 8);
    FieldOfSlice(b, 0, n, d, 8 + n);
    assert Slice(d, 0, 4) == ToLe(f.NthSignature(), 4);
    assert Slice(d, 4, 2) == ToLe(f.NthSize(), 2);
    assert Slice(d, 8, n) == ToLe(blockLength, n);
    assert Slice(d, 8 + n, n) == ToLe(ndpIndex, n);
    FieldReadsBack(f.NthSignature(), 4);
    FieldReadsBack(f.NthSize(), 2);
    FieldReadsBack(blockLength, n);
    FieldReadsBack(ndpIndex, n);
  }
}
