/**
  What the block builder computes (common/ntb.cpp): where each datagram goes, what is recorded for
  it, and the finished image. The class in TransferBlock.dfy is proved against these functions.
 */
module NtbBuilder {

  import opened Common
  import opened Bits
  import opened Bytes
  import opened NtbFormat

  /** The negotiated parameters of a block and the length of the buffer it is built in. */
  datatype Config = Config(
    format: Format,
    maxDatagrams: nat,
    ndpAlignment: nat,
    divisor: nat,
    remainder: nat,
    capacity: nat)
  {
    /** The alignment masks need powers of two. */
    ghost predicate Valid() {
      IsPow2(ndpAlignment) && IsPow2(divisor)
    }

    /** Start of the next datagram after offset: its payload obeys divisor and remainder. */
    function DatagramOffset(offset: nat): (r: nat)
      requires Valid()
      ensures offset <= r
    {
      AlignUpBy(offset + ETHERNET_HEADER_SIZE, divisor) + remainder - ETHERNET_HEADER_SIZE
    }

    /** End of a block whose datagrams end at offset and whose table has n entries. */
    function SizeWith(offset: nat, n: nat): (r: nat)
      requires Valid()
      ensures offset <= r
    {
      AlignUpBy(offset, ndpAlignment) + format.NdpSize() + format.Slots(n)
    }
  }

  /**
    A block under construction: the buffer, the end of the last datagram, and the datagrams placed
    so far (as placed: the pointer table stores them cast to the pointer width).
   */
  datatype Build = Build(bytes: seq<byte>, offset: nat, spans: seq<Entry>)

  function Start(c: Config, bytes: seq<byte>): Build {
    Build(bytes, c.format.NthSize(), [])
  }

  /** CopyNextDatagram; None is STATUS_BUFFER_TOO_SMALL. */
  function Copy(c: Config, st: Build, data: seq<byte>): Option<Build>
    requires c.Valid() && c.capacity <= |st.bytes|
  {
    var at := c.DatagramOffset(st.offset);
    var end := at + |data|;
    if |st.spans| >= c.maxDatagrams || c.SizeWith(end, |st.spans| + 1) > c.capacity then
      None
    else
      Some(Build(Put(st.bytes, at, data), end, st.spans + [Entry(at, |data|)]))
  }

  function StoredAll(f: Format, es: seq<Entry>): (r: seq<Entry>)
    ensures |r| == |es|
    ensures forall i :: 0 <= i < |es| ==> r[i] == f.Stored(es[i])
  {
    seq(|es|, i requires 0 <= i < |es| => f.Stored(es[i]))
  }

  /** Length of the finished block: one entry more than Copy reserved. */
  function FinishedSize(c: Config, st: Build): nat
    requires c.Valid()
  {
    c.SizeWith(st.offset, |st.spans| + 1)
  }

  /** What SetNdp stores in the table's 16-bit length field. */
  function TableLengthField(c: Config, n: nat): (r: nat)
    ensures r <= c.format.NdpSize() + c.format.Slots(n + 1)
  {
    (c.format.NdpSize() + c.format.Slots(n + 1)) % 0x1_0000
  }

  /** What SetNdp stores as the length of a block whose n datagrams end at offset. */
  function StoredLength(c: Config, offset: nat, n: nat): (r: nat)
    requires c.Valid()
    ensures r < c.format.PtrLimit() && r <= c.SizeWith(offset, n + 1)
  {
    c.format.Truncate(AlignUpBy(offset, c.ndpAlignment) + TableLengthField(c, n))
  }

  /** The length stored in the header of the finished block, and returned as the transfer length. */
  function TransferLength(c: Config, st: Build): (r: nat)
    requires c.Valid()
    ensures r < c.format.PtrLimit() && r <= FinishedSize(c, st)
  {
    StoredLength(c, st.offset, |st.spans|)
  }

  /** The buffer after SetNdp. For 32-bit blocks the reserved fields keep whatever was there. */
  function Finish(c: Config, st: Build, sequence: nat): (r: seq<byte>)
    requires c.Valid()
    requires FinishedSize(c, st) <= |st.bytes| && c.format.NthSize() <= |st.bytes|
    ensures |r| == |st.bytes|
  {
    var f, n := c.format, |st.spans|;
    var ndp := AlignUpBy(st.offset, c.ndpAlignment);
    var b1 := Put(st.bytes, ndp, ToLe(f.NdpSignature(), 4));
    var b2 := Put(b1, ndp + 4, ToLe(TableLengthField(c, n), 2));
    var b3 := Put(b2, ndp + f.NextNdpOffset(), ToLe(0, f.PtrSize()));
    var b4 := Put(b3, ndp + f.NdpSize(), f.TableBytes(StoredAll(f, st.spans) + [NULL_ENTRY]));
    Put(b4, 0, f.NthBytes(sequence, TransferLength(c, st), f.Truncate(ndp)))
  }

  // ---------- Runs of copies ----------

  /** Copies every packet in turn; None as soon as one is refused. */
  function Fill(c: Config, st: Build, packets: seq<seq<byte>>): (r: Option<Build>)
    requires c.Valid() && c.capacity <= |st.bytes|
    ensures r.Some? ==> |r.value.bytes| == |st.bytes|
    decreases |packets|
  {
    if |packets| == 0 then Some(st)
    else
      match Fill(c, st, packets[..|packets| - 1])
      case None => None
      case Some(st') => Copy(c, st', packets[|packets| - 1])
  }

  ghost predicate PlacedAt(c: Config, e: Entry) {
    && c.divisor > 0
    && c.format.NthSize() <= e.index
    && (e.index + ETHERNET_HEADER_SIZE) % c.divisor == c.remainder % c.divisor
  }

  /**
    The layout of a block under construction: the datagrams lie in order and apart between the
    header and the aligned table offset, hold their packets' bytes, obey the payload alignment,
    and the table for them fits the buffer.
   */
  ghost predicate Holds(c: Config, st: Build, packets: seq<seq<byte>>)
    requires c.Valid()
  {
    && c.capacity <= |st.bytes|
    && |st.spans| == |packets| <= c.maxDatagrams
    && c.format.NthSize() <= st.offset
    && (|packets| > 0 ==> c.SizeWith(st.offset, |packets|) <= c.capacity)
    && (forall i :: 0 <= i < |packets| ==> SpanHolds(c, st, packets, i))
    && (forall i, j :: 0 <= i < j < |packets| ==> st.spans[i].index + st.spans[i].length <= st.spans[j].index)
  }

  ghost predicate SpanHolds(c: Config, st: Build, packets: seq<seq<byte>>, i: nat)
    requires i < |packets| == |st.spans|
  {
    var e := st.spans[i];
    && PlacedAt(c, e)
    && e.length == |packets[i]|
    && e.index + e.length <= st.offset
    && e.index + e.length <= |st.bytes|
    && Payload(st.bytes, e) == packets[i]
  }

  lemma StartHolds(c: Config, bytes: seq<byte>)
    requires c.Valid() && c.capacity <= |bytes|
    ensures Holds(c, Start(c, bytes), [])
  {
  }

  lemma OffsetIsCongruent(c: Config, offset: nat)
    requires c.Valid()
    ensures c.divisor > 0
    ensures (c.DatagramOffset(offset) + ETHERNET_HEADER_SIZE) % c.divisor == c.remainder % c.divisor
  {
    var up := AlignUpBy(offset + ETHERNET_HEADER_SIZE, c.divisor);
    Arithmetic.Euclid(up, c.divisor);
    Arithmetic.Euclid(c.remainder, c.divisor);
    var q, r := up / c.divisor, c.remainder / c.divisor;
    Arithmetic.Distribute(q, -r, c.divisor);
    Arithmetic.DivModUnique(up + c.remainder, c.divisor, q + r, c.remainder % c.divisor);
  }

  /** An accepted copy keeps every earlier datagram and adds its own. */
  lemma CopyKeeps(c: Config, st: Build, packets: seq<seq<byte>>, data: seq<byte>)
    requires c.Valid() && Holds(c, st, packets) && Copy(c, st, data).Some?
    ensures Holds(c, Copy(c, st, data).value, packets + [data])
  {
    var st', all := Copy(c, st, data).value, packets + [data];
    var at := c.DatagramOffset(st.offset);
    OffsetIsCongruent(c, st.offset);
    forall i | 0 <= i < |all|
      ensures SpanHolds(c, st', all, i)
    {
      if i < |packets| {
        var e := st.spans[i];
        assert SpanHolds(c, st, packets, i);
        SlicePutApart(st.bytes, at, data, e.index, e.length);
      } else {
        SlicePutSame(st.bytes, at, data);
      }
    }
    forall i, j | 0 <= i < j < |all|
      ensures st'.spans[i].index + st'.spans[i].length <= st'.spans[j].index
    {
      if j == |packets| {
        assert SpanHolds(c, st, packets, i);
      }
    }
  }

  /** The layout invariant over any run of copies, for any initial contents of the buffer. */
  lemma {:induction false} FillHolds(c: Config, bytes: seq<byte>, packets: seq<seq<byte>>)
    requires c.Valid() && c.capacity <= |bytes|
    ensures var r := Fill(c, Start(c, bytes), packets);
            r.Some? ==> Holds(c, r.value, packets)
    decreases |packets|
  {
    hide Copy;
    hide Holds;
    if |packets| == 0 {
      StartHolds(c, bytes);
    } else {
      var front := packets[..|packets| - 1];
      FillHolds(c, bytes, front);
      var r := Fill(c, Start(c, bytes), packets);
      if r.Some? {
        CopyKeeps(c, Fill(c, Start(c, bytes), front).value, front, packets[|packets| - 1]);
        assert front + [packets[|packets| - 1]] == packets;
      }
    }
  }

  // ---------- What the sizes of the packets decide ----------

  function Sizes(packets: seq<seq<byte>>): (r: seq<nat>)
    ensures |r| == |packets| && forall i :: 0 <= i < |r| ==> r[i] == |packets[i]|
  {
    seq(|packets|, i requires 0 <= i < |packets| => |packets[i]|)
  }

  /** Where the last of these datagrams ends in a block that starts with them. */
  function EndAfter(c: Config, sizes: seq<nat>): nat
    requires c.Valid()
  {
    if |sizes| == 0 then c.format.NthSize()
    else c.DatagramOffset(EndAfter(c, sizes[..|sizes| - 1])) + sizes[|sizes| - 1]
  }

  /** A block that holds the first n of these datagrams takes the next one. */
  predicate Takes(c: Config, sizes: seq<nat>, n: nat)
    requires c.Valid() && n < |sizes|
  {
    n < c.maxDatagrams && c.SizeWith(EndAfter(c, sizes[..n + 1]), n + 1) <= c.capacity
  }

  /** How many of these datagrams a block ends up with that holds the first n. */
  function Taken(c: Config, sizes: seq<nat>, n: nat): (r: nat)
    requires c.Valid() && n <= |sizes|
    ensures n <= r <= |sizes|
    decreases |sizes| - n
  {
    if n < |sizes| && Takes(c, sizes, n) then Taken(c, sizes, n + 1) else n
  }

  /** A copy is accepted if and only if the sizes allow it. */
  lemma CopySizes(c: Config, st: Build, sizes: seq<nat>, data: seq<byte>)
    requires c.Valid() && c.capacity <= |st.bytes|
    requires st.offset == EndAfter(c, sizes) && |st.spans| == |sizes|
    ensures var r := Copy(c, st, data);
            && (r.Some? <==> Takes(c, sizes + [|data|], |sizes|))
            && (r.Some? ==> r.value.offset == EndAfter(c, sizes + [|data|]) && |r.value.spans| == |sizes| + 1)
  {
    hide AlignUpBy;
    hide IsPow2;
    hide Put;
    var all := sizes + [|data|];
    assert all[..|sizes| + 1] == all && all[..|all| - 1] == sizes;
  }

  /** Whether a block takes datagram i depends on those up to i only. */
  lemma TakesPrefix(c: Config, sizes: seq<nat>, n: nat, i: nat)
    requires c.Valid() && i < n <= |sizes|
    ensures Takes(c, sizes[..n], i) == Takes(c, sizes, i)
  {
    assert sizes[..n][..i + 1] == sizes[..i + 1];
  }

  /** A run of copies goes through if and only if the sizes allow each of them, and ends where they say. */
  lemma {:induction false} FillSizes(c: Config, bytes: seq<byte>, packets: seq<seq<byte>>)
    requires c.Valid() && c.capacity <= |bytes|
    ensures var r := Fill(c, Start(c, bytes), packets);
            && (r.Some? <==> forall i :: 0 <= i < |packets| ==> Takes(c, Sizes(packets), i))
            && (r.Some? ==> r.value.offset == EndAfter(c, Sizes(packets)) && |r.value.spans| == |packets|)
    decreases |packets|
  {
    hide Takes;
    hide EndAfter;
    hide Copy;
    hide Config.Valid;
    if |packets| == 0 {
      EndOfNothing(c);
      assert Sizes(packets) == [];
    } else {
      var n, sizes := |packets| - 1, Sizes(packets);
      FillSizes(c, bytes, packets[..n]);
      assert Sizes(packets[..n]) == sizes[..n] && sizes == sizes[..n] + [|packets[n]|];
      forall i | 0 <= i < n
        ensures Takes(c, sizes[..n], i) == Takes(c, sizes, i)
      {
        TakesPrefix(c, sizes, n, i);
      }
      var before := Fill(c, Start(c, bytes), packets[..n]);
      if before.Some? {
        CopySizes(c, before.value, sizes[..n], packets[n]);
      }
    }
  }

  lemma EndOfNothing(c: Config)
    requires c.Valid()
    ensures EndAfter(c, []) == c.format.NthSize()
  {
  }

  lemma {:induction false} TakenIs(c: Config, sizes: seq<nat>, k: nat, n: nat)
    requires c.Valid() && k <= n <= |sizes| && (n < |sizes| ==> !Takes(c, sizes, n))
    requires forall i :: k <= i < n ==> Takes(c, sizes, i)
    ensures Taken(c, sizes, k) == n
    decreases n - k
  {
    hide Takes;
    if k < n {
      TakenIs(c, sizes, k + 1, n);
    }
  }

  lemma {:induction false} TakenTakes(c: Config, sizes: seq<nat>, k: nat, i: nat)
    requires c.Valid() && k <= |sizes| && k <= i < Taken(c, sizes, k)
    ensures Takes(c, sizes, i)
    decreases i - k
  {
    hide Takes;
    if k < i {
      TakenTakes(c, sizes, k + 1, i);
    }
  }

  lemma {:induction false} TakenStops(c: Config, sizes: seq<nat>, k: nat)
    requires c.Valid() && k <= |sizes| && Taken(c, sizes, k) < |sizes|
    ensures !Takes(c, sizes, Taken(c, sizes, k))
    decreases |sizes| - k
  {
    hide Takes;
    if Takes(c, sizes, k) {
      TakenStops(c, sizes, k + 1);
    }
  }

  // ---------- Size of the finished block ----------

  /**
    The finished block overruns what the copies reserved by exactly one entry at most: it is never
    longer than the buffer plus one entry.
   */
  lemma FinishedSizeBound(c: Config, st: Build, packets: seq<seq<byte>>)
    requires c.Valid() && Holds(c, st, packets) && |packets| > 0
    ensures FinishedSize(c, st) == c.SizeWith(st.offset, |packets|) + c.format.DpeSize()
    ensures FinishedSize(c, st) <= c.capacity + c.format.DpeSize()
  {
  }

  /**
    The finished block fits the buffer if and only if the check made before the last copy would
    still have passed with room for one entry more.
   */
  lemma FinishedFitsIff(c: Config, st: Build, data: seq<byte>)
    requires c.Valid() && c.capacity <= |st.bytes| && Copy(c, st, data).Some?
    ensures FinishedSize(c, Copy(c, st, data).value) <= c.capacity
            <==> c.SizeWith(c.DatagramOffset(st.offset) + |data|, |st.spans| + 2) <= c.capacity
  {
  }
}
