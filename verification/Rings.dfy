/**
  The packet and fragment rings shared with the operating system, and the iterators over them
  (inc/ncmringiterator.h). Ring sizes are powers of two and indices wrap by masking.
 */
module Rings {

  import opened Bits
  import opened Bytes

  datatype Packet = Packet(fragmentIndex: nat, fragmentCount: nat, ignore: bool)

  /** A fragment descriptor together with the memory at its virtual address. */
  datatype Fragment = Fragment(memory: seq<byte>, offset: nat, validLength: nat)
  {
    predicate InBounds() {
      offset + validLength <= |memory|
    }

    function ValidBytes(): (s: seq<byte>)
      requires InBounds()
      ensures |s| == validLength
    {
      Slice(memory, offset, validLength)
    }
  }

  ghost predicate RingSize(size: nat) {
    IsPow2(size) && size <= TWO_TO_THE_32
  }

  // ---------- Index arithmetic ----------

  /** NetRingAdvanceIndex: the 32-bit sum, masked. */
  function AdvanceIndex(size: nat, i: nat, n: nat): (r: nat)
    requires RingSize(size) && i < size && n <= size
    ensures r == Wrap(i + n, size)
  {
    MaskedIndexIsMod(i + n, size);
    WrapIsMod(i + n, size);
    And((i + n) % TWO_TO_THE_32, size - 1)
  }

  /** How many steps lead from index i to index j. */
  function Distance(size: nat, i: nat, j: nat): (r: nat)
    requires i < size && j < size
    ensures r < size && Wrap(i + r, size) == j
  {
    if i <= j then j - i else j + size - i
  }

  /** NetRingGetRangeCount and GetCount: the 32-bit difference, masked. */
  function RangeCount(size: nat, i: nat, j: nat): (r: nat)
    requires RingSize(size) && i < size && j < size
    ensures r == Distance(size, i, j)
  {
    MaskedDifference(size, i, j);
    And((j + TWO_TO_THE_32 - i) % TWO_TO_THE_32, size - 1)
  }

  /** The difference may go below zero, and wraps around 2^32 before it is masked. */
  lemma MaskedDifference(size: nat, i: nat, j: nat)
    requires RingSize(size) && i < size && j < size
    ensures And((j + TWO_TO_THE_32 - i) % TWO_TO_THE_32, size - 1) == Distance(size, i, j)
  {
    var k: nat :| Pow2(k) == size;
    if k > 32 {
      Pow2Grows(32, k);
      Pow2Of32();
    }
    Pow2Sum(k, 32 - k);
    Pow2Of32();
    var turns := Pow2(32 - k);
    MaskedIndexIsMod(j + TWO_TO_THE_32 - i, size);
    Arithmetic.Distribute(turns, 1, size);
    Arithmetic.DivModUnique(j + TWO_TO_THE_32 - i, size, if i <= j then turns else turns - 1, Distance(size, i, j));
  }

  lemma DistanceOfWrap(size: nat, i: nat, n: nat)
    requires i < size && n < size
    ensures Distance(size, i, Wrap(i + n, size)) == n
  {
  }

  /** The n ring elements that start at index i. */
  function Segment<T>(elements: seq<T>, i: nat, n: nat): (r: seq<T>)
    requires i < |elements| && n <= |elements|
    ensures |r| == n
    ensures forall k :: 0 <= k < n ==> r[k] == elements[Wrap(i + k, |elements|)]
  {
    seq(n, k requires 0 <= k < n => elements[Wrap(i + k, |elements|)])
  }

  // ---------- Packet data ----------

  predicate Gatherable(fragments: seq<Fragment>, i: nat, n: nat) {
    && i < |fragments| && n < |fragments|
    && forall k :: 0 <= k < n ==> InBoundsAt(fragments, i, k)
  }

  predicate InBoundsAt(fragments: seq<Fragment>, i: nat, k: nat)
    requires i < |fragments| && k < |fragments|
  {
    fragments[Wrap(i + k, |fragments|)].InBounds()
  }

  /** The valid bytes of n consecutive fragments from index i, across the end of the ring. */
  ghost function Gather(fragments: seq<Fragment>, i: nat, n: nat): seq<byte>
    requires Gatherable(fragments, i, n)
    decreases n
  {
    if n == 0 then []
    else
      GatherableNext(fragments, i, n);
      fragments[i].ValidBytes() + Gather(fragments, Wrap(i + 1, |fragments|), n - 1)
  }

  lemma GatherableNext(fragments: seq<Fragment>, i: nat, n: nat)
    requires Gatherable(fragments, i, n) && n > 0
    ensures fragments[i].InBounds() && Gatherable(fragments, Wrap(i + 1, |fragments|), n - 1)
  {
    var size := |fragments|;
    var next := Wrap(i + 1, size);
    assert InBoundsAt(fragments, i, 0);
    forall k | 0 <= k < n - 1
      ensures InBoundsAt(fragments, next, k)
    {
      assert InBoundsAt(fragments, i, k + 1);
    }
  }

  predicate PacketOk(fragments: seq<Fragment>, p: Packet) {
    Gatherable(fragments, p.fragmentIndex, p.fragmentCount)
  }

  ghost function PacketBytes(fragments: seq<Fragment>, p: Packet): seq<byte>
    requires PacketOk(fragments, p)
  {
    Gather(fragments, p.fragmentIndex, p.fragmentCount)
  }

  predicate AllOk(fragments: seq<Fragment>, ps: seq<Packet>) {
    forall p <- ps :: PacketOk(fragments, p)
  }

  /** The bytes of each packet. */
  ghost function DataOf(fragments: seq<Fragment>, ps: seq<Packet>): (r: seq<seq<byte>>)
    requires AllOk(fragments, ps)
    ensures |r| == |ps|
    ensures forall i :: 0 <= i < |ps| ==> r[i] == PacketBytes(fragments, ps[i])
  {
    seq(|ps|, i requires 0 <= i < |ps| => PacketBytes(fragments, ps[i]))
  }

  /** The number of valid bytes in the first n fragments from index i. */
  function BytesBefore(fragments: seq<Fragment>, i: nat, n: nat): nat
    requires i < |fragments| && n < |fragments|
    decreases n
  {
    if n == 0 then 0
    else BytesBefore(fragments, i, n - 1) + fragments[Wrap(i + (n - 1), |fragments|)].validLength
  }

  /**
    Byte k of the packet's j-th fragment, counted from the fragment's offset in its memory, is the packet's
    byte that many places behind the bytes of the fragments before it; and there are no other bytes.
   */
  lemma PacketByte(fragments: seq<Fragment>, p: Packet, j: nat, k: nat)
    requires PacketOk(fragments, p) && j < p.fragmentCount
    requires k < fragments[(p.fragmentIndex + j) % |fragments|].validLength
    ensures var fragment, o := fragments[(p.fragmentIndex + j) % |fragments|],
                               BytesBefore(fragments, p.fragmentIndex, j) + k;
            && fragment.offset + k < |fragment.memory| && o < |PacketBytes(fragments, p)|
            && PacketBytes(fragments, p)[o] == fragment.memory[fragment.offset + k]
    ensures |PacketBytes(fragments, p)| == BytesBefore(fragments, p.fragmentIndex, p.fragmentCount)
  {
    WrapIsMod(p.fragmentIndex + j, |fragments|);
    GatherByte(fragments, p.fragmentIndex, p.fragmentCount, j, k);
    GatherLength(fragments, p.fragmentIndex, p.fragmentCount);
  }

  lemma {:induction false} BytesBeforeNext(fragments: seq<Fragment>, i: nat, n: nat)
    requires i < |fragments| && 0 < n < |fragments|
    ensures BytesBefore(fragments, i, n)
            == fragments[i].validLength + BytesBefore(fragments, Wrap(i + 1, |fragments|), n - 1)
    decreases n
  {
    if n > 1 {
      BytesBeforeNext(fragments, i, n - 1);
    }
  }

  lemma {:induction false} GatherLength(fragments: seq<Fragment>, i: nat, n: nat)
    requires Gatherable(fragments, i, n)
    ensures |Gather(fragments, i, n)| == BytesBefore(fragments, i, n)
    decreases n
  {
    hide Slice;
    if n > 0 {
      GatherableNext(fragments, i, n);
      BytesBeforeNext(fragments, i, n);
      GatherLength(fragments, Wrap(i + 1, |fragments|), n - 1);
    }
  }

  lemma {:induction false} GatherByte(fragments: seq<Fragment>, i: nat, n: nat, j: nat, k: nat)
    requires Gatherable(fragments, i, n) && j < n && k < fragments[Wrap(i + j, |fragments|)].validLength
    ensures var fragment, o := fragments[Wrap(i + j, |fragments|)], BytesBefore(fragments, i, j) + k;
            && fragment.offset + k < |fragment.memory| && o < |Gather(fragments, i, n)|
            && Gather(fragments, i, n)[o] == fragment.memory[fragment.offset + k]
    decreases n
  {
    var next := Wrap(i + 1, |fragments|);
    GatherableNext(fragments, i, n);
    if j > 0 {
      GatherByte(fragments, next, n - 1, j - 1, k);
      BytesBeforeNext(fragments, i, j);
      assert Wrap(next + (j - 1), |fragments|) == Wrap(i + j, |fragments|);
    }
  }

  // ---------- Packets that tile the fragment ring ----------

  function FragmentTotal(ps: seq<Packet>): nat {
    if |ps| == 0 then 0 else ps[0].fragmentCount + FragmentTotal(ps[1..])
  }

  /** The packets' fragment ranges follow each other from fragment index i and do not overlap. */
  predicate Tiles(ps: seq<Packet>, i: nat, size: nat)
    requires i < size
    decreases |ps|
  {
    |ps| == 0
    || (&& ps[0].fragmentIndex == i && ps[0].fragmentCount < size
        && Tiles(ps[1..], Wrap(i + ps[0].fragmentCount, size), size)
        && FragmentTotal(ps) < size)
  }

  lemma {:induction false} FragmentTotalAdds(ps: seq<Packet>, qs: seq<Packet>)
    ensures FragmentTotal(ps + qs) == FragmentTotal(ps) + FragmentTotal(qs)
    decreases |ps|
  {
    if |ps| == 0 {
      assert ps + qs == qs;
    } else {
      assert (ps + qs)[1..] == ps[1..] + qs;
      FragmentTotalAdds(ps[1..], qs);
    }
  }

  /**
    Dropping packets from the front moves the start of the tiling by exactly the sum of their
    fragment counts, and that is where the last dropped packet's range ends.
   */
  lemma {:induction false} TilesSplits(ps: seq<Packet>, qs: seq<Packet>, i: nat, size: nat)
    requires i < size && Tiles(ps + qs, i, size)
    ensures FragmentTotal(ps) < size
    ensures Tiles(qs, Wrap(i + FragmentTotal(ps), size), size)
    ensures |ps| > 0 ==>
              var last := ps[|ps| - 1];
              && last.fragmentIndex < size && last.fragmentCount < size
              && Wrap(last.fragmentIndex + last.fragmentCount, size) == Wrap(i + FragmentTotal(ps), size)
    decreases |ps|
  {
    if |ps| == 0 {
      assert ps + qs == qs;
    } else {
      assert (ps + qs)[1..] == ps[1..] + qs;
      FragmentTotalAdds(ps, qs);
      FragmentTotalAdds(ps[1..], qs);
      TilesSplits(ps[1..], qs, Wrap(i + ps[0].fragmentCount, size), size);
    }
  }

  // ---------- Rings and iterators ----------

  class Ring<T> {
    const elements: array<T>
    var beginIndex: nat
    var endIndex: nat

    constructor (elements: array<T>, beginIndex: nat, endIndex: nat)
      ensures this.elements == elements && this.beginIndex == beginIndex && this.endIndex == endIndex
    {
      this.elements, this.beginIndex, this.endIndex := elements, beginIndex, endIndex;
    }

    ghost predicate Valid()
      reads this
    {
      RingSize(elements.Length) && beginIndex < elements.Length && endIndex < elements.Length
    }

    /** The elements the driver owns. */
    ghost function Owned(): (r: seq<T>)
      requires Valid()
      reads this, elements
    {
      Segment(elements[..], beginIndex, Distance(elements.Length, beginIndex, endIndex))
    }
  }

  /** The two rings of a packet queue. */
  class OsQueue {
    const packets: Ring<Packet>
    const fragments: Ring<Fragment>

    constructor (packets: Ring<Packet>, fragments: Ring<Fragment>)
      ensures this.packets == packets && this.fragments == fragments
    {
      this.packets, this.fragments := packets, fragments;
    }

    ghost predicate Valid()
      reads packets, fragments
    {
      packets.Valid() && fragments.Valid()
    }

    /** The posting is for rings of these sizes. */
    predicate Suits(p: Posting)
    {
      && |p.packets| == packets.elements.Length && p.packetsEnd < |p.packets|
      && |p.fragments| == fragments.elements.Length && p.fragmentsEnd < |p.fragments|
    }

    /** The operating system fills both rings anew and moves their ends; the driver's begins stay. */
    method Post(p: Posting)
      requires Valid() && Suits(p)
      modifies packets`endIndex, fragments`endIndex, packets.elements, fragments.elements
      ensures Valid() && packets.endIndex == p.packetsEnd && fragments.endIndex == p.fragmentsEnd
      ensures packets.elements[..] == p.packets && fragments.elements[..] == p.fragments
    {
      forall i | 0 <= i < |p.packets| {
        packets.elements[i] := p.packets[i];
      }
      forall i | 0 <= i < |p.fragments| {
        fragments.elements[i] := p.fragments[i];
      }
      packets.endIndex, fragments.endIndex := p.packetsEnd, p.fragmentsEnd;
    }

    /** The operating system posts nothing. */
    method PostNothing()
      requires Valid()
      modifies packets`endIndex, fragments`endIndex
      ensures Valid() && packets.endIndex == packets.beginIndex && fragments.endIndex == fragments.beginIndex
    {
      packets.endIndex, fragments.endIndex := packets.beginIndex, fragments.beginIndex;
    }

    /**
      NcmReturnAllPacketsAndFragments: every owned packet is marked to be ignored and both rings
      are given back whole.
     */
    method ReturnAll()
      requires Valid()
      modifies packets, packets.elements, fragments
      ensures Valid()
      ensures packets.beginIndex == packets.endIndex == old(packets.endIndex)
      ensures fragments.beginIndex == fragments.endIndex == old(fragments.endIndex)
      ensures forall i :: 0 <= i < packets.elements.Length ==>
                packets.elements[i] ==
                  if Distance(packets.elements.Length, old(packets.beginIndex), i)
                     < Distance(packets.elements.Length, old(packets.beginIndex), packets.endIndex)
                  then old(packets.elements[i]).(ignore := true)
                  else old(packets.elements[i])
    {
      var size := packets.elements.Length;
      ghost var first := packets.beginIndex;
      ghost var owned := Distance(size, first, packets.endIndex);
      ghost var done := 0;
      while packets.beginIndex != packets.endIndex
        invariant Valid() && packets.endIndex == old(packets.endIndex)
        invariant fragments.beginIndex == old(fragments.beginIndex) && fragments.endIndex == old(fragments.endIndex)
        invariant done <= owned && packets.beginIndex == Wrap(first + done, size)
        invariant forall i :: 0 <= i < size ==>
          packets.elements[i] ==
            if Distance(size, first, i) < done then old(packets.elements[i]).(ignore := true)
            else old(packets.elements[i])
        decreases owned - done
      {
        packets.elements[packets.beginIndex] := packets.elements[packets.beginIndex].(ignore := true);
        packets.beginIndex := AdvanceIndex(size, packets.beginIndex, 1);
        done := done + 1;
      }
      fragments.beginIndex := fragments.endIndex;
    }
  }

  /** New contents and ends for the two rings, as the operating system posts them. */
  datatype Posting = Posting(packets: seq<Packet>, fragments: seq<Fragment>, packetsEnd: nat, fragmentsEnd: nat)

  class FragmentIterator {
    const queue: OsQueue
    var index: nat
    const last: nat

    constructor (queue: OsQueue, index: nat, last: nat)
      ensures this.queue == queue && this.index == index && this.last == last
    {
      this.queue, this.index, this.last := queue, index, last;
    }

    ghost predicate Valid()
      reads this, queue.fragments
    {
      queue.fragments.Valid() && index < queue.fragments.elements.Length && last < queue.fragments.elements.Length
    }

    ghost function Remaining(): nat
      requires Valid()
      reads this, queue.fragments
    {
      Distance(queue.fragments.elements.Length, index, last)
    }

    predicate HasAny()
      reads this
    {
      index != last
    }

    function GetCount(): (r: nat)
      requires Valid()
      reads this, queue.fragments
      ensures r == Remaining()
    {
      RangeCount(queue.fragments.elements.Length, index, last)
    }

    function GetFragment(): Fragment
      requires Valid()
      reads this, queue.fragments, queue.fragments.elements
    {
      queue.fragments.elements[index]
    }

    method Advance()
      requires Valid() && HasAny()
      modifies this
      ensures Valid() && index == Wrap(old(index) + 1, queue.fragments.elements.Length)
      ensures Remaining() == old(Remaining()) - 1
    {
      index := AdvanceIndex(queue.fragments.elements.Length, index, 1);
    }
  }

  class PacketIterator {
    const queue: OsQueue
    var index: nat
    const last: nat

    /** NcmGetAllPackets when index and last are the ends of the owned range. */
    constructor (queue: OsQueue, index: nat, last: nat)
      ensures this.queue == queue && this.index == index && this.last == last
    {
      this.queue, this.index, this.last := queue, index, last;
    }

    ghost predicate Valid()
      reads this, queue.packets, queue.fragments
    {
      queue.Valid() && index < queue.packets.elements.Length && last < queue.packets.elements.Length
    }

    ghost function Remaining(): nat
      requires Valid()
      reads this, queue.packets, queue.fragments
    {
      Distance(queue.packets.elements.Length, index, last)
    }

    predicate HasAny()
      reads this
    {
      index != last
    }

    function GetPacket(): Packet
      requires Valid()
      reads this, queue.packets, queue.packets.elements, queue.fragments
    {
      queue.packets.elements[index]
    }

    /** The bytes of the packet under the iterator. */
    ghost function Data(): seq<byte>
      requires Valid() && PacketOk(queue.fragments.elements[..], GetPacket())
      reads this, queue.packets, queue.packets.elements, queue.fragments, queue.fragments.elements
    {
      PacketBytes(queue.fragments.elements[..], GetPacket())
    }

    method Advance()
      requires Valid() && HasAny()
      modifies this
      ensures Valid() && index == Wrap(old(index) + 1, queue.packets.elements.Length)
      ensures Remaining() == old(Remaining()) - 1
    {
      index := AdvanceIndex(queue.packets.elements.Length, index, 1);
    }

    method GetFragmentIterator() returns (fi: FragmentIterator)
      requires Valid() && PacketOk(queue.fragments.elements[..], GetPacket())
      ensures fresh(fi) && fi.queue == queue && fi.Valid()
      ensures fi.index == GetPacket().fragmentIndex && fi.Remaining() == GetPacket().fragmentCount
    {
      var packet := GetPacket();
      fi := new FragmentIterator(queue, packet.fragmentIndex,
        AdvanceIndex(queue.fragments.elements.Length, packet.fragmentIndex, packet.fragmentCount));
    }

    /** The packet just before the iterator. */
    ghost function Previous(): Packet
      requires Valid()
      reads this, queue.packets, queue.packets.elements, queue.fragments
    {
      var size := queue.packets.elements.Length;
      queue.packets.elements[Wrap(index + size - 1, size)]
    }

    /**
      Gives the packets before the iterator back, and with them the fragments up to the end of the
      last one's range.
     */
    method Set()
      requires Valid()
      requires index != queue.packets.beginIndex ==>
        && Previous().fragmentIndex < queue.fragments.elements.Length
        && Previous().fragmentCount < queue.fragments.elements.Length
      modifies queue.packets`beginIndex, queue.fragments`beginIndex
      ensures Valid() && queue.packets.beginIndex == index
      ensures queue.fragments.beginIndex ==
        if index == old(queue.packets.beginIndex) then old(queue.fragments.beginIndex)
        else Wrap(Previous().fragmentIndex + Previous().fragmentCount, queue.fragments.elements.Length)
    {
      var packets, fragments := queue.packets, queue.fragments;
      var iteratedCount := RangeCount(packets.elements.Length, packets.beginIndex, index);
      if iteratedCount > 0 {
        var lastPacketIndex := AdvanceIndex(packets.elements.Length, packets.beginIndex, iteratedCount - 1);
        var packet := packets.elements[lastPacketIndex];
        assert packet == Previous();
        fragments.beginIndex :=
          AdvanceIndex(fragments.elements.Length, packet.fragmentIndex, packet.fragmentCount);
      }
      packets.beginIndex := index;
    }

    /** NcmGetPacketDataLength */
    method GetPacketDataLength() returns (length: nat)
      requires Valid() && PacketOk(queue.fragments.elements[..], GetPacket())
      ensures length == |Data()|
    {
      hide RingSize;
      hide Slice;
      hide Wrap;
      length := 0;
      ghost var all := queue.fragments.elements[..];
      var fi := GetFragmentIterator();
      while fi.HasAny()
        invariant fi.queue == queue && fi.Valid() && fresh(fi)
        invariant Gatherable(all, fi.index, fi.Remaining())
        invariant length + |Gather(all, fi.index, fi.Remaining())| == |Data()|
        decreases fi.Remaining()
      {
        GatherableNext(all, fi.index, fi.Remaining());
        length := length + fi.GetFragment().validLength;
        fi.Advance();
      }
    }

    /**
      NcmCopyPacketDataToBuffer: the first bufferLength bytes of the packet, or all of them, written
      at an offset of the destination.
     */
    method CopyPacketDataToBuffer(dest: array<byte>, offset: nat, bufferLength: nat) returns (bytesCopied: nat)
      requires Valid() && PacketOk(queue.fragments.elements[..], GetPacket())
      requires offset + bufferLength <= dest.Length
      modifies dest
      ensures bytesCopied == if |Data()| < bufferLength then |Data()| else bufferLength
      ensures dest[..] == Put(old(dest[..]), offset, Data()[..bytesCopied])
    {
      hide Follows;
      hide RingSize;
      hide Wrap;
      hide PacketOk;
      hide Put;
      hide Slice;
      bytesCopied := 0;
      var left: nat := bufferLength;
      ghost var all, data, before := queue.fragments.elements[..], Data(), dest[..];
      FollowsStarts(all, GetPacket());
      PutNothing(before, offset);
      var fi := GetFragmentIterator();
      while fi.HasAny() && left > 0
        invariant fi.queue == queue && fi.Valid() && fresh(fi)
        invariant queue.fragments.elements[..] == all
        invariant bytesCopied + left == bufferLength && bytesCopied <= |data|
        invariant left > 0 ==> Follows(all, fi.index, fi.Remaining(), data, bytesCopied)
        invariant dest[..] == Put(before, offset, data[..bytesCopied])
        decreases fi.Remaining()
      {
        var fragment := fi.GetFragment();
        var bytesToCopy := if left < fragment.validLength then left else fragment.validLength;
        FollowsSplits(all, fi.index, fi.Remaining(), data, bytesCopied, bytesToCopy);
        var part := Slice(fragment.memory, fragment.offset, bytesToCopy);
        PutExtends(before, offset, data, bytesCopied, part);
        CopyMemory(dest, offset + bytesCopied, part);
        bytesCopied := bytesCopied + bytesToCopy;
        left := left - bytesToCopy;
        fi.Advance();
      }
      if left > 0 {
        FollowsEnds(all, fi.index, data, bytesCopied);
      }
    }
  }

  /** From byte done on, the data is what the n fragments from index i hold. */
  ghost predicate Follows(fragments: seq<Fragment>, i: nat, n: nat, data: seq<byte>, done: nat) {
    done <= |data| && Gatherable(fragments, i, n) && data[done..] == Gather(fragments, i, n)
  }

  /** The next m bytes of the data come from the fragment at hand; past it the rest of the ring follows. */
  lemma FollowsSplits(fragments: seq<Fragment>, i: nat, n: nat, data: seq<byte>, done: nat, m: nat)
    requires Follows(fragments, i, n, data, done) && n > 0 && i < |fragments|
    requires m <= fragments[i].validLength
    ensures fragments[i].InBounds() && done + m <= |data|
    ensures Slice(fragments[i].memory, fragments[i].offset, m) == data[done..done + m]
    ensures m == fragments[i].validLength ==>
              Follows(fragments, Wrap(i + 1, |fragments|), n - 1, data, done + m)
  {
    GatherableNext(fragments, i, n);
    var tail, bytes := data[done..], fragments[i].ValidBytes();
    var rest := Gather(fragments, Wrap(i + 1, |fragments|), n - 1);
    assert tail == bytes + rest;
    assert data[done..done + m] == tail[..m] == bytes[..m];
    assert data[done + m..] == tail[m..];
    if m == fragments[i].validLength {
      assert tail[m..] == rest;
    }
  }

  lemma FollowsStarts(fragments: seq<Fragment>, p: Packet)
    requires PacketOk(fragments, p)
    ensures Follows(fragments, p.fragmentIndex, p.fragmentCount, PacketBytes(fragments, p), 0)
  {
  }

  lemma FollowsEnds(fragments: seq<Fragment>, i: nat, data: seq<byte>, done: nat)
    requires Follows(fragments, i, 0, data, done)
    ensures done == |data|
  {
  }

  lemma PutNothing(b: seq<byte>, offset: nat)
    requires offset <= |b|
    ensures Put(b, offset, []) == b
  {
  }

  /** Writing the next part right behind what was written so far. */
  lemma PutExtends(b: seq<byte>, offset: nat, data: seq<byte>, n: nat, part: seq<byte>)
    requires n + |part| <= |data| && offset + n + |part| <= |b|
    requires part == data[n..n + |part|]
    ensures Put(Put(b, offset, data[..n]), offset + n, part) == Put(b, offset, data[..n + |part|])
  {
    assert data[..n] + part == data[..n + |part|];
  }
}
