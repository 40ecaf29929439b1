/** The receive path (adapter/rxqueue.cpp) and the queue of received buffers (common/buffers.cpp). */
module RxQueues {

  import opened Common
  import opened Bits
  import opened Bytes
  import opened NtbFormat
  import opened NtbParser
  import opened NtbCursor
  import opened Rings
  import opened TransferBlocks
  import opened RxFrames

  /**
    What has to be given back for a received buffer: a reference on a memory object, or a buffer
    borrowed from a continuous request target.
   */
  datatype Claim = Referenced(memory: array<byte>) | Borrowed(target: object, memory: array<byte>)

  /**
    RX_BUFFER. The array stands for the memory at Buffer, including the few bytes behind the declared
    size that the parser may read; content is what it holds while the driver owns the buffer.
   */
  class RxBuffer {
    const memory: array<byte>
    const size: nat
    const claim: Claim
    ghost const content: seq<byte>

    constructor (memory: array<byte>, size: nat, claim: Claim)
      ensures this.memory == memory && this.size == size && this.claim == claim && content == memory[..]
    {
      this.memory, this.size, this.claim, content := memory, size, claim, memory[..];
    }
  }

  /** The buffer queue, first in first out, and the claims that are outstanding. */
  class BufferQueue {
    var pending: seq<RxBuffer>
    var outstanding: multiset<Claim>

    /** The claims released so far. */
    ghost var released: multiset<Claim>

    constructor ()
      ensures pending == [] && outstanding == multiset{} && released == multiset{}
    {
      pending, outstanding, released := [], multiset{}, multiset{};
    }

    /** The claims ever recorded: those outstanding and those released. */
    ghost function Taken(): multiset<Claim>
      reads this
    {
      outstanding + released
    }

    /**
      RxBufferQueueEnqueueBuffer. fetched says whether a record for the buffer could be had. A buffer
      that comes as a memory object is referenced here; one that comes from a target is borrowed
      already and only recorded.
     */
    method EnqueueBuffer(memory: array<byte>, size: nat, claim: Claim, fetched: bool)
      returns (status: Status, ghost r: RxBuffer?)
      modifies this
      ensures released == old(released)
      ensures if fetched then
                && status == Success && outstanding == old(outstanding) + multiset{claim}
                && r != null && pending == old(pending) + [r]
                && r.memory == memory && r.size == size && r.claim == claim && r.content == memory[..]
              else
                status == Unsuccessful && pending == old(pending) && outstanding == old(outstanding)
    {
      if !fetched {
        return Unsuccessful, null;
      }
      var record := new RxBuffer(memory, size, claim);
      outstanding := outstanding + multiset{claim};
      pending := pending + [record];
      return Success, record;
    }

    method DequeueBuffer() returns (r: RxBuffer?)
      modifies this`pending
      ensures if old(pending) == [] then r == null && pending == []
              else r == old(pending)[0] && pending == old(pending)[1..]
    {
      if pending == [] {
        return null;
      }
      r, pending := pending[0], pending[1..];
    }

    /** RxBufferQueueReturnBuffer: puts the borrowed buffer back or drops the reference. */
    method ReturnBuffer(r: RxBuffer)
      requires r.claim in outstanding
      modifies this`outstanding, this`released
      ensures outstanding == old(outstanding) - multiset{r.claim}
      ensures released == old(released) + multiset{r.claim} && Taken() == old(Taken())
    {
      outstanding := outstanding - multiset{r.claim};
      released := released + multiset{r.claim};
    }
  }

  function ClaimsOf(rs: seq<RxBuffer>): multiset<Claim> {
    if rs == [] then multiset{} else multiset{rs[0].claim} + ClaimsOf(rs[1..])
  }

  lemma {:induction false} ClaimsAppend(rs: seq<RxBuffer>, r: RxBuffer)
    ensures ClaimsOf(rs + [r]) == ClaimsOf(rs) + multiset{r.claim}
    decreases |rs|
  {
    if rs == [] {
      assert ([r])[1..] == [];
    } else {
      ClaimsAppend(rs[1..], r);
      assert (rs + [r])[1..] == rs[1..] + [r];
    }
  }

  lemma ClaimsGrow(rs: seq<RxBuffer>, r: RxBuffer, others: multiset<Claim>)
    ensures ClaimsOf(rs + [r]) + others == ClaimsOf(rs) + others + multiset{r.claim}
  {
    ClaimsAppend(rs, r);
  }

  lemma AcceptableAppend(f: Format, rs: seq<RxBuffer>, r: RxBuffer)
    requires (forall q <- rs :: Acceptable(f, q)) && Acceptable(f, r)
    ensures forall q <- rs + [r] :: Acceptable(f, q)
  {
  }

  /** A buffer the parser can be let loose on. */
  ghost predicate Acceptable(f: Format, r: RxBuffer) {
    Tame(f, r.content, r.size) && r.size <= MAX_RECEIVE_LENGTH
  }

  lemma TameReadable(f: Format, r: RxBuffer)
    requires Acceptable(f, r)
    ensures Readable(f, r.content, r.size)
  {
  }

  /** The frames of queued buffers, in order. */
  ghost function QueuedFrames(p: RxParameters, rs: seq<RxBuffer>): seq<seq<byte>>
    requires forall r <- rs :: Acceptable(p.format, r)
  {
    if rs == [] then []
    else
      TameReadable(p.format, rs[0]);
      FramesOf(p, rs[0].content, rs[0].size) + QueuedFrames(p, rs[1..])
  }

  lemma {:induction false} QueuedAppend(p: RxParameters, rs: seq<RxBuffer>, r: RxBuffer)
    requires forall q <- rs :: Acceptable(p.format, q)
    requires Acceptable(p.format, r)
    ensures QueuedFrames(p, rs + [r]) == QueuedFrames(p, rs) + FramesOf(p, r.content, r.size)
    decreases |rs|
  {
    hide FramesOf;
    hide Tame;
    if rs == [] {
      assert [r][1..] == [];
    } else {
      assert forall q <- rs[1..] :: q in rs;
      QueuedAppend(p, rs[1..], r);
      assert (rs + [r])[1..] == rs[1..] + [r];
    }
  }

  class RxQueue {
    const queue: OsQueue
    const buffers: BufferQueue
    const block: TransferBlock
    const parameters: RxParameters
    var processing: RxBuffer?

    /** The bytes of the packets given back to the system so far. */
    ghost var delivered: seq<seq<byte>>

    constructor (queue: OsQueue, buffers: BufferQueue, block: TransferBlock, parameters: RxParameters)
      ensures this.queue == queue && this.buffers == buffers && this.block == block
      ensures this.parameters == parameters && processing == null && delivered == []
    {
      this.queue, this.buffers, this.block, this.parameters := queue, buffers, block, parameters;
      processing, delivered := null, [];
    }

    ghost predicate Intact(r: RxBuffer)
      reads r.memory
    {
      r.memory[..] == r.content
    }

    /** The buffer in processing, if any, is where the parser stands. */
    ghost predicate AtWork()
      reads this`processing, block
    {
      processing != null ==>
        && block.buffer == processing.memory && block.bufferLength == processing.size
        && block.blockLength <= block.bufferLength <= MAX_RECEIVE_LENGTH
        && Midway(parameters.format, processing.content, block.blockLength, block.Cur())
    }

    /**
      Each queued buffer and the one in processing is claimed exactly once, and nothing else is.
     */
    ghost predicate Owned()
      reads this`processing, buffers
    {
      buffers.outstanding ==
        ClaimsOf(buffers.pending) + if processing == null then multiset{} else multiset{processing.claim}
    }

    ghost function Memories(): set<array<byte>>
      reads this`processing, buffers
    {
      (set r | r in buffers.pending :: r.memory) + if processing == null then {} else {processing.memory}
    }

    /** What the driver knows of its buffers apart from what their memory holds. */
    ghost predicate Holding()
      reads this`processing, buffers
    {
      && block.Initialized() && block.format == parameters.format
      && (forall r <- buffers.pending :: Acceptable(parameters.format, r))
      && (processing != null ==> Acceptable(parameters.format, processing))
      && Owned()
    }

    ghost predicate Steady()
      reads this`processing, buffers, block
    {
      Holding() && AtWork()
    }

    /** Nobody has written to the buffers the driver owns. */
    ghost predicate MemoryIntact()
      reads this`processing, buffers, Memories()
    {
      && (forall r <- buffers.pending :: Intact(r))
      && (processing != null ==> Intact(processing))
    }

    /** The frames not yet delivered: those left in the buffer in processing, then those queued. */
    ghost function Backlog(): seq<seq<byte>>
      requires Steady()
      reads this`processing, buffers, block
    {
      (if processing == null then []
       else FramesLeft(parameters, processing.content, block.blockLength, block.Cur()))
      + QueuedFrames(parameters, buffers.pending)
    }

    ghost function Progress(): RxProgress
      requires Steady()
      reads this`processing, this`delivered, buffers, block
    {
      RxProgress(Backlog(), delivered)
    }

    /**
      NotifyReceive up to the wake-up: the buffer joins the queue, and its frames the backlog. When no
      record can be had for it, it is not recorded anywhere.
     */
    method Receive(memory: array<byte>, size: nat, claim: Claim, fetched: bool)
      requires Steady() && MemoryIntact()
      requires fetched ==> Tame(parameters.format, memory[..], size) && size <= MAX_RECEIVE_LENGTH
      modifies buffers
      ensures Steady() && MemoryIntact()
      ensures Progress()
              == Step(old(Progress()), Arrives(if fetched then FramesOf(parameters, memory[..], size) else []))
      ensures buffers.Taken() == old(buffers.Taken()) + if fetched then multiset{claim} else multiset{}
    {
      hide Tame;
      hide Midway;
      hide FramesOf;
      hide FramesLeft;
      hide QueuedFrames;
      hide ClaimsOf;
      hide TransferBlock.Initialized;
      ghost var before := buffers.pending;
      var _, r := buffers.EnqueueBuffer(memory, size, claim, fetched);
      if fetched {
        assert forall q <- before :: Intact(q);
        assert Intact(r);
        AcceptableAppend(parameters.format, before, r);
        TameReadable(parameters.format, r);
        ClaimsGrow(before, r, if processing == null then multiset{} else multiset{processing.claim});
        QueuedAppend(parameters, before, r);
      }
    }

    /** A buffer of the stack's that holds this content. */
    method Allocate(content: seq<byte>) returns (memory: array<byte>)
      requires Steady() && MemoryIntact()
      ensures fresh(memory) && memory[..] == content && Steady() && MemoryIntact()
    {
      hide AtWork;
      hide Holding;
      memory := new byte[|content|](i requires 0 <= i < |content| => content[i]);
      assert memory[..] == content;
    }

    /** One buffer arrives. Its claim is recorded if and only if it gets into the queue. */
    method ReceiveOne(a: Arrival) returns (ghost claims: seq<Claim>)
      requires Steady() && MemoryIntact() && AllTame(parameters.format, [a])
      modifies buffers
      ensures Steady() && MemoryIntact()
      ensures Progress() == Step(old(Progress()), Arrives(Brought(parameters, [a])))
      ensures buffers.Taken() == old(buffers.Taken()) + multiset(claims) && Claimed(claims, Stored([a]))
    {
      hide Steady;
      hide MemoryIntact;
      hide Backlog;
      hide FramesOf;
      assert a.fetched ==> Tame(parameters.format, a.content, a.size) && a.size <= MAX_RECEIVE_LENGTH;
      var memory := Allocate(a.content);
      var claim := if a.target == null then Referenced(memory) else Borrowed(a.target, memory);
      Receive(memory, a.size, claim, a.fetched);
      claims := if a.fetched then [claim] else [];
      BroughtOne(parameters, a);
    }

    /** Any number of buffers arrive. */
    method ReceiveSome(arrivals: seq<Arrival>) returns (ghost claims: seq<Claim>)
      requires Steady() && MemoryIntact() && AllTame(parameters.format, arrivals)
      modifies buffers
      ensures Steady() && MemoryIntact()
      ensures Progress() == Step(old(Progress()), Arrives(Brought(parameters, arrivals)))
      ensures buffers.Taken() == old(buffers.Taken()) + multiset(claims) && Claimed(claims, Stored(arrivals))
    {
      hide Steady;
      hide MemoryIntact;
      hide Backlog;
      hide Progress;
      hide Tame;
      hide Brought;
      hide Claimed;
      hide Stored;
      hide Step;
      hide BufferQueue.Taken;
      ghost var start := Progress();
      claims := [];
      NoArrivals(parameters, arrivals);
      NothingArrives(start);
      for i := 0 to |arrivals|
        invariant Steady() && MemoryIntact() && AllTame(parameters.format, arrivals[..i])
        invariant Progress() == Step(start, Arrives(Brought(parameters, arrivals[..i])))
        invariant buffers.Taken() == old(buffers.Taken()) + multiset(claims) && Claimed(claims, Stored(arrivals[..i]))
      {
        TameParts(parameters.format, arrivals, i);
        ghost var more := ReceiveOne(arrivals[i]);
        assert arrivals[..i + 1] == arrivals[..i] + [arrivals[i]];
        BroughtAdds(parameters, arrivals[..i], [arrivals[i]]);
        ClaimedAdds(claims, more, arrivals[..i], [arrivals[i]]);
        ArrivesAdds(start, Brought(parameters, arrivals[..i]), Brought(parameters, [arrivals[i]]));
        claims := claims + more;
      }
      assert arrivals[..|arrivals|] == arrivals;
    }

    /** Moves the next buffer from the queue into processing. */
    method Dequeue()
      requires Holding() && MemoryIntact() && processing == null && buffers.pending != []
      modifies this`processing, buffers`pending
      ensures Holding() && MemoryIntact()
      ensures processing == old(buffers.pending)[0] && buffers.pending == old(buffers.pending)[1..]
    {
      hide Acceptable;
      ghost var pending := buffers.pending;
      processing := buffers.DequeueBuffer();
      assert processing in pending;
      assert forall r <- buffers.pending :: r in pending;
    }

    /** The buffer in processing is finished with. */
    method Retire()
      requires Holding() && MemoryIntact() && processing != null
      modifies this`processing, buffers`outstanding, buffers`released
      ensures Steady() && MemoryIntact() && processing == null && buffers.pending == old(buffers.pending)
      ensures buffers.Taken() == old(buffers.Taken())
    {
      hide Acceptable;
      buffers.ReturnBuffer(processing);
      processing := null;
    }

    /** Takes the next buffer and opens it; one that cannot be opened is skipped. */
    method OpenNext()
      requires Steady() && MemoryIntact() && processing == null && buffers.pending != []
      modifies this`processing, buffers, block, block.table
      ensures Steady() && MemoryIntact() && Backlog() == old(Backlog())
      ensures buffers.pending == old(buffers.pending)[1..] && buffers.Taken() == old(buffers.Taken())
    {
      hide Tame;
      hide ParseHeader;
      hide NextNdp;
      hide Midway;
      hide FramesLeft;
      hide FramesOf;
      hide Owned;
      Dequeue();
      OpenBuffer(parameters, processing.content, processing.size);
      TameReadable(parameters.format, processing);
      var status := block.ReInitializeBuffer(processing.memory, processing.size, Rx);
      if status != Success {
        Retire();
      }
    }

    /** One datagram from the open block; a block that has no more of them is returned. */
    method TakeNext() returns (status: Status, offset: nat, size: nat)
      requires Steady() && MemoryIntact() && processing != null
      modifies this`processing, buffers`outstanding, buffers`released, block
      ensures Steady() && MemoryIntact() && buffers.pending == old(buffers.pending)
      ensures buffers.Taken() == old(buffers.Taken())
      ensures if status == Success then
                && processing == old(processing) && offset + size <= |processing.content|
                && block.buffer[..] == processing.content
                && var frame := Payload(processing.content, Entry(offset, size));
                   old(Backlog()) == (if Accepts(parameters, frame) then [frame] + Backlog() else Backlog())
              else
                processing == null && old(Backlog()) == Backlog()
      ensures status == Success ==>
                |Left(parameters.format, processing.content, block.blockLength, block.Cur())| <
                old(|Left(parameters.format, processing.content, block.blockLength, block.Cur())|)
    {
      hide Midway;
      hide FramesLeft;
      hide NextDatagram;
      hide Acceptable;
      hide Owned;
      hide Accepts;
      hide Left;
      hide QueuedFrames;
      hide ClaimsOf;
      hide Consistent;
      hide InMemory;
      TakeDatagram(parameters, processing.content, block.blockLength, block.Cur());
      TameReadable(parameters.format, processing);
      MidwayInMemory(parameters.format, processing.content, block.blockLength, block.Cur());
      status, offset, size := block.GetNextDatagram();
      if status != Success {
        Retire();
      }
    }

    lemma MidwayInMemory(f: Format, content: seq<byte>, len: nat, cur: Cursor)
      requires Midway(f, content, len, cur)
      ensures Readable(f, content, len) && InMemory(f, content, cur)
    {
    }

    /** GetNextFrame. On success the frame is size bytes of the buffer in processing from offset. */
    method GetNextFrame() returns (status: Status, offset: nat, size: nat)
      requires Steady() && MemoryIntact()
      modifies this`processing, buffers, block, block.table
      ensures Steady() && MemoryIntact() && buffers.Taken() == old(buffers.Taken())
      ensures if status == Success then
                && processing != null && offset + size <= |processing.content|
                && block.buffer[..] == processing.content
                && var frame := Payload(processing.content, Entry(offset, size));
                   Wanted(parameters, frame) && old(Backlog()) == [frame] + Backlog()
              else
                && status == NoMoreEntries && old(Backlog()) == [] && Backlog() == []
                && processing == null && buffers.pending == []
                && buffers.outstanding == multiset{} && buffers.released == buffers.Taken()
    {
      hide Midway;
      hide FramesLeft;
      hide Left;
      hide Acceptable;
      hide Holding;
      ghost var backlog, taken := Backlog(), buffers.Taken();
      while true
        invariant Steady() && MemoryIntact() && Backlog() == backlog && buffers.Taken() == taken
        decreases 2 * |buffers.pending| + (if processing == null then 0 else 1),
                  if processing == null then 0
                  else |Left(parameters.format, processing.content, block.blockLength, block.Cur())|
      {
        if processing == null {
          if buffers.pending == [] {
            NothingHeld();
            return NoMoreEntries, 0, 0;
          }
          OpenNext();
          if processing == null {
            continue;
          }
        }
        status, offset, size := TakeNext();
        if status == Success {
          if size < ETHERNET_HEADER_SIZE || size > parameters.maxDatagramSize {
            continue;
          }
          if MatchPacketFilter(parameters.filter, Slice(block.buffer[..], offset, size)) {
            AcceptedIsWanted(parameters, Payload(processing.content, Entry(offset, size)));
            return;
          }
        }
      }
    }

    /** With nothing queued and nothing in processing, every claim ever recorded has been released. */
    lemma NothingHeld()
      requires Holding() && processing == null && buffers.pending == []
      ensures buffers.outstanding == multiset{} && buffers.released == buffers.Taken()
    {
    }

    /** The owned fragments can take the largest frame, and there is a packet for each of them. */
    ghost predicate RoomToReceive()
      reads queue.packets, queue.packets.elements, queue.fragments, queue.fragments.elements
    {
      && queue.Valid()
      && |queue.fragments.Owned()| <= |queue.packets.Owned()|
      && RoomIn(queue.fragments.elements[..], queue.fragments.beginIndex, |queue.fragments.Owned()|,
                parameters.maxDatagramSize)
    }

    /** The first n frames are in the rings, and nothing else has changed there. */
    ghost predicate RingsHold(ps: seq<Packet>, frs: seq<Fragment>, frames: seq<seq<byte>>, n: nat)
      reads queue.packets, queue.packets.elements, queue.fragments, queue.fragments.elements
    {
      Holds(ps, frs, queue.packets.beginIndex, queue.fragments.beginIndex, frames, n)
    }

    /** The first n frames fill the rings from pb and fb on, and nothing else differs from before. */
    ghost predicate Holds(ps: seq<Packet>, frs: seq<Fragment>, pb: nat, fb: nat, frames: seq<seq<byte>>, n: nat)
      reads queue.packets.elements, queue.fragments.elements
    {
      var packets, fragments := queue.packets.elements[..], queue.fragments.elements[..];
      && n <= |frames|
      && (forall k :: 0 <= k < n ==> Delivered(packets, fragments, pb, fb, k, frames[k]))
      && Untouched(ps, packets, pb, n) && Untouched(frs, fragments, fb, n)
      && Kept(ps, packets, frs, fragments)
    }

    /** The iterators are n steps into the owned ranges, and there is a packet for each fragment. */
    ghost predicate IteratorsAt(pi: PacketIterator, fi: FragmentIterator, n: nat)
      reads pi, fi, queue.packets, queue.fragments
    {
      var pb, fb := queue.packets.beginIndex, queue.fragments.beginIndex;
      var size, sizeF := queue.packets.elements.Length, queue.fragments.elements.Length;
      && queue.Valid() && pi.queue == queue && fi.queue == queue && n < size && n < sizeF
      && pi.index == Wrap(pb + n, size) && fi.index == Wrap(fb + n, sizeF)
      && pi.last == queue.packets.endIndex && fi.last == queue.fragments.endIndex
      && n <= Distance(sizeF, fb, fi.last) <= Distance(size, pb, pi.last)
    }

    ghost predicate Delivering(pi: PacketIterator, fi: FragmentIterator, ps: seq<Packet>, frs: seq<Fragment>,
                               frames: seq<seq<byte>>, n: nat)
      reads pi, fi, queue.packets, queue.packets.elements, queue.fragments, queue.fragments.elements
    {
      RingsHold(ps, frs, frames, n) && IteratorsAt(pi, fi, n)
    }

    lemma NothingDelivered(pi: PacketIterator, fi: FragmentIterator, frames: seq<seq<byte>>)
      requires RoomToReceive() && pi.queue == queue && fi.queue == queue
      requires pi.index == queue.packets.beginIndex && pi.last == queue.packets.endIndex
      requires fi.index == queue.fragments.beginIndex && fi.last == queue.fragments.endIndex
      ensures Delivering(pi, fi, queue.packets.elements[..], queue.fragments.elements[..], frames, 0)
    {
    }

    /** The packet before the iterator carries the last frame delivered. */
    lemma LastDelivered(pi: PacketIterator, fi: FragmentIterator, ps: seq<Packet>, frs: seq<Fragment>,
                        frames: seq<seq<byte>>, n: nat)
      requires Delivering(pi, fi, ps, frs, frames, n)
      ensures n > 0 ==>
                && |frs| > 1 && pi.Previous().fragmentIndex < |frs|
                && pi.Previous().fragmentCount == 1
                && Wrap(pi.Previous().fragmentIndex + 1, |frs|) == fi.index
      ensures n == 0 ==> pi.index == queue.packets.beginIndex && fi.index == queue.fragments.beginIndex
      ensures n > 0 ==> pi.index != queue.packets.beginIndex
    {
      if n > 0 {
        assert Delivered(queue.packets.elements[..], queue.fragments.elements[..],
                         queue.packets.beginIndex, queue.fragments.beginIndex, n - 1, frames[n - 1]);
      }
    }

    /**
      The loop of Advance. Before each frame any number of the buffers of meanwhile may arrive; early of
      them have when the loop ends.
     */
    method DeliverAll(pi: PacketIterator, fi: FragmentIterator, meanwhile: seq<Arrival>)
      returns (ghost n: nat, early: nat, ghost all: seq<seq<byte>>, ghost claims: seq<Claim>)
      requires Steady() && MemoryIntact() && RoomToReceive() && AllTame(parameters.format, meanwhile)
      requires Delivering(pi, fi, queue.packets.elements[..], queue.fragments.elements[..], Backlog(), 0)
      modifies pi, fi, this`processing, buffers, block, block.table, queue.packets.elements, queue.fragments.elements
      ensures Steady() && MemoryIntact() && early <= |meanwhile|
      ensures all == old(Backlog()) + Brought(parameters, meanwhile[..early])
      ensures n == Min(old(|queue.fragments.Owned()|), |all|) && Backlog() == all[n..]
      ensures AllWanted(parameters, all[..n])
      ensures Delivering(pi, fi, old(queue.packets.elements[..]), old(queue.fragments.elements[..]), all, n)
      ensures buffers.Taken() == old(buffers.Taken()) + multiset(claims)
      ensures Claimed(claims, Stored(meanwhile[..early]))
    {
      hide Steady;
      hide MemoryIntact;
      hide Backlog;
      hide Delivering;
      hide RingSize;
      hide RoomIn;
      hide AllTame;
      hide Brought;
      hide Claimed;
      hide Stored;
      hide Loaded;
      hide BufferQueue.Taken;
      ghost var backlog, ps, frs := Backlog(), queue.packets.elements[..], queue.fragments.elements[..];
      ghost var space, taken := |queue.fragments.Owned()|, buffers.Taken();
      n, early, all, claims := 0, 0, backlog, [];
      LoadedFirst(pi, fi, meanwhile, ps, frs);
      while fi.HasAny()
        invariant MemoryIntact() && n <= space
        invariant Loaded(pi, fi, meanwhile, early, ps, frs, backlog, all, n, taken, claims)
        decreases space - n
      {
        LoadedMeans(pi, fi, meanwhile, early, ps, frs, backlog, all, n, taken, claims);
        LoopEnds(pi, fi, ps, frs, all, n);
        early, all, claims := LetArrive(pi, fi, meanwhile, early, ps, frs, backlog, all, n, taken, claims);
        var found := DeliverLoaded(pi, fi, meanwhile, early, ps, frs, backlog, all, n, taken, claims);
        if !found {
          break;
        }
        n := n + 1;
      }
      LoadedMeans(pi, fi, meanwhile, early, ps, frs, backlog, all, n, taken, claims);
      LoopEnds(pi, fi, ps, frs, all, n);
    }

    /**
      In the middle of the loop: all are the frames that wait or have been delivered, with those of the
      buffers that came meanwhile; n of them are in the rings, and each of these was wanted.
     */
    ghost predicate Loaded(pi: PacketIterator, fi: FragmentIterator, meanwhile: seq<Arrival>, early: nat,
                           ps: seq<Packet>, frs: seq<Fragment>, backlog: seq<seq<byte>>, all: seq<seq<byte>>, n: nat,
                           taken: multiset<Claim>, claims: seq<Claim>)
      reads this`processing, buffers, block, pi, fi
      reads queue.packets, queue.packets.elements, queue.fragments, queue.fragments.elements
    {
      && Steady() && early <= |meanwhile| && AllTame(parameters.format, meanwhile[..early])
      && all == backlog + Brought(parameters, meanwhile[..early])
      && n <= |all| && Backlog() == all[n..] && AllWanted(parameters, all[..n])
      && Delivering(pi, fi, ps, frs, all, n)
      && buffers.Taken() == taken + multiset(claims) && Claimed(claims, Stored(meanwhile[..early]))
    }

    lemma LoadedFirst(pi: PacketIterator, fi: FragmentIterator, meanwhile: seq<Arrival>, ps: seq<Packet>,
                      frs: seq<Fragment>)
      requires Steady() && Delivering(pi, fi, ps, frs, Backlog(), 0)
      ensures Loaded(pi, fi, meanwhile, 0, ps, frs, Backlog(), Backlog(), 0, buffers.Taken(), [])
    {
      hide Steady;
      hide Backlog;
      hide Delivering;
      assert Backlog() + [] == Backlog();
      NoArrivals(parameters, meanwhile);
      NoneWanted(parameters, Backlog());
    }

    lemma LoadedMeans(pi: PacketIterator, fi: FragmentIterator, meanwhile: seq<Arrival>, early: nat,
                      ps: seq<Packet>, frs: seq<Fragment>, backlog: seq<seq<byte>>, all: seq<seq<byte>>, n: nat,
                      taken: multiset<Claim>, claims: seq<Claim>)
      requires Loaded(pi, fi, meanwhile, early, ps, frs, backlog, all, n, taken, claims)
      ensures Steady() && early <= |meanwhile| && AllTame(parameters.format, meanwhile[..early])
      ensures all == backlog + Brought(parameters, meanwhile[..early])
      ensures n <= |all| && Backlog() == all[n..] && AllWanted(parameters, all[..n])
      ensures Delivering(pi, fi, ps, frs, all, n)
      ensures buffers.Taken() == taken + multiset(claims) && Claimed(claims, Stored(meanwhile[..early]))
    {
    }

    /** One more frame, if one waits. */
    method DeliverLoaded(pi: PacketIterator, fi: FragmentIterator, ghost meanwhile: seq<Arrival>, ghost early: nat,
                         ghost ps: seq<Packet>, ghost frs: seq<Fragment>, ghost backlog: seq<seq<byte>>,
                         ghost all: seq<seq<byte>>, ghost n: nat, ghost taken: multiset<Claim>,
                         ghost claims: seq<Claim>)
      returns (found: bool)
      requires MemoryIntact() && fi.HasAny()
      requires Loaded(pi, fi, meanwhile, early, ps, frs, backlog, all, n, taken, claims)
      requires RoomIn(frs, queue.fragments.beginIndex, Distance(|frs|, queue.fragments.beginIndex, fi.last),
                      parameters.maxDatagramSize)
      modifies pi, fi, this`processing, buffers, block, block.table, queue.packets.elements, queue.fragments.elements
      ensures MemoryIntact() && (found <==> n < |all|)
      ensures Loaded(pi, fi, meanwhile, early, ps, frs, backlog, all, if found then n + 1 else n, taken, claims)
    {
      hide Steady;
      hide MemoryIntact;
      hide Backlog;
      hide Delivering;
      hide RingSize;
      hide RoomIn;
      hide AllTame;
      hide AllWanted;
      hide Wanted;
      hide Brought;
      hide Claimed;
      hide Stored;
      hide BufferQueue.Taken;
      found := DeliverOne(pi, fi, ps, frs, all, n);
      if found {
        WantedOn(parameters, all, n);
      }
    }

    /** Delivers the first frame that waits, if there is one. */
    method DeliverOne(pi: PacketIterator, fi: FragmentIterator, ghost ps: seq<Packet>, ghost frs: seq<Fragment>,
                      ghost all: seq<seq<byte>>, ghost n: nat) returns (found: bool)
      requires Steady() && MemoryIntact() && n <= |all| && Backlog() == all[n..]
      requires Delivering(pi, fi, ps, frs, all, n) && fi.HasAny()
      requires RoomIn(frs, queue.fragments.beginIndex, Distance(|frs|, queue.fragments.beginIndex, fi.last),
                      parameters.maxDatagramSize)
      modifies pi, fi, this`processing, buffers, block, block.table, queue.packets.elements, queue.fragments.elements
      ensures Steady() && MemoryIntact() && buffers.Taken() == old(buffers.Taken())
      ensures found <==> n < |all|
      ensures found ==> Wanted(parameters, all[n])
      ensures Backlog() == if found then all[n + 1..] else []
      ensures Delivering(pi, fi, ps, frs, all, if found then n + 1 else n)
    {
      hide Steady;
      hide MemoryIntact;
      hide Backlog;
      hide Delivering;
      hide RingSize;
      hide RoomIn;
      hide BufferQueue.Taken;
      LoopEnds(pi, fi, ps, frs, all, n);
      ghost var room := Distance(|frs|, queue.fragments.beginIndex, fi.last);
      var status, offset, size := GetNextFrame();
      if status != Success {
        return false;
      }
      assert block.buffer[offset..offset + size] == all[n];
      LessRoom(frs, queue.fragments.beginIndex, room, parameters.maxDatagramSize, size);
      DeliverNext(pi, fi, offset, size, ps, frs, all, n);
      return true;
    }

    /** Some of the buffers that have not come yet arrive, behind everything that waits. */
    method LetArrive(pi: PacketIterator, fi: FragmentIterator, meanwhile: seq<Arrival>, early: nat,
                     ghost ps: seq<Packet>, ghost frs: seq<Fragment>, ghost backlog: seq<seq<byte>>,
                     ghost all: seq<seq<byte>>, ghost n: nat, ghost taken: multiset<Claim>, ghost claims: seq<Claim>)
      returns (early': nat, ghost all': seq<seq<byte>>, ghost claims': seq<Claim>)
      requires MemoryIntact() && AllTame(parameters.format, meanwhile)
      requires Loaded(pi, fi, meanwhile, early, ps, frs, backlog, all, n, taken, claims)
      modifies buffers
      ensures MemoryIntact() && early <= early'
      ensures Loaded(pi, fi, meanwhile, early', ps, frs, backlog, all', n, taken, claims')
    {
      hide Steady;
      hide MemoryIntact;
      hide Backlog;
      hide Delivering;
      hide Tame;
      hide Brought;
      hide Claimed;
      hide Stored;
      hide BufferQueue.Taken;
      var k: nat :| k <= |meanwhile| - early;
      var next := meanwhile[early..early + k];
      TamePart(parameters.format, meanwhile, early, early + k);
      ghost var more := ReceiveSome(next);
      early' := early + k;
      assert meanwhile[..early'] == meanwhile[..early] + next;
      BroughtAdds(parameters, meanwhile[..early], next);
      ClaimedAdds(claims, more, meanwhile[..early], next);
      claims' := claims + more;
      ghost var behind := Brought(parameters, next);
      all' := all + behind;
      assert all'[n..] == all[n..] + behind && all'[..n] == all[..n];
      MoreFrames(pi, fi, ps, frs, all, behind, n);
    }

    lemma MoreFrames(pi: PacketIterator, fi: FragmentIterator, ps: seq<Packet>, frs: seq<Fragment>,
                     frames: seq<seq<byte>>, behind: seq<seq<byte>>, n: nat)
      requires Delivering(pi, fi, ps, frs, frames, n)
      ensures Delivering(pi, fi, ps, frs, frames + behind, n)
    {
      hide IteratorsAt;
      hide Delivered;
      hide Untouched;
      hide Kept;
      assert forall i :: 0 <= i < n ==> (frames + behind)[i] == frames[i];
    }

    /** The loop ends exactly when every owned fragment has been filled. */
    lemma LoopEnds(pi: PacketIterator, fi: FragmentIterator, ps: seq<Packet>, frs: seq<Fragment>,
                   frames: seq<seq<byte>>, n: nat)
      requires Delivering(pi, fi, ps, frs, frames, n)
      ensures queue.Valid() && n <= |queue.fragments.Owned()|
      ensures fi.HasAny() <==> n < |queue.fragments.Owned()|
      ensures |frs| == queue.fragments.elements.Length
      ensures queue.fragments.beginIndex < |frs| && fi.last < |frs|
      ensures Distance(|frs|, queue.fragments.beginIndex, fi.last) == |queue.fragments.Owned()|
    {
    }

    /** Copies the frame to the fragment under fi and describes it in the packet under pi. */
    method Deliver(pi: PacketIterator, fi: FragmentIterator, offset: nat, size: nat,
                   ghost ps: seq<Packet>, ghost frs: seq<Fragment>, ghost frames: seq<seq<byte>>, ghost n: nat)
      requires RingsHold(ps, frs, frames, n) && IteratorsAt(pi, fi, n) && n < |frames|
      requires offset + size <= block.buffer.Length && block.buffer[offset..offset + size] == frames[n]
      requires size <= |fi.GetFragment().memory| && MemoryIntact()
      modifies queue.packets.elements, queue.fragments.elements
      ensures RingsHold(ps, frs, frames, n + 1) && MemoryIntact()
    {
      hide RingSize;
      hide Filled;
      hide Delivered;
      hide Untouched;
      hide Kept;
      ghost var packets, fragments := queue.packets.elements[..], queue.fragments.elements[..];
      ghost var pb, fb := queue.packets.beginIndex, queue.fragments.beginIndex;
      var fragment, packet := fi.GetFragment(), pi.GetPacket();
      DeliverStep(packets, fragments, pb, fb, n, frames, packet.ignore);
      UntouchedStep(ps, packets, pb, n, Packet(fi.index, 1, packet.ignore));
      UntouchedStep(frs, fragments, fb, n, Filled(fragment, frames[n]));
      UntouchedAt(frs, fragments, fb, n);
      KeptStep(ps, packets, frs, fragments, pi.index, fi.index, frames[n]);
      queue.fragments.elements[fi.index] := Filled(fragment, block.buffer[offset..offset + size]);
      queue.packets.elements[pi.index] := packet.(fragmentIndex := fi.index, fragmentCount := 1);
      assert queue.packets.elements[..] == packets[pi.index := Packet(fi.index, 1, packet.ignore)];
      assert queue.fragments.elements[..] == fragments[fi.index := Filled(fragment, frames[n])];
    }

    /** One round of the loop of Advance: delivers one more frame. */
    method DeliverNext(pi: PacketIterator, fi: FragmentIterator, offset: nat, size: nat,
                       ghost ps: seq<Packet>, ghost frs: seq<Fragment>, ghost frames: seq<seq<byte>>, ghost n: nat)
      requires Delivering(pi, fi, ps, frs, frames, n) && fi.HasAny() && n < |frames|
      requires offset + size <= block.buffer.Length && block.buffer[offset..offset + size] == frames[n]
      requires RoomIn(frs, queue.fragments.beginIndex, Distance(|frs|, queue.fragments.beginIndex, fi.last), size)
      requires MemoryIntact()
      modifies pi, fi, queue.packets.elements, queue.fragments.elements
      ensures Delivering(pi, fi, ps, frs, frames, n + 1) && MemoryIntact()
    {
      hide RingSize;
      hide RoomIn;
      hide Holds;
      hide Intact;
      RoomHere(pi, fi, ps, frs, frames, n, size);
      Deliver(pi, fi, offset, size, ps, frs, frames, n);
      AdvanceBoth(pi, fi, n);
    }

    method AdvanceBoth(pi: PacketIterator, fi: FragmentIterator, ghost n: nat)
      requires IteratorsAt(pi, fi, n) && fi.HasAny()
      modifies pi, fi
      ensures IteratorsAt(pi, fi, n + 1)
    {
      hide RingSize;
      pi.Advance();
      fi.Advance();
    }

    lemma RoomHere(pi: PacketIterator, fi: FragmentIterator, ps: seq<Packet>, frs: seq<Fragment>,
                   frames: seq<seq<byte>>, n: nat, size: nat)
      requires Delivering(pi, fi, ps, frs, frames, n) && fi.HasAny()
      requires RoomIn(frs, queue.fragments.beginIndex, Distance(|frs|, queue.fragments.beginIndex, fi.last), size)
      ensures size <= |fi.GetFragment().memory|
    {
      var fb := queue.fragments.beginIndex;
      RoomAt(frs, fb, Distance(|frs|, fb, fi.last), size, n);
      UntouchedAt(frs, queue.fragments.elements[..], fb, n);
    }

    /**
      Advance: delivers as many frames as there are fragments for, from the front of the backlog, and keeps
      the rest for the next call. It stops short only when nothing is left. Buffers may arrive while it
      runs; those that come early enough count as if they had come before the call.
     */
    method Advance(meanwhile: seq<Arrival>) returns (ghost n: nat, early: nat, ghost claims: seq<Claim>)
      requires Steady() && MemoryIntact() && RoomToReceive() && AllTame(parameters.format, meanwhile)
      modifies this`processing, this`delivered, buffers, block, block.table
      modifies queue.packets`beginIndex, queue.fragments`beginIndex, queue.packets.elements, queue.fragments.elements
      ensures Steady() && MemoryIntact() && queue.Valid() && early <= |meanwhile|
      ensures Progress()
              == Step(Step(old(Progress()), Arrives(Brought(parameters, meanwhile[..early]))),
                      Advances(old(|queue.fragments.Owned()|)))
      ensures n == Min(old(|queue.fragments.Owned()|), |old(Backlog()) + Brought(parameters, meanwhile[..early])|)
      ensures |delivered| == old(|delivered|) + n && AllWanted(parameters, delivered[old(|delivered|)..])
      ensures Holds(old(queue.packets.elements[..]), old(queue.fragments.elements[..]),
                    old(queue.packets.beginIndex), old(queue.fragments.beginIndex),
                    old(Backlog()) + Brought(parameters, meanwhile[..early]), n)
      ensures queue.packets.beginIndex == Wrap(old(queue.packets.beginIndex) + n, queue.packets.elements.Length)
      ensures queue.fragments.beginIndex == Wrap(old(queue.fragments.beginIndex) + n, queue.fragments.elements.Length)
      ensures buffers.Taken() == old(buffers.Taken()) + multiset(claims)
      ensures Claimed(claims, Stored(meanwhile[..early]))
    {
      hide Holds;
      hide Steady;
      hide Backlog;
      hide RingsHold;
      hide RingSize;
      hide RoomIn;
      hide Intact;
      hide Tame;
      hide Brought;
      hide BufferQueue.Taken;
      hide Claimed;
      hide Stored;
      hide Delivering;
      hide Min;
      hide AllWanted;
      var pi := new PacketIterator(queue, queue.packets.beginIndex, queue.packets.endIndex);
      var fi := new FragmentIterator(queue, queue.fragments.beginIndex, queue.fragments.endIndex);
      ghost var ps, frs := queue.packets.elements[..], queue.fragments.elements[..];
      NothingDelivered(pi, fi, Backlog());
      ghost var all;
      n, early, all, claims := DeliverAll(pi, fi, meanwhile);
      Finish(pi, fi, ps, frs, all, n);
      assert delivered[old(|delivered|)..] == all[..n];
    }

    /**
      pi.Set(), which moves the fragment ring along although fi is never stored. What is given back are
      the bytes of the packets up to the iterator, and these are the frames.
     */
    method Finish(pi: PacketIterator, fi: FragmentIterator, ghost ps: seq<Packet>, ghost frs: seq<Fragment>,
                  ghost frames: seq<seq<byte>>, ghost n: nat)
      requires Delivering(pi, fi, ps, frs, frames, n)
      modifies queue.packets`beginIndex, queue.fragments`beginIndex, this`delivered
      ensures n <= |frames| && delivered == old(delivered) + frames[..n]
      ensures queue.Valid() && |ps| == queue.packets.elements.Length && |frs| == queue.fragments.elements.Length
      ensures old(queue.packets.beginIndex) < |ps| && old(queue.fragments.beginIndex) < |frs|
      ensures n < |ps| && n < |frs|
      ensures queue.packets.beginIndex == Wrap(old(queue.packets.beginIndex) + n, |ps|)
      ensures queue.fragments.beginIndex == fi.index == Wrap(old(queue.fragments.beginIndex) + n, |frs|)
      ensures Holds(ps, frs, old(queue.packets.beginIndex), old(queue.fragments.beginIndex), frames, n)
    {
      hide Delivered;
      hide Untouched;
      hide Kept;
      LastDelivered(pi, fi, ps, frs, frames, n);
      ghost var packets, fragments := queue.packets.elements[..], queue.fragments.elements[..];
      GivenBack(packets, fragments, queue.packets.beginIndex, queue.fragments.beginIndex, n, frames);
      delivered := delivered + DataOf(fragments, Segment(packets, queue.packets.beginIndex, n));
      pi.Set();
    }

    /** The posting keeps to the contract: its fragments can hold the largest frame, with a packet for each. */
    predicate Usable(p: Posting)
      reads queue.packets`beginIndex, queue.fragments`beginIndex
    {
      var pb, fb := queue.packets.beginIndex, queue.fragments.beginIndex;
      && queue.Suits(p) && pb < |p.packets| && fb < |p.fragments|
      && Distance(|p.fragments|, fb, p.fragmentsEnd) <= Distance(|p.packets|, pb, p.packetsEnd)
      && RoomIn(p.fragments, fb, Distance(|p.fragments|, fb, p.fragmentsEnd), parameters.maxDatagramSize)
    }

    /**
      The system takes back what it was given and posts new packets and fragments. What would break its
      contract is not posted: then the driver owns nothing.
     */
    method Replenish(p: Posting)
      requires queue.Valid()
      modifies queue.packets`endIndex, queue.fragments`endIndex, queue.packets.elements, queue.fragments.elements
      ensures RoomToReceive()
      ensures var pb, fb, n, m := queue.packets.beginIndex, queue.fragments.beginIndex,
                                  queue.packets.elements.Length, queue.fragments.elements.Length;
              if && |p.packets| == n && p.packetsEnd < n && |p.fragments| == m && p.fragmentsEnd < m
                 && Distance(m, fb, p.fragmentsEnd) <= Distance(n, pb, p.packetsEnd)
                 && RoomIn(p.fragments, fb, Distance(m, fb, p.fragmentsEnd), parameters.maxDatagramSize) then
                && queue.packets.elements[..] == p.packets && queue.packets.endIndex == p.packetsEnd
                && queue.fragments.elements[..] == p.fragments && queue.fragments.endIndex == p.fragmentsEnd
              else
                queue.packets.endIndex == pb && queue.fragments.endIndex == fb
    {
      hide RingSize;
      if Usable(p) {
        queue.Post(p);
      } else {
        queue.PostNothing();
      }
    }

    /**
      The receive path over any list of actions: buffers arrive, before a call of Advance or while it runs,
      and before each call the system replenishes the rings in any way. The driver goes through a run of
      the steps of RxFrames, so what it has given back and what is waiting are together what the buffers
      brought, in order. A claim is recorded for each buffer that was stored, and for no other.
     */
    method Serve(actions: seq<Action>) returns (ghost steps: seq<RxStep>, ghost claims: seq<Claim>)
      requires Steady() && MemoryIntact() && queue.Valid()
      requires AllTame(parameters.format, Arrivals(actions))
      modifies this`processing, this`delivered, buffers, block, block.table
      modifies queue.packets, queue.fragments, queue.packets.elements, queue.fragments.elements
      ensures Steady() && MemoryIntact() && queue.Valid()
      ensures Progress() == Run(old(Progress()), steps) && Arrived(steps) == Brought(parameters, Arrivals(actions))
      ensures delivered + Backlog() == old(delivered + Backlog()) + Brought(parameters, Arrivals(actions))
      ensures buffers.Taken() == old(buffers.Taken()) + multiset(claims)
      ensures Claimed(claims, Stored(Arrivals(actions)))
      ensures processing == null && buffers.pending == [] ==> buffers.released == buffers.Taken()
    {
      hide AtWork;
      hide Holding;
      hide MemoryIntact;
      hide Backlog;
      hide RingSize;
      hide Tame;
      hide Came;
      hide BufferQueue.Taken;
      hide Brought;
      hide Claimed;
      ghost var start, taken := Progress(), buffers.Taken();
      steps, claims := [], [];
      CameNowhere();
      for i := 0 to |actions|
        invariant Steady() && MemoryIntact() && queue.Valid()
        invariant Came(start, taken, steps, Arrivals(actions[..i]), claims)
      {
        assert actions[..i + 1] == actions[..i] + [actions[i]];
        ArrivalsOn(actions[..i], actions[i]);
        ArrivalsTame(parameters.format, actions, i);
        ghost var before, middle, between := Arrivals(actions[..i]), Progress(), buffers.Taken();
        CameMeans(start, taken, steps, before, claims);
        ghost var more, moreClaims := One(actions[i]);
        CameOn(start, taken, steps, before, claims, middle, between, more, ArrivalsOf(actions[i]), moreClaims);
        steps, claims := steps + more, claims + moreClaims;
      }
      assert actions[..|actions|] == actions;
      CameMeans(start, taken, steps, Arrivals(actions), claims);
      CameAll(start, taken, steps, Arrivals(actions), claims);
    }

    /** The driver has come through these steps, in which these buffers arrived and these claims were recorded. */
    ghost predicate Came(start: RxProgress, taken: multiset<Claim>, steps: seq<RxStep>, arrivals: seq<Arrival>,
                         claims: seq<Claim>)
      reads this`processing, this`delivered, buffers, block
    {
      && AllTame(parameters.format, arrivals) && Steady()
      && Progress() == Run(start, steps) && Arrived(steps) == Brought(parameters, arrivals)
      && buffers.Taken() == taken + multiset(claims) && Claimed(claims, Stored(arrivals))
    }

    lemma CameMeans(start: RxProgress, taken: multiset<Claim>, steps: seq<RxStep>, arrivals: seq<Arrival>,
                    claims: seq<Claim>)
      requires Came(start, taken, steps, arrivals, claims)
      ensures AllTame(parameters.format, arrivals) && Steady()
      ensures Progress() == Run(start, steps) && Arrived(steps) == Brought(parameters, arrivals)
      ensures buffers.Taken() == taken + multiset(claims) && Claimed(claims, Stored(arrivals))
    {
    }

    lemma CameNowhere()
      requires Steady()
      ensures Came(Progress(), buffers.Taken(), [], [], [])
    {
      hide Steady;
      hide Backlog;
    }

    lemma CameOn(start: RxProgress, taken: multiset<Claim>, steps: seq<RxStep>, arrivals: seq<Arrival>,
                 claims: seq<Claim>, middle: RxProgress, between: multiset<Claim>, more: seq<RxStep>,
                 moreArrivals: seq<Arrival>, moreClaims: seq<Claim>)
      requires AllTame(parameters.format, arrivals) && middle == Run(start, steps)
      requires Arrived(steps) == Brought(parameters, arrivals)
      requires between == taken + multiset(claims) && Claimed(claims, Stored(arrivals))
      requires Came(middle, between, more, moreArrivals, moreClaims)
      ensures Came(start, taken, steps + more, arrivals + moreArrivals, claims + moreClaims)
    {
      hide Steady;
      hide Progress;
      hide Tame;
      hide FramesOf;
      RunAdds(start, steps, more);
      ArrivedAdds(steps, more);
      BroughtAdds(parameters, arrivals, moreArrivals);
      ClaimedAdds(claims, moreClaims, arrivals, moreArrivals);
    }

    lemma CameAll(start: RxProgress, taken: multiset<Claim>, steps: seq<RxStep>, arrivals: seq<Arrival>,
                  claims: seq<Claim>)
      requires Steady() && Came(start, taken, steps, arrivals, claims)
      ensures delivered + Backlog() == start.delivered + start.backlog + Brought(parameters, arrivals)
      ensures processing == null && buffers.pending == [] ==> buffers.released == buffers.Taken()
    {
      hide AtWork;
      hide Backlog;
      hide Tame;
      ChunkingIsInvisible(start, steps);
      if processing == null && buffers.pending == [] {
        NothingHeld();
      }
    }

    /** One action. */
    method One(action: Action) returns (ghost steps: seq<RxStep>, ghost claims: seq<Claim>)
      requires Steady() && MemoryIntact() && queue.Valid()
      requires AllTame(parameters.format, ArrivalsOf(action))
      modifies this`processing, this`delivered, buffers, block, block.table
      modifies queue.packets, queue.fragments, queue.packets.elements, queue.fragments.elements
      ensures Steady() && MemoryIntact() && queue.Valid()
      ensures Came(old(Progress()), old(buffers.Taken()), steps, ArrivalsOf(action), claims)
    {
      hide Steady;
      hide MemoryIntact;
      hide Backlog;
      hide RingSize;
      hide Tame;
      hide FramesOf;
      hide BufferQueue.Taken;
      match action {
        case Arrive(a) =>
          claims := ReceiveOne(a);
          steps := [Arrives(Brought(parameters, [a]))];
          RunOne(old(Progress()), steps[0]);
        case Call(p, meanwhile) =>
          steps, claims := Called(p, meanwhile);
      }
    }

    /** The system replenishes the rings and calls Advance; buffers arrive until the call returns. */
    method Called(p: Posting, meanwhile: seq<Arrival>) returns (ghost steps: seq<RxStep>, ghost claims: seq<Claim>)
      requires Steady() && MemoryIntact() && queue.Valid() && AllTame(parameters.format, meanwhile)
      modifies this`processing, this`delivered, buffers, block, block.table
      modifies queue.packets, queue.fragments, queue.packets.elements, queue.fragments.elements
      ensures Steady() && MemoryIntact() && queue.Valid()
      ensures Came(old(Progress()), old(buffers.Taken()), steps, meanwhile, claims)
    {
      hide Steady;
      hide MemoryIntact;
      hide Progress;
      hide RingSize;
      hide Step;
      hide Tame;
      hide Brought;
      hide Stored;
      hide Claimed;
      hide BufferQueue.Taken;
      ghost var start := Progress();
      ghost var space, before;
      var early;
      space, early, before := PostAndAdvance(p, meanwhile);
      TameParts(parameters.format, meanwhile, early);
      ghost var after := ReceiveSome(meanwhile[early..]);
      claims := before + after;
      steps := [Arrives(Brought(parameters, meanwhile[..early])), Advances(space),
                Arrives(Brought(parameters, meanwhile[early..]))];
      assert meanwhile == meanwhile[..early] + meanwhile[early..];
      BroughtAdds(parameters, meanwhile[..early], meanwhile[early..]);
      ClaimedAdds(before, after, meanwhile[..early], meanwhile[early..]);
      RunThree(start, steps[0], steps[1], steps[2]);
    }

    method PostAndAdvance(p: Posting, meanwhile: seq<Arrival>)
      returns (ghost space: nat, early: nat, ghost claims: seq<Claim>)
      requires Steady() && MemoryIntact() && queue.Valid() && AllTame(parameters.format, meanwhile)
      modifies this`processing, this`delivered, buffers, block, block.table
      modifies queue.packets, queue.fragments, queue.packets.elements, queue.fragments.elements
      ensures Steady() && MemoryIntact() && queue.Valid() && early <= |meanwhile|
      ensures AllTame(parameters.format, meanwhile[..early])
      ensures Progress()
              == Step(Step(old(Progress()), Arrives(Brought(parameters, meanwhile[..early]))), Advances(space))
      ensures buffers.Taken() == old(buffers.Taken()) + multiset(claims)
      ensures Claimed(claims, Stored(meanwhile[..early]))
    {
      hide AtWork;
      hide Holding;
      hide Backlog;
      hide RingSize;
      hide RoomIn;
      hide Holds;
      hide Intact;
      hide Wrap;
      hide Tame;
      hide Brought;
      hide Stored;
      hide Claimed;
      hide Usable;
      hide Step;
      hide BufferQueue.Taken;
      Replenish(p);
      space := |queue.fragments.Owned()|;
      ghost var n;
      n, early, claims := Advance(meanwhile);
      TameParts(parameters.format, meanwhile, early);
    }
  }

  /** A buffer arrives, referenced or borrowed from a target, with or without a record to be had for it. */
  datatype Arrival = Arrival(content: seq<byte>, size: nat, target: object?, fetched: bool)

  /**
    What the receive path sees of its surroundings: a buffer arrives between two calls; or the system
    posts these rings and calls Advance, and more buffers arrive before the call returns.
   */
  datatype Action = Arrive(arrival: Arrival) | Call(posting: Posting, meanwhile: seq<Arrival>)

  function ArrivalsOf(action: Action): seq<Arrival> {
    match action
    case Arrive(a) => [a]
    case Call(_, meanwhile) => meanwhile
  }

  /** All arrivals, in order. */
  function Arrivals(actions: seq<Action>): seq<Arrival> {
    if actions == [] then []
    else Arrivals(actions[..|actions| - 1]) + ArrivalsOf(actions[|actions| - 1])
  }

  ghost predicate AllTame(f: Format, arrivals: seq<Arrival>) {
    forall a <- arrivals :: a.fetched ==> Tame(f, a.content, a.size) && a.size <= MAX_RECEIVE_LENGTH
  }

  /** The arrivals that get into the queue. */
  function Stored(arrivals: seq<Arrival>): (r: seq<Arrival>)
    ensures forall a <- r :: a in arrivals && a.fetched
  {
    if arrivals == [] then []
    else
      var last := arrivals[|arrivals| - 1];
      Stored(arrivals[..|arrivals| - 1]) + if last.fetched then [last] else []
  }

  /** The frames that the stored ones among the arrivals bring, in order. */
  ghost function Brought(p: RxParameters, arrivals: seq<Arrival>): seq<seq<byte>>
    requires AllTame(p.format, arrivals)
  {
    if arrivals == [] then []
    else
      var last := arrivals[|arrivals| - 1];
      Brought(p, arrivals[..|arrivals| - 1]) + if last.fetched then FramesOf(p, last.content, last.size) else []
  }

  /** One claim for each of these stored buffers: a reference, or a loan from its target. */
  ghost predicate Claimed(claims: seq<Claim>, stored: seq<Arrival>) {
    && |claims| == |stored|
    && forall i :: 0 <= i < |claims| ==>
         if stored[i].target == null then claims[i].Referenced?
         else claims[i].Borrowed? && claims[i].target == stored[i].target
  }

  lemma BroughtOne(p: RxParameters, a: Arrival)
    requires AllTame(p.format, [a])
    ensures a.fetched ==> Readable(p.format, a.content, a.size)
    ensures Brought(p, [a]) == if a.fetched then FramesOf(p, a.content, a.size) else []
    ensures Stored([a]) == if a.fetched then [a] else []
  {
    hide FramesOf;
    assert [a][..0] == [] && Brought(p, []) == [] && Stored([]) == [];
    if a.fetched {
      assert a in [a];
      assert [] + FramesOf(p, a.content, a.size) == FramesOf(p, a.content, a.size);
    }
  }

  lemma {:induction false} BroughtAdds(p: RxParameters, a: seq<Arrival>, b: seq<Arrival>)
    requires AllTame(p.format, a) && AllTame(p.format, b)
    ensures AllTame(p.format, a + b)
    ensures Brought(p, a + b) == Brought(p, a) + Brought(p, b)
    decreases |b|
  {
    hide FramesOf;
    hide ParseHeader;
    hide LaterTablesFull;
    hide Ends;
    assert forall x <- a + b :: x in a || x in b;
    if b == [] {
      assert a + b == a && Brought(p, a) + [] == Brought(p, a);
    } else {
      var front, last := b[..|b| - 1], b[|b| - 1];
      assert last in b && forall x <- front :: x in b;
      BroughtAdds(p, a, front);
      assert (a + b)[..|a + b| - 1] == a + front && (a + b)[|a + b| - 1] == last;
    }
  }

  lemma {:induction false} StoredAdds(a: seq<Arrival>, b: seq<Arrival>)
    ensures Stored(a + b) == Stored(a) + Stored(b)
    decreases |b|
  {
    if b == [] {
      assert a + b == a;
    } else {
      StoredAdds(a, b[..|b| - 1]);
      assert (a + b)[..|a + b| - 1] == a + b[..|b| - 1];
    }
  }

  lemma ClaimedAdds(claims: seq<Claim>, more: seq<Claim>, a: seq<Arrival>, b: seq<Arrival>)
    requires Claimed(claims, Stored(a)) && Claimed(more, Stored(b))
    ensures Claimed(claims + more, Stored(a + b))
    ensures multiset(claims + more) == multiset(claims) + multiset(more)
  {
    hide Stored;
    StoredAdds(a, b);
  }

  lemma NoArrivals(p: RxParameters, arrivals: seq<Arrival>)
    ensures AllTame(p.format, arrivals[..0])
    ensures Brought(p, arrivals[..0]) == [] && Claimed([], Stored(arrivals[..0]))
  {
  }

  lemma TameParts(f: Format, arrivals: seq<Arrival>, i: nat)
    requires AllTame(f, arrivals) && i <= |arrivals|
    ensures AllTame(f, arrivals[..i]) && AllTame(f, arrivals[i..])
    ensures i < |arrivals| ==> AllTame(f, [arrivals[i]])
  {
    hide Tame;
  }

  lemma TamePart(f: Format, arrivals: seq<Arrival>, i: nat, j: nat)
    requires AllTame(f, arrivals) && i <= j <= |arrivals|
    ensures AllTame(f, arrivals[i..j])
  {
    hide Tame;
  }

  lemma ArrivalsOn(actions: seq<Action>, action: Action)
    ensures Arrivals(actions + [action]) == Arrivals(actions) + ArrivalsOf(action)
  {
    assert (actions + [action])[..|actions|] == actions;
  }

  lemma {:induction false} ArrivalsTame(f: Format, actions: seq<Action>, i: nat)
    requires AllTame(f, Arrivals(actions)) && i < |actions|
    ensures AllTame(f, ArrivalsOf(actions[i]))
    decreases |actions|
  {
    hide Tame;
    var last := |actions| - 1;
    assert forall a <- Arrivals(actions[..last]) :: a in Arrivals(actions);
    assert forall a <- ArrivalsOf(actions[last]) :: a in Arrivals(actions);
    if i < last {
      ArrivalsTame(f, actions[..last], i);
    }
  }

  lemma NothingArrives(s: RxProgress)
    ensures Step(s, Arrives([])) == s
  {
    assert s.backlog + [] == s.backlog;
  }

  lemma ArrivesAdds(s: RxProgress, a: seq<seq<byte>>, b: seq<seq<byte>>)
    ensures Step(Step(s, Arrives(a)), Arrives(b)) == Step(s, Arrives(a + b))
  {
    assert s.backlog + a + b == s.backlog + (a + b);
  }

  lemma {:induction false} RunAdds(start: RxProgress, steps: seq<RxStep>, more: seq<RxStep>)
    ensures Run(start, steps + more) == Run(Run(start, steps), more)
    decreases |more|
  {
    hide Step;
    if more == [] {
      assert steps + more == steps;
    } else {
      var front, last := more[..|more| - 1], more[|more| - 1];
      RunAdds(start, steps, front);
      RunLast(start, steps + front, last);
      RunLast(Run(start, steps), front, last);
      assert more == front + [last] && steps + more == (steps + front) + [last];
    }
  }

  lemma RunLast(start: RxProgress, steps: seq<RxStep>, step: RxStep)
    ensures Run(start, steps + [step]) == Step(Run(start, steps), step)
    ensures Arrived(steps + [step]) == Arrived(steps) + if step.Arrives? then step.frames else []
  {
    assert (steps + [step])[..|steps|] == steps;
  }

  lemma {:induction false} ArrivedAdds(steps: seq<RxStep>, more: seq<RxStep>)
    ensures Arrived(steps + more) == Arrived(steps) + Arrived(more)
    decreases |more|
  {
    if more == [] {
      assert steps + more == steps;
    } else {
      var front, last := more[..|more| - 1], more[|more| - 1];
      ArrivedAdds(steps, front);
      assert (steps + more)[..|steps + more| - 1] == steps + front && (steps + more)[|steps + more| - 1] == last;
      assert Arrived(more) == Arrived(front) + if last.Arrives? then last.frames else [];
    }
  }

  lemma RunOne(start: RxProgress, step: RxStep)
    ensures Run(start, [step]) == Step(start, step)
    ensures Arrived([step]) == if step.Arrives? then step.frames else []
  {
    assert [step][..0] == [];
  }

  lemma RunThree(start: RxProgress, a: RxStep, b: RxStep, c: RxStep)
    requires a.Arrives? && b.Advances? && c.Arrives?
    ensures Run(start, [a, b, c]) == Step(Step(Step(start, a), b), c)
    ensures Arrived([a, b, c]) == a.frames + c.frames
  {
    hide Run;
    hide Step;
    hide Arrived;
    RunOne(start, a);
    RunLast(start, [a], b);
    RunLast(start, [a, b], c);
    assert [a] + [b] == [a, b] && [a, b] + [c] == [a, b, c];
  }

  /** Reading the packets of n delivered frames the way the transmit side reads packets gives the frames. */
  lemma GivenBack(ps: seq<Packet>, frs: seq<Fragment>, pb: nat, fb: nat, n: nat, frames: seq<seq<byte>>)
    requires pb < |ps| && fb < |frs| && n < |ps| && n < |frs| && n <= |frames|
    requires forall k :: 0 <= k < n ==> Delivered(ps, frs, pb, fb, k, frames[k])
    ensures AllOk(frs, Segment(ps, pb, n))
    ensures DataOf(frs, Segment(ps, pb, n)) == frames[..n]
  {
    hide Delivered;
    hide PacketBytes;
    hide PacketOk;
    var packets := Segment(ps, pb, n);
    forall k | 0 <= k < n
      ensures PacketOk(frs, packets[k]) && PacketBytes(frs, packets[k]) == frames[k]
    {
      DeliveredBytes(ps, frs, pb, fb, k, frames[k]);
    }
  }

  /** A fragment after a frame was copied to the start of its memory. */
  function Filled(fragment: Fragment, frame: seq<byte>): Fragment
    requires |frame| <= |fragment.memory|
  {
    Fragment(Put(fragment.memory, 0, frame), 0, |frame|)
  }

  /** The n fragments from index i can take size bytes each. */
  predicate RoomIn(frs: seq<Fragment>, i: nat, n: nat, size: nat) {
    && i < |frs| && n <= |frs|
    && forall fragment <- Segment(frs, i, n) :: size <= |fragment.memory|
  }

  lemma RoomAt(frs: seq<Fragment>, i: nat, n: nat, size: nat, k: nat)
    requires RoomIn(frs, i, n, size) && k < n
    ensures size <= |frs[Wrap(i + k, |frs|)].memory|
  {
    assert frs[Wrap(i + k, |frs|)] == Segment(frs, i, n)[k];
  }

  lemma UntouchedAt<T>(before: seq<T>, after: seq<T>, begin: nat, n: nat)
    requires Untouched(before, after, begin, n) && n < |before|
    ensures after[Wrap(begin + n, |before|)] == before[Wrap(begin + n, |before|)]
  {
    DistanceOfWrap(|before|, begin, n);
  }

  lemma LessRoom(frs: seq<Fragment>, i: nat, n: nat, size: nat, smaller: nat)
    requires RoomIn(frs, i, n, size) && smaller <= size
    ensures RoomIn(frs, i, n, smaller)
  {
  }

  /** Packet number k from the old begin has one fragment, the matching one, with the frame in it. */
  ghost predicate Delivered(ps: seq<Packet>, frs: seq<Fragment>, pb: nat, fb: nat, k: nat, frame: seq<byte>) {
    && pb < |ps| && fb < |frs| && k < |ps| && k < |frs|
    && var p, fragment := ps[Wrap(pb + k, |ps|)], frs[Wrap(fb + k, |frs|)];
       && p.fragmentIndex == Wrap(fb + k, |frs|) && p.fragmentCount == 1
       && fragment.offset == 0 && fragment.InBounds() && fragment.ValidBytes() == frame
  }

  /** Everything but the n elements from begin is as it was. */
  ghost predicate Untouched<T>(before: seq<T>, after: seq<T>, begin: nat, n: nat)
    ensures Untouched(before, after, begin, n) ==> |after| == |before| && begin < |before|
  {
    && |after| == |before| && begin < |before|
    && forall i :: 0 <= i < |before| && Distance(|before|, begin, i) >= n ==> after[i] == before[i]
  }

  /** Of a packet that is filled in the ignore flag stays, and of a fragment the memory behind the frame. */
  ghost predicate Kept(ps: seq<Packet>, packets: seq<Packet>, frs: seq<Fragment>, fragments: seq<Fragment>) {
    && |packets| == |ps| && |fragments| == |frs|
    && (forall i :: 0 <= i < |ps| ==> packets[i].ignore == ps[i].ignore)
    && (forall i :: 0 <= i < |frs| ==> SameBehind(frs[i], fragments[i]))
  }

  predicate SameBehind(before: Fragment, after: Fragment) {
    after == before
    || (&& |after.memory| == |before.memory| && after.validLength <= |after.memory|
        && after.memory[after.validLength..] == before.memory[after.validLength..])
  }

  lemma KeptStep(ps: seq<Packet>, packets: seq<Packet>, frs: seq<Fragment>, fragments: seq<Fragment>, i: nat, j: nat,
                 frame: seq<byte>)
    requires Kept(ps, packets, frs, fragments) && i < |ps| && j < |frs| && fragments[j] == frs[j]
    requires |frame| <= |frs[j].memory|
    ensures Kept(ps, packets[i := Packet(j, 1, packets[i].ignore)],
                 frs, fragments[j := Filled(fragments[j], frame)])
  {
    assert SameBehind(frs[j], Filled(frs[j], frame));
  }

  lemma UntouchedStep<T>(before: seq<T>, after: seq<T>, begin: nat, n: nat, v: T)
    requires Untouched(before, after, begin, n) && n < |before|
    ensures Untouched(before, after[Wrap(begin + n, |before|) := v], begin, n + 1)
  {
  }

  /** Filling the next slot of both rings delivers one more frame and disturbs none. */
  lemma DeliverStep(ps: seq<Packet>, frs: seq<Fragment>, pb: nat, fb: nat, n: nat, frames: seq<seq<byte>>, ignore: bool)
    requires pb < |ps| && fb < |frs| && n < |ps| && n < |frs| && n < |frames|
    requires forall k :: 0 <= k < n ==> Delivered(ps, frs, pb, fb, k, frames[k])
    requires |frames[n]| <= |frs[Wrap(fb + n, |frs|)].memory|
    ensures var i, j := Wrap(pb + n, |ps|), Wrap(fb + n, |frs|);
            forall k :: 0 <= k < n + 1 ==>
              Delivered(ps[i := Packet(j, 1, ignore)], frs[j := Filled(frs[j], frames[n])], pb, fb, k, frames[k])
  {
    var i, j := Wrap(pb + n, |ps|), Wrap(fb + n, |frs|);
    var ps', frs' := ps[i := Packet(j, 1, ignore)], frs[j := Filled(frs[j], frames[n])];
    forall k | 0 <= k < n + 1
      ensures Delivered(ps', frs', pb, fb, k, frames[k])
    {
      if k < n {
        assert Delivered(ps, frs, pb, fb, k, frames[k]);
        assert Wrap(pb + k, |ps|) != i && Wrap(fb + k, |frs|) != j;
      } else {
        SlicePutSame(frs[j].memory, 0, frames[n]);
      }
    }
  }

  /** Reading a delivered packet the way the transmit side reads packets gives the frame. */
  lemma DeliveredBytes(ps: seq<Packet>, frs: seq<Fragment>, pb: nat, fb: nat, k: nat, frame: seq<byte>)
    requires Delivered(ps, frs, pb, fb, k, frame) && |frs| > 1
    ensures PacketOk(frs, ps[Wrap(pb + k, |ps|)])
    ensures PacketBytes(frs, ps[Wrap(pb + k, |ps|)]) == frame
  {
    var i := Wrap(fb + k, |frs|);
    assert Gather(frs, Wrap(i + 1, |frs|), 0) == [];
  }
}
