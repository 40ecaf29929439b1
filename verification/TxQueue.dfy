/** The transmit path (adapter/txqueue.cpp): the packet ring is packed into transfer blocks. */
module TxQueues {

  import opened Common
  import opened Bits
  import opened Bytes
  import opened NtbFormat
  import opened NtbBuilder
  import opened NtbParser
  import opened NtbCursor
  import opened Rings
  import opened TransferBlocks
  import opened Buffers
  import opened TxLog

  /** The iterator stands at packet number done of the packets ps that start at ring index first. */
  ghost predicate Standing(pi: PacketIterator, ps: seq<Packet>, first: nat, done: nat)
    reads pi, pi.queue.packets, pi.queue.packets.elements, pi.queue.fragments
  {
    && pi.Valid()
    && var size := pi.queue.packets.elements.Length;
    && first < size && done <= |ps| < size
    && pi.index == Wrap(first + done, size)
    && pi.last == Wrap(first + |ps|, size)
    && ps == Segment(pi.queue.packets.elements[..], first, |ps|)
  }

  /** At the start of Advance the iterator spans the owned packets. */
  lemma StandingStart(pi: PacketIterator)
    requires pi.queue.Valid()
    requires pi.index == pi.queue.packets.beginIndex && pi.last == pi.queue.packets.endIndex
    ensures Standing(pi, pi.queue.packets.Owned(), pi.queue.packets.beginIndex, 0)
  {
  }

  /** The packet before the iterator is the last one it has passed. */
  lemma StandingPrevious(pi: PacketIterator, ps: seq<Packet>, first: nat, done: nat)
    requires Standing(pi, ps, first, done) && done > 0
    ensures pi.Previous() == ps[done - 1]
  {
    assert ps[done - 1] == pi.queue.packets.elements[..][Wrap(first + (done - 1), pi.queue.packets.elements.Length)];
  }

  /** A prefix of a tiling ends where its last packet's fragments end. */
  lemma TilesPrefix(ps: seq<Packet>, i: nat, size: nat, done: nat)
    requires i < size && Tiles(ps, i, size) && done <= |ps|
    ensures FragmentTotal(ps[..done]) < size
    ensures Tiles(ps[done..], Wrap(i + FragmentTotal(ps[..done]), size), size)
    ensures done > 0 ==>
              && ps[done - 1].fragmentIndex < size && ps[done - 1].fragmentCount < size
              && Wrap(ps[done - 1].fragmentIndex + ps[done - 1].fragmentCount, size)
                 == Wrap(i + FragmentTotal(ps[..done]), size)
  {
    assert ps[..done] + ps[done..] == ps;
    TilesSplits(ps[..done], ps[done..], i, size);
  }

  lemma StandingPacket(pi: PacketIterator, ps: seq<Packet>, first: nat, done: nat)
    requires Standing(pi, ps, first, done)
    ensures pi.HasAny() <==> done < |ps|
    ensures done < |ps| ==> pi.GetPacket() == ps[done]
  {
  }

  /** A run of copies, one packet longer. */
  lemma FillExtends(c: Config, st: Build, packets: seq<seq<byte>>, data: seq<byte>)
    requires c.Valid() && c.capacity <= |st.bytes|
    ensures Fill(c, st, packets + [data])
            == match Fill(c, st, packets)
               case None => None
               case Some(st') => Copy(c, st', data)
  {
    assert (packets + [data])[..|packets|] == packets;
  }

  class TxQueue {
    const queue: OsQueue
    const pool: RequestPool
    const stack: UsbStack
    const block: TransferBlock

    constructor (queue: OsQueue, pool: RequestPool, stack: UsbStack, block: TransferBlock)
      ensures this.queue == queue && this.pool == pool && this.stack == stack && this.block == block
    {
      this.queue, this.pool, this.stack, this.block := queue, pool, stack, block;
    }

    ghost predicate RequestOk(r: TxRequest) {
      r.bufferLength + block.format.DpeSize() <= r.buffer.Length
    }

    ghost predicate StackOk() {
      stack.side.Host? ==> stack.side.maximumPacketSize > 0
    }

    /** The settings of a block built in the buffer of r. */
    function Settings(r: TxRequest): Config {
      Config(block.format, block.maxDatagrams, block.ndpAlignment, block.divisor, block.remainder, r.bufferLength)
    }

    /** data are the bytes of the packets ps. */
    ghost predicate Holding(ps: seq<Packet>, data: seq<seq<byte>>)
      reads queue.fragments, queue.fragments.elements
    {
      AllOk(queue.fragments.elements[..], ps) && data == DataOf(queue.fragments.elements[..], ps)
    }

    /** The inner loop of Advance: copies packets until the ring is empty or the block is full. */
    method PackBlock(pi: PacketIterator, ghost ps: seq<Packet>, ghost data: seq<seq<byte>>,
                     ghost first: nat, ghost from: nat)
      returns (ghost done: nat)
      requires pi.queue == queue && Standing(pi, ps, first, from) && Holding(ps, data)
      requires block.Building() && block.View() == Start(block.Settings(), block.buffer[..])
      modifies pi, block, block.buffer, block.table
      ensures from <= done <= |ps| && Standing(pi, ps, first, done)
      ensures block.Building() && block.buffer == old(block.buffer) && block.bufferLength == old(block.bufferLength)
      ensures block.sequence == old(block.sequence)
      ensures Packed(block.Settings(), old(block.buffer[..]), data[from..done], block.View())
      ensures Closed(block.Settings(), block.View(), data[done..])
    {
      hide IsPow2;
      hide RingSize;
      hide Copy;
      hide Fill;
      hide PacketOk;
      hide Gatherable;
      ghost var c, before := block.Settings(), block.buffer[..];
      ghost var frs := queue.fragments.elements[..];
      done := from;
      assert data[from..from] == [];
      FillNothing(c, Start(c, before));
      while pi.HasAny()
        invariant pi.queue == queue && from <= done <= |ps| && Standing(pi, ps, first, done)
        invariant block.Building() && block.buffer == old(block.buffer) && block.Settings() == c
        invariant block.sequence == old(block.sequence)
        invariant Packed(c, before, data[from..done], block.View())
        decreases |ps| - done
      {
        StandingPacket(pi, ps, first, done);
        assert PacketOk(frs, ps[done]);
        FillExtends(c, Start(c, before), data[from..done], data[done]);
        SliceStep(data, from, done);
        var status := block.CopyNextDatagram(pi);
        if status != Success {
          return;
        }
        pi.Advance();
        done := done + 1;
      }
      StandingPacket(pi, ps, first, done);
    }

    /** The requests are all there, each in one place, and idle ones are clean. */
    ghost predicate Conserved(requests: seq<TxRequest>)
      reads pool, pool.idle, stack
    {
      && pool.Clean()
      && multiset(pool.idle) + multiset(stack.inFlight) == multiset(requests)
      && NoDuplicates(requests, [])
      && forall r <- requests :: RequestOk(r)
    }

    /** Request r is held by Advance, the others are where they belong. */
    ghost predicate Taken(r: TxRequest, requests: seq<TxRequest>)
      reads pool, pool.idle, stack
    {
      && pool.Clean() && r !in pool.idle && RequestOk(r)
      && multiset(pool.idle) + multiset(stack.inFlight) + multiset{r} == multiset(requests)
      && NoDuplicates(requests, [])
      && forall r <- requests :: RequestOk(r)
    }

    /** Completions while Advance holds no request. */
    method LetComplete(ghost requests: seq<TxRequest>)
      requires Conserved(requests)
      modifies pool, stack`inFlight, requests
      ensures Conserved(requests)
    {
      hide NoDuplicates;
      Members(pool.idle, stack.inFlight, requests);
      stack.RunCompletions(pool);
    }

    /** Completions while Advance holds request r, which they leave alone. */
    method LetCompleteAround(r: TxRequest, ghost requests: seq<TxRequest>)
      requires Taken(r, requests)
      modifies pool, stack`inFlight, requests
      ensures Taken(r, requests) && r.transferLength == old(r.transferLength)
    {
      MembersAround(r, pool.idle, stack.inFlight, requests);
      stack.RunCompletions(pool);
      MembersAround(r, pool.idle, stack.inFlight, requests);
    }

    /** Lets completions run, then asks the pool for a request. */
    method TakeRequest(ghost requests: seq<TxRequest>) returns (r: TxRequest?)
      requires Conserved(requests)
      modifies pool, stack`inFlight, requests
      ensures if r == null then Conserved(requests) && |stack.inFlight| == |requests|
              else r in requests && Taken(r, requests)
    {
      LetComplete(requests);
      Members(pool.idle, stack.inFlight, requests);
      ghost var idle := pool.idle;
      r := pool.GetBufferRequest();
      if r == null {
        assert multiset(requests) == multiset(stack.inFlight);
        assert |multiset(requests)| == |requests| && |multiset(stack.inFlight)| == |stack.inFlight|;
      } else {
        assert idle == [r] + pool.idle;
        assert r in multiset(requests);
      }
    }

    /**
      The body of Advance for a packet range that got a request: fill the block, then finish and send it.
     */
    method TransmitBlock(r: TxRequest, pi: PacketIterator, ghost ps: seq<Packet>, ghost data: seq<seq<byte>>,
                         ghost first: nat, ghost from: nat, ghost requests: seq<TxRequest>)
      returns (halted: bool, ghost e: TxEvent)
      requires block.Initialized() && StackOk() && Taken(r, requests)
      requires pi.queue == queue && Standing(pi, ps, first, from) && Holding(ps, data) && from < |ps|
      modifies pi, block, block.table, r`transferLength, r.buffer, pool, stack`inFlight, requests
      ensures EventOk(data, e) && e.from == from
      ensures Standing(pi, ps, first, e.to)
      ensures halted <==> e.outcome.Halted?
      ensures !halted ==> e.from < e.to
      ensures !e.outcome.Dropped? && e.outcome.config == Settings(r)
      ensures block.sequence == NumberAfter(old(block.sequence), 1)
      ensures e.outcome.Handed? ==> e.outcome.sequence == block.sequence
      ensures e.outcome.Handed? ==>
                |e.outcome.wire| <= r.buffer.Length && e.outcome.wire == r.buffer[..|e.outcome.wire|]
      ensures !halted ==> Conserved(requests)
    {
      hide EventOk;
      hide Standing;
      hide IsPow2;
      hide AllOk;
      hide Conserved;
      hide NoDuplicates;
      hide Packed;
      hide Closed;
      ghost var before := r.buffer[..];
      ghost var done := FillBlock(r, pi, ps, data, first, from);
      LetCompleteAround(r, requests);
      halted, e := FinishBlock(r, data, before, from, done, requests);
    }

    /** Starts a block in the request's buffer and packs it. */
    method FillBlock(r: TxRequest, pi: PacketIterator, ghost ps: seq<Packet>, ghost data: seq<seq<byte>>,
                     ghost first: nat, ghost from: nat)
      returns (ghost done: nat)
      requires block.Initialized() && RequestOk(r)
      requires pi.queue == queue && Standing(pi, ps, first, from) && Holding(ps, data)
      modifies pi, block, block.table, r.buffer
      ensures from <= done <= |ps| == |data| && Standing(pi, ps, first, done)
      ensures block.Building() && block.buffer == r.buffer && block.Settings() == Settings(r)
      ensures block.sequence == NumberAfter(old(block.sequence), 1)
      ensures Packed(Settings(r), old(r.buffer[..]), data[from..done], block.View())
      ensures Closed(Settings(r), block.View(), data[done..])
    {
      hide Standing;
      hide IsPow2;
      hide AllOk;
      hide Copy;
      hide Fill;
      hide Packed;
      hide Closed;
      hide ParseHeader;
      hide NextNdp;
      hide PacketOk;
      hide RingSize;
      var _ := block.ReInitializeBuffer(r.buffer, r.bufferLength, Tx);
      done := PackBlock(pi, ps, data, first, from);
    }

    /**
      Finishes the block that was packed, hands it over, and takes the request back if the stack refuses
      it. The two assertions of the driver that can fail here stop the machine; that is what halted says.
     */
    method FinishBlock(r: TxRequest, ghost data: seq<seq<byte>>, ghost before: seq<byte>, ghost from: nat,
                       ghost done: nat, ghost requests: seq<TxRequest>)
      returns (halted: bool, ghost e: TxEvent)
      requires block.Building() && block.buffer == r.buffer && block.Settings() == Settings(r)
      requires from <= done <= |data| && from < |data|
      requires Packed(Settings(r), before, data[from..done], block.View())
      requires Closed(Settings(r), block.View(), data[done..])
      requires StackOk() && Taken(r, requests)
      modifies r`transferLength, r.buffer, pool, stack`inFlight, requests
      ensures EventOk(data, e) && e.from == from && e.to == done
      ensures halted <==> e.outcome.Halted?
      ensures !halted ==> from < done
      ensures !e.outcome.Dropped? && e.outcome.config == Settings(r)
      ensures e.outcome.Handed? ==> e.outcome.sequence == block.sequence
      ensures e.outcome.Handed? ==>
                |e.outcome.wire| <= r.buffer.Length && e.outcome.wire == r.buffer[..|e.outcome.wire|]
      ensures !halted ==> Conserved(requests)
    {
      hide EventOk;
      hide Packed;
      hide Closed;
      hide Finish;
      hide TransferLength;
      hide FinishedSize;
      hide IsPow2;
      hide Conserved;
      hide NoDuplicates;
      ghost var c, st := block.Settings(), block.View();
      PackedCount(c, before, data[from..done], st);
      e := TxEvent(from, done, Halted(c, before));
      if block.datagramCount == 0 {
        HaltedOk(data, e, st);
        return true, e;
      }
      r.transferLength := block.SetNdp();
      var acquired := stack.AcquireProtection();
      if !acquired {
        GiveRequestBack(r, requests);
        e := TxEvent(from, done, Cancelled(c, before));
        CancelledOk(data, e, st);
        return false, e;
      }
      if r.transferLength == 0 {
        HaltedOk(data, e, st);
        return true, e;
      }
      ghost var image := r.buffer[..];
      var accepted, wire := HandOver(r, requests);
      e := TxEvent(from, done, Handed(c, before, block.sequence, wire, accepted));
      HandedOk(data, e, st, image);
      halted := false;
    }

    /**
      Sends a finished request; one the stack refuses goes back to the pool. Completions, that of the request
      itself among them, may come before the call returns.
     */
    method HandOver(r: TxRequest, ghost requests: seq<TxRequest>) returns (accepted: bool, ghost wire: seq<byte>)
      requires StackOk() && Taken(r, requests) && 0 < r.transferLength <= r.buffer.Length
      modifies r`transferLength, r.buffer, pool, stack`inFlight, requests
      ensures Conserved(requests)
      ensures old(r.transferLength) <= |wire| <= r.buffer.Length && wire == r.buffer[..|wire|]
      ensures wire[..old(r.transferLength)] == old(r.buffer[..r.transferLength])
    {
      hide NoDuplicates;
      accepted, wire := stack.TransmitFrames(r);
      if !accepted {
        GiveRequestBack(r, requests);
      }
      LetComplete(requests);
    }

    method GiveRequestBack(r: TxRequest, ghost requests: seq<TxRequest>)
      requires Taken(r, requests)
      modifies r`transferLength, pool
      ensures Conserved(requests)
    {
      hide NoDuplicates;
      pool.ReturnBufferRequest(r);
    }

    /** The rings have been given back up to packet done of the packets ps that the call started with. */
    ghost predicate ReturnedUpTo(ps: seq<Packet>, first: nat, firstFragment: nat, done: nat)
      reads queue.packets`beginIndex, queue.fragments`beginIndex
    {
      var n, m := queue.packets.elements.Length, queue.fragments.elements.Length;
      && first < n && firstFragment < m && done <= |ps| < n
      && Tiles(ps, firstFragment, m) && FragmentTotal(ps[..done]) < m
      && queue.packets.beginIndex == Wrap(first + done, n)
      && queue.fragments.beginIndex == Wrap(firstFragment + FragmentTotal(ps[..done]), m)
    }

    /** pi.Set() at packet done: both rings move up to it. */
    method GiveBack(pi: PacketIterator, ghost ps: seq<Packet>, ghost first: nat, ghost firstFragment: nat,
                    ghost before: nat, ghost done: nat)
      requires pi.queue == queue && Standing(pi, ps, first, done) && before <= done
      requires ReturnedUpTo(ps, first, firstFragment, before)
      modifies queue.packets`beginIndex, queue.fragments`beginIndex
      ensures Standing(pi, ps, first, done)
      ensures ReturnedUpTo(ps, first, firstFragment, done)
    {
      hide RingSize;
      hide FragmentTotal;
      TilesPrefix(ps, firstFragment, queue.fragments.elements.Length, done);
      if done > 0 {
        StandingPrevious(pi, ps, first, done);
      }
      pi.Set();
    }

    /** One round of the outer loop of Advance. */
    method Round(pi: PacketIterator, ghost ps: seq<Packet>, ghost data: seq<seq<byte>>, ghost first: nat,
                 ghost firstFragment: nat, ghost done: nat, ghost requests: seq<TxRequest>)
      returns (halted: bool, ghost e: TxEvent)
      requires pi.queue == queue && Standing(pi, ps, first, done) && Holding(ps, data) && done < |ps|
      requires ReturnedUpTo(ps, first, firstFragment, done)
      requires Conserved(requests) && block.Initialized() && StackOk()
      modifies pi, queue.packets`beginIndex, queue.fragments`beginIndex
      modifies block, block.table, pool, stack`inFlight, requests
      modifies set r | r in requests :: r.buffer
      ensures EventOk(data, e) && e.from == done
      ensures halted <==> e.outcome.Halted?
      ensures EventFrom(requests, e)
      ensures block.sequence == NumberAfter(old(block.sequence), if e.outcome.Dropped? then 0 else 1)
      ensures e.outcome.Handed? ==> e.outcome.sequence == block.sequence
      ensures !halted ==> done < e.to && Standing(pi, ps, first, e.to)
      ensures !halted ==> ReturnedUpTo(ps, first, firstFragment, e.to) && Conserved(requests)
    {
      hide Standing;
      hide ReturnedUpTo;
      hide EventOk;
      hide AllOk;
      hide Taken;
      hide Conserved;
      var request := TakeRequest(requests);
      if request != null {
        assert request.buffer in (set r | r in requests :: r.buffer);
        halted, e := TransmitBlock(request, pi, ps, data, first, done, requests);
        if halted {
          return;
        }
      } else {
        halted, e := false, TxEvent(done, done + 1, Dropped(|stack.inFlight|));
        StepOver(pi, ps, first, done);
        DroppedOk(data, e);
      }
      GiveBack(pi, ps, first, firstFragment, done, e.to);
    }

    /** A packet is dropped when every request is in flight; a block is built in one of the requests. */
    ghost predicate EventFrom(requests: seq<TxRequest>, e: TxEvent) {
      if e.outcome.Dropped? then e.outcome.busy == |requests|
      else exists r :: r in requests && e.outcome.config == Settings(r)
    }

    /** The packet is passed over without being copied. */
    method StepOver(pi: PacketIterator, ghost ps: seq<Packet>, ghost first: nat, ghost done: nat)
      requires Standing(pi, ps, first, done) && done < |ps|
      modifies pi
      ensures Standing(pi, ps, first, done + 1)
    {
      pi.Advance();
    }

    /**
      Advance. Unless the machine halts, the packet ring ends up empty, and every request is back in
      the pool or in flight. The log accounts for every packet in ring order: it was dropped because
      no request was idle, or it is in exactly one block.
     */
    method Advance(ghost requests: seq<TxRequest>)
      returns (halted: bool, ghost data: seq<seq<byte>>, ghost log: seq<TxEvent>, ghost done: nat)
      requires queue.Valid() && block.Initialized() && StackOk() && Conserved(requests)
      requires AllOk(queue.fragments.elements[..], queue.packets.Owned())
      requires Tiles(queue.packets.Owned(), queue.fragments.beginIndex, queue.fragments.elements.Length)
      modifies queue.packets`beginIndex, queue.fragments`beginIndex
      modifies block, block.table, pool, stack`inFlight, requests
      modifies set r | r in requests :: r.buffer
      ensures data == old(DataOf(queue.fragments.elements[..], queue.packets.Owned()))
      ensures Accounts(data, log, done)
      ensures forall e <- log :: EventFrom(requests, e)
      ensures Numbered(log, old(block.sequence)) && block.sequence == NumberAfter(old(block.sequence), Blocks(log))
      ensures halted <==> log != [] && log[|log| - 1].outcome.Halted?
      ensures !halted ==> queue.Valid() && done == |data| && queue.packets.beginIndex == queue.packets.endIndex
      ensures !halted ==>
                queue.fragments.beginIndex ==
                  (old(queue.fragments.beginIndex) + FragmentTotal(old(queue.packets.Owned())))
                  % queue.fragments.elements.Length
      ensures !halted ==> Conserved(requests)
    {
      hide AllOk;
      hide Accounts;
      hide EventOk;
      hide Standing;
      hide ReturnedUpTo;
      hide Conserved;
      hide EventFrom;
      hide NumberAfter;
      hide Numbered;
      hide Blocks;
      ghost var ps, first, firstFragment := queue.packets.Owned(), queue.packets.beginIndex, queue.fragments.beginIndex;
      data := DataOf(queue.fragments.elements[..], ps);
      var pi := new PacketIterator(queue, queue.packets.beginIndex, queue.packets.endIndex);
      halted, done, log := false, 0, [];
      StandingStart(pi);
      ghost var start := block.sequence;
      NumberedNothing(start);
      ReturnedNothing(ps);
      AccountsNothing(data);
      StandingPacket(pi, ps, first, 0);
      while pi.HasAny()
        invariant fresh(pi) && pi.queue == queue && Standing(pi, ps, first, done) && Holding(ps, data)
        invariant done <= |ps| && (pi.HasAny() <==> done < |ps|)
        invariant ReturnedUpTo(ps, first, firstFragment, done)
        invariant forall e <- log :: EventFrom(requests, e)
        invariant Accounts(data, log, done) && (log != [] ==> !log[|log| - 1].outcome.Halted?)
        invariant block.Initialized() && Conserved(requests)
        invariant Numbered(log, start) && block.sequence == NumberAfter(start, Blocks(log))
        decreases |ps| - done
      {
        ghost var e;
        halted, e := Round(pi, ps, data, first, firstFragment, done, requests);
        NumberedOn(log, e, start);
        AccountsExtends(data, log, done, e);
        log := log + [e];
        done := e.to;
        if halted {
          return;
        }
        StandingPacket(pi, ps, first, done);
      }
      ReturnedAll(pi, ps, first, firstFragment);
    }

    /**
      The system takes back what the driver returned and posts new packets. What would break its contract is
      not posted: then the driver owns nothing.
     */
    method Replenish(p: Posting)
      requires queue.Valid()
      modifies queue.packets`endIndex, queue.fragments`endIndex, queue.packets.elements, queue.fragments.elements
      ensures queue.Valid()
      ensures var n, m, pb, fb := queue.packets.elements.Length, queue.fragments.elements.Length,
                                  queue.packets.beginIndex, queue.fragments.beginIndex;
              if Meets(p, n, m, pb, fb) then
                && queue.packets.Owned() == OwnedOf(p, pb) && queue.fragments.elements[..] == p.fragments
                && queue.packets.endIndex == p.packetsEnd
              else
                queue.packets.Owned() == [] && queue.packets.endIndex == pb
    {
      hide RingSize;
      if Meets(p, queue.packets.elements.Length, queue.fragments.elements.Length,
               queue.packets.beginIndex, queue.fragments.beginIndex) {
        queue.Post(p);
      } else {
        queue.PostNothing();
      }
    }

    /** One posting and one call of Advance. */
    method Called(p: Posting, ghost requests: seq<TxRequest>) returns (halted: bool, ghost run: TxRun)
      requires queue.Valid() && block.Initialized() && StackOk() && Conserved(requests)
      modifies queue.packets, queue.fragments, queue.packets.elements, queue.fragments.elements
      modifies block, block.table, pool, stack`inFlight, requests
      modifies set r | r in requests :: r.buffer
      ensures Accounts(run.data, run.log, run.done)
      ensures forall e <- run.log :: EventFrom(requests, e)
      ensures Numbered(run.log, old(block.sequence))
      ensures block.sequence == NumberAfter(old(block.sequence), Blocks(run.log))
      ensures halted <==> run.log != [] && run.log[|run.log| - 1].outcome.Halted?
      ensures !halted ==> queue.Valid() && Conserved(requests) && run.done == |run.data|
      ensures var n, m := queue.packets.elements.Length, queue.fragments.elements.Length;
              var pb, fb := old(queue.packets.beginIndex), old(queue.fragments.beginIndex);
              && run.data == DataFed(p, n, m, pb, fb)
              && (!halted ==> (queue.packets.beginIndex, queue.fragments.beginIndex) == NextBegins(p, n, m, pb, fb))
    {
      hide RingSize;
      hide Conserved;
      hide Accounts;
      hide Numbered;
      hide Blocks;
      hide NumberAfter;
      hide EventFrom;
      hide PacketOk;
      Replenish(p);
      ghost var fb, ps := queue.fragments.beginIndex, queue.packets.Owned();
      ghost var data, log, done;
      halted, data, log, done := Advance(requests);
      run := TxRun(data, log, done);
      TotalWraps(ps, fb, queue.fragments.elements.Length);
    }

    /**
      The transmit path over any number of calls, with the rings replenished in any way before each: every
      call accounts for the packets it found, the packets found are those that were posted, all of them
      unless the machine halts, and the blocks of all calls carry consecutive sequence numbers.
     */
    method Serve(postings: seq<Posting>, ghost requests: seq<TxRequest>)
      returns (halted: bool, ghost runs: seq<TxRun>)
      requires queue.Valid() && block.Initialized() && StackOk() && Conserved(requests)
      modifies queue.packets, queue.fragments, queue.packets.elements, queue.fragments.elements
      modifies block, block.table, pool, stack`inFlight, requests
      modifies set r | r in requests :: r.buffer
      ensures AllAccounted(runs) && forall e <- Events(runs) :: EventFrom(requests, e)
      ensures Numbered(Events(runs), old(block.sequence))
      ensures block.sequence == NumberAfter(old(block.sequence), Blocks(Events(runs)))
      ensures Found(runs) <= Fed(postings, queue.packets.elements.Length, queue.fragments.elements.Length,
                                 old(queue.packets.beginIndex), old(queue.fragments.beginIndex))
      ensures forall i :: 0 <= i < |runs| && (halted ==> i < |runs| - 1) ==> runs[i].done == |runs[i].data|
      ensures halted <==> Events(runs) != [] && Events(runs)[|Events(runs)| - 1].outcome.Halted?
      ensures !halted ==> |runs| == |postings| && queue.Valid() && Conserved(requests)
    {
      hide RingSize;
      hide Conserved;
      hide Accounts;
      hide Numbered;
      hide Blocks;
      hide NumberAfter;
      hide EventFrom;
      hide DataFed;
      hide NextBegins;
      hide Fed;
      hide Found;
      hide Events;
      hide NoDuplicates;
      ghost var n, m, start := queue.packets.elements.Length, queue.fragments.elements.Length, block.sequence;
      ghost var all := Fed(postings, n, m, queue.packets.beginIndex, queue.fragments.beginIndex);
      halted, runs := false, [];
      NoRuns();
      NumberedNothing(start);
      for i := 0 to |postings|
        invariant !halted && |runs| == i && AllAccounted(runs)
        invariant queue.Valid() && block.Initialized() && Conserved(requests)
        invariant forall e <- Events(runs) :: EventFrom(requests, e)
        invariant Numbered(Events(runs), start) && block.sequence == NumberAfter(start, Blocks(Events(runs)))
        invariant all == Found(runs) + Fed(postings[i..], n, m, queue.packets.beginIndex, queue.fragments.beginIndex)
        invariant forall r <- runs :: r.done == |r.data|
        invariant Events(runs) != [] ==> !Events(runs)[|Events(runs)| - 1].outcome.Halted?
      {
        FedStep(postings[i..], n, m, queue.packets.beginIndex, queue.fragments.beginIndex);
        assert postings[i..][1..] == postings[i + 1..];
        ghost var run;
        halted, run := Called(postings[i], requests);
        NumberedJoins(Events(runs), run.log, start);
        NumbersAdd(start, Blocks(Events(runs)), Blocks(run.log));
        RunsOn(runs, run);
        runs := runs + [run];
        if halted {
          return;
        }
      }
    }

    /** When every packet fits alone in every request, and lengths cannot be truncated, nothing halts. */
    lemma NeverHalts(data: seq<seq<byte>>, log: seq<TxEvent>, done: nat, requests: seq<TxRequest>)
      requires Accounts(data, log, done) && forall e <- log :: EventFrom(requests, e)
      requires forall r <- requests :: Roomy(Settings(r), data)
      ensures forall e <- log :: !e.outcome.Halted?
    {
      forall e | e in log
        ensures !e.outcome.Halted?
      {
        assert EventFrom(requests, e);
        if !e.outcome.Dropped? {
          RoomyNeverHalts(data, e);
        }
      }
    }

    lemma ReturnedNothing(ps: seq<Packet>)
      requires queue.Valid() && ps == queue.packets.Owned()
      requires Tiles(ps, queue.fragments.beginIndex, queue.fragments.elements.Length)
      ensures ReturnedUpTo(ps, queue.packets.beginIndex, queue.fragments.beginIndex, 0)
    {
    }

    lemma ReturnedAll(pi: PacketIterator, ps: seq<Packet>, first: nat, firstFragment: nat)
      requires pi.queue == queue && Standing(pi, ps, first, |ps|) && ReturnedUpTo(ps, first, firstFragment, |ps|)
      ensures queue.packets.beginIndex == pi.last
      ensures queue.fragments.elements.Length > 0
      ensures queue.fragments.beginIndex == (firstFragment + FragmentTotal(ps)) % queue.fragments.elements.Length
    {
      assert ps[..|ps|] == ps;
      WrapIsMod(firstFragment + FragmentTotal(ps), queue.fragments.elements.Length);
    }
  }

  /** The packets of a posting that the driver owns when its begin index is pb. */
  function OwnedOf(p: Posting, pb: nat): seq<Packet>
    requires pb < |p.packets| && p.packetsEnd < |p.packets|
  {
    Segment(p.packets, pb, Distance(|p.packets|, pb, p.packetsEnd))
  }

  /** The posting keeps to the contract of rings of n packets and m fragments: its packets tile the fragment ring. */
  predicate Meets(p: Posting, n: nat, m: nat, pb: nat, fb: nat) {
    && |p.packets| == n && p.packetsEnd < n && |p.fragments| == m && p.fragmentsEnd < m && pb < n && fb < m
    && AllOk(p.fragments, OwnedOf(p, pb)) && Tiles(OwnedOf(p, pb), fb, m)
  }

  /** A posting of the right sizes is taken as it is if and only if its packets tile the fragment ring in bounds. */
  lemma MeetsIff(p: Posting, n: nat, m: nat, pb: nat, fb: nat)
    requires |p.packets| == n && p.packetsEnd < n && |p.fragments| == m && p.fragmentsEnd < m && pb < n && fb < m
    ensures var steps := if pb <= p.packetsEnd then p.packetsEnd - pb else p.packetsEnd + n - pb;
            var owned := Segment(p.packets, pb, steps);
            && (Meets(p, n, m, pb, fb) <==> AllOk(p.fragments, owned) && Tiles(owned, fb, m))
            && (Meets(p, n, m, pb, fb) ==> DataFed(p, n, m, pb, fb) == DataOf(p.fragments, owned))
  {
  }

  /** The packets' bytes that a posting hands to the driver. */
  ghost function DataFed(p: Posting, n: nat, m: nat, pb: nat, fb: nat): seq<seq<byte>> {
    if Meets(p, n, m, pb, fb) then DataOf(p.fragments, OwnedOf(p, pb)) else []
  }

  /** Where the begins of the two rings are when all of it has been returned. */
  function NextBegins(p: Posting, n: nat, m: nat, pb: nat, fb: nat): (nat, nat) {
    if Meets(p, n, m, pb, fb) then (p.packetsEnd, (fb + FragmentTotal(OwnedOf(p, pb))) % m) else (pb, fb)
  }

  /** The packets' bytes that postings hand to the driver, one after the other. */
  ghost function Fed(postings: seq<Posting>, n: nat, m: nat, pb: nat, fb: nat): seq<seq<seq<byte>>>
    decreases |postings|
  {
    if postings == [] then []
    else
      var (pb', fb') := NextBegins(postings[0], n, m, pb, fb);
      [DataFed(postings[0], n, m, pb, fb)] + Fed(postings[1..], n, m, pb', fb')
  }

  lemma FedStep(postings: seq<Posting>, n: nat, m: nat, pb: nat, fb: nat)
    requires postings != []
    ensures var next := NextBegins(postings[0], n, m, pb, fb);
            Fed(postings, n, m, pb, fb)
            == [DataFed(postings[0], n, m, pb, fb)] + Fed(postings[1..], n, m, next.0, next.1)
  {
  }

  lemma TotalWraps(ps: seq<Packet>, fb: nat, m: nat)
    requires fb < m
    ensures ps == [] ==> (fb + FragmentTotal(ps)) % m == fb
  {
    Arithmetic.DivModUnique(fb, m, 0, fb);
  }

  lemma NoRuns()
    ensures Found([]) == [] && Events([]) == []
  {
  }

  lemma RunsOn(runs: seq<TxRun>, run: TxRun)
    ensures Found(runs + [run]) == Found(runs) + [run.data]
    ensures Events(runs + [run]) == Events(runs) + run.log
  {
    assert (runs + [run])[..|runs|] == runs;
  }

  lemma Members(idle: seq<TxRequest>, inFlight: seq<TxRequest>, requests: seq<TxRequest>)
    requires multiset(idle) + multiset(inFlight) == multiset(requests) && NoDuplicates(requests, [])
    ensures NoDuplicates(idle, inFlight)
    ensures forall r <- idle :: r in requests
    ensures forall r <- inFlight :: r in requests
    ensures forall i :: 0 <= i < |inFlight| ==> inFlight[i] in requests
    ensures idle != [] ==> idle[0] !in idle[1..] && idle[0] !in inFlight
  {
    assert multiset(requests) + multiset([]) == multiset(requests);
    forall r | r in idle || r in inFlight
      ensures r in requests
    {
      assert r in multiset(requests);
    }
    if idle != [] {
      var r := idle[0];
      assert idle == [r] + idle[1..];
      assert multiset(idle) == multiset{r} + multiset(idle[1..]);
      assert multiset(requests)[r] == 1;
    }
  }

  lemma MembersAround(held: TxRequest, idle: seq<TxRequest>, inFlight: seq<TxRequest>, requests: seq<TxRequest>)
    requires multiset(idle) + multiset(inFlight) + multiset{held} == multiset(requests)
    requires NoDuplicates(requests, [])
    ensures NoDuplicates(idle, inFlight) && held !in idle && held !in inFlight
    ensures forall r <- inFlight :: r in requests
    ensures forall i :: 0 <= i < |inFlight| ==> inFlight[i] in requests && inFlight[i] != held
  {
    var all := multiset(requests);
    assert all + multiset([]) == all;
    assert all[held] == 1;
    assert multiset(idle)[held] + multiset(inFlight)[held] == 0;
    forall r | r in idle || r in inFlight
      ensures r in requests && (multiset(idle) + multiset(inFlight))[r] == 1
    {
      assert r in all && (all + multiset([]))[r] == 1;
    }
  }

  /** A block holds as many datagrams as packets were copied into it. */
  lemma {:induction false} PackedCount(c: Config, before: seq<byte>, packets: seq<seq<byte>>, st: Build)
    requires Packed(c, before, packets, st)
    ensures |st.spans| == |packets| && |st.bytes| == |before|
  {
    FillHolds(c, before, packets);
  }

  lemma SliceStep<T>(s: seq<T>, i: nat, j: nat)
    requires i <= j < |s|
    ensures s[i..j] + [s[j]] == s[i..j + 1]
  {
  }

  lemma FillNothing(c: Config, st: Build)
    requires c.Valid() && c.capacity <= |st.bytes|
    ensures Fill(c, st, []) == Some(st)
  {
  }
}
