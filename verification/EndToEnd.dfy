/** Both drivers together: what one side's transmit path sends, the other side's receive path delivers. */
module EndToEnd {

  import opened Common
  import opened Bytes
  import opened NtbFormat
  import opened NtbBuilder
  import opened NtbParser
  import opened NtbRoundTrip
  import opened Rings
  import opened TxLog
  import opened Buffers
  import opened TransferBlocks
  import opened TxQueues
  import opened RxFrames
  import opened RxQueues

  /**
    A block that was handed over is one the receiver's parser gets to the end of, and the frames
    delivered from it are the acceptable ones among its packets, in ring order, whatever the
    receiver's memory holds behind the transfer.
   */
  lemma HandedIsDelivered(data: seq<seq<byte>>, e: TxEvent, p: RxParameters, m: seq<byte>, length: nat)
    requires EventOk(data, e) && e.outcome.Handed? && Representable(data, e) && AllNonEmpty(data)
    requires p.format == e.outcome.config.format && Readable(p.format, m, length)
    requires e.outcome.wire <= m && |e.outcome.wire| <= length
    ensures Tame(p.format, m, length)
    ensures FramesOf(p, m, length) == Keep(p, PacketsOf(data, e))
  {
    hide Decode;
    hide Keep;
    hide HandedAs;
    hide Representable;
    HandedDecodes(data, e, m, length);
    HandedTame(data, e, m, length);
  }

  lemma HandedTame(data: seq<seq<byte>>, e: TxEvent, m: seq<byte>, length: nat)
    requires EventOk(data, e) && e.outcome.Handed? && Representable(data, e) && AllNonEmpty(data)
    requires Readable(e.outcome.config.format, m, length)
    requires e.outcome.wire <= m && |e.outcome.wire| <= length
    ensures Tame(e.outcome.config.format, m, length)
  {
    hide Finish;
    hide TransferLength;
    hide FinishedSize;
    hide ReadTable;
    hide ParseHeader;
    hide Decode;
    hide FieldsFit;
    hide Fill;
    hide Holds;
    hide LaterTablesFull;
    hide SizesFit;
    var c, before, sequence, wire := e.outcome.config, e.outcome.before, e.outcome.sequence, e.outcome.wire;
    var st :| HandedAs(data, e, st);
    var packets := PacketsOf(data, e);
    FillHolds(c, before, packets);
    FieldsFitIff(c, before, packets, st);
    TransferWholeIff(c, st);
    var total := TransferLength(c, st);
    assert m[..total] == wire[..total];
    forall p <- packets ensures p != [] {
      assert p in data;
    }
    RoundTrip(c, st, packets, sequence, m, length);
    OneTableTame(c, st, m, length);
  }

  lemma OneTableTame(c: Config, st: Build, m: seq<byte>, length: nat)
    requires c.Valid() && Readable(c.format, m, length)
    requires ParseHeader(c.format, m, length) == Some(Header(FinishedSize(c, st), NdpOffset(c, st)))
    requires ReadTable(c.format, m, FinishedSize(c, st), NdpOffset(c, st)) == Some(Table(st.spans, 0))
    ensures Tame(c.format, m, length)
  {
    var len, ndp := FinishedSize(c, st), NdpOffset(c, st);
    OneTableStream(c.format, m, len, ndp, st.spans);
    EndsMonotone(c.format, m, len, ndp, 1, len);
  }

  /** The acceptable frames of two lists, one after the other. */
  lemma {:induction false} KeepAppends(p: RxParameters, a: seq<seq<byte>>, b: seq<seq<byte>>)
    ensures Keep(p, a + b) == Keep(p, a) + Keep(p, b)
    decreases |a|
  {
    if a == [] {
      assert a + b == b;
    } else {
      KeepAppends(p, a[1..], b);
      assert (a + b)[1..] == a[1..] + b;
    }
  }

  /** The events in which the stack took a transfer. */
  function Accepted(log: seq<TxEvent>): (r: seq<TxEvent>)
    ensures forall e <- r :: e in log && e.outcome.Handed? && e.outcome.accepted
  {
    if log == [] then []
    else
      var last := log[|log| - 1];
      Accepted(log[..|log| - 1]) + if last.outcome.Handed? && last.outcome.accepted then [last] else []
  }

  /** A transfer that the stack took, of a call that found these packets. */
  datatype Transfer = Transfer(data: seq<seq<byte>>, event: TxEvent)

  function TransfersOf(run: TxRun): (r: seq<Transfer>)
    ensures |r| == |Accepted(run.log)|
    ensures forall i :: 0 <= i < |r| ==> r[i] == Transfer(run.data, Accepted(run.log)[i])
  {
    seq(|Accepted(run.log)|, i requires 0 <= i < |Accepted(run.log)| => Transfer(run.data, Accepted(run.log)[i]))
  }

  /** All transfers of a run of calls, in the order they were sent. */
  function Transfers(runs: seq<TxRun>): seq<Transfer> {
    if runs == [] then [] else Transfers(runs[..|runs| - 1]) + TransfersOf(runs[|runs| - 1])
  }

  lemma TransfersOn(runs: seq<TxRun>, run: TxRun, e: TxEvent)
    ensures Transfers(runs + [run]) == Transfers(runs) + TransfersOf(run)
    ensures Accepted(run.log + [e]) == Accepted(run.log) + if e.outcome.Handed? && e.outcome.accepted then [e] else []
  {
    assert (runs + [run])[..|runs|] == runs && (run.log + [e])[..|run.log|] == run.log;
  }

  ghost predicate Sound(sent: seq<Transfer>) {
    forall t <- sent :: t.event.outcome.Handed? && EventOk(t.data, t.event)
  }

  /** The packets that went out in these transfers, in ring order. */
  function SentPackets(sent: seq<Transfer>): seq<seq<byte>>
    requires forall t <- sent :: t.event.from <= t.event.to <= |t.data|
  {
    if sent == [] then []
    else
      var last := sent[|sent| - 1];
      SentPackets(sent[..|sent| - 1]) + PacketsOf(last.data, last.event)
  }

  /** The arriving buffer starts with the transfer. */
  ghost predicate Carried(p: RxParameters, t: Transfer, a: Arrival) {
    && t.event.outcome.Handed? && p.format == t.event.outcome.config.format
    && Readable(p.format, a.content, a.size) && a.size <= MAX_RECEIVE_LENGTH
    && t.event.outcome.wire <= a.content && |t.event.outcome.wire| <= a.size
  }

  /** The transfers arrive, each in a buffer of its own, in the order they were sent. */
  ghost predicate AllCarried(p: RxParameters, sent: seq<Transfer>, arrivals: seq<Arrival>) {
    && |sent| == |arrivals|
    && forall i :: 0 <= i < |sent| ==> Carried(p, sent[i], arrivals[i])
  }

  /** Transfers whose blocks the receiver can read: whole blocks of packets that are not empty. */
  ghost predicate Legible(sent: seq<Transfer>) {
    forall t <- sent ::
      && t.event.outcome.Handed? && t.event.from <= t.event.to <= |t.data|
      && AllNonEmpty(t.data) && Representable(t.data, t.event)
  }

  /** Transfers that arrive bring the acceptable ones among the packets that were sent in them. */
  lemma {:induction false} ArrivalsBring(p: RxParameters, sent: seq<Transfer>, arrivals: seq<Arrival>)
    requires Sound(sent) && Legible(sent)
    requires (forall a <- arrivals :: a.fetched) && AllCarried(p, sent, arrivals)
    ensures AllTame(p.format, arrivals)
    ensures Brought(p, arrivals) == Keep(p, SentPackets(sent))
    decreases |sent|
  {
    hide Tame;
    hide FramesOf;
    hide EventOk;
    hide Representable;
    hide Carried;
    hide SentPackets;
    hide Brought;
    hide Keep;
    hide AllNonEmpty;
    if sent == [] {
      NothingBrought(p);
    } else {
      var last := |sent| - 1;
      var t, a := sent[last], arrivals[last];
      ArrivalsBring(p, sent[..last], arrivals[..last]);
      assert t in sent && a in arrivals && Carried(p, t, a);
      assert sent == sent[..last] + [t] && arrivals == arrivals[..last] + [a];
      ArrivalBrings(p, t, a);
      BroughtAdds(p, arrivals[..last], [a]);
      SentPacketsOn(sent[..last], t);
      KeepAppends(p, SentPackets(sent[..last]), PacketsOf(t.data, t.event));
    }
  }

  lemma NothingBrought(p: RxParameters)
    ensures Brought(p, []) == Keep(p, SentPackets([])) == []
  {
  }

  lemma SentPacketsOn(sent: seq<Transfer>, t: Transfer)
    requires (forall d <- sent :: d.event.from <= d.event.to <= |d.data|) && t.event.from <= t.event.to <= |t.data|
    ensures forall d <- sent + [t] :: d.event.from <= d.event.to <= |d.data|
    ensures SentPackets(sent + [t]) == SentPackets(sent) + PacketsOf(t.data, t.event)
  {
    assert (sent + [t])[..|sent|] == sent;
  }

  lemma ArrivalBrings(p: RxParameters, t: Transfer, a: Arrival)
    requires EventOk(t.data, t.event) && t.event.outcome.Handed?
    requires Representable(t.data, t.event) && AllNonEmpty(t.data)
    requires a.fetched && Carried(p, t, a)
    ensures AllTame(p.format, [a]) && Brought(p, [a]) == Keep(p, PacketsOf(t.data, t.event))
  {
    hide Tame;
    hide FramesOf;
    hide EventOk;
    hide Representable;
    hide Keep;
    HandedIsDelivered(t.data, t.event, p, a.content, a.size);
    BroughtOne(p, a);
  }

  /** Settings that cannot truncate a length field make every transfer legible. */
  lemma RoomyLegible(data: seq<seq<byte>>, log: seq<TxEvent>, done: nat)
    requires Accounts(data, log, done) && AllNonEmpty(data)
    requires forall e <- log :: !e.outcome.Dropped? ==> Roomy(e.outcome.config, data)
    ensures Legible(TransfersOf(TxRun(data, log, done)))
  {
    hide Roomy;
    hide Representable;
    hide EventOk;
    hide AllNonEmpty;
    LogEvents(data, log, done);
    forall e | e in Accepted(log)
      ensures Representable(data, e)
    {
      RoomyRepresentable(data, e);
    }
  }

  lemma RoomyRepresentable(data: seq<seq<byte>>, e: TxEvent)
    requires EventOk(data, e) && e.outcome.Handed? && Roomy(e.outcome.config, data)
    ensures Representable(data, e)
  {
    hide Finish;
    hide Closed;
    hide SizesFit;
    hide FieldsFit;
    hide Fill;
    var c, before, packets := e.outcome.config, e.outcome.before, PacketsOf(data, e);
    var st := BlockState(data, e);
    AlwaysFits(c, before, packets, st);
    FieldsFitIff(c, before, packets, st);
  }

  lemma LogEvents(data: seq<seq<byte>>, log: seq<TxEvent>, done: nat)
    requires Accounts(data, log, done)
    ensures forall e <- log :: EventOk(data, e) && e.from <= e.to <= |data|
  {
    forall e | e in log
      ensures EventOk(data, e) && e.from <= e.to <= |data|
    {
      assert EventOk(data, e);
    }
  }

  /** The transfers of accounted calls are events of the transmit path. */
  lemma {:induction false} TransfersSound(runs: seq<TxRun>)
    requires AllAccounted(runs)
    ensures Sound(Transfers(runs))
    ensures forall t <- Transfers(runs) :: t.event.from <= t.event.to <= |t.data|
    decreases |runs|
  {
    hide EventOk;
    hide Accounts;
    if runs != [] {
      var front, last := runs[..|runs| - 1], runs[|runs| - 1];
      assert last in runs && forall r <- front :: r in runs;
      TransfersSound(front);
      LogEvents(last.data, last.log, last.done);
      forall t | t in TransfersOf(last)
        ensures t.event.outcome.Handed? && EventOk(t.data, t.event) && t.event.from <= t.event.to <= |t.data|
      {
      }
    }
  }

  /** Only stored arrivals bring anything, and only they have to be tame. */
  lemma {:induction false} StoredBring(p: RxParameters, arrivals: seq<Arrival>)
    requires AllTame(p.format, Stored(arrivals))
    ensures AllTame(p.format, arrivals) && Brought(p, arrivals) == Brought(p, Stored(arrivals))
    decreases |arrivals|
  {
    hide Tame;
    hide Brought;
    hide FramesOf;
    if arrivals == [] {
    } else {
      var front, a := arrivals[..|arrivals| - 1], arrivals[|arrivals| - 1];
      assert forall b <- Stored(front) :: b in Stored(arrivals);
      StoredBring(p, front);
      assert arrivals == front + [a];
      assert a.fetched ==> a in Stored(arrivals);
      BroughtAdds(p, front, [a]);
      BroughtOne(p, a);
      if a.fetched {
        BroughtAdds(p, Stored(front), [a]);
      } else {
        assert Brought(p, front) + [] == Brought(p, front) && Stored(arrivals) == Stored(front);
      }
    }
  }

  /** A schedule in which the transfers are what arrives brings the acceptable ones among their packets. */
  lemma ScheduleBrings(p: RxParameters, runs: seq<TxRun>, actions: seq<Action>)
    requires AllAccounted(runs) && Legible(Transfers(runs))
    requires AllCarried(p, Transfers(runs), Stored(Arrivals(actions)))
    ensures AllTame(p.format, Arrivals(actions))
    ensures forall t <- Transfers(runs) :: t.event.from <= t.event.to <= |t.data|
    ensures Brought(p, Arrivals(actions)) == Keep(p, SentPackets(Transfers(runs)))
  {
    hide Tame;
    hide Brought;
    hide Keep;
    hide EventOk;
    hide Accounts;
    hide SentPackets;
    hide Stored;
    TransfersSound(runs);
    ArrivalsBring(p, Transfers(runs), Stored(Arrivals(actions)));
    StoredBring(p, Arrivals(actions));
  }

  /**
    The receiving driver, given any schedule of calls in which exactly the transfers that the stack took of
    any number of calls of the transmit path arrive in order: what it has given back and what is waiting
    grow by the acceptable ones among the packets sent, each once and in the order of the transmit ring.
   */
  method Deliver(rx: RxQueue, actions: seq<Action>, ghost runs: seq<TxRun>)
    requires rx.Steady() && rx.MemoryIntact() && rx.queue.Valid()
    requires AllAccounted(runs) && Legible(Transfers(runs))
    requires AllCarried(rx.parameters, Transfers(runs), Stored(Arrivals(actions)))
    modifies rx`processing, rx`delivered, rx.buffers, rx.block, rx.block.table
    modifies rx.queue.packets, rx.queue.fragments, rx.queue.packets.elements, rx.queue.fragments.elements
    ensures rx.Steady() && rx.MemoryIntact() && rx.queue.Valid()
    ensures forall t <- Transfers(runs) :: t.event.from <= t.event.to <= |t.data|
    ensures rx.delivered + rx.Backlog()
            == old(rx.delivered + rx.Backlog()) + Keep(rx.parameters, SentPackets(Transfers(runs)))
  {
    hide RxQueue.Steady;
    hide RxQueue.MemoryIntact;
    hide RxQueue.Backlog;
    hide Keep;
    hide Brought;
    hide RingSize;
    hide EventOk;
    hide Accounts;
    hide SentPackets;
    ScheduleBrings(rx.parameters, runs, actions);
    var _, _ := rx.Serve(actions);
  }

  /** The two drivers run on different machines: they share no memory. */
  ghost predicate Apart(tx: TxQueue, rx: RxQueue, requests: seq<TxRequest>)
    reads rx`processing, rx.buffers
  {
    && tx.block != rx.block
    && tx.queue.packets != rx.queue.packets && tx.queue.fragments != rx.queue.fragments
    && tx.queue.packets.elements != rx.queue.packets.elements
    && tx.queue.fragments.elements != rx.queue.fragments.elements
    && forall r <- requests :: r.buffer !in rx.Memories()
  }

  /**
    End to end, both drivers: any number of calls of Advance on the sending side, with the rings replenished
    in any way before each, then any schedule on the receiving side. When the transfers that were taken are
    legible and are what arrives, the receiver has given back or holds ready exactly the acceptable ones
    among the packets sent, in transmit ring order, behind what it had before.
   */
  method SendAndDeliver(tx: TxQueue, postings: seq<Posting>, ghost requests: seq<TxRequest>,
                        rx: RxQueue, actions: seq<Action>)
    returns (halted: bool, ghost runs: seq<TxRun>)
    requires tx.queue.Valid() && tx.block.Initialized() && tx.StackOk() && tx.Conserved(requests)
    requires rx.Steady() && rx.MemoryIntact() && rx.queue.Valid() && Apart(tx, rx, requests)
    requires AllTame(rx.parameters.format, Arrivals(actions))
    modifies tx.queue.packets, tx.queue.fragments, tx.queue.packets.elements, tx.queue.fragments.elements
    modifies tx.block, tx.block.table, tx.pool, tx.stack`inFlight, requests
    modifies set r | r in requests :: r.buffer
    modifies rx`processing, rx`delivered, rx.buffers, rx.block, rx.block.table
    modifies rx.queue.packets, rx.queue.fragments, rx.queue.packets.elements, rx.queue.fragments.elements
    ensures AllAccounted(runs) && forall e <- Events(runs) :: tx.EventFrom(requests, e)
    ensures Found(runs) <= Fed(postings, tx.queue.packets.elements.Length, tx.queue.fragments.elements.Length,
                               old(tx.queue.packets.beginIndex), old(tx.queue.fragments.beginIndex))
    ensures !halted ==> |runs| == |postings|
    ensures rx.Steady() && forall t <- Transfers(runs) :: t.event.from <= t.event.to <= |t.data|
    ensures Legible(Transfers(runs)) && AllCarried(rx.parameters, Transfers(runs), Stored(Arrivals(actions))) ==>
              rx.delivered + rx.Backlog()
              == old(rx.delivered + rx.Backlog()) + Keep(rx.parameters, SentPackets(Transfers(runs)))
  {
    hide RxQueue.Steady;
    hide RxQueue.Backlog;
    hide Keep;
    hide Brought;
    hide RingSize;
    hide Accounts;
    hide EventOk;
    hide Fed;
    hide SentPackets;
    hide Numbered;
    hide TxQueue.Conserved;
    hide TxQueue.EventFrom;
    hide Tame;
    hide Found;
    hide Events;
    hide Arrivals;
    hide Stored;
    hide Transfers;
    hide Carried;
    ghost var before := rx.delivered + rx.Backlog();
    halted, runs := tx.Serve(postings, requests);
    TransfersSound(runs);
    assert rx.delivered + rx.Backlog() == before;
    var _, _ := rx.Serve(actions);
    if Legible(Transfers(runs)) && AllCarried(rx.parameters, Transfers(runs), Stored(Arrivals(actions))) {
      ScheduleBrings(rx.parameters, runs, actions);
    }
  }
}
