/** What one run of the transmit path did with the packets it was given (adapter/txqueue.cpp). */
module TxLog {

  import opened Common
  import opened Bits
  import opened Bytes
  import opened NtbFormat
  import opened NtbBuilder
  import opened NtbParser
  import opened NtbRoundTrip

  /**
    A packet dropped because no request was idle; a block whose sending was cancelled, because the queue
    is being stopped; a block handed to the USB stack; a failed assertion. before is what the request's
    buffer held when the block was started; busy is how many requests were in flight when a packet was
    dropped.
   */
  datatype Outcome =
    | Dropped(busy: nat)
    | Cancelled(config: Config, before: seq<byte>)
    | Handed(config: Config, before: seq<byte>, sequence: nat, wire: seq<byte>, accepted: bool)
    | Halted(config: Config, before: seq<byte>)

  /** What happened to the packets from, ..., to - 1 of the ring. */
  datatype TxEvent = TxEvent(from: nat, to: nat, outcome: Outcome)

  ghost predicate Started(c: Config, before: seq<byte>) {
    c.Valid() && c.capacity + c.format.DpeSize() <= |before|
  }

  /** The state of a block after the packets were copied into it one by one. */
  ghost predicate Packed(c: Config, before: seq<byte>, packets: seq<seq<byte>>, st: Build) {
    Started(c, before) && Fill(c, Start(c, before), packets) == Some(st)
  }

  /** The block takes no further packet: there is none, or the copy of the next one is refused. */
  ghost predicate Closed(c: Config, st: Build, rest: seq<seq<byte>>)
    requires c.Valid() && c.capacity <= |st.bytes|
  {
    rest != [] ==> Copy(c, st, rest[0]).None?
  }

  /** st is the block the event is about: it took the event's packets and takes no further one. */
  ghost predicate BlockOf(data: seq<seq<byte>>, e: TxEvent, st: Build)
    requires !e.outcome.Dropped? && e.from <= e.to <= |data|
  {
    && Packed(e.outcome.config, e.outcome.before, data[e.from..e.to], st)
    && Closed(e.outcome.config, st, data[e.to..])
  }

  /**
    A dropped event is one packet. A block takes as many packets as it can, at least one, and the
    transfer is the finished block, possibly followed by zeros. The machine halts when not even one
    packet fits, or when a block about to be sent has the stored length zero.
   */
  ghost predicate EventOk(data: seq<seq<byte>>, e: TxEvent) {
    && e.from <= e.to <= |data|
    && match e.outcome
       case Dropped(_) => e.to == e.from + 1
       case Cancelled(_, _) => e.from < e.to && exists st :: BlockOf(data, e, st)
       case Handed(_, _, _, _, _) => e.from < e.to && exists st :: HandedAs(data, e, st)
       case Halted(_, _) => e.from < |data| && exists st :: HaltedAs(data, e, st)
  }

  ghost predicate HaltedAs(data: seq<seq<byte>>, e: TxEvent, st: Build)
    requires e.outcome.Halted? && e.from <= e.to <= |data|
  {
    BlockOf(data, e, st) && (e.from == e.to || TransferLength(e.outcome.config, st) == 0)
  }

  ghost predicate HandedAs(data: seq<seq<byte>>, e: TxEvent, st: Build)
    requires e.outcome.Handed? && e.from < e.to <= |data|
  {
    var c, wire := e.outcome.config, e.outcome.wire;
    && BlockOf(data, e, st)
    && FinishedSize(c, st) <= |st.bytes|
    && c.format.NthSize() <= |st.bytes|
    && 0 < TransferLength(c, st) <= |wire|
    && wire[..TransferLength(c, st)] == Finish(c, st, e.outcome.sequence)[..TransferLength(c, st)]
  }

  lemma DroppedOk(data: seq<seq<byte>>, e: TxEvent)
    requires e.outcome.Dropped? && e.to == e.from + 1 <= |data|
    ensures EventOk(data, e)
  {
  }

  lemma HandedOk(data: seq<seq<byte>>, e: TxEvent, st: Build, image: seq<byte>)
    requires e.outcome.Handed? && e.from < e.to <= |data|
    requires Packed(e.outcome.config, e.outcome.before, data[e.from..e.to], st)
    requires Closed(e.outcome.config, st, data[e.to..])
    requires FinishedSize(e.outcome.config, st) <= |st.bytes| && e.outcome.config.format.NthSize() <= |st.bytes|
    requires image == Finish(e.outcome.config, st, e.outcome.sequence)
    requires 0 < TransferLength(e.outcome.config, st) <= |e.outcome.wire|
    requires e.outcome.wire[..TransferLength(e.outcome.config, st)] == image[..TransferLength(e.outcome.config, st)]
    ensures EventOk(data, e)
  {
    assert HandedAs(data, e, st);
  }

  lemma CancelledOk(data: seq<seq<byte>>, e: TxEvent, st: Build)
    requires e.outcome.Cancelled? && e.from < e.to <= |data|
    requires Packed(e.outcome.config, e.outcome.before, data[e.from..e.to], st)
    requires Closed(e.outcome.config, st, data[e.to..])
    ensures EventOk(data, e)
  {
    assert BlockOf(data, e, st);
  }

  lemma HaltedOk(data: seq<seq<byte>>, e: TxEvent, st: Build)
    requires e.outcome.Halted? && e.from <= e.to <= |data| && e.from < |data|
    requires Packed(e.outcome.config, e.outcome.before, data[e.from..e.to], st)
    requires Closed(e.outcome.config, st, data[e.to..])
    requires e.from == e.to || TransferLength(e.outcome.config, st) == 0
    ensures EventOk(data, e)
  {
    assert HaltedAs(data, e, st);
  }

  /** A packet of n bytes fits an empty block. */
  predicate FitsAlone(c: Config, n: nat)
    requires c.Valid()
  {
    c.maxDatagrams > 0 && c.SizeWith(c.DatagramOffset(c.format.NthSize()) + n, 1) <= c.capacity
  }

  /**
    An assertion fails on a block for packets of these sizes: it takes none of them, or the length stored
    for those it takes comes out as zero.
   */
  predicate HaltsOn(c: Config, sizes: seq<nat>)
    requires c.Valid()
  {
    var n := Taken(c, sizes, 0);
    n == 0 || StoredLength(c, EndAfter(c, sizes[..n]), n) == 0
  }

  /**
    The sizes of the packets decide everything about an event that got a request: how many packets go
    into the block and, unless the sending is cancelled, whether the machine halts. The first assertion
    fails if and only if the packet at hand does not fit an empty block.
   */
  lemma HaltsIff(data: seq<seq<byte>>, e: TxEvent)
    requires EventOk(data, e) && !e.outcome.Dropped?
    ensures e.outcome.config.Valid() && e.from < |data|
    ensures var c, sizes := e.outcome.config, Sizes(data[e.from..]);
            && e.to == e.from + Taken(c, sizes, 0)
            && (e.from == e.to <==> !FitsAlone(c, |data[e.from]|))
            && (!e.outcome.Cancelled? ==> (e.outcome.Halted? <==> HaltsOn(c, sizes)))
  {
    hide Finish;
    hide StoredLength;
    hide Packed;
    hide Closed;
    hide Taken;
    hide EndAfter;
    hide FitsAlone;
    hide FinishedSize;
    var c, rest := e.outcome.config, data[e.from..];
    var st := BlockState(data, e);
    assert rest[..e.to - e.from] == data[e.from..e.to] && rest[e.to - e.from..] == data[e.to..];
    BlockSizes(c, e.outcome.before, rest, e.to - e.from, st);
    TakenSome(c, Sizes(rest));
  }

  /** And it does halt: whenever these sizes fail an assertion, the block they make is such an event. */
  lemma HaltHappens(c: Config, before: seq<byte>, data: seq<seq<byte>>, from: nat)
    requires Started(c, before) && from < |data| && HaltsOn(c, Sizes(data[from..]))
    ensures EventOk(data, TxEvent(from, from + Taken(c, Sizes(data[from..]), 0), Halted(c, before)))
  {
    hide Takes;
    hide StoredLength;
    hide Copy;
    hide EndAfter;
    var rest, sizes := data[from..], Sizes(data[from..]);
    var n := Taken(c, sizes, 0);
    assert rest[..n] == data[from..from + n] && rest[n..] == data[from + n..];
    assert Sizes(rest[..n]) == sizes[..n];
    forall i | 0 <= i < n
      ensures Takes(c, Sizes(rest[..n]), i)
    {
      TakenTakes(c, sizes, 0, i);
      TakesPrefix(c, sizes, n, i);
    }
    FillSizes(c, before, rest[..n]);
    var st := Fill(c, Start(c, before), rest[..n]).value;
    if n < |rest| {
      TakenStops(c, sizes, 0);
      CopySizes(c, st, sizes[..n], rest[n]);
      assert sizes[..n] + [|rest[n]|] == sizes[..n + 1];
      TakesPrefix(c, sizes, n + 1, n);
    }
    HaltedOk(data, TxEvent(from, from + n, Halted(c, before)), st);
  }

  lemma TakenSome(c: Config, sizes: seq<nat>)
    requires c.Valid() && sizes != []
    ensures Taken(c, sizes, 0) > 0 <==> FitsAlone(c, sizes[0])
  {
    hide AlignUpBy;
    hide IsPow2;
    assert sizes[..0 + 1] == [sizes[0]] && [sizes[0]][..0] == [];
    assert EndAfter(c, []) == c.format.NthSize();
    assert EndAfter(c, [sizes[0]]) == c.DatagramOffset(c.format.NthSize()) + sizes[0];
  }

  lemma BlockState(data: seq<seq<byte>>, e: TxEvent) returns (st: Build)
    requires EventOk(data, e) && !e.outcome.Dropped?
    ensures BlockOf(data, e, st) && e.from < |data|
    ensures Started(e.outcome.config, e.outcome.before)
    ensures e.outcome.Handed? ==> HandedAs(data, e, st)
    ensures e.outcome.Halted? ==> HaltedAs(data, e, st)
  {
    hide Fill;
    hide Closed;
    hide Finish;
    match e.outcome
    case Cancelled(_, _) => st :| BlockOf(data, e, st);
    case Handed(_, _, _, _, _) => st :| HandedAs(data, e, st);
    case Halted(_, _) => st :| HaltedAs(data, e, st);
  }

  /** A closed block holds as many of the packets as their sizes say. */
  lemma BlockSizes(c: Config, before: seq<byte>, packets: seq<seq<byte>>, n: nat, st: Build)
    requires n <= |packets| && Packed(c, before, packets[..n], st) && Closed(c, st, packets[n..])
    ensures Taken(c, Sizes(packets), 0) == n
    ensures st.offset == EndAfter(c, Sizes(packets)[..n]) && |st.spans| == n
  {
    hide Takes;
    var sizes := Sizes(packets);
    FillSizes(c, before, packets[..n]);
    assert Sizes(packets[..n]) == sizes[..n];
    forall i | 0 <= i < n
      ensures Takes(c, sizes, i)
    {
      TakesPrefix(c, sizes, n, i);
    }
    if n < |packets| {
      CopySizes(c, st, sizes[..n], packets[n]);
      assert sizes[..n] + [|packets[n]|] == sizes[..n + 1];
      TakesPrefix(c, sizes, n + 1, n);
    }
    TakenIs(c, sizes, 0, n);
  }

  /** Blocks of these settings can neither overrun their length fields nor refuse these packets. */
  ghost predicate Roomy(c: Config, data: seq<seq<byte>>) {
    && c.Valid()
    && c.capacity + c.format.DpeSize() < c.format.PtrLimit()
    && c.format.NdpSize() + c.format.Slots(c.maxDatagrams + 1) < 0x1_0000
    && forall d <- data :: FitsAlone(c, |d|)
  }

  /** With such settings neither assertion of the transmit path fails. */
  lemma RoomyNeverHalts(data: seq<seq<byte>>, e: TxEvent)
    requires EventOk(data, e) && !e.outcome.Dropped? && Roomy(e.outcome.config, data)
    ensures !e.outcome.Halted?
  {
    if e.outcome.Halted? {
      var c := e.outcome.config;
      HaltsIff(data, e);
      assert data[e.from] in data;
      var st := BlockState(data, e);
      AlwaysFits(c, e.outcome.before, data[e.from..e.to], st);
      TransferWholeIff(c, st);
      assert false;
    }
  }

  lemma AlwaysFits(c: Config, before: seq<byte>, packets: seq<seq<byte>>, st: Build)
    requires Packed(c, before, packets, st)
    requires c.capacity + c.format.DpeSize() < c.format.PtrLimit()
    requires c.format.NdpSize() + c.format.Slots(c.maxDatagrams + 1) < 0x1_0000
    ensures packets != [] ==> FieldsFit(c, st)
  {
    FillHolds(c, before, packets);
    if packets != [] {
      FinishedSizeBound(c, st, packets);
    }
  }

  /** The events account for packets 0, ..., done - 1 in ring order, each exactly once. */
  ghost predicate Accounts(data: seq<seq<byte>>, log: seq<TxEvent>, done: nat) {
    && done <= |data|
    && (if log == [] then done == 0 else log[0].from == 0 && log[|log| - 1].to == done)
    && (forall i :: 0 < i < |log| ==> log[i - 1].to == log[i].from)
    && (forall e <- log :: EventOk(data, e))
  }

  lemma AccountsNothing(data: seq<seq<byte>>)
    ensures Accounts(data, [], 0)
  {
  }

  lemma AccountsExtends(data: seq<seq<byte>>, log: seq<TxEvent>, done: nat, e: TxEvent)
    requires Accounts(data, log, done) && EventOk(data, e) && e.from == done
    ensures Accounts(data, log + [e], e.to)
  {
  }

  // ---------- Sequence numbers ----------

  /** How many blocks the events started: every one but a dropped packet starts a block. */
  function Blocks(log: seq<TxEvent>): nat {
    if log == [] then 0
    else Blocks(log[..|log| - 1]) + if log[|log| - 1].outcome.Dropped? then 0 else 1
  }

  /** The sequence number of the n-th block started after the one numbered start. */
  function NumberAfter(start: word, n: nat): word {
    (start + n) % 0x1_0000
  }

  /** The blocks handed over carry the numbers in which they were started: consecutive ones, modulo 2^16. */
  predicate Numbered(log: seq<TxEvent>, start: word) {
    log == []
    || (&& Numbered(log[..|log| - 1], start)
        && (log[|log| - 1].outcome.Handed? ==> log[|log| - 1].outcome.sequence == NumberAfter(start, Blocks(log))))
  }

  lemma NumberedNothing(start: word)
    ensures Numbered([], start) && Blocks([]) == 0 && NumberAfter(start, 0) == start
  {
    Arithmetic.DivModUnique(start, 0x1_0000, 0, start);
  }

  lemma NumberedOn(log: seq<TxEvent>, e: TxEvent, start: word)
    requires Numbered(log, start)
    requires e.outcome.Handed? ==> e.outcome.sequence == NumberAfter(NumberAfter(start, Blocks(log)), 1)
    ensures Numbered(log + [e], start)
    ensures NumberAfter(start, Blocks(log + [e]))
            == NumberAfter(NumberAfter(start, Blocks(log)), if e.outcome.Dropped? then 0 else 1)
  {
    assert (log + [e])[..|log|] == log;
    NumbersAdd(start, Blocks(log), 0);
    NumbersAdd(start, Blocks(log), 1);
  }

  lemma {:induction false} NumbersAdd(start: word, m: nat, n: nat)
    ensures NumberAfter(NumberAfter(start, m), n) == NumberAfter(start, m + n)
    decreases n
  {
    if n == 0 {
      Arithmetic.DivModUnique(NumberAfter(start, m), 0x1_0000, 0, NumberAfter(start, m));
    } else {
      NumbersAdd(start, m, n - 1);
      Arithmetic.ModNext(start + (m + n - 1), 0x1_0000);
      Arithmetic.ModNext(NumberAfter(start, m) + (n - 1), 0x1_0000);
    }
  }

  /** One log after another. */
  lemma {:induction false} NumberedJoins(log: seq<TxEvent>, more: seq<TxEvent>, start: word)
    requires Numbered(log, start) && Numbered(more, NumberAfter(start, Blocks(log)))
    ensures Numbered(log + more, start) && Blocks(log + more) == Blocks(log) + Blocks(more)
    decreases |more|
  {
    hide NumberAfter;
    if more == [] {
      assert log + more == log;
    } else {
      NumberedJoins(log, more[..|more| - 1], start);
      assert (log + more)[..|log + more| - 1] == log + more[..|more| - 1];
      NumbersAdd(start, Blocks(log), Blocks(more));
    }
  }

  // ---------- Several calls ----------

  /** One call of Advance: the packets it found, what happened to them, and how far it got. */
  datatype TxRun = TxRun(data: seq<seq<byte>>, log: seq<TxEvent>, done: nat)

  /** The packets of each call. */
  function Found(runs: seq<TxRun>): seq<seq<seq<byte>>> {
    if runs == [] then [] else Found(runs[..|runs| - 1]) + [runs[|runs| - 1].data]
  }

  /** The events of all calls. */
  function Events(runs: seq<TxRun>): seq<TxEvent> {
    if runs == [] then [] else Events(runs[..|runs| - 1]) + runs[|runs| - 1].log
  }

  ghost predicate AllAccounted(runs: seq<TxRun>) {
    forall r <- runs :: Accounts(r.data, r.log, r.done)
  }

  // ---------- The packets of a log ----------

  /** The packets of one event. */
  function PacketsOf(data: seq<seq<byte>>, e: TxEvent): seq<seq<byte>>
    requires e.from <= e.to <= |data|
  {
    data[e.from..e.to]
  }

  function AllPackets(data: seq<seq<byte>>, log: seq<TxEvent>): seq<seq<byte>>
    requires forall e <- log :: e.from <= e.to <= |data|
  {
    if log == [] then []
    else AllPackets(data, log[..|log| - 1]) + PacketsOf(data, log[|log| - 1])
  }

  /** Put back together, the packed and the dropped packets are the ring's packets in ring order. */
  lemma {:induction false} LogRestoresOrder(data: seq<seq<byte>>, log: seq<TxEvent>, done: nat)
    requires Accounts(data, log, done)
    ensures AllPackets(data, log) == data[..done]
    decreases |log|
  {
    if log != [] {
      var front, last := log[..|log| - 1], log[|log| - 1];
      assert EventOk(data, last);
      assert Accounts(data, front, last.from);
      LogRestoresOrder(data, front, last.from);
      assert data[..last.from] + data[last.from..last.to] == data[..last.to];
    }
  }

  /** Both length fields of a block of datagrams of these sizes hold their values. */
  predicate SizesFit(c: Config, sizes: seq<nat>)
    requires c.Valid()
  {
    && c.SizeWith(EndAfter(c, sizes), |sizes| + 1) < c.format.PtrLimit()
    && c.format.NdpSize() + c.format.Slots(|sizes| + 1) < 0x1_0000
  }

  lemma FieldsFitIff(c: Config, before: seq<byte>, packets: seq<seq<byte>>, st: Build)
    requires Packed(c, before, packets, st)
    ensures FieldsFit(c, st) <==> SizesFit(c, Sizes(packets))
  {
    hide EndAfter;
    hide AlignUpBy;
    FillSizes(c, before, packets);
  }

  /** Neither length field of the block the event handed over was truncated. */
  ghost predicate Representable(data: seq<seq<byte>>, e: TxEvent)
    requires e.outcome.Handed? && e.from <= e.to <= |data|
  {
    e.outcome.config.Valid() && SizesFit(e.outcome.config, Sizes(PacketsOf(data, e)))
  }

  /**
    Every block handed to the device decodes to exactly the packets it was packed from, whatever the
    receiver's memory holds behind the transfer.
   */
  lemma HandedDecodes(data: seq<seq<byte>>, e: TxEvent, m: seq<byte>, length: nat)
    requires EventOk(data, e) && e.outcome.Handed? && Representable(data, e)
    requires AllNonEmpty(data)
    requires Readable(e.outcome.config.format, m, length)
    requires e.outcome.wire <= m && |e.outcome.wire| <= length
    ensures Decode(e.outcome.config.format, m, length) == PacketsOf(data, e)
  {
    hide Finish;
    hide TransferLength;
    hide FinishedSize;
    hide ReadTable;
    hide ParseHeader;
    hide Decode;
    hide FieldsFit;
    hide Fill;
    hide Holds;
    hide SizesFit;
    var c, before, sequence, wire := e.outcome.config, e.outcome.before, e.outcome.sequence, e.outcome.wire;
    var st :| HandedAs(data, e, st);
    var packets := PacketsOf(data, e);
    FillHolds(c, before, packets);
    FieldsFitIff(c, before, packets, st);
    TransferWholeIff(c, st);
    var total := TransferLength(c, st);
    assert m[..total] == wire[..total];
    forall p <- packets ensures p != [] {
      assert p in data;
    }
    RoundTrip(c, st, packets, sequence, m, length);
  }
}
