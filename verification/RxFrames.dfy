/**
  What the receive path delivers, as a function of the received buffers (adapter/rxqueue.cpp): the
  datagrams of every buffer in order, keeping those of an acceptable size that match the filter.
 */
module RxFrames {

  import opened Common
  import opened Bytes
  import opened NtbFormat
  import opened NtbParser
  import opened NtbCursor

  /** The packet filter flags the driver looks at, and the station address. */
  datatype ReceiveFilter = ReceiveFilter(
    directed: bool,
    allMulticast: bool,
    broadcast: bool,
    promiscuous: bool,
    address: seq<byte>)

  datatype RxParameters = RxParameters(format: Format, maxDatagramSize: nat, filter: ReceiveFilter)

  /** MatchPacketFilter, on a frame that has at least an Ethernet header. */
  predicate MatchPacketFilter(filter: ReceiveFilter, frame: seq<byte>)
    requires |frame| >= ETHERNET_HEADER_SIZE
  {
    if frame[0] % 2 == 1 then
      if frame[0] == 0xff then filter.broadcast || filter.promiscuous
      else filter.allMulticast || filter.promiscuous
    else
      filter.promiscuous || (filter.directed && frame[..6] == filter.address)
  }

  predicate Accepts(p: RxParameters, frame: seq<byte>) {
    && ETHERNET_HEADER_SIZE <= |frame| <= p.maxDatagramSize
    && MatchPacketFilter(p.filter, frame)
  }

  /** The acceptable frames, in order. */
  function Keep(p: RxParameters, frames: seq<seq<byte>>): seq<seq<byte>> {
    if frames == [] then []
    else (if Accepts(p, frames[0]) then [frames[0]] else []) + Keep(p, frames[1..])
  }

  /**
    What becomes of the next frame of a buffer. Nothing shorter than an Ethernet header or longer than the
    largest datagram is kept. Of the others, a frame whose first byte is 0xff is for everybody, one with
    another odd first byte for a group, and one with an even first byte for one station.
   */
  lemma FilterDecides(p: RxParameters, before: seq<seq<byte>>, frame: seq<byte>)
    ensures Keep(p, before + [frame]) == Keep(p, before) || Keep(p, before + [frame]) == Keep(p, before) + [frame]
    ensures var kept, f := Keep(p, before + [frame]) == Keep(p, before) + [frame], p.filter;
            && (kept ==> 14 <= |frame| <= p.maxDatagramSize)
            && (14 <= |frame| <= p.maxDatagramSize ==>
                  && (frame[0] == 0xff ==> (kept <==> f.broadcast || f.promiscuous))
                  && (frame[0] % 2 == 1 && frame[0] != 0xff ==> (kept <==> f.allMulticast || f.promiscuous))
                  && (frame[0] % 2 == 0 && frame[0..6] == f.address ==> (kept <==> f.directed || f.promiscuous))
                  && (frame[0] % 2 == 0 && frame[0..6] != f.address ==> (kept <==> f.promiscuous)))
  {
    KeepLast(p, before, frame);
  }

  lemma {:induction false} KeepLast(p: RxParameters, before: seq<seq<byte>>, frame: seq<byte>)
    ensures Keep(p, before + [frame]) == Keep(p, before) + if Accepts(p, frame) then [frame] else []
    decreases |before|
  {
    hide Accepts;
    if before == [] {
      assert before + [frame] == [frame] && [frame][1..] == [];
    } else {
      KeepLast(p, before[1..], frame);
      assert (before + [frame])[1..] == before[1..] + [frame];
    }
  }

  /** A frame that may be delivered: of acceptable size, and wanted by a flag for those it is addressed to. */
  ghost predicate Wanted(p: RxParameters, frame: seq<byte>) {
    && 14 <= |frame| <= p.maxDatagramSize
    && (p.filter.promiscuous
        || (frame[0] == 0xff && p.filter.broadcast)
        || (frame[0] % 2 == 1 && frame[0] != 0xff && p.filter.allMulticast)
        || (frame[0] % 2 == 0 && frame[0..6] == p.filter.address && p.filter.directed))
  }

  ghost predicate AllWanted(p: RxParameters, frames: seq<seq<byte>>) {
    forall frame <- frames :: Wanted(p, frame)
  }

  lemma NoneWanted(p: RxParameters, frames: seq<seq<byte>>)
    ensures AllWanted(p, frames[..0])
  {
  }

  lemma WantedOn(p: RxParameters, frames: seq<seq<byte>>, n: nat)
    requires n < |frames| && AllWanted(p, frames[..n]) && Wanted(p, frames[n])
    ensures AllWanted(p, frames[..n + 1])
  {
    assert frames[..n + 1] == frames[..n] + [frames[n]];
  }

  lemma AcceptedIsWanted(p: RxParameters, frame: seq<byte>)
    ensures Accepts(p, frame) <==> Wanted(p, frame)
  {
  }

  lemma {:induction false} KeptAreWanted(p: RxParameters, frames: seq<seq<byte>>, frame: seq<byte>)
    ensures frame in Keep(p, frames) <==> frame in frames && Wanted(p, frame)
    decreases |frames|
  {
    if frames != [] {
      KeptAreWanted(p, frames[1..], frame);
      assert frames == [frames[0]] + frames[1..];
    }
  }

  /** Everything one received buffer delivers. */
  function FramesOf(p: RxParameters, content: seq<byte>, size: nat): seq<seq<byte>>
    requires Readable(p.format, content, size)
  {
    Keep(p, Decode(p.format, content, size))
  }

  /**
    What the parser needs of a received buffer to come to an end: its chain of tables ends, and no
    table but the first is empty.
   */
  ghost predicate Tame(f: Format, content: seq<byte>, size: nat) {
    && Readable(f, content, size)
    && var h := ParseHeader(f, content, size);
       h.Some? ==>
         && Ends(f, content, h.value.blockLength, h.value.ndpIndex, h.value.blockLength)
         && LaterTablesFull(f, content, h.value.blockLength, h.value.ndpIndex)
  }

  /** A parser in the middle of a tame buffer. */
  ghost predicate Midway(f: Format, content: seq<byte>, len: nat, cur: Cursor) {
    && Readable(f, content, len) && Consistent(f, content, len, cur)
    && Full(f, content, len, cur.next) && Ends(f, content, len, cur.next, len)
  }

  /** The datagrams still in the buffer. */
  ghost function Left(f: Format, content: seq<byte>, len: nat, cur: Cursor): (r: seq<Entry>)
    requires Midway(f, content, len, cur)
    ensures forall e <- r :: !IsNull(e) && InBlock(f, len, e)
  {
    Pending(f, content, len, cur, len)
  }

  /** The frames still in the buffer. */
  ghost function FramesLeft(p: RxParameters, content: seq<byte>, len: nat, cur: Cursor): seq<seq<byte>>
    requires Midway(p.format, content, len, cur)
  {
    Keep(p, Payloads(content, Left(p.format, content, len, cur)))
  }

  /** A buffer that was just opened has all its frames left; one that cannot be opened has none. */
  lemma OpenBuffer(p: RxParameters, content: seq<byte>, size: nat)
    requires Tame(p.format, content, size)
    ensures match ParseHeader(p.format, content, size)
            case None => FramesOf(p, content, size) == []
            case Some(h) =>
              var (status, cur) := NextNdp(p.format, content, h.blockLength, Cursor(0, h.ndpIndex, 0, 0));
              if status == Success then
                && Midway(p.format, content, h.blockLength, cur)
                && FramesLeft(p, content, h.blockLength, cur) == FramesOf(p, content, size)
              else
                FramesOf(p, content, size) == []
  {
    hide ReadTable;
    var header := ParseHeader(p.format, content, size);
    if header.Some? {
      var f, len, ndp := p.format, header.value.blockLength, header.value.ndpIndex;
      var (status, cur) := NextNdp(f, content, len, Cursor(0, ndp, 0, 0));
      if status == Success {
        FullNext(f, content, len, ndp);
        StreamUnrolls(f, content, len, ndp, len);
        if cur.count == 0 {
          assert ReadTable(f, content, len, ndp).value.entries == [];
        }
      }
    }
  }

  lemma PayloadsStep(content: seq<byte>, e: Entry, es: seq<Entry>)
    requires forall d <- [e] + es :: d.index + d.length <= |content|
    ensures e.index + e.length <= |content|
    ensures forall d <- es :: d.index + d.length <= |content|
    ensures Payloads(content, [e] + es) == [Payload(content, e)] + Payloads(content, es)
  {
    var all := [e] + es;
    assert all[0] == e;
    forall d | d in es
      ensures d.index + d.length <= |content|
    {
      assert d in all;
    }
  }

  lemma KeepStep(p: RxParameters, frame: seq<byte>, frames: seq<seq<byte>>)
    ensures Keep(p, [frame] + frames) == (if Accepts(p, frame) then [frame] else []) + Keep(p, frames)
  {
    assert ([frame] + frames)[1..] == frames;
  }

  /** One call of GetNextDatagram takes the first datagram left, or finds that there is none. */
  lemma TakeDatagram(p: RxParameters, content: seq<byte>, len: nat, cur: Cursor)
    requires Midway(p.format, content, len, cur)
    ensures var r := NextDatagram(p.format, content, len, cur);
            if r.status == Success then
              && r.entry.index + r.entry.length <= len
              && Midway(p.format, content, len, r.cursor)
              && |Left(p.format, content, len, r.cursor)| == |Left(p.format, content, len, cur)| - 1
              && var frame := Payload(content, r.entry);
                 FramesLeft(p, content, len, cur)
                 == (if Accepts(p, frame) then [frame] else []) + FramesLeft(p, content, len, r.cursor)
            else
              FramesLeft(p, content, len, cur) == []
  {
    hide ReadTable;
    hide NextDatagram;
    hide Pending;
    hide Payload;
    hide Accepts;
    var f := p.format;
    var r := NextDatagram(f, content, len, cur);
    LeftStep(f, content, len, cur);
    var left := Left(f, content, len, cur);
    if r.status != Success {
      assert Payloads(content, left) == [];
    } else {
      assert left == [r.entry] + Left(f, content, len, r.cursor);
      assert left[0] == r.entry && left[0] in left;
      PayloadsStep(content, r.entry, Left(f, content, len, r.cursor));
      KeepStep(p, Payload(content, r.entry), Payloads(content, Left(f, content, len, r.cursor)));
    }
  }

  lemma LeftStep(f: Format, content: seq<byte>, len: nat, cur: Cursor)
    requires Midway(f, content, len, cur)
    ensures var r := NextDatagram(f, content, len, cur);
            if r.status == Success then
              Midway(f, content, len, r.cursor)
              && Left(f, content, len, cur) == [r.entry] + Left(f, content, len, r.cursor)
            else
              Left(f, content, len, cur) == []
  {
    hide ReadTable;
    CallKeepsState(f, content, len, cur);
    if cur.index < cur.count {
      CallWithinTable(f, content, len, cur, len);
    } else if Stops(f, content, len, cur.next) {
      CallAcrossTables(f, content, len, cur, len);
    } else {
      CallAcrossTables(f, content, len, cur, len);
      StreamUnrolls(f, content, len, cur.next, len);
      var next := ReadTable(f, content, len, cur.next).value.next;
      StreamStable(f, content, len, next, len, len + 1);
      StreamStable(f, content, len, cur.next, len, len + 1);
    }
  }

  // ---------- Whether a block comes to an end ----------

  /** The k-th call, counted from 0, ends the loop of GetNextFrame: it fails, or its datagram is acceptable. */
  ghost predicate EndsLoop(p: RxParameters, content: seq<byte>, len: nat, cur: Cursor, k: nat)
    requires Readable(p.format, content, len) && Consistent(p.format, content, len, cur)
    requires Full(p.format, content, len, cur.next)
  {
    var r := NextDatagram(p.format, content, len, After(p.format, content, len, cur, k));
    r.status == Success ==>
      r.entry.index + r.entry.length <= |content| && Accepts(p, Payload(content, r.entry))
  }

  /** Among the datagrams a walk through n tables finds there is an acceptable one. */
  ghost predicate AcceptableWithin(p: RxParameters, content: seq<byte>, len: nat, cur: Cursor, n: nat)
    requires Readable(p.format, content, len) && Consistent(p.format, content, len, cur)
  {
    exists e :: e in Pending(p.format, content, len, cur, n) && Accepts(p, Payload(content, e))
  }

  /**
    GetNextFrame's loop comes to an end on a block if and only if its chain of tables ends or has an
    acceptable datagram, and a walk through as many tables as the block has bytes decides both. A chain that
    goes round without an acceptable datagram keeps the loop running, whatever the number of calls.
   */
  lemma LoopEndsIff(p: RxParameters, content: seq<byte>, len: nat, cur: Cursor)
    requires Readable(p.format, content, len) && Consistent(p.format, content, len, cur)
    requires Full(p.format, content, len, cur.next)
    ensures (exists k: nat :: EndsLoop(p, content, len, cur, k))
            <==> Ends(p.format, content, len, cur.next, len) || AcceptableWithin(p, content, len, cur, len)
  {
    hide ReadTable;
    hide NextDatagram;
    hide Accepts;
    hide Payload;
    var f := p.format;
    if Ends(f, content, len, cur.next, len) {
      LoopEndsAtStop(p, content, len, cur);
    } else if AcceptableWithin(p, content, len, cur, len) {
      var e :| e in Pending(f, content, len, cur, len) && Accepts(p, Payload(content, e));
      LoopEndsAtFrame(p, content, len, cur, e);
    } else if k: nat :| EndsLoop(p, content, len, cur, k) {
      LoopGoesOn(p, content, len, cur, k);
    }
  }

  lemma LoopEndsAtStop(p: RxParameters, content: seq<byte>, len: nat, cur: Cursor)
    requires Readable(p.format, content, len) && Consistent(p.format, content, len, cur)
    requires Full(p.format, content, len, cur.next) && Ends(p.format, content, len, cur.next, len)
    ensures exists k: nat :: EndsLoop(p, content, len, cur, k)
  {
    hide ReadTable;
    hide NextDatagram;
    hide Accepts;
    hide Payload;
    var f := p.format;
    var k := len + |Pending(f, content, len, cur, len)|;
    StreamStable(f, content, len, cur.next, len, k + 1);
    CallsFollowStream(f, content, len, cur, k);
    assert EndsLoop(p, content, len, cur, k);
  }

  lemma LoopEndsAtFrame(p: RxParameters, content: seq<byte>, len: nat, cur: Cursor, e: Entry)
    requires Readable(p.format, content, len) && Consistent(p.format, content, len, cur)
    requires Full(p.format, content, len, cur.next)
    requires e in Pending(p.format, content, len, cur, len) && Accepts(p, Payload(content, e))
    ensures exists k: nat :: EndsLoop(p, content, len, cur, k)
  {
    hide ReadTable;
    hide NextDatagram;
    hide Accepts;
    hide Payload;
    var f := p.format;
    var k: nat :| k < |Pending(f, content, len, cur, len)| && Pending(f, content, len, cur, len)[k] == e;
    StreamPrefix(f, content, len, cur.next, len, len + k + 1);
    StreamPrefix(f, content, len, cur.next, k + 1, len + k + 1);
    CallsFollowStream(f, content, len, cur, k);
    assert EndsLoop(p, content, len, cur, k);
  }

  /** More tables only add datagrams. */
  lemma {:induction false} StreamPrefix(f: Format, b: seq<byte>, len: nat, p: nat, m: nat, n: nat)
    requires Readable(f, b, len) && Full(f, b, len, p) && m <= n
    ensures Stream(f, b, len, p, m) <= Stream(f, b, len, p, n)
    decreases n
  {
    hide Stream;
    hide Full;
    if m < n {
      StreamPrefix(f, b, len, p, m, n - 1);
      StreamGrows(f, b, len, p, n - 1);
    }
  }

  lemma LoopGoesOn(p: RxParameters, content: seq<byte>, len: nat, cur: Cursor, k: nat)
    requires Readable(p.format, content, len) && Consistent(p.format, content, len, cur)
    requires Full(p.format, content, len, cur.next) && !Ends(p.format, content, len, cur.next, len)
    requires EndsLoop(p, content, len, cur, k)
    ensures AcceptableWithin(p, content, len, cur, len)
  {
    hide ReadTable;
    hide NextDatagram;
    hide Accepts;
    hide Payload;
    hide Stream;
    var f := p.format;
    CallsFollowStream(f, content, len, cur, k);
    ChainEndsIff(f, content, len, cur.next);
    var all := Pending(f, content, len, cur, k + 1);
    assert k < |all| && all[k] in all;
    if all[k] in Stream(f, content, len, cur.next, k + 1) {
      NothingNew(f, content, len, cur.next, k + 1, all[k]);
    }
    assert all[k] in Pending(f, content, len, cur, len);
  }

  // ---------- Runs ----------

  /** What happens to the receive path: a buffer arrives, or Advance runs with some ring space. */
  datatype RxStep = Arrives(frames: seq<seq<byte>>) | Advances(space: nat)

  /** Frames waiting and frames delivered so far. */
  datatype RxProgress = RxProgress(backlog: seq<seq<byte>>, delivered: seq<seq<byte>>)

  /** Advance delivers as much as there is space for, from the front. */
  function Step(s: RxProgress, step: RxStep): RxProgress {
    match step
    case Arrives(frames) => s.(backlog := s.backlog + frames)
    case Advances(space) =>
      var n := Min(space, |s.backlog|);
      RxProgress(s.backlog[n..], s.delivered + s.backlog[..n])
  }

  function Run(s: RxProgress, steps: seq<RxStep>): RxProgress {
    if steps == [] then s else Step(Run(s, steps[..|steps| - 1]), steps[|steps| - 1])
  }

  function Arrived(steps: seq<RxStep>): seq<seq<byte>> {
    if steps == [] then []
    else
      var last := steps[|steps| - 1];
      Arrived(steps[..|steps| - 1]) + if last.Arrives? then last.frames else []
  }

  /**
    However arrivals and calls of Advance interleave and whatever space each call finds, the frames
    delivered and the frames waiting are together the frames that arrived, in order: nothing is
    duplicated, reordered or lost at a pause.
   */
  lemma {:induction false} ChunkingIsInvisible(start: RxProgress, steps: seq<RxStep>)
    ensures var s := Run(start, steps);
            s.delivered + s.backlog == start.delivered + start.backlog + Arrived(steps)
    decreases |steps|
  {
    if steps != [] {
      var front, last := steps[..|steps| - 1], steps[|steps| - 1];
      ChunkingIsInvisible(start, front);
      var s := Run(start, front);
      match last
      case Arrives(frames) =>
        assert s.delivered + (s.backlog + frames) == (s.delivered + s.backlog) + frames;
      case Advances(space) =>
        var n := Min(space, |s.backlog|);
        assert (s.delivered + s.backlog[..n]) + s.backlog[n..] == s.delivered + s.backlog;
    }
  }

  /** Two runs with the same arrivals deliver the same frames, up to how far each one got. */
  lemma DeliveriesAgree(start: RxProgress, steps: seq<RxStep>, others: seq<RxStep>)
    requires Arrived(steps) == Arrived(others)
    ensures var d, d' := Run(start, steps).delivered, Run(start, others).delivered;
            if |d| <= |d'| then d <= d' else d' <= d
  {
    ChunkingIsInvisible(start, steps);
    ChunkingIsInvisible(start, others);
    var all := start.delivered + start.backlog + Arrived(steps);
    assert Run(start, steps).delivered <= all && Run(start, others).delivered <= all;
  }
}
