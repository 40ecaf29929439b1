/**
  The block builder and parser as the driver runs them (common/ntb.cpp): one object, reinitialised
  for every buffer, that writes or reads the buffer in place.
 */
module TransferBlocks {

  import opened Common
  import opened Bits
  import opened Bytes
  import opened NtbFormat
  import opened NtbBuilder
  import opened NtbParser
  import opened NtbCursor
  import opened Rings

  datatype Direction = Rx | Tx

  /** Longest received buffer for which table offset plus table length cannot wrap in 32 bits. */
  const MAX_RECEIVE_LENGTH: nat := 0xFFFF_0000

  class TransferBlock {
    const format: Format
    const maxDatagrams: nat
    const ndpAlignment: nat
    const divisor: nat
    const remainder: nat
    const table: array<Entry>

    var sequence: word
    var buffer: array<byte>
    var bufferLength: nat
    var blockLength: nat
    var currentNdpIndex: nat
    var nextNdpIndex: nat
    var datagramIndex: nat
    var datagramCount: nat
    var bufferOffset: nat

    /** The datagrams placed so far, before the casts to the pointer width. */
    ghost var spans: seq<Entry>

    function Settings(): Config
      reads this`bufferLength
    {
      Config(format, maxDatagrams, ndpAlignment, divisor, remainder, bufferLength)
    }

    /** What InitializeNtb fixes once. */
    ghost predicate Initialized() {
      && IsPow2(ndpAlignment) && IsPow2(divisor)
      && 0 < maxDatagrams < 0x1_0000
      && table.Length == maxDatagrams + 1
    }

    constructor (format: Format, maxDatagrams: nat, ndpAlignment: nat, divisor: nat, remainder: nat)
      requires IsPow2(ndpAlignment) && IsPow2(divisor) && 0 < maxDatagrams < 0x1_0000
      ensures Initialized() && fresh(table)
      ensures this.format == format && this.maxDatagrams == maxDatagrams && this.ndpAlignment == ndpAlignment
      ensures this.divisor == divisor && this.remainder == remainder && sequence == 0
    {
      this.format, this.maxDatagrams, this.ndpAlignment := format, maxDatagrams, ndpAlignment;
      this.divisor, this.remainder := divisor, remainder;
      table := new Entry[maxDatagrams + 1](_ => NULL_ENTRY);
      sequence, buffer, bufferLength, blockLength := 0, new byte[0], 0, 0;
      currentNdpIndex, nextNdpIndex, datagramIndex, datagramCount, bufferOffset := 0, 0, 0, 0, 0;
      spans := [];
    }

    // ---------- Building ----------

    /**
      A block under construction. The memory behind the buffer has room for one entry more than the
      length the builder was told, which is as far as SetNdp can reach.
     */
    ghost predicate Building()
      reads this, buffer, table
    {
      && Initialized()
      && bufferLength + format.DpeSize() <= buffer.Length
      && format.NthSize() <= bufferOffset
      && datagramCount == |spans| <= maxDatagrams
      && (|spans| > 0 ==> Settings().SizeWith(bufferOffset, |spans|) <= bufferLength)
      && TableHolds()
    }

    /** The stored pointers, and behind them nothing but terminators. */
    ghost predicate TableHolds()
      requires |spans| <= table.Length
      reads this, table
    {
      && (forall i :: 0 <= i < |spans| ==> table[i] == format.Stored(spans[i]))
      && (forall i :: |spans| <= i < table.Length ==> table[i] == NULL_ENTRY)
    }

    ghost function View(): Build
      reads this, buffer
    {
      Build(buffer[..], bufferOffset, spans)
    }

    method PrepareToConstruct(buffer: array<byte>, bufferLength: nat)
      requires Initialized() && bufferLength + format.DpeSize() <= buffer.Length
      modifies this, table
      ensures Building() && this.buffer == buffer && this.bufferLength == bufferLength
      ensures View() == Start(Settings(), buffer[..])
      ensures sequence == (old(sequence) + 1) % 0x1_0000
    {
      this.buffer, this.bufferLength := buffer, bufferLength;
      sequence := (sequence + 1) % 0x1_0000;
      bufferOffset, datagramCount, spans := format.NthSize(), 0, [];
      forall i | 0 <= i < table.Length {
        table[i] := NULL_ENTRY;
      }
    }

    method CopyNextDatagram(pi: PacketIterator) returns (status: Status)
      requires Building() && pi.Valid() && PacketOk(pi.queue.fragments.elements[..], pi.GetPacket())
      modifies this, buffer, table
      ensures Building() && buffer == old(buffer) && bufferLength == old(bufferLength) && sequence == old(sequence)
      ensures match Copy(Settings(), old(View()), old(pi.Data()))
              case None => status == BufferTooSmall && View() == old(View())
              case Some(st) => status == Success && View() == st
    {
      hide PacketOk;
      hide IsPow2;
      hide RingSize;
      hide Put;
      hide AlignUpBy;
      hide PacketIterator.Data;
      hide Format.Truncate;
      ghost var c, st, data := Settings(), View(), pi.Data();
      if datagramCount >= maxDatagrams {
        return BufferTooSmall;
      }
      var datagramLength := pi.GetPacketDataLength();
      var datagramOffset := Settings().DatagramOffset(bufferOffset);
      var ndpOffset := AlignUpBy(datagramOffset + datagramLength, ndpAlignment);
      var totalNtbSizeNeeded := ndpOffset + format.NdpSize() + format.Slots(datagramCount + 1);
      if totalNtbSizeNeeded > bufferLength {
        return BufferTooSmall;
      }
      var _ := pi.CopyPacketDataToBuffer(buffer, datagramOffset, datagramLength);
      assert buffer[..] == Put(st.bytes, datagramOffset, data) by {
        assert data[..datagramLength] == data;
      }
      table[datagramCount] := Entry(format.Truncate(datagramOffset), format.Truncate(datagramLength));
      spans := spans + [Entry(datagramOffset, datagramLength)];
      datagramCount := datagramCount + 1;
      bufferOffset := datagramOffset + datagramLength;
      return Success;
    }

    /** The entries SetNdp copies: the stored pointers and one terminator. */
    lemma TableImage()
      requires |spans| < table.Length && TableHolds()
      ensures table[..|spans| + 1] == StoredAll(format, spans) + [NULL_ENTRY]
    {
    }

    method SetNdp() returns (transferLength: nat)
      requires Building() && datagramCount > 0
      modifies buffer
      ensures FinishedSize(Settings(), old(View())) <= buffer.Length
      ensures buffer[..] == Finish(Settings(), old(View()), sequence)
      ensures transferLength == TransferLength(Settings(), old(View()))
    {
      hide IsPow2;
      hide Put;
      hide ToLe;
      hide AlignUpBy;
      hide StoredAll;
      hide TableHolds;
      TableImage();
      var ndpOffset := AlignUpBy(bufferOffset, ndpAlignment);
      var tableSize := format.Slots(datagramCount + 1);
      var length := (format.NdpSize() + tableSize) % 0x1_0000;
      CopyMemory(buffer, ndpOffset, ToLe(format.NdpSignature(), 4));
      CopyMemory(buffer, ndpOffset + 4, ToLe(length, 2));
      CopyMemory(buffer, ndpOffset + format.NextNdpOffset(), ToLe(0, format.PtrSize()));
      CopyMemory(buffer, ndpOffset + format.NdpSize(), format.TableBytes(table[..datagramCount + 1]));
      transferLength := format.Truncate(ndpOffset + length);
      CopyMemory(buffer, 0, format.NthBytes(sequence, transferLength, format.Truncate(ndpOffset)));
    }

    // ---------- Parsing ----------

    function Cur(): Cursor
      reads this
    {
      Cursor(currentNdpIndex, nextNdpIndex, datagramIndex, datagramCount)
    }

    ghost predicate Receiving()
      reads this, buffer
    {
      blockLength <= bufferLength <= MAX_RECEIVE_LENGTH && Readable(format, buffer[..], bufferLength)
    }

    method GetNextNdp() returns (status: Status)
      requires Receiving()
      modifies this`currentNdpIndex, this`nextNdpIndex, this`datagramIndex, this`datagramCount
      ensures (status, Cur()) == NextNdp(format, buffer[..], blockLength, old(Cur()))
    {
      hide Slot;
      hide Field;
      if nextNdpIndex == 0 {
        return NoMoreEntries;
      }
      datagramIndex, datagramCount := 0, 0;
      if nextNdpIndex < format.NthSize() || nextNdpIndex + format.MinTableSize() > blockLength {
        return BadData;
      }
      ghost var b := buffer[..];
      if Field(buffer[..], nextNdpIndex, 4) != format.NdpSignature() {
        return BadData;
      }
      var length := Field(buffer[..], nextNdpIndex + 4, 2);
      LengthField(b, nextNdpIndex + 4);
      if length < format.MinTableSize() || And(length, 3) != 0
         || (nextNdpIndex + length) % TWO_TO_THE_32 > blockLength {
        return BadData;
      }
      var next := Field(buffer[..], nextNdpIndex + format.NextNdpOffset(), format.PtrSize());
      if next != 0 && (next < format.NthSize() || next + format.MinTableSize() > blockLength) {
        return BadData;
      }
      var accepted, count, _ := ScanTable(nextNdpIndex, length);
      if !accepted {
        return BadData;
      }
      currentNdpIndex, nextNdpIndex, datagramCount := nextNdpIndex, next, count;
      return Success;
    }

    /** The scan of GetNextNdp: reads slot after slot up to the first one at which it stops. */
    method ScanTable(p: nat, length: nat) returns (accepted: bool, count: nat, ghost slots: nat)
      requires Receiving() && p + length <= blockLength && length % 4 == 0
      ensures match Scan(format, buffer[..], blockLength, p, length, 0)
              case None => !accepted
              case Some(es) => accepted && count == |es|
      ensures slots == SlotsRead(format, buffer[..], blockLength, p, length, 0)
    {
      hide Slot;
      ghost var b := buffer[..];
      ghost var whole := Scan(format, b, blockLength, p, length, 0);
      count, slots := 0, 0;
      while format.NdpSize() + format.Slots(count) < length
        invariant slots == count
        invariant SlotsRead(format, b, blockLength, p, length, 0)
                  == count + SlotsRead(format, b, blockLength, p, length, count)
        invariant match Scan(format, b, blockLength, p, length, count)
                  case None => whole.None?
                  case Some(rest) => whole.Some? && |whole.value| == count + |rest|
        decreases length - format.Slots(count)
      {
        assert HasSlot(format, length, count);
        var datagram := Slot(format, buffer[..], p, count);
        slots := slots + 1;
        if IsNull(datagram) {
          return true, count, slots;
        }
        if !InBlock(format, blockLength, datagram) {
          return false, count, slots;
        }
        count := count + 1;
      }
      return false, count, slots;
    }

    /** The masked test for a multiple of 4, on a 16-bit length field. */
    static lemma LengthField(b: seq<byte>, o: nat)
      requires o + 2 <= |b|
      ensures Field(b, o, 2) < 0x1_0000
      ensures And(Field(b, o, 2), 3) == Field(b, o, 2) % 4
    {
      FromLeBound(Slice(b, o, 2));
      assert Pow256(2) == 0x1_0000;
      AndMaskIsMod(Field(b, o, 2), 2);
      assert Pow2(2) == 4;
    }

    method PrepareToParse(buffer: array<byte>, bufferLength: nat) returns (status: Status)
      requires bufferLength <= MAX_RECEIVE_LENGTH && bufferLength + format.Slack() <= buffer.Length
      requires Cur() == Cursor(0, 0, 0, 0) && blockLength == 0
      modifies this
      ensures Receiving() && this.buffer == buffer && this.bufferLength == bufferLength
      ensures sequence == old(sequence)
      ensures match ParseHeader(format, buffer[..], bufferLength)
              case None => status == BadData && blockLength == 0 && Cur() == Cursor(0, 0, 0, 0)
              case Some(h) =>
                blockLength == h.blockLength &&
                (status, Cur()) == NextNdp(format, buffer[..], blockLength, Cursor(0, h.ndpIndex, 0, 0))
    {
      hide ReadTable;
      this.buffer, this.bufferLength := buffer, bufferLength;
      if bufferLength >= format.NthSize() && Field(buffer[..], 0, 4) == format.NthSignature() {
        if Field(buffer[..], 4, 2) != format.NthSize() {
          return BadData;
        }
        var declared := Field(buffer[..], 8, format.PtrSize());
        if declared > bufferLength {
          return BadData;
        }
        if declared > 0 {
          blockLength := declared;
        } else {
          blockLength := Min(format.PtrLimit() - 1, format.Truncate(bufferLength));
        }
        nextNdpIndex := Field(buffer[..], 8 + format.PtrSize(), format.PtrSize());
        status := GetNextNdp();
        return status;
      }
      return BadData;
    }

    method ReInitializeBuffer(buffer: array<byte>, bufferLength: nat, direction: Direction) returns (status: Status)
      requires Initialized()
      requires if direction.Tx? then bufferLength + format.DpeSize() <= buffer.Length
               else bufferLength <= MAX_RECEIVE_LENGTH && bufferLength + format.Slack() <= buffer.Length
      modifies this, table
      ensures this.buffer == buffer && this.bufferLength == bufferLength
      ensures direction.Tx? ==>
                && status == Success && Building() && View() == Start(Settings(), buffer[..])
                && sequence == (old(sequence) + 1) % 0x1_0000
      ensures direction.Rx? ==>
                && sequence == old(sequence)
                && Receiving()
                && match ParseHeader(format, buffer[..], bufferLength)
                   case None => status == BadData && blockLength == 0 && Cur() == Cursor(0, 0, 0, 0)
                   case Some(h) =>
                     && blockLength == h.blockLength
                     && (status, Cur()) == NextNdp(format, buffer[..], blockLength, Cursor(0, h.ndpIndex, 0, 0))
    {
      blockLength, currentNdpIndex, nextNdpIndex, datagramIndex, datagramCount, bufferOffset := 0, 0, 0, 0, 0, 0;
      if direction.Rx? {
        status := PrepareToParse(buffer, bufferLength);
      } else {
        PrepareToConstruct(buffer, bufferLength);
        status := Success;
      }
    }

    /** On success the datagram is the bytes of the buffer from offset, size of them. */
    method GetNextDatagram() returns (status: Status, offset: nat, size: nat)
      requires Receiving() && InMemory(format, buffer[..], Cur())
      modifies this`currentNdpIndex, this`nextNdpIndex, this`datagramIndex, this`datagramCount
      ensures Receiving()
      ensures Reply(status, Entry(offset, size), Cur()) == NextDatagram(format, buffer[..], blockLength, old(Cur()))
    {
      hide Scan;
      hide EntryAt;
      offset, size := 0, 0;
      if datagramIndex == datagramCount {
        status := GetNextNdp();
        if status != Success {
          return;
        }
      }
      var datagram := Slot(format, buffer[..], currentNdpIndex, datagramIndex);
      offset, size := datagram.index, datagram.length;
      datagramIndex := datagramIndex + 1;
      status := Success;
    }
  }
}
