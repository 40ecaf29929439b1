/** Transmit requests, their pool and the USB stack they are handed to (common/buffers.cpp, host/device.cpp). */
module Buffers {

  import opened Bytes

  /**
    TX_BUFFER_REQUEST. The array stands for the memory at Buffer, which the driver knows to be
    bufferLength bytes long; what lies behind it is part of the array as well.
   */
  class TxRequest {
    const buffer: array<byte>
    const bufferLength: nat
    var transferLength: nat

    constructor (buffer: array<byte>, bufferLength: nat)
      ensures this.buffer == buffer && this.bufferLength == bufferLength && transferLength == 0
    {
      this.buffer, this.bufferLength, transferLength := buffer, bufferLength, 0;
    }
  }

  /** The pool, a first-in first-out queue of idle requests. */
  class RequestPool {
    var idle: seq<TxRequest>

    constructor (idle: seq<TxRequest>)
      ensures this.idle == idle
    {
      this.idle := idle;
    }

    /** Every idle request is clean: its transfer length has been reset. */
    ghost predicate Clean()
      reads this, idle
    {
      forall r <- idle :: r.transferLength == 0
    }

    method GetBufferRequest() returns (r: TxRequest?)
      modifies this
      ensures if old(idle) == [] then r == null && idle == []
              else r == old(idle)[0] && idle == old(idle)[1..]
    {
      if idle == [] {
        return null;
      }
      r, idle := idle[0], idle[1..];
    }

    method ReturnBufferRequest(r: TxRequest)
      modifies this, r`transferLength
      ensures idle == old(idle) + [r] && r.transferLength == 0
    {
      r.transferLength := 0;
      idle := idle + [r];
    }
  }

  /** What host/device.cpp sends for the first n bytes of a buffer: one zero more where that avoids a multiple. */
  function PaddedLength(n: nat, bufferLength: nat, maximumPacketSize: nat): (r: nat)
    requires maximumPacketSize > 0
    ensures n <= r <= n + 1
  {
    if n < bufferLength && n % maximumPacketSize == 0 then n + 1 else n
  }

  /**
    With a maximum packet size above 1, a transfer that leaves room in its buffer is never a
    multiple of the packet size once it has been padded.
   */
  lemma PaddingAvoidsMultiples(n: nat, bufferLength: nat, maximumPacketSize: nat)
    requires maximumPacketSize > 1
    ensures PaddedLength(n, bufferLength, maximumPacketSize) % maximumPacketSize != 0
            <==> n < bufferLength || n % maximumPacketSize != 0
  {
    Arithmetic.Euclid(n, maximumPacketSize);
    if n % maximumPacketSize == 0 {
      Arithmetic.DivModUnique(n + 1, maximumPacketSize, n / maximumPacketSize, 1);
    }
  }

  /**
    The transfer grows, by one byte, if and only if it would have been a multiple and the buffer has room;
    otherwise it stays as it is.
   */
  lemma PaddedIff(n: nat, bufferLength: nat, maximumPacketSize: nat)
    requires maximumPacketSize > 0
    ensures PaddedLength(n, bufferLength, maximumPacketSize)
            == if n % maximumPacketSize != 0 || n >= bufferLength then n else n + 1
  {
  }

  /** Every request is in one place, once. */
  ghost predicate NoDuplicates(idle: seq<TxRequest>, inFlight: seq<TxRequest>) {
    var all := multiset(idle) + multiset(inFlight);
    forall r <- all :: all[r] == 1
  }

  datatype Side = Host(maximumPacketSize: nat) | Function

  /** The USB stack below either driver. */
  class UsbStack {
    const side: Side
    var inFlight: seq<TxRequest>

    constructor (side: Side)
      ensures this.side == side && inFlight == []
    {
      this.side, inFlight := side, [];
    }

    /**
      What TransmitFrames of the function driver asks first: rundown protection, which is refused while
      the queue is being stopped.
     */
    method AcquireProtection() returns (acquired: bool)
      ensures side.Host? ==> acquired
    {
      acquired := *;
      acquired := acquired || side.Host?;
    }

    /**
      TransmitFrames of both drivers. Sending succeeds or fails as the stack decides; after a
      success the request belongs to the stack. wire is the transfer.
     */
    method TransmitFrames(r: TxRequest) returns (accepted: bool, ghost wire: seq<byte>)
      requires 0 < r.transferLength <= r.buffer.Length && r.bufferLength <= r.buffer.Length
      requires side.Host? ==> side.maximumPacketSize > 0
      modifies this`inFlight, r`transferLength, r.buffer
      ensures inFlight == if accepted then old(inFlight) + [r] else old(inFlight)
      ensures r.transferLength ==
                if side.Host? then PaddedLength(old(r.transferLength), r.bufferLength, side.maximumPacketSize)
                else old(r.transferLength)
      ensures r.transferLength <= r.buffer.Length && wire == r.buffer[..r.transferLength]
      ensures wire[..old(r.transferLength)] == old(r.buffer[..r.transferLength])
      ensures forall i :: old(r.transferLength) <= i < |wire| ==> wire[i] == 0
    {
      if side.Host? && r.transferLength < r.bufferLength && r.transferLength % side.maximumPacketSize == 0 {
        r.buffer[r.transferLength] := 0;
        r.transferLength := r.transferLength + 1;
      }
      wire := r.buffer[..r.transferLength];
      accepted := *;
      if accepted {
        inFlight := inFlight + [r];
      }
    }

    /** Any number of completions, in any order: each gives its request back to the pool. */
    method RunCompletions(pool: RequestPool)
      requires pool.Clean() && NoDuplicates(pool.idle, inFlight)
      modifies this`inFlight, pool, inFlight
      ensures pool.Clean()
      ensures multiset(pool.idle) + multiset(inFlight) == old(multiset(pool.idle) + multiset(inFlight))
      ensures forall r <- old(pool.idle) :: r in pool.idle
    {
      var rounds: nat :| true;
      ghost var everything := multiset(pool.idle) + multiset(inFlight);
      for i := 0 to rounds
        invariant pool.Clean()
        invariant forall r <- inFlight :: r in old(inFlight)
        invariant multiset(pool.idle) + multiset(inFlight) == everything
        invariant forall r <- old(pool.idle) :: r in pool.idle
      {
        if inFlight != [] {
          var k: nat :| k < |inFlight|;
          var r := inFlight[k];
          assert r in inFlight && everything[r] == 1;
          assert inFlight == inFlight[..k] + [r] + inFlight[k + 1..];
          inFlight := inFlight[..k] + inFlight[k + 1..];
          pool.ReturnBufferRequest(r);
        }
      }
    }
  }
}
