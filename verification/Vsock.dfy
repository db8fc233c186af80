/**
 One vsock connection (packages/kernel/src/virtio/vsock.ts): its buffered
 reads, its credit in both directions with counters that wrap at 2^32, and the
 program's loops.
 */
module Vsock {
  import opened Wrappers

  const Modulus: nat := 0x1_0000_0000
  const BufAlloc: nat := 256 * 1024
  const UpdateEvery: nat := BufAlloc / 4
  const MaxPayload: nat := 2048

  /** A packet the host sends: RW when it has a payload, CREDIT_UPDATE when not. */
  datatype Packet = Packet(payload: Bytes, fwdCnt: u32)

  datatype Conn = Conn(
    buffer: seq<Bytes>, closed: bool, bytesRead: u32, bytesWritten: u32, lastUpdate: u32, peerAlloc: u32, peerFwd: u32)

  const Fresh: Conn := Conn([], false, 0, 0, 0, BufAlloc, 0)

  /** `(a + b) >>> 0` and `(a - b) >>> 0`. */
  function Plus(a: u32, b: nat): u32
  {
    (a + b) % Modulus
  }

  function Minus(a: u32, b: u32): u32
  {
    (a - b) % Modulus
  }

  function Min(a: nat, b: nat): nat
  {
    if a < b then a else b
  }

  /** consume: a credit update goes out once a quarter of the buffer has been read. */
  function Consumed(c: Conn, length: nat): (Conn, seq<Packet>)
  {
    var d := c.(bytesRead := Plus(c.bytesRead, length));
    if Minus(d.bytesRead, d.lastUpdate) >= UpdateEvery then
      (d.(lastUpdate := d.bytesRead), [Packet([], d.bytesRead)])
    else (d, [])
  }

  /** One chunk, or the first n bytes of it, is handed to the reader. */
  function TookFrom(c: Conn, n: nat): (Conn, seq<Packet>)
    requires c.buffer != [] && n <= |c.buffer[0]|
  {
    var chunk := c.buffer[0];
    var rest := if n < |chunk| then [chunk[n..]] + c.buffer[1..] else c.buffer[1..];
    Consumed(c.(buffer := rest), n)
  }

  function Available(c: Conn): nat
  {
    var used := Minus(c.bytesWritten, c.peerFwd);
    if c.peerAlloc > used then c.peerAlloc - used else 0
  }

  /** The loop of write_serialized, as far as the credit goes: the packets sent and the data that must wait. */
  function Wrote(c: Conn, data: Bytes): (Conn, seq<Packet>, Bytes)
    decreases |data|
  {
    if data == [] || c.closed || Available(c) == 0 then (c, [], data)
    else
      var n := Min(Min(MaxPayload, Available(c)), |data|);
      var (d, more, rest) := Wrote(c.(bytesWritten := Plus(c.bytesWritten, n)), data[n..]);
      (d, [Packet(data[..n], c.bytesRead)] + more, rest)
  }

  function Enqueued(c: Conn, data: Bytes): Conn
  {
    if c.closed || data == [] then c else c.(buffer := c.buffer + [data])
  }

  function Credited(c: Conn, alloc: u32, fwd: u32): Conn
  {
    c.(peerAlloc := alloc, peerFwd := fwd)
  }

  /** Taking n bytes leaves the rest of the stream in order. */
  lemma TookIsPrefix(c: Conn, n: nat)
    requires c.buffer != [] && n <= |c.buffer[0]|
    ensures Flat(c.buffer) == c.buffer[0][..n] + Flat(TookFrom(c, n).0.buffer)
  {
    var chunk := c.buffer[0];
    if n < |chunk| {
      var rest := [chunk[n..]] + c.buffer[1..];
      assert rest[1..] == c.buffer[1..];
      assert chunk == chunk[..n] + chunk[n..];
    } else {
      assert chunk[..n] == chunk;
    }
  }

  // ---------------------------------------------------------------------------
  // The program

  class Connection {
    var buffer: seq<Bytes>
    var closed: bool
    var bytesRead: u32
    var bytesWritten: u32
    var lastUpdate: u32
    var peerAlloc: u32
    var peerFwd: u32
    var sent: seq<Packet>

    function Now(): Conn
      reads this
    {
      Conn(buffer, closed, bytesRead, bytesWritten, lastUpdate, peerAlloc, peerFwd)
    }

    constructor ()
      ensures Now() == Fresh && sent == []
    {
      buffer, closed, bytesRead, bytesWritten, lastUpdate, peerAlloc, peerFwd := [], false, 0, 0, 0, BufAlloc, 0;
      sent := [];
    }

    method Consume(length: nat)
      modifies this
      ensures (Now(), sent) == (Consumed(old(Now()), length).0, old(sent) + Consumed(old(Now()), length).1)
    {
      bytesRead := Plus(bytesRead, length);
      var consumed := Minus(bytesRead, lastUpdate);
      if consumed >= UpdateEvery {
        lastUpdate := bytesRead;
        sent := sent + [Packet([], bytesRead)];
      } else {
        assert sent + [] == sent;
      }
    }

    /** update_credit; who waits for credit looks again. */
    method UpdateCredit(alloc: u32, fwd: u32)
      modifies this
      ensures Now() == Credited(old(Now()), alloc, fwd) && sent == old(sent)
    {
      peerAlloc := alloc;
      peerFwd := fwd;
    }

    /** enqueue: a reader that waits takes the chunk from the buffer's front. */
    method Enqueue(data: Bytes)
      modifies this
      ensures Now() == Enqueued(old(Now()), data) && sent == old(sent)
    {
      if closed || data == [] {
        return;
      }
      buffer := buffer + [data];
    }

    method CloseFromPeer()
      modifies this
      ensures Now() == old(Now()).(closed := true) && sent == old(sent)
    {
      closed := true;
    }

    /** One turn of readExactly's loop on a chunk that is there. */
    method TakeChunk(wanted: nat) returns (b: Bytes)
      requires buffer != [] && wanted > 0
      modifies this
      ensures b == old(buffer)[0][..Min(|old(buffer)[0]|, wanted)]
      ensures var t := TookFrom(old(Now()), Min(|old(buffer)[0]|, wanted));
              Now() == t.0 && sent == old(sent) + t.1
    {
      var chunk := buffer[0];
      buffer := buffer[1..];
      var n := Min(|chunk|, wanted);
      // The rest of a chunk is put back in front.
      if n < |chunk| {
        buffer := [chunk[n..]] + buffer;
      }
      Consume(n);
      b := chunk[..n];
    }

    /**
     readExactly, until it has the length, or must wait, or meets the end of
     the stream: it returns the next bytes of the stream in order, and leaves
     the others where they were.
     */
    method ReadExactly(length: nat) returns (out: Bytes)
      requires NonEmptyChunks(buffer)
      modifies this
      ensures NonEmptyChunks(buffer)
      ensures out + Flat(buffer) == Flat(old(buffer)) && |out| <= length
      ensures |out| < length ==> buffer == []
      ensures closed == old(closed) && bytesRead == Plus(old(bytesRead), |out|) && bytesWritten == old(bytesWritten)
      ensures Minus(old(bytesRead), old(lastUpdate)) < UpdateEvery ==> Minus(bytesRead, lastUpdate) < UpdateEvery
    {
      hide Plus, Minus, Flat, TookFrom, Consumed, NonEmptyChunks, Min;
      out := [];
      PlusNothing(bytesRead);
      assert [] + Flat(buffer) == Flat(buffer);
      while |out| < length && buffer != []
        invariant NonEmptyChunks(buffer)
        invariant out + Flat(buffer) == Flat(old(buffer)) && |out| <= length
        invariant closed == old(closed) && bytesRead == Plus(old(bytesRead), |out|) && bytesWritten == old(bytesWritten)
        invariant Minus(old(bytesRead), old(lastUpdate)) < UpdateEvery ==> Minus(bytesRead, lastUpdate) < UpdateEvery
        decreases length - |out|
      {
        ghost var before := Now();
        ghost var was := out;
        var wanted: nat := length - |out|;
        MinIs(|buffer[0]|, wanted);
        ghost var n := Min(|buffer[0]|, wanted);
        HeadNonEmpty(buffer);
        TookIsPrefix(before, n);
        TookFacts(before, n);
        PlusPlus(old(bytesRead), |out|, n);
        var b := TakeChunk(wanted);
        out := out + b;
        assert was + (b + Flat(buffer)) == out + Flat(buffer);
      }
    }

    /** write_serialized, as far as the peer's credit goes: how much of the data has been sent. */
    method WriteSome(data: Bytes) returns (offset: nat)
      modifies this
      ensures var (d, packets, rest) := Wrote(old(Now()), data);
              && Now() == d && sent == old(sent) + packets && offset <= |data| && data[offset..] == rest
    {
      hide Wrote, Plus, Minus, Min;
      offset := 0;
      ghost var total := Wrote(Now(), data);
      ghost var done: seq<Packet> := [];
      assert data[0..] == data && sent + [] == sent && [] + total.1 == total.1;
      while offset < |data|
        invariant offset <= |data| && sent == old(sent) + done
        invariant WroteFrom(total, done, Wrote(Now(), data[offset..]))
        decreases |data| - offset
      {
        WroteStops(Now(), data[offset..]);
        if closed {
          break;
        }
        var used := Minus(bytesWritten, peerFwd);
        var available: nat := if peerAlloc > used then peerAlloc - used else 0;
        if available == 0 {
          break;
        }
        MinIs(MaxPayload, available);
        MinIs(Min(MaxPayload, available), |data| - offset);
        var n := Min(Min(MaxPayload, available), |data| - offset);
        ghost var left, was := data[offset..], Now();
        WroteStep(was, left, n);
        assert left[..n] == data[offset..offset + n] && left[n..] == data[offset + n..];
        sent := sent + [Packet(data[offset..offset + n], bytesRead)];
        offset := offset + n;
        bytesWritten := Plus(bytesWritten, n);
        WroteOn(total, done, Packet(left[..n], was.bytesRead), Wrote(Now(), data[offset..]));
        done := done + [Packet(left[..n], was.bytesRead)];
      }
      WroteStops(Now(), data[offset..]);
      assert done + [] == done;
    }
  }

  /** The whole loop's result, from what it has sent and what it will do from here. */
  predicate WroteFrom(total: (Conn, seq<Packet>, Bytes), done: seq<Packet>, rest: (Conn, seq<Packet>, Bytes))
  {
    total == (rest.0, done + rest.1, rest.2)
  }

  lemma WroteOn(total: (Conn, seq<Packet>, Bytes), done: seq<Packet>, p: Packet, rest: (Conn, seq<Packet>, Bytes))
    requires WroteFrom(total, done, (rest.0, [p] + rest.1, rest.2))
    ensures WroteFrom(total, done + [p], rest)
  {
    assert done + ([p] + rest.1) == done + [p] + rest.1;
  }

  lemma WroteStops(c: Conn, data: Bytes)
    ensures data == [] || c.closed || Available(c) == 0 ==> Wrote(c, data) == (c, [], data)
  {
  }

  lemma WroteStep(c: Conn, data: Bytes, n: nat)
    requires data != [] && !c.closed && Available(c) > 0 && n == Min(Min(MaxPayload, Available(c)), |data|)
    ensures var (d, more, rest) := Wrote(c.(bytesWritten := Plus(c.bytesWritten, n)), data[n..]);
            Wrote(c, data) == (d, [Packet(data[..n], c.bytesRead)] + more, rest)
  {
  }

  lemma MinIs(a: nat, b: nat)
    ensures Min(a, b) <= a && Min(a, b) <= b && (Min(a, b) == a || Min(a, b) == b)
  {
  }

  lemma PlusNothing(a: u32)
    ensures Plus(a, 0) == a
  {
  }

  lemma HeadNonEmpty(chunks: seq<Bytes>)
    requires NonEmptyChunks(chunks) && chunks != []
    ensures chunks[0] != []
  {
  }

  /** What taking from a chunk keeps: in particular the count last reported stays close behind. */
  lemma TookFacts(c: Conn, n: nat)
    requires c.buffer != [] && n <= |c.buffer[0]| && NonEmptyChunks(c.buffer)
    ensures var d := TookFrom(c, n).0;
            && NonEmptyChunks(d.buffer) && d.closed == c.closed && d.bytesWritten == c.bytesWritten
            && d.bytesRead == Plus(c.bytesRead, n) && Minus(d.bytesRead, d.lastUpdate) < UpdateEvery
            && (n < |c.buffer[0]| || d.buffer == c.buffer[1..])
  {
    MinusSelf(Plus(c.bytesRead, n));
    hide Plus, Minus;
  }

  lemma MinusSelf(a: u32)
    ensures Minus(a, a) == 0
  {
  }

  predicate NonEmptyChunks(chunks: seq<Bytes>)
  {
    forall i :: 0 <= i < |chunks| ==> chunks[i] != []
  }

  lemma PlusPlus(a: u32, m: nat, n: nat)
    ensures Plus(Plus(a, m), n) == Plus(a, m + n)
  {
  }
}
