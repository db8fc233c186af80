/**
 The receiving side of a TCP flow (packages/linux-guest/src/network.ts):
 process_tcp with its 32-bit sequence numbers, its window and the host's
 stream of chunks.
 */
module TcpReceive {
  import opened Wrappers
  import opened BigEndian

  const Window: nat := 0xffff
  const Modulus: nat := 0x1_0000_0000

  /** sequence_add. */
  function Add(sequence: u32, amount: nat): u32
  {
    (sequence + amount) % Modulus
  }

  datatype Segment = Segment(
    sequence: u32, acknowledgement: u32, rst: bool, syn: bool, ack: bool, fin: bool, payload: Bytes)

  /** The host's readable stream: not made yet, open, closed once its queue is read, or failed. */
  datatype Readable = Absent | Open | Ended | Failed

  datatype Flow = Flow(
    guestOpened: bool, activation: bool, handshake: bool, established: bool,
    sendSequence: u32, receiveSequence: u32, waiters: seq<u32>,
    localEnded: bool, remoteEnded: bool, closed: bool,
    demand: bool, readable: Readable, queue: seq<Bytes>)

  /** A segment sent in answer: its acknowledgement and the window it advertises. */
  datatype Reply = Ack(acknowledgement: u32, window: nat) | Reset(acknowledgement: u32)

  /** desiredSize of the stream, 0 where it is null. */
  function DesiredSize(f: Flow): int
  {
    if f.readable.Failed? || (f.readable.Ended? && f.queue == []) then 0
    else (if f.guestOpened then 0 else Window) - |Flat(f.queue)|
  }

  /** What the host can still take: on a host-opened flow, what its unread bytes leave of the whole window. */
  function ReceiveWindow(f: Flow): (w: nat)
    ensures w <= Window
    ensures f.readable.Open? && !f.activation && !f.guestOpened ==>
              if |Flat(f.queue)| <= Window then |Flat(f.queue)| + w == Window else w == 0
    ensures f.readable.Failed? && !f.activation ==> w == 0
  {
    if f.readable.Absent? then Window
    else if f.activation then (if f.demand then Window else 0)
    else if DesiredSize(f) < 0 then 0 else DesiredSize(f)
  }

  function AckNow(f: Flow): Reply
  {
    Ack(f.receiveSequence, ReceiveWindow(f))
  }

  function Unacknowledged(waiters: seq<u32>, acknowledgement: u32): seq<u32>
  {
    if waiters == [] then []
    else if waiters[0] == acknowledgement then Unacknowledged(waiters[1..], acknowledgement)
    else [waiters[0]] + Unacknowledged(waiters[1..], acknowledgement)
  }

  /** close_tcp_flow with an error: the stream fails and what it had queued is lost. */
  function Broken(f: Flow): Flow
  {
    if f.closed then f
    else if f.readable.Absent? || (f.readable.Ended? && f.queue == []) then f.(closed := true, waiters := [])
    else f.(closed := true, waiters := [], readable := Failed, queue := [])
  }

  /** close_tcp_flow without an error: what is queued can still be read. */
  function ClosedQuietly(f: Flow): Flow
  {
    if f.closed then f
    else f.(closed := true, waiters := [], readable := if f.readable.Open? then Ended else f.readable)
  }

  function Opening(f: Flow, s: Segment): (Flow, seq<Reply>)
  {
    if f.handshake then
      if !(s.syn && s.ack) || s.acknowledgement != f.sendSequence then (f, [])
      else
        var g := f.(receiveSequence := Add(s.sequence, 1), established := true);
        (g.(readable := Open, handshake := false), [AckNow(g)])
    else if s.ack && s.acknowledgement == f.sendSequence then (f.(established := true), [])
    else (f, [])
  }

  predicate Throws(f: Flow)
  {
    f.readable.Ended? || f.readable.Failed?
  }

  /** A non-empty payload goes to the host's stream. */
  function Enqueued(f: Flow, payload: Bytes): Flow
  {
    f.(queue := if f.readable.Open? then f.queue + [payload] else f.queue,
       demand := false,
       receiveSequence := Add(f.receiveSequence, |payload|))
  }

  /** The guest's FIN takes one sequence number and closes the stream. */
  function Ending(f: Flow): (Flow, seq<Reply>)
  {
    var g := f.(receiveSequence := Add(f.receiveSequence, 1), remoteEnded := true);
    if Throws(g) then (Broken(g), [Reset(g.receiveSequence)])
    else Answering(g.(readable := if g.readable.Open? then Ended else g.readable))
  }

  /** Taking in a segment that starts where the flow stands and fits its window. */
  function Accepting(f: Flow, s: Segment): (Flow, seq<Reply>)
  {
    if s.payload != [] && Throws(f) then (Broken(f), [Reset(f.receiveSequence)])
    else
      var g := if s.payload == [] then f else Enqueued(f, s.payload);
      if s.fin then Ending(g) else Answering(g)
  }

  function Answering(f: Flow): (Flow, seq<Reply>)
  {
    (if f.localEnded && f.remoteEnded && f.waiters == [] then ClosedQuietly(f) else f, [AckNow(f)])
  }

  /** process_tcp. */
  function Processed(f: Flow, s: Segment): (Flow, seq<Reply>)
  {
    if f.closed then (f, [])
    else if s.rst then (Broken(f), [])
    else
      var g := if s.ack then f.(waiters := Unacknowledged(f.waiters, s.acknowledgement)) else f;
      if !g.established then Opening(g, s)
      else if s.payload == [] && !s.fin then (g, [])
      else if s.sequence != g.receiveSequence then (g, [AckNow(g)])
      else if s.payload != [] && |s.payload| > ReceiveWindow(g) then (g, [AckNow(g)])
      else Accepting(g, s)
  }

  // ---------------------------------------------------------------------------
  // The program

  class TcpFlow {
    const guestOpened: bool
    var activation: bool
    var handshake: bool
    var established: bool
    var sendSequence: u32
    var receiveSequence: u32
    var waiters: seq<u32>
    var localEnded: bool
    var remoteEnded: bool
    var closed: bool
    var demand: bool
    var readable: Readable
    var queue: seq<Bytes>

    function Now(): Flow
      reads this
    {
      Flow(guestOpened, activation, handshake, established, sendSequence, receiveSequence, waiters,
           localEnded, remoteEnded, closed, demand, readable, queue)
    }

    /** start_outbound_tcp: the guest opens, and its SYN gives the first sequence number. */
    constructor FromGuest(initial: u32, sequence: u32)
      ensures Now() == OpenedByGuest(initial, sequence)
    {
      guestOpened, activation, handshake, established := true, false, false, false;
      sendSequence, receiveSequence, waiters := initial, Add(sequence, 1), [];
      localEnded, remoteEnded, closed, demand, readable, queue := false, false, false, false, Open, [];
    }

    /** connect_tcp: the host's SYN is sent, and the guest's SYN-ACK awaited. */
    constructor FromHost(initial: u32)
      ensures Now() == OpenedByHost(initial)
    {
      guestOpened, activation, handshake, established := false, false, true, false;
      sendSequence, receiveSequence, waiters := Add(initial, 1), 0, [];
      localEnded, remoteEnded, closed, demand, readable, queue := false, false, false, false, Absent, [];
    }

    /** acknowledge_waiters: walking backwards, every waiter for this number is spliced out. */
    method Acknowledge(acknowledgement: u32)
      modifies this
      ensures Now() == old(Now()).(waiters := Unacknowledged(old(waiters), acknowledgement))
    {
      ghost var was := waiters;
      var i := |waiters|;
      while i > 0
        invariant 0 <= i <= |was| && i <= |waiters|
        invariant waiters == was[..i] + Unacknowledged(was[i..], acknowledgement)
        invariant Now() == old(Now()).(waiters := waiters)
      {
        i := i - 1;
        assert was[i..][0] == was[i] && was[i..][1..] == was[i + 1..];
        if waiters[i] == acknowledgement {
          waiters := waiters[..i] + waiters[i + 1..];
        }
      }
    }

    /** close_tcp_flow. */
    method Close(failed: bool)
      modifies this
      ensures Now() == if failed then Broken(old(Now())) else ClosedQuietly(old(Now()))
    {
      if closed {
        return;
      }
      closed, waiters := true, [];
      if failed {
        if readable.Open? || (readable.Ended? && queue != []) || readable.Failed? {
          readable, queue := Failed, [];
        }
      } else if readable.Open? {
        readable := Ended;
      }
    }

    /** The first part of process_tcp, until the flow is established. */
    method Establish(s: Segment) returns (replies: seq<Reply>)
      modifies this
      ensures (Now(), replies) == Opening(old(Now()), s)
    {
      hide Add, ReceiveWindow;
      if handshake {
        if !(s.syn && s.ack) || s.acknowledgement != sendSequence {
          return [];
        }
        receiveSequence, established := Add(s.sequence, 1), true;
        replies := [AckNow(Now())];
        readable, handshake := Open, false;
        return;
      }
      if s.ack && s.acknowledgement == sendSequence {
        established := true;
      }
      return [];
    }

    method Enqueue(payload: Bytes)
      modifies this
      ensures Now() == Enqueued(old(Now()), payload)
    {
      hide Add;
      if readable.Open? {
        queue := queue + [payload];
      }
      demand := false;
      receiveSequence := Add(receiveSequence, |payload|);
    }

    method Answer() returns (replies: seq<Reply>)
      modifies this
      ensures (Now(), replies) == Answering(old(Now()))
    {
      hide Add, ReceiveWindow, ClosedQuietly;
      replies := [AckNow(Now())];
      if localEnded && remoteEnded && waiters == [] {
        Close(false);
      }
    }

    method End() returns (replies: seq<Reply>)
      modifies this
      ensures (Now(), replies) == Ending(old(Now()))
    {
      hide Add, Broken, Answering;
      receiveSequence, remoteEnded := Add(receiveSequence, 1), true;
      if readable.Ended? || readable.Failed? {
        // closing a closed stream throws
        replies := [Reset(receiveSequence)];
        Close(true);
        return;
      }
      if readable.Open? {
        readable := Ended;
      }
      replies := Answer();
    }

    /** The last part: a segment in place is queued, and its end closes the stream. */
    method Accept(s: Segment) returns (replies: seq<Reply>)
      modifies this
      ensures (Now(), replies) == Accepting(old(Now()), s)
    {
      hide Broken, Enqueued, Ending, Answering;
      if |s.payload| > 0 {
        if readable.Ended? || readable.Failed? {
          // and so does queueing on one
          replies := [Reset(receiveSequence)];
          Close(true);
          return;
        }
        Enqueue(s.payload);
      }
      if s.fin {
        replies := End();
      } else {
        replies := Answer();
      }
    }

    /** process_tcp: the segments it sends in answer. */
    method Process(s: Segment) returns (replies: seq<Reply>)
      modifies this
      ensures (Now(), replies) == Processed(old(Now()), s)
    {
      hide Add, ReceiveWindow, Broken, ClosedQuietly, Opening, Accepting, Unacknowledged;
      if closed {
        return [];
      }
      if s.rst {
        Close(true);
        return [];
      }
      if s.ack {
        Acknowledge(s.acknowledgement);
      }
      if !established {
        replies := Establish(s);
        return;
      }
      var consumes := |s.payload| + if s.fin then 1 else 0;
      if consumes == 0 {
        return [];
      }
      if s.sequence != receiveSequence {
        return [AckNow(Now())];
      }
      if |s.payload| > 0 && |s.payload| > ReceiveWindow(Now()) {
        return [AckNow(Now())];
      }
      replies := Accept(s);
    }
  }

  function OpenedByGuest(initial: u32, sequence: u32): Flow
  {
    Flow(true, false, false, false, initial, Add(sequence, 1), [], false, false, false, false, Open, [])
  }

  function OpenedByHost(initial: u32): Flow
  {
    Flow(false, false, true, false, Add(initial, 1), 0, [], false, false, false, false, Absent, [])
  }
}
