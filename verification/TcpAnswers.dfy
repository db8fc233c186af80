/**
 What a guest is answered, and what else one of its segments does to a flow: the
 handshake, the waiters for its acknowledgements, and the end of the flow
 (sections 3.5 and 3.10.7 of RFC 9293).
 */
module TcpAnswers {
  import opened Wrappers
  import opened TcpReceive
  import opened TcpStream

  /** A segment that takes sequence space once the handshake is over. */
  predicate TakesSpace(s: Segment)
  {
    s.payload != [] || s.fin
  }

  // ---------------------------------------------------------------------------
  // Acknowledgements sent

  lemma AnsweringAnswers(f: Flow)
    requires Consistent(f) && f.established && !f.closed
    ensures var (h, replies) := Answering(f);
            && replies == [Ack(h.receiveSequence, ReceiveWindow(h))] && h.remoteEnded == f.remoteEnded
            && (h.closed <==> f.localEnded && f.remoteEnded && f.waiters == []) && h.waiters == f.waiters
  {
    hide Add, Flat;
  }

  lemma AcceptingAnswers(f: Flow, s: Segment)
    requires Consistent(f) && f.established && !f.closed && f.readable.Open?
    ensures var (h, replies) := Accepting(f, s);
            && replies == [Ack(h.receiveSequence, ReceiveWindow(h))]
            && (h.closed <==> f.localEnded && h.remoteEnded && f.waiters == []) && h.waiters == f.waiters
  {
    var g := if s.payload == [] then f else Enqueued(f, s.payload);
    var h := if s.fin then g.(receiveSequence := Add(g.receiveSequence, 1), remoteEnded := true, readable := Ended)
    else g;
    AnsweringAnswers(h);
    hide Add, Flat, Answering, ReceiveWindow, Broken;
  }

  /** What an established flow answers, in its own terms. */
  lemma EstablishedAnswers(f: Flow, s: Segment)
    requires Consistent(f) && f.established && !f.closed && !s.rst && (f.readable.Open? || !Accepted(f, s))
    ensures var (h, replies) := Processed(f, s);
            replies == if TakesSpace(s) then [Ack(h.receiveSequence, ReceiveWindow(h))] else []
  {
    var g := if s.ack then f.(waiters := Unacknowledged(f.waiters, s.acknowledgement)) else f;
    WindowIgnoresWaiters(f, g);
    hide Unacknowledged, Add, Flat, Accepting, ReceiveWindow, Opening;
    if Accepted(f, s) { AcceptingAnswers(g, s); }
  }

  /**
   An established flow answers every segment that takes sequence space with one
   acknowledgement of all that has entered the stream, this segment included if
   it was taken, and of the window it leaves; and no other segment.
   */
  lemma AnswersOnce(g: Guest, s: Sys, segment: Segment, at: nat)
    requires Inv(g, s) && FromGuest(g, segment, at, Position(s))
    requires s.flow.established && !s.flow.closed && !segment.rst
    ensures var t := Step(s, Arrive(segment, at));
            Processed(s.flow, segment).1
            == if TakesSpace(segment) then [Ack(Add(g.initial, 1 + Position(t)), ReceiveWindow(t.flow))] else []
  {
    if Accepted(s.flow, segment) { AcceptedIsNext(g, s, segment, at); }
    hide Processed, Accepted, Add, Flat, ReceiveWindow;
    ArriveCases(g, s, segment, at);
    EstablishedAnswers(s.flow, segment);
    EstablishedStays(g, s, segment, at);
  }

  lemma EstablishedStays(g: Guest, s: Sys, segment: Segment, at: nat)
    requires Inv(g, s) && FromGuest(g, segment, at, Position(s)) && s.flow.established
    ensures Processed(s.flow, segment).0.established
  {
    if Accepted(s.flow, segment) { AcceptedIsNext(g, s, segment, at); }
    hide Processed, Accepted, Add, Flat, ReceiveWindow;
    ProcessedCases(s.flow, segment);
  }

  /** The position moves exactly by what the next segment brings: its payload, and one for its FIN. */
  lemma NextSegmentMoves(g: Guest, s: Sys, segment: Segment, at: nat)
    requires Inv(g, s) && s.flow.established && !s.flow.closed && !segment.rst && TakesSpace(segment)
    requires IsCut(g, segment, at) && at == |s.received| && !s.flow.remoteEnded
    requires |segment.payload| <= ReceiveWindow(s.flow)
    ensures var t := Step(s, Arrive(segment, at));
            && t.received == s.received + segment.payload && t.flow.remoteEnded == segment.fin
            && Position(t) == Position(s) + |segment.payload| + if segment.fin then 1 else 0
  {
    assert FromGuest(g, segment, at, Position(s));
    assert Accepted(s.flow, segment);
    AcceptedIsNext(g, s, segment, at);
    hide Processed, Accepted, Add, Flat, ReceiveWindow, FromGuest;
    ArriveCases(g, s, segment, at);
    ProcessedCases(s.flow, segment);
  }

  // ---------------------------------------------------------------------------
  // The handshake

  /** A flow is established by exactly the guest's half of the handshake, and the host's half is answered once. */
  lemma HandshakeExactly(f: Flow, s: Segment)
    requires Consistent(f) && !f.closed && !f.established && !s.rst
    ensures var (h, replies) := Processed(f, s);
            && (h.established <==> s.ack && s.acknowledgement == f.sendSequence && (f.guestOpened || s.syn))
            && replies == (if h.established && !f.guestOpened then [Ack(Add(s.sequence, 1), 65535)] else [])
            && (h.established && !f.guestOpened ==> h.readable.Open?)
            && !h.closed && h.queue == f.queue
  {
    hide Unacknowledged;
  }

  // ---------------------------------------------------------------------------
  // Waiters

  /** Exactly the waiters for this number leave. */
  lemma {:induction false} WaitersLeave(waiters: seq<u32>, number: u32)
    ensures number !in Unacknowledged(waiters, number)
    ensures forall w :: w != number ==> multiset(Unacknowledged(waiters, number))[w] == multiset(waiters)[w]
    decreases |waiters|
  {
    if waiters != [] {
      var rest := Unacknowledged(waiters[1..], number);
      WaitersLeave(waiters[1..], number);
      assert waiters == [waiters[0]] + waiters[1..];
      assert multiset(waiters) == multiset{waiters[0]} + multiset(waiters[1..]);
      assert multiset([waiters[0]] + rest) == multiset{waiters[0]} + multiset(rest);
    }
  }

  /** And the others stay in their order: leaving goes piece by piece. */
  lemma {:induction false} WaitersInOrder(first: seq<u32>, second: seq<u32>, number: u32)
    ensures Unacknowledged(first + second, number) == Unacknowledged(first, number) + Unacknowledged(second, number)
    decreases |first|
  {
    if first == [] {
      assert first + second == second;
    } else {
      assert (first + second)[1..] == first[1..] + second;
      WaitersInOrder(first[1..], second, number);
    }
  }

  /** An acknowledgement lets its waiters go; nothing else that leaves the flow open does. */
  lemma AckReleasesWaiters(g: Guest, s: Sys, segment: Segment, at: nat)
    requires Inv(g, s) && FromGuest(g, segment, at, Position(s)) && !s.flow.closed
    ensures var h := Processed(s.flow, segment).0;
            !h.closed ==>
              h.waiters == if segment.ack then Unacknowledged(s.flow.waiters, segment.acknowledgement)
              else s.flow.waiters
  {
    var f := s.flow;
    if Accepted(f, segment) { AcceptedIsNext(g, s, segment, at); }
    var f' := if segment.ack then f.(waiters := Unacknowledged(f.waiters, segment.acknowledgement)) else f;
    WindowIgnoresWaiters(f, f');
    hide Add, Flat, Accepting, ReceiveWindow, Unacknowledged;
    if Accepted(f, segment) { AcceptingAnswers(f', segment); }
  }

  // ---------------------------------------------------------------------------
  // The end of a flow

  /**
   A segment ends a flow exactly if it is a reset, or if it is taken, both sides
   have then ended, and nobody waits for an acknowledgement any more.
   */
  lemma EndsExactly(g: Guest, s: Sys, segment: Segment, at: nat)
    requires Inv(g, s) && FromGuest(g, segment, at, Position(s)) && !s.flow.closed
    ensures var h := Processed(s.flow, segment).0;
            var waiters := if segment.ack then Unacknowledged(s.flow.waiters, segment.acknowledgement)
                           else s.flow.waiters;
            h.closed <==>
            || segment.rst
            || (Accepted(s.flow, segment) && s.flow.localEnded && h.remoteEnded && waiters == [])
  {
    var f := s.flow;
    if Accepted(f, segment) { AcceptedIsNext(g, s, segment, at); }
    var f' := if segment.ack then f.(waiters := Unacknowledged(f.waiters, segment.acknowledgement)) else f;
    WindowIgnoresWaiters(f, f');
    hide Add, Flat, Accepting, ReceiveWindow, Unacknowledged;
    if Accepted(f, segment) { AcceptingAnswers(f', segment); }
  }

  /** A reset fails an open stream and drops what it had queued; no waiter is left. */
  lemma ResetBreaks(f: Flow, s: Segment)
    requires Consistent(f) && !f.closed && s.rst
    ensures var (h, replies) := Processed(f, s);
            && replies == [] && h.closed && h.waiters == []
            && (f.readable.Open? ==> h.readable.Failed? && h.queue == [])
            && (f.readable.Ended? && f.queue == [] ==> h.readable.Ended?)
  {
    hide Unacknowledged;
  }

  /** Closing without an error leaves what is queued to be read, and the stream ends after it. */
  lemma QuietCloseKeepsData(g: Guest, s: Sys)
    requires Inv(g, s) && !s.flow.closed
    ensures var t := Step(s, CloseQuiet);
            && t.flow.closed && t.flow.waiters == [] && t.flow.queue == s.flow.queue && t.received == s.received
            && (s.flow.readable.Open? ==> t.flow.readable.Ended?)
  {
    hide Add, Flat;
  }

  /** A closed flow is past answering or changing. */
  lemma ClosedIsSilent(f: Flow, s: Segment)
    requires f.closed
    ensures Processed(f, s) == (f, [])
  {
  }

  // ---------------------------------------------------------------------------
  // Any guest

  /**
   The window: all of it until there is a stream; all or nothing, as the reader has
   asked, while a connection to the host's side is being made or was made on
   demand; nothing once the stream is over; and else what the unread bytes leave.
   */
  lemma WindowExactly(f: Flow)
    ensures ReceiveWindow(f)
         == if f.readable.Absent? then 65535
            else if f.activation then (if f.demand then 65535 else 0)
            else if f.guestOpened || f.readable.Failed? || (f.readable.Ended? && f.queue == []) then 0
            else if |Flat(f.queue)| >= 65535 then 0 else 65535 - |Flat(f.queue)|
  {
    hide Flat;
  }

  /**
   Whatever a guest sends in sequence after its stream has ended or failed breaks
   the flow: it is answered with a reset, nobody waits any more, and unread data
   goes with it, though a stream read to its end stays ended.
   */
  lemma AfterTheEnd(f: Flow, segment: Segment)
    requires f.established && !f.closed && !segment.rst && (f.readable.Ended? || f.readable.Failed?)
    requires TakesSpace(segment) && segment.sequence == f.receiveSequence
    requires segment.payload == [] || |segment.payload| <= ReceiveWindow(f)
    ensures var (g, replies) := Processed(f, segment);
            && replies == [Reset(Add(f.receiveSequence, if segment.payload == [] then 1 else 0))]
            && g.closed && g.waiters == [] && g.queue == []
            && (if f.readable.Ended? && f.queue == [] then g.readable.Ended? else g.readable.Failed?)
  {
    hide Flat, Unacknowledged;
    var f' := if segment.ack then f.(waiters := Unacknowledged(f.waiters, segment.acknowledgement)) else f;
    WindowIgnoresWaiters(f, f');
  }

  /**
   A flow the host opens takes for its handshake exactly a SYN with the
   acknowledgement of its own SYN, which it acknowledges with the whole window;
   nothing else changes it.
   */
  lemma HostOpensExactly(initial: u32, s: Segment)
    requires !s.rst
    ensures var f := OpenedByHost(initial);
            var (g, replies) := Processed(f, s);
            if s.syn && s.ack && s.acknowledgement == (initial + 1) % 0x1_0000_0000 then
              && g.established && !g.closed && !g.localEnded && !g.remoteEnded && g.readable.Open? && g.queue == []
              && g.receiveSequence == (s.sequence + 1) % 0x1_0000_0000 && replies == [Ack(g.receiveSequence, 65535)]
            else g == f && replies == []
  {
    assert Unacknowledged([], s.acknowledgement) == [];
    FlatNothing();
  }

  lemma FlatNothing()
    ensures Flat([]) == []
  {
  }

  /**
   One the guest opens is established exactly by an acknowledgement of where it
   stands, and stays one past the SYN.
   */
  lemma GuestOpensExactly(initial: u32, sequence: u32, s: Segment)
    requires !s.rst
    ensures var (g, replies) := Processed(OpenedByGuest(initial, sequence), s);
            && (g.established <==> s.ack && s.acknowledgement == initial) && replies == []
            && !g.closed && !g.localEnded && !g.remoteEnded && g.readable.Open? && g.queue == []
            && g.receiveSequence == (sequence + 1) % 0x1_0000_0000
  {
  }
}
