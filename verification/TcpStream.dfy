/**
 What the host reads from a guest's TCP stream, for any loss, duplication and
 reordering of its segments (sections 3.4 and 3.10.7.4 of RFC 9293).
 */
module TcpStream {
  import opened Wrappers
  import opened BigEndian
  import opened TcpReceive

  /** A guest's stream: its initial sequence number and every byte it will ever send. */
  datatype Guest = Guest(initial: u32, data: Bytes)

  /** A flow, all the bytes ever queued on its stream, and those its reader has taken. */
  datatype Sys = Sys(flow: Flow, received: Bytes, taken: Bytes)

  datatype Event =
    | Arrive(segment: Segment, at: nat)   // a segment of the guest's, cut at this offset of its data
    | Read                                // the host's reader takes a chunk
    | Pull                                // its stream asks for more
    | Activate                            // the host writes to a connection the guest opened
    | Send(sequence: u32, waits: bool)    // the sending side moves on
    | EndLocal
    | Abort
    | CloseQuiet

  function Position(s: Sys): nat
  {
    |s.received| + if s.flow.remoteEnded then 1 else 0
  }

  /** A piece of the guest's data, with its end marked only at the end. */
  predicate IsCut(g: Guest, s: Segment, at: nat)
  {
    && !s.syn && s.sequence == Add(g.initial, 1 + at)
    && at + |s.payload| <= |g.data| && s.payload == g.data[at..at + |s.payload|]
    && (s.fin ==> at + |s.payload| == |g.data|)
  }

  /** Anything the guest's TCP may send: a reset, a segment without data, or a cut, old or new, less than 2^32 away. */
  predicate FromGuest(g: Guest, s: Segment, at: nat, position: nat)
  {
    || s.rst
    || (s.payload == [] && !s.fin && (s.syn ==> s.sequence == g.initial))
    || (IsCut(g, s, at) && at < position + Modulus && position < at + Modulus)
  }

  predicate Possible(g: Guest, s: Sys, e: Event)
  {
    match e
    case Arrive(segment, at) => FromGuest(g, segment, at, Position(s))
    case Read => s.flow.queue != []
    case Pull => s.flow.guestOpened ==> s.flow.queue == []
    case Activate => s.flow.guestOpened
    case _ => true
  }

  /** The chunk a step queued, if it queued one. */
  function Queued(before: Flow, after: Flow): Bytes
  {
    if |after.queue| > |before.queue| then after.queue[|after.queue| - 1] else []
  }

  function Step(s: Sys, e: Event): Sys
  {
    match e
    case Arrive(segment, _) =>
      var f := Processed(s.flow, segment).0;
      s.(flow := f, received := s.received + Queued(s.flow, f))
    case Read =>
      if s.flow.queue == [] then s
      else s.(flow := s.flow.(queue := s.flow.queue[1..]), taken := s.taken + s.flow.queue[0])
    case Pull => s.(flow := s.flow.(demand := true, activation := s.flow.guestOpened))
    case Activate => s.(flow := s.flow.(activation := true))
    case Send(sequence, waits) =>
      s.(flow := s.flow.(sendSequence := sequence,
                         waiters := if waits then s.flow.waiters + [sequence] else s.flow.waiters))
    case EndLocal => s.(flow := s.flow.(localEnded := true))
    case Abort => s.(flow := Broken(s.flow))
    case CloseQuiet => s.(flow := ClosedQuietly(s.flow))
  }

  predicate Run(g: Guest, s: Sys, events: seq<Event>)
    decreases |events|
  {
    events == [] || (Possible(g, s, events[0]) && Run(g, Step(s, events[0]), events[1..]))
  }

  function After(g: Guest, s: Sys, events: seq<Event>): Sys
    requires Run(g, s, events)
    decreases |events|
  {
    if events == [] then s else After(g, Step(s, events[0]), events[1..])
  }

  predicate Initial(g: Guest, s: Sys)
  {
    && s.received == [] && s.taken == []
    && ((exists x: u32 :: s.flow == OpenedByGuest(x, g.initial)) || (exists x: u32 :: s.flow == OpenedByHost(x)))
  }

  // ---------------------------------------------------------------------------
  // The invariant

  /** Which of the flow's fields can be set together. */
  predicate Consistent(f: Flow)
  {
    && (f.handshake <==> !f.guestOpened && !f.established) && (f.handshake ==> f.readable.Absent?)
    && (f.readable.Absent? ==> !f.established && !f.guestOpened && f.queue == [])
    && (f.readable.Failed? ==> f.closed && f.queue == []) && (f.closed ==> !f.readable.Open?)
    && (!f.closed ==> (f.readable.Ended? <==> f.remoteEnded) && (f.established ==> !f.readable.Absent?))
    && (!f.guestOpened ==> !f.activation)
    && (!f.established ==> !f.remoteEnded)
    && (f.guestOpened && f.demand ==> f.queue == [])
  }

  /** The sequence number is the guest's first, plus everything received, plus one for its FIN. */
  predicate Placed(g: Guest, s: Sys)
  {
    && (s.flow.established || s.flow.guestOpened ==> s.flow.receiveSequence == Add(g.initial, 1 + Position(s)))
    && (!s.flow.established ==> s.received == [])
    && s.received <= g.data && (s.flow.remoteEnded ==> s.received == g.data)
  }

  predicate Conserved(s: Sys)
  {
    && s.taken <= s.received
    && (!s.flow.readable.Failed? ==> s.taken + Flat(s.flow.queue) == s.received)
  }

  predicate Bounded(f: Flow)
  {
    |Flat(f.queue)| <= Window
  }

  predicate Inv(g: Guest, s: Sys)
  {
    Consistent(s.flow) && Placed(g, s) && Conserved(s) && Bounded(s.flow)
  }

  lemma AddAdd(x: u32, m: nat, n: nat)
    ensures Add(Add(x, m), n) == Add(x, m + n)
  {
  }

  lemma AddInjective(x: u32, m: nat, n: nat)
    requires Add(x, m) == Add(x, n) && m < n + Modulus && n < m + Modulus
    ensures m == n
  {
    var p, q := (x + m) / Modulus, (x + n) / Modulus;
    assert x + m == Modulus * p + Add(x, m) && x + n == Modulus * q + Add(x, n);
    assert m - n == Modulus * (p - q);
    assert -1 < p - q < 1;
  }

  lemma FlatHead(queue: seq<Bytes>)
    requires queue != []
    ensures Flat(queue) == queue[0] + Flat(queue[1..])
  {
  }

  /** A segment that Processed accepts is the guest's data at the current position. */
  predicate Accepted(f: Flow, s: Segment)
  {
    && !f.closed && !s.rst && f.established && (s.payload != [] || s.fin)
    && s.sequence == f.receiveSequence
    && (s.payload != [] ==> |s.payload| <= ReceiveWindow(f))
  }

  lemma AcceptedIsNext(g: Guest, s: Sys, segment: Segment, at: nat)
    requires Inv(g, s) && FromGuest(g, segment, at, Position(s)) && Accepted(s.flow, segment)
    ensures at == |s.received| && !s.flow.remoteEnded && IsCut(g, segment, at) && s.flow.readable.Open?
  {
    hide Conserved, Bounded;
    AddInjective(g.initial, 1 + at, 1 + Position(s));
  }

  lemma OpeningCases(f: Flow, s: Segment)
    requires Consistent(f) && !f.closed && !f.established
    ensures var h := Opening(f, s).0;
            && Consistent(h) && h.queue == f.queue && h.guestOpened == f.guestOpened && h.remoteEnded == f.remoteEnded
            && (h.established ==> h.receiveSequence == if f.guestOpened then f.receiveSequence else Add(s.sequence, 1))
            && (!h.established ==> h.receiveSequence == f.receiveSequence)
            && (!f.guestOpened && h.established ==> s.syn && s.ack)
            && !h.readable.Failed?
  {
    hide Add, ReceiveWindow, Flat;
  }

  lemma AnsweringCases(f: Flow)
    requires Consistent(f) && f.established && !f.closed
    ensures var h := Answering(f).0;
            && Consistent(h) && h.queue == f.queue && h.guestOpened == f.guestOpened && h.remoteEnded == f.remoteEnded
            && h.established && h.receiveSequence == f.receiveSequence && !h.readable.Failed?
  {
    hide Add, ReceiveWindow, Flat;
  }

  lemma AcceptingCases(f: Flow, s: Segment)
    requires Consistent(f) && f.established && !f.closed && f.readable.Open?
    ensures var h := Accepting(f, s).0;
            && Consistent(h) && h.guestOpened == f.guestOpened && h.remoteEnded == (f.remoteEnded || s.fin)
            && h.queue == (if s.payload != [] then f.queue + [s.payload] else f.queue)
            && h.established && h.receiveSequence == Add(f.receiveSequence, |s.payload| + if s.fin then 1 else 0)
            && !h.readable.Failed?
  {
    AddAdd(f.receiveSequence, |s.payload|, 1);
    AddAdd(f.receiveSequence, 0, |s.payload|);
    var g := if s.payload == [] then f else Enqueued(f, s.payload);
    var h := if s.fin then g.(receiveSequence := Add(g.receiveSequence, 1), remoteEnded := true, readable := Ended)
    else g;
    assert f.receiveSequence == Add(f.receiveSequence, 0);
    AnsweringCases(h);
    hide Add, Answering;
  }

  lemma BrokenCases(f: Flow)
    requires Consistent(f)
    ensures var h := Broken(f);
            && Consistent(h) && h.guestOpened == f.guestOpened && h.remoteEnded == f.remoteEnded
            && h.established == f.established
            && h.receiveSequence == f.receiveSequence && (h.queue == if h.readable.Failed? then [] else f.queue)
            && (f.readable.Failed? ==> h.readable.Failed?)
  {
  }

  function NextSequence(f: Flow, s: Segment): u32
  {
    if Accepted(f, s) then Add(f.receiveSequence, |s.payload| + if s.fin then 1 else 0)
    else if !f.established && !f.guestOpened then Add(s.sequence, 1)
    else f.receiveSequence
  }

  /** What Processed does, by whether the segment is accepted. */
  lemma ProcessedCases(f: Flow, s: Segment)
    requires Consistent(f) && (f.readable.Open? || !Accepted(f, s))
    ensures var h := Processed(f, s).0;
            && Consistent(h) && h.guestOpened == f.guestOpened
            && h.queue == (if h.readable.Failed? then []
                           else if Accepted(f, s) && s.payload != [] then f.queue + [s.payload]
                           else f.queue)
            && (h.readable.Failed? ==> s.rst || f.readable.Failed?) && (f.readable.Failed? ==> h.readable.Failed?)
            && (f.established ==> h.established)
            && (h.established && !f.established && !f.guestOpened ==> s.syn && !s.rst)
            && h.remoteEnded == (f.remoteEnded || (Accepted(f, s) && s.fin))
            && (h.established || h.guestOpened ==> h.receiveSequence == NextSequence(f, s))
  {
    var g := if s.ack then f.(waiters := Unacknowledged(f.waiters, s.acknowledgement)) else f;
    WindowIgnoresWaiters(f, g);
    hide Add, Unacknowledged, Opening, Accepting, Broken, ReceiveWindow;
    BrokenCases(f);
    if !g.closed && !s.rst {
      if !g.established {
        OpeningCases(g, s);
      } else if Accepted(f, s) {
        AcceptingCases(g, s);
      }
    }
  }

  lemma WindowIgnoresWaiters(f: Flow, g: Flow)
    requires g == f.(waiters := g.waiters)
    ensures ReceiveWindow(f) == ReceiveWindow(g)
  {
  }

  lemma AcceptedFits(f: Flow, s: Segment)
    requires Consistent(f) && Bounded(f) && Accepted(f, s) && s.payload != [] && f.readable.Open?
    ensures |Flat(f.queue)| + |s.payload| <= Window
  {
  }

  lemma NextIsPlaced(g: Guest, s: Sys, segment: Segment, at: nat)
    requires Inv(g, s) && FromGuest(g, segment, at, Position(s)) && Accepted(s.flow, segment)
    ensures s.received + segment.payload <= g.data
    ensures segment.fin ==> s.received + segment.payload == g.data
    ensures NextSequence(s.flow, segment)
         == Add(g.initial, 1 + |s.received + segment.payload| + if segment.fin then 1 else 0)
  {
    AcceptedIsNext(g, s, segment, at);
    AddAdd(g.initial, 1 + |s.received|, |segment.payload| + if segment.fin then 1 else 0);
    hide Add, Consistent, Conserved, Bounded;
    assert g.data[..at + |segment.payload|] == g.data[..at] + segment.payload;
  }

  lemma QueuedChunk(g: Guest, s: Sys, segment: Segment, at: nat)
    requires Inv(g, s) && FromGuest(g, segment, at, Position(s))
    ensures var f, h := s.flow, Processed(s.flow, segment).0;
            && Queued(f, h) == (if Accepted(f, segment) then segment.payload else [])
            && (!h.readable.Failed? ==> Flat(h.queue) == Flat(f.queue) + Queued(f, h))
            && (h.readable.Failed? ==> h.queue == [])
            && |Flat(h.queue)| <= Window
  {
    FlatNone();
    var f := s.flow;
    if Accepted(f, segment) {
      AcceptedIsNext(g, s, segment, at);
      if segment.payload != [] {
        AcceptedFits(f, segment);
        FlatAppend(f.queue, segment.payload);
      }
    }
    hide Processed, Accepted, Flat, Add, ReceiveWindow, FromGuest, Placed, Conserved;
    ProcessedCases(f, segment);
  }

  lemma ArrivePlaced(g: Guest, s: Sys, segment: Segment, at: nat)
    requires Inv(g, s) && FromGuest(g, segment, at, Position(s))
    ensures Placed(g, Step(s, Arrive(segment, at)))
  {
    hide Processed, Accepted, Flat, Add, ReceiveWindow, Conserved, Bounded, Queued, NextSequence;
    var f := s.flow;
    QueuedChunk(g, s, segment, at);
    if Accepted(f, segment) {
      AcceptedIsNext(g, s, segment, at);
      NextIsPlaced(g, s, segment, at);
      ProcessedCases(f, segment);
      AcceptedEstablished(f, segment);
    } else {
      ProcessedCases(f, segment);
      NextOfOther(f, segment);
      assert s.received + [] == s.received;
    }
  }

  lemma AcceptedEstablished(f: Flow, s: Segment)
    requires Accepted(f, s)
    ensures f.established
  {
  }

  lemma NextOfOther(f: Flow, s: Segment)
    requires !Accepted(f, s)
    ensures NextSequence(f, s) == if !f.established && !f.guestOpened then Add(s.sequence, 1) else f.receiveSequence
  {
  }

  lemma ArriveConserved(g: Guest, s: Sys, segment: Segment, at: nat)
    requires Inv(g, s) && FromGuest(g, segment, at, Position(s))
    ensures Conserved(Step(s, Arrive(segment, at))) && Bounded(Processed(s.flow, segment).0)
  {
    hide Processed, Accepted, Flat, Add, ReceiveWindow, Queued, FromGuest, Consistent, Placed;
    QueuedChunk(g, s, segment, at);
    ArriveKeepsFailed(g, s, segment, at);
  }

  lemma ArriveKeepsFailed(g: Guest, s: Sys, segment: Segment, at: nat)
    requires Inv(g, s) && FromGuest(g, segment, at, Position(s))
    ensures var h := Processed(s.flow, segment).0;
            && Consistent(h) && (h.readable.Failed? ==> segment.rst || s.flow.readable.Failed?)
            && (s.flow.readable.Failed? ==> h.readable.Failed?) && h.guestOpened == s.flow.guestOpened
            && (s.flow.remoteEnded ==> h.remoteEnded) && (s.flow.closed ==> h.closed)
  {
    hide Flat, Add, ReceiveWindow, Conserved, Placed, Bounded, Opening, Accepting, Accepted;
    if Accepted(s.flow, segment) { AcceptedIsNext(g, s, segment, at); }
    ProcessedCases(s.flow, segment);
  }

  /** Exactly the accepted segments' data enters the stream. */
  lemma ArriveCases(g: Guest, s: Sys, segment: Segment, at: nat)
    requires Inv(g, s) && FromGuest(g, segment, at, Position(s))
    ensures var t := Step(s, Arrive(segment, at));
            && Inv(g, t)
            && t.received == (if Accepted(s.flow, segment) then s.received + segment.payload else s.received)
            && (t.flow.readable.Failed? ==> segment.rst || s.flow.readable.Failed?)
  {
    hide Processed, Accepted, FromGuest, Consistent, Placed, Conserved, Bounded, Queued;
    QueuedChunk(g, s, segment, at);
    ArrivePlaced(g, s, segment, at);
    ArriveConserved(g, s, segment, at);
    ArriveKeepsFailed(g, s, segment, at);
    assert s.received + [] == s.received;
  }

  lemma StepKeeps(g: Guest, s: Sys, e: Event)
    requires Inv(g, s) && Possible(g, s, e)
    ensures Inv(g, Step(s, e))
    ensures s.received <= Step(s, e).received && s.taken <= Step(s, e).taken
  {
    hide Processed, Add, Flat;
    match e
    case Arrive(segment, at) => ArriveCases(g, s, segment, at);
    case Read => FlatHead(s.flow.queue);
    case Abort => FlatNone();
    case _ =>
  }

  lemma FlatNone()
    ensures Flat([]) == []
  {
  }

  lemma InitialInv(g: Guest, s: Sys)
    requires Initial(g, s)
    ensures Inv(g, s)
  {
    FlatNone();
  }

  lemma {:induction false} RunKeeps(g: Guest, s: Sys, events: seq<Event>)
    requires Inv(g, s) && Run(g, s, events)
    ensures Inv(g, After(g, s, events))
    decreases |events|
  {
    hide Inv, Step, Possible;
    if events != [] {
      StepKeeps(g, s, events[0]);
      RunKeeps(g, Step(s, events[0]), events[1..]);
    }
  }

  /**
   Over every run: what the host has read is a prefix of the guest's stream,
   followed by what it has yet to read; the flow's sequence number is the
   guest's first plus one plus their length (plus one after a FIN, which only
   comes after every byte), modulo 2^32; and at most 65535 bytes are unread.
   */
  lemma HostReadsAPrefix(g: Guest, s: Sys, events: seq<Event>)
    requires Initial(g, s) && Run(g, s, events)
    ensures var t := After(g, s, events);
            && t.taken <= t.received <= g.data
            && (!t.flow.readable.Failed? ==> t.taken + Flat(t.flow.queue) == t.received)
            && (t.flow.remoteEnded ==> t.received == g.data)
            && (t.flow.established ==>
                  t.flow.receiveSequence
                  == (g.initial + 1 + |t.received| + if t.flow.remoteEnded then 1 else 0) % Modulus)
            && |Flat(t.flow.queue)| <= 65535
  {
    hide Initial, Run, After, Flat;
    InitialInv(g, s);
    RunKeeps(g, s, events);
  }

  /** Of an established flow's data segments exactly the next one is taken, and only if it fits the window. */
  lemma ExactlyTheNextSegmentIsTaken(g: Guest, s: Sys, segment: Segment, at: nat)
    requires Inv(g, s) && s.flow.established && !s.flow.closed && !segment.rst && segment.payload != []
    requires IsCut(g, segment, at) && at < Position(s) + Modulus && Position(s) < at + Modulus
    ensures Step(s, Arrive(segment, at)).received
         == if at == |s.received| && |segment.payload| <= ReceiveWindow(s.flow)
            then s.received + segment.payload
            else s.received
  {
    hide Processed, Add, Flat, ReceiveWindow, Conserved, Bounded;
    ArriveCases(g, s, segment, at);
    if Accepted(s.flow, segment) { AcceptedIsNext(g, s, segment, at); }
  }

  predicate AcksExactly(g: Guest, replies: seq<Reply>, position: nat)
  {
    forall i :: 0 <= i < |replies| ==> replies[i].acknowledgement == Add(g.initial, 1 + position) && replies[i].Ack?
  }

  lemma RepliesAckNow(f: Flow, s: Segment)
    requires Consistent(f) && (f.readable.Open? || !Accepted(f, s))
    ensures var (h, replies) := Processed(f, s);
            forall i :: 0 <= i < |replies| ==>
                          replies[i].Ack? && replies[i].acknowledgement == h.receiveSequence && h.established
  {
    var g := if s.ack then f.(waiters := Unacknowledged(f.waiters, s.acknowledgement)) else f;
    WindowIgnoresWaiters(f, g);
    hide Unacknowledged, ReceiveWindow, Add;
  }

  /** Every segment sent in answer acknowledges exactly what has entered the stream, its FIN included. */
  lemma AcksOnlyWhatWasReceived(g: Guest, s: Sys, segment: Segment, at: nat)
    requires Inv(g, s) && FromGuest(g, segment, at, Position(s))
    ensures AcksExactly(g, Processed(s.flow, segment).1, Position(Step(s, Arrive(segment, at))))
  {
    if Accepted(s.flow, segment) { AcceptedIsNext(g, s, segment, at); }
    hide Processed, Accepted, Add, Flat;
    ArriveCases(g, s, segment, at);
    RepliesAckNow(s.flow, segment);
  }

  /** The first sequence offset past what the flow offers to take. */
  function RightEdge(s: Sys): nat
  {
    |s.received| + ReceiveWindow(s.flow)
  }

  /**
   On a connection the host opened, the right edge of the window never moves
   left while the stream is open, as section 3.8.6 of RFC 9293 asks: a segment
   that fits a window once advertised still fits when it arrives.
   */
  lemma RightEdgeNeverMovesLeft(g: Guest, s: Sys, e: Event)
    requires Inv(g, s) && Possible(g, s, e) && !s.flow.guestOpened
    requires !Step(s, e).flow.closed && !Step(s, e).flow.remoteEnded
    ensures RightEdge(Step(s, e)) >= RightEdge(s)
  {
    hide Inv, Possible, Step, RightEdge;
    StepKeeps(g, s, e);
    StaysOpen(g, s, e);
    EdgeOfOpen(g, s);
    EdgeOfOpen(g, Step(s, e));
  }

  /** For a host-opened flow whose stream is open, the edge is 65535 past what has been read. */
  lemma EdgeOfOpen(g: Guest, s: Sys)
    requires Inv(g, s) && !s.flow.guestOpened && !s.flow.closed && !s.flow.remoteEnded
    ensures RightEdge(s) == |s.taken| + Window
  {
    FlatNone();
  }

  lemma StaysOpen(g: Guest, s: Sys, e: Event)
    requires Inv(g, s) && Possible(g, s, e)
    ensures s.flow.closed ==> Step(s, e).flow.closed
    ensures s.flow.remoteEnded ==> Step(s, e).flow.remoteEnded
    ensures Step(s, e).flow.guestOpened == s.flow.guestOpened
  {
    hide Inv, Processed, Flat;
    match e
    case Arrive(segment, at) => ArriveKeepsFailed(g, s, segment, at);
    case _ =>
  }
}
