/**
 A host and a guest on one vsock connection, with packets in flight both ways
 (section 5.10.6.3 of VIRTIO 1.2). The 32-bit counters on the wire stand for
 counts without bound, which the state carries beside them.
 */
module VsockCredit {
  import opened Wrappers
  import opened Vsock

  /** A packet in flight to the guest, and the count its fwd_cnt stands for. */
  datatype ToGuest = ToGuest(packet: Packet, count: nat)

  /** A packet in flight to the host. */
  datatype ToHost = ToHost(alloc: u32, fwdCnt: u32, payload: Bytes, count: nat)

  /**
   A guest that keeps the rules: what it received and consumed, what it sent, the
   host's count as it knows it, and the size and count it reported last.
   */
  datatype Guest = Guest(
    received: Bytes, consumed: nat, alloc: u32, sent: Bytes, fwdCnt: u32, known: nat, toldAlloc: u32, toldCount: nat)

  /**
   taken and written are all the host's reader got and all its RW packets
   carried; reported and updated are the counts behind peerFwd and lastUpdate.
   */
  datatype Sys = Sys(
    conn: Conn, taken: Bytes, written: Bytes, reported: nat, updated: nat,
    toGuest: seq<ToGuest>, toHost: seq<ToHost>, guest: Guest)

  datatype Event =
    | Write(data: Bytes)
    | Take(n: nat)
    | AnswerCreditRequest
    | HostReceive
    | Close
    | GuestReceive
    | GuestConsume(n: nat)
    | GuestAlloc(alloc: u32)
    | GuestSend(payload: Bytes)

  function Counted(packets: seq<Packet>, count: nat): seq<ToGuest>
  {
    seq(|packets|, i requires 0 <= i < |packets| => ToGuest(packets[i], count))
  }

  function Payloads(packets: seq<Packet>): Bytes
  {
    if packets == [] then [] else packets[0].payload + Payloads(packets[1..])
  }

  /** What the guest's 32-bit arithmetic leaves it to send. */
  function GuestUsed(g: Guest): u32
  {
    Minus(Plus(0, |g.sent|), g.fwdCnt)
  }

  predicate Enabled(s: Sys, e: Event, limit: u32)
  {
    match e
    case Take(n) => s.conn.buffer != [] && 0 < n <= |s.conn.buffer[0]|
    case HostReceive => s.toHost != []
    case GuestReceive => s.toGuest != []
    case GuestConsume(n) => s.guest.consumed + n <= |s.guest.received|
    case GuestAlloc(alloc) => alloc <= limit
    case GuestSend(payload) => GuestUsed(s.guest) + |payload| <= BufAlloc
    case _ => true
  }

  function Step(s: Sys, e: Event): Sys
  {
    match e
    case Write(data) =>
      var (d, packets, _) := Wrote(s.conn, data);
      s.(conn := d, written := s.written + Payloads(packets), toGuest := s.toGuest + Counted(packets, |s.taken|))
    case Take(n) =>
      if s.conn.buffer == [] || n > |s.conn.buffer[0]| then s
      else
        var (d, packets) := TookFrom(s.conn, n);
        var taken := s.taken + s.conn.buffer[0][..n];
        s.(conn := d, taken := taken, updated := if packets == [] then s.updated else |taken|,
           toGuest := s.toGuest + Counted(packets, |taken|))
    case AnswerCreditRequest => s.(toGuest := s.toGuest + [ToGuest(Packet([], s.conn.bytesRead), |s.taken|)])
    case HostReceive =>
      if s.toHost == [] then s
      else
        var p := s.toHost[0];
        s.(conn := Enqueued(Credited(s.conn, p.alloc, p.fwdCnt), p.payload), reported := p.count,
           toHost := s.toHost[1..])
    case Close => s.(conn := s.conn.(closed := true))
    case GuestReceive =>
      if s.toGuest == [] then s
      else
        var p := s.toGuest[0];
        s.(guest := s.guest.(received := s.guest.received + p.packet.payload, fwdCnt := p.packet.fwdCnt,
                             known := p.count),
           toGuest := s.toGuest[1..])
    case GuestConsume(n) => s.(guest := s.guest.(consumed := s.guest.consumed + n))
    case GuestAlloc(alloc) => s.(guest := s.guest.(alloc := alloc))
    case GuestSend(payload) =>
      s.(guest := s.guest.(sent := s.guest.sent + payload, toldAlloc := s.guest.alloc, toldCount := s.guest.consumed),
         toHost := s.toHost + [ToHost(s.guest.alloc, Plus(0, s.guest.consumed), payload, s.guest.consumed)])
  }

  /** A connection just opened: the guest's RESPONSE has told the host its buffer size. */
  function Initial(alloc: u32): Sys
  {
    Sys(Fresh.(peerAlloc := alloc), [], [], 0, 0, [], [], Guest([], 0, alloc, [], 0, 0, alloc, 0))
  }

  predicate Run(s: Sys, events: seq<Event>, limit: u32)
    decreases |events|
  {
    events == [] || (Enabled(s, events[0], limit) && Run(Step(s, events[0]), events[1..], limit))
  }

  function After(s: Sys, events: seq<Event>): Sys
    decreases |events|
  {
    if events == [] then s else After(Step(s, events[0]), events[1..])
  }

  // ---------------------------------------------------------------------------
  // Counters

  lemma MinusIs(a: nat, b: nat)
    requires b <= a < b + Modulus
    ensures Minus(Plus(0, a), Plus(0, b)) == a - b
  {
    var p, q := a / Modulus, b / Modulus;
    assert a == Modulus * p + Plus(0, a) && b == Modulus * q + Plus(0, b);
  }

  lemma PlusIs(a: nat, n: nat)
    ensures Plus(Plus(0, a), n) == Plus(0, a + n)
  {
  }

  // ---------------------------------------------------------------------------
  // The invariant, in groups

  /** The host's write side: its counters, and the peer's credit never overdrawn. */
  predicate WriteSide(conn: Conn, written: nat, reported: nat, limit: u32)
  {
    && conn.bytesWritten == Plus(0, written) && conn.peerFwd == Plus(0, reported)
    && reported <= written && written - reported <= limit && conn.peerAlloc <= limit
  }

  /** The host's read side: its counters, and the last credit update close behind. */
  predicate ReadSide(conn: Conn, taken: nat, updated: nat)
  {
    && conn.bytesRead == Plus(0, taken) && conn.lastUpdate == Plus(0, updated)
    && updated <= taken < updated + UpdateEvery
  }

  /** Reports in flight to the host, oldest first. */
  predicate Reports(toHost: seq<ToHost>, reported: nat, consumed: nat, limit: u32)
  {
    && reported <= consumed
    && (forall i :: 0 <= i < |toHost| ==>
                      toHost[i].fwdCnt == Plus(0, toHost[i].count) && toHost[i].alloc <= limit
                      && reported <= toHost[i].count <= consumed)
    && (forall i, j :: 0 <= i < j < |toHost| ==> toHost[i].count <= toHost[j].count)
  }

  function LastCount(toGuest: seq<ToGuest>, known: nat): nat
  {
    if toGuest == [] then known else toGuest[|toGuest| - 1].count
  }

  /** Counts in flight to the guest, oldest first; the newest is no older than the last update. */
  predicate Counts(toGuest: seq<ToGuest>, guest: Guest, taken: nat, updated: nat)
  {
    && guest.fwdCnt == Plus(0, guest.known) && guest.known <= taken
    && (forall i :: 0 <= i < |toGuest| ==>
                      toGuest[i].packet.fwdCnt == Plus(0, toGuest[i].count) && guest.known <= toGuest[i].count <= taken)
    && (forall i, j :: 0 <= i < j < |toGuest| ==> toGuest[i].count <= toGuest[j].count)
    && updated <= LastCount(toGuest, guest.known)
  }

  function InFlight(toGuest: seq<ToGuest>): Bytes
  {
    if toGuest == [] then [] else toGuest[0].packet.payload + InFlight(toGuest[1..])
  }

  function InFlightBack(toHost: seq<ToHost>): Bytes
  {
    if toHost == [] then [] else toHost[0].payload + InFlightBack(toHost[1..])
  }

  /** Nothing is lost, repeated or reordered either way. */
  predicate Streams(s: Sys)
  {
    && s.guest.received + InFlight(s.toGuest) == s.written
    && s.guest.consumed <= |s.guest.received|
    && s.taken + Flat(s.conn.buffer) <= s.guest.sent
    && (!s.conn.closed ==> s.taken + Flat(s.conn.buffer) + InFlightBack(s.toHost) == s.guest.sent)
  }

  predicate GuestHonest(g: Guest, limit: u32)
  {
    g.known <= |g.sent| <= g.known + BufAlloc && g.alloc <= limit
  }

  predicate Inv(s: Sys, limit: u32)
  {
    && WriteSide(s.conn, |s.written|, s.reported, limit)
    && ReadSide(s.conn, |s.taken|, s.updated)
    && Reports(s.toHost, s.reported, s.guest.consumed, limit)
    && Counts(s.toGuest, s.guest, |s.taken|, s.updated)
    && Streams(s)
    && GuestHonest(s.guest, limit)
  }

  // ---------------------------------------------------------------------------
  // Writing

  /** After each of a write's packets, what is out and not reported back fits the peer's buffer. */
  predicate WithinCredit(packets: seq<Packet>, written: nat, reported: nat, alloc: nat)
    decreases |packets|
  {
    packets == [] ||
    (packets[0].payload != [] && written + |packets[0].payload| - reported <= alloc
     && WithinCredit(packets[1..], written + |packets[0].payload|, reported, alloc))
  }

  lemma AvailableIs(c: Conn, written: nat, reported: nat, limit: u32)
    requires WriteSide(c, written, reported, limit)
    ensures Available(c) == if c.peerAlloc > written - reported then c.peerAlloc - (written - reported) else 0
  {
    hide Plus, Minus;
    MinusIs(written, reported);
  }

  lemma {:induction false} WroteCredits(c: Conn, data: Bytes, written: nat, reported: nat, limit: u32)
    requires WriteSide(c, written, reported, limit)
    ensures var (d, packets, rest) := Wrote(c, data);
            && WithinCredit(packets, written, reported, c.peerAlloc)
            && WriteSide(d, written + |Payloads(packets)|, reported, limit)
            && Payloads(packets) + rest == data
            && d == c.(bytesWritten := d.bytesWritten)
            && (forall i :: 0 <= i < |packets| ==> packets[i].fwdCnt == c.bytesRead)
            && (rest != [] && !c.closed ==> written + |Payloads(packets)| - reported >= c.peerAlloc)
    decreases |data|
  {
    hide Plus, Minus, Wrote, Available, Min;
    AvailableIs(c, written, reported, limit);
    WroteStops(c, data);
    if data != [] && !c.closed && Available(c) > 0 {
      MinIs(MaxPayload, Available(c));
      MinIs(Min(MaxPayload, Available(c)), |data|);
      var n := Min(Min(MaxPayload, Available(c)), |data|);
      var next := c.(bytesWritten := Plus(c.bytesWritten, n));
      WroteStep(c, data, n);
      PlusIs(written, n);
      WroteCredits(next, data[n..], written + n, reported, limit);
      var packets := Wrote(c, data).1;
      var more, rest := Wrote(next, data[n..]).1, Wrote(next, data[n..]).2;
      assert packets[1..] == more;
      assert Payloads(packets) + rest == data[..n] + (Payloads(more) + rest);
    } else {
      assert [] + data == data;
    }
  }

  lemma {:induction false} InFlightAdds(toGuest: seq<ToGuest>, packets: seq<Packet>, count: nat)
    ensures InFlight(toGuest + Counted(packets, count)) == InFlight(toGuest) + Payloads(packets)
    decreases |toGuest|, |packets|
  {
    var more := Counted(packets, count);
    if toGuest != [] {
      assert (toGuest + more)[1..] == toGuest[1..] + more;
      InFlightAdds(toGuest[1..], packets, count);
    } else if packets != [] {
      assert more[1..] == Counted(packets[1..], count);
      InFlightAdds([], packets[1..], count);
      assert [] + more == more && [] + more[1..] == more[1..];
    }
  }

  lemma CountsAdd(toGuest: seq<ToGuest>, guest: Guest, taken: nat, updated: nat, packets: seq<Packet>, more: nat,
                  later: nat)
    requires Counts(toGuest, guest, taken, updated) && taken <= more
    requires forall i :: 0 <= i < |packets| ==> packets[i].fwdCnt == Plus(0, more)
    requires later == updated || (later == more && packets != [])
    ensures Counts(toGuest + Counted(packets, more), guest, more, later)
  {
    hide Plus;
    var all := toGuest + Counted(packets, more);
    assert forall i :: |toGuest| <= i < |all| ==> all[i].count == more;
    if packets != [] { assert LastCount(all, guest.known) == more; }
  }

  lemma WriteKeeps(s: Sys, data: Bytes, limit: u32)
    requires Inv(s, limit)
    ensures Inv(Step(s, Write(data)), limit)
  {
    hide Plus, Minus, Wrote, Reports, Counts, GuestHonest, Payloads, InFlight, InFlightBack, Flat, Counted,
      WithinCredit;
    var packets := Wrote(s.conn, data).1;
    WroteCredits(s.conn, data, |s.written|, s.reported, limit);
    InFlightAdds(s.toGuest, packets, |s.taken|);
    CountsAdd(s.toGuest, s.guest, |s.taken|, s.updated, packets, |s.taken|, s.updated);
    assert s.guest.received + (InFlight(s.toGuest) + Payloads(packets)) == s.written + Payloads(packets);
  }

  // ---------------------------------------------------------------------------
  // Reading

  lemma TakeReads(c: Conn, taken: nat, updated: nat, n: nat)
    requires ReadSide(c, taken, updated) && c.buffer != [] && n <= |c.buffer[0]| && n < Modulus - UpdateEvery
    ensures var (d, packets) := TookFrom(c, n);
            && ReadSide(d, taken + n, if packets == [] then updated else taken + n)
            && (packets == [] || packets == [Packet([], Plus(0, taken + n))])
            && d.bytesWritten == c.bytesWritten && d.peerAlloc == c.peerAlloc && d.peerFwd == c.peerFwd
            && d.closed == c.closed
  {
    hide Plus, Minus;
    PlusIs(taken, n);
    MinusIs(taken + n, updated);
  }

  lemma TakeKeeps(s: Sys, n: nat, limit: u32)
    requires Inv(s, limit) && Enabled(s, Take(n), limit)
    ensures Inv(Step(s, Take(n)), limit)
  {
    hide Plus, Minus, TookFrom, Reports, Counts, GuestHonest, InFlightBack, InFlight, Counted, Flat, ReadSide;
    var chunk := s.conn.buffer[0];
    BufferBounded(s, limit);
    TakeReads(s.conn, |s.taken|, s.updated, n);
    TookIsPrefix(s.conn, n);
    var packets := TookFrom(s.conn, n).1;
    InFlightAdds(s.toGuest, packets, |s.taken| + n);
    PayloadsNone(packets);
    CountsAdd(s.toGuest, s.guest, |s.taken|, s.updated, packets, |s.taken| + n,
              if packets == [] then s.updated else |s.taken| + n);
    assert s.taken + (chunk[..n] + Flat(TookFrom(s.conn, n).0.buffer))
        == s.taken + chunk[..n] + Flat(TookFrom(s.conn, n).0.buffer);
  }

  lemma PayloadsNone(packets: seq<Packet>)
    requires packets == [] || exists x :: packets == [Packet([], x)]
    ensures Payloads(packets) == []
  {
  }

  /** What an honest guest has sent and the host not read fits the host's buffer. */
  lemma BufferBounded(s: Sys, limit: u32)
    requires Inv(s, limit) && s.conn.buffer != []
    ensures |s.conn.buffer[0]| <= BufAlloc
  {
    hide Plus, Reports, WriteSide, ReadSide, InFlightBack, InFlight;
  }

  // ---------------------------------------------------------------------------
  // Everything else

  lemma {:induction false} BackAdds(toHost: seq<ToHost>, p: ToHost)
    ensures InFlightBack(toHost + [p]) == InFlightBack(toHost) + p.payload
  {
    if toHost == [] {
      assert [p][1..] == [] && toHost + [p] == [p];
    } else {
      assert (toHost + [p])[1..] == toHost[1..] + [p];
      BackAdds(toHost[1..], p);
    }
  }

  lemma HostReceives(s: Sys, limit: u32)
    requires Inv(s, limit) && s.toHost != []
    ensures var t := Step(s, HostReceive);
            && WriteSide(t.conn, |t.written|, t.reported, limit)
            && Reports(t.toHost, t.reported, t.guest.consumed, limit)
  {
    hide Plus, Flat, InFlight, InFlightBack, ReadSide, Counts;
  }

  lemma HostReceiveKeeps(s: Sys, limit: u32)
    requires Inv(s, limit) && s.toHost != []
    ensures Inv(Step(s, HostReceive), limit)
  {
    hide Plus, WriteSide, Reports, Counts, GuestHonest, Flat, InFlight;
    HostReceives(s, limit);
    var p := s.toHost[0];
    if !s.conn.closed {
      if p.payload == [] {
        assert s.taken + Flat(s.conn.buffer) + (p.payload + InFlightBack(s.toHost[1..]))
            == s.taken + Flat(s.conn.buffer) + InFlightBack(s.toHost[1..]);
      } else {
        FlatAppend(s.conn.buffer, p.payload);
        assert s.taken + Flat(s.conn.buffer) + (p.payload + InFlightBack(s.toHost[1..]))
            == s.taken + (Flat(s.conn.buffer) + p.payload) + InFlightBack(s.toHost[1..]);
      }
    }
  }

  lemma GuestReceiveKeeps(s: Sys, limit: u32)
    requires Inv(s, limit) && s.toGuest != []
    ensures Inv(Step(s, GuestReceive), limit)
  {
    hide Plus, WriteSide, ReadSide, Reports, Flat, InFlightBack;
    var p := s.toGuest[0];
    assert s.guest.received + (p.packet.payload + InFlight(s.toGuest[1..]))
        == s.guest.received + p.packet.payload + InFlight(s.toGuest[1..]);
    CountReceived(s, limit);
  }

  lemma CountReceived(s: Sys, limit: u32)
    requires Inv(s, limit) && s.toGuest != []
    ensures var t := Step(s, GuestReceive);
            Counts(t.toGuest, t.guest, |t.taken|, t.updated) && GuestHonest(t.guest, limit)
  {
    hide Plus, WriteSide, ReadSide, Reports, Flat, InFlight, InFlightBack;
  }

  lemma GuestSendKeeps(s: Sys, payload: Bytes, limit: u32)
    requires Inv(s, limit) && Enabled(s, GuestSend(payload), limit)
    ensures Inv(Step(s, GuestSend(payload)), limit)
  {
    hide Plus, Minus, WriteSide, ReadSide, Flat, InFlight, InFlightBack;
    MinusIs(|s.guest.sent|, s.guest.known);
    var p := ToHost(s.guest.alloc, Plus(0, s.guest.consumed), payload, s.guest.consumed);
    BackAdds(s.toHost, p);
    if !s.conn.closed {
      assert s.taken + Flat(s.conn.buffer) + (InFlightBack(s.toHost) + payload) == s.guest.sent + payload;
    }
  }

  lemma AnswerKeeps(s: Sys, limit: u32)
    requires Inv(s, limit)
    ensures Inv(Step(s, AnswerCreditRequest), limit)
  {
    hide Plus, WriteSide, Reports, Counts, GuestHonest, Flat, InFlight, InFlightBack;
    var p := Packet([], s.conn.bytesRead);
    InFlightAdds(s.toGuest, [p], |s.taken|);
    assert Counted([p], |s.taken|) == [ToGuest(p, |s.taken|)];
    PayloadsNone([p]);
    CountsAdd(s.toGuest, s.guest, |s.taken|, s.updated, [p], |s.taken|, s.updated);
    assert InFlight(s.toGuest) + [] == InFlight(s.toGuest);
  }

  lemma StepKeeps(s: Sys, e: Event, limit: u32)
    requires Inv(s, limit) && Enabled(s, e, limit)
    ensures Inv(Step(s, e), limit)
  {
    match e
    case Write(data) => hide Inv, Step; WriteKeeps(s, data, limit);
    case Take(n) => hide Inv, Step, Enabled; TakeKeeps(s, n, limit);
    case AnswerCreditRequest => hide Inv, Step; AnswerKeeps(s, limit);
    case HostReceive => hide Inv, Step; HostReceiveKeeps(s, limit);
    case GuestReceive => hide Inv, Step; GuestReceiveKeeps(s, limit);
    case GuestSend(payload) => hide Inv, Step, Enabled; GuestSendKeeps(s, payload, limit);
    case _ => hide Plus, Flat, InFlight, InFlightBack;
  }

  lemma {:induction false} RunKeeps(s: Sys, events: seq<Event>, limit: u32)
    requires Inv(s, limit) && Run(s, events, limit)
    ensures Inv(After(s, events), limit)
    decreases |events|
  {
    hide Inv, Step, Enabled;
    if events != [] {
      StepKeeps(s, events[0], limit);
      RunKeeps(Step(s, events[0]), events[1..], limit);
    }
  }

  lemma InitialInv(alloc: u32, limit: u32)
    requires alloc <= limit
    ensures Inv(Initial(alloc), limit)
  {
  }

  /** In every run, each RW packet of a write fits, at its send, the buffer the guest last advertised. */
  lemma WritesFitTheCredit(alloc: u32, events: seq<Event>, data: Bytes, limit: u32)
    requires alloc <= limit && Run(Initial(alloc), events, limit)
    ensures var s := After(Initial(alloc), events);
            WithinCredit(Wrote(s.conn, data).1, |s.written|, s.reported, s.conn.peerAlloc)
    ensures var s := After(Initial(alloc), events);
            var (d, packets, rest) := Wrote(s.conn, data);
            && Payloads(packets) + rest == data
            && (rest != [] && !s.conn.closed ==> |s.written| + |Payloads(packets)| - s.reported >= s.conn.peerAlloc)
  {
    hide Initial, Run, After, Wrote, WithinCredit, Payloads, WriteSide;
    InitialInv(alloc, limit);
    RunKeeps(Initial(alloc), events, limit);
    var s := After(Initial(alloc), events);
    WroteCredits(s.conn, data, |s.written|, s.reported, limit);
  }

  /** A guest that never advertises more than some size never has to hold more than that. */
  lemma GuestBufferNeverOverflows(alloc: u32, events: seq<Event>, limit: u32)
    requires alloc <= limit && Run(Initial(alloc), events, limit)
    ensures var g := After(Initial(alloc), events).guest; |g.received| - g.consumed <= limit
  {
    hide Initial, Run, After, InFlight, InFlightBack, Flat, Counts;
    InitialInv(alloc, limit);
    RunKeeps(Initial(alloc), events, limit);
  }

  /** Both streams arrive in order, without loss or repetition. */
  lemma StreamsArriveInOrder(alloc: u32, events: seq<Event>, limit: u32)
    requires alloc <= limit && Run(Initial(alloc), events, limit)
    ensures var s := After(Initial(alloc), events); s.guest.received <= s.written && s.taken <= s.guest.sent
  {
    hide Initial, Run, After, InFlight, InFlightBack, Flat, Counts;
    InitialInv(alloc, limit);
    RunKeeps(Initial(alloc), events, limit);
  }

  /**
   And completely: once nothing is in flight to the guest it has received all that
   was written; and while the connection is open, once nothing is in flight to the
   host all that the guest sent has been read or is there to be read next.
   */
  lemma EverythingArrives(alloc: u32, events: seq<Event>, limit: u32)
    requires alloc <= limit && Run(Initial(alloc), events, limit)
    ensures var s := After(Initial(alloc), events);
            && (s.toGuest == [] ==> s.guest.received == s.written)
            && (s.toHost == [] && !s.conn.closed ==> s.taken + Flat(s.conn.buffer) == s.guest.sent)
  {
    hide Initial, Run, After, Counts;
    InitialInv(alloc, limit);
    RunKeeps(Initial(alloc), events, limit);
    var s := After(Initial(alloc), events);
    assert s.guest.received + [] == s.guest.received;
    assert s.taken + Flat(s.conn.buffer) + [] == s.taken + Flat(s.conn.buffer);
  }

  /** What each of the host's turns does to the streams, and when it ends them. */
  lemma HostMoves(s: Sys, e: Event, limit: u32)
    requires Enabled(s, e, limit)
    ensures var t := Step(s, e);
            match e
            case HostReceive =>
              && t.toHost == s.toHost[1..] && t.conn.closed == s.conn.closed
              && Flat(t.conn.buffer) == Flat(s.conn.buffer) + if s.conn.closed then [] else s.toHost[0].payload
            case Take(n) =>
              && n <= |Flat(s.conn.buffer)|
              && t.taken == s.taken + Flat(s.conn.buffer)[..n] && Flat(t.conn.buffer) == Flat(s.conn.buffer)[n..]
            case Close => t.conn.closed && t.conn.buffer == s.conn.buffer
            case Write(data) =>
              && s.written <= t.written <= s.written + data
              && (s.conn.closed ==> t.written == s.written && t.toGuest == s.toGuest)
            case _ => true
  {
    hide Plus, Minus, Flat, Wrote;
    match e
    case HostReceive =>
      var p := s.toHost[0];
      FlatAppend(s.conn.buffer, p.payload);
      assert Flat(s.conn.buffer) + [] == Flat(s.conn.buffer);
    case Take(n) =>
      TookIsPrefix(s.conn, n);
      var rest := Flat(TookFrom(s.conn, n).0.buffer);
      assert (s.conn.buffer[0][..n] + rest)[..n] == s.conn.buffer[0][..n];
      assert (s.conn.buffer[0][..n] + rest)[n..] == rest;
    case Write(data) =>
      WroteSplits(s.conn, data);
      WroteStops(s.conn, data);
      hide Payloads;
      assert s.written + data == s.written + Payloads(Wrote(s.conn, data).1) + Wrote(s.conn, data).2;
      if s.conn.closed { NothingSent(s); }
    case _ =>
  }

  lemma NothingSent(s: Sys)
    ensures s.written + Payloads([]) == s.written && s.toGuest + Counted([], |s.taken|) == s.toGuest
  {
  }

  lemma {:induction false} WroteSplits(c: Conn, data: Bytes)
    ensures Payloads(Wrote(c, data).1) + Wrote(c, data).2 == data
    decreases |data|
  {
    hide Plus, Minus, Available, Min, Wrote;
    WroteStops(c, data);
    if data != [] && !c.closed && Available(c) > 0 {
      MinIs(MaxPayload, Available(c));
      MinIs(Min(MaxPayload, Available(c)), |data|);
      var n := Min(Min(MaxPayload, Available(c)), |data|);
      WroteStep(c, data, n);
      var next := c.(bytesWritten := Plus(c.bytesWritten, n));
      WroteSplits(next, data[n..]);
      var more, rest := Wrote(next, data[n..]).1, Wrote(next, data[n..]).2;
      var packets := Wrote(c, data).1;
      assert packets[1..] == more;
      assert Payloads(packets) + rest == data[..n] + (Payloads(more) + rest);
    } else {
      assert [] + data == data;
    }
  }

  /**
   In every run, reading on sends a credit update exactly when a quarter of the
   buffer has been read since the last.
   */
  lemma UpdatesExactly(alloc: u32, events: seq<Event>, n: nat, limit: u32)
    requires alloc <= limit && Run(Initial(alloc), events, limit)
             && Enabled(After(Initial(alloc), events), Take(n), limit)
    ensures var s := After(Initial(alloc), events);
            var due := |s.taken| + n - s.updated >= 64 * 1024;
            && Step(s, Take(n)).updated == (if due then |s.taken| + n else s.updated)
            && Step(s, Take(n)).toGuest
               == s.toGuest + if due then [ToGuest(Packet([], (|s.taken| + n) % 0x1_0000_0000), |s.taken| + n)] else []
  {
    hide Initial, Run, After, Reports, WriteSide, Streams, Counts, Flat;
    InitialInv(alloc, limit);
    RunKeeps(Initial(alloc), events, limit);
    var s := After(Initial(alloc), events);
    BufferBounded(s, limit);
    UpdateDue(s.conn, |s.taken|, s.updated, n);
    var packets := TookFrom(s.conn, n).1;
    assert |s.taken + s.conn.buffer[0][..n]| == |s.taken| + n;
    if packets != [] {
      assert Counted(packets, |s.taken| + n) == [ToGuest(packets[0], |s.taken| + n)];
    } else {
      assert Counted(packets, |s.taken| + n) == [];
    }
  }

  lemma UpdateDue(c: Conn, taken: nat, updated: nat, n: nat)
    requires ReadSide(c, taken, updated) && c.buffer != [] && n <= |c.buffer[0]| && n < Modulus - UpdateEvery
    ensures TookFrom(c, n).1
         == if taken + n - updated >= 64 * 1024 then [Packet([], (taken + n) % 0x1_0000_0000)] else []
  {
    PlusIs(taken, n);
    MinusIs(taken + n, updated);
    hide Minus;
  }

  /** A guest all of whose data has been read, and to which nothing is in flight, has over 192 KiB of credit. */
  lemma ReadGuestHasCredit(alloc: u32, events: seq<Event>, limit: u32)
    requires alloc <= limit && Run(Initial(alloc), events, limit)
    requires var s := After(Initial(alloc), events); s.taken == s.guest.sent && s.toGuest == []
    ensures BufAlloc - GuestUsed(After(Initial(alloc), events).guest) > 192 * 1024
  {
    hide Initial, Run, After, InFlight, InFlightBack, Flat, Plus, Minus;
    InitialInv(alloc, limit);
    RunKeeps(Initial(alloc), events, limit);
    var s := After(Initial(alloc), events);
    MinusIs(|s.guest.sent|, s.guest.known);
  }

  // ---------------------------------------------------------------------------
  // The credit is the guest's latest word

  /** The size and count that the newest report on its way gives, or else the host has. */
  function LastReport(toHost: seq<ToHost>, alloc: u32, reported: nat): (u32, nat)
  {
    if toHost == [] then (alloc, reported) else (toHost[|toHost| - 1].alloc, toHost[|toHost| - 1].count)
  }

  predicate UpToDate(s: Sys)
  {
    LastReport(s.toHost, s.conn.peerAlloc, s.reported) == (s.guest.toldAlloc, s.guest.toldCount)
  }

  lemma {:induction false} WroteKeepsCredit(c: Conn, data: Bytes)
    ensures Wrote(c, data).0.peerAlloc == c.peerAlloc
    decreases |data|
  {
    hide Plus, Minus, Available, Min;
    WroteStops(c, data);
    if data != [] && !c.closed && Available(c) > 0 {
      MinIs(MaxPayload, Available(c));
      MinIs(Min(MaxPayload, Available(c)), |data|);
      var n := Min(Min(MaxPayload, Available(c)), |data|);
      WroteStep(c, data, n);
      WroteKeepsCredit(c.(bytesWritten := Plus(c.bytesWritten, n)), data[n..]);
    }
  }

  lemma StepUpToDate(s: Sys, e: Event)
    requires UpToDate(s)
    ensures UpToDate(Step(s, e))
  {
    hide Plus, Minus, Wrote, Payloads, Counted;
    if e.Write? { WroteKeepsCredit(s.conn, e.data); }
  }

  lemma {:induction false} RunUpToDate(s: Sys, events: seq<Event>, limit: u32)
    requires UpToDate(s) && Run(s, events, limit)
    ensures UpToDate(After(s, events))
    decreases |events|
  {
    hide UpToDate, Step, Enabled;
    if events != [] {
      StepUpToDate(s, events[0]);
      RunUpToDate(Step(s, events[0]), events[1..], limit);
    }
  }

  /**
   In every run, once the guest's reports have arrived, the host's credit is the
   size the guest advertised last, less what has been written since the count it
   reported last. So a guest that reports having consumed everything gives it all.
   */
  lemma CreditIsTheGuestsLatest(alloc: u32, events: seq<Event>, limit: u32)
    requires alloc <= limit && Run(Initial(alloc), events, limit) && After(Initial(alloc), events).toHost == []
    ensures var s := After(Initial(alloc), events);
            var out := |s.written| - s.guest.toldCount;
            && 0 <= out && Available(s.conn) == if s.guest.toldAlloc > out then s.guest.toldAlloc - out else 0
  {
    hide Initial, Run, After, Reports, ReadSide, Streams, Counts, Plus, Minus, Available;
    InitialInv(alloc, limit);
    InitialUpToDate(alloc);
    RunKeeps(Initial(alloc), events, limit);
    RunUpToDate(Initial(alloc), events, limit);
    var s := After(Initial(alloc), events);
    AvailableIs(s.conn, |s.written|, s.reported, limit);
  }

  lemma InitialUpToDate(alloc: u32)
    ensures UpToDate(Initial(alloc))
  {
  }

  /** Whoever asks for credit is sent what the reader has taken so far, and nothing else changes. */
  lemma CreditRequestAnswered(alloc: u32, events: seq<Event>, limit: u32)
    requires alloc <= limit && Run(Initial(alloc), events, limit)
    ensures var s := After(Initial(alloc), events);
            Step(s, AnswerCreditRequest)
            == s.(toGuest := s.toGuest + [ToGuest(Packet([], |s.taken| % 0x1_0000_0000), |s.taken|)])
  {
    hide Initial, Run, After, Reports, WriteSide, Streams, Counts;
    InitialInv(alloc, limit);
    RunKeeps(Initial(alloc), events, limit);
  }

  /** A write sends its data in packets of at most 2048 bytes, each with the count read so far. */
  lemma {:induction false} PacketsAreSmall(c: Conn, data: Bytes)
    ensures forall i :: 0 <= i < |Wrote(c, data).1| ==>
                          0 < |Wrote(c, data).1[i].payload| <= 2048 && Wrote(c, data).1[i].fwdCnt == c.bytesRead
    decreases |data|
  {
    hide Plus, Minus, Available, Min;
    WroteStops(c, data);
    if data != [] && !c.closed && Available(c) > 0 {
      MinIs(MaxPayload, Available(c));
      MinIs(Min(MaxPayload, Available(c)), |data|);
      var n := Min(Min(MaxPayload, Available(c)), |data|);
      WroteStep(c, data, n);
      PacketsAreSmall(c.(bytesWritten := Plus(c.bytesWritten, n)), data[n..]);
    }
  }
}
