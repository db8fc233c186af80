/** When a datagram is complete, and where every byte of a returned packet comes from. */
module ReassemblyBytes {
  import opened Wrappers
  import opened BigEndian
  import opened IpPacket
  import opened Reassembly

  predicate CoversByte(p: Piece, k: nat)
  {
    p.offset <= k < End(p)
  }

  predicate Covered(pieces: seq<Piece>, k: nat)
  {
    exists i :: 0 <= i < |pieces| && CoversByte(pieces[i], k)
  }

  predicate AllCovered(pieces: seq<Piece>, from: nat, to: nat)
  {
    forall k :: from <= k < to ==> Covered(pieces, k)
  }

  /** Sorted pieces within the length lie end to end exactly when they leave no byte uncovered. */
  lemma {:induction false} TilingIffCovered(pieces: seq<Piece>, from: nat, to: nat)
    requires Sorted(pieces) && NonEmpty(pieces) && Within(pieces, to) && from <= to
    requires pieces != [] ==> from <= pieces[0].offset
    ensures Tiling(pieces, from, to) <==> AllCovered(pieces, from, to)
  {
    if pieces == [] {
      if from < to { assert !Covered(pieces, from); }
    } else {
      var rest := pieces[1..];
      var end := End(pieces[0]);
      TilingIffCovered(rest, end, to);
      forall k: nat | end <= k ensures Covered(pieces, k) <==> Covered(rest, k) {
        if Covered(rest, k) {
          var i :| 0 <= i < |rest| && CoversByte(rest[i], k);
          assert CoversByte(pieces[i + 1], k);
        }
        if Covered(pieces, k) {
          var i :| 0 <= i < |pieces| && CoversByte(pieces[i], k);
          assert CoversByte(rest[i - 1], k);
        }
      }
      if AllCovered(pieces, from, to) {
        assert Covered(pieces, from);
      } else if pieces[0].offset == from {
        var k :| from <= k < to && !Covered(pieces, k);
        assert !CoversByte(pieces[0], k);
      }
    }
  }

  /** Joining a tiling puts every piece at its own offset. */
  lemma {:induction false} TilingHolds(pieces: seq<Piece>, from: nat, to: nat, i: nat, before: Bytes)
    requires Tiling(pieces, from, to) && i < |pieces| && |before| == from
    ensures Holds(before + Joined(pieces), pieces[i])
  {
    var p, rest := pieces[0], pieces[1..];
    assert before + Joined(pieces) == (before + p.payload) + Joined(rest);
    if i > 0 {
      TilingHolds(rest, End(p), to, i - 1, before + p.payload);
    }
  }

  lemma {:induction false} JoinedLength(pieces: seq<Piece>, from: nat, to: nat)
    requires Tiling(pieces, from, to)
    ensures from <= to && |Joined(pieces)| == to - from
  {
    if pieces != [] {
      JoinedLength(pieces[1..], End(pieces[0]), to);
    }
  }

  /** The length that is known once f has been taken in. */
  function LengthAfter(total: Option<nat>, f: Fragment): Option<nat>
  {
    if f.moreFragments then total else Some(f.offset + |f.payload|)
  }

  predicate CoveredWith(pieces: seq<Piece>, f: Fragment, to: nat)
  {
    forall k :: 0 <= k < to ==> CoversByte(PieceOf(f), k) || Covered(pieces, k)
  }

  lemma CoveredWithIsAllCovered(pieces: seq<Piece>, all: seq<Piece>, f: Fragment, to: nat)
    requires forall q :: q in all <==> q == PieceOf(f) || q in pieces
    ensures CoveredWith(pieces, f, to) <==> AllCovered(all, 0, to)
  {
    forall k: nat ensures Covered(all, k) <==> CoversByte(PieceOf(f), k) || Covered(pieces, k) {
      if Covered(all, k) {
        var i :| 0 <= i < |all| && CoversByte(all[i], k);
        assert all[i] in all;
      }
      if CoversByte(PieceOf(f), k) {
        assert PieceOf(f) in all;
        var i :| 0 <= i < |all| && all[i] == PieceOf(f);
      }
      if Covered(pieces, k) {
        var i :| 0 <= i < |pieces| && CoversByte(pieces[i], k);
        assert pieces[i] in all;
        var j :| 0 <= j < |all| && all[j] == pieces[i];
      }
    }
  }

  /**
   A fragment that is taken in completes its datagram exactly when the length
   is known and every byte below it has arrived, and then the datagram is the
   pieces that were held and the fragment, each at its own offset.
   */
  lemma CompleteIffCovered(pieces: seq<Piece>, total: Option<nat>, f: Fragment)
    requires PiecesOk(pieces, total) && Parsed(f) && f.payload != []
    requires Judge(pieces, total, f).Kept? || Judge(pieces, total, f).Complete?
    ensures Judge(pieces, total, f).Complete? <==>
            LengthAfter(total, f).Some? && CoveredWith(pieces, f, LengthAfter(total, f).value)
    ensures Judge(pieces, total, f).Complete? ==>
              && Tiling(Inserted(pieces, PieceOf(f)), 0, |Judge(pieces, total, f).payload|)
              && Judge(pieces, total, f).payload == Joined(Inserted(pieces, PieceOf(f)))
  {
    hide Sorted, NonEmpty, Within, Inserted, Tiling, Joined, OverlapsAny, BeyondAny, CoveredWith, AllCovered;
    var p := PieceOf(f);
    var all := Inserted(pieces, p);
    var length := LengthAfter(total, f);
    if length.Some? {
      WithinLength(pieces, total, f);
      InsertedOk(pieces, p, length.value);
      OffsetsNonNegative(all, length.value);
      CoveredWithIsAllCovered(pieces, all, f, length.value);
      if Tiling(all, 0, length.value) { JoinedLength(all, 0, length.value); }
    }
  }

  lemma OffsetsNonNegative(all: seq<Piece>, to: nat)
    requires Sorted(all) && NonEmpty(all) && Within(all, to)
    ensures Tiling(all, 0, to) <==> AllCovered(all, 0, to)
  {
    TilingIffCovered(all, 0, to);
  }

  lemma WithinLength(pieces: seq<Piece>, total: Option<nat>, f: Fragment)
    requires PiecesOk(pieces, total) && Parsed(f) && f.payload != []
    requires Judge(pieces, total, f).Kept? || Judge(pieces, total, f).Complete?
    ensures LengthAfter(total, f).Some? ==>
              Within(pieces, LengthAfter(total, f).value) && End(PieceOf(f)) <= LengthAfter(total, f).value
  {
    hide Sorted, NonEmpty, Within, Inserted, Tiling, Joined, OverlapsAny, BeyondAny;
    var p := PieceOf(f);
    if !f.moreFragments {
      InsertedOk(pieces, p, if total.Some? then total.value else MaxPayload);
      BeyondSubset(pieces, Inserted(pieces, p), End(p));
      BeyondNoneWithin(pieces, p);
    }
  }

  // ---------------------------------------------------------------------------
  // Provenance over a run

  /** Every fragment delivered in a run, as its key and its piece. */
  function Heard(events: seq<Event>): set<(Key, Piece)>
  {
    if events == [] then {}
    else
      var e := events[|events| - 1];
      Heard(events[..|events| - 1]) + if e.Deliver? then {(KeyOf(e.fragment), PieceOf(e.fragment))} else {}
  }

  predicate Sourced(table: seq<Entry>, heard: set<(Key, Piece)>)
  {
    forall i, j :: 0 <= i < |table| && 0 <= j < |table[i].pieces| ==> (table[i].key, table[i].pieces[j]) in heard
  }

  lemma SourcedWithout(s: State, key: Key, heard: set<(Key, Piece)>)
    requires Sourced(s.table, heard)
    ensures Sourced(Discarded(s, key).table, heard)
  {
    var i := IndexOf(s.table, key);
    if i < |s.table| {
      assert forall j :: 0 <= j < |s.table| - 1 ==> Without(s.table, i)[j] == s.table[if j < i then j else j + 1];
    }
  }

  lemma SourcedOpened(s: State, key: Key, heard: set<(Key, Piece)>)
    requires Sourced(s.table, heard)
    ensures Sourced(Opened(s, key).table, heard)
  {
    hide Discarded;
    if !Has(s, key) && |s.table| == MaxReassemblies {
      SourcedWithout(s, s.table[0].key, heard);
    }
  }

  lemma {:induction false} SourcedDropped(s: State, source: Option<u32>, i: nat, heard: set<(Key, Piece)>)
    requires Sourced(s.table, heard) && i <= |s.table|
    ensures Sourced(Dropped(s, source, i).table, heard)
    decreases |s.table| - i
  {
    hide Sourced, Discarded;
    if i < |s.table| {
      if source == None || source == Some(s.table[i].key.source) {
        SourcedWithout(s, s.table[i].key, heard);
        DiscardedShrinks(s, i);
        SourcedDropped(Discarded(s, s.table[i].key), source, i, heard);
      } else {
        SourcedDropped(s, source, i + 1, heard);
      }
    }
  }

  lemma SourcedReplaced(t: State, i: nat, pieces: seq<Piece>, total: Option<nat>, heard: set<(Key, Piece)>)
    requires Sourced(t.table, heard) && i < |t.table|
    requires forall q :: q in pieces ==> (t.table[i].key, q) in heard
    ensures Sourced(t.table[i := t.table[i].(pieces := pieces, total := total)], heard)
  {
  }

  lemma SourcedInserted(t: State, i: nat, f: Fragment, heard: set<(Key, Piece)>)
    requires Inv(t) && Sourced(t.table, heard) && i < |t.table| && t.table[i].key == KeyOf(f) && Parsed(f)
             && f.payload != []
    requires (KeyOf(f), PieceOf(f)) in heard
    requires var v := Judge(t.table[i].pieces, t.table[i].total, f); v.Kept? || v.Complete?
    ensures forall q :: q in Inserted(t.table[i].pieces, PieceOf(f)) ==> (KeyOf(f), q) in heard
  {
    var e := t.table[i];
    EntryPiecesOk(t, i);
    hide Inv, Sorted, NonEmpty, Within, Inserted, Tiling, OverlapsAny, BeyondAny;
    InsertedOk(e.pieces, PieceOf(f), if e.total.Some? then e.total.value else MaxPayload);
    forall q | q in e.pieces ensures (KeyOf(f), q) in heard {
      var j :| 0 <= j < |e.pieces| && e.pieces[j] == q;
    }
  }

  lemma SourcedJudged(t: State, i: nat, f: Fragment, heard: set<(Key, Piece)>)
    requires Inv(t) && Sourced(t.table, heard) && i < |t.table| && t.table[i].key == KeyOf(f) && Parsed(f)
             && f.payload != []
    requires (KeyOf(f), PieceOf(f)) in heard
    ensures Sourced(Judged(t, i, f).0.table, heard)
  {
    hide Inv, Sourced, Discarded, Inserted, Tiling, Joined, OverlapsAny, BeyondAny;
    SourcedWithout(t, t.table[i].key, heard);
    var v := Judge(t.table[i].pieces, t.table[i].total, f);
    if v.Kept? {
      SourcedInserted(t, i, f, heard);
      SourcedReplaced(t, i, v.pieces, v.total, heard);
    }
  }

  lemma SourcedDelivered(s: State, f: Fragment, heard: set<(Key, Piece)>)
    requires Inv(s) && Sourced(s.table, heard) && Parsed(f) && (KeyOf(f), PieceOf(f)) in heard
    ensures Sourced(Delivered(s, f).0.table, heard)
  {
    hide Inv, Sourced, Discarded, Opened, Judged;
    var key := KeyOf(f);
    SourcedWithout(s, key, heard);
    OpenedHas(s, key);
    OpenedKeeps(s, key);
    SourcedOpened(s, key, heard);
    if f.offset != 0 || f.moreFragments {
      var t := Opened(s, key);
      SourcedJudged(t, IndexOf(t.table, key), f, heard);
    }
  }

  lemma SourcedExpired(s: State, timer: nat, heard: set<(Key, Piece)>)
    requires Sourced(s.table, heard)
    ensures Sourced(Expired(s, timer).table, heard)
  {
    hide Sourced, Discarded;
    if timer in s.armed {
      SourcedWithout(s.(armed := s.armed - {timer}), s.armed[timer], heard);
    }
  }

  lemma SourcedGrows(table: seq<Entry>, heard: set<(Key, Piece)>, more: set<(Key, Piece)>)
    requires Sourced(table, heard)
    ensures Sourced(table, heard + more)
  {
  }

  lemma {:induction false} TableIsSourced(events: seq<Event>)
    requires AllPossible(events)
    ensures Sourced(After(events).table, Heard(events))
  {
    if events != [] {
      var before, e := events[..|events| - 1], events[|events| - 1];
      TableIsSourced(before);
      TableStaysSound(before);
      hide Inv, Sourced, Delivered, Dropped, Expired;
      SourcedGrows(After(before).table, Heard(before), Heard(events));
      assert Heard(before) + Heard(events) == Heard(events);
      match e
      case Deliver(f) => SourcedDelivered(After(before), f, Heard(events));
      case Expire(timer) => SourcedExpired(After(before), timer, Heard(events));
      case Drop(source) => SourcedDropped(After(before), source, 0, Heard(events));
    }
  }

  /** The pieces that a packet returned for f is made of. */
  function Parts(s: State, f: Fragment): seq<Piece>
  {
    if f.offset == 0 && !f.moreFragments then [PieceOf(f)]
    else
      OpenedHas(s, KeyOf(f));
      Inserted(EntryOf(Opened(s, KeyOf(f)), KeyOf(f)).pieces, PieceOf(f))
  }

  /** The payload holds a piece's bytes at the piece's offset. */
  predicate Holds(payload: Bytes, p: Piece)
  {
    End(p) <= |payload| && payload[p.offset..End(p)] == p.payload
  }

  predicate MadeOf(payload: Bytes, parts: seq<Piece>)
  {
    && Sorted(parts)
    && AllCovered(parts, 0, |payload|)
    && forall i :: 0 <= i < |parts| ==> Holds(payload, parts[i])
  }

  lemma TilingMakes(parts: seq<Piece>, to: nat)
    requires Sorted(parts) && NonEmpty(parts) && Within(parts, to) && Tiling(parts, 0, to)
    ensures MadeOf(Joined(parts), parts)
  {
    hide AllCovered, Holds;
    TilingIffCovered(parts, 0, to);
    JoinedLength(parts, 0, to);
    forall i | 0 <= i < |parts| ensures Holds(Joined(parts), parts[i]) {
      TilingHolds(parts, 0, to, i, []);
      assert [] + Joined(parts) == Joined(parts);
    }
  }

  lemma WholeMakes(p: Piece)
    requires p.offset == 0
    ensures MadeOf(p.payload, [p])
  {
    forall k: nat | k < |p.payload| ensures Covered([p], k) {
      assert CoversByte([p][0], k);
    }
    assert Holds(p.payload, p);
  }

  /**
   Over any run, a packet that reassembly returns carries the addresses of the
   fragment that completed it, and each of its bytes is covered by exactly one
   of its parts, each of which was delivered under the same key, and whose
   bytes the packet holds at their own offset.
   */
  lemma ReturnedPacketIsDelivered(events: seq<Event>, f: Fragment)
    requires AllPossible(events) && Parsed(f)
    requires Delivered(After(events), f).1.Some?
    ensures var packet := Delivered(After(events), f).1.value;
            var parts := Parts(After(events), f);
            && packet == Packet(f.source, f.destination, f.protocol, packet.payload)
            && MadeOf(packet.payload, parts)
            && forall q :: q in parts ==> (KeyOf(f), q) in Heard(events + [Deliver(f)])
  {
    var s, key := After(events), KeyOf(f);
    var all := events + [Deliver(f)];
    assert all[..|all| - 1] == events;
    TableStaysSound(events);
    TableIsSourced(events);
    hide Inv, Sourced, MadeOf, Opened, Discarded, Judge, Inserted;
    if f.offset == 0 && !f.moreFragments {
      WholeMakes(PieceOf(f));
    } else {
      OpenedHas(s, key);
      OpenedKeeps(s, key);
      SourcedGrows(s.table, Heard(events), {(key, PieceOf(f))});
      SourcedOpened(s, key, Heard(all));
      CompletedMakes(Opened(s, key), IndexOf(Opened(s, key).table, key), f, Heard(all));
    }
  }

  lemma CompletedMakes(t: State, i: nat, f: Fragment, heard: set<(Key, Piece)>)
    requires Inv(t) && i < |t.table| && t.table[i].key == KeyOf(f) && Parsed(f) && f.payload != []
    requires Sourced(t.table, heard) && (KeyOf(f), PieceOf(f)) in heard
    requires Judged(t, i, f).1.Some?
    ensures MadeOf(Judged(t, i, f).1.value.payload, Inserted(t.table[i].pieces, PieceOf(f)))
    ensures forall q :: q in Inserted(t.table[i].pieces, PieceOf(f)) ==> (KeyOf(f), q) in heard
  {
    hide Inv, Sourced, MadeOf, Inserted, Judge, Within, Sorted, NonEmpty, Tiling;
    var e := t.table[i];
    EntryPiecesOk(t, i);
    SourcedInserted(t, i, f, heard);
    CompleteIffCovered(e.pieces, e.total, f);
    WithinLength(e.pieces, e.total, f);
    PartsOk(e.pieces, e.total, f);
    TilingMakes(Inserted(e.pieces, PieceOf(f)), LengthAfter(e.total, f).value);
  }

  lemma PartsOk(pieces: seq<Piece>, total: Option<nat>, f: Fragment)
    requires PiecesOk(pieces, total) && Parsed(f) && f.payload != [] && Judge(pieces, total, f).Complete?
    ensures var parts := Inserted(pieces, PieceOf(f));
            && LengthAfter(total, f).Some?
            && Sorted(parts) && NonEmpty(parts) && Within(parts, LengthAfter(total, f).value)
            && Tiling(parts, 0, LengthAfter(total, f).value)
  {
    hide Sorted, NonEmpty, Within, Inserted, Tiling, Joined, OverlapsAny, BeyondAny;
    WithinLength(pieces, total, f);
    InsertedOk(pieces, PieceOf(f), LengthAfter(total, f).value);
  }
}
