/** When a fragment is refused, and what makes a partial datagram go: exactly that, and nothing else. */
module ReassemblyFate {
  import opened Wrappers
  import opened BigEndian
  import opened IpPacket
  import opened Reassembly
  import opened ReassemblyBytes
  import opened FragmentRoundTrip

  predicate Whole(f: Fragment)
  {
    f.offset == 0 && !f.moreFragments
  }

  /** What has come under a key so far. */
  function PiecesFor(s: State, key: Key): seq<Piece>
  {
    if Has(s, key) then EntryOf(s, key).pieces else []
  }

  function LengthFor(s: State, key: Key): Option<nat>
  {
    if Has(s, key) then EntryOf(s, key).total else None
  }

  predicate SharesByte(pieces: seq<Piece>, p: Piece)
  {
    exists i :: 0 <= i < |pieces| && exists k: nat :: k < 0x1_0000 && CoversByte(pieces[i], k) && CoversByte(p, k)
  }

  predicate ReachesPast(pieces: seq<Piece>, end: nat)
  {
    exists i :: 0 <= i < |pieces| && End(pieces[i]) > end
  }

  /**
   The fragment cannot belong with what has come: the datagram would be too long
   for its header, or longer than its known length; or it is no repeat, and holds
   a byte that has come, is the 65th piece, or ends the datagram elsewhere than
   another piece did or before a piece that has come.
   */
  predicate Refused(pieces: seq<Piece>, total: Option<nat>, f: Fragment)
  {
    var end := f.offset + |f.payload|;
    || (f.offset == 0 && f.headerLength + end > 65535)
    || (total.Some? && end > total.value)
    || (PieceOf(f) !in pieces &&
        (SharesByte(pieces, PieceOf(f)) || |pieces| == 64
         || (!f.moreFragments && ((total.Some? && total.value != end) || ReachesPast(pieces, end)))))
  }

  lemma SharesIffOverlaps(pieces: seq<Piece>, p: Piece)
    requires NonEmpty(pieces) && p.payload != [] && End(p) <= MaxPayload
    ensures SharesByte(pieces, p) <==> OverlapsAny(pieces, p)
  {
    forall i | 0 <= i < |pieces|
      ensures Overlap(pieces[i], p)
         <==> exists k: nat :: k < 0x1_0000 && CoversByte(pieces[i], k) && CoversByte(p, k) {
      if Overlap(pieces[i], p) {
        var k := if p.offset < pieces[i].offset then pieces[i].offset else p.offset;
        assert CoversByte(pieces[i], k) && CoversByte(p, k);
      }
    }
  }

  lemma BeyondIffReaches(pieces: seq<Piece>, p: Piece)
    requires NonEmpty(pieces) && p.payload != [] && !OverlapsAny(pieces, p)
    ensures ReachesPast(pieces, End(p)) <==> BeyondAny(pieces, End(p))
  {
    forall i | 0 <= i < |pieces| ensures End(pieces[i]) > End(p) <==> pieces[i].offset >= End(p) {
      assert !Overlap(pieces[i], p);
    }
  }

  lemma BeyondWith(pieces: seq<Piece>, all: seq<Piece>, p: Piece)
    requires p.payload != [] && forall q :: q in all <==> q == p || q in pieces
    ensures BeyondAny(all, End(p)) <==> BeyondAny(pieces, End(p))
  {
    if BeyondAny(all, End(p)) {
      var i :| 0 <= i < |all| && all[i].offset >= End(p);
      assert all[i] in all;
      var j :| 0 <= j < |pieces| && pieces[j] == all[i];
    }
    if BeyondAny(pieces, End(p)) {
      var i :| 0 <= i < |pieces| && pieces[i].offset >= End(p);
      assert pieces[i] in pieces;
      var j :| 0 <= j < |all| && all[j] == pieces[i];
    }
  }

  /** Every verdict, exactly. */
  lemma JudgeExactly(pieces: seq<Piece>, total: Option<nat>, f: Fragment)
    requires PiecesOk(pieces, total) && Parsed(f) && f.payload != []
    ensures var v := Judge(pieces, total, f);
            && (v.Rejected? <==> Refused(pieces, total, f))
            && (v.Repeated? <==> !Refused(pieces, total, f) && PieceOf(f) in pieces)
            && (v.Complete? <==>
                && !Refused(pieces, total, f) && PieceOf(f) !in pieces
                && LengthAfter(total, f).Some? && CoveredWith(pieces, f, LengthAfter(total, f).value))
            && (v.Kept? ==>
                  && v.total == LengthAfter(total, f)
                  && forall q :: q in v.pieces <==> q == PieceOf(f) || q in pieces)
  {
    hide Sorted, Within, Inserted, Tiling, Joined, SharesByte, ReachesPast, CoveredWith, OverlapsAny, BeyondAny;
    var p := PieceOf(f);
    SharesIffOverlaps(pieces, p);
    if p in pieces {
      SelfOverlap(pieces, p);
    } else if !OverlapsAny(pieces, p) && End(p) <= (if total.Some? then total.value else MaxPayload) {
      InsertedOk(pieces, p, if total.Some? then total.value else MaxPayload);
      BeyondIffReaches(pieces, p);
      BeyondWith(pieces, Inserted(pieces, p), p);
    }
    var v := Judge(pieces, total, f);
    if v.Kept? || v.Complete? { CompleteIffCovered(pieces, total, f); }
  }

  // ---------------------------------------------------------------------------
  // One fragment

  /** An unfragmented packet is returned at once, whatever the table holds. */
  lemma WholeIsReturned(s: State, f: Fragment)
    requires Inv(s) && Whole(f)
    ensures Delivered(s, f).1 == Some(Packet(f.source, f.destination, f.protocol, f.payload))
    ensures !Has(Delivered(s, f).0, KeyOf(f))
  {
    hide Inv, Discarded;
    DiscardedKeeps(s, KeyOf(f));
  }

  lemma OpenedEntry(s: State, key: Key)
    requires Inv(s)
    ensures Has(Opened(s, key), key)
    ensures EntryOf(Opened(s, key), key).pieces == PiecesFor(s, key)
            && EntryOf(Opened(s, key), key).total == LengthFor(s, key)
  {
    OpenedHas(s, key);
    if !Has(s, key) {
      hide Inv, Discarded;
      var t := if |s.table| == MaxReassemblies then Discarded(s, s.table[0].key) else s;
      if |s.table| == MaxReassemblies && s.table[0].key != key { DiscardedLacks(s, s.table[0].key, key); }
      if |s.table| == MaxReassemblies { DiscardedKeeps(s, s.table[0].key); }
      IndexUnique(Admitted(s, key).table, key, |t.table|);
    }
  }

  /**
   A fragment of a larger packet: a packet is returned exactly if the fragment is
   not refused, brings new bytes, and with it the length is known and all bytes
   have come; and its entry stays exactly if it is neither refused nor the one
   that completes, with the new piece among the old ones.
   */
  lemma DeliveredExactly(s: State, f: Fragment)
    requires Inv(s) && Parsed(f) && !Whole(f)
    ensures var (t, r) := Delivered(s, f);
            var pieces, total := PiecesFor(s, KeyOf(f)), LengthFor(s, KeyOf(f));
            && (r.Some? <==>
                && !Refused(pieces, total, f) && PieceOf(f) !in pieces
                && LengthAfter(total, f).Some? && CoveredWith(pieces, f, LengthAfter(total, f).value))
            && (Has(t, KeyOf(f)) <==> !Refused(pieces, total, f) && r.None?)
            && (Has(t, KeyOf(f)) ==>
                  && (forall q :: q in EntryOf(t, KeyOf(f)).pieces <==> q == PieceOf(f) || q in pieces)
                  && EntryOf(t, KeyOf(f)).total == if PieceOf(f) in pieces then total else LengthAfter(total, f))
  {
    hide Inv, Discarded, Opened, Judge, Refused, PiecesFor, LengthFor, CoveredWith, LengthAfter;
    var key := KeyOf(f);
    OpenedEntry(s, key);
    OpenedKeeps(s, key);
    var u := Opened(s, key);
    var at := IndexOf(u.table, key);
    EntryPiecesOk(u, at);
    JudgeExactly(u.table[at].pieces, u.table[at].total, f);
    DiscardedKeeps(u, key);
    var v := Judge(u.table[at].pieces, u.table[at].total, f);
    if v.Kept? { IndexUnique(Judged(u, at, f).0.table, key, at); }
  }

  // ---------------------------------------------------------------------------
  // What becomes of an entry

  /** Another datagram's fragment costs an entry its place only if it is the oldest of 64. */
  lemma OtherGoesExactly(s: State, f: Fragment, key: Key)
    requires Inv(s) && Parsed(f) && Has(s, key) && KeyOf(f) != key
    ensures !Has(Delivered(s, f).0, key)
       <==> !Whole(f) && !Has(s, KeyOf(f)) && |s.table| == 64 && s.table[0].key == key
  {
    hide Inv, Discarded, Judge, Has;
    DiscardedLacks(s, KeyOf(f), key);
    if !Whole(f) {
      OpenedEntry(s, KeyOf(f));
      OpenedKeepsOther(s, KeyOf(f), key);
      var t := Opened(s, KeyOf(f));
      HasIndex(t, KeyOf(f));
      var i := IndexOf(t.table, KeyOf(f));
      DiscardedLacks(t, KeyOf(f), key);
      var v := Judge(t.table[i].pieces, t.table[i].total, f);
      if v.Kept? { ReplacedHas(t, i, v.pieces, v.total, key); }
    }
  }

  lemma HasIndex(s: State, key: Key)
    requires Has(s, key)
    ensures IndexOf(s.table, key) < |s.table|
  {
  }

  lemma ReplacedHas(t: State, i: nat, pieces: seq<Piece>, total: Option<nat>, key: Key)
    requires i < |t.table|
    ensures Has(t.(table := t.table[i := t.table[i].(pieces := pieces, total := total)]), key) <==> Has(t, key)
  {
    var u := t.table[i := t.table[i].(pieces := pieces, total := total)];
    IndexUnique(u, key, IndexOf(t.table, key));
  }

  lemma OpenedKeepsOther(s: State, other: Key, key: Key)
    requires Inv(s) && Has(s, key) && other != key
    ensures !Has(Opened(s, other), key) <==> !Has(s, other) && |s.table| == 64 && s.table[0].key == key
  {
    hide Inv, Discarded;
    if !Has(s, other) {
      if |s.table| == 64 {
        var gone := s.table[0].key;
        if gone == key { DiscardedKeeps(s, gone); } else { DiscardedLacks(s, gone, key); }
        AppendedHas(Discarded(s, gone), Entry(other, Discarded(s, gone).nextTimer, [], None), key);
      } else {
        AppendedHas(s, Entry(other, s.nextTimer, [], None), key);
      }
    }
  }

  lemma AppendedHas(s: State, e: Entry, key: Key)
    requires e.key != key
    ensures IndexOf(s.table + [e], key) < |s.table| + 1 <==> Has(s, key)
  {
    var t := s.table + [e];
    var i := IndexOf(s.table, key);
    IndexUnique(t, key, if i < |s.table| then i else |t|);
  }

  predicate Leaves(source: Option<u32>, key: Key)
  {
    source == None || source == Some(key.source)
  }

  lemma {:induction false} DroppedExactly(s: State, source: Option<u32>, i: nat, key: Key)
    requires Inv(s) && i <= |s.table| && forall j :: 0 <= j < i ==> !Leaves(source, s.table[j].key)
    ensures Has(Dropped(s, source, i), key) <==> Has(s, key) && !Leaves(source, key)
    decreases |s.table| - i
  {
    hide Inv, Discarded;
    if i < |s.table| {
      var gone := s.table[i].key;
      if Leaves(source, gone) {
        DiscardedShrinks(s, i);
        DiscardedKeeps(s, gone);
        if gone != key { DiscardedLacks(s, gone, key); }
        DiscardedBefore(s, i);
        DroppedExactly(Discarded(s, gone), source, i, key);
      } else {
        DroppedExactly(s, source, i + 1, key);
      }
    }
  }

  lemma DiscardedBefore(s: State, i: nat)
    requires Inv(s) && i < |s.table|
    ensures forall j :: 0 <= j < i && j < |Discarded(s, s.table[i].key).table| ==>
                          Discarded(s, s.table[i].key).table[j] == s.table[j]
  {
    hide EntriesOk, TimersOwned;
    IndexUnique(s.table, s.table[i].key, i);
  }

  /**
   A partial datagram goes exactly if a whole packet comes under its key, a
   fragment completes it or is refused, its own timer fires, its guest leaves or
   the network closes, or it is the oldest of 64 when another datagram begins.
   */
  lemma EntryGoesExactly(s: State, e: Event, key: Key)
    requires Inv(s) && Possible(e) && Has(s, key)
    ensures !Has(Apply(s, e), key)
       <==> match e
            case Deliver(f) =>
              if KeyOf(f) != key then !Whole(f) && !Has(s, KeyOf(f)) && |s.table| == 64 && s.table[0].key == key
              else Whole(f) || Delivered(s, f).1.Some?
                   || Refused(EntryOf(s, key).pieces, EntryOf(s, key).total, f)
            case Expire(timer) => timer == EntryOf(s, key).timer
            case Drop(source) => source == None || source == Some(key.source)
  {
    hide Inv, Delivered, Discarded, Dropped, Refused, EntryOf;
    match e
    case Deliver(f) =>
      if KeyOf(f) != key {
        OtherGoesExactly(s, f, key);
      } else if Whole(f) {
        WholeIsReturned(s, f);
      } else {
        DeliveredExactly(s, f);
      }
    case Expire(timer) =>
      OwnTimer(s, timer, key);
      if timer in s.armed {
        ExpiredIsDiscarded(s, timer);
        if s.armed[timer] == key { DiscardedKeeps(s, key); } else { DiscardedLacks(s, s.armed[timer], key); }
      }
    case Drop(source) => DroppedExactly(s, source, 0, key);
  }

  lemma OwnTimer(s: State, timer: nat, key: Key)
    requires Inv(s) && Has(s, key)
    ensures timer == EntryOf(s, key).timer <==> timer in s.armed && s.armed[timer] == key
  {
    hide EntriesOk;
    var i := IndexOf(s.table, key);
    if timer in s.armed && s.armed[timer] == key {
      assert OwnsTimer(s.table, timer);
      var j :| 0 <= j < |s.table| && s.table[j].timer == timer;
    }
  }

  // ---------------------------------------------------------------------------
  // The first entry is the oldest

  predicate InOrder(table: seq<Entry>)
  {
    forall i, j :: 0 <= i < j < |table| ==> table[i].timer < table[j].timer
  }

  lemma DiscardedInOrder(s: State, key: Key)
    requires InOrder(s.table)
    ensures InOrder(Discarded(s, key).table)
  {
    var i := IndexOf(s.table, key);
    if i < |s.table| {
      assert forall j :: 0 <= j < |s.table| - 1 ==> Without(s.table, i)[j] == s.table[if j < i then j else j + 1];
    }
  }

  lemma OpenedInOrder(s: State, key: Key)
    requires Inv(s) && InOrder(s.table)
    ensures InOrder(Opened(s, key).table)
  {
    if !Has(s, key) {
      hide Inv, InOrder, Discarded;
      var t := if |s.table| == MaxReassemblies then Discarded(s, s.table[0].key) else s;
      if |s.table| == MaxReassemblies {
        DiscardedInOrder(s, s.table[0].key);
        DiscardedKeeps(s, s.table[0].key);
      }
      AppendedInOrder(t, key);
    }
  }

  lemma AppendedInOrder(t: State, key: Key)
    requires Inv(t) && InOrder(t.table)
    ensures InOrder(t.table + [Entry(key, t.nextTimer, [], None)])
  {
    hide KeysDistinct, EntriesOk;
    forall i | 0 <= i < |t.table| ensures t.table[i].timer < t.nextTimer {
      assert t.table[i].timer in t.armed;
    }
  }

  lemma {:induction false} DroppedInOrder(s: State, source: Option<u32>, i: nat)
    requires InOrder(s.table) && i <= |s.table|
    ensures InOrder(Dropped(s, source, i).table)
    decreases |s.table| - i
  {
    hide InOrder, Discarded;
    if i < |s.table| {
      if source == None || source == Some(s.table[i].key.source) {
        DiscardedInOrder(s, s.table[i].key);
        DiscardedShrinks(s, i);
        DroppedInOrder(Discarded(s, s.table[i].key), source, i);
      } else {
        DroppedInOrder(s, source, i + 1);
      }
    }
  }

  lemma JudgedInOrder(t: State, i: nat, f: Fragment)
    requires InOrder(t.table) && i < |t.table|
    ensures InOrder(Judged(t, i, f).0.table)
  {
    hide Discarded, Judge;
    DiscardedInOrder(t, t.table[i].key);
  }

  lemma DeliveredInOrder(s: State, f: Fragment)
    requires Inv(s) && InOrder(s.table)
    ensures InOrder(Delivered(s, f).0.table)
  {
    hide Inv, InOrder, Discarded, Opened, Judged;
    DiscardedInOrder(s, KeyOf(f));
    OpenedInOrder(s, KeyOf(f));
    OpenedHas(s, KeyOf(f));
    var t := Opened(s, KeyOf(f));
    JudgedInOrder(t, IndexOf(t.table, KeyOf(f)), f);
  }

  /** Over all runs the table lists its entries in the order they were created, so that the first is the oldest. */
  lemma {:induction false} TableIsInOrder(events: seq<Event>)
    requires AllPossible(events)
    ensures InOrder(After(events).table)
  {
    hide Inv, Delivered, Dropped, Expired;
    if events != [] {
      var before, e := events[..|events| - 1], events[|events| - 1];
      TableIsInOrder(before);
      TableStaysSound(before);
      hide InOrder;
      match e
      case Deliver(f) => DeliveredInOrder(After(before), f);
      case Expire(timer) => ExpiredInOrder(After(before), timer);
      case Drop(source) => DroppedInOrder(After(before), source, 0);
    }
  }

  lemma ExpiredInOrder(s: State, timer: nat)
    requires InOrder(s.table)
    ensures InOrder(Expired(s, timer).table)
  {
    hide InOrder, Discarded;
    if timer in s.armed { DiscardedInOrder(s.(armed := s.armed - {timer}), s.armed[timer]); }
  }
}
