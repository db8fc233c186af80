/**
 The fragments send_ip cuts from one datagram, delivered in any order, any
 number of times, among fragments of other datagrams, timeouts and drops,
 reassemble to that datagram and to nothing else.
 */
module FragmentRoundTrip {
  import opened Wrappers
  import opened BigEndian
  import opened IpPacket
  import opened Reassembly

  datatype Datagram = Datagram(key: Key, payload: Bytes)

  /** A datagram that send_ip fragments. */
  predicate Fragmented(d: Datagram)
  {
    FragmentPayload < |d.payload| <= MaxPayload
  }

  function Count(d: Datagram): (n: nat)
    requires Fragmented(d)
    ensures FragmentPayload * (n - 1) < |d.payload| <= FragmentPayload * n && 2 <= n <= 45
  {
    CutCount(d.payload)
  }

  function CutOf(d: Datagram, i: nat): Fragment
    requires Fragmented(d) && i < Count(d)
  {
    Cut(d.key.source, d.key.destination, d.key.protocol, d.key.identification, d.payload, i)
  }

  function Start(d: Datagram, i: nat): nat
    requires Fragmented(d) && i <= Count(d)
  {
    if i == Count(d) then |d.payload| else FragmentPayload * i
  }

  lemma CutFacts(d: Datagram, i: nat)
    requires Fragmented(d) && i < Count(d)
    ensures var f := CutOf(d, i);
            && Parsed(f) && KeyOf(f) == d.key && f.headerLength == HeaderSize
            && f.offset == Start(d, i) && End(PieceOf(f)) == Start(d, i + 1) && f.payload != []
            && f.payload == d.payload[Start(d, i)..Start(d, i + 1)]
            && (f.moreFragments <==> i + 1 < Count(d))
            && !(f.offset == 0 && End(PieceOf(f)) + f.headerLength > 0xffff)
  {
  }

  /** The pieces of the cuts in got, from cut lo on, in order. */
  function Held(d: Datagram, got: set<nat>, lo: nat): seq<Piece>
    requires Fragmented(d) && lo <= Count(d)
    decreases Count(d) - lo
  {
    if lo == Count(d) then []
    else (if lo in got then [PieceOf(CutOf(d, lo))] else []) + Held(d, got, lo + 1)
  }

  function LengthKnown(d: Datagram, got: set<nat>): Option<nat>
    requires Fragmented(d)
  {
    if Count(d) - 1 in got then Some(|d.payload|) else None
  }

  /** Every cut from lo on is in got. */
  predicate AllGot(d: Datagram, got: set<nat>, lo: nat)
    requires Fragmented(d)
  {
    forall i :: lo <= i < Count(d) ==> i in got
  }

  lemma {:induction false} HeldPieces(d: Datagram, got: set<nat>, lo: nat, i: nat)
    requires Fragmented(d) && lo <= Count(d) && i < Count(d)
    ensures |Held(d, got, lo)| <= Count(d) - lo
    ensures lo <= i && i in got ==> PieceOf(CutOf(d, i)) in Held(d, got, lo)
    ensures i !in got ==> !OverlapsAny(Held(d, got, lo), PieceOf(CutOf(d, i)))
    ensures !BeyondAny(Held(d, got, lo), |d.payload|)
    decreases Count(d) - lo
  {
    hide CutOf, CutCount;
    if lo < Count(d) {
      HeldPieces(d, got, lo + 1, i);
      CutFacts(d, lo);
      CutFacts(d, i);
    }
  }

  lemma {:induction false} HeldStartsAfter(d: Datagram, got: set<nat>, lo: nat)
    requires Fragmented(d) && lo <= Count(d)
    ensures Held(d, got, lo) != [] ==>
              Held(d, got, lo)[0].offset >= Start(d, lo) && End(Held(d, got, lo)[0]) > Start(d, lo)
    decreases Count(d) - lo
  {
    if lo < Count(d) {
      HeldStartsAfter(d, got, lo + 1);
      CutFacts(d, lo);
    }
  }

  lemma {:induction false} HeldSame(d: Datagram, got: set<nat>, i: nat, lo: nat)
    requires Fragmented(d) && i < lo <= Count(d)
    ensures Held(d, got + {i}, lo) == Held(d, got, lo)
    decreases Count(d) - lo
  {
    if lo < Count(d) { HeldSame(d, got, i, lo + 1); }
  }

  lemma InsertedSkips(a: Piece, rest: seq<Piece>, p: Piece)
    requires End(a) <= p.offset
    ensures Inserted([a] + rest, p) == [a] + Inserted(rest, p)
  {
    assert ([a] + rest)[1..] == rest;
  }

  /** Inserting a missing cut gives the pieces of the larger set. */
  lemma {:induction false} HeldInserted(d: Datagram, got: set<nat>, i: nat, lo: nat)
    requires Fragmented(d) && lo <= i < Count(d) && i !in got
    ensures Inserted(Held(d, got, lo), PieceOf(CutOf(d, i))) == Held(d, got + {i}, lo)
    decreases Count(d) - lo
  {
    hide CutOf, CutCount;
    var p := PieceOf(CutOf(d, i));
    CutFacts(d, i);
    if lo == i {
      HeldSame(d, got, i, lo + 1);
      HeldStartsAfter(d, got, lo + 1);
    } else {
      CutFacts(d, lo);
      HeldInserted(d, got, i, lo + 1);
      var rest := Held(d, got, lo + 1);
      if lo in got {
        InsertedSkips(PieceOf(CutOf(d, lo)), rest, p);
        assert lo in got + {i};
      } else {
        assert lo !in got + {i};
        assert [] + rest == rest;
      }
    }
  }

  lemma TilingHead(a: Piece, rest: seq<Piece>, to: nat)
    ensures Tiling([a] + rest, a.offset, to) <==> Tiling(rest, End(a), to)
    ensures Joined([a] + rest) == a.payload + Joined(rest)
  {
    assert ([a] + rest)[1..] == rest;
  }

  lemma SliceJoins(b: Bytes, i: nat, j: nat)
    requires i <= j <= |b|
    ensures b[i..] == b[i..j] + b[j..]
  {
  }

  /** The held pieces lie end to end exactly when no cut is missing, and then they join to the payload. */
  lemma {:induction false} HeldTiles(d: Datagram, got: set<nat>, lo: nat)
    requires Fragmented(d) && lo <= Count(d)
    ensures Tiling(Held(d, got, lo), Start(d, lo), |d.payload|) <==> AllGot(d, got, lo)
    ensures AllGot(d, got, lo) ==> Joined(Held(d, got, lo)) == d.payload[Start(d, lo)..]
    decreases Count(d) - lo
  {
    hide CutOf, CutCount;
    if lo < Count(d) {
      HeldTiles(d, got, lo + 1);
      CutFacts(d, lo);
      if lo in got {
        TilingHead(PieceOf(CutOf(d, lo)), Held(d, got, lo + 1), |d.payload|);
        assert AllGot(d, got, lo) <==> AllGot(d, got, lo + 1);
        SliceJoins(d.payload, Start(d, lo), Start(d, lo + 1));
      } else {
        assert !AllGot(d, got, lo);
        HeldStartsAfter(d, got, lo + 1);
        assert [] + Held(d, got, lo + 1) == Held(d, got, lo + 1);
      }
    }
  }

  /** What one more cut does to an entry that holds the cuts in got. */
  lemma JudgeCut(d: Datagram, got: set<nat>, i: nat)
    requires Fragmented(d) && i < Count(d)
    ensures Judge(Held(d, got, 0), LengthKnown(d, got), CutOf(d, i))
         == if i in got then Repeated
            else if AllGot(d, got + {i}, 0) then Complete(d.payload)
            else Kept(Held(d, got + {i}, 0), LengthKnown(d, got + {i}))
  {
    hide Held, Tiling, Joined, Inserted, OverlapsAny, BeyondAny, AllGot, CutOf;
    var f := CutOf(d, i);
    CutFacts(d, i);
    HeldPieces(d, got, 0, i);
    if i in got {
      SelfOverlap(Held(d, got, 0), PieceOf(f));
    } else {
      HeldInserted(d, got, i, 0);
      HeldPieces(d, got + {i}, 0, i);
      HeldTiles(d, got + {i}, 0);
      LengthNeeded(d, got + {i});
      assert d.payload[0..] == d.payload;
    }
  }

  lemma SelfOverlap(pieces: seq<Piece>, p: Piece)
    requires p in pieces && p.payload != []
    ensures OverlapsAny(pieces, p)
  {
    var i :| 0 <= i < |pieces| && pieces[i] == p;
    assert Overlap(pieces[i], p);
  }

  lemma LengthNeeded(d: Datagram, got: set<nat>)
    requires Fragmented(d)
    ensures AllGot(d, got, 0) ==> Count(d) - 1 in got
  {
  }

  // ---------------------------------------------------------------------------
  // Other datagrams

  /** Whatever happened, a datagram's entry is as it was or gone. */
  predicate SameOrGone(s: State, t: State, key: Key)
  {
    Has(t, key) ==> Has(s, key) && EntryOf(t, key) == EntryOf(s, key)
  }

  lemma DiscardedSameOrGone(s: State, gone: Key, key: Key)
    requires Inv(s)
    ensures SameOrGone(s, Discarded(s, gone), key)
  {
    hide Inv, Discarded;
    if gone == key { DiscardedKeeps(s, key); } else { DiscardedLacks(s, gone, key); }
  }

  lemma AppendedSameOrGone(s: State, e: Entry, armed: map<nat, Key>, next: nat, key: Key)
    requires e.key != key
    ensures SameOrGone(s, State(s.table + [e], armed, next), key)
  {
    var t := s.table + [e];
    var i := IndexOf(s.table, key);
    IndexUnique(t, key, if i < |s.table| then i else |t|);
  }

  lemma OpenedSameOrGone(s: State, other: Key, key: Key)
    requires Inv(s) && other != key
    ensures SameOrGone(s, Opened(s, other), key)
  {
    hide Inv, Discarded, SameOrGone;
    if Has(s, other) {
      SameIsSame(s, key);
    } else if |s.table| == MaxReassemblies {
      var t := Discarded(s, s.table[0].key);
      DiscardedSameOrGone(s, s.table[0].key, key);
      var u := Admitted(s, other);
      AppendedSameOrGone(t, u.table[|t.table|], u.armed, u.nextTimer, key);
      SameOrGoneChains(s, t, u, key);
    } else {
      var u := Admitted(s, other);
      AppendedSameOrGone(s, u.table[|s.table|], u.armed, u.nextTimer, key);
    }
  }

  lemma SameIsSame(s: State, key: Key)
    ensures SameOrGone(s, s, key)
  {
  }

  lemma SameOrGoneChains(s: State, t: State, u: State, key: Key)
    requires SameOrGone(s, t, key) && SameOrGone(t, u, key)
    ensures SameOrGone(s, u, key)
  {
  }

  lemma ReplacedSameOrGone(t: State, i: nat, pieces: seq<Piece>, total: Option<nat>, key: Key)
    requires i < |t.table| && t.table[i].key != key
    ensures SameOrGone(t, t.(table := t.table[i := t.table[i].(pieces := pieces, total := total)]), key)
  {
    var u := t.table[i := t.table[i].(pieces := pieces, total := total)];
    IndexUnique(u, key, IndexOf(t.table, key));
  }

  lemma OtherDelivered(s: State, f: Fragment, key: Key)
    requires Inv(s) && Parsed(f) && KeyOf(f) != key
    ensures SameOrGone(s, Delivered(s, f).0, key)
  {
    hide Inv, Discarded, Opened, SameOrGone, Judge;
    DiscardedSameOrGone(s, KeyOf(f), key);
    if f.offset != 0 || f.moreFragments {
      OpenedHas(s, KeyOf(f));
      OpenedKeeps(s, KeyOf(f));
      OpenedSameOrGone(s, KeyOf(f), key);
      var t := Opened(s, KeyOf(f));
      var i := IndexOf(t.table, KeyOf(f));
      SameIsSame(t, key);
      DiscardedSameOrGone(t, KeyOf(f), key);
      var v := Judge(t.table[i].pieces, t.table[i].total, f);
      if v.Kept? { ReplacedSameOrGone(t, i, v.pieces, v.total, key); }
      SameOrGoneChains(s, t, Judged(t, i, f).0, key);
    }
  }

  lemma {:induction false} DroppedSameOrGone(s: State, source: Option<u32>, i: nat, key: Key)
    requires Inv(s) && i <= |s.table|
    ensures SameOrGone(s, Dropped(s, source, i), key)
    decreases |s.table| - i
  {
    hide Inv, SameOrGone, Discarded;
    if i == |s.table| {
      SameIsSame(s, key);
    } else if source == None || source == Some(s.table[i].key.source) {
      var gone := s.table[i].key;
      DiscardedShrinks(s, i);
      DiscardedKeeps(s, gone);
      DiscardedSameOrGone(s, gone, key);
      DroppedSameOrGone(Discarded(s, gone), source, i, key);
      SameOrGoneChains(s, Discarded(s, gone), Dropped(s, source, i), key);
    } else {
      DroppedSameOrGone(s, source, i + 1, key);
    }
  }

  lemma OtherApplied(s: State, e: Event, key: Key)
    requires Inv(s) && Possible(e) && (e.Deliver? ==> KeyOf(e.fragment) != key)
    ensures SameOrGone(s, Apply(s, e), key)
  {
    hide Inv, SameOrGone, Discarded, Delivered, Dropped;
    match e
    case Deliver(f) => OtherDelivered(s, f, key);
    case Expire(timer) =>
      SameIsSame(s, key);
      if timer in s.armed {
        ExpiredIsDiscarded(s, timer);
        DiscardedSameOrGone(s, s.armed[timer], key);
      }
    case Drop(source) => DroppedSameOrGone(s, source, 0, key);
  }

  // ---------------------------------------------------------------------------
  // Runs

  function CutIndex(f: Fragment): nat
  {
    f.offset / FragmentPayload
  }

  /** An event in which only cuts of d are delivered under d's key; anything goes for other keys. */
  predicate Carries(d: Datagram, e: Event)
    requires Fragmented(d)
  {
    && Possible(e)
    && (e.Deliver? && KeyOf(e.fragment) == d.key ==>
          CutIndex(e.fragment) < Count(d) && e.fragment == CutOf(d, CutIndex(e.fragment)))
  }

  predicate AllCarry(d: Datagram, events: seq<Event>)
    requires Fragmented(d)
  {
    forall i :: 0 <= i < |events| ==> Carries(d, events[i])
  }

  /** The cuts of d delivered since its entry was last created: none while it has no entry. */
  function Got(d: Datagram, events: seq<Event>): set<nat>
    requires Fragmented(d)
  {
    if events == [] || !Has(After(events), d.key) then {}
    else
      var e := events[|events| - 1];
      Got(d, events[..|events| - 1])
      + if e.Deliver? && KeyOf(e.fragment) == d.key then {CutIndex(e.fragment)} else {}
  }

  predicate CutDeliveredAt(d: Datagram, events: seq<Event>, k: nat)
    requires k < |events|
  {
    events[k].Deliver? && KeyOf(events[k].fragment) == d.key
  }

  /** While the entry stays in the table, every cut delivered is got. */
  lemma {:induction false} StayingEntryGetsEveryCut(d: Datagram, events: seq<Event>, a: nat)
    requires Fragmented(d) && a <= |events|
    requires forall k :: a < k <= |events| ==> Has(After(events[..k]), d.key)
    ensures forall k :: a <= k < |events| && CutDeliveredAt(d, events, k) ==>
                          CutIndex(events[k].fragment) in Got(d, events)
  {
    hide Has, After;
    if a < |events| {
      var before := events[..|events| - 1];
      assert events[..|events|] == events;
      forall k | a < k <= |before| ensures Has(After(before[..k]), d.key) {
        assert before[..k] == events[..k];
      }
      StayingEntryGetsEveryCut(d, before, a);
      forall k | a <= k < |events| && CutDeliveredAt(d, events, k)
        ensures CutIndex(events[k].fragment) in Got(d, events) {
        if k < |before| { assert CutDeliveredAt(d, before, k); }
      }
    }
  }

  predicate EntryHolds(s: State, d: Datagram, got: set<nat>)
    requires Fragmented(d)
  {
    if Has(s, d.key) then
      EntryOf(s, d.key).pieces == Held(d, got, 0) && EntryOf(s, d.key).total == LengthKnown(d, got)
    else got == {}
  }

  lemma OpenedHolds(s: State, d: Datagram, got: set<nat>)
    requires Fragmented(d) && Inv(s) && EntryHolds(s, d, got)
    ensures Has(Opened(s, d.key), d.key) && EntryHolds(Opened(s, d.key), d, got)
  {
    OpenedHas(s, d.key);
    if !Has(s, d.key) {
      HeldNone(d, 0);
      hide Held, Discarded, Inv;
      var t := if |s.table| == MaxReassemblies then Discarded(s, s.table[0].key) else s;
      if |s.table| == MaxReassemblies { DiscardedLacks(s, s.table[0].key, d.key); }
      IndexUnique(Admitted(s, d.key).table, d.key, |t.table|);
    }
  }

  lemma {:induction false} HeldNone(d: Datagram, lo: nat)
    requires Fragmented(d) && lo <= Count(d)
    ensures Held(d, {}, lo) == []
    decreases Count(d) - lo
  {
    if lo < Count(d) { HeldNone(d, lo + 1); }
  }

  /** Delivering cut i of a datagram of whose cuts the table holds exactly got. */
  lemma CutDelivered(s: State, d: Datagram, got: set<nat>, i: nat)
    requires Fragmented(d) && Inv(s) && EntryHolds(s, d, got) && i < Count(d)
    ensures var (t, r) := Delivered(s, CutOf(d, i));
            && (r == if i !in got && AllGot(d, got + {i}, 0)
                     then Some(Packet(d.key.source, d.key.destination, d.key.protocol, d.payload))
                     else None)
            && EntryHolds(t, d, if Has(t, d.key) then got + {i} else {})
            && (Has(t, d.key) <==> r.None?)
  {
    hide Inv, Opened, Discarded, Judge, Held, AllGot, CutOf;
    var f := CutOf(d, i);
    CutFacts(d, i);
    OpenedHolds(s, d, got);
    OpenedKeeps(s, d.key);
    var t := Opened(s, d.key);
    var at := IndexOf(t.table, d.key);
    JudgeCut(d, got, i);
    DiscardedKeeps(t, d.key);
    var v := Judge(t.table[at].pieces, t.table[at].total, f);
    match v
    case Rejected =>
    case Repeated => assert got + {i} == got;
    case Kept(pieces, total) =>
      var u := Judged(t, at, f).0;
      IndexUnique(u.table, d.key, at);
    case Complete(_) =>
  }

  lemma OtherHolds(s: State, t: State, d: Datagram, got: set<nat>)
    requires Fragmented(d) && EntryHolds(s, d, got) && SameOrGone(s, t, d.key)
    ensures EntryHolds(t, d, if Has(t, d.key) then got else {})
  {
  }

  /** In every run the table holds of a datagram exactly the cuts that came since its entry was created. */
  lemma {:induction false} TableHoldsGot(d: Datagram, events: seq<Event>)
    requires Fragmented(d) && AllCarry(d, events)
    ensures EntryHolds(After(events), d, Got(d, events))
  {
    hide Inv, EntryHolds, Apply, Delivered, Count, SameOrGone;
    if events == [] {
      NothingHeld(d);
    } else {
      var before, e := events[..|events| - 1], events[|events| - 1];
      TableHoldsGot(d, before);
      TableStaysSound(before);
      var s, got := After(before), Got(d, before);
      if e.Deliver? && KeyOf(e.fragment) == d.key {
        CutDelivered(s, d, got, CutIndex(e.fragment));
        DeliverApplies(s, e.fragment);
      } else {
        OtherApplied(s, e, d.key);
        OtherHolds(s, Apply(s, e), d, got);
        assert got + {} == got;
      }
    }
  }

  lemma DeliverApplies(s: State, f: Fragment)
    ensures Apply(s, Deliver(f)) == Delivered(s, f).0
  {
  }

  lemma NothingHeld(d: Datagram)
    requires Fragmented(d)
    ensures EntryHolds(After([]), d, {})
  {
  }

  /**
   The round trip. After any run in which only d's own cuts come under its key,
   delivering cut i returns a packet exactly when i was the last cut missing
   since the entry was created, and that packet is d, byte for byte. An
   eviction, a timeout or a drop only empties that set of cuts.
   */
  lemma LastMissingCutReturnsTheDatagram(d: Datagram, events: seq<Event>, i: nat)
    requires Fragmented(d) && AllCarry(d, events) && i < Count(d)
    ensures var r := Delivered(After(events), CutOf(d, i)).1;
            && (r.Some? <==> AllGot(d, Got(d, events) + {i}, 0))
            && (r.Some? ==> r.value == Packet(d.key.source, d.key.destination, d.key.protocol, d.payload))
  {
    hide Inv, EntryHolds, Delivered, Count, After, Held, AllGot;
    TableHoldsGot(d, events);
    SoundCarried(d, events);
    CutDelivered(After(events), d, Got(d, events), i);
    NeverFull(d, events);
    if i in Got(d, events) {
      assert Got(d, events) + {i} == Got(d, events);
    }
  }

  lemma SoundCarried(d: Datagram, events: seq<Event>)
    requires Fragmented(d) && AllCarry(d, events)
    ensures Inv(After(events))
  {
    hide Inv, Count, After;
    TableStaysSound(events);
  }

  /** An entry is never left holding every cut. */
  lemma {:induction false} NeverFull(d: Datagram, events: seq<Event>)
    requires Fragmented(d) && AllCarry(d, events)
    ensures !AllGot(d, Got(d, events), 0)
  {
    hide Inv, EntryHolds, Apply, Delivered, SameOrGone, Count, AllGot;
    EmptyNotAll(d);
    if events != [] && Has(After(events), d.key) {
      var before, e := events[..|events| - 1], events[|events| - 1];
      NeverFull(d, before);
      TableHoldsGot(d, before);
      TableStaysSound(before);
      if e.Deliver? && KeyOf(e.fragment) == d.key {
        var i := CutIndex(e.fragment);
        CutDelivered(After(before), d, Got(d, before), i);
        DeliverApplies(After(before), e.fragment);
        if i in Got(d, before) { assert Got(d, before) + {i} == Got(d, before); }
      } else {
        assert Got(d, before) + {} == Got(d, before);
      }
    }
  }

  lemma EmptyNotAll(d: Datagram)
    requires Fragmented(d)
    ensures !AllGot(d, {}, 0)
  {
    var none: set<nat> := {};
    assert 0 < Count(d) && 0 !in none;
  }
}
