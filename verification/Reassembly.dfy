/**
 IPv4 reassembly (packages/linux-guest/src/network.ts): a bounded table of
 partial datagrams, each with its own timer, fed fragments in any order.
 */
module Reassembly {
  import opened Wrappers
  import opened BigEndian
  import opened IpPacket

  const MaxReassemblies: nat := 64
  const MaxFragments: nat := 64

  datatype Key = Key(source: u32, destination: u32, protocol: byte, identification: u16)

  datatype Piece = Piece(offset: nat, payload: Bytes)

  /** One partial datagram: its pieces in order, and its length once the last piece has come. */
  datatype Entry = Entry(key: Key, timer: nat, pieces: seq<Piece>, total: Option<nat>)

  datatype Packet = Packet(source: u32, destination: u32, protocol: byte, payload: Bytes)

  /** The table in insertion order, the armed timers with the key each discards, and the next timer. */
  datatype State = State(table: seq<Entry>, armed: map<nat, Key>, nextTimer: nat)

  function KeyOf(f: Fragment): Key
  {
    Key(f.source, f.destination, f.protocol, f.identification)
  }

  function End(p: Piece): nat
  {
    p.offset + |p.payload|
  }

  function PieceOf(f: Fragment): Piece
  {
    Piece(f.offset, f.payload)
  }

  /** What parse_ip guarantees of every fragment it returns. */
  predicate Parsed(f: Fragment)
  {
    && f.offset + |f.payload| <= MaxPayload
    && (f.offset != 0 || f.moreFragments ==> f.payload != [])
  }

  predicate Overlap(p: Piece, q: Piece)
  {
    p.offset < End(q) && q.offset < End(p)
  }

  predicate OverlapsAny(pieces: seq<Piece>, p: Piece)
  {
    exists i :: 0 <= i < |pieces| && Overlap(pieces[i], p)
  }

  predicate BeyondAny(pieces: seq<Piece>, end: nat)
  {
    exists i :: 0 <= i < |pieces| && pieces[i].offset >= end
  }

  /** The pieces with p put before the first that ends after it starts. */
  function Inserted(pieces: seq<Piece>, p: Piece): seq<Piece>
  {
    if pieces == [] then [p]
    else if p.offset < End(pieces[0]) then [p] + pieces
    else [pieces[0]] + Inserted(pieces[1..], p)
  }

  /** The pieces lie end to end from one offset to another. */
  predicate Tiling(pieces: seq<Piece>, from: nat, to: nat)
  {
    if pieces == [] then from == to
    else pieces[0].offset == from && Tiling(pieces[1..], End(pieces[0]), to)
  }

  function Joined(pieces: seq<Piece>): Bytes
  {
    if pieces == [] then [] else pieces[0].payload + Joined(pieces[1..])
  }

  // ---------------------------------------------------------------------------
  // What becomes of one fragment

  datatype Verdict =
    | Rejected                                            // the whole entry is discarded
    | Repeated                                            // an exact duplicate: nothing changes
    | Kept(pieces: seq<Piece>, total: Option<nat>)
    | Complete(payload: Bytes)

  function Judge(pieces: seq<Piece>, total: Option<nat>, f: Fragment): Verdict
  {
    var p := PieceOf(f);
    if p.offset == 0 && End(p) + f.headerLength > 0xffff then Rejected
    else if total.Some? && End(p) > total.value then Rejected
    else if OverlapsAny(pieces, p) then (if p in pieces then Repeated else Rejected)
    else if |pieces| == MaxFragments then Rejected
    else if f.moreFragments then Settled(Inserted(pieces, p), total)
    else if total.Some? && total.value != End(p) then Rejected
    else if BeyondAny(Inserted(pieces, p), End(p)) then Rejected
    else Settled(Inserted(pieces, p), Some(End(p)))
  }

  function Settled(pieces: seq<Piece>, total: Option<nat>): Verdict
  {
    if total.Some? && Tiling(pieces, 0, total.value) then Complete(Joined(pieces)) else Kept(pieces, total)
  }

  // ---------------------------------------------------------------------------
  // The table

  function IndexOf(table: seq<Entry>, key: Key): (i: nat)
    ensures i <= |table|
    ensures i < |table| ==> table[i].key == key
    ensures forall j :: 0 <= j < i ==> table[j].key != key
  {
    if table == [] then 0 else if table[0].key == key then 0 else 1 + IndexOf(table[1..], key)
  }

  predicate Has(s: State, key: Key)
  {
    IndexOf(s.table, key) < |s.table|
  }

  function Without(table: seq<Entry>, i: nat): seq<Entry>
    requires i < |table|
  {
    table[..i] + table[i + 1..]
  }

  function Discarded(s: State, key: Key): State
  {
    var i := IndexOf(s.table, key);
    if i == |s.table| then s
    else s.(table := Without(s.table, i), armed := s.armed - {s.table[i].timer})
  }

  /** A new entry, at the cost of the oldest one when the table is full. */
  function Admitted(s: State, key: Key): State
  {
    var t := if |s.table| == MaxReassemblies then Discarded(s, s.table[0].key) else s;
    State(t.table + [Entry(key, t.nextTimer, [], None)], t.armed[t.nextTimer := key], t.nextTimer + 1)
  }

  function Opened(s: State, key: Key): State
  {
    if Has(s, key) then s else Admitted(s, key)
  }

  /** The entry at i after its fragment has been judged. */
  function Judged(s: State, i: nat, f: Fragment): (State, Option<Packet>)
    requires i < |s.table|
  {
    var e := s.table[i];
    match Judge(e.pieces, e.total, f)
    case Rejected => (Discarded(s, e.key), None)
    case Repeated => (s, None)
    case Kept(pieces, total) => (s.(table := s.table[i := e.(pieces := pieces, total := total)]), None)
    case Complete(payload) => (Discarded(s, e.key),
                               Some(Packet(e.key.source, e.key.destination, e.key.protocol, payload)))
  }

  lemma OpenedHas(s: State, key: Key)
    ensures Has(Opened(s, key), key)
  {
    if !Has(s, key) {
      var t := if |s.table| == MaxReassemblies then Discarded(s, s.table[0].key) else s;
      assert Admitted(s, key).table[|t.table|].key == key;
    }
  }

  function Delivered(s: State, f: Fragment): (State, Option<Packet>)
  {
    var key := KeyOf(f);
    if f.offset == 0 && !f.moreFragments then
      (Discarded(s, key), Some(Packet(f.source, f.destination, f.protocol, f.payload)))
    else
      OpenedHas(s, key);
      var t := Opened(s, key);
      Judged(t, IndexOf(t.table, key), f)
  }

  /** A timer fires: its callback discards the entry with the key it was armed for. */
  function Expired(s: State, timer: nat): State
  {
    if timer in s.armed then Discarded(s.(armed := s.armed - {timer}), s.armed[timer]) else s
  }

  // ---------------------------------------------------------------------------
  // What every step keeps

  predicate Sorted(pieces: seq<Piece>)
  {
    forall i, j :: 0 <= i < j < |pieces| ==> End(pieces[i]) <= pieces[j].offset
  }

  predicate NonEmpty(pieces: seq<Piece>)
  {
    forall i :: 0 <= i < |pieces| ==> pieces[i].payload != []
  }

  predicate Within(pieces: seq<Piece>, end: nat)
  {
    forall i :: 0 <= i < |pieces| ==> End(pieces[i]) <= end
  }

  /** Sorted, disjoint, non-empty pieces, within the length if that is known, at most 64. */
  predicate PiecesOk(pieces: seq<Piece>, total: Option<nat>)
  {
    && Sorted(pieces) && NonEmpty(pieces) && |pieces| <= MaxFragments
    && Within(pieces, if total.Some? then total.value else MaxPayload)
    && (total.Some? ==> total.value <= MaxPayload)
  }

  predicate EntriesOk(table: seq<Entry>)
  {
    forall i :: 0 <= i < |table| ==> PiecesOk(table[i].pieces, table[i].total)
  }

  predicate KeysDistinct(table: seq<Entry>)
  {
    forall i, j :: 0 <= i < j < |table| ==> table[i].key != table[j].key
  }

  predicate OwnsTimer(table: seq<Entry>, timer: nat)
  {
    exists i :: 0 <= i < |table| && table[i].timer == timer
  }

  /** The armed timers are exactly the entries' own, each armed for its own entry's key. */
  predicate TimersOwned(table: seq<Entry>, armed: map<nat, Key>, nextTimer: nat)
  {
    && (forall i :: 0 <= i < |table| ==> table[i].timer in armed && armed[table[i].timer] == table[i].key)
    && (forall t :: t in armed ==> t < nextTimer && OwnsTimer(table, t))
  }

  predicate Inv(s: State)
  {
    && |s.table| <= MaxReassemblies
    && KeysDistinct(s.table)
    && EntriesOk(s.table)
    && TimersOwned(s.table, s.armed, s.nextTimer)
  }

  lemma {:induction false} InsertedSplits(pieces: seq<Piece>, p: Piece, m: nat)
    requires m <= |pieces|
    requires forall i :: 0 <= i < m ==> End(pieces[i]) <= p.offset
    requires m < |pieces| ==> p.offset < End(pieces[m])
    ensures Inserted(pieces, p) == pieces[..m] + [p] + pieces[m..]
  {
    if m > 0 {
      InsertedSplits(pieces[1..], p, m - 1);
      assert pieces[..m] == [pieces[0]] + pieces[1..][..m - 1];
      assert pieces[1..][m - 1..] == pieces[m..];
    } else if pieces != [] {
      assert pieces[..0] + [p] + pieces[0..] == [p] + pieces;
    }
  }

  /** Where the first piece lies that ends after an offset. */
  function FirstEndingAfter(pieces: seq<Piece>, offset: nat): (m: nat)
    ensures m <= |pieces|
    ensures forall i :: 0 <= i < m ==> End(pieces[i]) <= offset
    ensures m < |pieces| ==> offset < End(pieces[m])
  {
    if pieces == [] || offset < End(pieces[0]) then 0 else 1 + FirstEndingAfter(pieces[1..], offset)
  }

  /** In sorted pieces only the first one ending after p starts can overlap p. */
  lemma OverlapIsAtInsertion(pieces: seq<Piece>, p: Piece, m: nat)
    requires Sorted(pieces) && NonEmpty(pieces) && p.payload != []
    requires m <= |pieces|
    requires forall i :: 0 <= i < m ==> End(pieces[i]) <= p.offset
    requires m < |pieces| ==> p.offset < End(pieces[m])
    ensures OverlapsAny(pieces, p) <==> m < |pieces| && End(p) > pieces[m].offset
  {
    if m < |pieces| && End(p) > pieces[m].offset {
      assert Overlap(pieces[m], p);
    }
  }

  lemma InSplice<T>(a: seq<T>, p: T, b: seq<T>)
    ensures forall q :: q in a + [p] + b <==> q == p || q in a + b
  {
    forall q ensures q in a + [p] + b <==> q in a || q == p || q in b {
    }
  }

  lemma SplicedSorted(a: seq<Piece>, p: Piece, b: seq<Piece>)
    requires Sorted(a + b) && p.payload != []
    requires forall i :: 0 <= i < |a| ==> End(a[i]) <= p.offset
    requires forall i :: 0 <= i < |b| ==> End(p) <= b[i].offset
    ensures Sorted(a + [p] + b)
  {
    var r, t := a + [p] + b, a + b;
    forall i, j | 0 <= i < j < |r| ensures End(r[i]) <= r[j].offset {
      if i != |a| && j != |a| {
        assert r[i] == t[if i < |a| then i else i - 1] && r[j] == t[if j < |a| then j else j - 1];
      }
    }
  }

  lemma SplicedOk(a: seq<Piece>, p: Piece, b: seq<Piece>, end: nat)
    requires Sorted(a + b) && NonEmpty(a + b) && Within(a + b, end)
    requires p.payload != [] && End(p) <= end
    requires forall i :: 0 <= i < |a| ==> End(a[i]) <= p.offset
    requires b != [] ==> End(p) <= b[0].offset
    ensures Sorted(a + [p] + b) && NonEmpty(a + [p] + b) && Within(a + [p] + b, end)
  {
    var r, t := a + [p] + b, a + b;
    assert forall i :: 0 <= i < |r| && i != |a| ==> r[i] == t[if i < |a| then i else i - 1];
    forall i | 0 <= i < |b| ensures End(p) <= b[i].offset {
      assert b[0] == t[|a|] && b[i] == t[|a| + i];
    }
    SplicedSorted(a, p, b);
  }

  lemma InsertedOk(pieces: seq<Piece>, p: Piece, end: nat)
    requires Sorted(pieces) && NonEmpty(pieces) && Within(pieces, end)
    requires p.payload != [] && End(p) <= end && !OverlapsAny(pieces, p)
    ensures Sorted(Inserted(pieces, p)) && NonEmpty(Inserted(pieces, p)) && Within(Inserted(pieces, p), end)
    ensures |Inserted(pieces, p)| == |pieces| + 1
    ensures forall q :: q in Inserted(pieces, p) <==> q == p || q in pieces
  {
    hide Sorted, NonEmpty, Within, OverlapsAny, Inserted;
    var m := FirstEndingAfter(pieces, p.offset);
    InsertedSplits(pieces, p, m);
    OverlapIsAtInsertion(pieces, p, m);
    assert pieces == pieces[..m] + pieces[m..];
    SplicedOk(pieces[..m], p, pieces[m..], end);
    InSplice(pieces[..m], p, pieces[m..]);
  }

  lemma BeyondNoneWithin(pieces: seq<Piece>, p: Piece)
    requires NonEmpty(pieces) && p.payload != []
    requires !OverlapsAny(pieces, p) && !BeyondAny(pieces, End(p))
    ensures Within(pieces, End(p))
  {
    forall i | 0 <= i < |pieces| ensures End(pieces[i]) <= End(p) {
      assert !Overlap(pieces[i], p);
    }
  }

  lemma BeyondSubset(pieces: seq<Piece>, more: seq<Piece>, end: nat)
    requires forall q :: q in pieces ==> q in more
    requires !BeyondAny(more, end)
    ensures !BeyondAny(pieces, end)
  {
    forall i | 0 <= i < |pieces| ensures pieces[i].offset < end {
      assert pieces[i] in more;
    }
  }

  lemma JudgeKeeps(pieces: seq<Piece>, total: Option<nat>, f: Fragment)
    requires PiecesOk(pieces, total) && Parsed(f) && f.payload != []
    ensures var v := Judge(pieces, total, f);
            v.Kept? ==> PiecesOk(v.pieces, v.total)
  {
    hide Sorted, NonEmpty, Inserted, Tiling, Joined, OverlapsAny, BeyondAny;
    var p := PieceOf(f);
    var v := Judge(pieces, total, f);
    if v.Kept? {
      InsertedOk(pieces, p, if total.Some? then total.value else MaxPayload);
      if !f.moreFragments {
        BeyondSubset(pieces, Inserted(pieces, p), End(p));
        BeyondNoneWithin(pieces, p);
        InsertedOk(pieces, p, End(p));
      }
    }
  }

  lemma WithoutKeepsTable(table: seq<Entry>, i: nat)
    requires i < |table| && KeysDistinct(table) && EntriesOk(table)
    ensures KeysDistinct(Without(table, i)) && EntriesOk(Without(table, i))
    ensures forall j :: 0 <= j < |table| - 1 ==> Without(table, i)[j].key != table[i].key
  {
    hide PiecesOk;
    assert forall j :: 0 <= j < |table| - 1 ==> Without(table, i)[j] == table[if j < i then j else j + 1];
  }

  lemma WithoutKeepsTimers(table: seq<Entry>, armed: map<nat, Key>, nextTimer: nat, i: nat)
    requires i < |table| && KeysDistinct(table) && TimersOwned(table, armed, nextTimer)
    ensures TimersOwned(Without(table, i), armed - {table[i].timer}, nextTimer)
  {
    var rest := Without(table, i);
    assert forall j :: 0 <= j < |rest| ==> rest[j] == table[if j < i then j else j + 1];
    forall j | 0 <= j < |rest| ensures rest[j].timer in armed - {table[i].timer} {
      assert rest[j].key != table[i].key;
    }
    forall x | x in armed - {table[i].timer} ensures x < nextTimer && OwnsTimer(rest, x) {
      var j :| 0 <= j < |table| && table[j].timer == x;
      assert rest[if j < i then j else j - 1].timer == x;
    }
  }

  lemma DiscardedKeeps(s: State, key: Key)
    requires Inv(s)
    ensures Inv(Discarded(s, key)) && !Has(Discarded(s, key), key)
  {
    var i := IndexOf(s.table, key);
    if i < |s.table| {
      hide KeysDistinct, EntriesOk, TimersOwned;
      WithoutKeepsTable(s.table, i);
      WithoutKeepsTimers(s.table, s.armed, s.nextTimer, i);
    }
  }

  lemma NoPiecesOk()
    ensures PiecesOk([], None)
  {
  }

  lemma AppendKeeps(t: State, key: Key)
    requires Inv(t) && |t.table| < MaxReassemblies && !Has(t, key)
    ensures var e := Entry(key, t.nextTimer, [], None);
            Inv(State(t.table + [e], t.armed[t.nextTimer := key], t.nextTimer + 1))
  {
    hide PiecesOk;
    var e := Entry(key, t.nextTimer, [], None);
    var u := State(t.table + [e], t.armed[t.nextTimer := key], t.nextTimer + 1);
    NoPiecesOk();
    assert u.table[|t.table|] == e;
    forall x | x in u.armed ensures OwnsTimer(u.table, x) {
      if x in t.armed {
        var j :| 0 <= j < |t.table| && t.table[j].timer == x;
        assert u.table[j].timer == x;
      }
    }
  }

  lemma ReplacedKeeps(s: State, i: nat, pieces: seq<Piece>, total: Option<nat>)
    requires Inv(s) && i < |s.table| && PiecesOk(pieces, total)
    ensures Inv(s.(table := s.table[i := s.table[i].(pieces := pieces, total := total)]))
  {
    hide PiecesOk;
    var t := s.table[i := s.table[i].(pieces := pieces, total := total)];
    assert forall j :: 0 <= j < |t| ==> t[j].key == s.table[j].key && t[j].timer == s.table[j].timer;
    forall x | x in s.armed ensures OwnsTimer(t, x) {
      var j :| 0 <= j < |s.table| && s.table[j].timer == x;
      assert t[j].timer == x;
    }
  }

  lemma OpenedKeeps(s: State, key: Key)
    requires Inv(s)
    ensures Inv(Opened(s, key))
  {
    hide KeysDistinct, EntriesOk, TimersOwned;
    if !Has(s, key) {
      if |s.table| == MaxReassemblies {
        DiscardedKeeps(s, s.table[0].key);
        DiscardedLacks(s, s.table[0].key, key);
        AppendKeeps(Discarded(s, s.table[0].key), key);
      } else {
        AppendKeeps(s, key);
      }
    }
  }

  lemma IndexUnique(table: seq<Entry>, key: Key, i: nat)
    requires i <= |table| && (i < |table| ==> table[i].key == key)
    requires forall j :: 0 <= j < i ==> table[j].key != key
    ensures IndexOf(table, key) == i
  {
  }

  /** Discarding one key neither adds nor removes another. */
  lemma DiscardedLacks(s: State, gone: Key, key: Key)
    requires gone != key
    ensures Has(Discarded(s, gone), key) <==> Has(s, key)
    ensures Has(s, key) ==> EntryOf(Discarded(s, gone), key) == EntryOf(s, key)
  {
    var i, k := IndexOf(s.table, gone), IndexOf(s.table, key);
    if i < |s.table| {
      var t := Without(s.table, i);
      if k < |s.table| {
        IndexUnique(t, key, if k < i then k else k - 1);
      } else {
        IndexUnique(t, key, |t|);
      }
    }
  }

  function EntryOf(s: State, key: Key): Entry
    requires Has(s, key)
  {
    s.table[IndexOf(s.table, key)]
  }

  lemma JudgedKeeps(t: State, i: nat, f: Fragment)
    requires Inv(t) && i < |t.table| && Parsed(f) && f.payload != []
    ensures Inv(Judged(t, i, f).0)
  {
    hide Inv, PiecesOk, Discarded, Judge;
    var e := t.table[i];
    DiscardedKeeps(t, e.key);
    EntryPiecesOk(t, i);
    JudgeKeeps(e.pieces, e.total, f);
    var v := Judge(e.pieces, e.total, f);
    if v.Kept? { ReplacedKeeps(t, i, v.pieces, v.total); }
  }

  lemma EntryPiecesOk(t: State, i: nat)
    requires Inv(t) && i < |t.table|
    ensures PiecesOk(t.table[i].pieces, t.table[i].total)
  {
    hide PiecesOk, KeysDistinct, TimersOwned;
  }

  lemma DeliveredKeeps(s: State, f: Fragment)
    requires Inv(s) && Parsed(f)
    ensures Inv(Delivered(s, f).0)
  {
    hide Inv, Discarded, Opened, Judged;
    var key := KeyOf(f);
    if f.offset == 0 && !f.moreFragments {
      DiscardedKeeps(s, key);
    } else {
      OpenedHas(s, key);
      OpenedKeeps(s, key);
      var t := Opened(s, key);
      JudgedKeeps(t, IndexOf(t.table, key), f);
    }
  }

  /** A timer that fires discards its own entry, and is then no longer armed. */
  lemma ExpiredIsDiscarded(s: State, timer: nat)
    requires Inv(s) && timer in s.armed
    ensures Expired(s, timer) == Discarded(s, s.armed[timer])
    ensures timer !in Expired(s, timer).armed
  {
    hide EntriesOk;
    assert OwnsTimer(s.table, timer);
    var i :| 0 <= i < |s.table| && s.table[i].timer == timer;
    IndexUnique(s.table, s.armed[timer], i);
  }

  // ---------------------------------------------------------------------------
  // Runs

  /** Deleting every entry of a guest that leaves, or of all of them when the network closes. */
  function Dropped(s: State, source: Option<u32>, i: nat): State
    requires i <= |s.table|
    decreases |s.table| - i
  {
    if i == |s.table| then s
    else if source == None || source == Some(s.table[i].key.source) then
      assert IndexOf(s.table, s.table[i].key) <= i;
      var t := Discarded(s, s.table[i].key);
      if i <= |t.table| then Dropped(t, source, i) else t
    else Dropped(s, source, i + 1)
  }

  lemma {:induction false} DroppedKeeps(s: State, source: Option<u32>, i: nat)
    requires Inv(s) && i <= |s.table|
    ensures Inv(Dropped(s, source, i))
    decreases |s.table| - i
  {
    hide Inv, Discarded;
    if i < |s.table| {
      if source == None || source == Some(s.table[i].key.source) {
        DiscardedKeeps(s, s.table[i].key);
        DiscardedShrinks(s, i);
        DroppedKeeps(Discarded(s, s.table[i].key), source, i);
      } else {
        DroppedKeeps(s, source, i + 1);
      }
    }
  }

  lemma DiscardedShrinks(s: State, i: nat)
    requires i < |s.table|
    ensures |Discarded(s, s.table[i].key).table| == |s.table| - 1
  {
    assert IndexOf(s.table, s.table[i].key) <= i;
  }

  datatype Event = Deliver(fragment: Fragment) | Expire(timer: nat) | Drop(source: Option<u32>)

  function Apply(s: State, e: Event): State
  {
    match e
    case Deliver(f) => Delivered(s, f).0
    case Expire(timer) => Expired(s, timer)
    case Drop(source) => Dropped(s, source, 0)
  }

  predicate Possible(e: Event)
  {
    e.Deliver? ==> Parsed(e.fragment)
  }

  function After(events: seq<Event>): State
  {
    if events == [] then State([], map[], 0) else Apply(After(events[..|events| - 1]), events[|events| - 1])
  }

  predicate AllPossible(events: seq<Event>)
  {
    forall i :: 0 <= i < |events| ==> Possible(events[i])
  }

  lemma EmptyTableSound()
    ensures Inv(State([], map[], 0))
  {
  }

  lemma ApplyKeeps(s: State, e: Event)
    requires Inv(s) && Possible(e)
    ensures Inv(Apply(s, e))
  {
    hide Inv, Delivered, Discarded, Dropped;
    match e
    case Deliver(f) => DeliveredKeeps(s, f);
    case Expire(timer) =>
      if timer in s.armed {
        ExpiredIsDiscarded(s, timer);
        DiscardedKeeps(s, s.armed[timer]);
      }
    case Drop(source) => DroppedKeeps(s, source, 0);
  }

  /**
   However fragments, timers and drops interleave: at most 64 entries with
   distinct keys, exactly their own timers armed, and in each at most 64
   pieces that are non-empty, sorted, disjoint and within the known length.
   */
  lemma {:induction false} TableStaysSound(events: seq<Event>)
    requires AllPossible(events)
    ensures Inv(After(events))
  {
    hide Inv, Apply;
    if events == [] {
      EmptyTableSound();
    } else {
      TableStaysSound(events[..|events| - 1]);
      ApplyKeeps(After(events[..|events| - 1]), events[|events| - 1]);
    }
  }
}
