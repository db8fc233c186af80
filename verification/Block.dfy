/**
 The block device (packages/kernel/src/virtio/block.ts): moving a request's
 segments with few storage calls, and the order of flushes after writes.
 */
module Block {
  import opened Wrappers

  /** A view of guest memory: a buffer, and a range of it. */
  datatype Segment = Segment(buffer: nat, offset: nat, length: nat)

  /** One byte of guest memory. */
  datatype Place = Place(buffer: nat, at: nat)

  /** One byte moved between storage and guest memory. */
  datatype Move = Move(storage: nat, place: Place)

  function PlacesOf(s: Segment): (p: seq<Place>)
    ensures |p| == s.length
  {
    seq(s.length, i requires 0 <= i < s.length => Place(s.buffer, s.offset + i))
  }

  /** Every byte of the segments in turn. */
  function Places(segments: seq<Segment>): seq<Place>
  {
    if segments == [] then [] else Places(segments[..|segments| - 1]) + PlacesOf(segments[|segments| - 1])
  }

  /** The moves of one flat transfer of those bytes from a storage offset. */
  function FlatMoves(offset: nat, places: seq<Place>): (m: seq<Move>)
    ensures |m| == |places|
  {
    seq(|places|, i requires 0 <= i < |places| => Move(offset + i, places[i]))
  }

  predicate Adjacent(a: Segment, b: Segment)
  {
    a.buffer == b.buffer && a.offset + a.length == b.offset
  }

  /** Pieces that are not empty, no two neighbours of which could be one. */
  predicate Maximal(pieces: seq<Segment>)
  {
    && (forall i :: 0 <= i < |pieces| ==> pieces[i].length > 0)
    && forall i :: 0 < i < |pieces| ==> !Adjacent(pieces[i - 1], pieces[i])
  }

  lemma PlacesGrow(pieces: seq<Segment>, s: Segment)
    ensures Places(pieces + [s]) == Places(pieces) + PlacesOf(s)
  {
    assert (pieces + [s])[..|pieces|] == pieces;
  }

  /** runs: the same bytes in the same order, in as few pieces as adjacency allows. */
  method Runs(segments: seq<Segment>) returns (merged: seq<Segment>)
    ensures Places(merged) == Places(segments) && Maximal(merged)
  {
    hide Places, PlacesOf, Maximal, Adjacent;
    merged := [];
    NothingMerged();
    assert segments[..0] == [];
    for i := 0 to |segments|
      invariant Places(merged) == Places(segments[..i]) && Maximal(merged)
    {
      var segment := segments[i];
      assert segments[..i + 1] == segments[..i] + [segment];
      PlacesGrow(segments[..i], segment);
      if segment.length == 0 {
        EmptyPlaces(segment, Places(merged));
        continue;
      }
      if merged != [] && Adjacent(merged[|merged| - 1], segment) {
        var n := |merged| - 1;
        var last := merged[n];
        var longer := Segment(last.buffer, last.offset, last.length + segment.length);
        MergedLast(merged, segment);
        merged := merged[n := longer];
      } else {
        PlacesGrow(merged, segment);
        MaximalGrows(merged, segment);
        merged := merged + [segment];
      }
    }
    assert segments[..|segments|] == segments;
  }

  lemma NothingMerged()
    ensures Maximal([]) && Places([]) == []
  {
  }

  lemma EmptyPlaces(s: Segment, places: seq<Place>)
    requires s.length == 0
    ensures places + PlacesOf(s) == places
  {
  }

  lemma MaximalGrows(pieces: seq<Segment>, s: Segment)
    requires Maximal(pieces) && s.length > 0 && (pieces != [] ==> !Adjacent(pieces[|pieces| - 1], s))
    ensures Maximal(pieces + [s])
  {
    hide Adjacent;
  }

  lemma MergedLast(pieces: seq<Segment>, s: Segment)
    requires Maximal(pieces) && pieces != [] && s.length > 0 && Adjacent(pieces[|pieces| - 1], s)
    ensures var n := |pieces| - 1;
            var more := pieces[n := Segment(pieces[n].buffer, pieces[n].offset, pieces[n].length + s.length)];
            Maximal(more) && Places(more) == Places(pieces) + PlacesOf(s)
  {
    var n := |pieces| - 1;
    var init, last := pieces[..n], pieces[n];
    var longer := Segment(last.buffer, last.offset, last.length + s.length);
    Joined(last, s);
    PlacesGrow(init, longer);
    PlacesGrow(init, last);
    assert pieces == init + [last] && pieces[n := longer] == init + [longer];
    hide PlacesOf, Places;
    assert Places(init) + (PlacesOf(last) + PlacesOf(s)) == Places(init) + PlacesOf(last) + PlacesOf(s);
  }

  lemma Joined(a: Segment, b: Segment)
    requires Adjacent(a, b)
    ensures PlacesOf(Segment(a.buffer, a.offset, a.length + b.length)) == PlacesOf(a) + PlacesOf(b)
  {
  }

  /**
   Storage's answer to one call: how many of the bytes it is given it moves, from
   the first on, to or from consecutive offsets.
   */
  type Storage = (nat, seq<Segment>) -> nat

  ghost predicate Sound(storage: Storage)
  {
    forall offset: nat, pieces: seq<Segment> :: storage(offset, pieces) <= |Places(pieces)|
  }

  /** A storage object: every call it answers moves bytes, in the order of the calls. */
  class Disk {
    ghost var moves: seq<Move>
    ghost var short: bool                                // some call moved fewer bytes than it was given

    constructor ()
      ensures moves == [] && !short
    {
      moves, short := [], false;
    }

    method Call(storage: Storage, offset: nat, pieces: seq<Segment>) returns (n: nat)
      requires Sound(storage)
      modifies this
      ensures n <= |Places(pieces)| && moves == old(moves) + FlatMoves(offset, Places(pieces))[..n]
      ensures short == (old(short) || n < |Places(pieces)|)
    {
      n := storage(offset, pieces);
      moves := moves + FlatMoves(offset, Places(pieces))[..n];
      short := short || n < |Places(pieces)|;
    }
  }

  /**
   transfer: whichever calls it makes, the bytes moved are a prefix of one flat
   transfer of the segments, as long as the count returned; and it is all of
   them unless a call was short.
   */
  method Transfer(disk: Disk, offset: nat, segments: seq<Segment>, single: Storage, vectored: Option<Storage>)
    returns (moved: nat)
    requires Sound(single) && (vectored.Some? ==> Sound(vectored.value))
    modifies disk
    ensures moved <= |Places(segments)|
    ensures disk.moves == old(disk.moves) + FlatMoves(offset, Places(segments))[..moved]
    ensures disk.short == (old(disk.short) || moved < |Places(segments)|)
  {
    hide Places, PlacesOf, FlatMoves, Maximal;
    var pieces := Runs(segments);
    ghost var places := Places(pieces);
    if |pieces| == 1 {
      moved := disk.Call(single, offset, pieces);
      return;
    }
    if vectored.Some? {
      moved := disk.Call(vectored.value, offset, pieces);
      return;
    }
    moved := 0;
    NothingMerged();
    assert pieces[..0] == [];
    for i := 0 to |pieces|
      invariant moved == |Places(pieces[..i])| <= |places|
      invariant disk.moves == old(disk.moves) + FlatMoves(offset, places)[..moved] && disk.short == old(disk.short)
    {
      PieceMoves(offset, pieces, i);
      OnePiece(pieces[i]);
      var n := disk.Call(single, offset + moved, [pieces[i]]);
      CallIsSlice(offset, places, moved, PlacesOf(pieces[i]), n);
      ghost var call := FlatMoves(offset + moved, PlacesOf(pieces[i]))[..n];
      assert disk.moves == old(disk.moves) + (FlatMoves(offset, places)[..moved] + call);
      moved := moved + n;
      if n != pieces[i].length {
        return;
      }
    }
    assert pieces[..|pieces|] == pieces;
  }

  lemma PieceMoves(offset: nat, pieces: seq<Segment>, i: nat)
    requires i < |pieces|
    ensures |Places(pieces[..i + 1])| == |Places(pieces[..i])| + pieces[i].length <= |Places(pieces)|
    ensures Places(pieces)[..|Places(pieces[..i])|] + PlacesOf(pieces[i]) <= Places(pieces)
  {
    assert pieces[..i + 1] == pieces[..i] + [pieces[i]];
    PlacesGrow(pieces[..i], pieces[i]);
    PlacesPrefix(pieces, i + 1);
    PlacesPrefix(pieces, i);
    hide Places;
  }

  lemma {:induction false} PlacesPrefix(pieces: seq<Segment>, i: nat)
    requires i <= |pieces|
    ensures Places(pieces[..i]) <= Places(pieces)
    decreases |pieces|
  {
    if i < |pieces| {
      PlacesPrefix(pieces[..|pieces| - 1], i);
      assert pieces[..|pieces| - 1][..i] == pieces[..i];
    } else {
      assert pieces[..i] == pieces;
    }
  }

  lemma OnePiece(s: Segment)
    ensures Places([s]) == PlacesOf(s)
  {
    assert [s][..0] == [];
    assert Places([]) + PlacesOf(s) == PlacesOf(s);
  }

  lemma CallIsSlice(offset: nat, places: seq<Place>, moved: nat, one: seq<Place>, n: nat)
    requires n <= |one| && moved + |one| <= |places| && places[..moved] + one <= places
    ensures FlatMoves(offset, places)[..moved] + FlatMoves(offset + moved, one)[..n]
         == FlatMoves(offset, places)[..moved + n]
  {
    assert forall i :: 0 <= i < |one| ==> one[i] == (places[..moved] + one)[moved + i] == places[moved + i];
  }

  // ---------------------------------------------------------------------------
  // Flushes

  /** A request that has been started, by its place in the ring. */
  datatype Request =
    | Write(settled: bool)                               // an OUT whose data went to storage
    | Flush(waitsFor: set<nat>, issued: bool)
    | Other                                              // anything else, an OUT that failed early included

  /** The requests in ring order, and the writes a flush would wait for. */
  datatype State = State(requests: seq<Request>, writes: set<nat>)

  datatype Event =
    | StartWrite
    | StartFlush
    | StartOther
    | Settle(i: nat)
    | Forget(i: nat)                                     // the finally clause after a write
    | Issue(i: nat)                                      // the flush reaches storage

  predicate Enabled(s: State, e: Event)
  {
    match e
    case Settle(i) => i < |s.requests| && s.requests[i].Write? && !s.requests[i].settled
    case Forget(i) => i < |s.requests| && s.requests[i].Write? && s.requests[i].settled
    case Issue(i) =>
      && i < |s.requests| && s.requests[i].Flush? && !s.requests[i].issued
      && forall w :: w in s.requests[i].waitsFor ==> w < |s.requests| && s.requests[w].Write? && s.requests[w].settled
    case _ => true
  }

  function Step(s: State, e: Event): State
    requires Enabled(s, e)
  {
    match e
    case StartWrite => State(s.requests + [Write(false)], s.writes + {|s.requests|})
    case StartFlush => s.(requests := s.requests + [Flush(s.writes, false)])
    case StartOther => s.(requests := s.requests + [Other])
    case Settle(i) => s.(requests := s.requests[i := Write(true)])
    case Forget(i) => s.(writes := s.writes - {i})
    case Issue(i) => s.(requests := s.requests[i := s.requests[i].(issued := true)])
  }

  predicate Run(s: State, events: seq<Event>)
    decreases |events|
  {
    events == [] || (Enabled(s, events[0]) && Run(Step(s, events[0]), events[1..]))
  }

  function After(s: State, events: seq<Event>): State
    requires Run(s, events)
    decreases |events|
  {
    if events == [] then s else After(Step(s, events[0]), events[1..])
  }

  predicate Unsettled(s: State, i: nat)
  {
    i < |s.requests| && s.requests[i].Write? && !s.requests[i].settled
  }

  /** Every write still going on is registered, and every flush waits for those before it. */
  predicate Inv(s: State)
  {
    && (forall i :: 0 <= i < |s.requests| && Unsettled(s, i) ==> i in s.writes)
    && (forall i, j :: 0 <= i < j < |s.requests| && s.requests[j].Flush? && Unsettled(s, i) ==>
                         i in s.requests[j].waitsFor && !s.requests[j].issued)
  }

  lemma StepKeeps(s: State, e: Event)
    requires Inv(s) && Enabled(s, e)
    ensures Inv(Step(s, e))
  {
    var t := Step(s, e);
    forall i | 0 <= i < |t.requests| && Unsettled(t, i) ensures i in t.writes {
      if i < |s.requests| { assert Unsettled(s, i); }
    }
    forall i, j | 0 <= i < j < |t.requests| && t.requests[j].Flush? && Unsettled(t, i)
      ensures i in t.requests[j].waitsFor && !t.requests[j].issued
    {
      assert Unsettled(s, i);
    }
  }

  lemma {:induction false} RunKeeps(s: State, events: seq<Event>)
    requires Inv(s) && Run(s, events)
    ensures Inv(After(s, events))
    decreases |events|
  {
    hide Inv, Enabled, Step;
    if events != [] {
      StepKeeps(s, events[0]);
      RunKeeps(Step(s, events[0]), events[1..]);
    }
  }

  /** In every run, when a flush has reached storage every write earlier in the ring has settled. */
  lemma FlushFollowsEarlierWrites(events: seq<Event>, i: nat, j: nat)
    requires Run(State([], {}), events)
    requires var s := After(State([], {}), events);
             i < j < |s.requests| && s.requests[i].Write? && s.requests[j].Flush? && s.requests[j].issued
    ensures After(State([], {}), events).requests[i].settled
  {
    RunKeeps(State([], {}), events);
    var s := After(State([], {}), events);
    assert !Unsettled(s, i);
  }

  // ---------------------------------------------------------------------------
  // The same, told by what happened

  /** The requests in ring order, as they were started. */
  function Started(events: seq<Event>): seq<Event>
  {
    if events == [] then []
    else
      var e := events[|events| - 1];
      Started(events[..|events| - 1]) + if e.StartWrite? || e.StartFlush? || e.StartOther? then [e] else []
  }

  lemma {:induction false} RunLast(s: State, events: seq<Event>)
    requires Run(s, events) && events != []
    ensures var before, e := events[..|events| - 1], events[|events| - 1];
            Run(s, before) && Enabled(After(s, before), e) && After(s, events) == Step(After(s, before), e)
    decreases |events|
  {
    hide Enabled, Step;
    var before, rest := events[..|events| - 1], events[1..];
    if |events| == 1 {
      assert before == [] && rest == [];
    } else {
      assert before[0] == events[0] && before[1..] == rest[..|rest| - 1];
      RunLast(Step(s, events[0]), rest);
    }
  }

  /** A request is what it was started as, a write is settled once it has settled, a flush out once it was issued. */
  predicate IsAsTold(s: State, events: seq<Event>)
  {
    && |s.requests| == |Started(events)|
    && forall i :: 0 <= i < |s.requests| ==>
                     match s.requests[i]
                     case Write(settled) => Started(events)[i] == StartWrite && (settled <==> Settle(i) in events)
                     case Flush(waitsFor, issued) =>
                       && Started(events)[i] == StartFlush && (issued <==> Issue(i) in events)
                       && forall w :: w in waitsFor ==> w < i && s.requests[w].Write?
                     case Other => Started(events)[i] == StartOther
  }

  /** Registered are exactly the writes started and not yet through their finally clause. */
  ghost predicate WritesAreTold(s: State, events: seq<Event>)
  {
    forall w: nat :: w in s.writes <==> w < |s.requests| && s.requests[w].Write? && Forget(w) !in events
  }

  /** What happens later happens to requests that were started. */
  ghost predicate NamesStarted(events: seq<Event>, n: nat)
  {
    forall i: nat :: Settle(i) in events || Issue(i) in events || Forget(i) in events ==> i < n
  }

  lemma ToldStep(s: State, before: seq<Event>, e: Event)
    requires IsAsTold(s, before) && WritesAreTold(s, before) && Enabled(s, e)
    requires NamesStarted(before, |s.requests|)
    ensures IsAsTold(Step(s, e), before + [e]) && WritesAreTold(Step(s, e), before + [e])
    ensures NamesStarted(before + [e], |Step(s, e).requests|)
  {
    assert (before + [e])[..|before|] == before;
    assert Started(before + [e])
        == Started(before) + if e.StartWrite? || e.StartFlush? || e.StartOther? then [e] else [];
  }

  lemma {:induction false} RunIsAsTold(events: seq<Event>)
    requires Run(State([], {}), events)
    ensures IsAsTold(After(State([], {}), events), events) && WritesAreTold(After(State([], {}), events), events)
    ensures NamesStarted(events, |After(State([], {}), events).requests|)
  {
    hide Enabled, Step, IsAsTold, WritesAreTold;
    if events == [] {
      NothingTold();
    } else {
      var before := events[..|events| - 1];
      RunLast(State([], {}), events);
      RunIsAsTold(before);
      ToldStep(After(State([], {}), before), before, events[|events| - 1]);
      assert events == before + [events[|events| - 1]];
    }
  }

  lemma NothingTold()
    ensures IsAsTold(State([], {}), []) && WritesAreTold(State([], {}), [])
  {
  }

  /**
   Over all runs: a flush may reach storage exactly if it has not yet and every
   write started before it in the ring has settled. No later write holds it up.
   */
  lemma FlushMayGoExactly(events: seq<Event>, j: nat)
    requires Run(State([], {}), events) && j < |Started(events)| && Started(events)[j] == StartFlush
    ensures Enabled(After(State([], {}), events), Issue(j))
       <==> && Issue(j) !in events
            && forall i :: 0 <= i < j && Started(events)[i] == StartWrite ==> Settle(i) in events
  {
    var s := After(State([], {}), events);
    RunIsAsTold(events);
    RunKeeps(State([], {}), events);
    hide Run, After, Started;
    if Enabled(s, Issue(j)) {
      forall i | 0 <= i < j && Started(events)[i] == StartWrite ensures Settle(i) in events {
        assert s.requests[i].Write?;
        assert !Unsettled(s, i);
      }
    }
  }
}
