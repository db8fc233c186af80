/**
 The pool of lanes of one guest session (packages/linux-guest/src/conn.ts): a
 lane serves one exchange at a time, and at most 64 are ever open, which is what
 lets an exchange treat its lane's bytes as its own.
 */
module LanePool {
  import opened Wrappers

  const MaxLanes: nat := 64

  type Lane = nat
  type Exchange = nat

  /** The session's fields, who holds or is opening a lane, and the next new lane. */
  datatype Pool = Pool(
    free: seq<Lane>, laneCount: int, waiters: seq<Exchange>, dead: bool,
    held: map<Exchange, Lane>, opening: set<Exchange>, nextLane: Lane)

  datatype Event =
    | Acquire(x: Exchange)
    | Opened(x: Exchange)            // its connection and handshake succeeded
    | NotOpened(x: Exchange)
    | Release(x: Exchange)
    | Fail(x: Exchange)              // the exchange threw: a wire violation
    | Die

  const Fresh: Pool := Pool([], 0, [], false, map[], {}, 0)

  function Dead(p: Pool): Pool
  {
    if p.dead then p else p.(dead := true, waiters := [], free := [])
  }

  predicate Enabled(p: Pool, e: Event)
  {
    match e
    case Acquire(x) => x !in p.held && x !in p.opening && x !in p.waiters
    case Opened(x) => x in p.opening
    case NotOpened(x) => x in p.opening
    case Release(x) => x in p.held
    case Fail(x) => x in p.held
    case Die => true
  }

  function Acquired(p: Pool, x: Exchange): Pool
  {
    if p.dead then p
    else if p.free != [] then p.(free := p.free[..|p.free| - 1], held := p.held[x := p.free[|p.free| - 1]])
    else if p.laneCount < MaxLanes then p.(laneCount := p.laneCount + 1, opening := p.opening + {x})
    else p.(waiters := p.waiters + [x])
  }

  function Released(p: Pool, x: Exchange): Pool
    requires x in p.held
  {
    var rest := p.(held := p.held - {x});
    if p.dead then rest
    else if p.waiters != [] then rest.(waiters := p.waiters[1..], held := rest.held[p.waiters[0] := p.held[x]])
    else rest.(free := p.free + [p.held[x]])
  }

  function Step(p: Pool, e: Event): Pool
    requires Enabled(p, e)
  {
    match e
    case Acquire(x) => Acquired(p, x)
    case Opened(x) =>
      var q := p.(opening := p.opening - {x}, nextLane := p.nextLane + 1);
      if p.dead then q.(laneCount := p.laneCount - 1) else q.(held := p.held[x := p.nextLane])
    case NotOpened(x) => p.(opening := p.opening - {x}, laneCount := p.laneCount - 1)
    case Release(x) => Released(p, x)
    case Fail(x) => Dead(p).(held := p.held - {x}, laneCount := p.laneCount - 1)
    case Die => Dead(p)
  }

  predicate Run(p: Pool, events: seq<Event>)
    decreases |events|
  {
    events == [] || (Enabled(p, events[0]) && Run(Step(p, events[0]), events[1..]))
  }

  function After(p: Pool, events: seq<Event>): Pool
    requires Run(p, events)
    decreases |events|
  {
    if events == [] then p else After(Step(p, events[0]), events[1..])
  }

  /** No lane is in two places. */
  predicate Exclusive(free: seq<Lane>, held: map<Exchange, Lane>, nextLane: Lane)
  {
    && (forall x, y :: x in held && y in held && x != y ==> held[x] != held[y])
    && (forall x, i :: x in held && 0 <= i < |free| ==> held[x] != free[i])
    && (forall i, j :: 0 <= i < j < |free| ==> free[i] != free[j])
    && (forall x :: x in held ==> held[x] < nextLane) && (forall i :: 0 <= i < |free| ==> free[i] < nextLane)
  }

  /** An exchange is in one place. */
  predicate OnePlace(held: map<Exchange, Lane>, opening: set<Exchange>, waiters: seq<Exchange>)
  {
    && (forall x :: x in held ==> x !in opening && x !in waiters)
    && (forall x :: x in opening ==> x !in waiters)
    && (forall i, j :: 0 <= i < j < |waiters| ==> waiters[i] != waiters[j])
  }

  predicate Counted(p: Pool)
  {
    && p.laneCount <= MaxLanes && |p.held| + |p.opening| + |p.free| <= p.laneCount
    && (!p.dead ==> |p.held| + |p.opening| + |p.free| == p.laneCount)
    && (p.dead ==> p.free == [] && p.waiters == [])
  }

  predicate Inv(p: Pool)
  {
    Exclusive(p.free, p.held, p.nextLane) && OnePlace(p.held, p.opening, p.waiters) && Counted(p)
  }

  lemma Without(m: map<Exchange, Lane>, x: Exchange)
    requires x in m
    ensures |m - {x}| == |m| - 1
  {
    assert (m - {x}).Keys == m.Keys - {x};
  }

  lemma With(m: map<Exchange, Lane>, x: Exchange, lane: Lane)
    requires x !in m
    ensures |m[x := lane]| == |m| + 1
  {
    assert m[x := lane].Keys == m.Keys + {x};
  }

  lemma AcquireCounts(p: Pool, x: Exchange)
    requires Counted(p) && Enabled(p, Acquire(x))
    ensures Counted(Acquired(p, x))
  {
    if p.free != [] { With(p.held, x, p.free[|p.free| - 1]); }
  }

  lemma ReleaseCounts(p: Pool, x: Exchange)
    requires Counted(p) && OnePlace(p.held, p.opening, p.waiters) && x in p.held
    ensures Counted(Released(p, x))
  {
    Without(p.held, x);
    if !p.dead && p.waiters != [] {
      assert p.waiters[0] in p.waiters;
      With(p.held - {x}, p.waiters[0], p.held[x]);
    }
  }

  lemma StepCounts(p: Pool, e: Event)
    requires Inv(p) && Enabled(p, e)
    ensures Counted(Step(p, e))
  {
    hide Exclusive, Acquired, Released;
    match e
    case Acquire(x) => AcquireCounts(p, x);
    case Opened(x) => if !p.dead { With(p.held, x, p.nextLane); }
    case NotOpened(_) =>
    case Release(x) => ReleaseCounts(p, x);
    case Fail(x) => Without(p.held, x);
    case Die =>
  }

  lemma StepExclusive(p: Pool, e: Event)
    requires Inv(p) && Enabled(p, e)
    ensures Exclusive(Step(p, e).free, Step(p, e).held, Step(p, e).nextLane)
  {
    hide Counted;
  }

  lemma StepOnePlace(p: Pool, e: Event)
    requires Inv(p) && Enabled(p, e)
    ensures OnePlace(Step(p, e).held, Step(p, e).opening, Step(p, e).waiters)
  {
    hide Exclusive, Counted;
  }

  lemma {:induction false} RunKeeps(p: Pool, events: seq<Event>)
    requires Inv(p) && Run(p, events)
    ensures Inv(After(p, events))
    decreases |events|
  {
    hide Exclusive, OnePlace, Counted, Enabled, Step;
    if events != [] {
      StepCounts(p, events[0]);
      StepExclusive(p, events[0]);
      StepOnePlace(p, events[0]);
      RunKeeps(Step(p, events[0]), events[1..]);
    }
  }

  /**
   In every run no two exchanges hold one lane, no held lane is free for another,
   and at most 64 lanes are open or opening.
   */
  lemma LanesAreExclusive(events: seq<Event>)
    requires Run(Fresh, events)
    ensures var p := After(Fresh, events);
            && (forall x, y :: x in p.held && y in p.held && x != y ==> p.held[x] != p.held[y])
            && (forall x, i :: x in p.held && 0 <= i < |p.free| ==> p.held[x] != p.free[i])
            && |p.held| + |p.opening| + |p.free| <= MaxLanes
  {
    RunKeeps(Fresh, events);
  }

  // ---------------------------------------------------------------------------
  // Who gets a lane, and who may wait in vain

  /** Nobody waits while a lane is free. */
  predicate NoneWaitsForFree(p: Pool)
  {
    p.waiters == [] || p.free == []
  }

  lemma {:induction false} RunServes(p: Pool, events: seq<Event>)
    requires NoneWaitsForFree(p) && Run(p, events)
    ensures NoneWaitsForFree(After(p, events))
    decreases |events|
  {
    hide Enabled;
    if events != [] { RunServes(Step(p, events[0]), events[1..]); }
  }

  /**
   In every run of a live session, who asks for a lane holds a free one at once if
   there is one; otherwise opens one if fewer than 64 are held and being opened;
   and only otherwise waits, behind all who wait already.
   */
  lemma AskingExactly(events: seq<Event>, x: Exchange)
    requires Run(Fresh, events) && Enabled(After(Fresh, events), Acquire(x)) && !After(Fresh, events).dead
    ensures var p := After(Fresh, events);
            var q, inUse := Step(p, Acquire(x)), |p.held| + |p.opening|;
            && (x in q.held <==> p.free != [])
            && (x in q.held ==>
                  q.held == p.held[x := q.held[x]] && exists i :: 0 <= i < |p.free| && q.held[x] == p.free[i])
            && (x in q.opening <==> p.free == [] && inUse < 64)
            && q.waiters == (if p.free == [] && inUse == 64 then p.waiters + [x] else p.waiters)
  {
    hide Run, After, Exclusive, OnePlace;
    FreshInv();
    RunKeeps(Fresh, events);
    var p := After(Fresh, events);
    if p.free != [] {
      assert Step(p, Acquire(x)).held[x] == p.free[|p.free| - 1];
    }
  }

  /** What a step does to those who wait: the first gets the lane that is released, a death ends it, else they stay. */
  lemma WaitersStep(p: Pool, e: Event)
    requires Inv(p) && Enabled(p, e) && p.waiters != []
    ensures var q, first := Step(p, e), p.waiters[0];
            match e
            case Release(x) =>
              && q.waiters == p.waiters[1..] && first in q.held && q.held[first] == p.held[x] && x !in q.held
              && forall y :: y in p.held && y != x ==> y in q.held && q.held[y] == p.held[y]
            case Acquire(x) => q.waiters == p.waiters || q.waiters == p.waiters + [x]
            case Fail(_) => q.waiters == [] && q.dead
            case Die => q.waiters == [] && q.dead
            case _ => q.waiters == p.waiters
  {
    hide Exclusive;
    assert p.waiters[0] in p.waiters;
  }

  /** Once a session is dead it stays dead, and nobody comes to hold a lane, to open one or to wait. */
  lemma DeadGivesNothing(p: Pool, e: Event)
    requires Inv(p) && Enabled(p, e) && p.dead
    ensures var q := Step(p, e);
            && q.dead && q.free == [] && q.waiters == [] && q.opening <= p.opening
            && forall x :: x in q.held ==> x in p.held && q.held[x] == p.held[x]
  {
    hide Exclusive;
  }

  /** Someone waits, and no lane is held or being opened that could come to be released. */
  predicate WaitsInVain(p: Pool)
  {
    !p.dead && p.waiters != [] && p.held == map[] && p.opening == {}
  }

  /**
   A step leaves an exchange waiting in vain exactly if it is the failure to open
   of the only lane in use, while the session lives and someone waits: the place
   is given back, but nobody who waits is told.
   */
  lemma WaitsInVainExactly(p: Pool, e: Event)
    requires Inv(p) && NoneWaitsForFree(p) && Enabled(p, e)
    ensures WaitsInVain(Step(p, e))
       <==> e.NotOpened? && p.opening == {e.x} && p.held == map[] && !p.dead && p.waiters != []
  {
    hide Exclusive;
    if p.held == map[] && p.opening == {} && p.free == [] && !p.dead {
      assert p.laneCount == 0;
    }
    if e.Release? && p.waiters != [] { assert p.waiters[0] in Step(p, e).held || p.dead; }
  }

  lemma FreshInv()
    ensures Inv(Fresh)
  {
  }

  function Asks(n: nat): seq<Event>
  {
    if n == 0 then [] else Asks(n - 1) + [Acquire(n - 1)]
  }

  function Below(n: nat): (s: set<Exchange>)
    ensures forall x: Exchange :: x in s <==> x < n
  {
    if n == 0 then {} else Below(n - 1) + {n - 1}
  }

  function Failures(n: nat): seq<Event>
  {
    if n == 0 then [] else [NotOpened(n - 1)] + Failures(n - 1)
  }

  lemma {:induction false} RunJoins(p: Pool, a: seq<Event>, b: seq<Event>)
    requires Run(p, a) && Run(After(p, a), b)
    ensures Run(p, a + b) && After(p, a + b) == After(After(p, a), b)
    decreases |a|
  {
    hide Enabled, Step;
    if a == [] {
      assert a + b == b;
    } else {
      assert (a + b)[0] == a[0] && (a + b)[1..] == a[1..] + b;
      RunJoins(Step(p, a[0]), a[1..], b);
    }
  }

  lemma {:induction false} AskedFor(n: nat)
    requires n <= 64
    ensures Run(Fresh, Asks(n))
    ensures After(Fresh, Asks(n)) == Fresh.(laneCount := n, opening := Below(n))
  {
    if n > 0 {
      AskedFor(n - 1);
      var p := After(Fresh, Asks(n - 1));
      assert n - 1 !in Below(n - 1);
      assert [Acquire(n - 1)][1..] == [];
      RunJoins(Fresh, Asks(n - 1), [Acquire(n - 1)]);
    }
  }

  lemma {:induction false} FailedAll(p: Pool, n: nat)
    requires p.opening == Below(n)
    ensures Run(p, Failures(n))
    ensures After(p, Failures(n)) == p.(laneCount := p.laneCount - n, opening := {})
    decreases n
  {
    if n > 0 {
      var q := Step(p, NotOpened(n - 1));
      assert Below(n) - {n - 1} == Below(n - 1);
      assert Failures(n)[1..] == Failures(n - 1);
      FailedAll(q, n - 1);
    } else {
      assert p.opening == {};
    }
  }

  /** That happens: 65 ask at once, and none of the 64 connections succeeds. */
  lemma WaitingInVainHappens()
    ensures var events := Asks(64) + [Acquire(64)] + Failures(64);
            Run(Fresh, events) && WaitsInVain(After(Fresh, events))
  {
    hide Asks, Failures;
    AskedFor(64);
    var p := After(Fresh, Asks(64));
    assert [Acquire(64)][1..] == [];
    RunJoins(Fresh, Asks(64), [Acquire(64)]);
    FailedAll(Step(p, Acquire(64)), 64);
    RunJoins(Fresh, Asks(64) + [Acquire(64)], Failures(64));
  }

  // ---------------------------------------------------------------------------
  // The program

  class Session {
    var free: seq<Lane>
    var laneCount: int
    var waiters: seq<Exchange>
    var dead: bool
    ghost var held: map<Exchange, Lane>
    ghost var opening: set<Exchange>
    ghost var nextLane: Lane

    ghost function Now(): Pool
      reads this
    {
      Pool(free, laneCount, waiters, dead, held, opening, nextLane)
    }

    constructor ()
      ensures Now() == Fresh
    {
      free, laneCount, waiters, dead, held, opening, nextLane := [], 0, [], false, map[], {}, 0;
    }

    /**
     acquire, up to its first await: a lane at once, or None while it opens one or
     waits, or where the session is dead.
     */
    method Acquire(x: Exchange) returns (lane: Option<Lane>)
      modifies this
      ensures Now() == Acquired(old(Now()), x)
      ensures lane.Some? <==> !old(dead) && old(free) != []
      ensures lane.Some? ==> x in held && held[x] == lane.value
    {
      if dead {
        return None;
      }
      if |free| > 0 {
        lane := Some(free[|free| - 1]);
        free := free[..|free| - 1];
        held := held[x := lane.value];
        return;
      }
      if laneCount < MaxLanes {
        laneCount := laneCount + 1;
        opening := opening + {x};
        return None;
      }
      waiters := waiters + [x];
      return None;
    }

    /** acquire, once its connection has shaken hands: a new lane, or an error where the session died meanwhile. */
    method FinishOpening(ghost x: Exchange, lane: Lane) returns (ok: bool)
      requires x in opening && lane == nextLane
      modifies this
      ensures Now() == Step(old(Now()), Opened(x))
      ensures ok <==> !old(dead)
      ensures ok ==> x in held && held[x] == lane
    {
      opening, nextLane := opening - {x}, nextLane + 1;
      if dead {
        laneCount := laneCount - 1;
        return false;
      }
      held := held[x := lane];
      return true;
    }

    /** acquire, where connecting or the handshake failed: its place is given back. */
    method AbandonOpening(ghost x: Exchange)
      requires x in opening
      modifies this
      ensures Now() == Step(old(Now()), NotOpened(x))
    {
      opening := opening - {x};
      laneCount := laneCount - 1;
    }

    /** exchange, where its function threw: the session dies and the lane is gone. */
    method FailExchange(ghost x: Exchange)
      requires x in held
      modifies this
      ensures Now() == Step(old(Now()), Fail(x))
    {
      Die();
      held := held - {x};
      laneCount := laneCount - 1;
    }

    /** release: to the first waiter, or back to the pool. */
    method Release(ghost x: Exchange, lane: Lane) returns (next: Option<Exchange>)
      requires x in held && held[x] == lane
      modifies this
      ensures Now() == Released(old(Now()), x)
      ensures next.Some? <==> !old(dead) && old(waiters) != []
      ensures next.Some? ==> next.value == old(waiters)[0] && next.value in held && held[next.value] == lane
    {
      held := held - {x};
      if dead {
        return None;
      }
      if |waiters| > 0 {
        next := Some(waiters[0]);
        waiters := waiters[1..];
        held := held[next.value := lane];
        return;
      }
      free := free + [lane];
      return None;
    }

    /** die. */
    method Die()
      modifies this
      ensures Now() == Dead(old(Now()))
    {
      if !dead {
        dead, waiters, free := true, [], [];
      }
    }
  }
}
