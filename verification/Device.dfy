/**
 The scheduling half of a virtio device (packages/kernel/src/virtio/device.ts):
 kicks, the drain loop, spawned work, reset and shutdown. One event is one
 synchronous turn; an `await` ends a turn. Work is numbered in starting order.
 */
module Device {
  import opened Wrappers

  /** A drain loop is either not running or suspended at its await. */
  datatype Drain = Idle | AwaitingNothing | AwaitingKick(work: nat)

  datatype Queue = Queue(queue: Option<nat>, pending: bool, drain: Drain)

  const NoQueue := Queue(None, false, Idle)

  datatype Outcome = Running | Succeeded | Failed

  /** A kick, or work spawned by one: the queue and the queue generation its chains came from. */
  datatype Work = Work(vq: nat, generation: nat, kick: bool, outcome: Outcome)

  datatype Shutdown = Open | Waiting(snapshot: set<nat>) | Closing | Closed

  /** A reset as run: the work it must wait for, and how many generations existed. */
  datatype ResetRun = ResetRun(snapshot: set<nat>, generations: nat)

  datatype State = State(
    size: nat, queues: map<nat, Queue>, generations: nat,
    works: seq<Work>, active: set<nat>, turn: Option<nat>,
    stopped: bool, shutdown: Shutdown, closes: nat, resets: seq<ResetRun>)

  datatype Event =
    | Enable(vq: nat)
    | Disable(vq: nat)
    | Notify(vq: nat)
    | Reset
    | Settle(work: nat, ok: bool)
    | Leave(work: nat)
    | Resume(vq: nat)
    | Spawn(parent: nat)
    | Stop
    | StopResume
    | CloseSettles

  function Init(size: nat): State
  {
    State(size, map[], 0, [], {}, None, false, Open, 0, [])
  }

  function QueueOf(queues: map<nat, Queue>, vq: nat): Queue
  {
    if vq in queues then queues[vq] else NoQueue
  }

  predicate Settled(works: seq<Work>, w: nat)
  {
    w < |works| && works[w].outcome != Running
  }

  predicate AllSettled(works: seq<Work>, ws: set<nat>)
  {
    forall w :: w in ws ==> Settled(works, w)
  }

  /**
   When each turn can happen. A promise settles once; its continuations run
   later, in any order the model allows. Work is spawned by running work.
   */
  predicate Enabled(s: State, e: Event)
  {
    match e
    case Settle(w, _) => w < |s.works| && s.works[w].outcome == Running
    case Leave(w) => w in s.active && Settled(s.works, w)
    case Resume(vq) =>
      (match QueueOf(s.queues, vq).drain
       case Idle => false
       case AwaitingNothing => true
       case AwaitingKick(w) => Settled(s.works, w))
    case Spawn(parent) => parent < |s.works| && s.works[parent].outcome == Running
    case StopResume => s.shutdown.Waiting? && AllSettled(s.works, s.shutdown.snapshot)
    case CloseSettles => s.shutdown.Closing?
    case _ => true
  }

  function Apply(s: State, e: Event): State
    requires Enabled(s, e)
  {
    match e
    case Enable(vq) => AfterEnable(s, vq)
    case Disable(vq) => AfterDisable(s, vq)
    case Notify(vq) => AfterNotify(s, vq)
    case Reset => AfterReset(s)
    case Settle(w, ok) =>
      s.(works := s.works[w := s.works[w].(outcome := if ok then Succeeded else Failed)], turn := None)
    case Leave(w) => s.(active := s.active - {w}, turn := None)
    case Resume(vq) => AfterResume(s, vq)
    case Spawn(parent) => AfterSpawn(s, parent)
    case Stop => AfterStop(s)
    case StopResume => CloseWhenIdle(s)
    case CloseSettles => s.(shutdown := Closed, turn := None)
  }

  function Put(s: State, vq: nat, q: Queue): State
  {
    s.(queues := s.queues[vq := q])
  }

  /** One pass of the drain loop's body, up to its await. */
  function LoopBody(s: State, vq: nat): State
  {
    var q := QueueOf(s.queues, vq).(pending := false);
    if s.stopped then Put(s, vq, q.(drain := AwaitingNothing))
    else if vq >= s.size || q.queue.None? then Put(s, vq, q.(drain := Idle))
    else
      var w := |s.works|;
      Put(s, vq, q.(drain := AwaitingKick(w)))
      .(works := s.works + [Work(vq, q.queue.value, true, Running)], active := s.active + {w}, turn := Some(w))
  }

  function StartDrain(s: State, vq: nat): State
  {
    var q := QueueOf(s.queues, vq);
    if !q.drain.Idle? || q.queue.None? then s else LoopBody(s, vq)
  }

  function AfterEnable(s: State, vq: nat): State
  {
    var q := QueueOf(s.queues, vq);
    var t := Put(s, vq, q.(queue := Some(s.generations))).(generations := s.generations + 1, turn := None);
    if q.pending then StartDrain(t, vq) else t
  }

  function AfterDisable(s: State, vq: nat): State
  {
    if vq in s.queues then Put(s, vq, s.queues[vq].(queue := None, pending := false)).(turn := None)
    else s.(turn := None)
  }

  function AfterNotify(s: State, vq: nat): State
  {
    StartDrain(Put(s, vq, QueueOf(s.queues, vq).(pending := true)).(turn := None), vq)
  }

  function AfterReset(s: State): State
  {
    s.(queues := map vq | vq in s.queues :: s.queues[vq].(queue := None, pending := false),
       resets := s.resets + [ResetRun(s.active, s.generations)], turn := None)
  }

  /** The drain loop past its await: loop while notified and enabled, or leave. */
  function AfterResume(s: State, vq: nat): State
  {
    var q := QueueOf(s.queues, vq);
    var t := s.(turn := None);
    if q.drain.AwaitingKick? && q.drain.work < |s.works| && s.works[q.drain.work].outcome == Failed then
      Put(t, vq, q.(drain := Idle))
    else if q.pending && q.queue.Some? then LoopBody(t, vq)
    else Put(t, vq, q.(drain := Idle))
  }

  function AfterSpawn(s: State, parent: nat): State
    requires parent < |s.works|
  {
    s.(works := s.works + [s.works[parent].(kick := false, outcome := Running)], active := s.active + {|s.works|})
  }

  function AfterStop(s: State): State
  {
    if s.stopped then s.(turn := None) else CloseWhenIdle(s.(stopped := true))
  }

  /** The head of shutdown's loop: wait again while anything is active, else close. */
  function CloseWhenIdle(s: State): State
  {
    if s.active != {} then s.(shutdown := Waiting(s.active), turn := None)
    else s.(shutdown := Closing, closes := s.closes + 1, turn := None)
  }

  // ---------------------------------------------------------------------------
  // The class: each method is one turn

  class VirtioDevice {
    const size: nat
    var queues: map<nat, Queue>
    var generations: nat
    var works: seq<Work>
    var active: set<nat>
    var turn: Option<nat>
    var stopped: bool
    var shutdown: Shutdown
    var closes: nat
    var resets: seq<ResetRun>

    function Abs(): State
      reads this
    {
      State(size, queues, generations, works, active, turn, stopped, shutdown, closes, resets)
    }

    constructor (size: nat)
      ensures Abs() == Init(size)
    {
      this.size := size;
      queues, generations, works, active, turn := map[], 0, [], {}, None;
      stopped, shutdown, closes, resets := false, Open, 0, [];
    }

    /** The drain loop's body: clear the notification and dispatch a kick. */
    method DispatchKick(vq: nat)
      modifies this
      ensures Abs() == LoopBody(old(Abs()), vq)
    {
      var q := QueueOf(queues, vq);
      q := q.(pending := false);
      if stopped {
        queues := queues[vq := q.(drain := AwaitingNothing)];
        return;
      }
      if vq >= size || q.queue.None? {
        queues := queues[vq := q.(drain := Idle)];
        return;
      }
      // Tracked before running, so a kick that shuts the device down is awaited.
      var w := |works|;
      active := active + {w};
      works := works + [Work(vq, q.queue.value, true, Running)];
      queues := queues[vq := q.(drain := AwaitingKick(w))];
      turn := Some(w);
    }

    method BeginDrain(vq: nat)
      modifies this
      ensures Abs() == StartDrain(old(Abs()), vq)
    {
      var q := QueueOf(queues, vq);
      if !q.drain.Idle? || q.queue.None? {
        return;
      }
      DispatchKick(vq);
    }

    method ResumeDrain(vq: nat)
      requires Enabled(Abs(), Resume(vq))
      modifies this
      ensures Abs() == Apply(old(Abs()), Resume(vq))
    {
      turn := None;
      var q := QueueOf(queues, vq);
      if q.drain.AwaitingKick? && works[q.drain.work].outcome == Failed {
        queues := queues[vq := q.(drain := Idle)];
      } else if q.pending && q.queue.Some? {
        DispatchKick(vq);
      } else {
        queues := queues[vq := q.(drain := Idle)];
      }
    }

    method EnableQueue(vq: nat)
      modifies this
      ensures Abs() == Apply(old(Abs()), Enable(vq))
    {
      turn := None;
      var q := QueueOf(queues, vq);
      queues := queues[vq := q.(queue := Some(generations))];
      generations := generations + 1;
      if q.pending {
        BeginDrain(vq);
      }
    }

    method DisableQueue(vq: nat)
      modifies this
      ensures Abs() == Apply(old(Abs()), Disable(vq))
    {
      turn := None;
      if vq !in queues {
        return;
      }
      queues := queues[vq := queues[vq].(queue := None, pending := false)];
    }

    method NotifyQueue(vq: nat)
      modifies this
      ensures Abs() == Apply(old(Abs()), Notify(vq))
    {
      turn := None;
      queues := queues[vq := QueueOf(queues, vq).(pending := true)];
      BeginDrain(vq);
    }

    method ResetQueues()
      modifies this
      ensures Abs() == Apply(old(Abs()), Reset)
    {
      turn := None;
      var todo := queues.Keys;
      while todo != {}
        invariant todo <= queues.Keys == old(queues).Keys
        invariant forall vq :: vq in queues ==>
                                 queues[vq] == if vq in todo then old(queues)[vq]
                                 else old(queues)[vq].(queue := None, pending := false)
        invariant turn == None && generations == old(generations) && works == old(works) && active == old(active)
        invariant stopped == old(stopped) && shutdown == old(shutdown) && closes == old(closes) && resets == old(resets)
        decreases todo
      {
        var vq :| vq in todo;
        queues := queues[vq := queues[vq].(queue := None, pending := false)];
        todo := todo - {vq};
      }
      resets := resets + [ResetRun(active, generations)];
    }

    method SpawnWork(parent: nat)
      requires Enabled(Abs(), Spawn(parent))
      modifies this
      ensures Abs() == Apply(old(Abs()), Spawn(parent))
    {
      active := active + {|works|};
      works := works + [works[parent].(kick := false, outcome := Running)];
    }

    /** Starting a shutdown runs its first pass at once; later passes follow each wait. */
    method ShutDown()
      modifies this
      ensures Abs() == Apply(old(Abs()), Stop)
    {
      turn := None;
      if stopped {
        return;
      }
      stopped := true;
      ShutDownPass();
    }

    method ShutDownPass()
      modifies this
      ensures Abs() == CloseWhenIdle(old(Abs()))
    {
      turn := None;
      if active != {} {
        shutdown := Waiting(active);
        return;
      }
      shutdown, closes := Closing, closes + 1;
    }
  }

  // ---------------------------------------------------------------------------
  // Runs

  predicate Run(s: State, events: seq<Event>)
    decreases |events|
  {
    events == [] || (Enabled(s, events[0]) && Run(Apply(s, events[0]), events[1..]))
  }

  function Final(s: State, events: seq<Event>): State
    requires Run(s, events)
    decreases |events|
  {
    if events == [] then s else Final(Apply(s, events[0]), events[1..])
  }

  /** The state that the k-th event of a run finds. */
  function At(s: State, events: seq<Event>, k: nat): State
    requires Run(s, events) && k <= |events|
    decreases k
  {
    if k == 0 then s else At(Apply(s, events[0]), events[1..], k - 1)
  }

  // ---------------------------------------------------------------------------
  // The invariant

  /** Whatever runs is in the active set, and shutdown's close found it empty for good. */
  predicate Tracked(works: seq<Work>, active: set<nat>)
  {
    && (forall w :: w in active ==> w < |works|)
    && (forall w :: 0 <= w < |works| && works[w].outcome == Running ==> w in active)
  }

  /** A running kick is the one its queue's drain awaits. */
  predicate DrainsMatch(queues: map<nat, Queue>, works: seq<Work>)
  {
    && (forall w :: 0 <= w < |works| && works[w].kick && works[w].outcome == Running ==>
                      QueueOf(queues, works[w].vq).drain == AwaitingKick(w))
    && (forall vq :: vq in queues && queues[vq].drain.AwaitingKick? ==> queues[vq].drain.work < |works|)
  }

  predicate GenerationsKnown(queues: map<nat, Queue>, works: seq<Work>, generations: nat)
  {
    && (forall vq :: vq in queues && queues[vq].queue.Some? ==> queues[vq].queue.value < generations)
    && (forall w :: 0 <= w < |works| ==> works[w].generation < generations)
  }

  predicate ShutdownAgrees(stopped: bool, shutdown: Shutdown, closes: nat, active: set<nat>)
  {
    && (stopped <==> !shutdown.Open?)
    && closes == (if shutdown.Closing? || shutdown.Closed? then 1 else 0)
    && (shutdown.Closing? || shutdown.Closed? ==> active == {})
  }

  /** What `before` waits for has settled unless `after` waits for it too. */
  predicate Carried(works: seq<Work>, before: set<nat>, after: set<nat>)
  {
    forall w :: w in before && w !in after ==> Settled(works, w)
  }

  /** Work a reset waits for has settled or is still waited for by every later reset, and is active till then. */
  predicate ResetsNested(works: seq<Work>, active: set<nat>, resets: seq<ResetRun>)
  {
    && (forall i :: 0 <= i < |resets| ==>
                      Carried(works, resets[i].snapshot, active) && InWorks(works, resets[i].snapshot))
    && (forall i, j :: 0 <= i < j < |resets| ==> Carried(works, resets[i].snapshot, resets[j].snapshot))
  }

  predicate InWorks(works: seq<Work>, ws: set<nat>)
  {
    forall w :: w in ws ==> w < |works|
  }

  predicate Inv(s: State)
  {
    && Tracked(s.works, s.active)
    && DrainsMatch(s.queues, s.works)
    && GenerationsKnown(s.queues, s.works, s.generations)
    && ShutdownAgrees(s.stopped, s.shutdown, s.closes, s.active)
    && ResetsNested(s.works, s.active, s.resets)
  }

  // ---------------------------------------------------------------------------
  // Each turn keeps it

  /** Settling more work, and leaving the active set only once settled, keeps the nesting. */
  lemma NestingKept(works: seq<Work>, after: seq<Work>, active: set<nat>, still: set<nat>, resets: seq<ResetRun>)
    requires ResetsNested(works, active, resets) && |works| <= |after|
    requires forall w: nat :: Settled(works, w) ==> Settled(after, w)
    requires forall w :: w in active && w !in still ==> Settled(after, w)
    ensures ResetsNested(after, still, resets)
  {
    hide Settled;
    forall i | 0 <= i < |resets|
      ensures Carried(after, resets[i].snapshot, still) && InWorks(after, resets[i].snapshot)
    {
      assert Carried(works, resets[i].snapshot, active) && InWorks(works, resets[i].snapshot);
    }
    forall i, j | 0 <= i < j < |resets|
      ensures Carried(after, resets[i].snapshot, resets[j].snapshot)
    {
      assert Carried(works, resets[i].snapshot, resets[j].snapshot);
    }
  }

  lemma LoopBodyKeeps(s: State, vq: nat)
    requires Tracked(s.works, s.active) && DrainsMatch(s.queues, s.works)
    requires GenerationsKnown(s.queues, s.works, s.generations)
    requires ShutdownAgrees(s.stopped, s.shutdown, s.closes, s.active) && ResetsNested(s.works, s.active, s.resets)
    requires NoKickRunning(s.works, vq)
    ensures Inv(LoopBody(s, vq))
  {
    hide ResetsNested;
    var t := LoopBody(s, vq);
    NestingKept(s.works, t.works, s.active, t.active, s.resets);
  }

  predicate NoKickRunning(works: seq<Work>, vq: nat)
  {
    forall w :: 0 <= w < |works| && works[w].kick && works[w].vq == vq ==> works[w].outcome != Running
  }

  lemma StartDrainKeeps(s: State, vq: nat)
    requires Tracked(s.works, s.active) && DrainsMatch(s.queues, s.works)
    requires GenerationsKnown(s.queues, s.works, s.generations)
    requires ShutdownAgrees(s.stopped, s.shutdown, s.closes, s.active) && ResetsNested(s.works, s.active, s.resets)
    ensures Inv(StartDrain(s, vq))
  {
    hide ResetsNested, ShutdownAgrees, Tracked, GenerationsKnown;
    var q := QueueOf(s.queues, vq);
    if q.drain.Idle? && q.queue.Some? {
      LoopBodyKeeps(s, vq);
    }
  }

  lemma ResumeKeeps(s: State, vq: nat)
    requires Inv(s) && Enabled(s, Resume(vq))
    ensures Inv(AfterResume(s, vq))
  {
    hide ResetsNested, ShutdownAgrees, Tracked;
    var q := QueueOf(s.queues, vq);
    assert NoKickRunning(s.works, vq) by {
      forall w | 0 <= w < |s.works| && s.works[w].kick && s.works[w].vq == vq
        ensures s.works[w].outcome != Running
      {
        assert s.works[w].outcome == Running ==> q.drain == AwaitingKick(w) && Settled(s.works, w);
      }
    }
    if q.pending && q.queue.Some? {
      LoopBodyKeeps(s.(turn := None), vq);
    }
  }

  lemma SettleKeeps(s: State, w: nat, ok: bool)
    requires Inv(s) && Enabled(s, Settle(w, ok))
    ensures Inv(Apply(s, Settle(w, ok)))
  {
    hide ResetsNested, ShutdownAgrees;
    NestingKept(s.works, Apply(s, Settle(w, ok)).works, s.active, s.active, s.resets);
  }

  lemma LeaveKeeps(s: State, w: nat)
    requires Inv(s) && Enabled(s, Leave(w))
    ensures Inv(Apply(s, Leave(w)))
  {
    hide ResetsNested, DrainsMatch, GenerationsKnown;
    NestingKept(s.works, s.works, s.active, s.active - {w}, s.resets);
  }

  lemma SpawnKeeps(s: State, parent: nat)
    requires Inv(s) && Enabled(s, Spawn(parent))
    ensures Inv(Apply(s, Spawn(parent)))
  {
    hide ResetsNested;
    var t := Apply(s, Spawn(parent));
    assert parent in s.active;
    NestingKept(s.works, t.works, s.active, t.active, s.resets);
  }

  lemma ResetKeeps(s: State)
    requires Inv(s)
    ensures Inv(Apply(s, Reset))
  {
    hide ShutdownAgrees, Settled;
  }

  lemma EnableKeeps(s: State, vq: nat)
    requires Inv(s)
    ensures Inv(Apply(s, Enable(vq)))
  {
    hide ResetsNested, ShutdownAgrees, Tracked;
    var q := QueueOf(s.queues, vq);
    StartDrainKeeps(Put(s, vq, q.(queue := Some(s.generations))).(generations := s.generations + 1, turn := None), vq);
  }

  lemma NotifyKeeps(s: State, vq: nat)
    requires Inv(s)
    ensures Inv(Apply(s, Notify(vq)))
  {
    hide ResetsNested, ShutdownAgrees, Tracked;
    StartDrainKeeps(Put(s, vq, QueueOf(s.queues, vq).(pending := true)).(turn := None), vq);
  }

  lemma StepKeeps(s: State, e: Event)
    requires Inv(s) && Enabled(s, e)
    ensures Inv(Apply(s, e))
  {
    hide ResetsNested, Tracked;
    match e
    case Enable(vq) => EnableKeeps(s, vq);
    case Notify(vq) => NotifyKeeps(s, vq);
    case Resume(vq) => ResumeKeeps(s, vq);
    case Settle(w, ok) => SettleKeeps(s, w, ok);
    case Leave(w) => LeaveKeeps(s, w);
    case Spawn(parent) => SpawnKeeps(s, parent);
    case Reset => ResetKeeps(s);
    case _ =>
  }

  lemma {:induction false} RunKeeps(s: State, events: seq<Event>)
    requires Inv(s) && Run(s, events)
    ensures Inv(Final(s, events))
    decreases |events|
  {
    hide Inv, Apply, Enabled;
    if events != [] {
      StepKeeps(s, events[0]);
      RunKeeps(Apply(s, events[0]), events[1..]);
    }
  }

  lemma InitInv(size: nat)
    ensures Inv(Init(size))
  {
  }

  // ---------------------------------------------------------------------------
  // What holds of every run from a fresh device

  /** Two kicks of one queue are never in flight together. */
  lemma OneKickPerQueue(size: nat, events: seq<Event>, v: nat, w: nat)
    requires Run(Init(size), events)
    ensures var s := Final(Init(size), events);
            v < w < |s.works| && s.works[v].kick && s.works[w].kick && s.works[v].vq == s.works[w].vq ==>
              !(s.works[v].outcome == Running && s.works[w].outcome == Running)
  {
    InitInv(size);
    RunKeeps(Init(size), events);
    hide Run, Final;
  }

  // ---------------------------------------------------------------------------
  // Notifications left waiting

  /** An enabled queue has a notification that no drain is there to serve. */
  predicate Stranded(s: State, vq: nat)
  {
    var q := QueueOf(s.queues, vq);
    q.queue.Some? && q.drain.Idle? && q.pending
  }

  /** vq's drain resumes from a kick that failed while another notification was waiting. */
  predicate LeavesWaiting(s: State, e: Event, vq: nat)
  {
    var q := QueueOf(s.queues, vq);
    && e == Resume(vq) && q.queue.Some? && q.pending
    && q.drain.AwaitingKick? && q.drain.work < |s.works| && s.works[q.drain.work].outcome == Failed
  }

  /** What serves a waiting notification of vq, or drops it. */
  predicate Clears(e: Event, vq: nat)
  {
    e == Enable(vq) || e == Disable(vq) || e == Notify(vq) || e == Reset
  }

  predicate NoneClears(events: seq<Event>, vq: nat)
  {
    forall k :: 0 <= k < |events| ==> !Clears(events[k], vq)
  }

  lemma StrandedStep(s: State, e: Event, vq: nat)
    requires Enabled(s, e)
    ensures Stranded(Apply(s, e), vq) <==> LeavesWaiting(s, e, vq) || (Stranded(s, vq) && !Clears(e, vq))
  {
  }

  /** The k-th event leaves a notification of vq waiting, and no later one clears it. */
  predicate LeftWaitingAt(s: State, events: seq<Event>, k: nat, vq: nat)
    requires Run(s, events)
  {
    k < |events| && LeavesWaiting(At(s, events, k), events[k], vq) && NoneClears(events[k + 1..], vq)
  }

  lemma LeftWaitingLater(s: State, events: seq<Event>, k: nat, vq: nat)
    requires Run(s, events) && 0 < k < |events|
    ensures LeftWaitingAt(s, events, k, vq) <==> LeftWaitingAt(Apply(s, events[0]), events[1..], k - 1, vq)
  {
    assert events[1..][k..] == events[k + 1..];
  }

  lemma {:induction false} StrandedRun(s: State, events: seq<Event>, vq: nat)
    requires Run(s, events)
    ensures Stranded(Final(s, events), vq)
       <==> (Stranded(s, vq) && NoneClears(events, vq)) || exists k: nat :: LeftWaitingAt(s, events, k, vq)
    decreases |events|
  {
    if events != [] {
      var t, rest := Apply(s, events[0]), events[1..];
      StrandedStep(s, events[0], vq);
      StrandedRun(t, rest, vq);
      NoneClearsSplit(events, vq);
      hide Apply, Enabled, Stranded, NoneClears, LeavesWaiting, Clears;
      assert LeftWaitingAt(s, events, 0, vq) <==> LeavesWaiting(s, events[0], vq) && NoneClears(rest, vq);
      if k: nat :| LeftWaitingAt(t, rest, k, vq) {
        LeftWaitingLater(s, events, k + 1, vq);
      }
      if k: nat :| LeftWaitingAt(s, events, k, vq) && k > 0 {
        LeftWaitingLater(s, events, k, vq);
      }
    }
  }

  lemma NoneClearsSplit(events: seq<Event>, vq: nat)
    requires events != []
    ensures NoneClears(events, vq) <==> !Clears(events[0], vq) && NoneClears(events[1..], vq)
  {
    assert forall k :: 0 < k < |events| ==> events[k] == events[1..][k - 1];
  }

  /**
   Exactly when an enabled queue with no drain running has a pending notify:
   its drain resumed from a failed kick while a notify was waiting, and since
   then nothing has enabled, disabled or notified that queue, or reset the device.
   */
  lemma NotifyStrandedExactly(size: nat, events: seq<Event>, vq: nat)
    requires Run(Init(size), events)
    ensures Stranded(Final(Init(size), events), vq) <==> exists k: nat :: LeftWaitingAt(Init(size), events, k, vq)
  {
    StrandedRun(Init(size), events, vq);
  }

  /** Such a run: a kick that fails while a second notify is waiting leaves it waiting. */
  lemma FailedKickStrandsNotify(size: nat)
    requires size > 0
    ensures var events := [Enable(0), Notify(0), Notify(0), Settle(0, false), Resume(0)];
            Run(Init(size), events) && Stranded(Final(Init(size), events), 0)
  {
    var s1 := Apply(Init(size), Enable(0));
    var s2 := Apply(s1, Notify(0));
    var s3 := Apply(s2, Notify(0));
    var s4 := Apply(s3, Settle(0, false));
    var s5 := Apply(s4, Resume(0));
    assert Stranded(s5, 0);
    RunStep(s4, Resume(0), []);
    RunStep(s3, Settle(0, false), [Resume(0)]);
    RunStep(s2, Notify(0), [Settle(0, false), Resume(0)]);
    RunStep(s1, Notify(0), [Notify(0), Settle(0, false), Resume(0)]);
    RunStep(Init(size), Enable(0), [Notify(0), Notify(0), Settle(0, false), Resume(0)]);
  }

  // ---------------------------------------------------------------------------
  // What becomes of a notification

  predicate Pending(s: State, vq: nat)
  {
    QueueOf(s.queues, vq).pending
  }

  /** Between two states a kick of vq was started, for the queue now installed, and vq's drain awaits it. */
  predicate StartedKick(s: State, t: State, vq: nat)
  {
    var q := QueueOf(t.queues, vq);
    && q.queue.Some? && t.works == s.works + [Work(vq, q.queue.value, true, Running)]
    && q.drain == AwaitingKick(|s.works|) && |s.works| in t.active
  }

  lemma StartedIsNew(s: State, t: State, vq: nat)
    requires StartedKick(s, t, vq)
    ensures |t.works| == |s.works| + 1 && t.works[|s.works|].kick && t.works[|s.works|].vq == vq
  {
  }

  /** What drops notifications of vq: the guest takes the queue away. */
  predicate Drops(e: Event, vq: nat)
  {
    e == Disable(vq) || e == Reset
  }

  /** None is lost: it waits, or a kick starts, or the queue goes, or the device is stopped or has no such queue. */
  lemma NotifyKept(s: State, e: Event, vq: nat)
    requires Enabled(s, e) && (Pending(s, vq) || e == Notify(vq))
    ensures var t := Apply(s, e);
            Pending(t, vq) || StartedKick(s, t, vq) || Drops(e, vq) || s.stopped || vq >= s.size
  {
  }

  /** And none is made up: what waits was there or has just come, and what the guest dropped is gone. */
  lemma NotifyIsGuests(s: State, e: Event, vq: nat)
    requires Enabled(s, e)
    ensures Pending(Apply(s, e), vq) ==> Pending(s, vq) || e == Notify(vq)
    ensures Drops(e, vq) || StartedKick(s, Apply(s, e), vq) ==> !Pending(Apply(s, e), vq)
  {
    var t := Apply(s, e);
    if StartedKick(s, t, vq) { StartedIsNew(s, t, vq); }
  }

  /**
   A kick starts exactly in a turn that finds or brings a notification for an
   enabled queue whose drain is free, or whose last kick has not failed.
   */
  lemma KickStartsExactly(s: State, e: Event, vq: nat)
    requires Enabled(s, e)
    ensures var q := QueueOf(s.queues, vq);
            StartedKick(s, Apply(s, e), vq)
            <==> && !s.stopped && vq < s.size
                 && (|| (e == Enable(vq) && q.pending && q.drain.Idle?)
                     || (e == Notify(vq) && q.queue.Some? && q.drain.Idle?)
                     || (e == Resume(vq) && q.queue.Some? && q.pending && !LeavesWaiting(s, e, vq)))
  {
    var t := Apply(s, e);
    if StartedKick(s, t, vq) { StartedIsNew(s, t, vq); }
  }

  /** A turn starts no other work than such a kick, or what running work spawns. */
  lemma WorkHasCause(s: State, e: Event)
    requires Enabled(s, e) && |Apply(s, e).works| > |s.works| && !e.Spawn?
    ensures (e.Enable? || e.Notify? || e.Resume?) && StartedKick(s, Apply(s, e), e.vq)
  {
  }

  /** The k-th turn starts a kick of vq. */
  predicate KicksAt(s: State, events: seq<Event>, k: nat, vq: nat)
    requires Run(s, events) && k < |events|
  {
    StartedKick(At(s, events, k), At(s, events, k + 1), vq)
  }

  /** From its k-th event on, the run starts a kick of vq, or drops its notifications, or has stopped. */
  ghost predicate SettledSince(s: State, events: seq<Event>, k: nat, vq: nat)
    requires Run(s, events)
  {
    exists j: nat :: k <= j < |events|
                     && (KicksAt(s, events, j, vq) || Drops(events[j], vq) || At(s, events, j).stopped)
  }

  lemma {:induction false} AtNext(s: State, events: seq<Event>, k: nat)
    requires Run(s, events) && k < |events|
    ensures Enabled(At(s, events, k), events[k]) && At(s, events, k + 1) == Apply(At(s, events, k), events[k])
    decreases k
  {
    hide Apply, Enabled;
    if k > 0 { AtNext(Apply(s, events[0]), events[1..], k - 1); }
  }

  lemma {:induction false} AtEnd(s: State, events: seq<Event>)
    requires Run(s, events)
    ensures At(s, events, |events|) == Final(s, events)
    decreases |events|
  {
    hide Apply, Enabled;
    if events != [] { AtEnd(Apply(s, events[0]), events[1..]); }
  }

  lemma SizeStays(s: State, e: Event)
    requires Enabled(s, e)
    ensures Apply(s, e).size == s.size
  {
  }

  lemma {:induction false} PendingFrom(s: State, events: seq<Event>, k: nat, n: nat, vq: nat)
    requires Run(s, events) && k <= n <= |events| && vq < At(s, events, k).size
    requires Pending(At(s, events, k), vq) || (k < n && events[k] == Notify(vq))
    ensures Pending(At(s, events, n), vq) || SettledSince(s, events, k, vq)
    decreases n - k
  {
    hide Run, At, Apply, Enabled, Drops, StartedKick;
    if k < n {
      var here := At(s, events, k);
      AtNext(s, events, k);
      NotifyKept(here, events[k], vq);
      SizeStays(here, events[k]);
      if !(KicksAt(s, events, k, vq) || Drops(events[k], vq) || here.stopped) {
        PendingFrom(s, events, k + 1, n, vq);
      }
    }
  }

  // ---------------------------------------------------------------------------
  // Which queue a kick is for, and how long a drain holds others off

  /** The drain loop of vq is running: it waits for a kick, or for nothing once the device has stopped. */
  predicate Draining(s: State, vq: nat)
  {
    !QueueOf(s.queues, vq).drain.Idle?
  }

  /**
   On a device that has not stopped, a drain is running after a turn exactly if
   the turn started a kick, or it was running and the turn was not its own. And
   the turn that runs on is a kick's own from its start, with what it spawns.
   */
  lemma DrainsExactly(s: State, e: Event, vq: nat)
    requires Enabled(s, e) && !s.stopped
    ensures var t := Apply(s, e);
            Draining(t, vq) <==> StartedKick(s, t, vq) || (Draining(s, vq) && e != Resume(vq))
    ensures var t := Apply(s, e);
            t.turn == if e.Spawn? then s.turn else if |t.works| > |s.works| then Some(|s.works|) else None
  {
    var t := Apply(s, e);
    if StartedKick(s, t, vq) { StartedIsNew(s, t, vq); }
  }

  /** Enabling installs a new queue, disabling or resetting takes it away, and nothing else does. */
  lemma InstalledExactly(s: State, e: Event, vq: nat)
    requires Enabled(s, e)
    ensures var t := Apply(s, e);
            && QueueOf(t.queues, vq).queue
               == (if e == Enable(vq) then Some(s.generations)
                   else if Drops(e, vq) then None else QueueOf(s.queues, vq).queue)
            && t.generations == s.generations + if e.Enable? then 1 else 0
  {
  }

  function EnablesIn(events: seq<Event>): nat
  {
    if events == [] then 0 else EnablesIn(events[..|events| - 1]) + if events[|events| - 1].Enable? then 1 else 0
  }

  /** The j-th event is the latest to enable vq before the n-th, and nothing since took the queue away. */
  predicate EnabledBy(events: seq<Event>, j: nat, n: nat, vq: nat)
    requires n <= |events|
  {
    j < n && events[j] == Enable(vq) && forall i :: j < i < n ==> events[i] != Enable(vq) && !Drops(events[i], vq)
  }

  lemma {:induction false} InstalledBy(size: nat, events: seq<Event>, n: nat, vq: nat)
    requires Run(Init(size), events) && n <= |events|
    ensures var s := At(Init(size), events, n);
            && s.generations == EnablesIn(events[..n])
            && (QueueOf(s.queues, vq).queue.Some? <==> exists j: nat :: EnabledBy(events, j, n, vq))
            && (forall j: nat :: EnabledBy(events, j, n, vq) ==>
                                   QueueOf(s.queues, vq).queue == Some(EnablesIn(events[..j])))
  {
    hide Run, At, Apply, Enabled, QueueOf;
    if n == 0 {
      AtStart(Init(size), events);
      StartsBare(size, vq);
    } else {
      var s, e := At(Init(size), events, n - 1), events[n - 1];
      InstalledBy(size, events, n - 1, vq);
      AtNext(Init(size), events, n - 1);
      InstalledExactly(s, e, vq);
      assert events[..n][..n - 1] == events[..n - 1];
      if e == Enable(vq) {
        assert EnabledBy(events, n - 1, n, vq);
      } else if !Drops(e, vq) {
        var m := n - 1;
        forall j: nat ensures EnabledBy(events, j, n, vq) <==> EnabledBy(events, j, m, vq) {
        }
        if j: nat :| EnabledBy(events, j, m, vq) { assert EnabledBy(events, j, n, vq); }
        if j: nat :| EnabledBy(events, j, n, vq) { assert EnabledBy(events, j, m, vq); }
      }
    }
  }

  lemma AtStart(s: State, events: seq<Event>)
    requires Run(s, events)
    ensures At(s, events, 0) == s
  {
  }

  lemma StartsBare(size: nat, vq: nat)
    ensures QueueOf(Init(size).queues, vq).queue == None && Init(size).generations == 0
  {
  }

  /**
   Over all runs: a kick is started only for the queue of its latest enable, with
   no disable or reset since, and carries that queue's own number.
   */
  lemma KickIsOfLatestEnable(size: nat, events: seq<Event>, k: nat, vq: nat) returns (j: nat)
    requires Run(Init(size), events) && k < |events| && KicksAt(Init(size), events, k, vq)
    ensures EnabledBy(events, j, k + 1, vq)
    ensures var t := At(Init(size), events, k + 1);
            && t.works != [] && t.works[|t.works| - 1] == Work(vq, EnablesIn(events[..j]), true, Running)
  {
    hide Run, At, EnabledBy;
    InstalledBy(size, events, k + 1, vq);
    j :| EnabledBy(events, j, k + 1, vq);
  }

  /**
   Over all runs: every notify is followed, in its own turn or later, by a kick of
   its queue, unless it still waits, or the guest took the queue away, or the
   device was stopped.
   */
  lemma NotifyIsAnswered(size: nat, events: seq<Event>, k: nat, vq: nat)
    requires Run(Init(size), events) && k < |events| && events[k] == Notify(vq) && vq < size
    ensures SettledSince(Init(size), events, k, vq) || Pending(Final(Init(size), events), vq)
  {
    hide Run, At, Final;
    SizeAt(Init(size), events, k);
    PendingFrom(Init(size), events, k, |events|, vq);
    AtEnd(Init(size), events);
  }

  lemma {:induction false} SizeAt(s: State, events: seq<Event>, k: nat)
    requires Run(s, events) && k <= |events|
    ensures At(s, events, k).size == s.size
    decreases k
  {
    hide Apply, Enabled;
    if k > 0 {
      SizeStays(s, events[0]);
      SizeAt(Apply(s, events[0]), events[1..], k - 1);
    }
  }

  lemma RunStep(s: State, e: Event, rest: seq<Event>)
    requires Enabled(s, e) && Run(Apply(s, e), rest)
    ensures Run(s, [e] + rest) && Final(s, [e] + rest) == Final(Apply(s, e), rest)
  {
    assert ([e] + rest)[1..] == rest;
  }

  function Kicks(works: seq<Work>): nat
  {
    if works == [] then 0 else Kicks(works[..|works| - 1]) + if works[|works| - 1].kick then 1 else 0
  }

  lemma {:induction false} OutcomeKeepsKicks(works: seq<Work>, w: nat, o: Outcome)
    requires w < |works|
    ensures Kicks(works[w := works[w].(outcome := o)]) == Kicks(works)
  {
    var n := |works| - 1;
    var after := works[w := works[w].(outcome := o)];
    if w < n {
      OutcomeKeepsKicks(works[..n], w, o);
      assert after[..n] == works[..n][w := works[..n][w].(outcome := o)];
    } else {
      assert after[..n] == works[..n];
    }
  }

  /** Once shutdown has started, no turn starts a kick and the device stays stopped. */
  lemma NoKickAfterStop(s: State, e: Event)
    requires s.stopped && Enabled(s, e)
    ensures Apply(s, e).stopped && Kicks(Apply(s, e).works) == Kicks(s.works)
  {
    match e
    case Settle(w, ok) => OutcomeKeepsKicks(s.works, w, if ok then Succeeded else Failed);
    case Spawn(parent) =>
      var work := s.works[parent].(kick := false, outcome := Running);
      assert (s.works + [work])[..|s.works|] == s.works;
    case _ =>
  }

  lemma {:induction false} NoKickEverAfterStop(s: State, events: seq<Event>)
    requires s.stopped && Run(s, events)
    ensures Final(s, events).stopped && Kicks(Final(s, events).works) == Kicks(s.works)
    decreases |events|
  {
    if events != [] {
      NoKickAfterStop(s, events[0]);
      NoKickEverAfterStop(Apply(s, events[0]), events[1..]);
    }
  }

  /**
   close() is called at most once, only after a stop, and from then on no kick
   or spawned work runs; when shutdown has finished it was called exactly once.
   */
  lemma ClosesOnceWhenIdle(size: nat, events: seq<Event>)
    requires Run(Init(size), events)
    ensures var s := Final(Init(size), events);
            && s.closes <= 1
            && (s.closes == 1 ==> s.stopped && s.active == {} && forall w :: 0 <= w < |s.works| ==>
                                                                               s.works[w].outcome != Running)
            && (s.shutdown.Closed? ==> s.closes == 1)
  {
    InitInv(size);
    RunKeeps(Init(size), events);
    hide Run, Final;
  }

  /** A pass of shutdown closes exactly if nothing is active, and otherwise waits for all that is. */
  lemma PassClosesExactly(s: State, e: Event)
    requires Inv(s) && Enabled(s, e) && ((e.Stop? && !s.stopped) || e.StopResume?)
    ensures var t := Apply(s, e);
            && t.stopped && t.closes == (if s.active == {} then 1 else 0)
            && (s.active == {} <==> t.shutdown.Closing?)
            && (s.active != {} ==> t.shutdown.Waiting? && t.shutdown.snapshot == s.active)
  {
  }

  /** Once any later reset's work has settled, so has the work of every reset before it. */
  lemma LaterResetCoversEarlier(s: State, i: nat, j: nat)
    requires Inv(s) && i <= j < |s.resets| && AllSettled(s.works, s.resets[j].snapshot)
    ensures AllSettled(s.works, s.resets[i].snapshot)
  {
    hide Tracked, DrainsMatch, GenerationsKnown, ShutdownAgrees, Settled;
    if i < j {
      assert Carried(s.works, s.resets[i].snapshot, s.resets[j].snapshot);
    }
  }

  // ---------------------------------------------------------------------------
  // When a settled reset is quiet

  /** Queues, and the kick whose turn it is, belong to generations the reset has not revoked. */
  predicate Since(s: State, r: ResetRun)
  {
    && r.generations <= s.generations
    && (forall vq :: vq in s.queues && s.queues[vq].queue.Some? ==> r.generations <= s.queues[vq].queue.value)
    && (s.turn.Some? ==> s.turn.value < |s.works| && r.generations <= s.works[s.turn.value].generation)
  }

  /** Running work that could hold chains from before the reset. */
  predicate Older(s: State, r: ResetRun, w: nat)
  {
    w < |s.works| && s.works[w].outcome == Running && s.works[w].generation < r.generations
  }

  /** Whatever still runs from before the reset is work that the reset waits for. */
  predicate Covers(s: State, r: ResetRun)
  {
    forall w :: 0 <= w < |s.works| && Older(s, r, w) ==> w in r.snapshot
  }

  /** Work spawned after the reset by work from before it. */
  predicate Late(s: State, e: Event, r: ResetRun)
  {
    e.Spawn? && e.parent < |s.works| && s.works[e.parent].generation < r.generations
  }

  lemma SinceLoopBody(s: State, vq: nat, r: ResetRun)
    requires Since(s, r) && QueueOf(s.queues, vq).queue.Some?
    ensures Since(LoopBody(s, vq), r)
  {
  }

  lemma SinceEnable(s: State, vq: nat, r: ResetRun)
    requires Since(s, r)
    ensures Since(AfterEnable(s, vq), r)
  {
    var q := QueueOf(s.queues, vq);
    var t := Put(s, vq, q.(queue := Some(s.generations))).(generations := s.generations + 1, turn := None);
    assert Since(t, r);
    hide Since;
    if q.pending && q.drain.Idle? {
      SinceLoopBody(t, vq, r);
    }
  }

  lemma SinceNotify(s: State, vq: nat, r: ResetRun)
    requires Since(s, r)
    ensures Since(AfterNotify(s, vq), r)
  {
    var t := Put(s, vq, QueueOf(s.queues, vq).(pending := true)).(turn := None);
    assert Since(t, r);
    hide Since;
    if QueueOf(t.queues, vq).drain.Idle? && QueueOf(t.queues, vq).queue.Some? {
      SinceLoopBody(t, vq, r);
    }
  }

  lemma SinceResume(s: State, vq: nat, r: ResetRun)
    requires Since(s, r)
    ensures Since(AfterResume(s, vq), r)
  {
    if QueueOf(s.queues, vq).pending && QueueOf(s.queues, vq).queue.Some? {
      SinceLoopBody(s.(turn := None), vq, r);
    }
  }

  lemma SinceKept(s: State, e: Event, r: ResetRun)
    requires Since(s, r) && Enabled(s, e)
    ensures Since(Apply(s, e), r)
  {
    match e
    case Enable(vq) => SinceEnable(s, vq, r);
    case Notify(vq) => SinceNotify(s, vq, r);
    case Resume(vq) => SinceResume(s, vq, r);
    case _ => hide AfterEnable, AfterNotify, AfterResume, LoopBody;
  }

  /** Work that a message or a drain starts is a kick with the chains of an installed queue. */
  lemma KicksFromQueues(s: State, e: Event)
    requires Enabled(s, e) && !e.Spawn? && !e.Settle?
    ensures var t := Apply(s, e);
            t.works == s.works
            || (t.works == s.works + [t.works[|t.works| - 1]]
                && var w := t.works[|t.works| - 1];
                w.vq in t.queues && t.queues[w.vq].queue == Some(w.generation))
  {
  }

  /** A reset that covers older work goes on covering it exactly until a late spawn. */
  lemma CoversStep(s: State, e: Event, r: ResetRun)
    requires Since(s, r) && Covers(s, r) && InWorks(s.works, r.snapshot) && Enabled(s, e)
    ensures Covers(Apply(s, e), r) <==> !Late(s, e, r)
  {
    var t := Apply(s, e);
    match e
    case Spawn(parent) =>
      assert forall w: nat :: w < |s.works| && Older(s, r, w) ==> Older(t, r, w);
      assert Late(s, e, r) <==> Older(t, r, |s.works|);
      forall w: nat | w < |s.works| && Older(t, r, w) ensures w in r.snapshot { assert Older(s, r, w); }
    case Settle(_, _) =>
      forall w: nat | w < |t.works| && Older(t, r, w) ensures w in r.snapshot { assert Older(s, r, w); }
    case _ =>
      SinceKept(s, e, r);
      KicksFromQueues(s, e);
      hide Apply;
      forall w: nat | w < |t.works| && Older(t, r, w) ensures w in r.snapshot { assert Older(s, r, w); }
  }

  lemma NewReset(s: State)
    requires Inv(s)
    ensures var t := Apply(s, Reset); Since(t, t.resets[|s.resets|]) && Covers(t, t.resets[|s.resets|])
  {
    hide DrainsMatch, ShutdownAgrees, ResetsNested;
  }

  predicate AllSince(s: State)
  {
    forall i :: 0 <= i < |s.resets| ==> Since(s, s.resets[i])
  }

  predicate AllCovered(s: State)
  {
    forall i :: 0 <= i < |s.resets| ==> Covers(s, s.resets[i])
  }

  /** No work from before a reset spawns after it. */
  predicate Timely(s: State, e: Event)
  {
    forall i :: 0 <= i < |s.resets| ==> !Late(s, e, s.resets[i])
  }

  lemma ResetsGrow(s: State, e: Event)
    requires Enabled(s, e)
    ensures Apply(s, e).resets == if e.Reset? then s.resets + [ResetRun(s.active, s.generations)] else s.resets
  {
  }

  lemma SinceStep(s: State, e: Event)
    requires Inv(s) && AllSince(s) && Enabled(s, e)
    ensures AllSince(Apply(s, e))
  {
    var t := Apply(s, e);
    ResetsGrow(s, e);
    hide Since, Inv, Apply, Covers;
    forall i | 0 <= i < |t.resets|
      ensures Since(t, t.resets[i])
    {
      if i < |s.resets| {
        SinceKept(s, e, s.resets[i]);
      } else {
        NewReset(s);
      }
    }
  }

  /** While every reset covers older work, a turn keeps that so exactly if it is timely. */
  lemma CoveredStep(s: State, e: Event)
    requires Inv(s) && AllSince(s) && AllCovered(s) && Enabled(s, e)
    ensures AllCovered(Apply(s, e)) <==> Timely(s, e)
  {
    var t := Apply(s, e);
    ResetsGrow(s, e);
    forall i | 0 <= i < |s.resets|
      ensures Covers(t, s.resets[i]) <==> !Late(s, e, s.resets[i])
    {
      CoversStep(s, e, s.resets[i]);
    }
    if e.Reset? { NewReset(s); }
    hide Since, Inv, Apply, Covers, Late;
    if Timely(s, e) {
      forall i | 0 <= i < |t.resets| ensures Covers(t, t.resets[i]) {
      }
    } else {
      var i :| 0 <= i < |s.resets| && Late(s, e, s.resets[i]);
      assert t.resets[i] == s.resets[i];
    }
  }

  predicate TimelyRun(s: State, events: seq<Event>)
    decreases |events|
  {
    events == [] || (Enabled(s, events[0]) && Timely(s, events[0]) && TimelyRun(Apply(s, events[0]), events[1..]))
  }

  lemma {:induction false} TimelyRunKeeps(s: State, events: seq<Event>)
    requires Inv(s) && AllSince(s) && AllCovered(s) && TimelyRun(s, events)
    ensures Run(s, events) && Inv(Final(s, events)) && AllCovered(Final(s, events))
    decreases |events|
  {
    hide Inv, Apply, Enabled, AllSince, AllCovered, Timely;
    if events != [] {
      StepKeeps(s, events[0]);
      SinceStep(s, events[0]);
      CoveredStep(s, events[0]);
      TimelyRunKeeps(Apply(s, events[0]), events[1..]);
    }
  }

  /**
   As long as no work from before a reset spawns after it: once the work a reset
   waits for has settled, nothing still runs that could hold chains from before it.
   */
  lemma SettledResetIsQuiet(size: nat, events: seq<Event>, i: nat, w: nat)
    requires TimelyRun(Init(size), events)
    ensures Run(Init(size), events)
    ensures var s := Final(Init(size), events);
            i < |s.resets| && AllSettled(s.works, s.resets[i].snapshot) ==> !Older(s, s.resets[i], w)
  {
    InitInv(size);
    TimelyRunKeeps(Init(size), events);
    hide Run, Final, Inv;
    var s := Final(Init(size), events);
    if i < |s.resets| && Older(s, s.resets[i], w) {
      assert Covers(s, s.resets[i]);
    }
  }

  /** A device whose kicks spawn only in the turn that starts them, as the block device's do. */
  predicate Prompt(s: State, e: Event)
  {
    e.Spawn? ==> s.turn == Some(e.parent)
  }

  predicate PromptRun(s: State, events: seq<Event>)
    decreases |events|
  {
    events == [] || (Enabled(s, events[0]) && Prompt(s, events[0]) && PromptRun(Apply(s, events[0]), events[1..]))
  }

  lemma PromptIsTimely(s: State, e: Event)
    requires AllSince(s) && Prompt(s, e)
    ensures Timely(s, e)
  {
    forall i | 0 <= i < |s.resets| ensures !Late(s, e, s.resets[i]) { assert Since(s, s.resets[i]); }
  }

  /** Every run of such a device is timely, so its settled resets are quiet. */
  lemma {:induction false} PromptRunIsTimely(s: State, events: seq<Event>)
    requires Inv(s) && AllSince(s) && PromptRun(s, events)
    ensures TimelyRun(s, events)
    decreases |events|
  {
    hide Inv, Apply, Enabled, AllSince, Prompt, Timely;
    if events != [] {
      PromptIsTimely(s, events[0]);
      StepKeeps(s, events[0]);
      SinceStep(s, events[0]);
      PromptRunIsTimely(Apply(s, events[0]), events[1..]);
    }
  }

  // ---------------------------------------------------------------------------
  // And when it is not

  /** The reset's wait is over, and something older still runs. */
  predicate Outlived(s: State, r: ResetRun)
  {
    AllSettled(s.works, r.snapshot) && exists w: nat :: w < |s.works| && Older(s, r, w)
  }

  predicate SettlesOnly(events: seq<Event>)
  {
    forall k :: 0 <= k < |events| ==> events[k].Settle?
  }

  /** Work can settle so that the reset's wait ends too early. */
  ghost predicate CanBeOutlived(s: State, r: ResetRun)
  {
    exists events: seq<Event> :: SettlesOnly(events) && Run(s, events) && Outlived(Final(s, events), r)
  }

  /** The running works of ws below n settle, one after the other. */
  function Settling(works: seq<Work>, ws: set<nat>, n: nat): (events: seq<Event>)
    requires n <= |works|
    ensures SettlesOnly(events)
  {
    if n == 0 then []
    else if n - 1 in ws && works[n - 1].outcome == Running then [Settle(n - 1, true)] + Settling(works, ws, n - 1)
    else Settling(works, ws, n - 1)
  }

  lemma {:induction false} SettlingPrefix(a: seq<Work>, b: seq<Work>, ws: set<nat>, n: nat)
    requires n <= |a| && n <= |b| && forall k :: 0 <= k < n ==> a[k] == b[k]
    ensures Settling(a, ws, n) == Settling(b, ws, n)
  {
    if n > 0 { SettlingPrefix(a, b, ws, n - 1); }
  }

  lemma {:induction false} SettlingSettles(s: State, ws: set<nat>, n: nat)
    requires n <= |s.works|
    ensures var events := Settling(s.works, ws, n);
            && Run(s, events)
            && var t := Final(s, events);
            && |t.works| == |s.works|
            && (forall w :: 0 <= w < |s.works| && (w !in ws || w >= n) ==> t.works[w] == s.works[w])
            && (forall w :: 0 <= w < n && w in ws ==> t.works[w].outcome != Running)
    decreases n
  {
    if n > 0 {
      if n - 1 in ws && s.works[n - 1].outcome == Running {
        var t := Apply(s, Settle(n - 1, true));
        SettlingPrefix(s.works, t.works, ws, n - 1);
        SettlingSettles(t, ws, n - 1);
        RunStep(s, Settle(n - 1, true), Settling(t.works, ws, n - 1));
      } else {
        SettlingSettles(s, ws, n - 1);
      }
    }
  }

  lemma {:induction false} SettlesKeepCover(s: State, r: ResetRun, events: seq<Event>)
    requires Covers(s, r) && SettlesOnly(events) && Run(s, events)
    ensures Covers(Final(s, events), r)
    decreases |events|
  {
    if events != [] {
      var t := Apply(s, events[0]);
      forall w: nat | w < |t.works| && Older(t, r, w) ensures w in r.snapshot { assert Older(s, r, w); }
      SettlesKeepCover(t, r, events[1..]);
    }
  }

  /** The wait of a reset can end too early exactly if some older running work is not in its snapshot. */
  lemma OutlivedExactly(s: State, r: ResetRun)
    requires InWorks(s.works, r.snapshot)
    ensures CanBeOutlived(s, r) <==> !Covers(s, r)
  {
    if Covers(s, r) {
      forall events: seq<Event> | SettlesOnly(events) && Run(s, events) ensures !Outlived(Final(s, events), r) {
        SettlesKeepCover(s, r, events);
      }
    } else {
      var events := Settling(s.works, r.snapshot, |s.works|);
      SettlingSettles(s, r.snapshot, |s.works|);
      var t := Final(s, events);
      var w: nat :| w < |s.works| && Older(s, r, w) && w !in r.snapshot;
      assert t.works[w] == s.works[w] && Older(t, r, w);
    }
  }

  /**
   Prompt spawning is the dividing line: whenever work from before a reset
   spawns after it, what it spawns can outlive that reset's wait.
   */
  lemma LateSpawnOutlivesReset(s: State, parent: nat, i: nat)
    requires Inv(s) && Enabled(s, Spawn(parent)) && i < |s.resets| && Late(s, Spawn(parent), s.resets[i])
    ensures var t := Apply(s, Spawn(parent));
            t.resets == s.resets && Older(t, t.resets[i], |s.works|) && CanBeOutlived(t, t.resets[i])
  {
    hide Tracked, DrainsMatch, GenerationsKnown, ShutdownAgrees, Carried;
    var t := Apply(s, Spawn(parent));
    assert InWorks(s.works, s.resets[i].snapshot);
    assert Older(t, t.resets[i], |s.works|) && |s.works| !in t.resets[i].snapshot;
    OutlivedExactly(t, t.resets[i]);
  }

  /** Such a run: a kick spawns after its first await, and what it spawned outlives the wait of a reset between. */
  lemma LateSpawnHappens(size: nat)
    requires size > 0
    ensures var events := [Enable(0), Notify(0), Reset, Spawn(0), Settle(0, true)];
            && Run(Init(size), events)
            && var s := Final(Init(size), events);
            && |s.resets| == 1 && AllSettled(s.works, s.resets[0].snapshot)
            && |s.works| == 2 && s.works[1].outcome == Running && s.works[1].generation < s.resets[0].generations
  {
    var s1 := Apply(Init(size), Enable(0));
    var s2 := Apply(s1, Notify(0));
    var s3 := Apply(s2, Reset);
    var s4 := Apply(s3, Spawn(0));
    var s5 := Apply(s4, Settle(0, true));
    assert s5.resets[0].snapshot == {0};
    RunStep(s4, Settle(0, true), []);
    RunStep(s3, Spawn(0), [Settle(0, true)]);
    RunStep(s2, Reset, [Spawn(0), Settle(0, true)]);
    RunStep(s1, Notify(0), [Reset, Spawn(0), Settle(0, true)]);
    RunStep(Init(size), Enable(0), [Notify(0), Reset, Spawn(0), Settle(0, true)]);
  }
}
