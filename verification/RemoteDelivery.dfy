/**
 What the two threads owe each other gets through: the worker ends up with the
 queues the main thread wants, a completion of a live queue is committed, and
 every reset is released, in order and once.
 */
module RemoteDelivery {
  import opened Wrappers
  import D = Device
  import opened Remote
  import opened RemoteSafety

  // ---------------------------------------------------------------------------
  // Invariants of delivery

  /** While nothing has failed, whatever was enabled since a live enable has the device epoch of now. */
  predicate LiveEpochs(failed: bool, latest: seq<Option<nat>>, enables: seq<Enabling>, control: seq<nat>)
  {
    |control| > 0 &&
    (!failed ==> forall vq, h :: 0 <= vq < |latest| && latest[vq].Some? && latest[vq].value <= h < |enables| ==>
                                   enables[h].deviceEpoch == control[0])
  }

  /** And a completion of a live enable carries it. */
  predicate LiveCurrent(failed: bool, up: seq<WorkerMessage>, latest: seq<Option<nat>>, control: seq<nat>)
  {
    |control| > 0 &&
    (!failed ==> forall m :: m in up && m.Complete? && m.vq < |latest| && latest[m.vq] == Some(m.generation) ==>
                               m.deviceEpoch == control[0])
  }

  /** What a message makes of the queue installed for vq, when `next` enables were handled before it. */
  function TokenThen(m: DeviceMessage, next: nat, token: Option<nat>, vq: nat): Option<nat>
  {
    match m
    case EnableMessage(v, _, _, _) => if v == vq then Some(next) else token
    case DisableMessage(v) => if v == vq then None else token
    case ResetMessage(_) => None
    case _ => token
  }

  function NextThen(m: DeviceMessage, next: nat): nat
  {
    if m.EnableMessage? then next + 1 else next
  }

  /** The queue installed for vq once every message in the channel has been handled. */
  function TokenAfter(down: seq<DeviceMessage>, next: nat, token: Option<nat>, vq: nat): Option<nat>
    decreases |down|
  {
    if down == [] then token
    else TokenAfter(down[1..], NextThen(down[0], next), TokenThen(down[0], next, token, vq), vq)
  }

  predicate Wanting(s: System)
    requires RemoteSafety.Shaped(s)
  {
    forall vq :: 0 <= vq < Queues(s) ==>
                   TokenAfter(s.down, s.worker.device.generations, Token(s.worker.device, vq), vq) == s.wanted[vq]
  }

  /** A request to close is on its way or has been taken up; so is the report that it is done. */
  predicate Closing(s: System)
  {
    && (s.main.closeSent ==> CloseMessage in s.down || s.worker.device.stopped)
    && (s.worker.listening || ClosedMessage in s.up || !s.main.listening)
    && (s.worker.closing ==> s.worker.device.stopped)
  }

  ghost predicate Delivering(s: System)
  {
    && Inv(s)
    && LiveEpochs(s.main.failed, s.latest, s.enables, s.control)
    && LiveCurrent(s.main.failed, s.up, s.latest, s.control)
    && Wanting(s)
    && Closing(s)
  }

  lemma InitDelivers(queues: nat)
    ensures Delivering(Init(queues))
  {
    InitInv(queues);
    hide Inv;
  }

  // ---------------------------------------------------------------------------
  // Every step keeps them

  lemma EpochsKept(s: System, e: Event)
    requires Inv(s) && Enabled(s, e) && LiveEpochs(s.main.failed, s.latest, s.enables, s.control)
    requires LiveCurrent(s.main.failed, s.up, s.latest, s.control)
    ensures var t := Apply(s, e);
            && LiveEpochs(t.main.failed, t.latest, t.enables, t.control)
            && LiveCurrent(t.main.failed, t.up, t.latest, t.control)
  {
    hide D.Inv, ChannelOrdered, EnableMessagesMatch, EpochsGrow, LatestMatch, FailureMarks, ResetsBeforeLive,
      LiveCompletions, AcksSettled, MarksIn, DonesIn, ClosedReported, ResetsCounted, ResetsSent, D.Apply, D.Enabled,
      Handled, WorkerEpoch, InstalledMatch;
    match e
    case WorkerRelease(chain, checked) => ReleaseCurrent(s, s.chains[chain], checked);
    case _ =>
  }

  lemma ReleaseCurrent(s: System, c: Chain, checked: bool)
    requires Inv(s) && c.vq < Queues(s) && LiveEpochs(s.main.failed, s.latest, s.enables, s.control)
    requires LiveCurrent(s.main.failed, s.up, s.latest, s.control)
    ensures LiveCurrent(s.main.failed, AfterRelease(s, c, checked).up, s.latest, s.control)
  {
    hide D.Inv, ChannelOrdered, EnableMessagesMatch, EpochsGrow, LatestMatch, FailureMarks, ResetsBeforeLive,
      LiveCompletions, CompletionsMatch, AcksSettled, MarksIn, DonesIn, ClosedReported, ResetsCounted, ResetsSent;
    if !s.main.failed && Installed(s.worker.device, c.vq, c.generation) && s.latest[c.vq] == Some(c.generation) {
      assert Token(s.worker.device, c.vq) == Some(c.generation);
      assert s.worker.deviceEpoch == s.enables[s.worker.device.generations - 1].deviceEpoch;
    }
  }

  lemma {:induction false} TokenAfterSent(down: seq<DeviceMessage>, next: nat, token: Option<nat>, vq: nat,
                                          total: nat, m: DeviceMessage)
    requires ChannelOrdered(down, next, total)
    ensures TokenAfter(down + [m], next, token, vq) == TokenThen(m, total, TokenAfter(down, next, token, vq), vq)
    decreases |down|
  {
    hide TokenThen;
    if down == [] {
      assert (down + [m])[1..] == [];
    } else {
      assert (down + [m])[1..] == down[1..] + [m];
      TokenAfterSent(down[1..], NextThen(down[0], next), TokenThen(down[0], next, token, vq), vq, total, m);
    }
  }

  /** A message posted changes what is wanted as it will change what is installed. */
  lemma PostedWanting(s: System, t: System, m: DeviceMessage)
    requires Inv(s) && RemoteSafety.Shaped(t) && Wanting(s) && t.worker == s.worker && t.down == s.down + [m]
    requires Queues(t) == Queues(s)
    requires forall vq :: 0 <= vq < Queues(s) ==> t.wanted[vq] == TokenThen(m, |s.enables|, s.wanted[vq], vq)
    ensures Wanting(t)
  {
    hide D.Inv, ChannelOrdered, EnableMessagesMatch, InstalledMatch, CompletionsMatch, EpochsGrow, LatestMatch,
      FailureMarks, ResetsBeforeLive, WorkerEpoch, LiveCompletions, AcksSettled, MarksIn, DonesIn, ClosedReported,
      ResetsCounted, ResetsSent, TokenThen, TokenAfter, Token;
    forall vq | 0 <= vq < Queues(t)
      ensures TokenAfter(t.down, t.worker.device.generations, Token(t.worker.device, vq), vq) == t.wanted[vq]
    {
      TokenAfterSent(s.down, s.worker.device.generations, Token(s.worker.device, vq), vq, |s.enables|, m);
    }
  }

  lemma HandledWanting(s: System)
    requires RemoteSafety.Shaped(s) && s.down != [] && Wanting(s)
    ensures Wanting(s.(worker := Handled(s.worker, s.control, s.down[0]), down := s.down[1..]))
  {
    hide Token, Handled;
    forall vq | 0 <= vq < Queues(s)
      ensures TokenAfter(s.down[1..], Handled(s.worker, s.control, s.down[0]).device.generations,
                         Token(Handled(s.worker, s.control, s.down[0]).device, vq), vq) == s.wanted[vq]
    {
      HandledFrame(s.worker, s.control, s.down[0], vq);
    }
    HandledShape(s.worker, s.control, s.down[0]);
  }

  lemma HandledShape(w: Worker, control: seq<nat>, m: DeviceMessage)
    requires |control| > 0
    ensures |Handled(w, control, m).epochs| == |w.epochs|
  {
    hide D.Apply;
  }

  lemma DeviceWanting(s: System, e: D.Event)
    requires RemoteSafety.Shaped(s) && Wanting(s) && Internal(e) && D.Enabled(s.worker.device, e)
    ensures Wanting(s.(worker := s.worker.(device := D.Apply(s.worker.device, e))))
  {
    hide Token, D.Apply, D.Enabled, Internal;
    InternalFrame(s.worker.device, e, 0);
    forall vq: nat
      ensures Token(D.Apply(s.worker.device, e), vq) == Token(s.worker.device, vq)
    {
      InternalFrame(s.worker.device, e, vq);
    }
  }

  lemma SameWanting(s: System, t: System)
    requires RemoteSafety.Shaped(s) && RemoteSafety.Shaped(t) && Wanting(s)
    requires t.down == s.down && t.worker.device == s.worker.device && t.wanted == s.wanted && Queues(t) == Queues(s)
    ensures Wanting(t)
  {
  }

  lemma ShapeKept(s: System, e: Event)
    requires Inv(s) && Enabled(s, e)
    ensures RemoteSafety.Shaped(s) && RemoteSafety.Shaped(Apply(s, e)) && Queues(Apply(s, e)) == Queues(s)
  {
    StepKeeps(s, e);
    InvShaped(Apply(s, e));
    InvShaped(s);
    QueuesStayStep(s, e);
  }

  lemma WantingKept(s: System, e: Event)
    requires Inv(s) && Enabled(s, e) && Wanting(s)
    ensures RemoteSafety.Shaped(Apply(s, e)) && Wanting(Apply(s, e))
  {
    ShapeKept(s, e);
    hide Inv, Handled, Wanting, Token, D.Apply, D.Enabled, D.QueueOf, RemoteSafety.Shaped;
    var t := Apply(s, e);
    match e
    case MainEnable(vq) => PostedWanting(s, t, t.down[|s.down|]);
    case MainDisable(vq) => PostedWanting(s, t, DisableMessage(vq));
    case MainNotify(vq) => PostedWanting(s, t, NotifyMessage(vq));
    case MainReset => PostedWanting(s, t, ResetMessage(|s.enables|));
    case MainShutdown => if s.main.closeSent { SameWanting(s, t); } else { PostedWanting(s, t, CloseMessage); }
    case WorkerReceive => HandledWanting(s);
    case WorkerDevice(d) => DeviceWanting(s, d);
    case _ => SameWanting(s, t);
  }

  lemma StopsStopped(d: D.State, e: D.Event)
    requires D.Enabled(d, e)
    ensures d.stopped || e.Stop? ==> D.Apply(d, e).stopped
  {
    if d.stopped { D.NoKickAfterStop(d, e); }
  }

  lemma ClosingKept(s: System, e: Event)
    requires Inv(s) && Enabled(s, e) && Closing(s)
    ensures Closing(Apply(s, e))
  {
    hide Inv, D.Apply, D.Enabled, Token;
    match e
    case WorkerReceive =>
      var turn := EventOf(s.down[0], s.worker.closing);
      assert forall m :: m in s.down ==> m == s.down[0] || m in s.down[1..];
      if turn.Some? {
        EventEnabled(s.worker.device, s.down[0], s.worker.closing);
        StopsStopped(s.worker.device, turn.value);
      }
    case WorkerDevice(d) => StopsStopped(s.worker.device, d);
    case MainReceive =>
      assert forall m :: m in s.up ==> m == s.up[0] || m in s.up[1..];
    case _ =>
  }

  lemma EventEnabled(d: D.State, m: DeviceMessage, closing: bool)
    ensures EventOf(m, closing).Some? ==> D.Enabled(d, EventOf(m, closing).value)
  {
  }

  lemma DeliveryStep(s: System, e: Event)
    requires Delivering(s) && Enabled(s, e)
    ensures Delivering(Apply(s, e))
  {
    StepKeeps(s, e);
    EpochsKept(s, e);
    WantingKept(s, e);
    ClosingKept(s, e);
    hide Inv, LiveEpochs, LiveCurrent, Wanting, Closing, Apply, Enabled;
  }

  lemma {:induction false} DeliveryRun(s: System, events: seq<Event>)
    requires Delivering(s) && Run(s, events)
    ensures Delivering(Final(s, events))
    decreases |events|
  {
    hide Delivering, Apply, Enabled;
    if events != [] {
      DeliveryStep(s, events[0]);
      DeliveryRun(Apply(s, events[0]), events[1..]);
    }
  }

  // ---------------------------------------------------------------------------
  // Completions

  /**
   A completion that arrives is committed exactly if it is of the live enable and
   the device epoch is still its own.
   */
  lemma CommitExactly(s: System)
    requires Inv(s) && s.up != [] && s.up[0].Complete?
    ensures var m := s.up[0];
            var live := m.vq < |s.latest| && s.latest[m.vq] == Some(m.generation) && m.deviceEpoch == s.control[0];
            NextReceipt(s) == if live then Commit(m.vq, m.generation) else Ignored
  {
    assert s.up[0] in s.up;
    if NextReceipt(s).Commit? { CommitIsCurrent(s); }
    hide D.Inv, ChannelOrdered, EnableMessagesMatch, InstalledMatch, ResetsBeforeLive, WorkerEpoch, AcksSettled,
      MarksIn, DonesIn, ClosedReported, ResetsCounted, ResetsSent, LiveCompletions, FailureMarks;
  }

  /** Over all interleavings, while nothing has failed: a completion of the live enable of its queue is committed. */
  lemma LiveCompletionCommits(queues: nat, events: seq<Event>)
    requires Run(Init(queues), events)
    ensures var s := Final(Init(queues), events);
            RemoteSafety.Shaped(s) &&
            (!s.main.failed && s.up != [] && s.up[0].Complete?
             && s.up[0].vq < |s.latest| && s.latest[s.up[0].vq] == Some(s.up[0].generation) ==>
               NextReceipt(s) == Commit(s.up[0].vq, s.up[0].generation))
  {
    hide Inv, Init, Run, Final, NextReceipt, LiveEpochs, Wanting, Closing;
    InitDelivers(queues);
    DeliveryRun(Init(queues), events);
    var s := Final(Init(queues), events);
    InvShaped(s);
    if s.up != [] && s.up[0].Complete? {
      CommitExactly(s);
      assert s.up[0] in s.up;
    }
  }

  /**
   And such a completion is posted: while nothing has failed, a chain from the
   live enable, still installed, finds both epochs as the worker knows them, and
   releasing it posts a message that would be committed.
   */
  lemma LiveChainIsPosted(s: System, chain: nat)
    requires Delivering(s) && !s.main.failed && Enabled(s, WorkerRelease(chain, true))
    requires Installed(s.worker.device, s.chains[chain].vq, s.chains[chain].generation)
    requires s.latest[s.chains[chain].vq] == Some(s.chains[chain].generation)
    ensures var c := s.chains[chain];
            && s.worker.deviceEpoch == s.control[0] && s.worker.epochs[c.vq] == s.control[1 + c.vq]
            && var t := Apply(s, WorkerRelease(chain, true));
            |t.up| == |s.up| + 1 && ReceiptOf(t.main, t.control, t.up[|s.up|]) == Commit(c.vq, c.generation)
  {
    hide D.Inv, ChannelOrdered, EnableMessagesMatch, ResetsBeforeLive, AcksSettled, MarksIn, DonesIn, ClosedReported,
      ResetsCounted, ResetsSent, LiveCompletions, FailureMarks, CompletionsMatch, Wanting, Closing, LiveCurrent;
    var c := s.chains[chain];
    assert Token(s.worker.device, c.vq) == Some(c.generation);
    assert s.worker.deviceEpoch == s.enables[s.worker.device.generations - 1].deviceEpoch;
  }

  // ---------------------------------------------------------------------------
  // Queues and notifications

  /** Over all interleavings: when every message has been read, the worker has exactly the queues last wanted. */
  lemma WorkerEndsUpAsWanted(queues: nat, events: seq<Event>, vq: nat)
    requires Run(Init(queues), events) && vq < queues
    ensures var s := Final(Init(queues), events);
            Queues(s) == queues == |s.wanted| && (s.down == [] ==> Token(s.worker.device, vq) == s.wanted[vq])
  {
    hide Inv, Init, Run, Final, LiveEpochs, LiveCurrent, Closing, Token;
    InitDelivers(queues);
    DeliveryRun(Init(queues), events);
    InvShaped(Final(Init(queues), events));
    QueuesStay(Init(queues), events);
    InitQueues(queues);
  }

  lemma InitQueues(queues: nat)
    ensures Queues(Init(queues)) == queues
  {
  }

  lemma {:induction false} QueuesStay(s: System, events: seq<Event>)
    requires Run(s, events)
    ensures Queues(Final(s, events)) == Queues(s)
    decreases |events|
  {
    if events != [] {
      QueuesStayStep(s, events[0]);
      hide Apply, Enabled;
      QueuesStay(Apply(s, events[0]), events[1..]);
    }
  }

  lemma QueuesStayStep(s: System, e: Event)
    requires Enabled(s, e)
    ensures Queues(Apply(s, e)) == Queues(s)
  {
    hide Handled, D.Apply, D.Enabled;
  }

  /** A notify that the worker reads waits, or starts a kick, unless the device has stopped. */
  lemma NotifyArrives(s: System, vq: nat)
    requires Enabled(s, WorkerReceive) && s.down[0] == NotifyMessage(vq)
    ensures var d, t := s.worker.device, Apply(s, WorkerReceive).worker.device;
            D.Pending(t, vq) || D.StartedKick(d, t, vq) || d.stopped || vq >= d.size
  {
    D.NotifyKept(s.worker.device, D.Notify(vq), vq);
    hide D.Apply, D.StartedKick, D.Pending;
  }

  /** Over all interleavings: a request to close has stopped the device once every message has been read. */
  lemma CloseArrives(queues: nat, events: seq<Event>)
    requires Run(Init(queues), events)
    ensures var s := Final(Init(queues), events);
            && (s.main.closeSent && s.down == [] ==> s.worker.device.stopped)
            && (!s.worker.listening && s.up == [] ==> !s.main.listening)
  {
    hide Inv, Init, Run, Final, LiveEpochs, LiveCurrent, Wanting;
    InitDelivers(queues);
    DeliveryRun(Init(queues), events);
  }

  // ---------------------------------------------------------------------------
  // Resets

  /** An acknowledgement releases exactly the oldest reset that waits: as many as were released before it. */
  lemma DoneReleasesOldest(s: System)
    requires Inv(s) && s.main.listening && s.up != [] && s.up[0].ResetDone?
    ensures s.main.resets != [] && NextReceipt(s) == Release([s.main.issued - |s.main.resets|])
  {
    DoneFindsReset(s);
    hide D.Inv, ChannelOrdered, EnableMessagesMatch, InstalledMatch, CompletionsMatch, EpochsGrow, LatestMatch,
      FailureMarks, ResetsBeforeLive, WorkerEpoch, LiveCompletions, AcksSettled, MarksIn, DonesIn, ClosedReported,
      ResetsSent;
  }

  function From(n: nat, end: nat): seq<nat>
    requires n <= end
    decreases end - n
  {
    if n == end then [] else [n] + From(n + 1, end)
  }

  lemma {:induction false} FromGrows(n: nat, end: nat)
    requires n <= end
    ensures From(n, end + 1) == From(n, end) + [end]
    decreases end - n
  {
    if n < end { FromGrows(n + 1, end); }
  }

  lemma {:induction false} FromJoins(n: nat, mid: nat, end: nat)
    requires n <= mid <= end
    ensures From(n, mid) + From(mid, end) == From(n, end)
    decreases mid - n
  {
    if n < mid {
      FromJoins(n + 1, mid, end);
      assert [n] + From(n + 1, mid) + From(mid, end) == [n] + (From(n + 1, mid) + From(mid, end));
    }
  }

  /** How many resets no longer wait. */
  function Gone(m: Main): nat
  {
    if |m.resets| <= m.issued then m.issued - |m.resets| else 0
  }

  /** Resets wait in the order they were issued. */
  predicate WaitsInOrder(m: Main)
  {
    |m.resets| <= m.issued && m.resets == From(Gone(m), m.issued)
  }

  /** What a step releases. */
  function ReleasedBy(s: System, e: Event): seq<nat>
    requires Enabled(s, e)
  {
    if e.MainReceive? && NextReceipt(s).Release? then NextReceipt(s).resets else []
  }

  /** The resets that the messages received in a run released, in order. */
  function Released(s: System, events: seq<Event>): seq<nat>
    requires Run(s, events)
    decreases |events|
  {
    if events == [] then [] else ReleasedBy(s, events[0]) + Released(Apply(s, events[0]), events[1..])
  }

  lemma TakesOldest(m: Main)
    requires WaitsInOrder(m) && m.resets != []
    ensures [m.resets[0]] == From(Gone(m), Gone(m) + 1) && m.resets[1..] == From(Gone(m) + 1, m.issued)
  {
    assert From(Gone(m) + 1, Gone(m) + 1) == [];
    assert From(Gone(m), m.issued)[1..] == From(Gone(m) + 1, m.issued);
  }

  lemma ReleaseStep(s: System, e: Event)
    requires Enabled(s, e) && WaitsInOrder(s.main)
    ensures var t := Apply(s, e);
            && WaitsInOrder(t.main) && Gone(s.main) <= Gone(t.main)
            && ReleasedBy(s, e) == From(Gone(s.main), Gone(t.main))
  {
    hide Handled, D.Apply, D.Enabled, D.QueueOf;
    if e.MainReset? {
      FromGrows(Gone(s.main), s.main.issued);
    } else if e.MainReceive? && s.main.resets != [] {
      TakesOldest(s.main);
    }
  }

  lemma {:induction false} ReleasedRun(s: System, events: seq<Event>)
    requires Run(s, events) && WaitsInOrder(s.main)
    ensures var t := Final(s, events);
            && WaitsInOrder(t.main) && Gone(s.main) <= Gone(t.main)
            && Released(s, events) == From(Gone(s.main), Gone(t.main))
    decreases |events|
  {
    hide Apply, Enabled, NextReceipt, WaitsInOrder, Gone, ReleasedBy;
    if events != [] {
      var t := Apply(s, events[0]);
      ReleaseStep(s, events[0]);
      ReleasedRun(t, events[1..]);
      FromJoins(Gone(s.main), Gone(t.main), Gone(Final(s, events).main));
    }
  }

  /**
   Over all interleavings: the resets released so far and those still waiting are
   all that were issued, each once and in order; a report that the worker has
   closed releases all that wait.
   */
  lemma ResetsReleasedInOrder(queues: nat, events: seq<Event>)
    requires Run(Init(queues), events)
    ensures var s := Final(Init(queues), events);
            && Released(Init(queues), events) + s.main.resets == From(0, s.main.issued)
            && RemoteSafety.Shaped(s)
            && (s.up != [] && s.up[0].ClosedMessage? ==> NextReceipt(s) == Release(s.main.resets))
  {
    hide Run, Final, Inv;
    var s := Final(Init(queues), events);
    InitInv(queues);
    RunKeeps(Init(queues), events);
    InvShaped(s);
    ReleasedRun(Init(queues), events);
    FromJoins(0, Gone(s.main), s.main.issued);
  }

  // ---------------------------------------------------------------------------
  // What the main thread holds for enabled, and what happens once

  /** A reset, or what ends the device, takes every queue away on the main thread at once. */
  predicate TakesAll(s: System, e: Event)
  {
    || e.MainReset? || (e.MainShutdown? && !s.main.closeSent)
    || (e.MainReceive? && s.up != [] && s.up[0].ClosedMessage?)
  }

  /** A queue is enabled on the main thread from its enable to its disable or to what takes all away. */
  lemma EnabledExactly(s: System, e: Event, vq: nat)
    requires Enabled(s, e) && vq < Queues(s)
    ensures var t := Apply(s, e);
            && Queues(t) == Queues(s)
            && t.main.enabled[vq]
               == (if e == MainEnable(vq) then true
                   else if e == MainDisable(vq) || TakesAll(s, e) then false else s.main.enabled[vq])
  {
    hide Bump, Handled, D.Apply, Installed;
  }

  /** Every such turn, and the first failure, moves the device epoch on by one; nothing else does. */
  lemma DeviceEpochExactly(s: System, e: Event)
    requires Enabled(s, e)
    ensures Apply(s, e).control[0]
         == s.control[0] + if TakesAll(s, e) || (e.MainFail? && !s.main.failed) then 1 else 0
    ensures |Apply(s, e).control| == |s.control|
    ensures forall vq :: 0 <= vq < Queues(s) ==>
                           Apply(s, e).control[1 + vq]
                           == s.control[1 + vq] + if e == MainEnable(vq) || e == MainDisable(vq) then 1 else 0
  {
    hide Handled, D.Apply, Installed;
  }

  /**
   A second failure and a second shutdown do nothing; a worker that has reported
   that it closed, and a main thread that has read it, read no more.
   */
  lemma OnlyOnce(s: System, e: Event)
    requires Enabled(s, e)
    ensures e.MainFail? && s.main.failed ==> Apply(s, e) == s
    ensures e.MainShutdown? ==> Apply(s, e).main.closeSent && (s.main.closeSent ==> Apply(s, e) == s)
    ensures e.WorkerClosed? ==> !Apply(s, e).worker.listening && !Enabled(Apply(s, e), WorkerReceive)
                                && !Enabled(Apply(s, e), WorkerClosed)
    ensures e.MainReceive? && s.up[0].ClosedMessage? ==>
              !Apply(s, e).main.listening && !Enabled(Apply(s, e), MainReceive)
  {
    hide Bump, Handled, D.Apply, Installed;
  }

  /** The worker takes up a first request to close, and no second one. */
  lemma ClosesOnce(w: Worker, control: seq<nat>)
    requires |control| > 0
    ensures var v := Handled(w, control, CloseMessage);
            && v.closing && v.device.stopped == (w.closing ==> w.device.stopped)
            && Handled(v, control, CloseMessage) == v
  {
    if !w.closing { StopsStopped(w.device, D.Stop); }
  }
}
