/**
 Every interleaving of the main thread, the worker and the two channels between
 them: which completions can reach guest memory, and when a reset is released.
 */
module RemoteSafety {
  import opened Wrappers
  import D = Device
  import opened Remote

  /** An enable as the main thread made it; its number is the generation the worker will give it. */
  datatype Enabling = Enabling(vq: nat, deviceEpoch: nat, queueEpoch: nat)

  datatype Chain = Chain(vq: nat, generation: nat)

  /**
   `latest[vq]` is the newest enable of vq if nothing has disabled, reset or
   revoked it since; `failedAt` is how many enables preceded the failure, and
   `marks[n]` how many preceded the n-th reset. `wanted[vq]` is the enable the
   worker should end up with once it has read every message posted.
   */
  datatype System = System(
    main: Main, control: seq<nat>, down: seq<DeviceMessage>, up: seq<WorkerMessage>, worker: Worker,
    chains: seq<Chain>, acked: set<nat>,
    enables: seq<Enabling>, latest: seq<Option<nat>>, failedAt: Option<nat>, marks: seq<nat>, wanted: seq<Option<nat>>)

  datatype Event =
    | MainEnable(vq: nat)
    | MainDisable(vq: nat)
    | MainNotify(vq: nat)
    | MainReset
    | MainShutdown
    | MainFail
    | MainReceive
    | WorkerReceive
    | WorkerDevice(e: D.Event)
    | WorkerPop(vq: nat)
    | WorkerRelease(chain: nat, checked: bool)
    | WorkerAck(reset: nat)
    | WorkerClosed

  /** Turns of the device that no message starts. */
  predicate Internal(e: D.Event)
  {
    e.Settle? || e.Leave? || e.Resume? || e.Spawn? || e.StopResume? || e.CloseSettles?
  }

  function Init(queues: nat): System
  {
    System(Main(AllFalse(queues), false, [], 0, true, false), seq(1 + queues, _ => 0), [], [],
           Worker(0, seq(queues, _ => 0), D.Init(queues), false, true),
           [], {}, [], Nones(queues), None, [], Nones(queues))
  }

  function Queues(s: System): nat
  {
    |s.main.enabled|
  }

  predicate Shaped(s: System)
  {
    |s.control| == 1 + Queues(s) && |s.worker.epochs| == Queues(s) == |s.latest| == |s.wanted|
  }

  /**
   A reset of a device with views is acknowledged once the work active when the
   device ran it has settled. `checked` is the worker's own check of the epochs:
   they may have moved before it or after it, so either outcome is possible.
   */
  predicate Enabled(s: System, e: Event)
  {
    Shaped(s) &&
    match e
    case MainEnable(vq) => vq < Queues(s)
    case MainDisable(vq) => vq < Queues(s)
    case MainReceive => s.main.listening && s.up != []
    case WorkerReceive => s.worker.listening && s.down != []
    case WorkerDevice(d) => Internal(d) && D.Enabled(s.worker.device, d)
    case WorkerPop(vq) => D.QueueOf(s.worker.device.queues, vq).queue.Some?
    case WorkerRelease(chain, _) => chain < |s.chains| && s.chains[chain].vq < Queues(s)
    case WorkerAck(reset) =>
      && reset < |s.worker.device.resets| && reset !in s.acked
      && D.AllSettled(s.worker.device.works, s.worker.device.resets[reset].snapshot)
    case WorkerClosed => s.worker.listening && s.worker.device.shutdown.Closed?
    case _ => true
  }

  function Nones(n: nat): seq<Option<nat>>
  {
    seq(n, _ => None)
  }

  function Apply(s: System, e: Event): System
    requires Enabled(s, e)
  {
    match e
    case MainEnable(vq) => AfterEnable(s, vq)
    case MainDisable(vq) =>
      s.(main := s.main.(enabled := s.main.enabled[vq := false]), control := Bump(s.control, 1 + vq),
         down := s.down + [DisableMessage(vq)], latest := s.latest[vq := None], wanted := s.wanted[vq := None])
    case MainNotify(vq) => s.(down := s.down + [NotifyMessage(vq)])
    case MainReset =>
      Revoked(s).(main := s.main.(enabled := AllFalse(Queues(s)), resets := s.main.resets + [s.main.issued],
                                  issued := s.main.issued + 1),
                  down := s.down + [ResetMessage(|s.enables|)], marks := s.marks + [|s.enables|],
                  wanted := Nones(Queues(s)))
    case MainShutdown =>
      if s.main.closeSent then s
      else Revoked(s).(main := s.main.(enabled := AllFalse(Queues(s)), closeSent := true),
                       down := s.down + [CloseMessage])
    case MainFail =>
      if s.main.failed then s
      else s.(main := s.main.(failed := true), control := Bump(s.control, 0), failedAt := Some(|s.enables|))
    case MainReceive => AfterReceive(s)
    case WorkerReceive => s.(worker := Handled(s.worker, s.control, s.down[0]), down := s.down[1..])
    case WorkerDevice(d) => s.(worker := s.worker.(device := D.Apply(s.worker.device, d)))
    case WorkerPop(vq) => s.(chains := s.chains + [Chain(vq, D.QueueOf(s.worker.device.queues, vq).queue.value)])
    case WorkerRelease(chain, checked) => AfterRelease(s, s.chains[chain], checked)
    case WorkerAck(reset) => s.(acked := s.acked + {reset}, up := s.up + [ResetDone])
    case WorkerClosed => s.(worker := s.worker.(listening := false), up := s.up + [ClosedMessage])
  }

  function Revoked(s: System): System
    requires Shaped(s)
  {
    s.(main := s.main.(enabled := AllFalse(Queues(s))), control := Bump(s.control, 0), latest := Nones(Queues(s)))
  }

  function AfterEnable(s: System, vq: nat): System
    requires Shaped(s) && vq < Queues(s)
  {
    var control := Bump(s.control, 1 + vq);
    s.(main := s.main.(enabled := s.main.enabled[vq := true]), control := control,
       down := s.down + [EnableMessage(vq, control[0], control[1 + vq], |s.enables|)],
       enables := s.enables + [Enabling(vq, control[0], control[1 + vq])],
       latest := s.latest[vq := Some(|s.enables|)], wanted := s.wanted[vq := Some(|s.enables|)])
  }

  function AfterReceive(s: System): System
    requires Shaped(s) && s.up != []
  {
    var t := s.(up := s.up[1..]);
    match s.up[0]
    case Complete(_, _, _, _) => t
    case ResetDone => t.(main := t.main.(resets := if t.main.resets == [] then [] else t.main.resets[1..]))
    case ClosedMessage => Revoked(t).(main := t.main.(listening := false, enabled := AllFalse(Queues(s)), resets := []))
  }

  function AfterRelease(s: System, c: Chain, checked: bool): System
    requires Shaped(s) && c.vq < Queues(s)
  {
    if checked && Installed(s.worker.device, c.vq, c.generation)
    then s.(up := s.up + [Complete(c.vq, s.worker.deviceEpoch, s.worker.epochs[c.vq], c.generation)])
    else s
  }

  predicate Run(s: System, events: seq<Event>)
    decreases |events|
  {
    events == [] || (Enabled(s, events[0]) && Run(Apply(s, events[0]), events[1..]))
  }

  function Final(s: System, events: seq<Event>): System
    requires Run(s, events)
    decreases |events|
  {
    if events == [] then s else Final(Apply(s, events[0]), events[1..])
  }

  // ---------------------------------------------------------------------------
  // The invariant

  /** Enables in the channel are numbered on from those the worker has run, and resets know their place. */
  predicate ChannelOrdered(down: seq<DeviceMessage>, next: nat, total: nat)
    decreases |down|
  {
    if down == [] then next == total
    else
      match down[0]
      case EnableMessage(_, _, _, generation) => generation == next && ChannelOrdered(down[1..], next + 1, total)
      case ResetMessage(mark) => mark == next && ChannelOrdered(down[1..], next, total)
      case _ => ChannelOrdered(down[1..], next, total)
  }

  function MarkOf(m: DeviceMessage): seq<nat>
  {
    if m.ResetMessage? then [m.mark] else []
  }

  /** The marks of the resets in the channel. */
  function MarksIn(down: seq<DeviceMessage>): seq<nat>
  {
    if down == [] then [] else MarksIn(down[..|down| - 1]) + MarkOf(down[|down| - 1])
  }

  function DonesIn(up: seq<WorkerMessage>): nat
  {
    if up == [] then 0 else DonesIn(up[..|up| - 1]) + if up[|up| - 1].ResetDone? then 1 else 0
  }

  predicate EnableMessagesMatch(down: seq<DeviceMessage>, enables: seq<Enabling>)
  {
    && (forall m :: m in down && m.EnableMessage? ==>
                      m.generation < |enables| && enables[m.generation] == Enabling(m.vq, m.deviceEpoch, m.queueEpoch))
    && (forall m :: m in down && m.ResetMessage? ==> m.mark <= |enables|)
  }

  /** Whatever queue the worker has installed, its epoch is that queue's. */
  ghost predicate InstalledMatch(w: Worker, enables: seq<Enabling>)
  {
    && w.device.generations <= |enables|
    && forall vq: nat :: Token(w.device, vq).Some? ==>
                           var g := Token(w.device, vq).value;
                           && g < w.device.generations && vq < |w.epochs|
                           && enables[g].vq == vq && enables[g].queueEpoch == w.epochs[vq]
  }

  /** The generation of the queue object installed for vq. */
  function Token(device: D.State, vq: nat): Option<nat>
  {
    D.QueueOf(device.queues, vq).queue
  }

  predicate CompletionsMatch(up: seq<WorkerMessage>, enables: seq<Enabling>)
  {
    forall m :: m in up && m.Complete? ==>
                  m.generation < |enables| && enables[m.generation].vq == m.vq
                  && enables[m.generation].queueEpoch == m.queueEpoch
  }

  /** A queue's epoch only grows, so it names at most one enable. */
  predicate EpochsGrow(enables: seq<Enabling>, control: seq<nat>)
  {
    && |control| > 0
    && (forall i :: 0 <= i < |enables| ==>
                      && 1 + enables[i].vq < |control|
                      && enables[i].queueEpoch <= control[1 + enables[i].vq] && enables[i].deviceEpoch <= control[0])
    && (forall i, j :: 0 <= i < j < |enables| && enables[i].vq == enables[j].vq ==>
                         enables[i].queueEpoch < enables[j].queueEpoch)
  }

  predicate LatestMatch(enabled: seq<bool>, latest: seq<Option<nat>>, enables: seq<Enabling>, control: seq<nat>)
  {
    && |enabled| == |latest| && |control| == 1 + |enabled|
    && (forall vq :: 0 <= vq < |enabled| ==> (enabled[vq] <==> latest[vq].Some?))
    && (forall vq :: 0 <= vq < |latest| && latest[vq].Some? ==>
                       && latest[vq].value < |enables| && enables[latest[vq].value].vq == vq
                       && enables[latest[vq].value].queueEpoch == control[1 + vq])
  }

  /** After a failure only later enables can carry the device epoch. */
  predicate FailureMarks(failed: bool, failedAt: Option<nat>, enables: seq<Enabling>, control: seq<nat>)
  {
    && |control| > 0 && (failed <==> failedAt.Some?)
    && (failedAt.Some? ==>
          failedAt.value <= |enables| && forall i :: 0 <= i < failedAt.value ==> enables[i].deviceEpoch < control[0])
  }

  /** A live enable was made after every reset still in the channel. */
  predicate ResetsBeforeLive(down: seq<DeviceMessage>, latest: seq<Option<nat>>)
  {
    forall m, vq :: m in down && m.ResetMessage? && 0 <= vq < |latest| && latest[vq].Some? ==>
                      m.mark <= latest[vq].value
  }

  /** Once the worker has run a live enable, its device epoch is some enable's. */
  predicate WorkerEpoch(w: Worker, latest: seq<Option<nat>>, enables: seq<Enabling>)
  {
    && w.device.generations <= |enables|
    && forall vq :: 0 <= vq < |latest| && latest[vq].Some? && latest[vq].value < w.device.generations ==>
                      w.deviceEpoch == enables[w.device.generations - 1].deviceEpoch
  }

  predicate FromEnable(epoch: nat, enables: seq<Enabling>)
  {
    exists h :: 0 <= h < |enables| && enables[h].deviceEpoch == epoch
  }

  predicate LiveCompletions(up: seq<WorkerMessage>, latest: seq<Option<nat>>, enables: seq<Enabling>)
  {
    forall m :: m in up && m.Complete? && m.vq < |latest| && latest[m.vq] == Some(m.generation) ==>
                  FromEnable(m.deviceEpoch, enables)
  }

  /** Resets are released in order, one acknowledgement each. */
  predicate ResetsCounted(m: Main, up: seq<WorkerMessage>, acked: set<nat>)
  {
    m.listening ==>
      && |m.resets| <= m.issued
      && (forall k :: 0 <= k < |m.resets| ==> m.resets[k] == m.issued - |m.resets| + k)
      && |acked| == DonesIn(up) + (m.issued - |m.resets|)
  }

  /** The worker's n-th reset is the main thread's n-th, and came after the same enables. */
  predicate ResetsSent(w: Worker, down: seq<DeviceMessage>, marks: seq<nat>, issued: nat)
  {
    && |w.device.resets| <= |marks| == issued
    && (forall n :: 0 <= n < |w.device.resets| ==> w.device.resets[n].generations == marks[n])
    && MarksIn(down) == marks[|w.device.resets|..]
  }

  predicate AcksSettled(device: D.State, acked: set<nat>)
  {
    forall i :: i in acked ==> i < |device.resets| && D.AllSettled(device.works, device.resets[i].snapshot)
  }

  predicate ClosedReported(w: Worker, up: seq<WorkerMessage>)
  {
    ClosedMessage in up ==> w.device.shutdown.Closed?
  }

  ghost predicate Inv(s: System)
  {
    && Shaped(s)
    && D.Inv(s.worker.device)
    && ChannelOrdered(s.down, s.worker.device.generations, |s.enables|)
    && EnableMessagesMatch(s.down, s.enables)
    && InstalledMatch(s.worker, s.enables)
    && CompletionsMatch(s.up, s.enables)
    && EpochsGrow(s.enables, s.control)
    && LatestMatch(s.main.enabled, s.latest, s.enables, s.control)
    && FailureMarks(s.main.failed, s.failedAt, s.enables, s.control)
    && ResetsBeforeLive(s.down, s.latest)
    && WorkerEpoch(s.worker, s.latest, s.enables)
    && LiveCompletions(s.up, s.latest, s.enables)
    && ResetsCounted(s.main, s.up, s.acked)
    && ResetsSent(s.worker, s.down, s.marks, s.main.issued)
    && AcksSettled(s.worker.device, s.acked)
    && ClosedReported(s.worker, s.up)
  }

  lemma InitInv(queues: nat)
    ensures Inv(Init(queues))
  {
    D.InitInv(queues);
    hide D.Inv;
  }

  // ---------------------------------------------------------------------------
  // What the device's turns leave alone

  lemma InternalFrame(d: D.State, e: D.Event, vq: nat)
    requires D.Enabled(d, e) && (Internal(e) || e.Notify?)
    ensures D.Apply(d, e).generations == d.generations && D.Apply(d, e).resets == d.resets
    ensures Token(D.Apply(d, e), vq) == Token(d, vq)
  {
  }

  /** Settled work stays settled, and a closed device closed. */
  lemma SettledStays(d: D.State, e: D.Event)
    requires D.Enabled(d, e)
    ensures forall w: nat :: D.Settled(d.works, w) ==> D.Settled(D.Apply(d, e).works, w)
    ensures d.shutdown.Closed? && d.stopped ==> D.Apply(d, e).shutdown.Closed?
  {
    match e
    case Enable(vq) => hide D.AfterNotify, D.AfterResume, D.AfterReset;
    case Notify(vq) => hide D.AfterEnable, D.AfterResume, D.AfterReset;
    case Resume(vq) => hide D.AfterEnable, D.AfterNotify, D.AfterReset;
    case _ => hide D.AfterEnable, D.AfterNotify, D.AfterResume, D.LoopBody;
  }

  lemma AcksStay(d: D.State, e: D.Event, acked: set<nat>)
    requires D.Enabled(d, e) && AcksSettled(d, acked)
    requires D.Apply(d, e).resets == d.resets || e.Reset?
    ensures AcksSettled(D.Apply(d, e), acked)
  {
    SettledStays(d, e);
    var t := D.Apply(d, e);
    if e.Reset? { D.ResetsGrow(d, e); }
    hide D.Settled, D.Apply;
    forall i | i in acked
      ensures i < |t.resets| && D.AllSettled(t.works, t.resets[i].snapshot)
    {
      assert D.AllSettled(d.works, d.resets[i].snapshot);
    }
  }

  // ---------------------------------------------------------------------------
  // Channel facts

  lemma {:induction false} SendEnable(down: seq<DeviceMessage>, next: nat, total: nat, m: DeviceMessage)
    requires ChannelOrdered(down, next, total) && m.EnableMessage? && m.generation == total
    ensures ChannelOrdered(down + [m], next, total + 1)
    decreases |down|
  {
    if down == [] {
      assert (down + [m])[1..] == [];
    } else {
      assert (down + [m])[1..] == down[1..] + [m];
      SendEnable(down[1..], if down[0].EnableMessage? then next + 1 else next, total, m);
    }
  }

  lemma {:induction false} SendOther(down: seq<DeviceMessage>, next: nat, total: nat, m: DeviceMessage)
    requires ChannelOrdered(down, next, total) && !m.EnableMessage? && (m.ResetMessage? ==> m.mark == total)
    ensures ChannelOrdered(down + [m], next, total)
    decreases |down|
  {
    if down == [] {
      assert (down + [m])[1..] == [];
    } else {
      assert (down + [m])[1..] == down[1..] + [m];
      SendOther(down[1..], if down[0].EnableMessage? then next + 1 else next, total, m);
    }
  }

  lemma MarksInSent(down: seq<DeviceMessage>, m: DeviceMessage)
    ensures MarksIn(down + [m]) == MarksIn(down) + MarkOf(m)
  {
    assert (down + [m])[..|down|] == down;
  }

  lemma {:induction false} MarksInTaken(down: seq<DeviceMessage>)
    requires down != []
    ensures MarksIn(down) == MarkOf(down[0]) + MarksIn(down[1..])
  {
    hide MarkOf;
    var n := |down| - 1;
    if n > 0 {
      MarksInTaken(down[..n]);
      assert down[..n][1..] == down[1..][..n - 1];
    } else {
      assert down[..0] == [] && down[1..] == [];
    }
  }

  lemma DonesInSent(up: seq<WorkerMessage>, m: WorkerMessage)
    ensures DonesIn(up + [m]) == DonesIn(up) + if m.ResetDone? then 1 else 0
  {
    assert (up + [m])[..|up|] == up;
  }

  lemma {:induction false} DonesInTaken(up: seq<WorkerMessage>)
    requires up != []
    ensures DonesIn(up) == DonesIn(up[1..]) + if up[0].ResetDone? then 1 else 0
  {
    var n := |up| - 1;
    if n > 0 {
      DonesInTaken(up[..n]);
      assert up[..n][1..] == up[1..][..n - 1];
    } else {
      assert up[..0] == [] && up[1..] == [];
    }
  }

  /** A set of numbers below n has at most n of them. */
  lemma {:induction false} AtMost(ns: set<nat>, n: nat)
    requires forall i :: i in ns ==> i < n
    ensures |ns| <= n
    decreases n
  {
    if n == 0 {
      assert ns == {};
    } else {
      AtMost(ns - {n - 1}, n - 1);
      if n - 1 in ns { assert ns == (ns - {n - 1}) + {n - 1}; } else { assert ns - {n - 1} == ns; }
    }
  }

  // ---------------------------------------------------------------------------
  // The main thread's turns keep the invariant

  lemma EnableEpochs(enables: seq<Enabling>, control: seq<nat>, vq: nat)
    requires EpochsGrow(enables, control) && 1 + vq < |control|
    ensures var after := Bump(control, 1 + vq);
            EpochsGrow(enables + [Enabling(vq, after[0], after[1 + vq])], after)
  {
  }

  lemma EnableLatest(s: System, vq: nat)
    requires Shaped(s) && vq < Queues(s)
    requires LatestMatch(s.main.enabled, s.latest, s.enables, s.control)
    requires FailureMarks(s.main.failed, s.failedAt, s.enables, s.control)
    requires ResetsBeforeLive(s.down, s.latest) && EnableMessagesMatch(s.down, s.enables)
    ensures var t := AfterEnable(s, vq);
            && LatestMatch(t.main.enabled, t.latest, t.enables, t.control)
            && FailureMarks(t.main.failed, t.failedAt, t.enables, t.control)
            && ResetsBeforeLive(t.down, t.latest) && EnableMessagesMatch(t.down, t.enables)
  {
  }

  lemma EnableWorker(s: System, vq: nat)
    requires Shaped(s) && vq < Queues(s)
    requires InstalledMatch(s.worker, s.enables) && WorkerEpoch(s.worker, s.latest, s.enables)
    requires CompletionsMatch(s.up, s.enables) && LiveCompletions(s.up, s.latest, s.enables)
    ensures var t := AfterEnable(s, vq);
            && InstalledMatch(t.worker, t.enables) && WorkerEpoch(t.worker, t.latest, t.enables)
            && CompletionsMatch(t.up, t.enables) && LiveCompletions(t.up, t.latest, t.enables)
  {
    hide Token;
    var t := AfterEnable(s, vq);
    forall m | m in t.up && m.Complete? && m.vq < |t.latest| && t.latest[m.vq] == Some(m.generation)
      ensures FromEnable(m.deviceEpoch, t.enables)
    {
      assert FromEnable(m.deviceEpoch, s.enables);
      var h :| 0 <= h < |s.enables| && s.enables[h].deviceEpoch == m.deviceEpoch;
      assert t.enables[h].deviceEpoch == m.deviceEpoch;
    }
  }

  lemma MainEnableKeeps(s: System, vq: nat)
    requires Inv(s) && vq < Queues(s)
    ensures Inv(AfterEnable(s, vq))
  {
    hide D.Inv, ChannelOrdered, EnableMessagesMatch, InstalledMatch, CompletionsMatch, EpochsGrow, LatestMatch,
      FailureMarks, ResetsBeforeLive, WorkerEpoch, LiveCompletions, AcksSettled, MarksIn, ClosedReported;
    var t := AfterEnable(s, vq);
    EnableEpochs(s.enables, s.control, vq);
    EnableLatest(s, vq);
    EnableWorker(s, vq);
    SendEnable(s.down, s.worker.device.generations, |s.enables|, t.down[|s.down|]);
    MarksInSent(s.down, t.down[|s.down|]);
  }

  /** Clearing live enables and bumping epochs only makes the remaining conditions easier. */
  lemma RevokeKeeps(s: System, t: System, slot: nat)
    requires Shaped(s) && slot < |s.control| && t.control == Bump(s.control, slot)
    requires t.enables == s.enables && t.worker == s.worker && t.up == s.up && t.failedAt == s.failedAt
    requires t.main.failed == s.main.failed && |t.main.enabled| == Queues(s) && |t.latest| == |s.latest|
    requires forall vq :: 0 <= vq < Queues(s) ==>
                            if slot == 0 || slot == 1 + vq then !t.main.enabled[vq] && t.latest[vq].None?
                            else t.main.enabled[vq] == s.main.enabled[vq] && t.latest[vq] == s.latest[vq]
    requires EpochsGrow(s.enables, s.control) && LatestMatch(s.main.enabled, s.latest, s.enables, s.control)
    requires FailureMarks(s.main.failed, s.failedAt, s.enables, s.control)
    requires WorkerEpoch(s.worker, s.latest, s.enables) && LiveCompletions(s.up, s.latest, s.enables)
    ensures EpochsGrow(t.enables, t.control) && LatestMatch(t.main.enabled, t.latest, t.enables, t.control)
    ensures FailureMarks(t.main.failed, t.failedAt, t.enables, t.control)
    ensures WorkerEpoch(t.worker, t.latest, t.enables) && LiveCompletions(t.up, t.latest, t.enables)
  {
    hide FromEnable;
  }

  lemma SendKeeps(s: System, m: DeviceMessage, latest: seq<Option<nat>>)
    requires Shaped(s) && ChannelOrdered(s.down, s.worker.device.generations, |s.enables|)
    requires EnableMessagesMatch(s.down, s.enables) && ResetsBeforeLive(s.down, s.latest)
    requires !m.EnableMessage? && (m.ResetMessage? ==> m.mark == |s.enables|)
    requires |latest| == |s.latest|
    requires forall vq :: 0 <= vq < |latest| ==>
                            latest[vq].None? || (latest[vq] == s.latest[vq] && !m.ResetMessage?)
    ensures ChannelOrdered(s.down + [m], s.worker.device.generations, |s.enables|)
    ensures EnableMessagesMatch(s.down + [m], s.enables) && ResetsBeforeLive(s.down + [m], latest)
    ensures MarksIn(s.down + [m]) == MarksIn(s.down) + MarkOf(m)
  {
    SendOther(s.down, s.worker.device.generations, |s.enables|, m);
    MarksInSent(s.down, m);
    hide ChannelOrdered, MarksIn;
  }

  lemma MainSendKeeps(s: System, e: Event)
    requires Inv(s) && Enabled(s, e) && (e.MainDisable? || e.MainNotify? || e.MainReset? || e.MainShutdown?)
    ensures Inv(Apply(s, e))
  {
    hide D.Inv, ChannelOrdered, EnableMessagesMatch, InstalledMatch, CompletionsMatch, EpochsGrow, LatestMatch,
      FailureMarks, ResetsBeforeLive, WorkerEpoch, LiveCompletions, AcksSettled, MarksIn, ClosedReported;
    var t := Apply(s, e);
    match e
    case MainDisable(vq) =>
      RevokeKeeps(s, t, 1 + vq);
      SendKeeps(s, DisableMessage(vq), t.latest);
    case MainNotify(vq) =>
      SendKeeps(s, NotifyMessage(vq), t.latest);
    case MainReset =>
      RevokeKeeps(s, t, 0);
      SendKeeps(s, ResetMessage(|s.enables|), t.latest);
    case MainShutdown =>
      if !s.main.closeSent {
        RevokeKeeps(s, t, 0);
        SendKeeps(s, CloseMessage, t.latest);
      }
  }

  lemma MainFailKeeps(s: System)
    requires Inv(s)
    ensures Inv(Apply(s, MainFail))
  {
    hide D.Inv, ChannelOrdered, EnableMessagesMatch, InstalledMatch, CompletionsMatch, ResetsBeforeLive, WorkerEpoch,
      LiveCompletions, AcksSettled, MarksIn, ClosedReported;
  }

  lemma ReceiveUp(s: System)
    requires Inv(s) && s.up != []
    ensures CompletionsMatch(s.up[1..], s.enables) && LiveCompletions(s.up[1..], s.latest, s.enables)
    ensures ClosedReported(s.worker, s.up[1..])
  {
    hide D.Inv, ChannelOrdered, EnableMessagesMatch, InstalledMatch, EpochsGrow, LatestMatch, FailureMarks,
      ResetsBeforeLive, WorkerEpoch, AcksSettled, MarksIn, DonesIn, FromEnable;
    assert forall m :: m in s.up[1..] ==> m in s.up;
  }

  /** An acknowledgement always finds a reset to release, one whose work has settled. */
  lemma DoneFindsReset(s: System)
    requires Inv(s) && s.main.listening && s.up != [] && s.up[0].ResetDone?
    ensures s.main.resets != []
    ensures s.main.resets[0] < |s.worker.device.resets|
    ensures D.AllSettled(s.worker.device.works, s.worker.device.resets[s.main.resets[0]].snapshot)
  {
    hide D.Inv, ChannelOrdered, EnableMessagesMatch, InstalledMatch, CompletionsMatch, EpochsGrow, LatestMatch,
      FailureMarks, ResetsBeforeLive, WorkerEpoch, LiveCompletions, MarksIn, DonesIn, D.AllSettled;
    var d := s.worker.device;
    var released := s.main.issued - |s.main.resets|;
    DonesInTaken(s.up);
    assert |s.acked| > released;
    AtMost(s.acked, |d.resets|);
    if forall i :: i in s.acked ==> i < released {
      AtMost(s.acked, released);
      assert false;
    }
    var j :| j in s.acked && released <= j;
    D.LaterResetCoversEarlier(d, released, j);
  }

  lemma MainReceiveKeeps(s: System)
    requires Inv(s) && s.main.listening && s.up != []
    ensures Inv(AfterReceive(s))
  {
    hide D.Inv, ChannelOrdered, EnableMessagesMatch, InstalledMatch, CompletionsMatch, EpochsGrow, LatestMatch,
      FailureMarks, ResetsBeforeLive, WorkerEpoch, LiveCompletions, AcksSettled, MarksIn, DonesIn, ClosedReported;
    ReceiveUp(s);
    DonesInTaken(s.up);
    match s.up[0]
    case Complete(_, _, _, _) =>
    case ResetDone => DoneFindsReset(s);
    case ClosedMessage =>
      var t := s.(up := s.up[1..]);
      RevokeKeeps(t, AfterReceive(s), 0);
      NoneLive(s.down, AfterReceive(s).latest);
  }

  lemma NoneLive(down: seq<DeviceMessage>, latest: seq<Option<nat>>)
    requires forall vq :: 0 <= vq < |latest| ==> latest[vq].None?
    ensures ResetsBeforeLive(down, latest)
  {
  }

  // ---------------------------------------------------------------------------
  // The worker's turns keep the invariant

  /** How handling a message moves the installed queues, and how many generations and resets there are. */
  lemma HandledFrame(w: Worker, control: seq<nat>, msg: DeviceMessage, vq: nat)
    requires |control| > 0
    ensures var t := Handled(w, control, msg);
            && t.device.generations == w.device.generations + (if msg.EnableMessage? then 1 else 0)
            && t.device.resets
               == (if msg.ResetMessage? then w.device.resets + [D.ResetRun(w.device.active, w.device.generations)]
                   else w.device.resets)
            && Token(t.device, vq) ==
               if msg.EnableMessage? && msg.vq == vq then Some(w.device.generations)
               else if msg.ResetMessage? || (msg.DisableMessage? && msg.vq == vq) then None
               else Token(w.device, vq)
  {
    match msg
    case NotifyMessage(v) => InternalFrame(w.device, D.Notify(v), vq);
    case _ =>
  }

  lemma HandledInstalled(s: System)
    requires Shaped(s) && s.down != [] && InstalledMatch(s.worker, s.enables)
    requires ChannelOrdered(s.down, s.worker.device.generations, |s.enables|) && EnableMessagesMatch(s.down, s.enables)
    requires EpochsGrow(s.enables, s.control)
    ensures InstalledMatch(Handled(s.worker, s.control, s.down[0]), s.enables)
  {
    var msg := s.down[0];
    var t := Handled(s.worker, s.control, msg);
    HandledFrame(s.worker, s.control, msg, 0);
    assert msg in s.down;
    forall vq: nat | Token(t.device, vq).Some?
      ensures var g := Token(t.device, vq).value;
              && g < t.device.generations && vq < |t.epochs|
              && s.enables[g].vq == vq && s.enables[g].queueEpoch == t.epochs[vq]
    {
      HandledFrame(s.worker, s.control, msg, vq);
      hide Token, D.Apply;
    }
    assert t.device.generations <= |s.enables| by {
      assert msg.EnableMessage? ==> msg.generation < |s.enables|;
    }
  }

  lemma HandledEpoch(s: System)
    requires Shaped(s) && s.down != [] && WorkerEpoch(s.worker, s.latest, s.enables)
    requires ChannelOrdered(s.down, s.worker.device.generations, |s.enables|) && EnableMessagesMatch(s.down, s.enables)
    requires ResetsBeforeLive(s.down, s.latest)
    ensures WorkerEpoch(Handled(s.worker, s.control, s.down[0]), s.latest, s.enables)
  {
    HandledFrame(s.worker, s.control, s.down[0], 0);
    hide Token, D.Apply;
    assert s.down[0] in s.down;
  }

  function EventOf(msg: DeviceMessage, closing: bool): Option<D.Event>
  {
    match msg
    case EnableMessage(vq, _, _, _) => Some(D.Enable(vq))
    case DisableMessage(vq) => Some(D.Disable(vq))
    case NotifyMessage(vq) => Some(D.Notify(vq))
    case ResetMessage(_) => Some(D.Reset)
    case CloseMessage => if closing then None else Some(D.Stop)
  }

  lemma HandledDevice(s: System)
    requires Shaped(s) && s.down != [] && D.Inv(s.worker.device)
    requires AcksSettled(s.worker.device, s.acked) && ClosedReported(s.worker, s.up)
    ensures var t := Handled(s.worker, s.control, s.down[0]);
            D.Inv(t.device) && AcksSettled(t.device, s.acked) && ClosedReported(t, s.up)
  {
    var msg := s.down[0];
    var e := EventOf(msg, s.worker.closing);
    HandledFrame(s.worker, s.control, msg, 0);
    assert s.worker.device.shutdown.Closed? ==> s.worker.device.stopped;
    hide D.Inv, D.Apply, AcksSettled;
    if e.Some? {
      D.StepKeeps(s.worker.device, e.value);
      SettledStays(s.worker.device, e.value);
      AcksStay(s.worker.device, e.value, s.acked);
    }
  }

  lemma TakenDown(s: System)
    requires s.down != [] && EnableMessagesMatch(s.down, s.enables) && ResetsBeforeLive(s.down, s.latest)
    ensures EnableMessagesMatch(s.down[1..], s.enables) && ResetsBeforeLive(s.down[1..], s.latest)
  {
    assert forall m :: m in s.down[1..] ==> m in s.down;
  }

  lemma WorkerReceiveKeeps(s: System)
    requires Inv(s) && s.down != []
    ensures Inv(s.(worker := Handled(s.worker, s.control, s.down[0]), down := s.down[1..]))
  {
    hide D.Inv, EnableMessagesMatch, InstalledMatch, CompletionsMatch, EpochsGrow, LatestMatch, FailureMarks,
      ResetsBeforeLive, WorkerEpoch, LiveCompletions, AcksSettled, MarksIn, DonesIn, ClosedReported, Token, D.Apply;
    HandledFrame(s.worker, s.control, s.down[0], 0);
    HandledInstalled(s);
    HandledEpoch(s);
    HandledDevice(s);
    TakenDown(s);
    MarksInTaken(s.down);
  }

  lemma WorkerDeviceKeeps(s: System, e: D.Event)
    requires Inv(s) && Enabled(s, WorkerDevice(e))
    ensures Inv(Apply(s, WorkerDevice(e)))
  {
    assert s.worker.device.shutdown.Closed? ==> s.worker.device.stopped;
    hide D.Inv, ChannelOrdered, EnableMessagesMatch, CompletionsMatch, EpochsGrow, LatestMatch, FailureMarks,
      ResetsBeforeLive, LiveCompletions, AcksSettled, MarksIn, DonesIn, Token, D.Apply, D.Enabled, Internal;
    D.StepKeeps(s.worker.device, e);
    SettledStays(s.worker.device, e);
    InternalFrame(s.worker.device, e, 0);
    AcksStay(s.worker.device, e, s.acked);
    forall vq: nat
      ensures Token(D.Apply(s.worker.device, e), vq) == Token(s.worker.device, vq)
    {
      InternalFrame(s.worker.device, e, vq);
    }
  }

  lemma WorkerReleaseKeeps(s: System, c: Chain, checked: bool)
    requires Inv(s) && c.vq < Queues(s)
    ensures Inv(AfterRelease(s, c, checked))
  {
    hide D.Inv, ChannelOrdered, EnableMessagesMatch, EpochsGrow, LatestMatch, FailureMarks, ResetsBeforeLive,
      AcksSettled, MarksIn, DonesIn, FromEnable;
    var t := AfterRelease(s, c, checked);
    if t != s {
      var m := t.up[|s.up|];
      DonesInSent(s.up, m);
      assert Token(s.worker.device, c.vq) == Some(c.generation);
      if s.latest[c.vq] == Some(c.generation) {
        var h := s.worker.device.generations - 1;
        assert 0 <= h < |s.enables| && s.enables[h].deviceEpoch == m.deviceEpoch;
        LiveNow(s.enables, h, m.deviceEpoch);
      }
      hide Token;
    }
  }

  lemma LiveNow(enables: seq<Enabling>, h: nat, epoch: nat)
    requires h < |enables| && enables[h].deviceEpoch == epoch
    ensures FromEnable(epoch, enables)
  {
  }

  lemma WorkerAckKeeps(s: System, reset: nat)
    requires Inv(s) && Enabled(s, WorkerAck(reset))
    ensures Inv(Apply(s, WorkerAck(reset)))
  {
    hide D.Inv, ChannelOrdered, EnableMessagesMatch, InstalledMatch, EpochsGrow, LatestMatch, FailureMarks,
      ResetsBeforeLive, WorkerEpoch, MarksIn, DonesIn, FromEnable, D.AllSettled;
    DonesInSent(s.up, ResetDone);
  }

  lemma WorkerClosedKeeps(s: System)
    requires Inv(s) && Enabled(s, WorkerClosed)
    ensures Inv(Apply(s, WorkerClosed))
  {
    hide D.Inv, ChannelOrdered, EnableMessagesMatch, EpochsGrow, LatestMatch, FailureMarks, ResetsBeforeLive, MarksIn,
      DonesIn, FromEnable, AcksSettled, Token;
    DonesInSent(s.up, ClosedMessage);
  }

  lemma StepKeeps(s: System, e: Event)
    requires Inv(s) && Enabled(s, e)
    ensures Inv(Apply(s, e))
  {
    hide D.Inv, ChannelOrdered, EnableMessagesMatch, InstalledMatch, CompletionsMatch, EpochsGrow, LatestMatch,
      FailureMarks, ResetsBeforeLive, WorkerEpoch, LiveCompletions, AcksSettled, MarksIn, DonesIn, ClosedReported,
      ResetsCounted, ResetsSent, D.Apply, D.Enabled;
    match e
    case MainEnable(vq) => MainEnableKeeps(s, vq);
    case MainDisable(_) => MainSendKeeps(s, e);
    case MainNotify(_) => MainSendKeeps(s, e);
    case MainReset => MainSendKeeps(s, e);
    case MainShutdown => MainSendKeeps(s, e);
    case MainFail => MainFailKeeps(s);
    case MainReceive => MainReceiveKeeps(s);
    case WorkerReceive => WorkerReceiveKeeps(s);
    case WorkerDevice(d) => WorkerDeviceKeeps(s, d);
    case WorkerPop(_) =>
    case WorkerRelease(chain, checked) => WorkerReleaseKeeps(s, s.chains[chain], checked);
    case WorkerAck(reset) => WorkerAckKeeps(s, reset);
    case WorkerClosed => WorkerClosedKeeps(s);
  }

  lemma {:induction false} RunKeeps(s: System, events: seq<Event>)
    requires Inv(s) && Run(s, events)
    ensures Inv(Final(s, events))
    decreases |events|
  {
    hide Inv, Apply, Enabled;
    if events != [] {
      StepKeeps(s, events[0]);
      RunKeeps(Apply(s, events[0]), events[1..]);
    }
  }

  // ---------------------------------------------------------------------------
  // What holds of every run

  /** What receiving the next message would do to guest memory and to waiting resets. */
  function NextReceipt(s: System): Receipt
    requires Shaped(s) && s.up != []
  {
    ReceiptOf(s.main, s.control, s.up[0])
  }

  lemma EpochNamesEnable(enables: seq<Enabling>, control: seq<nat>, i: nat, j: nat)
    requires EpochsGrow(enables, control) && i < |enables| && j < |enables|
    requires enables[i].vq == enables[j].vq && enables[i].queueEpoch == enables[j].queueEpoch
    ensures i == j
  {
  }

  lemma NoLaterEnable(enables: seq<Enabling>, control: seq<nat>, g: nat, h: nat)
    requires EpochsGrow(enables, control) && g < h < |enables|
    requires enables[g].queueEpoch == control[1 + enables[g].vq]
    ensures enables[h].vq != enables[g].vq
  {
  }

  /** Any failure came before this enable of vq, or some other queue has been enabled since. */
  predicate OutlastsFailure(s: System, vq: nat, generation: nat)
  {
    s.failedAt.Some? ==>
      s.failedAt.value <= generation || exists h :: s.failedAt.value <= h < |s.enables| && s.enables[h].vq != vq
  }

  lemma CommitIsCurrent(s: System)
    requires Inv(s) && s.up != [] && NextReceipt(s).Commit?
    ensures var r := NextReceipt(s);
            && r.vq < |s.latest| && s.latest[r.vq] == Some(r.generation)
            && OutlastsFailure(s, r.vq, r.generation)
            && (Queues(s) == 1 && s.failedAt.Some? ==> s.failedAt.value <= r.generation)
  {
    hide D.Inv, ChannelOrdered, EnableMessagesMatch, InstalledMatch, ResetsBeforeLive, WorkerEpoch, AcksSettled,
      MarksIn, DonesIn, ClosedReported, ResetsCounted, ResetsSent;
    var m := s.up[0];
    assert m in s.up;
    var g := s.latest[m.vq].value;
    EpochNamesEnable(s.enables, s.control, g, m.generation);
    assert FromEnable(m.deviceEpoch, s.enables);
    if s.failedAt.Some? && m.generation < s.failedAt.value {
      var h :| 0 <= h < |s.enables| && s.enables[h].deviceEpoch == m.deviceEpoch;
      assert s.failedAt.value <= h;
      NoLaterEnable(s.enables, s.control, g, h);
    }
  }

  /**
   A completion is committed to guest memory only if its chain was popped from
   the queue of the latest enable of its vq, with no disable, reset or revoke
   since. After a failure, a chain from a queue enabled before it is committed
   only if another queue has been enabled after it: with one queue, never.
   */
  lemma OnlyCurrentCommits(queues: nat, events: seq<Event>)
    requires Run(Init(queues), events)
    ensures var s := Final(Init(queues), events);
            Shaped(s) && (s.up != [] && NextReceipt(s).Commit? ==>
                            var r := NextReceipt(s);
                            && r.vq < |s.latest| && s.latest[r.vq] == Some(r.generation)
                            && OutlastsFailure(s, r.vq, r.generation)
                            && (Queues(s) == 1 && s.failedAt.Some? ==> s.failedAt.value <= r.generation))
  {
    hide Inv, Init, Run, Final, NextReceipt, OutlastsFailure;
    InitInv(queues);
    RunKeeps(Init(queues), events);
    var s := Final(Init(queues), events);
    InvShaped(s);
    if s.up != [] && NextReceipt(s).Commit? {
      CommitIsCurrent(s);
    }
  }

  lemma InvShaped(s: System)
    requires Inv(s)
    ensures Shaped(s)
  {
  }

  /** The work active when the device ran this reset, if it ran it, has settled. */
  predicate Quiesced(d: D.State, reset: nat)
  {
    reset < |d.resets| ==> D.AllSettled(d.works, d.resets[reset].snapshot)
  }

  predicate NothingRuns(d: D.State)
  {
    forall w :: 0 <= w < |d.works| ==> d.works[w].outcome != D.Running
  }

  lemma ReleasesQuiesced(s: System, reset: nat)
    requires Inv(s) && s.main.listening && s.up != []
    requires NextReceipt(s).Release? && reset in NextReceipt(s).resets
    ensures Quiesced(s.worker.device, reset)
    ensures s.up[0].ResetDone? ==> reset < |s.worker.device.resets|
    ensures s.up[0].ClosedMessage? ==> NothingRuns(s.worker.device)
  {
    hide ChannelOrdered, EnableMessagesMatch, InstalledMatch, CompletionsMatch, EpochsGrow, LatestMatch, FailureMarks,
      ResetsBeforeLive, WorkerEpoch, LiveCompletions, AcksSettled, MarksIn, DonesIn, ResetsSent, D.DrainsMatch,
      D.GenerationsKnown;
    if s.up[0].ResetDone? {
      DoneFindsReset(s);
    } else {
      assert s.up[0] in s.up;
      var d := s.worker.device;
      if reset < |d.resets| {
        assert D.InWorks(d.works, d.resets[reset].snapshot);
      }
    }
  }

  /**
   The guest is told a reset is done, by an acknowledgement or by the worker's
   report that it has closed, only after every kick and spawned request active
   when the device ran that reset has settled. Acknowledgements may be sent in
   any order; each releases the oldest waiting reset all the same.
   */
  lemma ResetReleasedAfterQuiescence(queues: nat, events: seq<Event>, reset: nat)
    requires Run(Init(queues), events)
    ensures var s := Final(Init(queues), events);
            Shaped(s) && (s.main.listening && s.up != [] && NextReceipt(s).Release?
                          && reset in NextReceipt(s).resets ==>
                            && Quiesced(s.worker.device, reset)
                            && (s.up[0].ResetDone? ==> reset < |s.worker.device.resets|)
                            && (s.up[0].ClosedMessage? ==> NothingRuns(s.worker.device)))
  {
    hide Inv, Init, Run, Final, NextReceipt, Quiesced, NothingRuns;
    InitInv(queues);
    RunKeeps(Init(queues), events);
    var s := Final(Init(queues), events);
    InvShaped(s);
    if s.main.listening && s.up != [] && NextReceipt(s).Release? && reset in NextReceipt(s).resets {
      ReleasesQuiesced(s, reset);
    }
  }

  lemma RunStep(s: System, e: Event, rest: seq<Event>)
    requires Enabled(s, e) && Run(Apply(s, e), rest)
    ensures Run(s, [e] + rest) && Final(s, [e] + rest) == Final(Apply(s, e), rest)
  {
    assert ([e] + rest)[1..] == rest;
  }

  /** A chain of vq popped from its installed queue, with nothing in flight on either channel. */
  predicate Ready(s: System, vq: nat, chain: nat)
  {
    && Shaped(s) && vq < Queues(s) && s.main.enabled[vq] && !s.main.failed && s.worker.listening
    && s.down == [] && s.up == [] && chain < |s.chains| && s.chains[chain].vq == vq
    && Installed(s.worker.device, vq, s.chains[chain].generation)
    && s.worker.epochs[vq] == s.control[1 + vq]
  }

  lemma FirstEnable(s: System)
    requires s == Init(2)
    ensures Enabled(s, MainEnable(0))
    ensures var t := Apply(s, MainEnable(0));
            && Shaped(t) && Queues(t) == 2 && t.main.enabled[0] && !t.main.failed && t.control == [0, 1, 0]
            && t.down == [EnableMessage(0, 0, 1, 0)] && t.up == [] && t.chains == []
            && t.worker.listening && t.worker.device.generations == 0
  {
  }

  lemma ReadyReachable()
    ensures var events := [MainEnable(0), WorkerReceive, WorkerPop(0)];
            Run(Init(2), events) && Ready(Final(Init(2), events), 0, 0)
  {
    hide D.Apply, Init;
    var s0 := Init(2);
    FirstEnable(s0);
    var s1 := Apply(s0, MainEnable(0));
    HandledFrame(s1.worker, s1.control, s1.down[0], 0);
    var s2 := Apply(s1, WorkerReceive);
    var s3 := Apply(s2, WorkerPop(0));
    assert Ready(s3, 0, 0);
    hide Apply, Enabled, Ready;
    RunStep(s2, WorkerPop(0), []);
    RunStep(s1, WorkerReceive, [WorkerPop(0)]);
    RunStep(s0, MainEnable(0), [WorkerReceive, WorkerPop(0)]);
  }

  lemma FailThenEnable(s: System, vq: nat, chain: nat, other: nat)
    requires Ready(s, vq, chain) && other < Queues(s) && other != vq
    ensures Enabled(s, MainFail) && Enabled(Apply(s, MainFail), MainEnable(other))
    ensures var t := Apply(Apply(s, MainFail), MainEnable(other));
            && Shaped(t) && Queues(t) == Queues(s) && t.main.failed && t.main.enabled[vq] && t.up == []
            && t.worker == s.worker && t.chains == s.chains
            && t.down == [EnableMessage(other, t.control[0], t.control[1 + other], |s.enables|)]
            && t.control[1 + vq] == s.control[1 + vq]
  {
  }

  lemma OldChainCommits(t: System, vq: nat, chain: nat, other: nat, generation: nat)
    requires Shaped(t) && vq < Queues(t) && other < Queues(t) && other != vq
    requires t.main.enabled[vq] && t.worker.listening && t.up == [] && chain < |t.chains| && t.chains[chain].vq == vq
    requires t.down == [EnableMessage(other, t.control[0], t.control[1 + other], generation)]
    requires Installed(t.worker.device, vq, t.chains[chain].generation) && t.worker.epochs[vq] == t.control[1 + vq]
    ensures Enabled(t, WorkerReceive) && Enabled(Apply(t, WorkerReceive), WorkerRelease(chain, true))
    ensures var u := Apply(Apply(t, WorkerReceive), WorkerRelease(chain, true));
            u.main == t.main && Shaped(u) && u.up != [] && NextReceipt(u) == Commit(vq, t.chains[chain].generation)
  {
    HandledFrame(t.worker, t.control, t.down[0], vq);
    hide D.Apply;
  }

  /**
   The condition on failures is exact: a failure bumps the device epoch but
   leaves queues enabled, so enabling any other queue afterwards hands the
   worker the new epoch and lets a chain popped before the failure commit.
   */
  lemma EnableAfterFailureRevivesOldChains(s: System, vq: nat, chain: nat, other: nat)
    requires Ready(s, vq, chain) && other < Queues(s) && other != vq
    ensures var events := [MainFail, MainEnable(other), WorkerReceive, WorkerRelease(chain, true)];
            && Run(s, events)
            && var u := Final(s, events);
            u.main.failed && Shaped(u) && u.up != [] && NextReceipt(u) == Commit(vq, s.chains[chain].generation)
  {
    FailThenEnable(s, vq, chain, other);
    var s1 := Apply(s, MainFail);
    var s2 := Apply(s1, MainEnable(other));
    OldChainCommits(s2, vq, chain, other, |s.enables|);
    var s3 := Apply(s2, WorkerReceive);
    hide Apply, Enabled, NextReceipt, Ready, Shaped;
    RunStep(s3, WorkerRelease(chain, true), []);
    RunStep(s2, WorkerReceive, [WorkerRelease(chain, true)]);
    RunStep(s1, MainEnable(other), [WorkerReceive, WorkerRelease(chain, true)]);
    RunStep(s, MainFail, [MainEnable(other), WorkerReceive, WorkerRelease(chain, true)]);
  }
}
