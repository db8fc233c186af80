/**
 A remote device whose kicks spawn only in the turn that starts them, as the
 block device's do: when the main thread releases a reset, nothing that could
 hold chains from before it still runs in the worker.
 */
module RemoteQuiescence {
  import opened Wrappers
  import D = Device
  import opened Remote
  import opened RemoteSafety

  predicate Prompt(s: System, e: Event)
  {
    e.WorkerDevice? ==> D.Prompt(s.worker.device, e.e)
  }

  predicate PromptRun(s: System, events: seq<Event>)
    decreases |events|
  {
    events == [] || (Enabled(s, events[0]) && Prompt(s, events[0]) && PromptRun(Apply(s, events[0]), events[1..]))
  }

  /** Every reset the worker has run covers the older work still running. */
  predicate Covering(d: D.State)
  {
    D.AllSince(d) && D.AllCovered(d)
  }

  /** A turn of the worker is a turn of its device, or leaves it alone. */
  function DeviceTurn(s: System, e: Event): Option<D.Event>
    requires Enabled(s, e)
  {
    match e
    case WorkerReceive => EventOf(s.down[0], s.worker.closing)
    case WorkerDevice(d) => Some(d)
    case _ => None
  }

  lemma DeviceMoves(s: System, e: Event)
    requires Enabled(s, e)
    ensures var turn := DeviceTurn(s, e);
            if turn.None? then Apply(s, e).worker.device == s.worker.device
            else D.Enabled(s.worker.device, turn.value)
                 && Apply(s, e).worker.device == D.Apply(s.worker.device, turn.value)
  {
    hide D.Apply;
  }

  lemma CoveringStep(s: System, e: Event)
    requires D.Inv(s.worker.device) && Covering(s.worker.device) && Enabled(s, e) && Prompt(s, e)
    ensures Covering(Apply(s, e).worker.device)
  {
    hide D.Inv, D.Apply, D.Enabled, D.AllSince, D.AllCovered, D.Timely, Apply, Enabled;
    DeviceMoves(s, e);
    var turn := DeviceTurn(s, e);
    if turn.Some? {
      D.PromptIsTimely(s.worker.device, turn.value);
      D.SinceStep(s.worker.device, turn.value);
      D.CoveredStep(s.worker.device, turn.value);
    }
  }

  lemma DeviceInv(s: System)
    requires Inv(s)
    ensures D.Inv(s.worker.device)
  {
  }

  lemma {:induction false} PromptRunKeeps(s: System, events: seq<Event>)
    requires Inv(s) && Covering(s.worker.device) && PromptRun(s, events)
    ensures Run(s, events) && Inv(Final(s, events)) && Covering(Final(s, events).worker.device)
    decreases |events|
  {
    hide Inv, Apply, Enabled, Covering, Prompt;
    if events != [] {
      DeviceInv(s);
      CoveringStep(s, events[0]);
      StepKeeps(s, events[0]);
      PromptRunKeeps(Apply(s, events[0]), events[1..]);
    }
  }

  /** Chains of a running work come from an enable made after the main thread's n-th reset. */
  predicate Since(s: System, reset: nat, w: nat)
  {
    w < |s.worker.device.works| && s.worker.device.works[w].outcome == D.Running ==>
      reset < |s.marks| && s.marks[reset] <= s.worker.device.works[w].generation
  }

  lemma ReleasedIsQuiet(s: System, reset: nat, w: nat)
    requires Inv(s) && Covering(s.worker.device) && s.main.listening && s.up != []
    requires NextReceipt(s).Release? && reset in NextReceipt(s).resets
    ensures Since(s, reset, w)
  {
    ReleasesQuiesced(s, reset);
    hide D.Inv, ChannelOrdered, EnableMessagesMatch, InstalledMatch, CompletionsMatch, EpochsGrow, LatestMatch,
      FailureMarks, ResetsBeforeLive, WorkerEpoch, LiveCompletions, AcksSettled, MarksIn, DonesIn, ClosedReported,
      ResetsCounted, D.AllSince, D.Since, D.AllSettled;
    var d := s.worker.device;
    if s.up[0].ResetDone? {
      assert D.Covers(d, d.resets[reset]);
      if w < |d.works| && d.works[w].outcome == D.Running && d.works[w].generation < s.marks[reset] {
        assert D.Older(d, d.resets[reset], w);
        StillRunning(d, d.resets[reset].snapshot, w);
      }
    }
  }

  lemma StillRunning(d: D.State, snapshot: set<nat>, w: nat)
    requires D.AllSettled(d.works, snapshot) && w < |d.works| && d.works[w].outcome == D.Running
    ensures w !in snapshot
  {
  }

  /**
   Over every interleaving: when the main thread releases its n-th reset, by the
   worker's acknowledgement or by its report that it has closed, every kick and
   spawned request still running works on chains of a queue enabled after that
   reset. So no request from before it still holds a view of guest memory.
   */
  lemma ReleasedResetIsQuiet(queues: nat, events: seq<Event>, reset: nat, w: nat)
    requires PromptRun(Init(queues), events)
    ensures Run(Init(queues), events)
    ensures var s := Final(Init(queues), events);
            RemoteSafety.Shaped(s)
            && (s.main.listening && s.up != [] && NextReceipt(s).Release? && reset in NextReceipt(s).resets ==>
                  Since(s, reset, w))
  {
    hide Inv, Run, Final, NextReceipt, Since, PromptRun;
    InitInv(queues);
    PromptRunKeeps(Init(queues), events);
    hide Init;
    var s := Final(Init(queues), events);
    InvShaped(s);
    if s.main.listening && s.up != [] && NextReceipt(s).Release? && reset in NextReceipt(s).resets {
      ReleasedIsQuiet(s, reset, w);
    }
  }
}
