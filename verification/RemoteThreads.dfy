/**
 The two programs, connection and server, take the steps of RemoteSafety's
 system: one method a turn, each ending in the state that the step gives.
 */
module RemoteThreads {
  import opened Wrappers
  import D = Device
  import opened Remote
  import opened RemoteSafety

  /** A channel holds the last of what was posted to it. */
  predicate Unreceived<T(==)>(posted: seq<T>, channel: seq<T>)
  {
    |channel| <= |posted| && posted[|posted| - |channel|..] == channel
  }

  predicate Refines(c: Connection, w: Server, s: System)
    reads c, c.control, w, w.device
  {
    && RemoteSafety.Shaped(s) && c.Valid() && w.Valid() && c.control == w.control
    && c.Abs() == s.main && c.control[..] == s.control && c.enables == |s.enables| && w.Abs() == s.worker
    && Unreceived(c.outbox, s.down) && Unreceived(w.outbox, s.up)
  }


  /** The main thread binds a worker to a fresh connection. */
  method Start(queues: nat) returns (c: Connection, w: Server)
    ensures fresh(c) && fresh(c.control) && fresh(w) && fresh(w.device)
    ensures Refines(c, w, Init(queues))
  {
    c := new Connection(queues);
    var device := new D.VirtioDevice(queues);
    w := new Server(c.control, device);
  }

  // ---------------------------------------------------------------------------
  // The main thread's turns

  method Enable(c: Connection, w: Server, vq: nat, ghost s: System)
    requires Refines(c, w, s) && vq < |c.enabled|
    modifies c, c.control
    ensures Enabled(s, MainEnable(vq)) && Refines(c, w, Apply(s, MainEnable(vq)))
  {
    c.EnableQueue(vq);
  }

  method Disable(c: Connection, w: Server, vq: nat, ghost s: System)
    requires Refines(c, w, s) && vq < |c.enabled|
    modifies c, c.control
    ensures Enabled(s, MainDisable(vq)) && Refines(c, w, Apply(s, MainDisable(vq)))
  {
    c.DisableQueue(vq);
  }

  method Notify(c: Connection, w: Server, vq: nat, ghost s: System)
    requires Refines(c, w, s)
    modifies c
    ensures Enabled(s, MainNotify(vq)) && Refines(c, w, Apply(s, MainNotify(vq)))
  {
    c.NotifyQueue(vq);
  }

  method Reset(c: Connection, w: Server, ghost s: System)
    requires Refines(c, w, s)
    modifies c, c.control
    ensures Enabled(s, MainReset) && Refines(c, w, Apply(s, MainReset))
  {
    c.Reset();
  }

  method Shutdown(c: Connection, w: Server, ghost s: System)
    requires Refines(c, w, s)
    modifies c, c.control
    ensures Enabled(s, MainShutdown) && Refines(c, w, Apply(s, MainShutdown))
  {
    c.Shutdown();
  }

  method Fail(c: Connection, w: Server, ghost s: System)
    requires Refines(c, w, s)
    modifies c, c.control
    ensures Enabled(s, MainFail) && Refines(c, w, Apply(s, MainFail))
  {
    c.Fail();
  }

  /** The oldest message from the worker arrives; the receipt is what it does to guest memory and to resets. */
  method MainReceives(c: Connection, w: Server, msg: WorkerMessage, ghost s: System) returns (r: Receipt)
    requires Refines(c, w, s) && c.listening && s.up != [] && msg == s.up[0]
    modifies c, c.control
    ensures Enabled(s, MainReceive) && Refines(c, w, Apply(s, MainReceive))
    ensures r == NextReceipt(s)
  {
    r := c.Receive(msg);
  }

  // ---------------------------------------------------------------------------
  // The worker's turns

  method WorkerReceives(c: Connection, w: Server, msg: DeviceMessage, ghost s: System)
    requires Refines(c, w, s) && w.listening && s.down != [] && msg == s.down[0]
    modifies w, w.device
    ensures Enabled(s, WorkerReceive) && Refines(c, w, Apply(s, WorkerReceive))
  {
    hide Handled;
    w.OnMessage(msg);
  }

  method DrainResumes(c: Connection, w: Server, vq: nat, ghost s: System)
    requires Refines(c, w, s) && D.Enabled(w.device.Abs(), D.Resume(vq))
    modifies w.device
    ensures Enabled(s, WorkerDevice(D.Resume(vq))) && Refines(c, w, Apply(s, WorkerDevice(D.Resume(vq))))
  {
    hide D.Apply, D.Enabled;
    w.device.ResumeDrain(vq);
  }

  method WorkSpawns(c: Connection, w: Server, parent: nat, ghost s: System)
    requires Refines(c, w, s) && D.Enabled(w.device.Abs(), D.Spawn(parent))
    modifies w.device
    ensures Enabled(s, WorkerDevice(D.Spawn(parent))) && Refines(c, w, Apply(s, WorkerDevice(D.Spawn(parent))))
  {
    hide D.Apply, D.Enabled;
    w.device.SpawnWork(parent);
  }

  method ShutdownResumes(c: Connection, w: Server, ghost s: System)
    requires Refines(c, w, s) && D.Enabled(w.device.Abs(), D.StopResume)
    modifies w.device
    ensures Enabled(s, WorkerDevice(D.StopResume)) && Refines(c, w, Apply(s, WorkerDevice(D.StopResume)))
  {
    w.device.ShutDownPass();
  }

  /** Releasing a popped chain; `checked` is what the worker's look at the shared epochs says. */
  method Release(c: Connection, w: Server, ghost chain: nat, vq: nat, generation: nat, ghost s: System)
    returns (ghost checked: bool)
    requires Refines(c, w, s) && chain < |s.chains| && s.chains[chain] == Chain(vq, generation) && vq < |w.epochs|
    modifies w
    ensures checked == old(w.control[0] == w.deviceEpoch && w.control[1 + vq] == w.epochs[vq])
    ensures Enabled(s, WorkerRelease(chain, checked)) && Refines(c, w, Apply(s, WorkerRelease(chain, checked)))
  {
    checked := w.control[0] == w.deviceEpoch && w.control[1 + vq] == w.epochs[vq];
    w.PublishCompletion(vq, generation);
  }

  method Acknowledge(c: Connection, w: Server, ghost reset: nat, ghost s: System)
    requires Refines(c, w, s) && Enabled(s, WorkerAck(reset))
    modifies w
    ensures Refines(c, w, Apply(s, WorkerAck(reset)))
  {
    w.AcknowledgeReset();
  }

  method Close(c: Connection, w: Server, ghost s: System)
    requires Refines(c, w, s) && Enabled(s, WorkerClosed)
    modifies w
    ensures Refines(c, w, Apply(s, WorkerClosed))
  {
    w.ReportClosed();
  }
}
