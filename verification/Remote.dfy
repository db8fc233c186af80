/**
 A device served from a worker (packages/kernel/src/virtio/remote.ts): the main
 thread's connection and the worker's server, joined by two FIFO channels and a
 shared array of epochs. Slot 0 of the array revokes the device, slot 1 + vq a queue.
 */
module Remote {
  import opened Wrappers
  import D = Device

  /** `generation` and `mark` are history: how many enables came before. */
  datatype DeviceMessage =
    | EnableMessage(vq: nat, deviceEpoch: nat, queueEpoch: nat, generation: nat)
    | DisableMessage(vq: nat)
    | NotifyMessage(vq: nat)
    | ResetMessage(mark: nat)
    | CloseMessage

  /** `generation` is history: the enable whose queue the completed chain was popped from. */
  datatype WorkerMessage =
    | Complete(vq: nat, deviceEpoch: nat, queueEpoch: nat, generation: nat)
    | ResetDone
    | ClosedMessage

  /** The connection on the main thread. `resets` holds the numbers of resets not yet acknowledged. */
  datatype Main = Main(enabled: seq<bool>, failed: bool, resets: seq<nat>, issued: nat, listening: bool,
                       closeSent: bool)

  function Bump(control: seq<nat>, slot: nat): seq<nat>
    requires slot < |control|
  {
    control[slot := control[slot] + 1]
  }

  function AllFalse(n: nat): (r: seq<bool>)
    ensures |r| == n && forall i :: 0 <= i < n ==> !r[i]
  {
    seq(n, _ => false)
  }

  predicate Shaped(m: Main, control: seq<nat>)
  {
    |control| == 1 + |m.enabled|
  }

  /** Whether a completion may still be written to guest memory. */
  predicate Accepts(m: Main, control: seq<nat>, msg: WorkerMessage)
    requires Shaped(m, control) && msg.Complete?
  {
    && msg.vq < |m.enabled| && m.enabled[msg.vq]
    && control[0] == msg.deviceEpoch && control[1 + msg.vq] == msg.queueEpoch
  }

  /** What the main thread does on receiving a message: commit it, or release resets. */
  datatype Receipt = Ignored | Commit(vq: nat, generation: nat) | Release(resets: seq<nat>)

  function ReceiptOf(m: Main, control: seq<nat>, msg: WorkerMessage): Receipt
    requires Shaped(m, control)
  {
    match msg
    case Complete(vq, _, _, generation) => if Accepts(m, control, msg) then Commit(vq, generation) else Ignored
    case ResetDone => if m.resets == [] then Ignored else Release([m.resets[0]])
    case ClosedMessage => Release(m.resets)
  }

  class Connection {
    const control: array<nat>
    var enabled: seq<bool>
    var failed: bool
    var resets: seq<nat>
    var issued: nat
    var listening: bool
    var closeSent: bool
    var outbox: seq<DeviceMessage>
    var enables: nat

    predicate Valid()
      reads this
    {
      control.Length == 1 + |enabled|
    }

    function Abs(): Main
      reads this
    {
      Main(enabled, failed, resets, issued, listening, closeSent)
    }

    constructor (queues: nat)
      ensures Valid() && fresh(control)
      ensures Abs() == Main(AllFalse(queues), false, [], 0, true, false)
      ensures control[..] == seq(1 + queues, _ => 0) && outbox == [] && enables == 0
    {
      control := new nat[1 + queues](_ => 0);
      enabled, failed, resets, issued := AllFalse(queues), false, [], 0;
      listening, closeSent, outbox, enables := true, false, [], 0;
    }

    method EnableQueue(vq: nat)
      requires Valid() && vq < |enabled|
      modifies this, control
      ensures Valid() && Abs() == old(Abs()).(enabled := old(enabled)[vq := true])
      ensures control[..] == Bump(old(control[..]), 1 + vq) && enables == old(enables) + 1
      ensures outbox == old(outbox) + [EnableMessage(vq, control[0], control[1 + vq], old(enables))]
    {
      control[1 + vq] := control[1 + vq] + 1;
      var queueEpoch := control[1 + vq];
      var deviceEpoch := control[0];
      enabled := enabled[vq := true];
      outbox := outbox + [EnableMessage(vq, deviceEpoch, queueEpoch, enables)];
      enables := enables + 1;
    }

    method DisableQueue(vq: nat)
      requires Valid() && vq < |enabled|
      modifies this, control
      ensures Valid() && Abs() == old(Abs()).(enabled := old(enabled)[vq := false])
      ensures control[..] == Bump(old(control[..]), 1 + vq) && enables == old(enables)
      ensures outbox == old(outbox) + [DisableMessage(vq)]
    {
      enabled := enabled[vq := false];
      control[1 + vq] := control[1 + vq] + 1;
      outbox := outbox + [DisableMessage(vq)];
    }

    method NotifyQueue(vq: nat)
      requires Valid()
      modifies this
      ensures Valid() && Abs() == old(Abs()) && outbox == old(outbox) + [NotifyMessage(vq)] && enables == old(enables)
    {
      outbox := outbox + [NotifyMessage(vq)];
    }

    /** Revokes everything before the worker hears of it, then waits for its acknowledgement. */
    method Reset()
      requires Valid()
      modifies this, control
      ensures Valid()
      ensures Abs()
           == old(Abs()).(enabled := AllFalse(|old(enabled)|), resets := old(resets) + [old(issued)],
                          issued := old(issued) + 1)
      ensures control[..] == Bump(old(control[..]), 0) && enables == old(enables)
      ensures outbox == old(outbox) + [ResetMessage(enables)]
    {
      control[0] := control[0] + 1;
      enabled := AllFalse(|enabled|);
      resets := resets + [issued];
      issued := issued + 1;
      outbox := outbox + [ResetMessage(enables)];
    }

    method Revoke()
      requires Valid()
      modifies this, control
      ensures Valid() && Abs() == old(Abs()).(enabled := AllFalse(|old(enabled)|))
      ensures control[..] == Bump(old(control[..]), 0) && outbox == old(outbox) && enables == old(enables)
    {
      control[0] := control[0] + 1;
      enabled := AllFalse(|enabled|);
    }

    method Fail()
      requires Valid()
      modifies this, control
      ensures Valid() && Abs() == old(Abs()).(failed := true) && outbox == old(outbox) && enables == old(enables)
      ensures control[..] == if old(failed) then old(control[..]) else Bump(old(control[..]), 0)
    {
      if failed {
        return;
      }
      failed := true;
      control[0] := control[0] + 1;
    }

    method Shutdown()
      requires Valid()
      modifies this, control
      ensures Valid() && enables == old(enables)
      ensures Abs()
           == if old(closeSent) then old(Abs())
              else old(Abs()).(enabled := AllFalse(|old(enabled)|), closeSent := true)
      ensures control[..] == if old(closeSent) then old(control[..]) else Bump(old(control[..]), 0)
      ensures outbox == old(outbox) + if old(closeSent) then [] else [CloseMessage]
    {
      if closeSent {
        return;
      }
      closeSent := true;
      Revoke();
      outbox := outbox + [CloseMessage];
    }

    method Receive(msg: WorkerMessage) returns (r: Receipt)
      requires Valid() && listening
      modifies this, control
      ensures Valid() && r == ReceiptOf(old(Abs()), old(control[..]), msg) && outbox == old(outbox)
              && enables == old(enables)
      ensures !msg.ClosedMessage? ==> control[..] == old(control[..])
      ensures msg.Complete? ==> Abs() == old(Abs())
      ensures msg.ResetDone? ==> Abs() == old(Abs()).(resets := if old(resets) == [] then [] else old(resets)[1..])
      ensures msg.ClosedMessage? ==>
                && control[..] == Bump(old(control[..]), 0)
                && Abs() == old(Abs()).(listening := false, enabled := AllFalse(|old(enabled)|), resets := [])
    {
      match msg
      case Complete(vq, deviceEpoch, queueEpoch, generation) =>
        if vq >= |enabled| || !enabled[vq] || control[0] != deviceEpoch || control[1 + vq] != queueEpoch {
          return Ignored;
        }
        return Commit(vq, generation);
      case ResetDone =>
        if resets == [] {
          return Ignored;
        }
        r := Release([resets[0]]);
        resets := resets[1..];
      case ClosedMessage =>
        listening := false;
        Revoke();
        r := Release(resets);
        resets := [];
    }
  }

  // ---------------------------------------------------------------------------
  // The worker

  datatype Worker = Worker(deviceEpoch: nat, epochs: seq<nat>, device: D.State, closing: bool, listening: bool)

  /** The worker's state after handling a message, given the shared epochs at that moment. */
  function Handled(w: Worker, control: seq<nat>, msg: DeviceMessage): Worker
    requires |control| > 0
  {
    match msg
    case EnableMessage(vq, deviceEpoch, queueEpoch, _) =>
      w.(deviceEpoch := deviceEpoch,
         epochs := if vq < |w.epochs| then w.epochs[vq := queueEpoch] else w.epochs,
         device := D.Apply(w.device, D.Enable(vq)))
    case DisableMessage(vq) => w.(device := D.Apply(w.device, D.Disable(vq)))
    case NotifyMessage(vq) => w.(device := D.Apply(w.device, D.Notify(vq)))
    case ResetMessage(_) => w.(deviceEpoch := control[0], device := D.Apply(w.device, D.Reset))
    case CloseMessage => if w.closing then w else w.(closing := true, device := D.Apply(w.device, D.Stop))
  }

  /** The queue object a chain was popped from is still the one installed. */
  predicate Installed(device: D.State, vq: nat, generation: nat)
  {
    D.QueueOf(device.queues, vq).queue == Some(generation)
  }

  class Server {
    const control: array<nat>
    const device: D.VirtioDevice
    var deviceEpoch: nat
    var epochs: seq<nat>
    var closing: bool
    var listening: bool
    var outbox: seq<WorkerMessage>

    predicate Valid()
      reads this
    {
      control.Length == 1 + |epochs|
    }

    function Abs(): Worker
      reads this, device
    {
      Worker(deviceEpoch, epochs, device.Abs(), closing, listening)
    }

    constructor (control: array<nat>, device: D.VirtioDevice)
      requires control.Length > 0
      ensures Valid() && this.control == control && this.device == device
      ensures Abs() == Worker(0, seq(control.Length - 1, _ => 0), device.Abs(), false, true) && outbox == []
    {
      this.control, this.device := control, device;
      deviceEpoch, epochs := 0, seq(control.Length - 1, _ => 0);
      closing, listening, outbox := false, true, [];
    }

    method OnMessage(msg: DeviceMessage)
      requires Valid() && listening
      modifies this, device
      ensures Valid() && Abs() == Handled(old(Abs()), control[..], msg) && outbox == old(outbox)
    {
      match msg
      case EnableMessage(vq, de, qe, _) =>
        deviceEpoch := de;
        if vq < |epochs| {
          epochs := epochs[vq := qe];
        }
        device.EnableQueue(vq);
      case DisableMessage(vq) =>
        device.DisableQueue(vq);
      case NotifyMessage(vq) =>
        device.NotifyQueue(vq);
      case ResetMessage(_) =>
        deviceEpoch := control[0];
        device.ResetQueues();
      case CloseMessage =>
        if closing {
          return;
        }
        closing := true;
        device.ShutDown();
    }

    /**
     Releasing a chain popped from queue `generation` of vq. The epochs may move
     under the worker at any time; what it posts carries its own copies of them.
     */
    method PublishCompletion(vq: nat, generation: nat)
      requires Valid() && vq < |epochs|
      modifies this
      ensures Valid() && Abs() == old(Abs())
      ensures var current := control[0] == deviceEpoch && control[1 + vq] == epochs[vq];
              outbox == old(outbox) + if Installed(device.Abs(), vq, generation) && current
              then [Complete(vq, deviceEpoch, epochs[vq], generation)] else []
    {
      var q := D.QueueOf(device.queues, vq);
      if q.queue != Some(generation) || control[0] != deviceEpoch || control[1 + vq] != epochs[vq] {
        return;
      }
      outbox := outbox + [Complete(vq, deviceEpoch, epochs[vq], generation)];
    }

    /** Shutdown has finished: the worker reports it and stops listening. */
    method ReportClosed()
      requires Valid()
      modifies this
      ensures Valid() && Abs() == old(Abs()).(listening := false) && outbox == old(outbox) + [ClosedMessage]
    {
      listening := false;
      outbox := outbox + [ClosedMessage];
    }

    method AcknowledgeReset()
      requires Valid()
      modifies this
      ensures Valid() && Abs() == old(Abs()) && outbox == old(outbox) + [ResetDone]
    {
      outbox := outbox + [ResetDone];
    }
  }
}
