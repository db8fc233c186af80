/**
 Driver and device sharing one packed ring. The driver follows section 2.8 of
 VIRTIO 1.2: it fills every descriptor of a chain but the head, then makes the
 head available, and later collects used descriptors in ring order. The device
 is PackedQueue. Positions are unbounded counts of descriptors; an (index, wrap
 counter) pair is their Slot and Phase. Histories record what each side did.
 */
module PackedRing {
  import opened Wrappers
  import opened RingPositions
  import opened PackedQueue

  /** Where a chain is: in the ring, with the device, released, or collected by the driver. */
  datatype Status = Queued | Held | Done | Collected

  /** A chain as placed in the ring from position `start`, and the buffers the device must see for it. */
  datatype Submission = Submission(id: nat, start: nat, links: seq<Descriptor>, body: seq<Descriptor>)

  /** A release: which submission, how many bytes were written, and the position of its used descriptor. */
  datatype Completed = Completed(chain: nat, written: nat, pos: nat)

  /**
   What the driver gets back from one used descriptor: the request it filed under
   the id, and the length, which counts only if the descriptor is marked written.
   */
  datatype Seen = Seen(chain: nat, written: nat)

  datatype System = System(
    ring: seq<Descriptor>, mem: DescriptorMemory,
    availPos: nat, usedPos: nat, free: nat, inflight: map<nat, nat>, draft: seq<Descriptor>,
    popPos: nat, usePos: nat,
    placed: seq<Descriptor>, submitted: seq<Submission>, status: seq<Status>,
    popped: seq<Popped>, released: seq<Completed>, seen: seq<Seen>)

  datatype Event =
    | Stage(d: Descriptor)
    | Submit(entries: seq<Descriptor>)   // what the driver wrote in the chain's table, if it has one
    | Collect
    | WriteMemory(mem: DescriptorMemory)
    | Pop
    | Release(chain: nat, written: nat)

  function Mark(d: Descriptor, wrap: bool): Descriptor
  {
    d.(flags := d.flags.(avail := wrap, used := !wrap))
  }

  function Marked(size: nat, p: nat, draft: seq<Descriptor>): (links: seq<Descriptor>)
    requires size > 0
    ensures |links| == |draft|
  {
    seq(|draft|, k requires 0 <= k < |draft| => Mark(draft[k], Phase(size, p + k)))
  }

  /** How many bytes a used descriptor says were written: its length counts only if it is marked so. */
  function WrittenLength(d: Descriptor): nat
  {
    if d.flags.write then d.len else 0
  }

  predicate IsIndirect(d: Descriptor)
  {
    !d.flags.next && d.flags.indirect
  }

  /** Memory holds a table of these entries, sixteen bytes each. */
  ghost predicate TableAt(mem: DescriptorMemory, addr: nat, entries: seq<Descriptor>)
  {
    forall k :: 0 <= k < |entries| ==> mem(addr + 16 * k) == entries[k]
  }

  /** The buffers of a chain are its table's entries, as the driver wrote them, or its own descriptors. */
  ghost predicate Stands(mem: DescriptorMemory, links: seq<Descriptor>, body: seq<Descriptor>)
    requires |links| > 0
  {
    if IsIndirect(links[0]) then links[0].len == 16 * |body| && TableAt(mem, links[0].addr, body) else body == links
  }

  /** A chain a conforming driver may submit on a ring of this size. */
  predicate WellFormed(size: nat, links: seq<Descriptor>)
  {
    && 0 < |links| <= size
    && (forall k :: 0 <= k < |links| ==> (links[k].flags.next <==> k < |links| - 1))
    && (IsIndirect(links[0]) ==> links[0].len % 16 == 0 && links[0].len <= 16 * size)
  }

  function Init(size: nat, mem: DescriptorMemory): System
    requires size > 0
  {
    var zero := Descriptor(0, 0, 0, Flags(false, false, false, false, false));
    System(seq(size, _ => zero), mem, 0, 0, size, map[], [], 0, 0, [], [], [], [], [], [])
  }

  predicate Holding(s: System, chain: nat)
  {
    chain < |s.status| == |s.submitted| && s.status[chain] == Held
  }

  predicate CanCollect(s: System)
    requires |s.ring| > 0
  {
    Used(At(s.ring, s.usedPos), Phase(|s.ring|, s.usedPos))
  }

  /**
   What each side may do. The driver keeps to VIRTIO 1.2: it respects its free
   count, completes a chain before submitting it under an unused id, and leaves
   the tables of queued chains alone. The device releases a chain it popped at
   most once. The driver can file back only ids it knows; CollectKeeps shows it
   never finds any other.
   */
  ghost predicate Enabled(s: System, e: Event)
  {
    |s.ring| > 0 &&
    match e
    case Stage(_) => s.free > 0
    case Submit(entries) =>
      && WellFormed(|s.ring|, s.draft) && s.draft[0].id !in s.inflight
      && (IsIndirect(s.draft[0]) ==> Stands(s.mem, s.draft, entries))
    case Collect => CanCollect(s) ==> CollectedChain(s) < |s.submitted| == |s.status|
    case WriteMemory(mem) => Readable(mem, s.submitted, |s.popped|)
    case Pop => |s.popped| <= |s.submitted| == |s.status|
    case Release(chain, _) => Holding(s, chain)
  }

  function CollectedChain(s: System): nat
    requires |s.ring| > 0
  {
    var id := At(s.ring, s.usedPos).id;
    if id in s.inflight then s.inflight[id] else |s.submitted|
  }

  ghost function Apply(s: System, e: Event): System
    requires Enabled(s, e)
  {
    match e
    case Stage(d) => AfterStage(s, d)
    case Submit(entries) => AfterSubmit(s, entries)
    case Collect => if CanCollect(s) then AfterCollect(s) else s
    case WriteMemory(mem) => s.(mem := mem)
    case Pop =>
      var r := PopAt(s.ring, s.popPos, s.mem);
      if r.Chain? && |s.popped| < |s.submitted| then AfterPop(s, r) else s
    case Release(chain, written) =>
      if Available(At(s.ring, s.usePos), Phase(|s.ring|, s.usePos)) then AfterRelease(s, chain, written) else s
  }

  /** The head waits in the draft; every other descriptor is written at once. */
  function AfterStage(s: System, d: Descriptor): System
    requires |s.ring| > 0 && s.free > 0
  {
    var p := s.availPos + |s.draft|;
    s.(ring := if s.draft == [] then s.ring else s.ring[Slot(|s.ring|, p) := Mark(d, Phase(|s.ring|, p))],
       draft := s.draft + [d], free := s.free - 1)
  }

  function AfterSubmit(s: System, entries: seq<Descriptor>): System
    requires |s.ring| > 0 && |s.draft| > 0
  {
    var links := Marked(|s.ring|, s.availPos, s.draft);
    var body := if IsIndirect(s.draft[0]) then entries else links;
    s.(ring := s.ring[Slot(|s.ring|, s.availPos) := links[0]],
       availPos := s.availPos + |s.draft|,
       inflight := s.inflight[s.draft[0].id := |s.submitted|],
       draft := [],
       placed := s.placed + links,
       submitted := s.submitted + [Submission(s.draft[0].id, s.availPos, links, body)],
       status := s.status + [Queued])
  }

  function AfterCollect(s: System): System
    requires |s.ring| > 0 && CollectedChain(s) < |s.submitted| == |s.status|
  {
    var d := At(s.ring, s.usedPos);
    var chain := CollectedChain(s);
    s.(usedPos := s.usedPos + |s.submitted[chain].links|,
       free := s.free + |s.submitted[chain].links|,
       inflight := s.inflight - {d.id},
       status := s.status[chain := Collected],
       seen := s.seen + [Seen(chain, WrittenLength(d))])
  }

  function AfterPop(s: System, r: Popped): System
    requires r.Chain? && |s.popped| < |s.status|
  {
    s.(popPos := s.popPos + r.skip, status := s.status[|s.popped| := Held], popped := s.popped + [r])
  }

  function AfterRelease(s: System, chain: nat, written: nat): System
    requires |s.ring| > 0 && Holding(s, chain)
  {
    s.(ring := s.ring[Slot(|s.ring|, s.usePos) := UsedHere(s, s.submitted[chain].id, written)],
       usePos := s.usePos + |s.submitted[chain].links|,
       status := s.status[chain := Done],
       released := s.released + [Completed(chain, written, s.usePos)])
  }

  function UsedHere(s: System, id: nat, written: nat): Descriptor
    requires |s.ring| > 0
  {
    UsedDescriptor(At(s.ring, s.usePos), id, written, Phase(|s.ring|, s.usePos))
  }

  ghost predicate Run(s: System, events: seq<Event>)
    decreases |events|
  {
    events == [] || (Enabled(s, events[0]) && Run(Apply(s, events[0]), events[1..]))
  }

  ghost function Final(s: System, events: seq<Event>): System
    requires Run(s, events)
    decreases |events|
  {
    if events == [] then s else Final(Apply(s, events[0]), events[1..])
  }

  // ---------------------------------------------------------------------------
  // The invariant, each part over just the fields it is about

  /** The four cursors in order, none more than a lap ahead, and the driver's free count exact. */
  predicate Ordered(size: nat, usedPos: nat, usePos: nat, popPos: nat, availPos: nat, drafted: nat, free: nat)
  {
    size > 0 && usedPos <= usePos <= popPos <= availPos && availPos + drafted + free == usedPos + size
  }

  /** The available bit tells on which lap a slot was last made available. */
  ghost predicate Laps(ring: seq<Descriptor>, usedPos: nat, usePos: nat, availPos: nat, drafted: nat)
    requires |ring| > 0
  {
    && (forall p: nat :: usedPos <= p < availPos ==> At(ring, p).flags.avail == Phase(|ring|, p))
    && (forall p: nat :: usePos <= p < availPos ==> At(ring, p).flags.used != Phase(|ring|, p))
    && (forall p: nat :: availPos <= p < usedPos + |ring| && (p == availPos || availPos + drafted <= p) ==>
                           At(ring, p).flags.avail != Phase(|ring|, p))
  }

  ghost predicate DraftPlaced(ring: seq<Descriptor>, availPos: nat, draft: seq<Descriptor>)
    requires |ring| > 0
  {
    forall p: nat :: availPos < p < availPos + |draft| ==>
                       At(ring, p) == Mark(draft[p - availPos], Phase(|ring|, p))
  }

  /** Descriptors not yet popped sit untouched in the ring. */
  ghost predicate QueuePlaced(ring: seq<Descriptor>, popPos: nat, placed: seq<Descriptor>)
    requires |ring| > 0
  {
    forall p: nat :: popPos <= p < |placed| ==> At(ring, p) == placed[p]
  }

  predicate InRange(subs: seq<Submission>, released: seq<Completed>)
  {
    forall j :: 0 <= j < |released| ==> released[j].chain < |subs|
  }

  /** Completions the driver has not collected are all still in the ring. */
  ghost predicate CompletionsPlaced(ring: seq<Descriptor>, subs: seq<Submission>, released: seq<Completed>,
                                    collected: nat)
    requires |ring| > 0
  {
    && InRange(subs, released)
    && forall i :: collected <= i < |released| ==>
                     var c := released[i];
                     var d := At(ring, c.pos);
                     Used(d, Phase(|ring|, c.pos)) && d.id == subs[c.chain].id && WrittenLength(d) == c.written
  }

  /** Completions follow one another in the ring, the uncollected ones from the driver's cursor on. */
  ghost predicate CompletionsInOrder(subs: seq<Submission>, released: seq<Completed>, collected: nat, usedPos: nat,
                                     usePos: nat)
  {
    && InRange(subs, released) && collected <= |released|
    && (if collected < |released| then usedPos == released[collected].pos else usedPos == usePos)
    && (forall i :: collected <= i < |released| ==>
                      && usedPos <= released[i].pos < usePos
                      && released[i].pos + |subs[released[i].chain].links| <= usePos
                      && (i == |released| - 1 ==> released[i].pos + |subs[released[i].chain].links| == usePos))
    && (forall i, j :: collected <= i < j < |released| ==>
                         && released[i].pos + |subs[released[i].chain].links| <= released[j].pos
                         && (j == i + 1 ==> released[i].pos + |subs[released[i].chain].links| == released[j].pos))
  }

  /** Each chain occupies its own stretch of what was placed, one after the other. */
  ghost predicate ChainsPlaced(size: nat, subs: seq<Submission>, placed: seq<Descriptor>)
  {
    && (forall k :: 0 <= k < |subs| ==>
                      && WellFormed(size, subs[k].links) && subs[k].links[0].id == subs[k].id
                      && subs[k].start + |subs[k].links| <= |placed|
                      && placed[subs[k].start..subs[k].start + |subs[k].links|] == subs[k].links)
    && (forall i, j :: 0 <= i < j < |subs| ==>
                         && subs[i].start + |subs[i].links| <= subs[j].start
                         && (j == i + 1 ==> subs[i].start + |subs[i].links| == subs[j].start))
    && (|subs| > 0 ==> subs[|subs| - 1].start + |subs[|subs| - 1].links| == |placed|)
    && (subs == [] ==> placed == [])
  }

  /** The device's pop cursor is where the oldest unpopped chain starts. */
  predicate PopsInOrder(subs: seq<Submission>, popped: nat, popPos: nat, availPos: nat)
  {
    popped <= |subs| && popPos == if popped < |subs| then subs[popped].start else availPos
  }

  ghost predicate Readable(mem: DescriptorMemory, subs: seq<Submission>, popped: nat)
  {
    forall k :: popped <= k < |subs| && |subs[k].links| > 0 ==> Stands(mem, subs[k].links, subs[k].body)
  }

  /** Descriptors of the chains the device holds. */
  function HeldLength(subs: seq<Submission>, status: seq<Status>): nat
    requires |subs| == |status|
  {
    if subs == [] then 0
    else
      var n := |subs| - 1;
      HeldLength(subs[..n], status[..n]) + if status[n] == Held then |subs[n].links| else 0
  }

  predicate HeldCounted(subs: seq<Submission>, status: seq<Status>, usePos: nat, popPos: nat)
  {
    |subs| == |status| && popPos == usePos + HeldLength(subs, status)
  }

  ghost predicate StatusesAgree(status: seq<Status>, popped: nat, released: seq<Completed>, collected: nat)
  {
    && (forall k :: 0 <= k < |status| ==> (status[k] == Queued <==> popped <= k))
    && (forall j :: 0 <= j < |released| ==>
                      released[j].chain < |status| &&
                      status[released[j].chain] == if j < collected then Collected else Done)
    && (forall i, j :: 0 <= i < j < |released| ==> released[i].chain != released[j].chain)
  }

  /** The driver's file of requests has exactly the uncollected chains under their ids. */
  ghost predicate IdsTracked(subs: seq<Submission>, status: seq<Status>, inflight: map<nat, nat>)
  {
    && |subs| == |status|
    && (forall k :: 0 <= k < |subs| && status[k] != Collected ==>
                      subs[k].id in inflight && inflight[subs[k].id] == k)
    && (forall id :: id in inflight ==> inflight[id] < |subs|)
  }

  ghost predicate PopsFaithful(subs: seq<Submission>, popped: seq<Popped>)
  {
    && |popped| <= |subs|
    && forall k :: 0 <= k < |popped| ==> popped[k] == Chain(subs[k].id, |subs[k].links|, subs[k].body)
  }

  predicate SeenFaithful(released: seq<Completed>, seen: seq<Seen>)
  {
    && |seen| <= |released|
    && forall i :: 0 <= i < |seen| ==> seen[i] == Seen(released[i].chain, released[i].written)
  }

  ghost predicate Inv(s: System)
  {
    && Ordered(|s.ring|, s.usedPos, s.usePos, s.popPos, s.availPos, |s.draft|, s.free)
    && s.availPos == |s.placed|
    && Laps(s.ring, s.usedPos, s.usePos, s.availPos, |s.draft|)
    && DraftPlaced(s.ring, s.availPos, s.draft)
    && QueuePlaced(s.ring, s.popPos, s.placed)
    && CompletionsPlaced(s.ring, s.submitted, s.released, |s.seen|)
    && CompletionsInOrder(s.submitted, s.released, |s.seen|, s.usedPos, s.usePos)
    && ChainsPlaced(|s.ring|, s.submitted, s.placed)
    && PopsInOrder(s.submitted, |s.popped|, s.popPos, s.availPos)
    && Readable(s.mem, s.submitted, |s.popped|)
    && HeldCounted(s.submitted, s.status, s.usePos, s.popPos)
    && StatusesAgree(s.status, |s.popped|, s.released, |s.seen|)
    && IdsTracked(s.submitted, s.status, s.inflight)
    && PopsFaithful(s.submitted, s.popped)
    && SeenFaithful(s.released, s.seen)
  }

  lemma InitInv(size: nat, mem: DescriptorMemory)
    requires size > 0
    ensures Inv(Init(size, mem))
  {
    hide Slot, Phase, At, Laps, ChainsPlaced, Readable, HeldCounted, PopsFaithful, CompletionsInOrder;
    FirstLap(Init(size, mem).ring);
    NoChains(size);
    NoBodies(mem);
    NoCompletions();
  }

  lemma NoChains(size: nat)
    ensures ChainsPlaced(size, [], [])
  {
  }

  lemma NoBodies(mem: DescriptorMemory)
    ensures Readable(mem, [], 0) && HeldCounted([], [], 0, 0) && PopsFaithful([], [])
  {
  }

  lemma NoCompletions()
    ensures CompletionsInOrder([], [], 0, 0, 0)
  {
  }

  lemma FirstLap(ring: seq<Descriptor>)
    requires |ring| > 0 && forall i :: 0 <= i < |ring| ==> !ring[i].flags.avail
    ensures Laps(ring, 0, 0, 0, 0)
  {
  }

  // ---------------------------------------------------------------------------
  // What writing a slot does to the ring's parts

  /** `after` is `ring` with only position p of the lap from `low` rewritten. */
  ghost predicate OnlyAt(ring: seq<Descriptor>, after: seq<Descriptor>, low: nat, p: nat, d: Descriptor)
  {
    && |after| == |ring| > 0 && low <= p < low + |ring|
    && At(after, p) == d
    && forall q: nat :: low <= q < low + |ring| && q != p ==> At(after, q) == At(ring, q)
  }

  /** Writing one slot leaves every other position of the same lap alone. */
  lemma WriteSlot(ring: seq<Descriptor>, p: nat, d: Descriptor, low: nat)
    requires |ring| > 0 && low <= p < low + |ring|
    ensures OnlyAt(ring, ring[Slot(|ring|, p) := d], low, p, d)
  {
    forall q: nat | low <= q < low + |ring| && q != p
      ensures At(ring[Slot(|ring|, p) := d], q) == At(ring, q)
    {
      if p < q { DistinctSlots(|ring|, p, q); } else { DistinctSlots(|ring|, q, p); }
    }
  }

  lemma StageLaps(ring: seq<Descriptor>, after: seq<Descriptor>, d: Descriptor, usedPos: nat, usePos: nat,
                  availPos: nat, draft: seq<Descriptor>)
    requires |ring| > 0 && usedPos <= usePos <= availPos && 0 < |draft| && availPos + |draft| < usedPos + |ring|
    requires Laps(ring, usedPos, usePos, availPos, |draft|) && DraftPlaced(ring, availPos, draft)
    requires OnlyAt(ring, after, usedPos, availPos + |draft|, Mark(d, Phase(|ring|, availPos + |draft|)))
    ensures Laps(after, usedPos, usePos, availPos, |draft| + 1) && DraftPlaced(after, availPos, draft + [d])
  {
    hide At, Phase;
  }

  lemma StageHeadLaps(ring: seq<Descriptor>, d: Descriptor, usedPos: nat, usePos: nat, availPos: nat)
    requires |ring| > 0 && Laps(ring, usedPos, usePos, availPos, 0)
    ensures Laps(ring, usedPos, usePos, availPos, 1) && DraftPlaced(ring, availPos, [d])
  {
    hide At, Phase;
  }

  /** Publishing the head turns a drafted chain into a queued one. */
  lemma SubmitLaps(ring: seq<Descriptor>, after: seq<Descriptor>, usedPos: nat, usePos: nat, availPos: nat,
                   draft: seq<Descriptor>)
    requires |ring| > 0 && usedPos <= usePos <= availPos && 0 < |draft| && availPos + |draft| <= usedPos + |ring|
    requires Laps(ring, usedPos, usePos, availPos, |draft|) && DraftPlaced(ring, availPos, draft)
    requires OnlyAt(ring, after, usedPos, availPos, Mark(draft[0], Phase(|ring|, availPos)))
    ensures Laps(after, usedPos, usePos, availPos + |draft|, 0)
    ensures WholeDraftPlaced(after, availPos, draft) && DraftPlaced(after, availPos + |draft|, [])
  {
    hide At, Phase;
    assert WholeDraftPlaced(after, availPos, draft);
  }

  ghost predicate WholeDraftPlaced(ring: seq<Descriptor>, availPos: nat, draft: seq<Descriptor>)
    requires |ring| > 0
  {
    forall p: nat :: availPos <= p < availPos + |draft| ==> At(ring, p) == Mark(draft[p - availPos], Phase(|ring|, p))
  }

  lemma SubmitQueue(ring: seq<Descriptor>, after: seq<Descriptor>, head: Descriptor, low: nat, popPos: nat,
                    placed: seq<Descriptor>, draft: seq<Descriptor>)
    requires |ring| == |after| > 0 && low <= popPos <= |placed| && QueuePlaced(ring, popPos, placed)
    requires OnlyAt(ring, after, low, |placed|, head)
    requires WholeDraftPlaced(after, |placed|, draft)
    ensures QueuePlaced(after, popPos, placed + Marked(|ring|, |placed|, draft))
  {
    hide At, Phase;
  }

  /** A completion overwrites only a slot that was popped. */
  lemma ReleaseLaps(ring: seq<Descriptor>, after: seq<Descriptor>, d: Descriptor, usedPos: nat, usePos: nat, n: nat,
                    availPos: nat, draft: seq<Descriptor>)
    requires |ring| > 0 && usedPos <= usePos < usePos + n <= availPos <= usedPos + |ring|
    requires Laps(ring, usedPos, usePos, availPos, |draft|) && DraftPlaced(ring, availPos, draft)
    requires availPos + |draft| <= usedPos + |ring|
    requires OnlyAt(ring, after, usedPos, usePos, d) && Used(d, Phase(|ring|, usePos))
    ensures Laps(after, usedPos, usePos + n, availPos, |draft|) && DraftPlaced(after, availPos, draft)
  {
    hide At, Phase;
  }

  /** Positions other than p keep what the queue and the uncollected completions put there. */
  lemma FrameQueue(ring: seq<Descriptor>, after: seq<Descriptor>, low: nat, p: nat, d: Descriptor, popPos: nat,
                   placed: seq<Descriptor>)
    requires OnlyAt(ring, after, low, p, d) && QueuePlaced(ring, popPos, placed)
    requires low <= popPos && |placed| <= low + |ring| && (p < popPos || |placed| <= p)
    ensures QueuePlaced(after, popPos, placed)
  {
    hide At;
  }

  lemma FrameCompletions(ring: seq<Descriptor>, after: seq<Descriptor>, p: nat, d: Descriptor,
                         subs: seq<Submission>, released: seq<Completed>, collected: nat, usedPos: nat, usePos: nat)
    requires OnlyAt(ring, after, usedPos, p, d) && usePos <= p
    requires CompletionsPlaced(ring, subs, released, collected)
             && CompletionsInOrder(subs, released, collected, usedPos, usePos)
    requires usePos <= usedPos + |ring|
    ensures CompletionsPlaced(after, subs, released, collected)
  {
    hide At, Phase;
  }

  /** Slots the driver takes back carry the previous lap's available bit. */
  lemma CollectLaps(ring: seq<Descriptor>, usedPos: nat, n: nat, usePos: nat, availPos: nat, drafted: nat)
    requires |ring| > 0 && usedPos + n <= usePos <= availPos && availPos + drafted <= usedPos + |ring|
    requires Laps(ring, usedPos, usePos, availPos, drafted)
    ensures Laps(ring, usedPos + n, usePos, availPos, drafted)
  {
    forall p: nat | usedPos + |ring| <= p < usedPos + n + |ring|
      ensures At(ring, p).flags.avail != Phase(|ring|, p)
    {
      var q := p - |ring|;
      NextLap(|ring|, q);
      assert At(ring, q).flags.avail == Phase(|ring|, q);
    }
    hide Slot, Phase, At;
  }

  // ---------------------------------------------------------------------------
  // What each event does to the histories' parts

  lemma {:induction false} HeldOfLonger(subs: seq<Submission>, status: seq<Status>, sub: Submission, st: Status)
    requires |subs| == |status|
    ensures HeldLength(subs + [sub], status + [st]) == HeldLength(subs, status) + if st == Held then |sub.links| else 0
  {
    assert (subs + [sub])[..|subs|] == subs && (status + [st])[..|status|] == status;
  }

  /** Changing one chain's status moves exactly its descriptors in or out of what is held. */
  lemma {:induction false} HeldOfChanged(subs: seq<Submission>, status: seq<Status>, k: nat, st: Status)
    requires k < |subs| == |status|
    ensures HeldLength(subs, status[k := st]) + (if status[k] == Held then |subs[k].links| else 0) ==
            HeldLength(subs, status) + (if st == Held then |subs[k].links| else 0)
  {
    var n := |subs| - 1;
    var changed := status[k := st];
    if k < n {
      HeldOfChanged(subs[..n], status[..n], k, st);
      assert changed[..n] == status[..n][k := st];
    } else {
      assert changed[..n] == status[..n];
    }
  }

  lemma PrefixSlice(a: seq<Descriptor>, b: seq<Descriptor>, from: nat, n: nat)
    requires from + n <= |a|
    ensures (a + b)[from..from + n] == a[from..from + n]
  {
  }

  lemma SubmitChains(size: nat, subs: seq<Submission>, placed: seq<Descriptor>, sub: Submission)
    requires ChainsPlaced(size, subs, placed) && sub.start == |placed|
    requires WellFormed(size, sub.links) && sub.links[0].id == sub.id
    ensures ChainsPlaced(size, subs + [sub], placed + sub.links)
  {
    hide WellFormed;
    var after := placed + sub.links;
    assert after[sub.start..sub.start + |sub.links|] == sub.links;
    forall k | 0 <= k < |subs| + 1
      ensures var c := (subs + [sub])[k];
              c.start + |c.links| <= |after| && after[c.start..c.start + |c.links|] == c.links
    {
      if k < |subs| { PrefixSlice(placed, sub.links, subs[k].start, |subs[k].links|); }
    }
  }

  lemma SubmitReleases(ring: seq<Descriptor>, subs: seq<Submission>, sub: Submission, released: seq<Completed>,
                       collected: nat, usedPos: nat, usePos: nat)
    requires |ring| > 0
    requires CompletionsPlaced(ring, subs, released, collected)
             && CompletionsInOrder(subs, released, collected, usedPos, usePos)
    ensures CompletionsPlaced(ring, subs + [sub], released, collected)
            && CompletionsInOrder(subs + [sub], released, collected, usedPos, usePos)
  {
    hide At, Phase;
  }

  lemma SubmitCounts(s: System, sub: Submission)
    requires s.availPos == |s.placed| && PopsInOrder(s.submitted, |s.popped|, s.popPos, s.availPos)
             && HeldCounted(s.submitted, s.status, s.usePos, s.popPos)
    requires PopsFaithful(s.submitted, s.popped) && sub.start == s.availPos
    ensures PopsInOrder(s.submitted + [sub], |s.popped|, s.popPos, s.availPos + |sub.links|)
    ensures HeldCounted(s.submitted + [sub], s.status + [Queued], s.usePos, s.popPos)
    ensures PopsFaithful(s.submitted + [sub], s.popped) && |s.popped| <= |s.status|
  {
    HeldOfLonger(s.submitted, s.status, sub, Queued);
    hide HeldLength;
  }

  lemma SubmitStatuses(subs: seq<Submission>, status: seq<Status>, popped: nat, released: seq<Completed>,
                       collected: nat, inflight: map<nat, nat>, sub: Submission)
    requires StatusesAgree(status, popped, released, collected) && IdsTracked(subs, status, inflight)
    requires popped <= |status| && sub.id !in inflight
    ensures StatusesAgree(status + [Queued], popped, released, collected)
    ensures IdsTracked(subs + [sub], status + [Queued], inflight[sub.id := |subs|])
  {
  }

  lemma PopStatuses(size: nat, subs: seq<Submission>, status: seq<Status>, popped: nat, released: seq<Completed>,
                    collected: nat,
                    inflight: map<nat, nat>, popPos: nat, usePos: nat, placed: seq<Descriptor>)
    requires popped < |subs| && PopsInOrder(subs, popped, popPos, |placed|) && HeldCounted(subs, status, usePos, popPos)
    requires StatusesAgree(status, popped, released, collected) && IdsTracked(subs, status, inflight)
    requires ChainsPlaced(size, subs, placed)
    ensures var after := status[popped := Held];
            var popPos' := popPos + |subs[popped].links|;
            && popPos' <= |placed|
            && PopsInOrder(subs, popped + 1, popPos', |placed|) && HeldCounted(subs, after, usePos, popPos')
            && StatusesAgree(after, popped + 1, released, collected) && IdsTracked(subs, after, inflight)
  {
    HeldOfChanged(subs, status, popped, Held);
    hide HeldLength, WellFormed;
  }

  lemma ReleaseStatuses(subs: seq<Submission>, status: seq<Status>, popped: nat, released: seq<Completed>,
                        collected: nat,
                        inflight: map<nat, nat>, popPos: nat, usePos: nat, c: Completed)
    requires c.chain < |subs| == |status| && status[c.chain] == Held && HeldCounted(subs, status, usePos, popPos)
    requires StatusesAgree(status, popped, released, collected) && IdsTracked(subs, status, inflight)
             && collected <= |released|
    ensures var after := status[c.chain := Done];
            && HeldCounted(subs, after, usePos + |subs[c.chain].links|, popPos)
            && StatusesAgree(after, popped, released + [c], collected) && IdsTracked(subs, after, inflight)
  {
    HeldOfChanged(subs, status, c.chain, Done);
    hide HeldLength;
  }

  lemma ReleaseOrder(subs: seq<Submission>, released: seq<Completed>, collected: nat, usedPos: nat, usePos: nat,
                     c: Completed)
    requires CompletionsInOrder(subs, released, collected, usedPos, usePos)
    requires c.chain < |subs| && 0 < |subs[c.chain].links| && c.pos == usePos && usedPos <= usePos
    ensures CompletionsInOrder(subs, released + [c], collected, usedPos, usePos + |subs[c.chain].links|)
  {
  }

  lemma ReleasePlaced(ring: seq<Descriptor>, subs: seq<Submission>, released: seq<Completed>, collected: nat,
                      c: Completed)
    requires |ring| > 0 && CompletionsPlaced(ring, subs, released, collected) && c.chain < |subs|
    requires var d := At(ring, c.pos);
             Used(d, Phase(|ring|, c.pos)) && d.id == subs[c.chain].id && WrittenLength(d) == c.written
    ensures CompletionsPlaced(ring, subs, released + [c], collected)
  {
    hide At, Phase;
  }

  lemma CollectStatuses(subs: seq<Submission>, status: seq<Status>, popped: nat, released: seq<Completed>,
                        seen: seq<Seen>,
                        inflight: map<nat, nat>, popPos: nat, usePos: nat, id: nat)
    requires |seen| < |released| && HeldCounted(subs, status, usePos, popPos) && SeenFaithful(released, seen)
    requires StatusesAgree(status, popped, released, |seen|) && IdsTracked(subs, status, inflight)
    requires id == subs[released[|seen|].chain].id
    ensures var c := released[|seen|];
            var after := status[c.chain := Collected];
            && id in inflight && inflight[id] == c.chain
            && HeldCounted(subs, after, usePos, popPos)
            && StatusesAgree(after, popped, released, |seen| + 1) && IdsTracked(subs, after, inflight - {id})
            && SeenFaithful(released, seen + [Seen(c.chain, c.written)])
  {
    HeldOfChanged(subs, status, released[|seen|].chain, Collected);
    hide HeldLength;
  }

  lemma CollectOrder(ring: seq<Descriptor>, subs: seq<Submission>, released: seq<Completed>, collected: nat,
                     usedPos: nat, usePos: nat)
    requires |ring| > 0 && CompletionsPlaced(ring, subs, released, collected)
    requires CompletionsInOrder(subs, released, collected, usedPos, usePos) && collected < |released|
    ensures var n := |subs[released[collected].chain].links|;
            && usedPos + n <= usePos
            && CompletionsInOrder(subs, released, collected + 1, usedPos + n, usePos)
            && CompletionsPlaced(ring, subs, released, collected + 1)
  {
    hide At, Phase;
  }

  // ---------------------------------------------------------------------------
  // Each side's steps keep the invariant

  lemma StageKeeps(s: System, d: Descriptor)
    requires Inv(s) && s.free > 0
    ensures Inv(AfterStage(s, d))
  {
    hide Slot, Phase, At, Laps, DraftPlaced, QueuePlaced, CompletionsPlaced, CompletionsInOrder, ChainsPlaced,
      PopsInOrder, Readable, HeldCounted, StatusesAgree, IdsTracked, PopsFaithful, SeenFaithful;
    if s.draft == [] {
      StageHeadLaps(s.ring, d, s.usedPos, s.usePos, s.availPos);
      assert s.draft + [d] == [d];
    } else {
      var p := s.availPos + |s.draft|;
      var after := AfterStage(s, d).ring;
      WriteSlot(s.ring, p, Mark(d, Phase(|s.ring|, p)), s.usedPos);
      StageLaps(s.ring, after, d, s.usedPos, s.usePos, s.availPos, s.draft);
      FrameQueue(s.ring, after, s.usedPos, p, Mark(d, Phase(|s.ring|, p)), s.popPos, s.placed);
      FrameCompletions(s.ring, after, p, Mark(d, Phase(|s.ring|, p)), s.submitted, s.released, |s.seen|, s.usedPos,
                       s.usePos);
    }
  }

  lemma SubmitRing(s: System, entries: seq<Descriptor>)
    requires Inv(s) && 0 < |s.draft|
    ensures var t := AfterSubmit(s, entries);
            && Laps(t.ring, t.usedPos, t.usePos, t.availPos, |t.draft|) && DraftPlaced(t.ring, t.availPos, t.draft)
            && QueuePlaced(t.ring, t.popPos, t.placed)
            && CompletionsPlaced(t.ring, s.submitted, s.released, |s.seen|)
  {
    hide Slot, Phase, At, Laps, DraftPlaced, WholeDraftPlaced, OnlyAt, QueuePlaced, CompletionsPlaced,
      CompletionsInOrder, ChainsPlaced, PopsInOrder, Readable, HeldCounted, StatusesAgree, IdsTracked, PopsFaithful,
      SeenFaithful;
    var after := AfterSubmit(s, entries).ring;
    var head := Mark(s.draft[0], Phase(|s.ring|, s.availPos));
    assert Marked(|s.ring|, s.availPos, s.draft)[0] == head;
    WriteSlot(s.ring, s.availPos, head, s.usedPos);
    SubmitLaps(s.ring, after, s.usedPos, s.usePos, s.availPos, s.draft);
    SubmitQueue(s.ring, after, head, s.usedPos, s.popPos, s.placed, s.draft);
    FrameCompletions(s.ring, after, s.availPos, head, s.submitted, s.released, |s.seen|, s.usedPos, s.usePos);
  }

  lemma MarkedWellFormed(size: nat, p: nat, draft: seq<Descriptor>)
    requires size > 0 && WellFormed(size, draft)
    ensures 0 < |draft| && WellFormed(size, Marked(size, p, draft)) && Marked(size, p, draft)[0].id == draft[0].id
  {
    hide Phase;
  }

  lemma ReadableLonger(mem: DescriptorMemory, subs: seq<Submission>, popped: nat, sub: Submission)
    requires Readable(mem, subs, popped) && |sub.links| > 0 && Stands(mem, sub.links, sub.body)
    ensures Readable(mem, subs + [sub], popped)
  {
    hide Stands;
  }

  /** Marking a chain available changes nothing about the table it names. */
  lemma MarkedStands(s: System, entries: seq<Descriptor>)
    requires |s.ring| > 0 && |s.draft| > 0 && (IsIndirect(s.draft[0]) ==> Stands(s.mem, s.draft, entries))
    ensures var links := Marked(|s.ring|, s.availPos, s.draft);
            Stands(s.mem, links, if IsIndirect(s.draft[0]) then entries else links)
  {
    hide TableAt, Phase;
  }

  /** The device's walk over a table at its address finds the entries written there. */
  lemma TableReads(mem: DescriptorMemory, addr: nat, entries: seq<Descriptor>)
    requires TableAt(mem, addr, entries)
    ensures IndirectTable(mem, addr, |entries|) == entries
  {
  }

  lemma SubmitKeeps(s: System, entries: seq<Descriptor>)
    requires Inv(s) && Enabled(s, Submit(entries))
    ensures Inv(AfterSubmit(s, entries))
  {
    hide Slot, Phase, At, Laps, DraftPlaced, QueuePlaced, CompletionsPlaced, CompletionsInOrder, ChainsPlaced,
      PopsInOrder, Readable, HeldCounted, StatusesAgree, IdsTracked, PopsFaithful, SeenFaithful, WellFormed, Marked,
      Stands, IsIndirect;
    MarkedWellFormed(|s.ring|, s.availPos, s.draft);
    SubmitRing(s, entries);
    MarkedStands(s, entries);
    var t := AfterSubmit(s, entries);
    var sub := t.submitted[|s.submitted|];
    SubmitChains(|s.ring|, s.submitted, s.placed, sub);
    SubmitReleases(t.ring, s.submitted, sub, s.released, |s.seen|, s.usedPos, s.usePos);
    SubmitCounts(s, sub);
    SubmitStatuses(s.submitted, s.status, |s.popped|, s.released, |s.seen|, s.inflight, sub);
    ReadableLonger(s.mem, s.submitted, |s.popped|, sub);
  }

  /** A driver that looks finds a used descriptor exactly when a release is uncollected, and it names that release. */
  lemma CollectFinds(s: System)
    requires Inv(s)
    ensures CanCollect(s) <==> |s.seen| < |s.released|
    ensures CanCollect(s) ==>
              var d := At(s.ring, s.usedPos);
              var c := s.released[|s.seen|];
              && WrittenLength(d) == c.written && c.chain < |s.submitted| == |s.status|
              && d.id == s.submitted[c.chain].id
              && CollectedChain(s) == c.chain
  {
    hide Slot, DraftPlaced, QueuePlaced, ChainsPlaced, PopsInOrder, Readable, HeldLength, StatusesAgree, IdsTracked,
      PopsFaithful, SeenFaithful;
    if |s.seen| < |s.released| {
      var c := s.released[|s.seen|];
      assert c.pos == s.usedPos;
      CollectStatuses(s.submitted, s.status, |s.popped|, s.released, s.seen, s.inflight, s.popPos, s.usePos,
                      s.submitted[c.chain].id);
    } else if s.usedPos < s.availPos {
      assert At(s.ring, s.usedPos).flags.used != Phase(|s.ring|, s.usedPos);
    } else {
      assert At(s.ring, s.availPos).flags.avail != Phase(|s.ring|, s.availPos);
    }
  }

  lemma CollectKeeps(s: System)
    requires Inv(s)
    ensures Enabled(s, Collect) && Inv(Apply(s, Collect))
  {
    hide Slot, Phase, At, Laps, DraftPlaced, QueuePlaced, CompletionsPlaced, CompletionsInOrder, ChainsPlaced,
      PopsInOrder, Readable, HeldCounted, StatusesAgree, IdsTracked, PopsFaithful, CanCollect, CollectedChain;
    CollectFinds(s);
    if CanCollect(s) {
      var c := s.released[|s.seen|];
      CollectOrder(s.ring, s.submitted, s.released, |s.seen|, s.usedPos, s.usePos);
      CollectLaps(s.ring, s.usedPos, |s.submitted[c.chain].links|, s.usePos, s.availPos, |s.draft|);
      CollectStatuses(s.submitted, s.status, |s.popped|, s.released, s.seen, s.inflight, s.popPos, s.usePos,
                      s.submitted[c.chain].id);
    }
  }

  lemma {:induction false} LinksFound(ring: seq<Descriptor>, usedPos: nat, usePos: nat, popPos: nat,
                                      placed: seq<Descriptor>, drafted: nat, links: seq<Descriptor>, j: nat)
    requires |ring| > 0 && usePos <= popPos && usedPos <= popPos && popPos + |links| <= |placed|
    requires Laps(ring, usedPos, usePos, |placed|, drafted) && QueuePlaced(ring, popPos, placed)
    requires WellFormed(|ring|, links) && placed[popPos..popPos + |links|] == links && j < |links|
    ensures At(ring, popPos + j) == links[j] && AvailableAt(ring, popPos + j)
    ensures Links(ring, popPos + j, |ring| - j) == Some(links[j..])
    decreases |links| - j
  {
    hide Slot, Phase;
    assert placed[popPos..popPos + |links|][j] == links[j];
    if j < |links| - 1 {
      LinksFound(ring, usedPos, usePos, popPos, placed, drafted, links, j + 1);
      assert links[j..] == [links[j]] + links[j + 1..];
    } else {
      assert links[j..] == [links[j]];
    }
  }

  lemma QueueEmptyFound(ring: seq<Descriptor>, usedPos: nat, usePos: nat, availPos: nat, drafted: nat)
    requires |ring| > 0 && usedPos <= usePos <= availPos <= usedPos + |ring|
    requires Laps(ring, usedPos, usePos, availPos, drafted)
    ensures !AvailableAt(ring, availPos)
  {
    NextLap(|ring|, usedPos);
    hide Slot;
    if availPos < usedPos + |ring| {
      assert At(ring, availPos).flags.avail != Phase(|ring|, availPos);
    } else {
      assert At(ring, usedPos).flags.avail == Phase(|ring|, usedPos);
    }
  }

  /** In every reachable state a pop returns the oldest chain not yet popped, or nothing if there is none. */
  lemma PopFinds(s: System)
    requires Inv(s)
    ensures |s.popped| <= |s.submitted| == |s.status|
    ensures PopAt(s.ring, s.popPos, s.mem) ==
            if |s.popped| == |s.submitted| then Empty
            else
              var sub := s.submitted[|s.popped|];
              Chain(sub.id, |sub.links|, sub.body)
  {
    hide Slot, Phase, At, Laps, AvailableAt, Links, DraftPlaced, QueuePlaced, CompletionsPlaced, CompletionsInOrder,
      StatusesAgree, PopsFaithful, SeenFaithful, HeldLength;
    var k := |s.popped|;
    if k == |s.submitted| {
      QueueEmptyFound(s.ring, s.usedPos, s.usePos, s.availPos, |s.draft|);
    } else {
      var sub := s.submitted[k];
      LinksFound(s.ring, s.usedPos, s.usePos, s.popPos, s.placed, |s.draft|, sub.links, 0);
      assert sub.links[0..] == sub.links;
      if |sub.links| == 1 { assert sub.links == [sub.links[0]]; }
      assert Stands(s.mem, sub.links, sub.body);
      if IsIndirect(sub.links[0]) { TableReads(s.mem, sub.links[0].addr, sub.body); }
    }
  }

  lemma PopKeeps(s: System)
    requires Inv(s)
    ensures Enabled(s, Pop) && Inv(Apply(s, Pop))
  {
    hide Slot, Phase, At, PopAt, Laps, DraftPlaced, CompletionsPlaced, CompletionsInOrder, ChainsPlaced, PopsInOrder,
      HeldCounted, StatusesAgree, IdsTracked, SeenFaithful, Stands;
    PopFinds(s);
    if |s.popped| < |s.submitted| {
      PopStatuses(|s.ring|, s.submitted, s.status, |s.popped|, s.released, |s.seen|, s.inflight, s.popPos, s.usePos,
                  s.placed);
    }
  }

  /** A held chain always finds room in the ring: the device never reports it full. */
  lemma ReleaseFits(s: System, chain: nat)
    requires Inv(s) && Holding(s, chain)
    ensures 0 < |s.submitted[chain].links| && s.usePos + |s.submitted[chain].links| <= s.popPos
    ensures Available(At(s.ring, s.usePos), Phase(|s.ring|, s.usePos))
  {
    HeldOfChanged(s.submitted, s.status, chain, Done);
    hide Slot, HeldLength, CompletionsInOrder, CompletionsPlaced, DraftPlaced, QueuePlaced, StatusesAgree, IdsTracked,
      PopsFaithful;
  }

  lemma ReleaseKeeps(s: System, chain: nat, written: nat)
    requires Inv(s) && Holding(s, chain)
    ensures Inv(AfterRelease(s, chain, written))
  {
    hide Slot, Phase, At, Laps, DraftPlaced, QueuePlaced, CompletionsPlaced, CompletionsInOrder, ChainsPlaced,
      PopsInOrder, Readable, HeldCounted, StatusesAgree, IdsTracked, PopsFaithful;
    ReleaseFits(s, chain);
    var sub := s.submitted[chain];
    var d := UsedHere(s, sub.id, written);
    var c := Completed(chain, written, s.usePos);
    var after := AfterRelease(s, chain, written).ring;
    WriteSlot(s.ring, s.usePos, d, s.usedPos);
    assert At(after, s.usePos) == d;
    ReleaseLaps(s.ring, after, d, s.usedPos, s.usePos, |sub.links|, s.availPos, s.draft);
    FrameQueue(s.ring, after, s.usedPos, s.usePos, d, s.popPos, s.placed);
    FrameCompletions(s.ring, after, s.usePos, d, s.submitted, s.released, |s.seen|, s.usedPos, s.usePos);
    ReleasePlaced(after, s.submitted, s.released, |s.seen|, c);
    ReleaseOrder(s.submitted, s.released, |s.seen|, s.usedPos, s.usePos, c);
    ReleaseStatuses(s.submitted, s.status, |s.popped|, s.released, |s.seen|, s.inflight, s.popPos, s.usePos, c);
  }

  lemma StepKeeps(s: System, e: Event)
    requires Inv(s) && Enabled(s, e)
    ensures Inv(Apply(s, e)) && |Apply(s, e).ring| == |s.ring|
  {
    hide Laps, DraftPlaced, QueuePlaced, CompletionsPlaced, CompletionsInOrder, ChainsPlaced, PopsInOrder, Readable,
      HeldCounted, StatusesAgree, IdsTracked, PopsFaithful, SeenFaithful;
    match e
    case Stage(d) => StageKeeps(s, d);
    case Submit(entries) => SubmitKeeps(s, entries);
    case Collect => CollectKeeps(s);
    case WriteMemory(_) =>
    case Pop => PopKeeps(s);
    case Release(chain, written) => ReleaseKeeps(s, chain, written);
  }

  lemma {:induction false} RunKeeps(s: System, events: seq<Event>)
    requires Inv(s) && Run(s, events)
    ensures Inv(Final(s, events)) && |Final(s, events).ring| == |s.ring|
    decreases |events|
  {
    hide Inv, Apply, Enabled;
    if events != [] {
      StepKeeps(s, events[0]);
      RunKeeps(Apply(s, events[0]), events[1..]);
    }
  }

  // ---------------------------------------------------------------------------
  // What holds of every run from an empty ring

  /** used <= popped <= submitted <= used + size, and the driver's free count is what is left. */
  lemma CursorsStayWithinALap(size: nat, mem: DescriptorMemory, events: seq<Event>)
    requires size > 0 && Run(Init(size, mem), events)
    ensures var s := Final(Init(size, mem), events);
            && s.usedPos <= s.usePos <= s.popPos <= s.availPos
            && s.availPos + |s.draft| + s.free == s.usedPos + size
  {
    InitInv(size, mem);
    RunKeeps(Init(size, mem), events);
  }

  /**
   The device takes each chain once, in submission order, with the id, the
   descriptor count and the buffers the driver gave it; and a pop finds
   nothing only when everything submitted has been popped.
   */
  lemma EachChainPoppedOnceInOrder(size: nat, mem: DescriptorMemory, events: seq<Event>)
    requires size > 0 && Run(Init(size, mem), events)
    ensures var s := Final(Init(size, mem), events);
            && |s.ring| == size
            && |s.popped| <= |s.submitted|
            && (forall k :: 0 <= k < |s.popped| ==>
                              s.popped[k] == Chain(s.submitted[k].id, |s.submitted[k].links|, s.submitted[k].body))
            && var r := PopAt(s.ring, s.popPos, s.mem);
            && (r == Empty <==> |s.popped| == |s.submitted|)
            && !r.NoNextDescriptor? && !r.MalformedIndirect?
  {
    InitInv(size, mem);
    RunKeeps(Init(size, mem), events);
    hide Run, Final, PopAt, Init;
    PopFinds(Final(Init(size, mem), events));
  }

  /**
   Releases may come in any order of the chains. Each is seen exactly once, in
   release order, as the request the driver filed and with its own length, and
   none is lost: the driver finds a used descriptor whenever one is uncollected.
   */
  lemma EachReleaseSeenOnce(size: nat, mem: DescriptorMemory, events: seq<Event>)
    requires size > 0 && Run(Init(size, mem), events)
    ensures var s := Final(Init(size, mem), events);
            && |s.ring| == size
            && |s.seen| <= |s.released|
            && (forall i :: 0 <= i < |s.seen| ==> s.seen[i] == Seen(s.released[i].chain, s.released[i].written))
            && (forall i, j :: 0 <= i < j < |s.released| ==> s.released[i].chain != s.released[j].chain)
            && (CanCollect(s) <==> |s.seen| < |s.released|)
  {
    InitInv(size, mem);
    RunKeeps(Init(size, mem), events);
    hide Run, Final, CanCollect, Init;
    CollectFinds(Final(Init(size, mem), events));
  }

  /** Whatever chains are outstanding, releasing a held one never meets a full ring. */
  lemma ReleaseNeverRingFull(size: nat, mem: DescriptorMemory, events: seq<Event>, chain: nat)
    requires size > 0 && Run(Init(size, mem), events)
    requires Holding(Final(Init(size, mem), events), chain)
    ensures var s := Final(Init(size, mem), events);
            |s.ring| == size && Available(At(s.ring, s.usePos), Phase(size, s.usePos))
  {
    InitInv(size, mem);
    RunKeeps(Init(size, mem), events);
    hide Run, Final, Init;
    ReleaseFits(Final(Init(size, mem), events), chain);
  }

  // ---------------------------------------------------------------------------
  // The device's code takes these steps

  ghost predicate Refines(q: PackedVirtqueue, s: System)
    reads q, q.ring
  {
    && q.Valid() && q.valid && q.ring[..] == s.ring
    && CursorAt(q.ring.Length, q.availIdx, q.availWrap, s.popPos)
    && CursorAt(q.ring.Length, q.usedIdx, q.usedWrap, s.usePos)
  }

  method DevicePops(q: PackedVirtqueue, ghost s: System, mem: DescriptorMemory) returns (r: Popped)
    requires Refines(q, s) && Inv(s) && mem == s.mem
    modifies q
    ensures Enabled(s, Pop) && Refines(q, Apply(s, Pop))
    ensures r == PopAt(s.ring, s.popPos, s.mem)
  {
    hide Inv, PopAt, Slot, Phase, At, Readable, Stands;
    PopFinds(s);
    r := q.Pop(s.popPos, mem, true);
  }

  lemma HeldChain(s: System, chain: nat)
    requires Inv(s) && Holding(s, chain)
    ensures chain < |s.popped| && |s.submitted[chain].links| <= |s.ring|
    ensures s.popped[chain] == Chain(s.submitted[chain].id, |s.submitted[chain].links|, s.submitted[chain].body)
  {
    hide Laps, DraftPlaced, QueuePlaced, CompletionsPlaced, CompletionsInOrder, Readable, IdsTracked, HeldLength,
      SeenFaithful;
  }

  method DeviceReleases(q: PackedVirtqueue, ghost s: System, ghost chain: nat, written: nat, id: nat,
                        skip: nat) returns (r: Released)
    requires Refines(q, s) && Inv(s) && Holding(s, chain)
    requires chain < |s.popped| && s.popped[chain] == Chain(id, skip, s.submitted[chain].body)
    modifies q, q.ring
    ensures Refines(q, AfterRelease(s, chain, written))
    ensures r.Published?
  {
    hide Inv, Slot, Phase;
    ReleaseFits(s, chain);
    HeldChain(s, chain);
    r := q.Release(s.usePos, id, skip, written, true);
  }
}
