/**
 The device half of a packed virtqueue: popping chains of descriptors and
 publishing completions into the same ring (packages/kernel/src/virtio/queue.ts).
 */
module PackedQueue {
  import opened Wrappers
  import opened RingPositions

  /** The flag bits the queue reads or writes. */
  datatype Flags = Flags(next: bool, write: bool, indirect: bool, avail: bool, used: bool)

  datatype Descriptor = Descriptor(addr: nat, len: nat, id: nat, flags: Flags)

  const DescriptorSize: nat := 16

  /** Guest memory read as a table of descriptors, by byte address. */
  type DescriptorMemory = nat -> Descriptor

  /** What one pop yields: nothing, a chain, or an exception from a malformed ring. */
  datatype Popped =
    | Empty
    | Chain(id: nat, skip: nat, descs: seq<Descriptor>)
    | NoNextDescriptor
    | MalformedIndirect

  /** A completion as published: where, and the fields of the used descriptor. */
  datatype Completion = Completion(slot: nat, id: nat, written: nat, flags: Flags)

  datatype Released = Dropped | RingFull | Published(completion: Completion)

  /** The device's cursors. */
  datatype Cursors = Cursors(availIdx: nat, availWrap: bool, usedIdx: nat, usedWrap: bool, valid: bool)

  predicate Available(d: Descriptor, wrap: bool)
  {
    d.flags.avail != d.flags.used && d.flags.avail == wrap
  }

  predicate Used(d: Descriptor, wrap: bool)
  {
    d.flags.avail == d.flags.used && d.flags.used == wrap
  }

  function At(ring: seq<Descriptor>, p: nat): Descriptor
    requires |ring| > 0
  {
    ring[Slot(|ring|, p)]
  }

  predicate AvailableAt(ring: seq<Descriptor>, p: nat)
    requires |ring| > 0
  {
    Available(At(ring, p), Phase(|ring|, p))
  }

  /** The descriptors linked from position p, or None if one of them is not available yet. */
  function Links(ring: seq<Descriptor>, p: nat, budget: nat): (r: Option<seq<Descriptor>>)
    requires |ring| > 0
    ensures r.Some? ==> 1 <= |r.value| <= budget
    decreases budget
  {
    if budget == 0 || !AvailableAt(ring, p) then None
    else if !At(ring, p).flags.next then Some([At(ring, p)])
    else
      match Links(ring, p + 1, budget - 1)
      case None => None
      case Some(rest) => Some([At(ring, p)] + rest)
  }

  function IndirectTable(mem: DescriptorMemory, addr: nat, count: nat): (t: seq<Descriptor>)
  {
    seq(count, i requires 0 <= i => mem(addr + DescriptorSize * i))
  }

  /** What popping at position p must return, for a ring of this content. */
  function PopAt(ring: seq<Descriptor>, p: nat, mem: DescriptorMemory): Popped
    requires |ring| > 0
  {
    if !AvailableAt(ring, p) then Empty
    else
      var head := At(ring, p);
      if head.flags.next then
        match Links(ring, p, |ring|)
        case None => NoNextDescriptor
        case Some(descs) => Chain(head.id, |descs|, descs)
      else if head.flags.indirect then
        if head.len % DescriptorSize != 0 || head.len / DescriptorSize > |ring| then MalformedIndirect
        else Chain(head.id, 1, IndirectTable(mem, head.addr, head.len / DescriptorSize))
      else Chain(head.id, 1, [head])
  }

  /** n descriptors from position p on are available, each linked to the next. */
  predicate Linked(ring: seq<Descriptor>, p: nat, n: nat)
    requires |ring| > 0
  {
    forall k :: p <= k < p + n ==> AvailableAt(ring, k) && At(ring, k).flags.next
  }

  /** And the one after them is not available. */
  predicate BreaksOff(ring: seq<Descriptor>, p: nat, n: nat)
    requires |ring| > 0
  {
    Linked(ring, p, n) && !AvailableAt(ring, p + n)
  }

  lemma NoneLinked(ring: seq<Descriptor>, p: nat)
    requires |ring| > 0
    ensures Linked(ring, p, 0)
  {
  }

  lemma LinkedOn(ring: seq<Descriptor>, p: nat, n: nat)
    requires |ring| > 0 && Linked(ring, p, n) && AvailableAt(ring, p + n) && At(ring, p + n).flags.next
    ensures Linked(ring, p, n + 1)
  {
  }

  /** The descriptor a completion leaves in its slot; the buffer address stays as it was. */
  function UsedDescriptor(old_: Descriptor, id: nat, written: nat, wrap: bool): Descriptor
  {
    Descriptor(old_.addr, written, id, Flags(false, written > 0, false, wrap, wrap))
  }

  /** A ring cursor at unbounded position p. */
  predicate CursorAt(size: nat, idx: nat, wrap: bool, p: nat)
    requires size > 0
  {
    idx == Slot(size, p) && wrap == Phase(size, p)
  }

  /** Slots p..p+n all available is impossible one lap on: the first would need both phases. */
  lemma LapEndsRun(ring: seq<Descriptor>, p: nat)
    requires |ring| > 0 && AvailableAt(ring, p)
    ensures !AvailableAt(ring, p + |ring|)
  {
    NextLap(|ring|, p);
  }

  class PackedVirtqueue {
    const ring: array<Descriptor>
    var availIdx: nat
    var availWrap: bool
    var usedIdx: nat
    var usedWrap: bool
    var valid: bool

    ghost predicate Valid()
      reads this
    {
      ring.Length > 0 && availIdx < ring.Length && usedIdx < ring.Length
    }

    function State(): Cursors
      reads this
    {
      Cursors(availIdx, availWrap, usedIdx, usedWrap, valid)
    }

    constructor (ring: array<Descriptor>)
      requires ring.Length > 0
      ensures Valid() && this.ring == ring
      ensures State() == Cursors(0, true, 0, true, true)
      ensures CursorAt(ring.Length, availIdx, availWrap, 0) && CursorAt(ring.Length, usedIdx, usedWrap, 0)
    {
      this.ring := ring;
      availIdx, availWrap, usedIdx, usedWrap, valid := 0, true, 0, true, true;
    }

    method Invalidate()
      modifies this
      ensures State() == old(State()).(valid := false)
    {
      valid := false;
    }

    /** Steps over the descriptor at the cursor if the driver has made it available. */
    method Advance(ghost p: nat) returns (index: Option<nat>)
      requires Valid() && CursorAt(ring.Length, availIdx, availWrap, p)
      modifies this`availIdx, this`availWrap
      ensures Valid()
      ensures index.Some? <==> AvailableAt(ring[..], p)
      ensures index.Some? ==>
                && index.value == Slot(ring.Length, p) && ring[index.value] == At(ring[..], p)
                && CursorAt(ring.Length, availIdx, availWrap, p + 1)
      ensures index.None? ==> State() == old(State())
    {
      var flags := ring[availIdx].flags;
      if flags.avail == flags.used || flags.avail != availWrap {
        return None;
      }
      StepOne(ring.Length, p);
      index := Some(availIdx);
      availIdx := availIdx + 1;
      if availIdx >= ring.Length {
        availIdx := 0;
        availWrap := !availWrap;
      }
    }

    /** The rest of a chain whose first descriptor, at p, links on; None if it breaks off. */
    method FollowLinks(ghost p: nat, head: Descriptor) returns (r: Option<seq<Descriptor>>)
      requires Valid() && CursorAt(ring.Length, availIdx, availWrap, p + 1)
      requires AvailableAt(ring[..], p) && head == At(ring[..], p) && head.flags.next
      modifies this`availIdx, this`availWrap
      ensures Valid()
      ensures r == Links(ring[..], p, ring.Length)
      ensures r.Some? ==> CursorAt(ring.Length, availIdx, availWrap, p + |r.value|)
      ensures r.None? ==>
                exists n :: 0 < n && BreaksOff(ring[..], p, n) && CursorAt(ring.Length, availIdx, availWrap, p + n)
    {
      hide Slot, Phase, AvailableAt, At, Linked;
      ghost var all := ring[..];
      var desc, chain := head, [head];
      NoneLinked(all, p);
      while desc.flags.next
        invariant Valid() && ring[..] == all
        invariant 1 <= |chain| <= ring.Length
        invariant CursorAt(ring.Length, availIdx, availWrap, p + |chain|)
        invariant AvailableAt(all, p + |chain| - 1) && desc == At(all, p + |chain| - 1)
        invariant Linked(all, p, |chain| - 1)
        invariant desc.flags.next ==>
                    Links(all, p, ring.Length) ==
                    match Links(all, p + |chain|, ring.Length - |chain|) {
                      case None => None
                      case Some(rest) => Some(chain + rest)
                    }
        invariant !desc.flags.next ==> Links(all, p, ring.Length) == Some(chain)
        decreases ring.Length - |chain|, desc.flags.next
      {
        LinkedOn(all, p, |chain| - 1);
        var i := Advance(p + |chain|);
        if i.None? {
          assert BreaksOff(all, p, |chain|);
          return None;
        }
        if |chain| == ring.Length {
          LapEndsRun(all, p);
          assert false;
        }
        desc := ring[i.value];
        ghost var longer := Links(all, p + |chain| + 1, ring.Length - |chain| - 1);
        assert desc.flags.next && longer.Some? ==> chain + ([desc] + longer.value) == (chain + [desc]) + longer.value;
        chain := chain + [desc];
      }
      return Some(chain);
    }

    /**
     Takes the next chain, or nothing if the queue is no longer `current` once it
     has been copied. The result is a function of the ring, whatever the cursor
     arithmetic; the cursor moves past exactly the descriptors taken.
     */
    method Pop(ghost p: nat, mem: DescriptorMemory, current: bool) returns (r: Popped)
      requires Valid() && CursorAt(ring.Length, availIdx, availWrap, p)
      modifies this`availIdx, this`availWrap
      ensures Valid()
      ensures r == if PopAt(ring[..], p, mem).Chain? && !current then Empty else PopAt(ring[..], p, mem)
      ensures match PopAt(ring[..], p, mem)
              case Chain(_, skip, _) => CursorAt(ring.Length, availIdx, availWrap, p + skip)
              case Empty => State() == old(State())
              case MalformedIndirect => CursorAt(ring.Length, availIdx, availWrap, p + 1)
              case NoNextDescriptor =>
                exists n :: 0 < n && BreaksOff(ring[..], p, n) && CursorAt(ring.Length, availIdx, availWrap, p + n)
    {
      hide Slot, Phase, AvailableAt, At, Linked, BreaksOff, Links;
      var first := Advance(p);
      if first.None? {
        return Empty;
      }
      var head := ring[first.value];
      var skip, chain := 1, [head];
      if head.flags.next {
        var linked := FollowLinks(p, head);
        if linked.None? {
          return NoNextDescriptor;
        }
        skip, chain := |linked.value|, linked.value;
      } else if head.flags.indirect {
        if head.len % DescriptorSize != 0 || head.len / DescriptorSize > ring.Length {
          return MalformedIndirect;
        }
        chain := ReadTable(mem, head.addr, head.len / DescriptorSize);
      }
      return if current then Chain(head.id, skip, chain) else Empty;
    }

    static method ReadTable(mem: DescriptorMemory, addr: nat, count: nat) returns (t: seq<Descriptor>)
      ensures t == IndirectTable(mem, addr, count)
    {
      t := [];
      for i := 0 to count
        invariant t == IndirectTable(mem, addr, i)
      {
        t := t + [mem(addr + DescriptorSize * i)];
      }
    }

    /**
     Completes a chain of `skip` descriptors: writes one used descriptor at the
     used cursor and moves the cursor over the whole chain.
     */
    method Release(ghost u: nat, id: nat, skip: nat, written: nat, current: bool) returns (r: Released)
      requires Valid() && CursorAt(ring.Length, usedIdx, usedWrap, u) && skip <= ring.Length
      modifies this`usedIdx, this`usedWrap, ring
      ensures Valid()
      ensures r.Dropped? <==> !valid || !current
      ensures r.RingFull? <==> valid && current && !Available(old(At(ring[..], u)), Phase(ring.Length, u))
      ensures !r.Published? ==> State() == old(State()) && ring[..] == old(ring[..])
      ensures r.Published? ==>
                && CursorAt(ring.Length, usedIdx, usedWrap, u + skip)
                && var slot := Slot(ring.Length, u);
                && r.completion.slot == slot && r.completion.id == id && r.completion.written == written
                && ring[..]
                   == old(ring[..])[slot := UsedDescriptor(old(ring[..])[slot], id, written, Phase(ring.Length, u))]
    {
      if !valid || !current {
        return Dropped;
      }
      var desc := ring[usedIdx];
      if desc.flags.avail == desc.flags.used || desc.flags.avail != usedWrap {
        return RingFull;
      }
      var completion := Completion(usedIdx, id, written, Flags(false, written > 0, false, usedWrap, usedWrap));
      StepMany(ring.Length, u, skip);
      usedIdx := usedIdx + skip;
      if usedIdx >= ring.Length {
        usedIdx := usedIdx - ring.Length;
        usedWrap := !usedWrap;
      }
      Publish(ring, completion);
      return Published(completion);
    }
  }

  /** Writes a completion into the ring, as the main thread does for either kind of device. */
  method Publish(ring: array<Descriptor>, c: Completion)
    requires c.slot < ring.Length
    modifies ring
    ensures ring[..] == old(ring[..])[c.slot := Descriptor(old(ring[c.slot]).addr, c.written, c.id, c.flags)]
  {
    ring[c.slot] := Descriptor(ring[c.slot].addr, c.written, c.id, c.flags);
  }

  // ---------------------------------------------------------------------------
  // What any ring yields, malformed ones included

  /** n descriptors from position p on that are available and linked, up to the last, which is not linked on. */
  predicate IsLinkedChain(ring: seq<Descriptor>, p: nat, descs: seq<Descriptor>)
    requires |ring| > 0
  {
    && descs != []
    && (forall k :: 0 <= k < |descs| ==> AvailableAt(ring, p + k) && descs[k] == At(ring, p + k))
    && forall k :: 0 <= k < |descs| ==> (descs[k].flags.next <==> k + 1 < |descs|)
  }

  lemma {:induction false} LinksExactly(ring: seq<Descriptor>, p: nat, budget: nat)
    requires |ring| > 0
    ensures var r := Links(ring, p, budget);
            && (r.Some? ==> IsLinkedChain(ring, p, r.value))
            && (r.None? ==> Linked(ring, p, budget) || exists n: nat :: n < budget && BreaksOff(ring, p, n))
    decreases budget
  {
    hide AvailableAt, At;
    if budget > 0 {
      if !AvailableAt(ring, p) {
        NoneLinked(ring, p);
        assert BreaksOff(ring, p, 0);
      } else if At(ring, p).flags.next {
        LinksExactly(ring, p + 1, budget - 1);
        var rest := Links(ring, p + 1, budget - 1);
        if rest.None? {
          var next, less := p + 1, budget - 1;
          if n: nat :| n < less && BreaksOff(ring, next, n) {
            assert BreaksOff(ring, p, n + 1);
          }
        } else {
          LinkedChainGrows(ring, p, rest.value);
        }
      }
    }
  }

  lemma LinkedChainGrows(ring: seq<Descriptor>, p: nat, rest: seq<Descriptor>)
    requires |ring| > 0 && AvailableAt(ring, p) && At(ring, p).flags.next && IsLinkedChain(ring, p + 1, rest)
    ensures IsLinkedChain(ring, p, [At(ring, p)] + rest)
  {
    hide AvailableAt, At;
    var all := [At(ring, p)] + rest;
    forall k | 1 <= k < |all|
      ensures AvailableAt(ring, p + k) && all[k] == At(ring, p + k) && (all[k].flags.next <==> k + 1 < |all|) {
      assert all[k] == rest[k - 1] && p + k == p + 1 + (k - 1);
    }
  }

  /** A chain that is whole does not break off. */
  lemma WholeDoesNotBreak(ring: seq<Descriptor>, p: nat, descs: seq<Descriptor>, n: nat)
    requires |ring| > 0 && IsLinkedChain(ring, p, descs)
    ensures !BreaksOff(ring, p, n)
  {
    hide AvailableAt, At;
    if n < |descs| {
      assert descs[n] == At(ring, p + n);
    } else {
      var last := |descs| - 1;
      assert !descs[last].flags.next && descs[last] == At(ring, p + last);
    }
  }

  /**
   On any ring: a pop is empty exactly if the driver has not made the descriptor
   available; it throws exactly if a linked chain breaks off, or an indirect
   table is no whole number of descriptors or more of them than the ring has; and
   otherwise it yields the linked chain, the table, or the one descriptor.
   */
  lemma PopsExactly(ring: seq<Descriptor>, p: nat, mem: DescriptorMemory)
    requires |ring| > 0
    ensures var r, head := PopAt(ring, p, mem), At(ring, p);
            var tabled := !head.flags.next && head.flags.indirect;
            && (r.Empty? <==> !AvailableAt(ring, p))
            && (r.NoNextDescriptor? <==> head.flags.next && exists n: nat :: 0 < n && BreaksOff(ring, p, n))
            && (r.MalformedIndirect? <==>
                AvailableAt(ring, p) && tabled && (head.len % 16 != 0 || head.len > 16 * |ring|))
            && (r.Chain? ==>
                  && r.id == head.id
                  && (head.flags.next ==> IsLinkedChain(ring, p, r.descs) && r.skip == |r.descs|)
                  && (!head.flags.next ==> r.skip == 1 && (!head.flags.indirect ==> r.descs == [head]))
                  && (tabled ==>
                        && 16 * |r.descs| == head.len
                        && forall k :: 0 <= k < |r.descs| ==> r.descs[k] == mem(head.addr + 16 * k)))
  {
    hide AvailableAt, At, Linked;
    var head := At(ring, p);
    if AvailableAt(ring, p) && head.flags.next {
      LinksExactly(ring, p, |ring|);
      var r := Links(ring, p, |ring|);
      if r.Some? {
        forall n: nat ensures !BreaksOff(ring, p, n) { WholeDoesNotBreak(ring, p, r.value, n); }
      } else if Linked(ring, p, |ring|) {
        LapEndsRun(ring, p);
        assert BreaksOff(ring, p, |ring|);
      } else {
        var n: nat :| n < |ring| && BreaksOff(ring, p, n);
        BreaksLater(ring, p, n);
      }
    } else if !AvailableAt(ring, p) {
      forall n: nat | n > 0 ensures !BreaksOff(ring, p, n) { BreaksLater(ring, p, n); }
    }
  }

  lemma BreaksLater(ring: seq<Descriptor>, p: nat, n: nat)
    requires |ring| > 0
    ensures BreaksOff(ring, p, n) ==> (n > 0 <==> AvailableAt(ring, p))
  {
    if n > 0 && BreaksOff(ring, p, n) { assert AvailableAt(ring, p); }
  }

  /**
   A used descriptor carries the chain's id and length, the marks of that lap,
   and no link; it says write if bytes were.
   */
  lemma UsedIsPlain(d: Descriptor, id: nat, written: nat, wrap: bool)
    ensures var u := UsedDescriptor(d, id, written, wrap);
            && u.id == id && u.len == written && u.addr == d.addr && Used(u, wrap) && !Available(u, wrap)
            && !u.flags.next && !u.flags.indirect && (u.flags.write <==> written != 0)
  {
  }
}
