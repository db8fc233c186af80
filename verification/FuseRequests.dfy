/**
 Every request on the filesystem device's tables is an edit followed by the
 sweep of everything that edit left unneeded, though the program only ever
 collects upwards from the records it touched.
 */
module FuseRequests {
  import opened Wrappers
  import opened FuseTables
  import opened FuseLive

  // ---------------------------------------------------------------------------
  // Collecting

  lemma ParentPresent(t: Table, id: Id)
    requires Shape(t) && id in t.records && id != RootId
    ensures t.records[id].parent in t.records && id in Kids(t.records, t.records[id].parent)
  {
    RootedHas(t, id);
    hide Shape;
    var k: nat :| Chain(t.records, id, RootId, k);
    assert Chain(t.records, t.records[id].parent, RootId, k - 1);
  }

  lemma NothingUnderDead(t: Table, id: Id)
    requires Shape(t) && Dead(t.records, id)
    ensures Kids(t.records, id) == {} && HandlesOf(t.handles, id) == {}
  {
    hide Rooted, Named, Numbered;
  }

  lemma UnlinkedRecords(t: Table, id: Id)
    requires Shape(t) && Dead(t.records, id)
    ensures var r, u, p := t.records, Unlinked(t, id).records, t.records[id].parent;
            && p in r && p != id
            && u.Keys == r.Keys - {id}
            && forall x :: x in u ==> Alike(u[x], r[x]) && u[x].children == r[x].children - (if x == p then 1 else 0)
  {
    ParentPresent(t, id);
    NothingUnderDead(t, id);
    hide Shape, Kids;
  }

  lemma NoneIsParent(r: Records, id: Id)
    requires Kids(r, id) == {}
    ensures forall x :: x in r && x != RootId ==> r[x].parent != id
  {
    forall x | x in r && x != RootId ensures r[x].parent != id {
      assert x !in Kids(r, id);
    }
  }

  lemma UnlinkedKeeps(t: Table, id: Id)
    requires Shape(t) && Dead(t.records, id)
    ensures KeepsLive(t.records, Unlinked(t, id).records) && NamesKept(t, Unlinked(t, id))
            && SameRest(t, Unlinked(t, id))
  {
    hide Shape, Unlinked, Kids, HandlesOf, NamesKept, SameRest, Alike;
    UnlinkedRecords(t, id);
    NothingUnderDead(t, id);
    NoneIsParent(t.records, id);
    RootNotDead(t, id);
    UnlinkedNames(t, id);
  }

  lemma RootNotDead(t: Table, id: Id)
    requires Shape(t)
    ensures RootId in t.records
  {
    hide CountsTrue, HandlesTrue, Named, Numbered;
  }

  lemma NamesWithout(r: Records, byNode: map<Node, Id>, u: Records, id: Id)
    requires Named(r, byNode) && id in r && u.Keys == r.Keys - {id}
    requires forall x :: x in u ==> u[x].node == r[x].node
    ensures Named(u, byNode - {r[id].node})
    ensures byNode - {r[id].node} == map n | n in byNode && byNode[n] in u :: byNode[n]
  {
    var rest := byNode - {r[id].node};
    forall n | n in byNode ensures n in rest <==> byNode[n] in u {
    }
  }

  lemma UnlinkedNames(t: Table, id: Id)
    requires Shape(t) && Dead(t.records, id)
    ensures NamesKept(t, Unlinked(t, id)) && SameRest(t, Unlinked(t, id))
    ensures Named(Unlinked(t, id).records, Unlinked(t, id).byNode)
  {
    hide Rooted, CountsTrue, HandlesTrue, Named, Numbered, Adopted;
    UnlinkedRecords(t, id);
    NamesWithout(t.records, t.byNode, Unlinked(t, id).records, id);
  }

  lemma UnlinkedCounts(t: Table, id: Id)
    requires Shape(t) && Dead(t.records, id)
    ensures CountsTrue(Unlinked(t, id).records)
  {
    UnlinkedRecords(t, id);
    ParentPresent(t, id);
    hide Rooted, HandlesTrue, Named, Numbered, Unlinked;
    var r, u, p := t.records, Unlinked(t, id).records, t.records[id].parent;
    forall x | x in u ensures u[x].children == |Kids(u, x)| {
      assert Kids(u, x) == Kids(r, x) - {id};
      if x != p { assert id !in Kids(r, x); }
    }
  }

  lemma KeptIsRooted(t: Table, w: Records)
    requires Shape(t) && KeepsLive(t.records, w)
    ensures Rooted(w)
  {
    forall x | x in w ensures HasDepth(w, x) {
      RootedHas(t, x);
      var k: nat :| Chain(t.records, x, RootId, k);
      ChainKept(t.records, w, x, RootId, k);
    }
  }

  lemma HandlesWithout(r: Records, h: map<nat, Handle>, u: Records, id: Id)
    requires HandlesTrue(r, h) && HandlesOf(h, id) == {} && u.Keys == r.Keys - {id}
    requires forall x :: x in u ==> u[x].handles == r[x].handles
    ensures HandlesTrue(u, h)
  {
    forall fh | fh in h ensures h[fh].node in u {
      assert fh !in HandlesOf(h, id);
    }
  }

  lemma UnlinkedHandles(t: Table, id: Id)
    requires Shape(t) && Dead(t.records, id)
    ensures HandlesTrue(Unlinked(t, id).records, t.handles) && Numbered(Unlinked(t, id))
  {
    hide Rooted, CountsTrue, HandlesTrue, Named, HandlesOf, Kids, Adopted;
    UnlinkedRecords(t, id);
    NothingUnderDead(t, id);
    HandlesWithout(t.records, t.handles, Unlinked(t, id).records, id);
  }

  lemma UnlinkedShape(t: Table, id: Id)
    requires Shape(t) && Dead(t.records, id)
    ensures Shape(Unlinked(t, id))
  {
    UnlinkedKeeps(t, id);
    UnlinkedNames(t, id);
    UnlinkedCounts(t, id);
    UnlinkedHandles(t, id);
    KeptIsRooted(t, Unlinked(t, id).records);
    hide Rooted, CountsTrue, HandlesTrue, Named, Numbered, KeepsLive, NamesKept, Adopted;
  }

  /**
   Collecting keeps the tables sound, changes nothing about what a sweep leaves,
   and leaves no dead record where it worked.
   */
  lemma {:induction false} CollectedOk(t: Table, id: Id, dead: set<Id>)
    requires Shape(t) && DeadOnly(t.records, dead)
    ensures var c := Collected(t, id);
            Shape(c) && Swept(c) == Swept(t) && DeadOnly(c.records, dead - {id}) && SameRest(t, c)
    decreases t.records.Keys
  {
    if Dead(t.records, id) {
      var u, p := Unlinked(t, id), t.records[id].parent;
      UnlinkedRecords(t, id);
      UnlinkedShape(t, id);
      UnlinkedKeeps(t, id);
      SweptAgree(t, u);
      DeadAfterUnlinking(t, id, dead);
      hide Shape, Swept, KeepsLive, NamesKept, Alike;
      CollectedOk(u, p, dead - {id} + {p});
      DeadOnlyLess(Collected(u, p).records, dead - {id} + {p} - {p}, dead - {id});
    }
  }

  lemma DeadOnlyLess(r: Records, a: set<Id>, b: set<Id>)
    requires DeadOnly(r, a) && a <= b
    ensures DeadOnly(r, b)
  {
  }

  lemma DeadAfterUnlinking(t: Table, id: Id, dead: set<Id>)
    requires Shape(t) && Dead(t.records, id) && DeadOnly(t.records, dead)
    ensures DeadOnly(Unlinked(t, id).records, dead - {id} + {t.records[id].parent})
  {
    UnlinkedRecords(t, id);
    hide Shape, Unlinked;
  }

  /** Collecting from the one record that may be dead is the whole sweep. */
  lemma CollectedIsSwept(t: Table, id: Id)
    requires Shape(t) && DeadOnly(t.records, {id})
    ensures Collected(t, id) == Swept(t) && Inv(Collected(t, id))
  {
    hide Shape, Swept, Collected, DeadOnly;
    CollectedOk(t, id, {id});
    assert {id} - {id} == {};
    NoDeadIsSwept(Collected(t, id));
  }

  // ---------------------------------------------------------------------------
  // Edits that keep the tree

  predicate SameTree(r: Records, s: Records)
  {
    && r.Keys == s.Keys
    && forall x :: x in r ==> r[x].node == s[x].node && r[x].parent == s[x].parent && r[x].children == s[x].children
  }

  lemma {:induction false} SameTreeChain(r: Records, s: Records, y: Id, x: Id, k: nat)
    requires SameTree(r, s)
    ensures Chain(r, y, x, k) ==> Chain(s, y, x, k)
    decreases k
  {
    if k > 0 && y in r && y != RootId { SameTreeChain(r, s, r[y].parent, x, k - 1); }
  }

  lemma SameTreeShape(t: Table, u: Table)
    requires Shape(t) && SameTree(t.records, u.records) && u.byNode == t.byNode
    requires HandlesTrue(u.records, u.handles) && Numbered(u)
    ensures Shape(u)
  {
    var r, s := t.records, u.records;
    forall x | x in s ensures HasDepth(s, x) && s[x].children == |Kids(s, x)| {
      RootedHas(t, x);
      var k: nat :| Chain(r, x, RootId, k);
      SameTreeChain(r, s, x, RootId, k);
      assert Kids(s, x) == Kids(r, x);
    }
  }

  lemma LoweredShape(t: Table, id: Id, count: nat)
    requires Shape(t)
    ensures Shape(Lowered(t, id, count))
  {
    if id in t.records {
      LoweredRest(t, id, count);
      hide Shape;
      SameTreeShape(t, Lowered(t, id, count));
    }
  }

  lemma LoweredRest(t: Table, id: Id, count: nat)
    requires Shape(t) && id in t.records
    ensures HandlesTrue(Lowered(t, id, count).records, t.handles) && Numbered(Lowered(t, id, count))
    ensures SameTree(t.records, Lowered(t, id, count).records)
  {
    hide Rooted, CountsTrue, Named;
  }

  lemma DroppedShape(t: Table, fh: nat)
    requires Shape(t) && fh in t.handles
    ensures Shape(Dropped(t, fh)) && t.handles[fh].node in t.records
  {
    DroppedRest(t, fh);
    hide Shape, Dropped;
    SameTreeShape(t, Dropped(t, fh));
  }

  lemma DroppedRest(t: Table, fh: nat)
    requires Shape(t) && fh in t.handles
    ensures HandlesTrue(Dropped(t, fh).records, Dropped(t, fh).handles) && Numbered(Dropped(t, fh))
    ensures SameTree(t.records, Dropped(t, fh).records) && t.handles[fh].node in t.records
            && Dropped(t, fh).byNode == t.byNode
  {
    hide Rooted, CountsTrue, Named;
    var u := Dropped(t, fh);
    forall x | x in u.records ensures u.records[x].handles == |HandlesOf(u.handles, x)| {
      assert HandlesOf(u.handles, x) == HandlesOf(t.handles, x) - {fh};
      if x == t.handles[fh].node {
        assert fh in HandlesOf(t.handles, x);
      } else {
        assert fh !in HandlesOf(t.handles, x);
      }
    }
  }

  lemma HeldShape(t: Table, id: Id, directory: bool)
    requires Shape(t) && id in t.records
    ensures Shape(Held(t, id, directory))
  {
    hide Shape, HandlesTrue, Numbered;
    HeldRest(t, id, directory);
    SameTreeShape(t, Held(t, id, directory));
  }

  lemma HandlesOfMore(h: map<nat, Handle>, fh: nat, one: Handle, x: Id)
    requires fh !in h
    ensures |HandlesOf(h[fh := one], x)| == |HandlesOf(h, x)| + if x == one.node then 1 else 0
  {
    var more := h[fh := one];
    assert fh !in HandlesOf(h, x);
    if x == one.node {
      assert HandlesOf(more, x) == HandlesOf(h, x) + {fh};
    } else {
      assert HandlesOf(more, x) == HandlesOf(h, x);
    }
  }

  lemma HandleAdded(r: Records, h: map<nat, Handle>, s: Records, fh: nat, one: Handle)
    requires HandlesTrue(r, h) && fh !in h && one.node in r && s.Keys == r.Keys
    requires forall x :: x in r ==> s[x].handles == r[x].handles + if x == one.node then 1 else 0
    ensures HandlesTrue(s, h[fh := one])
  {
    hide HandlesOf;
    forall x | x in s ensures s[x].handles == |HandlesOf(h[fh := one], x)| {
      HandlesOfMore(h, fh, one, x);
    }
  }

  lemma HeldRest(t: Table, id: Id, directory: bool)
    requires Shape(t) && id in t.records
    ensures HandlesTrue(Held(t, id, directory).records, Held(t, id, directory).handles)
            && Numbered(Held(t, id, directory))
  {
    hide Rooted, CountsTrue, HandlesTrue, Named;
    HandleAdded(t.records, t.handles, Held(t, id, directory).records, t.nextHandle, Handle(id, directory));
  }

  lemma RaisedShape(t: Table, id: Id)
    requires Shape(t) && id in t.records
    ensures Shape(Raised(t, id))
  {
    hide Shape, HandlesTrue, Numbered;
    RaisedRest(t, id);
    SameTreeShape(t, Raised(t, id));
  }

  lemma RaisedRest(t: Table, id: Id)
    requires Shape(t) && id in t.records
    ensures HandlesTrue(Raised(t, id).records, t.handles) && Numbered(Raised(t, id))
  {
    hide Rooted, CountsTrue, Named;
  }

  // ---------------------------------------------------------------------------
  // FORGET, BATCH_FORGET, RELEASE

  lemma ForgotIsSwept(t: Table, id: Id, count: nat)
    requires Inv(t)
    ensures Forgot(t, id, count) == Swept(Lowered(t, id, count)) && Inv(Forgot(t, id, count))
  {
    hide Shape, Swept, Collected;
    if id in t.records {
      LoweredShape(t, id, count);
      CollectedIsSwept(Lowered(t, id, count), id);
    } else {
      NoDeadIsSwept(t);
    }
  }

  lemma RemovedIsSwept(t: Table, fh: nat)
    requires Inv(t) && fh in t.handles
    ensures Removed(t, fh) == Swept(Dropped(t, fh)) && Inv(Removed(t, fh))
  {
    DroppedShape(t, fh);
    hide Shape, Swept, Collected;
    CollectedIsSwept(Dropped(t, fh), t.handles[fh].node);
  }
}
