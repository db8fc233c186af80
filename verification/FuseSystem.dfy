/** The remaining requests of the filesystem device, and every run of requests. */
module FuseSystem {
  import opened Wrappers
  import opened FuseTables
  import opened FuseLive
  import opened FuseRequests
  import opened FuseRuns

  // ---------------------------------------------------------------------------
  // LOOKUP, CREATE, OPEN

  lemma AdoptedFields(r: Records, parent: Id, change: int)
    ensures var s := Adopted(r, parent, change);
            && s.Keys == r.Keys
            && forall x :: x in r ==>
                             Alike(s[x], r[x]) && s[x].children == r[x].children + if x == parent then change else 0
  {
  }

  /** The records after a new one has been put under a parent. */
  lemma NewRecord(t: Table, node: Node, parent: Id)
    requires Shape(t) && node !in t.byNode && parent in t.records
    ensures var r, s, id := t.records, Recorded(t, node, parent).records, t.nextId;
            && id !in r && id != RootId && s.Keys == r.Keys + {id}
            && Alike(s[id], Record(node, parent, 0, 0, 0)) && s[id].children == 0
            && forall x :: x in r ==> Alike(s[x], r[x]) && s[x].children == r[x].children + if x == parent then 1 else 0
  {
    hide Rooted, CountsTrue, HandlesTrue, Named, Adopted;
    AdoptedFields(t.records[t.nextId := Record(node, parent, 0, 0, 0)], parent, 1);
  }

  lemma {:induction false} ChainGrows(r: Records, s: Records, y: Id, x: Id, k: nat)
    requires Chain(r, y, x, k) && forall z :: z in r ==> z in s && s[z].parent == r[z].parent
    ensures Chain(s, y, x, k)
    decreases k
  {
    if k > 0 { ChainGrows(r, s, r[y].parent, x, k - 1); }
  }

  lemma NewRooted(t: Table, node: Node, parent: Id)
    requires Shape(t) && node !in t.byNode && parent in t.records
    ensures Rooted(Recorded(t, node, parent).records)
  {
    NewRecord(t, node, parent);
    RootNotDead(t, 0);
    var r, s, id := t.records, Recorded(t, node, parent).records, t.nextId;
    forall x | x in s ensures HasDepth(s, x) {
      var y := if x == id then parent else x;
      RootedHas(t, y);
      hide Shape, Recorded;
      var k: nat :| Chain(r, y, RootId, k);
      ChainGrows(r, s, y, RootId, k);
      if x == id { assert Chain(s, x, RootId, k + 1); }
    }
  }

  lemma KidsOfGrown(r: Records, s: Records, id: Id, parent: Id, x: Id)
    requires id !in r && id != RootId && s.Keys == r.Keys + {id} && s[id].parent == parent
    requires forall y :: y in r ==> s[y].parent == r[y].parent
    ensures Kids(s, x) == (if x == parent then Kids(r, x) + {id} else Kids(r, x)) && id !in Kids(r, x)
  {
    forall y ensures y in Kids(s, x) <==> y in (if x == parent then Kids(r, x) + {id} else Kids(r, x)) {
      if y in r {
      } else if y == id {
      }
    }
  }

  lemma KidsWith(r: Records, s: Records, id: Id, parent: Id, x: Id)
    requires id !in r && id != RootId && s.Keys == r.Keys + {id} && s[id].parent == parent
    requires forall y :: y in r ==> s[y].parent == r[y].parent
    ensures |Kids(s, x)| == |Kids(r, x)| + if x == parent then 1 else 0
  {
    hide Kids;
    KidsOfGrown(r, s, id, parent, x);
  }

  lemma NewCounts(t: Table, node: Node, parent: Id)
    requires Shape(t) && node !in t.byNode && parent in t.records
    ensures CountsTrue(Recorded(t, node, parent).records)
  {
    hide Rooted, HandlesTrue, Named, Numbered, Recorded, Kids;
    NewRecord(t, node, parent);
    NoKidsOfMissing(t, t.nextId);
    var r, s, id := t.records, Recorded(t, node, parent).records, t.nextId;
    assert |Kids(r, id)| == 0;
    forall x | x in s ensures s[x].children == |Kids(s, x)| {
      KidsWith(r, s, id, parent, x);
    }
  }

  lemma NoKidsOfMissing(t: Table, id: Id)
    requires Shape(t) && id !in t.records
    ensures Kids(t.records, id) == {}
  {
    forall y | y in t.records && y != RootId ensures t.records[y].parent != id {
      ParentPresent(t, y);
    }
  }

  lemma NewHandles(t: Table, node: Node, parent: Id)
    requires Shape(t) && node !in t.byNode && parent in t.records
    ensures HandlesTrue(Recorded(t, node, parent).records, t.handles)
  {
    hide Rooted, CountsTrue, Named, Numbered, Adopted;
    NewRecord(t, node, parent);
    assert HandlesOf(t.handles, t.nextId) == {};
  }

  lemma NamesWith(r: Records, byNode: map<Node, Id>, s: Records, id: Id, node: Node)
    requires Named(r, byNode) && node !in byNode && id !in r && s.Keys == r.Keys + {id} && s[id].node == node
    requires forall x :: x in r ==> s[x].node == r[x].node
    ensures Named(s, byNode[node := id])
    ensures var more := byNode[node := id];
            byNode == map n | n in more && more[n] in r :: more[n]
  {
  }

  lemma NewNames(t: Table, node: Node, parent: Id)
    requires Shape(t) && node !in t.byNode && parent in t.records
    ensures Named(Recorded(t, node, parent).records, Recorded(t, node, parent).byNode)
            && Numbered(Recorded(t, node, parent))
    ensures NamesKept(Recorded(t, node, parent), t.(nextId := Recorded(t, node, parent).nextId))
  {
    hide Rooted, CountsTrue, HandlesTrue, Named, Adopted;
    NewRecord(t, node, parent);
    NamesWith(t.records, t.byNode, Recorded(t, node, parent).records, t.nextId, node);
  }

  lemma RecordedShape(t: Table, node: Node, parent: Id)
    requires Shape(t) && parent in t.records
    ensures var u := Recorded(t, node, parent);
            && Shape(u) && parent in u.records && node in u.byNode && u.byNode[node] in u.records
            && u.handles == t.handles && u.nextHandle == t.nextHandle
  {
    if node !in t.byNode {
      NewRecord(t, node, parent);
      NewRooted(t, node, parent);
      NewCounts(t, node, parent);
      NewHandles(t, node, parent);
      NewNames(t, node, parent);
      hide Rooted, CountsTrue, HandlesTrue, Named, Numbered, Adopted;
    } else {
      NodeHasRecord(t, node);
      hide Shape;
    }
  }

  lemma NodeHasRecord(t: Table, node: Node)
    requires Shape(t) && node in t.byNode
    ensures t.byNode[node] in t.records
  {
    hide Rooted, CountsTrue, HandlesTrue, Numbered;
  }

  lemma RecordedDead(t: Table, node: Node, parent: Id, dead: set<Id>)
    requires Shape(t) && parent in t.records && DeadOnly(t.records, dead)
    ensures DeadOnly(Recorded(t, node, parent).records, dead + {Recorded(t, node, parent).byNode[node]})
  {
    if node !in t.byNode {
      NewRecord(t, node, parent);
      ChildrenNonNegative(t);
      hide Shape, Adopted;
      var r, s := t.records, Recorded(t, node, parent).records;
      forall x | x in s && Dead(s, x) ensures x in dead + {t.nextId} {
        if x in r { assert Dead(r, x); }
      }
    }
  }

  lemma ChildrenNonNegative(t: Table)
    requires Shape(t)
    ensures forall x :: x in t.records ==> t.records[x].children >= 0
  {
    hide Rooted, HandlesTrue, Named, Numbered;
  }

  /** LOOKUP finds or makes the record, and the guest's reference keeps it. */
  lemma LookedUpInv(t: Table, node: Node, parent: Id)
    requires Inv(t) && parent in t.records
    ensures var u := LookedUp(t, node, parent);
            && Inv(u) && node in u.byNode && u.byNode[node] in u.records && u.records[u.byNode[node]].lookups > 0
  {
    hide Shape, Recorded;
    RecordedShape(t, node, parent);
    RecordedDead(t, node, parent, {});
    var u := Recorded(t, node, parent);
    RaisedShape(u, u.byNode[node]);
  }

  lemma HeldInv(t: Table, id: Id, directory: bool)
    requires Inv(t) && id in t.records
    ensures Inv(Held(t, id, directory))
  {
    HeldShape(t, id, directory);
    HandlesNonNegative(t);
    hide Shape;
  }

  lemma HandlesNonNegative(t: Table)
    requires Shape(t)
    ensures forall x :: x in t.records ==> t.records[x].handles >= 0
  {
    hide Rooted, CountsTrue, Named, Numbered;
  }

  lemma CreatedInv(t: Table, node: Node, parent: Id, told: bool)
    requires Inv(t) && parent in t.records
    ensures Inv(Created(t, node, parent, told))
  {
    hide Inv, LookedUp, Held;
    LookedUpInv(t, node, parent);
    var u := LookedUp(t, node, parent);
    HeldInv(u, u.byNode[node], false);
  }

  // ---------------------------------------------------------------------------
  // READDIR

  /** Making a record for nobody and dropping it again is no change but the number used up. */
  lemma RecordedSwept(t: Table, node: Node, parent: Id)
    requires Shape(t) && parent in t.records
    ensures Swept(Recorded(t, node, parent)) == Swept(t).(nextId := Recorded(t, node, parent).nextId)
  {
    if node !in t.byNode {
      var u := Recorded(t, node, parent);
      var w := t.(nextId := u.nextId);
      NewRecord(t, node, parent);
      NewKept(t, node, parent);
      SweptAgree(u, w);
      SweptRenumbered(t, u.nextId);
    }
  }

  lemma SweptRenumbered(t: Table, n: Id)
    ensures Swept(t.(nextId := n)) == Swept(t).(nextId := n)
  {
    hide LiveSet;
  }

  lemma NewKept(t: Table, node: Node, parent: Id)
    requires Shape(t) && node !in t.byNode && parent in t.records
    ensures var u := Recorded(t, node, parent);
            var w := t.(nextId := u.nextId);
            KeepsLive(u.records, w.records) && NamesKept(u, w) && SameRest(u, w)
  {
    hide Shape, Adopted, NamesKept;
    NewRecord(t, node, parent);
    NewNames(t, node, parent);
    RootNotDead(t, 0);
    forall x | x in t.records && x != RootId ensures t.records[x].parent in t.records { ParentPresent(t, x); }
    KeepsBack(t.records, Recorded(t, node, parent).records, t.nextId);
  }

  lemma KeepsBack(r: Records, s: Records, id: Id)
    requires RootId in r && id !in r && s.Keys == r.Keys + {id} && !Pinned(s, id)
    requires forall x :: x in r ==> Alike(s[x], r[x])
    requires forall x :: x in r && x != RootId ==> r[x].parent in r
    ensures KeepsLive(s, r)
  {
  }

  lemma {:induction false} RecordedAllOk(t: Table, nodes: seq<Node>, parent: Id)
    requires Inv(t) && parent in t.records
    ensures var u := RecordedAll(t, nodes, parent);
            && Shape(u) && parent in u.records && Swept(u) == t.(nextId := u.nextId)
            && (forall i :: 0 <= i < |nodes| ==> nodes[i] in u.byNode)
            && DeadOnly(u.records, IdSet(u, nodes))
  {
    hide Shape, Swept, DeadOnly, Recorded;
    RecordedAllHas(t, nodes, parent);
    if nodes == [] {
      NoDeadIsSwept(t);
      assert IdSet(t, nodes) == {};
    } else {
      var n := |nodes| - 1;
      RecordedAllOk(t, nodes[..n], parent);
      var u := RecordedAll(t, nodes[..n], parent);
      var v := Recorded(u, nodes[n], parent);
      RecordedShape(u, nodes[n], parent);
      RecordedSwept(u, nodes[n], parent);
      RecordedDead(u, nodes[n], parent, IdSet(u, nodes[..n]));
      RecordedNames(u, nodes[n], parent);
      assert IdSet(u, nodes[..n]) + {v.byNode[nodes[n]]} <= IdSet(v, nodes);
      DeadOnlyLess(v.records, IdSet(u, nodes[..n]) + {v.byNode[nodes[n]]}, IdSet(v, nodes));
    }
  }

  lemma RecordedNames(t: Table, node: Node, parent: Id)
    ensures forall n :: n in t.byNode ==>
                          n in Recorded(t, node, parent).byNode && Recorded(t, node, parent).byNode[n] == t.byNode[n]
  {
  }

  function IdSet(t: Table, nodes: seq<Node>): set<Id>
  {
    set i | 0 <= i < |nodes| && nodes[i] in t.byNode :: t.byNode[nodes[i]]
  }

  lemma {:induction false} CollectedAllOk(t: Table, ids: seq<Id>)
    requires Shape(t) && DeadOnly(t.records, Elements(ids))
    ensures CollectedAll(t, ids) == Swept(t) && Inv(CollectedAll(t, ids))
    decreases |ids|
  {
    hide Shape, Swept, DeadOnly, Collected;
    if ids == [] {
      assert Elements(ids) == {};
      NoDeadIsSwept(t);
    } else {
      CollectedOk(t, ids[0], Elements(ids));
      assert Elements(ids) - {ids[0]} <= Elements(ids[1..]);
      DeadOnlyLess(Collected(t, ids[0]).records, Elements(ids) - {ids[0]}, Elements(ids[1..]));
      CollectedAllOk(Collected(t, ids[0]), ids[1..]);
    }
  }

  function Elements(ids: seq<Id>): set<Id>
  {
    set i | i in ids
  }

  /** READDIR of any entries leaves the tables as they were, but for the numbers it used. */
  lemma ListingLeavesNothing(t: Table, nodes: seq<Node>, directory: Id)
    requires Inv(t) && directory in t.records
    ensures Listed(t, nodes, directory) == t.(nextId := Listed(t, nodes, directory).nextId)
    ensures Inv(Listed(t, nodes, directory))
  {
    hide Shape, Swept, DeadOnly, RecordedAll, CollectedAll;
    RecordedAllHas(t, nodes, directory);
    RecordedAllOk(t, nodes, directory);
    var u := RecordedAll(t, nodes, directory);
    assert Elements(IdsOf(u, nodes)) == IdSet(u, nodes) by {
      forall x | x in IdSet(u, nodes) ensures x in Elements(IdsOf(u, nodes)) {
        var i :| 0 <= i < |nodes| && nodes[i] in u.byNode && u.byNode[nodes[i]] == x;
        assert IdsOf(u, nodes)[i] == x;
      }
    }
    CollectedAllOk(u, IdsOf(u, nodes));
  }

  // ---------------------------------------------------------------------------
  // DESTROY

  predicate HandlesFrom(t: Table, fh: nat)
  {
    forall h :: h in t.handles ==> fh <= h
  }

  function DroppedRecord(r: Record, count: nat): Record
  {
    r.(handles := r.handles - count)
  }

  lemma DroppedRecords(t: Table, fh: nat)
    requires fh in t.handles
    ensures var d := Dropped(t, fh);
            && d.records.Keys == t.records.Keys && d.byNode == t.byNode && d.nextId == t.nextId
            && d.nextHandle == t.nextHandle
            && d.handles == t.handles - {fh}
            && forall x :: x in t.records ==>
                             d.records[x] == DroppedRecord(t.records[x], if x == t.handles[fh].node then 1 else 0)
  {
  }

  lemma DroppedAlike(a: Record, b: Record, count: nat)
    requires Alike(a, b)
    ensures Alike(DroppedRecord(a, count), DroppedRecord(b, count))
    ensures var d := DroppedRecord(b, count);
            d.node == b.node && d.parent == b.parent && d.children == b.children && d.handles <= b.handles
            && d.lookups == b.lookups
  {
  }

  lemma DroppedIsSameEdit(t: Table, fh: nat)
    requires Shape(t) && fh in t.handles
    ensures fh in Swept(t).handles
    ensures var u, w := Dropped(t, fh), Dropped(Swept(t), fh);
            && Lowers(t, u) && SameEdit(t, u, w) && w.records.Keys == Swept(t).records.Keys
            && w.byNode == Swept(t).byNode
  {
    hide Shape, Live, LiveSet, Swept, KidsAmong, Dropped, DroppedRecord;
    SweptFields(t);
    DroppedRecords(t, fh);
    DroppedRecords(Swept(t), fh);
    forall x | x in t.records
      ensures var r, l := t.records[x], DroppedRecord(t.records[x], if x == t.handles[fh].node then 1 else 0);
              l.node == r.node && l.parent == r.parent && l.children == r.children && l.handles <= r.handles
              && l.lookups == r.lookups
    {
      DroppedAlike(t.records[x], t.records[x], if x == t.handles[fh].node then 1 else 0);
    }
    forall x | x in Swept(t).records
      ensures Alike(DroppedRecord(Swept(t).records[x], if x == t.handles[fh].node then 1 else 0),
                    DroppedRecord(t.records[x], if x == t.handles[fh].node then 1 else 0))
    {
      DroppedAlike(Swept(t).records[x], t.records[x], if x == t.handles[fh].node then 1 else 0);
    }
  }

  lemma RemovedOfSwept(t: Table, fh: nat)
    requires Shape(t) && fh in t.handles
    ensures fh in Swept(t).handles && Removed(Swept(t), fh) == Swept(Dropped(t, fh))
  {
    hide Shape, Live, LiveSet, Swept, Removed, Dropped, DeadOnly, Lowers, SameEdit, SameRest, NamesKept, KidsAmong;
    SweptInv(t);
    SweptFields(t);
    DroppedIsSameEdit(t, fh);
    RemovedIsSwept(Swept(t), fh);
    SweptTwice(t, Dropped(t, fh), Dropped(Swept(t), fh));
  }

  /** The table with no handle left open. */
  function Unheld(t: Table): Table
  {
    t.(records := map x | x in t.records :: t.records[x].(handles := 0), handles := map[])
  }

  lemma UnheldDropped(t: Table, fh: nat)
    requires fh in t.handles
    ensures Unheld(Dropped(t, fh)) == Unheld(t)
  {
    assert Unheld(Dropped(t, fh)).records == Unheld(t).records;
  }

  lemma UnheldNone(t: Table)
    requires Shape(t) && t.handles == map[]
    ensures Unheld(t) == t
  {
    forall x | x in t.records ensures t.records[x].handles == 0 {
      assert HandlesOf(t.handles, x) == {};
    }
    assert Unheld(t).records == t.records;
  }

  lemma {:induction false} FinalizedFrom(t: Table, fh: nat)
    requires Shape(t) && HandlesFrom(t, fh)
    ensures Finalized(Swept(t), fh) == Swept(Unheld(t))
    decreases t.nextHandle - fh
  {
    SweptFields(t);
    hide Shape, Swept, Removed, Dropped, Live, LiveSet, KidsAmong, Unheld;
    if fh >= t.nextHandle {
      NoHandles(t, fh);
      UnheldNone(t);
    } else if fh in t.handles {
      RemovedOfSwept(t, fh);
      DroppedShape(t, fh);
      UnheldDropped(t, fh);
      DroppedHandles(t, fh);
      FinalizedFrom(Dropped(t, fh), fh + 1);
    } else {
      FinalizedFrom(t, fh + 1);
    }
  }

  lemma DroppedHandles(t: Table, fh: nat)
    requires fh in t.handles && HandlesFrom(t, fh)
    ensures HandlesFrom(Dropped(t, fh), fh + 1) && Dropped(t, fh).nextHandle == t.nextHandle
  {
  }

  lemma NoHandles(t: Table, fh: nat)
    requires Shape(t) && HandlesFrom(t, fh) && fh >= t.nextHandle
    ensures t.handles == map[]
  {
    hide Rooted, CountsTrue, HandlesTrue, Named;
    assert forall h :: h !in t.handles;
  }

  /** DESTROY closes every handle, and keeps just what lookups still need. */
  lemma DestroyIsSwept(t: Table)
    requires Inv(t)
    ensures Finalized(t, 0) == Swept(Unheld(t)) && Inv(Finalized(t, 0)) && Finalized(t, 0).handles == map[]
  {
    hide Shape, Swept, Finalized, DeadOnly;
    NoDeadIsSwept(t);
    FinalizedFrom(t, 0);
    UnheldShape(t);
    SweptInv(Unheld(t));
    SweptFields(Unheld(t));
  }

  lemma UnheldShape(t: Table)
    requires Shape(t)
    ensures Shape(Unheld(t))
  {
    UnheldRest(t);
    hide Shape, HandlesTrue, Numbered;
    SameTreeShape(t, Unheld(t));
  }

  lemma UnheldRest(t: Table)
    requires Shape(t)
    ensures HandlesTrue(Unheld(t).records, Unheld(t).handles) && Numbered(Unheld(t))
            && SameTree(t.records, Unheld(t).records)
  {
    hide Rooted, CountsTrue, Named;
    forall x | x in t.records ensures HandlesOf(Unheld(t).handles, x) == {} {
    }
  }

  // ---------------------------------------------------------------------------
  // RENAME

  /** Moving a record under another keeps the tree as long as the record is not above its new parent. */
  ghost predicate MayMove(r: Records, id: Id, parent: Id)
  {
    id in r && parent in r && forall k: nat :: !Chain(r, parent, id, k)
  }

  lemma MovedFields(t: Table, id: Id, parent: Id)
    requires Shape(t) && MayMove(t.records, id, parent) && t.records[id].parent != parent
    ensures var r, s, from := t.records, Reparented(t, id, parent).records, t.records[id].parent;
            && s.Keys == r.Keys && id != RootId && id != parent && from in r && from != id
            && s[id].parent == parent
            && (forall x :: x in r && x != id ==> s[x].parent == r[x].parent)
            && (forall x :: x in r ==>
                              s[x].node == r[x].node && s[x].lookups == r[x].lookups && s[x].handles == r[x].handles)
            && (forall x :: x in r ==>
                              s[x].children
                              == r[x].children + (if x == from then -1 else 0) + (if x == parent then 1 else 0))
  {
    MovableIsNotRoot(t, id, parent);
    ParentPresent(t, id);
    NotOwnParent(t, id);
    hide Shape, MayMove, Adopted;
    MovedRecords(t.records, id, parent);
  }

  lemma MovedRecords(r: Records, id: Id, parent: Id)
    requires id in r && id != parent && r[id].parent != id
    ensures var from := r[id].parent;
            var one := Adopted(r, from, -1);
            id in one &&
            var s := Adopted(one[id := one[id].(parent := parent)], parent, 1);
            && s.Keys == r.Keys
            && s[id].parent == parent
            && (forall x :: x in r && x != id ==> s[x].parent == r[x].parent)
            && (forall x :: x in r ==>
                              s[x].node == r[x].node && s[x].lookups == r[x].lookups && s[x].handles == r[x].handles)
            && (forall x :: x in r ==>
                              s[x].children
                              == r[x].children + (if x == from then -1 else 0) + (if x == parent then 1 else 0))
  {
    hide Adopted;
    var from := r[id].parent;
    var one := Adopted(r, from, -1);
    AdoptedFields(r, from, -1);
    var two := one[id := one[id].(parent := parent)];
    AdoptedFields(two, parent, 1);
  }

  lemma MovableIsNotRoot(t: Table, id: Id, parent: Id)
    requires Shape(t) && MayMove(t.records, id, parent)
    ensures id != RootId && id != parent
  {
    RootedHas(t, parent);
    hide Shape;
    var k: nat :| Chain(t.records, parent, RootId, k);
    assert Chain(t.records, parent, parent, 0);
  }

  lemma NotOwnParent(t: Table, id: Id)
    requires Shape(t) && id in t.records && id != RootId
    ensures t.records[id].parent != id
  {
    RootedHas(t, id);
    hide Shape;
    var r := t.records;
    var k: nat :| Chain(r, id, RootId, k);
    assert Chain(r, r[id].parent, RootId, k - 1);
    if r[id].parent == id { DepthUnique(r, id, k - 1, k); }
  }

  predicate Moved(r: Records, s: Records, id: Id, parent: Id)
  {
    && s.Keys == r.Keys && id in r && id != RootId && s[id].parent == parent
    && forall x :: x in r && x != id ==> s[x].parent == r[x].parent
  }

  /** A chain that never meets the moved record is unchanged. */
  lemma {:induction false} ChainAvoids(r: Records, s: Records, id: Id, parent: Id, y: Id, k: nat)
    requires Moved(r, s, id, parent) && Chain(r, y, RootId, k) && forall j: nat :: !Chain(r, y, id, j)
    ensures Chain(s, y, RootId, k)
    decreases k
  {
    if k > 0 {
      assert !Chain(r, y, id, 0);
      forall j: nat ensures !Chain(r, r[y].parent, id, j) {
        assert !Chain(r, y, id, j + 1);
      }
      ChainAvoids(r, s, id, parent, r[y].parent, k - 1);
    }
  }

  lemma {:induction false} MovedDepth(r: Records, s: Records, id: Id, parent: Id, m: nat, x: Id, k: nat)
    requires Moved(r, s, id, parent) && Chain(s, parent, RootId, m) && Chain(r, x, RootId, k)
    ensures HasDepth(s, x)
    decreases k
  {
    if x == id {
      assert Chain(s, id, RootId, m + 1);
    } else if k == 0 {
      assert Chain(s, x, RootId, 0);
    } else {
      MovedDepth(r, s, id, parent, m, r[x].parent, k - 1);
      var j: nat :| Chain(s, r[x].parent, RootId, j);
      assert Chain(s, x, RootId, j + 1);
    }
  }

  lemma MovedRooted(t: Table, id: Id, parent: Id)
    requires Shape(t) && MayMove(t.records, id, parent) && t.records[id].parent != parent
    ensures Rooted(Reparented(t, id, parent).records)
  {
    MovedFields(t, id, parent);
    RootNotDead(t, 0);
    var r, s := t.records, Reparented(t, id, parent).records;
    RootedHas(t, parent);
    var m: nat :| Chain(r, parent, RootId, m);
    ChainAvoids(r, s, id, parent, parent, m);
    forall x | x in s ensures HasDepth(s, x) {
      RootedHas(t, x);
      hide Shape, Reparented;
      var k: nat :| Chain(r, x, RootId, k);
      MovedDepth(r, s, id, parent, m, x, k);
    }
  }

  lemma MovedKids(r: Records, s: Records, id: Id, parent: Id, x: Id)
    requires Moved(r, s, id, parent) && r[id].parent != parent
    ensures |Kids(s, x)| == |Kids(r, x)| + (if x == r[id].parent then -1 else 0) + (if x == parent then 1 else 0)
  {
    if x == r[id].parent {
      assert Kids(s, x) == Kids(r, x) - {id};
      assert id in Kids(r, x);
    } else if x == parent {
      assert Kids(s, x) == Kids(r, x) + {id};
      assert id !in Kids(r, x);
    } else {
      assert Kids(s, x) == Kids(r, x);
    }
  }

  lemma MovedCounts(t: Table, id: Id, parent: Id)
    requires Shape(t) && MayMove(t.records, id, parent) && t.records[id].parent != parent
    ensures CountsTrue(Reparented(t, id, parent).records)
  {
    hide Rooted, HandlesTrue, Named, Numbered, Reparented, Kids;
    MovedFields(t, id, parent);
    var r, s := t.records, Reparented(t, id, parent).records;
    forall x | x in s ensures s[x].children == |Kids(s, x)| {
      MovedKids(r, s, id, parent, x);
    }
  }

  lemma MovedRest(t: Table, id: Id, parent: Id)
    requires Shape(t) && MayMove(t.records, id, parent) && t.records[id].parent != parent
    ensures var u := Reparented(t, id, parent);
            HandlesTrue(u.records, u.handles) && Named(u.records, u.byNode) && Numbered(u)
  {
    hide Rooted, CountsTrue, Adopted, MayMove, HandlesOf;
    MovedFields(t, id, parent);
  }

  lemma MovedDead(t: Table, id: Id, parent: Id)
    requires Inv(t) && MayMove(t.records, id, parent) && t.records[id].parent != parent
    ensures DeadOnly(Reparented(t, id, parent).records, {t.records[id].parent})
  {
    MovedFields(t, id, parent);
    ChildrenNonNegative(t);
    hide Shape, Reparented, MayMove;
    var r, s, from := t.records, Reparented(t, id, parent).records, t.records[id].parent;
    forall x | x in s && x != from ensures !Dead(s, x) {
      assert !Dead(r, x);
    }
  }

  /** RENAME moves one record, and sweeps what its old parent was kept for. */
  lemma RenamedIsSwept(t: Table, id: Id, parent: Id)
    requires Inv(t) && MayMove(t.records, id, parent) && t.records[id].parent != parent
    ensures Renamed(t, Some(t.records[id].node), parent) == Swept(Reparented(t, id, parent))
    ensures Inv(Renamed(t, Some(t.records[id].node), parent))
  {
    hide Rooted, CountsTrue, HandlesTrue, Named, Numbered, Swept, Collected, DeadOnly, Reparented;
    MovedRooted(t, id, parent);
    MovedCounts(t, id, parent);
    MovedRest(t, id, parent);
    MovedDead(t, id, parent);
    NameOf(t, id);
    CollectedIsSwept(Reparented(t, id, parent), t.records[id].parent);
  }

  lemma NameOf(t: Table, id: Id)
    requires Shape(t) && id in t.records
    ensures t.records[id].node in t.byNode && t.byNode[t.records[id].node] == id
  {
    hide Rooted, CountsTrue, HandlesTrue, Numbered;
  }

  // ---------------------------------------------------------------------------
  // Runs

  /**
   LOOKUP stands for MKDIR and SYMLINK too. Once its record is raised the reply
   asks for the node's attributes; told says whether it got them. of is the
   request's own nodeid, if it has one.
   */
  datatype Request =
    | Lookup(node: Node, parent: Id, told: bool)
    | Create(node: Node, parent: Id, told: bool)
    | Open(id: Id, directory: bool)
    | Release(fh: nat, of: Option<Id>, directory: bool)
    | Forget(id: Id, count: nat)
    | BatchForget(entries: seq<Forgotten>)
    | Rename(moved: Option<Node>, parent: Id)
    | Readdir(nodes: seq<Node>, at: Id)
    | Destroy

  /** handle_record: the handle is open, of that kind, and of that record if one is named. */
  predicate IsOpen(t: Table, fh: nat, of: Option<Id>, directory: bool)
  {
    && fh in t.handles && t.handles[fh].directory == directory
    && (of.Some? ==> of.value in t.records && t.handles[fh].node == of.value)
  }

  /** A request naming a record that does not exist fails with ENOENT, a handle that is not open with EBADF. */
  function Apply(t: Table, q: Request): Table
  {
    match q
    case Lookup(node, parent, _) => if parent in t.records then LookedUp(t, node, parent) else t
    case Create(node, parent, told) => if parent in t.records then Created(t, node, parent, told) else t
    case Open(id, directory) => if id in t.records then Held(t, id, directory) else t
    case Release(fh, of, directory) => if IsOpen(t, fh, of, directory) then Removed(t, fh) else t
    case Forget(id, count) => Forgot(t, id, count)
    case BatchForget(entries) => BatchForgot(t, Known(t, entries))
    case Rename(moved, parent) => if parent in t.records then Renamed(t, moved, parent) else t
    case Readdir(nodes, directory) => if directory in t.records then Listed(t, nodes, directory) else t
    case Destroy => Finalized(t, 0)
  }

  /** A filesystem refuses to move a directory under itself. */
  ghost predicate Honest(t: Table, q: Request)
  {
    q.Rename? && q.moved.Some? && q.moved.value in t.byNode && q.parent in t.records ==>
      MayMove(t.records, t.byNode[q.moved.value], q.parent)
  }

  lemma ApplyKeeps(t: Table, q: Request)
    requires Inv(t) && Honest(t, q)
    ensures Inv(Apply(t, q))
  {
    hide Inv, LookedUp, Created, Held, Removed, Forgot, BatchForgot, Listed, Finalized, MayMove, Swept;
    match q
    case Lookup(node, parent, _) => if parent in t.records { LookedUpInv(t, node, parent); }
    case Create(node, parent, told) => if parent in t.records { CreatedInv(t, node, parent, told); }
    case Open(id, directory) => if id in t.records { HeldInv(t, id, directory); }
    case Release(fh, of, directory) => if IsOpen(t, fh, of, directory) { RemovedIsSwept(t, fh); }
    case Forget(id, count) => ForgotIsSwept(t, id, count);
    case BatchForget(entries) => BatchIsSwept(t, entries);
    case Rename(moved, parent) =>
      if moved.Some? && moved.value in t.byNode && parent in t.records {
        var id := t.byNode[moved.value];
        NodeOfName(t, moved.value);
        if t.records[id].parent != parent { RenamedIsSwept(t, id, parent); }
      }
    case Readdir(nodes, directory) => if directory in t.records { ListingLeavesNothing(t, nodes, directory); }
    case Destroy => DestroyIsSwept(t);
  }

  lemma NodeOfName(t: Table, node: Node)
    requires Inv(t) && node in t.byNode
    ensures t.byNode[node] in t.records && t.records[t.byNode[node]].node == node
  {
    hide Rooted, CountsTrue, HandlesTrue, Numbered, DeadOnly;
  }

  ghost predicate Run(t: Table, requests: seq<Request>)
    decreases |requests|
  {
    requests == [] || (Honest(t, requests[0]) && Run(Apply(t, requests[0]), requests[1..]))
  }

  function After(t: Table, requests: seq<Request>): Table
    decreases |requests|
  {
    if requests == [] then t else After(Apply(t, requests[0]), requests[1..])
  }

  lemma {:induction false} RunKeeps(t: Table, requests: seq<Request>)
    requires Inv(t) && Run(t, requests)
    ensures Inv(After(t, requests))
    decreases |requests|
  {
    hide Inv, Apply, Honest;
    if requests != [] {
      ApplyKeeps(t, requests[0]);
      RunKeeps(Apply(t, requests[0]), requests[1..]);
    }
  }

  lemma StartInv(node: Node)
    ensures Inv(Start(node))
  {
    var t := Start(node);
    assert Chain(t.records, RootId, RootId, 0);
    assert Kids(t.records, RootId) == {};
    assert HandlesOf(t.handles, RootId) == {};
  }

  /**
   After any requests: the table holds exactly the root and the records that
   have lookups or open handles, or have such a record under them; the counts
   of children and handles are true; and every record is under the root.
   */
  lemma TablesHoldExactlyTheLive(node: Node, requests: seq<Request>)
    requires Run(Start(node), requests)
    ensures var t := After(Start(node), requests);
            && t.records.Keys == LiveSet(t.records)
            && Rooted(t.records) && CountsTrue(t.records) && HandlesTrue(t.records, t.handles)
            && Named(t.records, t.byNode)
  {
    StartInv(node);
    RunKeeps(Start(node), requests);
    AllLive(After(Start(node), requests));
    hide Rooted, CountsTrue, HandlesTrue, Named, Numbered, LiveSet, DeadOnly, Run, After;
  }
}
