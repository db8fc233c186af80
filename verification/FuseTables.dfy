/**
 The node and handle tables of the filesystem device
 (packages/kernel/src/virtio/fs.ts): reference-counted records in a tree,
 collected upwards as soon as nothing holds them.
 */
module FuseTables {
  import opened Wrappers

  type Node = nat
  type Id = nat

  const RootId: Id := 1

  datatype Record = Record(node: Node, parent: Id, lookups: nat, handles: int, children: int)

  datatype Handle = Handle(node: Id, directory: bool)

  datatype Table = Table(
    records: map<Id, Record>, byNode: map<Node, Id>, handles: map<nat, Handle>, nextId: Id, nextHandle: nat)

  datatype Forgotten = Forgotten(id: Id, count: nat)

  function Start(node: Node): Table
  {
    Table(map[RootId := Record(node, RootId, 1, 0, 0)], map[node := RootId], map[], 2, 1)
  }

  // ---------------------------------------------------------------------------
  // The helpers, as steps on the tables

  function Adopted(records: map<Id, Record>, parent: Id, change: int): map<Id, Record>
  {
    if parent in records then records[parent := records[parent].(children := records[parent].children + change)]
    else records
  }

  /** record_for_node: the record a node has, or a new one under its parent. */
  function Recorded(t: Table, node: Node, parent: Id): Table
  {
    if node in t.byNode then t
    else t.(records := Adopted(t.records[t.nextId := Record(node, parent, 0, 0, 0)], parent, 1),
            byNode := t.byNode[node := t.nextId],
            nextId := t.nextId + 1)
  }

  function Unlinked(t: Table, id: Id): Table
    requires id in t.records
  {
    t.(records := Adopted(t.records - {id}, t.records[id].parent, -1),
       byNode := t.byNode - {t.records[id].node})
  }

  /** Nothing holds the record and nothing is under it. */
  predicate Dead(records: map<Id, Record>, id: Id)
  {
    && id in records && id != RootId
    && records[id].lookups == 0 && records[id].handles == 0 && records[id].children == 0
  }

  /** collect_record: drop a dead record, then see to its parent. */
  function Collected(t: Table, id: Id): Table
    decreases t.records.Keys
  {
    if Dead(t.records, id) then
      assert Unlinked(t, id).records.Keys <= t.records.Keys - {id};
      Collected(Unlinked(t, id), t.records[id].parent)
    else t
  }

  function Lowered(t: Table, id: Id, count: nat): Table
  {
    if id in t.records then
      var r := t.records[id];
      t.(records := t.records[id := r.(lookups := if count >= r.lookups then 0 else r.lookups - count)])
    else t
  }

  /** forget. */
  function Forgot(t: Table, id: Id, count: nat): Table
  {
    if id in t.records then Collected(Lowered(t, id, count), id) else t
  }

  function Raised(t: Table, id: Id): Table
    requires id in t.records
  {
    t.(records := t.records[id := t.records[id].(lookups := t.records[id].lookups + 1)])
  }

  /** add_handle: the new handle is t.nextHandle. */
  function Held(t: Table, id: Id, directory: bool): Table
    requires id in t.records
  {
    t.(records := t.records[id := t.records[id].(handles := t.records[id].handles + 1)],
       handles := t.handles[t.nextHandle := Handle(id, directory)],
       nextHandle := t.nextHandle + 1)
  }

  function Dropped(t: Table, fh: nat): Table
    requires fh in t.handles
  {
    var id := t.handles[fh].node;
    var u := t.(handles := t.handles - {fh});
    if id in t.records then u.(records := t.records[id := t.records[id].(handles := t.records[id].handles - 1)]) else u
  }

  /** remove_handle. */
  function Removed(t: Table, fh: nat): Table
    requires fh in t.handles
  {
    Collected(Dropped(t, fh), t.handles[fh].node)
  }

  // ---------------------------------------------------------------------------
  // The requests that change the tables

  function LookedUp(t: Table, node: Node, parent: Id): Table
  {
    var u := Recorded(t, node, parent);
    if u.byNode[node] in u.records then Raised(u, u.byNode[node]) else u
  }

  /** CREATE: the handle follows only if the node's attributes could be read. */
  function Created(t: Table, node: Node, parent: Id, told: bool): Table
  {
    var u := LookedUp(t, node, parent);
    if told && node in u.byNode && u.byNode[node] in u.records then Held(u, u.byNode[node], false) else u
  }

  function BatchForgot(t: Table, entries: seq<Forgotten>): Table
    decreases |entries|
  {
    if entries == [] then t else BatchForgot(Forgot(t, entries[0].id, entries[0].count), entries[1..])
  }

  function Reparented(t: Table, id: Id, parent: Id): Table
    requires id in t.records
  {
    var records := Adopted(t.records, t.records[id].parent, -1);
    t.(records := Adopted(records[id := records[id].(parent := parent)], parent, 1))
  }

  /** RENAME after the filesystem has done it: moved is the node looked up before, if it was. */
  function Renamed(t: Table, moved: Option<Node>, parent: Id): Table
  {
    if moved.None? || moved.value !in t.byNode || t.byNode[moved.value] !in t.records then t
    else
      var id := t.byNode[moved.value];
      var from := t.records[id].parent;
      if from == parent then t else Collected(Reparented(t, id, parent), from)
  }

  function RecordedAll(t: Table, nodes: seq<Node>, parent: Id): Table
  {
    if nodes == [] then t else Recorded(RecordedAll(t, nodes[..|nodes| - 1], parent), nodes[|nodes| - 1], parent)
  }

  function CollectedAll(t: Table, ids: seq<Id>): Table
    decreases |ids|
  {
    if ids == [] then t else CollectedAll(Collected(t, ids[0]), ids[1..])
  }

  function IdsOf(t: Table, nodes: seq<Node>): seq<Id>
    requires forall i :: 0 <= i < |nodes| ==> nodes[i] in t.byNode
  {
    seq(|nodes|, i requires 0 <= i < |nodes| => t.byNode[nodes[i]])
  }

  /** READDIR: every entry gets a record while the reply is built; those nobody holds go again. */
  function Listed(t: Table, nodes: seq<Node>, directory: Id): Table
  {
    RecordedAllHas(t, nodes, directory);
    var u := RecordedAll(t, nodes, directory);
    CollectedAll(u, IdsOf(u, nodes))
  }

  lemma {:induction false} RecordedAllHas(t: Table, nodes: seq<Node>, parent: Id)
    ensures forall n :: n in t.byNode ==>
                          && n in RecordedAll(t, nodes, parent).byNode
                          && RecordedAll(t, nodes, parent).byNode[n] == t.byNode[n]
    ensures forall i :: 0 <= i < |nodes| ==> nodes[i] in RecordedAll(t, nodes, parent).byNode
  {
    if nodes != [] {
      RecordedAllHas(t, nodes[..|nodes| - 1], parent);
    }
  }

  /** DESTROY: every handle from a number on is closed, oldest first. */
  function Finalized(t: Table, fh: nat): Table
    decreases t.nextHandle - fh
  {
    if fh >= t.nextHandle then t
    else
      CollectedKeepsHandles(t, fh);
      Finalized(if fh in t.handles then Removed(t, fh) else t, fh + 1)
  }

  lemma CollectedKeepsHandles(t: Table, fh: nat)
    ensures fh in t.handles ==> Removed(t, fh).nextHandle == t.nextHandle && Removed(t, fh).handles == t.handles - {fh}
  {
    if fh in t.handles { CollectedSame(Dropped(t, fh), t.handles[fh].node); }
  }

  lemma {:induction false} CollectedSame(t: Table, id: Id)
    ensures Collected(t, id).(records := map[], byNode := map[]) == t.(records := map[], byNode := map[])
    decreases t.records.Keys
  {
    if Dead(t.records, id) {
      assert Unlinked(t, id).records.Keys <= t.records.Keys - {id};
      CollectedSame(Unlinked(t, id), t.records[id].parent);
    }
  }

  // ---------------------------------------------------------------------------
  // The program

  class Tables {
    var records: map<Id, Record>
    var byNode: map<Node, Id>
    var handles: map<nat, Handle>
    var nextId: Id
    var nextHandle: nat

    function Now(): Table
      reads this
    {
      Table(records, byNode, handles, nextId, nextHandle)
    }

    constructor (node: Node)
      ensures Now() == Start(node)
    {
      records, byNode, handles := map[RootId := Record(node, RootId, 1, 0, 0)], map[node := RootId], map[];
      nextId, nextHandle := 2, 1;
    }

    method RecordForNode(node: Node, parent: Id) returns (id: Id)
      modifies this
      ensures Now() == Recorded(old(Now()), node, parent)
      ensures node in byNode && id == byNode[node]
    {
      if node in byNode {
        return byNode[node];
      }
      id := nextId;
      nextId := nextId + 1;
      records := records[id := Record(node, parent, 0, 0, 0)];
      byNode := byNode[node := id];
      if parent in records {
        records := records[parent := records[parent].(children := records[parent].children + 1)];
      }
    }

    method CollectRecord(id: Id)
      modifies this
      ensures Now() == Collected(old(Now()), id)
      decreases records.Keys
    {
      if id !in records {
        return;
      }
      var r := records[id];
      if id != RootId && r.lookups == 0 && r.handles == 0 && r.children == 0 {
        records := records - {id};
        byNode := byNode - {r.node};
        if r.parent in records {
          records := records[r.parent := records[r.parent].(children := records[r.parent].children - 1)];
        }
        assert records.Keys <= old(records.Keys) - {id};
        CollectRecord(r.parent);
      }
    }

    method Forget(id: Id, count: nat)
      modifies this
      ensures Now() == Forgot(old(Now()), id, count)
    {
      if id in records {
        var r := records[id];
        records := records[id := r.(lookups := if count >= r.lookups then 0 else r.lookups - count)];
        CollectRecord(id);
      }
    }

    method Lookup(node: Node, parent: Id) returns (id: Id)
      modifies this
      ensures Now() == LookedUp(old(Now()), node, parent)
      ensures node in byNode && id == byNode[node]
    {
      id := RecordForNode(node, parent);
      if id in records {
        records := records[id := records[id].(lookups := records[id].lookups + 1)];
      }
    }

    method AddHandle(id: Id, directory: bool) returns (fh: nat)
      requires id in records
      modifies this
      ensures Now() == Held(old(Now()), id, directory) && fh == old(nextHandle)
    {
      fh := nextHandle;
      nextHandle := nextHandle + 1;
      handles := handles[fh := Handle(id, directory)];
      records := records[id := records[id].(handles := records[id].handles + 1)];
    }

    /** told: getattr gave the node's attributes, which the reply holds before the handle. */
    method Create(node: Node, parent: Id, told: bool) returns (fh: Option<nat>)
      modifies this
      ensures Now() == Created(old(Now()), node, parent, told)
      ensures fh == if told && node in byNode && byNode[node] in records then Some(old(nextHandle)) else None
    {
      var id := Lookup(node, parent);
      if told && id in records {
        var h := AddHandle(id, false);
        return Some(h);
      }
      return None;
    }

    method RemoveHandle(fh: nat)
      requires fh in handles
      modifies this
      ensures Now() == Removed(old(Now()), fh)
    {
      var id := handles[fh].node;
      handles := handles - {fh};
      if id in records {
        records := records[id := records[id].(handles := records[id].handles - 1)];
      }
      CollectRecord(id);
    }

    /** BATCH_FORGET: first the entries whose records exist, then forget each. */
    method BatchForget(entries: seq<Forgotten>)
      modifies this
      ensures Now() == BatchForgot(old(Now()), Known(old(Now()), entries))
    {
      var forgotten: seq<Forgotten> := [];
      for i := 0 to |entries|
        invariant forgotten == Known(Now(), entries[..i]) && Now() == old(Now())
      {
        assert entries[..i + 1][..i] == entries[..i];
        if entries[i].id in records {
          forgotten := forgotten + [entries[i]];
        }
      }
      assert entries[..|entries|] == entries;
      for i := 0 to |forgotten|
        invariant BatchForgot(Now(), forgotten[i..]) == BatchForgot(old(Now()), forgotten)
      {
        assert forgotten[i..][0] == forgotten[i] && forgotten[i..][1..] == forgotten[i + 1..];
        Forget(forgotten[i].id, forgotten[i].count);
      }
    }

    method Rename(moved: Option<Node>, parent: Id)
      modifies this
      ensures Now() == Renamed(old(Now()), moved, parent)
    {
      if moved.None? || moved.value !in byNode || byNode[moved.value] !in records {
        return;
      }
      var id := byNode[moved.value];
      var oldParent := records[id].parent;
      if oldParent != parent {
        if oldParent in records {
          records := records[oldParent := records[oldParent].(children := records[oldParent].children - 1)];
        }
        records := records[id := records[id].(parent := parent)];
        if parent in records {
          records := records[parent := records[parent].(children := records[parent].children + 1)];
        }
        CollectRecord(oldParent);
      }
    }

    /** READDIR's two loops over the entries. */
    method List(nodes: seq<Node>, directory: Id)
      modifies this
      ensures Now() == Listed(old(Now()), nodes, directory)
    {
      var transient: seq<Id> := [];
      for i := 0 to |nodes|
        invariant Now() == RecordedAll(old(Now()), nodes[..i], directory)
        invariant |transient| == i && forall j :: 0 <= j < i ==> nodes[j] in byNode && transient[j] == byNode[nodes[j]]
      {
        assert nodes[..i + 1][..i] == nodes[..i];
        var id := RecordForNode(nodes[i], directory);
        transient := transient + [id];
      }
      assert nodes[..|nodes|] == nodes;
      ghost var all := Now();
      assert transient == IdsOf(all, nodes);
      for i := 0 to |transient|
        invariant CollectedAll(Now(), transient[i..]) == CollectedAll(all, transient)
      {
        assert transient[i..][0] == transient[i] && transient[i..][1..] == transient[i + 1..];
        CollectRecord(transient[i]);
      }
    }

    /** finalize. */
    method Finalize()
      modifies this
      ensures Now() == Finalized(old(Now()), 0)
    {
      var fh := 0;
      while fh < nextHandle
        invariant Finalized(Now(), fh) == Finalized(old(Now()), 0)
        decreases nextHandle - fh
      {
        CollectedKeepsHandles(Now(), fh);
        if fh in handles {
          RemoveHandle(fh);
        }
        fh := fh + 1;
      }
    }
  }

  function Known(t: Table, entries: seq<Forgotten>): seq<Forgotten>
  {
    if entries == [] then []
    else
      var last := entries[|entries| - 1];
      Known(t, entries[..|entries| - 1]) + if last.id in t.records then [last] else []
  }
}
