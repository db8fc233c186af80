/**
 The filesystem device as the guest sees it. Beside each run stands the guest's
 own account: the entries it was told of, the lookups it owes for them, and the
 handles it holds open. The device's counts are that account, whatever was asked.
 */
module FuseGuest {
  import opened Wrappers
  import opened FuseTables
  import opened FuseLive
  import opened FuseRequests
  import opened FuseRuns
  import opened FuseSystem

  /**
   refs: the lookups of each id the guest was told of and has not given back.
   untold: those it was never told of, as their reply turned into an error.
   names: the node each id was first told for.
   */
  datatype Account = Account(
    refs: map<Id, nat>, untold: map<Id, nat>, names: map<Id, Node>, handles: map<nat, Handle>)

  function Opening(node: Node): Account
  {
    Account(map[RootId := 1], map[], map[RootId := node], map[])
  }

  function Count(m: map<Id, nat>, id: Id): nat
  {
    if id in m then m[id] else 0
  }

  function OneMore(m: map<Id, nat>, id: Id): map<Id, nat>
  {
    m[id := Count(m, id) + 1]
  }

  /** The nodeid an entry for a node answers. */
  function EntryId(t: Table, node: Node): Id
  {
    if node in t.byNode then t.byNode[node] else 0
  }

  /** A guest gives back no more lookups than it was given. */
  ghost predicate Fair(a: Account, q: Request)
  {
    && (q.Forget? ==> q.count <= Count(a.refs, q.id))
    && (q.BatchForget? ==> forall x :: Total(q.entries, x) <= Count(a.refs, x))
  }

  function Entered(a: Account, id: Id, node: Node, told: bool): Account
  {
    if !told then a.(untold := OneMore(a.untold, id))
    else a.(refs := OneMore(a.refs, id), names := if id in a.names then a.names else a.names[id := node])
  }

  /** What the guest notes of a request and its reply, which left the device at u. */
  ghost function Noted(a: Account, t: Table, q: Request, u: Table): Account
    requires Fair(a, q)
  {
    match q
    case Lookup(node, parent, told) =>
      if parent in t.records then Entered(a, EntryId(u, node), node, told) else a
    case Create(node, parent, told) =>
      if parent !in t.records then a
      else
        var b := Entered(a, EntryId(u, node), node, told);
        if told then b.(handles := b.handles[t.nextHandle := Handle(EntryId(u, node), false)]) else b
    case Open(id, directory) =>
      if id in t.records then a.(handles := a.handles[t.nextHandle := Handle(id, directory)]) else a
    case Release(fh, of, directory) =>
      if fh in a.handles && a.handles[fh].directory == directory && (of.Some? ==> a.handles[fh].node == of.value)
      then a.(handles := a.handles - {fh}) else a
    case Forget(id, count) => a.(refs := a.refs[id := Count(a.refs, id) - count])
    case BatchForget(entries) => a.(refs := map x | x in a.refs :: GivenBack(a, q, x))
    case Rename(_, _) => a
    case Readdir(_, _) => a
    case Destroy => a.(handles := map[])
  }

  ghost function GivenBack(a: Account, q: Request, x: Id): nat
    requires Fair(a, q) && q.BatchForget?
  {
    assert Total(q.entries, x) <= Count(a.refs, x);
    Count(a.refs, x) - Total(q.entries, x)
  }

  // ---------------------------------------------------------------------------
  // What holds between the tables and the account

  /** The lookups of every record are those the guest owes, or was never told of; nothing owed is missing. */
  predicate CountsAgree(r: Records, refs: map<Id, nat>, untold: map<Id, nat>)
  {
    && (forall x :: x in r ==> r[x].lookups == Count(refs, x) + Count(untold, x))
    && (forall x :: x in refs && refs[x] > 0 ==> x in r)
    && (forall x :: x in untold && untold[x] > 0 ==> x in r)
  }

  /** Every id the guest has a lookup of has a name, and an id once told names no other node. */
  predicate NamesAgree(r: Records, nextId: Id, refs: map<Id, nat>, names: map<Id, Node>)
  {
    && (forall x :: x in refs && refs[x] > 0 ==> x in names)
    && (forall x :: x in names ==> x < nextId)
    && (forall x :: x in names && x in r ==> r[x].node == names[x])
  }

  predicate Agrees(t: Table, a: Account)
  {
    && CountsAgree(t.records, a.refs, a.untold)
    && NamesAgree(t.records, t.nextId, a.refs, a.names)
    && t.handles == a.handles
  }

  /** A step that changes no lookups and no names, and drops at most what nobody looked up. */
  predicate Keeps(t: Table, u: Table)
  {
    && t.nextId <= u.nextId
    && (forall x :: x in u.records ==>
                      && x in t.records
                      && u.records[x].node == t.records[x].node && u.records[x].lookups == t.records[x].lookups)
    && forall x :: x in t.records && t.records[x].lookups > 0 ==> x in u.records
  }

  lemma KeepsAgrees(t: Table, u: Table, a: Account)
    requires Agrees(t, a) && Keeps(t, u) && u.handles == t.handles
    ensures Agrees(u, a)
  {
    forall x | x in a.refs && a.refs[x] > 0 ensures x in u.records {
      assert t.records[x].lookups > 0;
    }
    forall x | x in a.untold && a.untold[x] > 0 ensures x in u.records {
      assert t.records[x].lookups > 0;
    }
  }

  lemma SweptKeepsLookups(t: Table)
    ensures Keeps(t, Swept(t)) && Swept(t).handles == t.handles
  {
    SweptFields(t);
    hide Swept, Live, KidsAmong;
    forall x | x in t.records && t.records[x].lookups > 0 ensures x in Swept(t).records {
      PinnedIsLive(t.records, x);
    }
  }

  lemma SweptAgrees(t: Table, a: Account)
    requires Agrees(t, a)
    ensures Agrees(Swept(t), a)
  {
    SweptKeepsLookups(t);
    hide Swept, Agrees;
    KeepsAgrees(t, Swept(t), a);
  }

  // ---------------------------------------------------------------------------
  // Entries

  /** What LOOKUP leaves: one more lookup on the node's record, which may be new. */
  predicate OneEntered(t: Table, u: Table, id: Id, node: Node)
  {
    && id in u.records && u.records[id].node == node && u.records.Keys == t.records.Keys + {id}
    && u.records[id].lookups == (if id in t.records then t.records[id].lookups else 0) + 1
    && (id !in t.records ==> id == t.nextId)
    && t.nextId <= u.nextId && id < u.nextId
    && (forall x :: x in t.records && x != id ==>
                      u.records[x].node == t.records[x].node && u.records[x].lookups == t.records[x].lookups)
    && (id in t.records ==> t.records[id].node == node)
  }

  /** The record a lookup raises: one the node has, or a new one nobody has looked up. */
  lemma RecordedEnters(t: Table, node: Node, parent: Id)
    requires Inv(t) && parent in t.records
    ensures var u := Recorded(t, node, parent);
            && node in u.byNode
            && var id := u.byNode[node];
            && u.records.Keys == t.records.Keys + {id} && u.records[id].node == node
            && (id !in t.records ==> id == t.nextId && u.records[id].lookups == 0)
            && t.nextId <= u.nextId && id < u.nextId
            && (forall x :: x in t.records ==>
                              u.records[x].node == t.records[x].node && u.records[x].lookups == t.records[x].lookups)
            && u.handles == t.handles && u.nextHandle == t.nextHandle
  {
    NumbersBound(t);
    if node in t.byNode {
      NodeOfName(t, node);
    } else {
      InvShape(t);
      NewRecord(t, node, parent);
    }
    hide Inv, Shape, Adopted;
  }

  lemma InvShape(t: Table)
    requires Inv(t)
    ensures Shape(t)
  {
    hide Shape, DeadOnly;
  }

  lemma LookedUpEnters(t: Table, node: Node, parent: Id)
    requires Inv(t) && parent in t.records
    ensures var u := LookedUp(t, node, parent);
            OneEntered(t, u, EntryId(u, node), node) && u.handles == t.handles && u.nextHandle == t.nextHandle
  {
    hide Inv, Recorded;
    RecordedEnters(t, node, parent);
  }

  lemma NumbersBound(t: Table)
    requires Inv(t)
    ensures forall x :: x in t.records ==> x < t.nextId
  {
    hide Rooted, CountsTrue, HandlesTrue, Named, DeadOnly;
  }

  lemma EnteredAgrees(t: Table, u: Table, a: Account, id: Id, node: Node, told: bool)
    requires Agrees(t, a) && OneEntered(t, u, id, node) && u.handles == t.handles
    ensures Agrees(u, Entered(a, id, node, told))
  {
    if id !in t.records {
      assert Count(a.refs, id) == 0 && Count(a.untold, id) == 0;
    }
    var b := Entered(a, id, node, told);
    EnteredCounts(t, u, a, id, node, told);
    EnteredNames(t, u, a, id, node, told);
  }

  lemma EnteredCounts(t: Table, u: Table, a: Account, id: Id, node: Node, told: bool)
    requires CountsAgree(t.records, a.refs, a.untold) && OneEntered(t, u, id, node)
    requires id !in t.records ==> Count(a.refs, id) == 0 && Count(a.untold, id) == 0
    ensures CountsAgree(u.records, Entered(a, id, node, told).refs, Entered(a, id, node, told).untold)
  {
  }

  lemma EnteredNames(t: Table, u: Table, a: Account, id: Id, node: Node, told: bool)
    requires NamesAgree(t.records, t.nextId, a.refs, a.names) && OneEntered(t, u, id, node)
    ensures NamesAgree(u.records, u.nextId, Entered(a, id, node, told).refs, Entered(a, id, node, told).names)
  {
  }

  lemma HeldAgrees(t: Table, a: Account, id: Id, directory: bool)
    requires Agrees(t, a) && id in t.records
    ensures Agrees(Held(t, id, directory), a.(handles := a.handles[t.nextHandle := Handle(id, directory)]))
  {
    var u := Held(t, id, directory);
    assert CountsAgree(u.records, a.refs, a.untold);
    assert NamesAgree(u.records, u.nextId, a.refs, a.names);
  }

  lemma LookupAgrees(t: Table, a: Account, node: Node, parent: Id, told: bool)
    requires Inv(t) && Agrees(t, a) && parent in t.records
    ensures var u := LookedUp(t, node, parent); Agrees(u, Entered(a, EntryId(u, node), node, told))
  {
    hide Inv, Agrees, LookedUp, Entered, EntryId, OneEntered;
    LookedUpEnters(t, node, parent);
    var u := LookedUp(t, node, parent);
    EnteredAgrees(t, u, a, EntryId(u, node), node, told);
  }

  lemma CreateAgrees(t: Table, a: Account, node: Node, parent: Id, told: bool)
    requires Inv(t) && Agrees(t, a) && parent in t.records
    ensures var q, u := Create(node, parent, told), Created(t, node, parent, told); Agrees(u, Noted(a, t, q, u))
  {
    hide Inv, Agrees, LookedUp, Entered, OneEntered;
    LookedUpInv(t, node, parent);
    LookedUpEnters(t, node, parent);
    LookupAgrees(t, a, node, parent, told);
    var u := LookedUp(t, node, parent);
    var id := EntryId(u, node);
    if told {
      HeldAgrees(u, Entered(a, id, node, told), id, false);
    }
  }

  // ---------------------------------------------------------------------------
  // Lookups given back

  lemma ForgetAgrees(t: Table, a: Account, id: Id, count: nat)
    requires Inv(t) && Agrees(t, a) && count <= Count(a.refs, id)
    ensures Agrees(Forgot(t, id, count), a.(refs := a.refs[id := Count(a.refs, id) - count]))
  {
    ForgotIsSwept(t, id, count);
    LoweredAgrees(t, a, id, count);
    hide Inv, Agrees, Swept, Lowered, Forgot;
    SweptAgrees(Lowered(t, id, count), a.(refs := a.refs[id := Count(a.refs, id) - count]));
  }

  lemma LessOwed(t: Table, u: Table, a: Account, refs: map<Id, nat>)
    requires Agrees(t, a) && u.records.Keys == t.records.Keys && u.handles == t.handles && u.nextId == t.nextId
    requires forall x :: Count(refs, x) <= Count(a.refs, x)
    requires forall x :: x in t.records ==>
                           && u.records[x].node == t.records[x].node
                           && t.records[x].lookups - u.records[x].lookups == Count(a.refs, x) - Count(refs, x)
    ensures Agrees(u, a.(refs := refs))
  {
    forall x | x in refs && refs[x] > 0 ensures x in t.records && x in a.names {
      assert Count(refs, x) <= Count(a.refs, x);
    }
  }

  lemma LoweredAgrees(t: Table, a: Account, id: Id, count: nat)
    requires Agrees(t, a) && count <= Count(a.refs, id)
    ensures Agrees(Lowered(t, id, count), a.(refs := a.refs[id := Count(a.refs, id) - count]))
  {
    hide Lowered, NamesAgree;
    LoweredRecords(t, id, count);
    LessOwed(t, Lowered(t, id, count), a, a.refs[id := Count(a.refs, id) - count]);
  }

  lemma BatchAgrees(t: Table, a: Account, entries: seq<Forgotten>)
    requires Inv(t) && Agrees(t, a) && Fair(a, BatchForget(entries))
    ensures var q, u := BatchForget(entries), BatchForgot(t, Known(t, entries)); Agrees(u, Noted(a, t, q, u))
  {
    hide Inv, Agrees, Swept, LoweredBy, BatchForgot, Known, Total;
    BatchIsSwept(t, entries);
    LoweredByAgrees(t, a, entries);
    var q, u := BatchForget(entries), BatchForgot(t, Known(t, entries));
    var b := Noted(a, t, q, u);
    SweptAgrees(LoweredBy(t, x => Total(entries, x)), b);
  }

  lemma LoweredByAgrees(t: Table, a: Account, entries: seq<Forgotten>)
    requires Agrees(t, a) && Fair(a, BatchForget(entries))
    ensures Agrees(LoweredBy(t, x => Total(entries, x)), Noted(a, t, BatchForget(entries), t))
  {
    hide Total, NamesAgree;
    var u, b := LoweredBy(t, x => Total(entries, x)), Noted(a, t, BatchForget(entries), t);
    forall x ensures Count(b.refs, x) + Total(entries, x) == Count(a.refs, x) {
      assert Total(entries, x) <= Count(a.refs, x);
    }
    LessOwed(t, u, a, b.refs);
  }

  // ---------------------------------------------------------------------------
  // Handles, names, listings

  lemma ReleaseAgrees(t: Table, a: Account, fh: nat)
    requires Inv(t) && Agrees(t, a) && fh in t.handles
    ensures Agrees(Removed(t, fh), a.(handles := a.handles - {fh}))
  {
    hide Inv, Swept, Dropped, Removed, Agrees;
    RemovedIsSwept(t, fh);
    DroppedAgrees(t, a, fh);
    SweptAgrees(Dropped(t, fh), a.(handles := a.handles - {fh}));
  }

  lemma DroppedAgrees(t: Table, a: Account, fh: nat)
    requires Agrees(t, a) && fh in t.handles
    ensures Agrees(Dropped(t, fh), a.(handles := a.handles - {fh}))
  {
    hide Dropped, Count;
    DroppedRecords(t, fh);
  }

  lemma RenameAgrees(t: Table, a: Account, id: Id, parent: Id)
    requires Inv(t) && Agrees(t, a) && MayMove(t.records, id, parent) && t.records[id].parent != parent
    ensures Agrees(Renamed(t, Some(t.records[id].node), parent), a)
  {
    hide Inv, Swept, Reparented, Renamed, Agrees, Keeps;
    RenamedIsSwept(t, id, parent);
    ReparentedKeeps(t, id, parent);
    KeepsAgrees(t, Reparented(t, id, parent), a);
    SweptAgrees(Reparented(t, id, parent), a);
  }

  lemma ReparentedKeeps(t: Table, id: Id, parent: Id)
    requires Inv(t) && MayMove(t.records, id, parent) && t.records[id].parent != parent
    ensures Keeps(t, Reparented(t, id, parent)) && Reparented(t, id, parent).handles == t.handles
  {
    InvShape(t);
    hide Inv, Reparented, MayMove;
    MovedFields(t, id, parent);
    ReparentedRest(t, id, parent);
  }

  lemma ReparentedRest(t: Table, id: Id, parent: Id)
    requires id in t.records
    ensures var u := Reparented(t, id, parent);
            u.handles == t.handles && u.nextId == t.nextId && u.byNode == t.byNode && u.nextHandle == t.nextHandle
  {
  }

  lemma {:induction false} RecordedAllNumbers(t: Table, nodes: seq<Node>, parent: Id)
    ensures t.nextId <= RecordedAll(t, nodes, parent).nextId
  {
    if nodes != [] { RecordedAllNumbers(t, nodes[..|nodes| - 1], parent); }
  }

  lemma {:induction false} CollectedAllNumbers(t: Table, ids: seq<Id>)
    ensures CollectedAll(t, ids).nextId == t.nextId
    decreases |ids|
  {
    if ids != [] {
      CollectedSame(t, ids[0]);
      CollectedAllNumbers(Collected(t, ids[0]), ids[1..]);
    }
  }

  lemma ListingAgrees(t: Table, a: Account, nodes: seq<Node>, directory: Id)
    requires Inv(t) && Agrees(t, a) && directory in t.records
    ensures Agrees(Listed(t, nodes, directory), a)
  {
    ListingLeavesNothing(t, nodes, directory);
    RecordedAllHas(t, nodes, directory);
    RecordedAllNumbers(t, nodes, directory);
    var all := RecordedAll(t, nodes, directory);
    CollectedAllNumbers(all, IdsOf(all, nodes));
    var u := Listed(t, nodes, directory);
    assert u.nextId == all.nextId;
    hide Inv, Listed;
    KeepsAgrees(t, u, a);
  }

  lemma DestroyAgrees(t: Table, a: Account)
    requires Inv(t) && Agrees(t, a)
    ensures Agrees(Finalized(t, 0), a.(handles := map[]))
  {
    hide Inv, Swept, Finalized, Agrees, Unheld;
    DestroyIsSwept(t);
    UnheldAgrees(t, a);
    SweptAgrees(Unheld(t), a.(handles := map[]));
  }

  lemma UnheldAgrees(t: Table, a: Account)
    requires Agrees(t, a)
    ensures Agrees(Unheld(t), a.(handles := map[]))
  {
    hide Count;
  }

  // ---------------------------------------------------------------------------
  // Steps and runs

  lemma StepAgrees(t: Table, a: Account, q: Request)
    requires Inv(t) && Honest(t, q) && Agrees(t, a) && Fair(a, q)
    ensures Agrees(Apply(t, q), Noted(a, t, q, Apply(t, q)))
  {
    hide Inv, LookedUp, Created, Held, Removed, Forgot, BatchForgot, Listed, Finalized, MayMove, Swept, Entered,
      CountsAgree, NamesAgree, Total;
    match q
    case Lookup(node, parent, told) => if parent in t.records { LookupAgrees(t, a, node, parent, told); }
    case Create(node, parent, told) => if parent in t.records { CreateAgrees(t, a, node, parent, told); }
    case Open(id, directory) => if id in t.records { HeldAgrees(t, a, id, directory); }
    case Release(fh, of, directory) =>
      HandlesHaveRecords(t);
      if IsOpen(t, fh, of, directory) { ReleaseAgrees(t, a, fh); }
    case Forget(id, count) => ForgetAgrees(t, a, id, count);
    case BatchForget(entries) => BatchAgrees(t, a, entries);
    case Rename(moved, parent) =>
      if moved.Some? && moved.value in t.byNode && parent in t.records {
        var id := t.byNode[moved.value];
        NodeOfName(t, moved.value);
        if t.records[id].parent != parent { RenameAgrees(t, a, id, parent); }
      }
    case Readdir(nodes, directory) => if directory in t.records { ListingAgrees(t, a, nodes, directory); }
    case Destroy => DestroyAgrees(t, a);
  }

  lemma HandlesHaveRecords(t: Table)
    requires Inv(t)
    ensures forall fh :: fh in t.handles ==> t.handles[fh].node in t.records && fh < t.nextHandle
  {
    hide Rooted, CountsTrue, Named, DeadOnly;
  }

  ghost predicate FairRun(t: Table, a: Account, requests: seq<Request>)
    decreases |requests|
  {
    requests == [] ||
    var q := requests[0];
    && Honest(t, q) && Fair(a, q)
    && FairRun(Apply(t, q), Noted(a, t, q, Apply(t, q)), requests[1..])
  }

  ghost function AccountAfter(t: Table, a: Account, requests: seq<Request>): Account
    requires FairRun(t, a, requests)
    decreases |requests|
  {
    if requests == [] then a
    else
      var u := Apply(t, requests[0]);
      AccountAfter(u, Noted(a, t, requests[0], u), requests[1..])
  }

  lemma {:induction false} RunAgrees(t: Table, a: Account, requests: seq<Request>)
    requires Inv(t) && Agrees(t, a) && FairRun(t, a, requests)
    ensures Agrees(After(t, requests), AccountAfter(t, a, requests)) && Inv(After(t, requests))
    decreases |requests|
  {
    hide Inv, Apply, Honest, Agrees, Noted, Fair;
    if requests != [] {
      var u := Apply(t, requests[0]);
      ApplyKeeps(t, requests[0]);
      StepAgrees(t, a, requests[0]);
      RunAgrees(u, Noted(a, t, requests[0], u), requests[1..]);
    }
  }

  lemma OpeningAgrees(node: Node)
    ensures Agrees(Start(node), Opening(node))
  {
  }

  /**
   Over all requests of a guest that forgets no more than it was given: the
   lookups of every record are those the guest still owes, and those of replies
   that never told it; an id it owes lookups of is in the table, for the node it
   was told; and the open handles are the guest's.
   */
  lemma CountsAreTheGuests(node: Node, requests: seq<Request>)
    requires FairRun(Start(node), Opening(node), requests)
    ensures var t, a := After(Start(node), requests), AccountAfter(Start(node), Opening(node), requests);
            && (forall x :: x in t.records ==> t.records[x].lookups == Count(a.refs, x) + Count(a.untold, x))
            && (forall x :: Count(a.refs, x) > 0 ==>
                              && x in t.records && x in a.names && t.records[x].node == a.names[x]
                              && EntryId(t, a.names[x]) == x)
            && t.handles == a.handles
  {
    StartInv(node);
    OpeningAgrees(node);
    RunAgrees(Start(node), Opening(node), requests);
    hide FairRun, After, AccountAfter, Shape, DeadOnly;
    var t, a := After(Start(node), requests), AccountAfter(Start(node), Opening(node), requests);
    forall x | Count(a.refs, x) > 0 ensures EntryId(t, a.names[x]) == x { NameOf(t, x); }
  }

  // ---------------------------------------------------------------------------
  // Replies that never told the guest

  /** The request raises a record and then fails, as the node's attributes cannot be read. */
  predicate LeavesUntold(t: Table, q: Request)
  {
    (q.Lookup? || q.Create?) && q.parent in t.records && !q.told
  }

  ghost predicate SomeUntold(t: Table, requests: seq<Request>)
    decreases |requests|
  {
    requests != [] && (LeavesUntold(t, requests[0]) || SomeUntold(Apply(t, requests[0]), requests[1..]))
  }

  lemma UntoldStep(t: Table, a: Account, q: Request)
    requires Fair(a, q)
    ensures var b := Noted(a, t, q, Apply(t, q));
            && (forall x :: Count(a.untold, x) <= Count(b.untold, x))
            && (if LeavesUntold(t, q) then exists x :: Count(b.untold, x) > 0 else b.untold == a.untold)
  {
    hide Apply, Total, GivenBack;
    var u := Apply(t, q);
    var b := Noted(a, t, q, u);
    if LeavesUntold(t, q) {
      assert b.untold == OneMore(a.untold, EntryId(u, q.node));
      assert Count(b.untold, EntryId(u, q.node)) > 0;
    }
  }

  lemma {:induction false} UntoldOfRun(t: Table, a: Account, requests: seq<Request>)
    requires FairRun(t, a, requests)
    ensures var b := AccountAfter(t, a, requests);
            && (forall x :: Count(a.untold, x) <= Count(b.untold, x))
            && (SomeUntold(t, requests) ==> exists x :: Count(b.untold, x) > 0)
            && (!SomeUntold(t, requests) ==> b.untold == a.untold)
    decreases |requests|
  {
    hide Apply, Noted, Honest, Fair, Count, LeavesUntold;
    if requests != [] {
      var u := Apply(t, requests[0]);
      var one := Noted(a, t, requests[0], u);
      UntoldStep(t, a, requests[0]);
      UntoldOfRun(u, one, requests[1..]);
      var b := AccountAfter(t, a, requests);
      if x :| Count(one.untold, x) > 0 { assert Count(b.untold, x) > 0; }
    }
  }

  /**
   The counts are the guest's own exactly if no request raised a record and then
   could not read its attributes.
   */
  lemma CountsTrueExactlyIfTold(node: Node, requests: seq<Request>)
    requires FairRun(Start(node), Opening(node), requests)
    ensures var t, a := After(Start(node), requests), AccountAfter(Start(node), Opening(node), requests);
            (forall x :: x in t.records ==> t.records[x].lookups == Count(a.refs, x))
            <==> !SomeUntold(Start(node), requests)
  {
    hide FairRun, After, AccountAfter, SomeUntold, Inv;
    StartInv(node);
    OpeningAgrees(node);
    RunAgrees(Start(node), Opening(node), requests);
    UntoldOfRun(Start(node), Opening(node), requests);
    var t, a := After(Start(node), requests), AccountAfter(Start(node), Opening(node), requests);
    if x :| Count(a.untold, x) > 0 {
      assert x in t.records;
    }
  }

  /** A record raised for a reply that failed is never dropped, whatever the guest gives back. */
  lemma UntoldStaysForEver(t: Table, a: Account, requests: seq<Request>, id: Id)
    requires Inv(t) && Agrees(t, a) && FairRun(t, a, requests) && Count(a.untold, id) > 0
    ensures id in After(t, requests).records
  {
    hide Inv, FairRun, After, AccountAfter, SomeUntold;
    RunAgrees(t, a, requests);
    UntoldOfRun(t, a, requests);
  }

  /** That happens: one LOOKUP whose attributes cannot be read. */
  lemma FailedReplyLeavesRecord(node: Node, other: Node)
    requires node != other
    ensures var requests := [Lookup(other, RootId, false)];
            && FairRun(Start(node), Opening(node), requests) && SomeUntold(Start(node), requests)
            && 2 in After(Start(node), requests).records
            && Count(AccountAfter(Start(node), Opening(node), requests).refs, 2) == 0
  {
    var q := Lookup(other, RootId, false);
    var t, a := Start(node), Opening(node);
    assert Apply(t, q).records.Keys == {1, 2};
    assert [q][0] == q && [q][1..] == [];
  }

  // ---------------------------------------------------------------------------
  // An id is for one node

  lemma NamesStay(a: Account, t: Table, q: Request, u: Table)
    requires Fair(a, q)
    ensures forall x :: x in a.names ==> x in Noted(a, t, q, u).names && Noted(a, t, q, u).names[x] == a.names[x]
  {
    hide Total, GivenBack;
  }

  lemma {:induction false} NamesStayOverRun(t: Table, a: Account, requests: seq<Request>)
    requires FairRun(t, a, requests)
    ensures var b := AccountAfter(t, a, requests); forall x :: x in a.names ==> x in b.names && b.names[x] == a.names[x]
    decreases |requests|
  {
    hide Apply, Noted, Honest, Fair;
    if requests != [] {
      var u := Apply(t, requests[0]);
      NamesStay(a, t, requests[0], u);
      NamesStayOverRun(u, Noted(a, t, requests[0], u), requests[1..]);
    }
  }

  /** Whatever follows an entry that told the guest of an id, the table has that id for that node or not at all. */
  lemma AnIdIsForOneNode(t: Table, a: Account, q: Request, requests: seq<Request>)
    requires Inv(t) && Agrees(t, a) && (q.Lookup? || q.Create?) && q.parent in t.records && q.told
    requires FairRun(t, a, [q] + requests)
    ensures var u, id := After(t, [q] + requests), EntryId(Apply(t, q), q.node);
            id in u.records ==> u.records[id].node == q.node
  {
    hide Inv, Fair, Honest, Agrees, After, AccountAfter;
    var u := Apply(t, q);
    var b, id := Noted(a, t, q, u), EntryId(u, q.node);
    assert ([q] + requests)[0] == q && ([q] + requests)[1..] == requests;
    EntryNamed(t, a, q);
    RunAgrees(t, a, [q] + requests);
    NamesStayOverRun(u, b, requests);
    AccountFrom(t, a, q, requests);
    var v := After(t, [q] + requests);
    if id in v.records { RecordNamed(v, AccountAfter(t, a, [q] + requests), id); }
  }

  lemma AccountFrom(t: Table, a: Account, q: Request, requests: seq<Request>)
    requires FairRun(t, a, [q] + requests)
    ensures var u := Apply(t, q);
            && Fair(a, q)
            && FairRun(u, Noted(a, t, q, u), requests)
            && AccountAfter(t, a, [q] + requests) == AccountAfter(u, Noted(a, t, q, u), requests)
  {
    hide Apply, Noted, Fair, Honest;
    assert ([q] + requests)[0] == q && ([q] + requests)[1..] == requests;
  }

  lemma RecordNamed(t: Table, a: Account, id: Id)
    requires Agrees(t, a) && id in a.names && id in t.records
    ensures t.records[id].node == a.names[id]
  {
  }

  lemma EntryNamed(t: Table, a: Account, q: Request)
    requires Inv(t) && Agrees(t, a) && Fair(a, q)
    requires (q.Lookup? || q.Create?) && q.parent in t.records && q.told
    ensures var u := Apply(t, q);
            var b, id := Noted(a, t, q, u), EntryId(u, q.node);
            id in b.names && b.names[id] == q.node
  {
    hide Inv, Fair, Agrees, LookedUp, OneEntered;
    LookedUpEnters(t, q.node, q.parent);
    LookupAgrees(t, a, q.node, q.parent, true);
    var v := LookedUp(t, q.node, q.parent);
    var id := EntryId(v, q.node);
    EnteredRecord(t, v, id, q.node);
    RecordNamed(v, Entered(a, id, q.node, true), id);
  }

  lemma EnteredRecord(t: Table, u: Table, id: Id, node: Node)
    requires OneEntered(t, u, id, node)
    ensures id in u.records && u.records[id].node == node
  {
  }

  // ---------------------------------------------------------------------------
  // Any guest

  /** Giving back more than was given counts as giving back all; entry by entry or at once is the same. */
  lemma ForgettingSaturates(t: Table, entries: seq<Forgotten>)
    requires Inv(t)
    ensures var u := BatchForgot(t, Known(t, entries));
            && (forall x :: x in u.records ==>
                              && x in t.records
                              && u.records[x].lookups
                                 == if Total(entries, x) >= t.records[x].lookups then 0
                                    else t.records[x].lookups - Total(entries, x))
            && (forall x :: x in t.records && Total(entries, x) < t.records[x].lookups ==> x in u.records)
    ensures forall e :: entries == [e] ==> Apply(t, BatchForget(entries)) == Apply(t, Forget(e.id, e.count))
  {
    hide Inv, Swept, BatchForgot, Known, LoweredBy;
    BatchIsSwept(t, entries);
    LoweredByFields(t, entries);
    SweptKeepsLookups(LoweredBy(t, x => Total(entries, x)));
    forall e | entries == [e] ensures Apply(t, BatchForget(entries)) == Apply(t, Forget(e.id, e.count)) {
      BatchOfOne(t, e);
    }
  }

  lemma LoweredByFields(t: Table, entries: seq<Forgotten>)
    ensures var u := LoweredBy(t, x => Total(entries, x));
            && u.records.Keys == t.records.Keys
            && forall x :: x in t.records ==>
                             u.records[x].lookups
                             == if Total(entries, x) >= t.records[x].lookups then 0
                             else t.records[x].lookups - Total(entries, x)
  {
    hide Total;
  }

  lemma BatchOfOne(t: Table, e: Forgotten)
    ensures BatchForgot(t, Known(t, [e])) == Forgot(t, e.id, e.count)
  {
    hide Collected, Lowered;
    assert [e][..0] == [];
    assert Known(t, []) == [];
    if e.id in t.records {
      assert Known(t, [e]) == [] + [e] == [e];
      assert [e][1..] == [];
    } else {
      assert Known(t, [e]) == [] + [] == [];
    }
  }

  /** RENAME puts the record under its new parent, and no other record under another. */
  lemma RenameMoves(t: Table, id: Id, parent: Id)
    requires Inv(t) && MayMove(t.records, id, parent)
    ensures var u := Renamed(t, Some(t.records[id].node), parent);
            && (forall x :: x in u.records ==>
                              && x in t.records
                              && u.records[x].parent == (if x == id then parent else t.records[x].parent))
            && (forall x :: Pinned(t.records, x) ==> x in u.records)
  {
    hide Inv, Swept, Reparented, Live, KidsAmong, NamesKept, SameRest;
    InvShape(t);
    NameOf(t, id);
    if t.records[id].parent != parent {
      RenamedIsSwept(t, id, parent);
      MovedFields(t, id, parent);
      var v := Reparented(t, id, parent);
      SweptFields(v);
      forall x | Pinned(t.records, x) ensures x in Swept(v).records {
        PinnedIsLive(v.records, x);
      }
    }
  }
}
