/**
 What the filesystem device's tables hold: counts that are true, a tree, and
 exactly the records that something still needs. The reference is a sweep of
 everything not above a pinned record; collecting upwards from single records
 always arrives there.
 */
module FuseLive {
  import opened Wrappers
  import opened FuseTables

  type Records = map<Id, Record>

  /** x is k parents above y. The root's own parent link is not followed. */
  predicate Chain(r: Records, y: Id, x: Id, k: nat)
    decreases k
  {
    && y in r
    && if k == 0 then y == x else y != RootId && Chain(r, r[y].parent, x, k - 1)
  }

  ghost predicate HasDepth(r: Records, x: Id)
  {
    exists k: nat :: Chain(r, x, RootId, k)
  }

  /** Every record is under the root. */
  ghost predicate Rooted(r: Records)
  {
    RootId in r && forall x :: x in r ==> HasDepth(r, x)
  }

  function Kids(r: Records, x: Id): set<Id>
  {
    set y | y in r && y != RootId && r[y].parent == x
  }

  predicate CountsTrue(r: Records)
  {
    forall x :: x in r ==> r[x].children == |Kids(r, x)|
  }

  function HandlesOf(h: map<nat, Handle>, x: Id): set<nat>
  {
    set fh | fh in h && h[fh].node == x
  }

  predicate HandlesTrue(r: Records, h: map<nat, Handle>)
  {
    && (forall fh :: fh in h ==> h[fh].node in r)
    && forall x :: x in r ==> r[x].handles == |HandlesOf(h, x)|
  }

  predicate Named(r: Records, byNode: map<Node, Id>)
  {
    && (forall n :: n in byNode ==> byNode[n] in r && r[byNode[n]].node == n)
    && (forall x :: x in r ==> r[x].node in byNode && byNode[r[x].node] == x)
  }

  predicate Numbered(t: Table)
  {
    && RootId < t.nextId
    && (forall x :: x in t.records ==> x < t.nextId)
    && (forall fh :: fh in t.handles ==> fh < t.nextHandle)
  }

  /** Everything but the promptness of collection. */
  ghost predicate Shape(t: Table)
  {
    && Rooted(t.records) && CountsTrue(t.records) && HandlesTrue(t.records, t.handles)
    && Named(t.records, t.byNode) && Numbered(t)
  }

  predicate DeadOnly(r: Records, ids: set<Id>)
  {
    forall x :: x in r && Dead(r, x) ==> x in ids
  }

  ghost predicate Inv(t: Table)
  {
    Shape(t) && DeadOnly(t.records, {})
  }

  predicate Pinned(r: Records, x: Id)
  {
    x in r && (r[x].lookups > 0 || r[x].handles > 0)
  }

  predicate PinnedUnder(r: Records, y: Id, x: Id, k: nat)
  {
    Pinned(r, y) && Chain(r, y, x, k)
  }

  /** The root, and what has, or has under it, a record with lookups or handles. */
  ghost predicate Live(r: Records, x: Id)
  {
    x in r && (x == RootId || exists y, k: nat :: PinnedUnder(r, y, x, k))
  }

  ghost function LiveSet(r: Records): set<Id>
  {
    set x | x in r && Live(r, x)
  }

  function KidsAmong(r: Records, among: set<Id>, x: Id): set<Id>
  {
    set y | y in among && y in r && y != RootId && r[y].parent == x
  }

  /** The table with everything that is not live dropped at once. */
  ghost function Swept(t: Table): Table
  {
    var live := LiveSet(t.records);
    t.(records := map x | x in live :: t.records[x].(children := |KidsAmong(t.records, live, x)|),
       byNode := map n | n in t.byNode && t.byNode[n] in live :: t.byNode[n])
  }

  // ---------------------------------------------------------------------------
  // Chains

  lemma {:induction false} ChainJoins(r: Records, z: Id, y: Id, j: nat, x: Id, k: nat)
    requires Chain(r, z, y, j) && Chain(r, y, x, k) && (j > 0 || k > 0 ==> z != RootId)
    ensures Chain(r, z, x, j + k)
    decreases j
  {
    if j > 0 && (j > 1 || k > 0) {
      if j == 1 && k == 0 {
      } else {
        NotRootInside(r, r[z].parent, y, j - 1, x, k);
        ChainJoins(r, r[z].parent, y, j - 1, x, k);
      }
    }
  }

  /** A chain that goes on does not start at the root. */
  lemma {:induction false} NotRootInside(r: Records, z: Id, y: Id, j: nat, x: Id, k: nat)
    requires Chain(r, z, y, j) && Chain(r, y, x, k) && (j > 0 || k > 0)
    ensures z != RootId
  {
  }

  lemma {:induction false} DepthUnique(r: Records, x: Id, j: nat, k: nat)
    requires Chain(r, x, RootId, j) && Chain(r, x, RootId, k)
    ensures j == k
    decreases j
  {
    if j > 0 && k > 0 {
      DepthUnique(r, r[x].parent, j - 1, k - 1);
    }
  }

  /** The records from x up to the root. */
  function Above(r: Records, x: Id, k: nat): set<Id>
    requires Chain(r, x, RootId, k)
    decreases k
  {
    if k == 0 then {x} else {x} + Above(r, r[x].parent, k - 1)
  }

  lemma {:induction false} AboveSize(r: Records, x: Id, k: nat)
    requires Chain(r, x, RootId, k)
    ensures |Above(r, x, k)| == k + 1 && Above(r, x, k) <= r.Keys
    ensures forall z :: z in Above(r, x, k) ==> Shallow(r, z, k)
    decreases k
  {
    assert Chain(r, x, RootId, k);
    if k > 0 {
      var p := r[x].parent;
      var rest := Above(r, p, k - 1);
      AboveSize(r, p, k - 1);
      if x in rest { NotShallow(r, x, k); }
      forall z | z in rest ensures Shallow(r, z, k) {
        ShallowGrows(r, z, k - 1);
      }
    }
  }

  ghost predicate Shallow(r: Records, x: Id, k: nat)
  {
    exists j: nat :: j <= k && Chain(r, x, RootId, j)
  }

  lemma ShallowGrows(r: Records, x: Id, k: nat)
    requires Shallow(r, x, k)
    ensures Shallow(r, x, k + 1)
  {
  }

  lemma NotShallow(r: Records, x: Id, k: nat)
    requires Chain(r, x, RootId, k) && k > 0
    ensures !Shallow(r, x, k - 1)
  {
    forall j: nat | j <= k - 1 ensures !Chain(r, x, RootId, j) {
      if Chain(r, x, RootId, j) { DepthUnique(r, x, j, k); }
    }
  }

  lemma DepthBound(r: Records, x: Id, k: nat)
    requires Chain(r, x, RootId, k)
    ensures k < |r|
  {
    AboveSize(r, x, k);
    Contained(Above(r, x, k), r.Keys);
  }

  lemma {:induction false} Contained(a: set<Id>, b: set<Id>)
    requires a <= b
    ensures |a| <= |b|
  {
    if a != {} {
      var x :| x in a;
      Contained(a - {x}, b - {x});
    }
  }

  // ---------------------------------------------------------------------------
  // Sweeping

  predicate Alike(a: Record, b: Record)
  {
    a.node == b.node && a.parent == b.parent && a.lookups == b.lookups && a.handles == b.handles
  }

  /** w keeps some of r's records, closed under parents, with every pinned one among them. */
  predicate KeepsLive(r: Records, w: Records)
  {
    && RootId in w
    && (forall x :: x in w ==> x in r && Alike(w[x], r[x]))
    && (forall x :: x in w && x != RootId && r[x].parent in r ==> r[x].parent in w)
    && (forall x :: x in r && Pinned(r, x) ==> x in w)
  }

  lemma {:induction false} ChainKept(r: Records, w: Records, y: Id, x: Id, k: nat)
    requires KeepsLive(r, w) && y in w
    ensures Chain(r, y, x, k) <==> Chain(w, y, x, k)
    ensures Chain(r, y, x, k) ==> x in w
    decreases k
  {
    if k > 0 && r[y].parent in r && y != RootId {
      ChainKept(r, w, r[y].parent, x, k - 1);
    }
  }

  lemma LiveKept(r: Records, w: Records)
    requires KeepsLive(r, w)
    ensures LiveSet(r) == LiveSet(w)
  {
    forall x ensures x in LiveSet(r) <==> x in LiveSet(w) {
      if Live(r, x) && x != RootId {
        var y, k: nat :| PinnedUnder(r, y, x, k);
        ChainKept(r, w, y, x, k);
        assert PinnedUnder(w, y, x, k);
      }
      if Live(w, x) && x != RootId {
        var y, k: nat :| PinnedUnder(w, y, x, k);
        ChainKept(r, w, y, x, k);
        assert PinnedUnder(r, y, x, k);
      }
    }
  }

  predicate NamesKept(t: Table, w: Table)
  {
    w.byNode == map n | n in t.byNode && t.byNode[n] in w.records :: t.byNode[n]
  }

  predicate SameRest(t: Table, w: Table)
  {
    t.handles == w.handles && t.nextId == w.nextId && t.nextHandle == w.nextHandle
  }

  /** Dropping records that are not live first makes no difference to the sweep. */
  lemma SweptAgree(t: Table, w: Table)
    requires KeepsLive(t.records, w.records) && NamesKept(t, w) && SameRest(t, w)
    ensures Swept(t) == Swept(w)
  {
    LiveKept(t.records, w.records);
    LiveWithin(w.records);
    hide LiveSet;
    var live := LiveSet(t.records);
    forall x | x in live
      ensures t.records[x].(children := |KidsAmong(t.records, live, x)|)
           == w.records[x].(children := |KidsAmong(w.records, live, x)|) {
      assert KidsAmong(t.records, live, x) == KidsAmong(w.records, live, x);
    }
    assert Swept(t).records == Swept(w).records;
    assert Swept(t).byNode == Swept(w).byNode;
  }

  lemma LiveWithin(r: Records)
    ensures forall x :: x in LiveSet(r) ==> x in r
  {
  }

  lemma LiveAbove(r: Records, y: Id, x: Id)
    requires y in Kids(r, x) && x in r && Live(r, y)
    ensures Live(r, x)
  {
    hide Pinned;
    var z, j: nat :| PinnedUnder(r, z, y, j);
    assert Chain(r, x, x, 0);
    assert Chain(r, y, x, 1);
    NotRootInside(r, z, y, j, x, 1);
    ChainJoins(r, z, y, j, x, 1);
    assert PinnedUnder(r, z, x, j + 1);
  }

  /** Where nothing is dead, everything is live. */
  lemma {:induction false} NoDeadIsLive(t: Table, x: Id, k: nat)
    requires Shape(t) && DeadOnly(t.records, {}) && x in t.records && Chain(t.records, x, RootId, k)
    ensures Live(t.records, x)
    decreases |t.records| - k
  {
    hide Shape, DeadOnly;
    var r := t.records;
    DepthBound(r, x, k);
    if x != RootId {
      if Pinned(r, x) {
        assert PinnedUnder(r, x, x, 0);
      } else {
        hide Live;
        HasKid(t, x);
        var y :| y in Kids(r, x);
        assert Chain(r, y, RootId, k + 1);
        DepthBound(r, y, k + 1);
        NoDeadIsLive(t, y, k + 1);
        LiveAbove(r, y, x);
      }
    }
  }

  lemma HasKid(t: Table, x: Id)
    requires Shape(t) && DeadOnly(t.records, {}) && x in t.records && x != RootId && !Pinned(t.records, x)
    ensures Kids(t.records, x) != {}
  {
    hide Rooted, Named, Numbered;
    assert t.records[x].handles >= 0;
    assert !Dead(t.records, x);
  }

  lemma AllLive(t: Table)
    requires Inv(t)
    ensures LiveSet(t.records) == t.records.Keys
  {
    var r := t.records;
    forall x | x in r ensures Live(r, x) {
      RootedHas(t, x);
      hide Shape, DeadOnly, Live;
      var k: nat :| Chain(r, x, RootId, k);
      NoDeadIsLive(t, x, k);
    }
  }

  lemma RootedHas(t: Table, x: Id)
    requires Shape(t) && x in t.records
    ensures exists k: nat :: Chain(t.records, x, RootId, k)
  {
    hide CountsTrue, HandlesTrue, Named, Numbered;
    assert HasDepth(t.records, x);
  }

  /** A table with nothing dead is its own sweep. */
  lemma NoDeadIsSwept(t: Table)
    requires Inv(t)
    ensures Swept(t) == t
  {
    hide LiveSet, Rooted, HandlesTrue, DeadOnly, Numbered;
    var r := t.records;
    AllLive(t);
    forall x | x in r ensures r[x].children == |KidsAmong(r, r.Keys, x)| {
      assert KidsAmong(r, r.Keys, x) == Kids(r, x);
    }
    assert Swept(t).records == r;
    assert Swept(t).byNode == t.byNode;
  }
}
