/** Whole requests and whole runs on the filesystem device's tables. */
module FuseRuns {
  import opened Wrappers
  import opened FuseTables
  import opened FuseLive
  import opened FuseRequests

  // ---------------------------------------------------------------------------
  // A sweep is sound, and lowering pins commutes with it

  lemma {:induction false} ChainLast(r: Records, y: Id, x: Id, k: nat) returns (z: Id)
    requires Chain(r, y, x, k) && k > 0
    ensures z in r && z != RootId && r[z].parent == x && Chain(r, y, z, k - 1)
    decreases k
  {
    if k == 1 {
      z := y;
    } else {
      z := ChainLast(r, r[y].parent, x, k - 1);
    }
  }

  lemma ParentLive(t: Table, x: Id)
    requires Shape(t) && x in t.records && x != RootId && Live(t.records, x)
    ensures t.records[x].parent in t.records && Live(t.records, t.records[x].parent)
  {
    ParentPresent(t, x);
    hide Shape, Live;
    LiveAbove(t.records, x, t.records[x].parent);
  }

  /** A live record that is not pinned has a live child. */
  lemma LiveKid(r: Records, x: Id) returns (z: Id)
    requires x in r && x != RootId && Live(r, x) && !Pinned(r, x)
    ensures z in r && z != RootId && r[z].parent == x && Live(r, z)
  {
    var y, k: nat :| PinnedUnder(r, y, x, k);
    z := ChainLast(r, y, x, k);
    assert PinnedUnder(r, y, z, k - 1);
  }

  lemma SweptFields(t: Table)
    ensures var r, s := t.records, Swept(t).records;
            && s.Keys == LiveSet(r)
            && forall x :: x in s ==>
                             x in r && Live(r, x) && Alike(s[x], r[x]) && s[x].children == |KidsAmong(r, LiveSet(r), x)|
    ensures NamesKept(t, Swept(t)) && SameRest(t, Swept(t))
  {
    hide Live, KidsAmong;
  }

  lemma PinnedIsLive(r: Records, x: Id)
    requires Pinned(r, x)
    ensures Live(r, x)
  {
    assert PinnedUnder(r, x, x, 0);
  }

  lemma SweptKeeps(t: Table)
    requires Shape(t)
    ensures KeepsLive(t.records, Swept(t).records)
  {
    hide Shape, Live, Swept, KidsAmong, NamesKept, SameRest, Alike, Pinned;
    SweptFields(t);
    var r, s := t.records, Swept(t).records;
    RootNotDead(t, 0);
    RootLive(r);
    forall x | x in s && x != RootId && r[x].parent in r ensures r[x].parent in s {
      ParentLive(t, x);
    }
    forall x | x in r && Pinned(r, x) ensures x in s {
      PinnedIsLive(r, x);
    }
  }

  lemma RootLive(r: Records)
    requires RootId in r
    ensures Live(r, RootId)
  {
  }

  lemma SweptCounts(t: Table)
    ensures CountsTrue(Swept(t).records)
  {
    hide Live, Swept;
    SweptFields(t);
    var r, s := t.records, Swept(t).records;
    forall x | x in s ensures s[x].children == |Kids(s, x)| {
      assert Kids(s, x) == KidsAmong(r, LiveSet(r), x);
    }
  }

  lemma SweptDead(t: Table)
    ensures DeadOnly(Swept(t).records, {})
  {
    hide Live, Swept;
    SweptFields(t);
    var r, s := t.records, Swept(t).records;
    forall x | x in s && x != RootId && !Pinned(r, x) ensures s[x].children != 0 {
      var z := LiveKid(r, x);
      assert z in KidsAmong(r, LiveSet(r), x);
    }
  }

  lemma SweptHandles(t: Table)
    requires Shape(t)
    ensures HandlesTrue(Swept(t).records, t.handles)
  {
    hide Rooted, CountsTrue, Named, Numbered, Live, Swept, KidsAmong;
    SweptFields(t);
    var r, h := t.records, t.handles;
    forall fh | fh in h ensures h[fh].node in Swept(t).records {
      assert fh in HandlesOf(h, h[fh].node);
      PinnedIsLive(r, h[fh].node);
    }
  }

  lemma SweptNames(t: Table)
    requires Shape(t)
    ensures Named(Swept(t).records, Swept(t).byNode) && Numbered(Swept(t))
  {
    hide Rooted, CountsTrue, HandlesTrue, Live, Swept, KidsAmong;
    SweptFields(t);
  }

  /** The sweep of a sound table is sound, with nothing dead in it. */
  lemma SweptInv(t: Table)
    requires Shape(t)
    ensures Inv(Swept(t))
  {
    hide Rooted, CountsTrue, HandlesTrue, Named, Numbered, Live, Swept, KeepsLive, DeadOnly;
    SweptFields(t);
    SweptKeeps(t);
    SweptCounts(t);
    SweptDead(t);
    SweptHandles(t);
    SweptNames(t);
    KeptIsRooted(t, Swept(t).records);
  }

  /** u is t with fewer pins: nothing is needed in u that was not needed in t. */
  predicate Lowers(t: Table, u: Table)
  {
    && SameTree(t.records, u.records) && t.byNode == u.byNode
    && forall x :: x in t.records && Pinned(u.records, x) ==> Pinned(t.records, x)
  }

  /** w is what u's edit makes of t's sweep. */
  predicate SameEdit(t: Table, u: Table, w: Table)
    requires SameTree(t.records, u.records)
  {
    && w.records.Keys <= t.records.Keys
    && (forall x :: x in w.records ==> Alike(w.records[x], u.records[x]))
    && SameRest(u, w)
  }

  /** Sweeping before an edit that only lowers pins makes no difference to sweeping after it. */
  lemma SweptTwice(t: Table, u: Table, w: Table)
    requires Shape(t) && Lowers(t, u) && SameEdit(t, u, w)
    requires w.records.Keys == LiveSet(t.records) && w.byNode == Swept(t).byNode
    ensures Swept(u) == Swept(w)
  {
    SweptFields(t);
    SweptKeeps(t);
    hide Shape, Live, Swept, KidsAmong, LiveSet;
    EditKeeps(t, u, w);
    SweptAgree(u, w);
  }

  lemma EditKeeps(t: Table, u: Table, w: Table)
    requires KeepsLive(t.records, Swept(t).records) && NamesKept(t, Swept(t)) && Lowers(t, u) && SameEdit(t, u, w)
    requires w.records.Keys == Swept(t).records.Keys && w.byNode == Swept(t).byNode
    ensures KeepsLive(u.records, w.records) && NamesKept(u, w)
  {
    hide Swept;
    forall x | x in u.records && Pinned(u.records, x) ensures x in w.records {
      assert Pinned(t.records, x);
    }
  }

  // ---------------------------------------------------------------------------
  // BATCH_FORGET

  function LoweredAll(t: Table, entries: seq<Forgotten>): Table
    decreases |entries|
  {
    if entries == [] then t else LoweredAll(Lowered(t, entries[0].id, entries[0].count), entries[1..])
  }

  lemma ForgotOfSwept(t: Table, id: Id, count: nat)
    requires Shape(t)
    ensures Forgot(Swept(t), id, count) == Swept(Lowered(t, id, count))
  {
    SweptInv(t);
    SweptFields(t);
    var s, u := Swept(t), Lowered(t, id, count);
    var w := Lowered(s, id, count);
    hide Shape, Live, LiveSet, Swept, KidsAmong, Forgot, DeadOnly;
    ForgotIsSwept(s, id, count);
    LoweredIsSameEdit(t, id, count);
    SweptTwice(t, u, w);
  }

  lemma LoweredIsSameEdit(t: Table, id: Id, count: nat)
    ensures var u, w := Lowered(t, id, count), Lowered(Swept(t), id, count);
            && Lowers(t, u) && SameEdit(t, u, w) && w.records.Keys == Swept(t).records.Keys
            && w.byNode == Swept(t).byNode
  {
    hide Live, LiveSet, Swept, KidsAmong, LoweredRecord, Lowered;
    SweptFields(t);
    LoweredRecords(t, id, count);
    LoweredRecords(Swept(t), id, count);
    forall x | x in t.records
      ensures var r, l := t.records[x], LoweredRecord(t.records[x], if x == id then count else 0);
              l.node == r.node && l.parent == r.parent && l.children == r.children && l.handles == r.handles
              && l.lookups <= r.lookups
    {
      LoweredAlike(t.records[x], t.records[x], if x == id then count else 0);
    }
    forall x | x in Swept(t).records
      ensures Alike(LoweredRecord(Swept(t).records[x], if x == id then count else 0),
                    LoweredRecord(t.records[x], if x == id then count else 0))
    {
      LoweredAlike(Swept(t).records[x], t.records[x], if x == id then count else 0);
    }
  }

  lemma LoweredAlike(a: Record, b: Record, count: nat)
    requires Alike(a, b)
    ensures Alike(LoweredRecord(a, count), LoweredRecord(b, count))
    ensures var l := LoweredRecord(b, count);
            l.node == b.node && l.parent == b.parent && l.children == b.children && l.handles == b.handles
            && l.lookups <= b.lookups
  {
  }

  lemma {:induction false} BatchOfSwept(t: Table, entries: seq<Forgotten>)
    requires Shape(t)
    ensures BatchForgot(Swept(t), entries) == Swept(LoweredAll(t, entries))
    decreases |entries|
  {
    hide Shape, Swept, Forgot, Lowered;
    if entries != [] {
      ForgotOfSwept(t, entries[0].id, entries[0].count);
      LoweredShape(t, entries[0].id, entries[0].count);
      BatchOfSwept(Lowered(t, entries[0].id, entries[0].count), entries[1..]);
    }
  }

  /** How much a batch takes from one record in all. */
  function Total(entries: seq<Forgotten>, id: Id): nat
    decreases |entries|
  {
    if entries == [] then 0 else (if entries[0].id == id then entries[0].count else 0) + Total(entries[1..], id)
  }

  function Less(lookups: nat, count: nat): nat
  {
    if count >= lookups then 0 else lookups - count
  }

  function LoweredRecord(r: Record, count: nat): Record
  {
    r.(lookups := Less(r.lookups, count))
  }

  function LoweredBy(t: Table, counts: Id -> nat): Table
  {
    t.(records := map x | x in t.records :: LoweredRecord(t.records[x], counts(x)))
  }

  lemma LoweredRecordTwice(r: Record, a: nat, b: nat)
    ensures LoweredRecord(LoweredRecord(r, a), b) == LoweredRecord(r, a + b) && LoweredRecord(r, 0) == r
  {
  }

  lemma LoweredRecords(t: Table, id: Id, count: nat)
    ensures Lowered(t, id, count) == t.(records := Lowered(t, id, count).records)
    ensures Lowered(t, id, count).records.Keys == t.records.Keys
    ensures forall x :: x in t.records ==>
                          Lowered(t, id, count).records[x] == LoweredRecord(t.records[x], if x == id then count else 0)
  {
  }

  lemma LoweredThenBy(t: Table, id: Id, count: nat, rest: Id -> nat, all: Id -> nat)
    requires forall x :: x in t.records ==> all(x) == rest(x) + if x == id then count else 0
    ensures LoweredBy(Lowered(t, id, count), rest) == LoweredBy(t, all)
  {
    hide LoweredRecord, Lowered;
    LoweredRecords(t, id, count);
    var u := Lowered(t, id, count);
    var r := t.records;
    forall x | x in r ensures LoweredRecord(u.records[x], rest(x)) == LoweredRecord(r[x], all(x)) {
      LoweredRecordTwice(r[x], if x == id then count else 0, rest(x));
    }
    assert LoweredBy(u, rest).records == LoweredBy(t, all).records;
  }

  lemma {:induction false} LoweredAllTotals(t: Table, entries: seq<Forgotten>)
    ensures LoweredAll(t, entries) == LoweredBy(t, x => Total(entries, x))
    decreases |entries|
  {
    if entries == [] {
      assert LoweredBy(t, x => Total(entries, x)).records == t.records;
    } else {
      hide LoweredBy, Lowered;
      LoweredAllTotals(Lowered(t, entries[0].id, entries[0].count), entries[1..]);
      LoweredThenBy(t, entries[0].id, entries[0].count, x => Total(entries[1..], x), x => Total(entries, x));
    }
  }

  lemma {:induction false} TotalWithout(entries: seq<Forgotten>, i: nat, id: Id)
    requires i < |entries|
    ensures Total(entries, id)
         == Total(entries[..i] + entries[i + 1..], id) + if entries[i].id == id then entries[i].count else 0
    decreases |entries|
  {
    if i == 0 {
      assert entries[..0] + entries[1..] == entries[1..];
    } else {
      var rest := entries[..i] + entries[i + 1..];
      assert rest[0] == entries[0] && rest[1..] == entries[1..][..i - 1] + entries[1..][i..];
      TotalWithout(entries[1..], i - 1, id);
    }
  }

  lemma MultisetWithout(s: seq<Forgotten>, i: nat)
    requires i < |s|
    ensures multiset(s[..i] + s[i + 1..]) == multiset(s) - multiset{s[i]}
  {
    assert s == s[..i] + [s[i]] + s[i + 1..];
  }

  lemma IndexIn(s: seq<Forgotten>, e: Forgotten) returns (i: nat)
    requires e in multiset(s)
    ensures i < |s| && s[i] == e
  {
    i :| i < |s| && s[i] == e;
  }

  lemma HeadElsewhere(a: seq<Forgotten>, b: seq<Forgotten>) returns (i: nat)
    requires multiset(a) == multiset(b) && a != []
    ensures i < |b| && b[i] == a[0] && multiset(a[1..]) == multiset(b[..i] + b[i + 1..])
  {
    assert a[0] in multiset(a);
    i := IndexIn(b, a[0]);
    MultisetWithout(a, 0);
    MultisetWithout(b, i);
    assert a[..0] + a[1..] == a[1..];
  }

  /** The totals do not depend on the order. */
  lemma {:induction false} TotalOfPermutation(a: seq<Forgotten>, b: seq<Forgotten>, id: Id)
    requires multiset(a) == multiset(b)
    ensures Total(a, id) == Total(b, id)
    decreases |a|
  {
    if a == [] {
      assert |b| == |multiset(b)| == 0;
    } else {
      var i := HeadElsewhere(a, b);
      TotalOfPermutation(a[1..], b[..i] + b[i + 1..], id);
      TotalWithout(b, i, id);
    }
  }

  lemma {:induction false} KnownTotals(t: Table, entries: seq<Forgotten>, id: Id)
    requires id in t.records
    ensures Total(Known(t, entries), id) == Total(entries, id)
    decreases |entries|
  {
    if entries != [] {
      var n := |entries| - 1;
      KnownTotals(t, entries[..n], id);
      TotalWithout(entries, n, id);
      assert entries[..n] + entries[n + 1..] == entries[..n];
      if entries[n].id in t.records {
        var k := Known(t, entries[..n]);
        TotalWithout(k + [entries[n]], |k|, id);
        assert (k + [entries[n]])[..|k|] + (k + [entries[n]])[|k| + 1..] == k;
      } else {
        assert Known(t, entries[..n]) + [] == Known(t, entries[..n]);
      }
    }
  }

  /** BATCH_FORGET is one sweep after every count has been taken off. */
  lemma BatchIsSwept(t: Table, entries: seq<Forgotten>)
    requires Inv(t)
    ensures BatchForgot(t, Known(t, entries)) == Swept(LoweredBy(t, x => Total(entries, x)))
    ensures Inv(BatchForgot(t, Known(t, entries)))
  {
    var known := Known(t, entries);
    forall x | x in t.records ensures Total(known, x) == Total(entries, x) { KnownTotals(t, entries, x); }
    assert LoweredBy(t, x => Total(known, x)).records == LoweredBy(t, x => Total(entries, x)).records;
    hide Shape, Swept, DeadOnly, LoweredBy, Known;
    NoDeadIsSwept(t);
    BatchOfSwept(t, known);
    LoweredAllTotals(t, known);
    LoweredAllShape(t, known);
    SweptInv(LoweredAll(t, known));
  }

  lemma {:induction false} LoweredAllShape(t: Table, entries: seq<Forgotten>)
    requires Shape(t)
    ensures Shape(LoweredAll(t, entries))
    decreases |entries|
  {
    hide Shape, Lowered;
    if entries != [] {
      LoweredShape(t, entries[0].id, entries[0].count);
      LoweredAllShape(Lowered(t, entries[0].id, entries[0].count), entries[1..]);
    }
  }

  /** The same entries in any order leave the same table. */
  lemma BatchOrderIsIrrelevant(t: Table, a: seq<Forgotten>, b: seq<Forgotten>)
    requires Inv(t) && multiset(a) == multiset(b)
    ensures BatchForgot(t, Known(t, a)) == BatchForgot(t, Known(t, b))
  {
    hide Inv, Swept, BatchForgot, Known;
    BatchIsSwept(t, a);
    BatchIsSwept(t, b);
    forall x | x in t.records ensures Total(a, x) == Total(b, x) { TotalOfPermutation(a, b, x); }
    assert LoweredBy(t, x => Total(a, x)).records == LoweredBy(t, x => Total(b, x)).records;
  }
}
