/**
 Exactly which trees come back from their blob. Four kinds of input do not: a
 number that does not fit its cell, a typed array that is only part of its
 buffer, a name with a NUL in it, and a reservation that looks like the end of
 the list.
 */
module DevicetreeRoundTrip {
  import opened Wrappers
  import opened BigEndian
  import opened ObjectKeys
  import opened Devicetree

  /**
   The bytes a reader gets of a property give the value back: a number as the
   big-endian cell it is written in, a typed array as the bytes it views.
   */
  predicate Recovers(v: Value, bytes: Bytes)
  {
    match v
    case Number(n) => |bytes| == 4 && Get32(bytes, 0) == n
    case Big(n) => |bytes| == 8 && Get64(bytes, 0) == n
    case Text(utf8) => bytes == utf8 + [0]
    case Numbers(ns) => |bytes| == 4 * |ns| && forall i :: 0 <= i < |ns| ==> Get32(bytes, 4 * i) == ns[i]
    case Typed(view) => bytes == view.buffer[view.offset..view.offset + view.length]
    case Raw(raw) => bytes == raw
    case Undefined => bytes == []
    case Nested => false
  }

  predicate PropsRecovered(props: seq<Prop>, read: seq<ReadProp>)
  {
    |read| == |props|
    && forall i :: 0 <= i < |props| ==> read[i].name == props[i].name && Recovers(props[i].value, read[i].value)
  }

  predicate TreeRecovered(t: Tree, read: ReadTree)
  {
    PropsRecovered(t.props, read.props) && ForestRecovered(t.kids, read.kids)
  }

  predicate ForestRecovered(f: Forest, read: ReadForest)
  {
    match f
    case Nil => read.ReadNil?
    case Cons(name, tree, rest) =>
      read.ReadCons? && read.name == name && TreeRecovered(tree, read.tree) && ForestRecovered(rest, read.rest)
  }

  predicate RegionsRecovered(regions: seq<Region>, read: seq<Reservation>)
  {
    |read| == |regions|
    && forall i :: 0 <= i < |regions| ==> read[i].address == regions[i].address && read[i].size == regions[i].size
  }

  /** A reader of the blob has back all that was given. */
  predicate Recovered(read: Option<Blob>, t: Tree, regions: seq<Region>, bootCpu: int)
  {
    && read.Some? && TreeRecovered(t, read.value.root)
    && RegionsRecovered(regions, read.value.reservations) && read.value.bootCpu == bootCpu
  }

  // ---------------------------------------------------------------------------
  // Values

  predicate Fits32(n: int)
  {
    0 <= n < 0x1_0000_0000
  }

  predicate Fits64(n: int)
  {
    0 <= n < 0x1_0000_0000_0000_0000
  }

  /** A number that its cell can hold, and a typed array over the whole of its buffer. */
  predicate Whole(v: Value)
  {
    match v
    case Number(n) => Fits32(n)
    case Big(n) => Fits64(n)
    case Numbers(ns) => forall i :: 0 <= i < |ns| ==> Fits32(ns[i])
    case Typed(view) => view.length == |view.buffer|
    case Nested => false
    case _ => true
  }

  predicate PropsWhole(props: seq<Prop>)
  {
    forall i :: 0 <= i < |props| ==> Whole(props[i].value)
  }

  predicate TreeWhole(t: Tree)
  {
    PropsWhole(t.props) && ForestWhole(t.kids)
  }

  predicate ForestWhole(f: Forest)
  {
    f.Cons? ==> TreeWhole(f.tree) && ForestWhole(f.rest)
  }

  predicate RegionsWhole(regions: seq<Region>)
  {
    forall i :: 0 <= i < |regions| ==>
                  Fits64(regions[i].address) && Fits64(regions[i].size) && regions[i] != Region(0, 0)
  }

  lemma {:induction false} CellsRead(ns: seq<int>)
    ensures |NumbersBytes(ns)| == 4 * |ns|
    ensures forall i :: 0 <= i < |ns| ==> Get32(NumbersBytes(ns), 4 * i) == ns[i] % 0x1_0000_0000
    decreases |ns|
  {
    hide Be32, Get32;
    if ns != [] {
      var rest := NumbersBytes(ns[1..]);
      CellsRead(ns[1..]);
      Get32Be32(ns[0] % 0x1_0000_0000, [], rest);
      assert [] + Be32(ns[0] % 0x1_0000_0000) + rest == NumbersBytes(ns);
      forall i | 0 < i < |ns| ensures Get32(NumbersBytes(ns), 4 * i) == ns[i] % 0x1_0000_0000 {
        Get32Later(Be32(ns[0] % 0x1_0000_0000), rest, 4 * (i - 1));
        assert ns[1..][i - 1] == ns[i];
      }
    }
  }

  lemma Get32Later(first: Bytes, rest: Bytes, at: nat)
    requires |first| == 4 && at + 4 <= |rest|
    ensures Get32(first + rest, 4 + at) == Get32(rest, at)
  {
  }

  lemma CellRead(n: int)
    ensures Get32(Be32(n % 0x1_0000_0000), 0) == n % 0x1_0000_0000
    ensures Get64(Be64(n % 0x1_0000_0000_0000_0000), 0) == n % 0x1_0000_0000_0000_0000
  {
    hide Be32, Get32, Be64, Get64;
    Get32Be32(n % 0x1_0000_0000, [], []);
    Get64Be64(n % 0x1_0000_0000_0000_0000, [], []);
    assert [] + Be32(n % 0x1_0000_0000) + [] == Be32(n % 0x1_0000_0000);
    assert [] + Be64(n % 0x1_0000_0000_0000_0000) + [] == Be64(n % 0x1_0000_0000_0000_0000);
  }

  /** A wrapped number is the number itself exactly if it fits. */
  lemma WrappedIsSame(n: int)
    ensures n % 0x1_0000_0000 == n <==> Fits32(n)
    ensures n % 0x1_0000_0000_0000_0000 == n <==> Fits64(n)
  {
  }

  /** What is written gives the value back exactly if the value is whole. */
  lemma WrittenRecovers(v: Value)
    ensures Recovers(v, ValueBytes(v)) <==> Whole(v)
  {
    hide Be32, Get32, Be64, Get64, Fits32, Fits64, NumbersBytes;
    match v
    case Number(n) => CellRead(n); WrappedIsSame(n);
    case Big(n) => CellRead(n); WrappedIsSame(n);
    case Numbers(ns) =>
      CellsRead(ns);
      forall i | 0 <= i < |ns| ensures Get32(NumbersBytes(ns), 4 * i) == ns[i] <==> Fits32(ns[i]) {
        WrappedIsSame(ns[i]);
      }
    case Typed(view) => assert view.buffer[0..|view.buffer|] == view.buffer;
    case _ =>
  }

  lemma {:induction false} SeenAt(props: seq<Prop>)
    ensures |PropsSeen(props)| == |props|
    ensures forall i :: 0 <= i < |props| ==> PropsSeen(props)[i] == ReadProp(props[i].name, ValueBytes(props[i].value))
    decreases |props|
  {
    hide ValueBytes;
    if props != [] {
      SeenAt(props[1..]);
      assert forall i :: 0 < i < |props| ==> props[i] == props[1..][i - 1];
    }
  }

  lemma PropsSeenRecover(props: seq<Prop>)
    ensures PropsRecovered(props, PropsSeen(props)) <==> PropsWhole(props)
  {
    hide ValueBytes, Recovers, Whole;
    SeenAt(props);
    forall i | 0 <= i < |props| ensures Recovers(props[i].value, PropsSeen(props)[i].value) <==> Whole(props[i].value) {
      WrittenRecovers(props[i].value);
    }
  }

  lemma {:induction false} TreeSeenRecovers(t: Tree)
    ensures TreeRecovered(t, TreeSeen(t)) <==> TreeWhole(t)
  {
    PropsSeenRecover(t.props);
    ForestSeenRecovers(t.kids);
  }

  lemma {:induction false} ForestSeenRecovers(f: Forest)
    ensures ForestRecovered(f, ForestSeen(f)) <==> ForestWhole(f)
  {
    if f.Cons? {
      TreeSeenRecovers(f.tree);
      ForestSeenRecovers(f.rest);
    }
  }

  /** Reservations are stored as given exactly if their numbers fit; a whole list has no early end. */
  lemma StoredRecovers(regions: seq<Region>)
    ensures RegionsRecovered(regions, Stored(regions)) && Reservation(0, 0) !in Stored(regions)
       <==> RegionsWhole(regions)
  {
    hide Fits64;
    var rs := Stored(regions);
    forall i | 0 <= i < |regions|
      ensures rs[i].address == regions[i].address <==> Fits64(regions[i].address)
      ensures rs[i].size == regions[i].size <==> Fits64(regions[i].size)
    {
      WrappedIsSame(regions[i].address);
      WrappedIsSame(regions[i].size);
    }
    if RegionsWhole(regions) {
      forall i | 0 <= i < |rs| ensures rs[i] != Reservation(0, 0) {
        assert regions[i] != Region(0, 0);
      }
    } else if RegionsRecovered(regions, rs) && Reservation(0, 0) !in rs {
      forall i | 0 <= i < |regions| ensures regions[i] != Region(0, 0) {
        assert rs[i] in rs;
      }
    }
  }

  // ---------------------------------------------------------------------------
  // A reader never yields a name with a NUL in it, nor the last reservation

  lemma {:induction false} CStringNoNul(b: Bytes)
    ensures CString(b).Some? ==> NoNul(CString(b).value)
  {
    if b != [] && b[0] != 0 { CStringNoNul(b[1..]); }
  }

  lemma {:induction false} ReservationsNotLast(b: Bytes)
    ensures ReadReservations(b).Some? ==> Reservation(0, 0) !in ReadReservations(b).value
    decreases |b|
  {
    if |b| >= 16 { ReservationsNotLast(b[16..]); }
  }

  predicate ReadPropsNamed(props: seq<ReadProp>)
  {
    forall i :: 0 <= i < |props| ==> NoNul(props[i].name)
  }

  predicate ReadTreeNamed(t: ReadTree)
  {
    ReadPropsNamed(t.props) && ReadForestNamed(t.kids)
  }

  predicate ReadForestNamed(f: ReadForest)
  {
    f.ReadCons? ==> NoNul(f.name) && ReadTreeNamed(f.tree) && ReadForestNamed(f.rest)
  }

  lemma PropertyNamed(b: Bytes, strings: Bytes)
    ensures ReadProperty(b, strings).Some? ==> NoNul(ReadProperty(b, strings).value.0.name)
  {
    hide CString, NoNul, TakePadded;
    if |b| >= 8 && Get32(b, 4) <= |strings| { CStringNoNul(strings[Get32(b, 4)..]); }
  }

  lemma {:induction false} PropsAreNamed(b: Bytes, strings: Bytes)
    ensures ReadProps(b, strings).Some? ==> ReadPropsNamed(ReadProps(b, strings).value.0)
    decreases |b|
  {
    hide ReadProperty, NoNul;
    var token := Token(b);
    if token.Some? && token.value.0 == PropToken {
      PropertyNamed(token.value.1, strings);
      var p := ReadProperty(token.value.1, strings);
      if p.Some? { PropsAreNamed(p.value.1, strings); }
    }
  }

  lemma {:induction false} NodeIsNamed(b: Bytes, strings: Bytes)
    ensures ReadNode(b, strings).Some? ==>
              NoNul(ReadNode(b, strings).value.0) && ReadTreeNamed(ReadNode(b, strings).value.1)
    decreases |b|, 1
  {
    hide CString, NoNul, TakePadded, ReadProps, ReadKids, ReadPropsNamed, ReadForestNamed;
    CStringNoNul(b);
    var name := CString(b);
    if name.Some? {
      var padded := TakePadded(b, |name.value| + 1);
      TakesSome(b, |name.value| + 1);
      if padded.Some? {
        PropsAreNamed(padded.value.1, strings);
        var props := ReadProps(padded.value.1, strings);
        if props.Some? { KidsAreNamed(props.value.1, strings); }
      }
    }
  }

  lemma TakesSome(b: Bytes, n: nat)
    requires n > 0
    ensures TakePadded(b, n).Some? ==> |TakePadded(b, n).value.1| < |b|
  {
  }

  lemma {:induction false} KidsAreNamed(b: Bytes, strings: Bytes)
    ensures ReadKids(b, strings).Some? ==> ReadForestNamed(ReadKids(b, strings).value.0)
    decreases |b|, 0
  {
    hide ReadNode, NoNul, ReadTreeNamed;
    var token := Token(b);
    if token.Some? && token.value.0 == BeginNode {
      NodeIsNamed(token.value.1, strings);
      var node := ReadNode(token.value.1, strings);
      if node.Some? { KidsAreNamed(node.value.2, strings); }
    }
  }

  lemma {:induction false} TreeRecoveredNamed(t: Tree, read: ReadTree)
    requires ReadTreeNamed(read) && TreeRecovered(t, read)
    ensures TreeNamed(t)
  {
    hide Recovers, NoNul;
    assert forall i :: 0 <= i < |t.props| ==> read.props[i].name == t.props[i].name;
    ForestRecoveredNamed(t.kids, read.kids);
  }

  lemma {:induction false} ForestRecoveredNamed(f: Forest, read: ReadForest)
    requires ReadForestNamed(read) && ForestRecovered(f, read)
    ensures ForestNamed(f)
  {
    if f.Cons? {
      TreeRecoveredNamed(f.tree, read.tree);
      ForestRecoveredNamed(f.rest, read.rest);
    }
  }

  lemma BlobIsNamed(b: Bytes)
    ensures ReadBlob(b).Some? ==>
              ReadTreeNamed(ReadBlob(b).value.root) && Reservation(0, 0) !in ReadBlob(b).value.reservations
  {
    if HeaderValid(b) {
      HeaderValidParts(b);
      hide HeaderValid, Get32, Token, ReadNode, ReadReservations, ReadTreeNamed;
      var structure := b[Get32(b, 8)..Get32(b, 8) + Get32(b, 36)];
      var strings := b[Get32(b, 12)..Get32(b, 12) + Get32(b, 32)];
      ReservationsNotLast(b[Get32(b, 16)..]);
      var token := Token(structure);
      if token.Some? { NodeIsNamed(token.value.1, strings); }
    }
  }

  // ---------------------------------------------------------------------------
  // The round trip

  /** A blob of what was given, its numbers stored as the program stores them. */
  function Written(t: Tree, regions: seq<Region>, bootCpu: int): Bytes
    requires Fits(t, Stored(regions))
  {
    BlobBytes(t, Stored(regions), bootCpu % 0x1_0000_0000)
  }

  /**
   A reader that follows chapter 5 of the Devicetree Specification has the tree,
   the values, the reservations and the boot CPU back exactly if no name has a
   NUL in it, every number fits its cell, every typed array spans its buffer and
   no reservation is (0, 0).
   */
  lemma BlobReadsExactly(t: Tree, regions: seq<Region>, bootCpu: int)
    requires Fits(t, Stored(regions))
    ensures Recovered(ReadBlob(Written(t, regions, bootCpu)), t, regions, bootCpu)
       <==> TreeNamed(t) && TreeWhole(t) && RegionsWhole(regions) && Fits32(bootCpu)
  {
    hide BlobBytes, ReadBlob, TreeNamed, TreeWhole, TreeSeen, TreeRecovered, ReadTreeNamed, Fits, Fits32, Stored,
      RegionsWhole, RegionsRecovered;
    var rs := Stored(regions);
    var b := Written(t, regions, bootCpu);
    TreeSeenRecovers(t);
    StoredRecovers(regions);
    WrappedIsSame(bootCpu);
    if TreeNamed(t) && Reservation(0, 0) !in rs {
      BlobReads(t, rs, bootCpu % 0x1_0000_0000);
    } else if Recovered(ReadBlob(b), t, regions, bootCpu) {
      BlobIsNamed(b);
      TreeRecoveredNamed(t, ReadBlob(b).value.root);
      RecoveredIsStored(regions, ReadBlob(b).value.reservations);
    }
  }

  /** Reservations that came back are those stored. */
  lemma RecoveredIsStored(regions: seq<Region>, read: seq<Reservation>)
    requires RegionsRecovered(regions, read)
    ensures read == Stored(regions)
  {
    forall i | 0 <= i < |regions| ensures read[i] == Stored(regions)[i] {
      WrappedIsSame(regions[i].address);
      WrappedIsSame(regions[i].size);
    }
  }

  // ---------------------------------------------------------------------------
  // One input of each failing kind

  lemma OneName(p: Prop)
    ensures NamesOf(Tree([p], Nil), []) == [p.name]
  {
    hide IsIndex;
    var names := NamesOfProps([p][1..], Placed([], p.name));
    assert NamesOfProps([p], []) == names == [p.name];
  }

  lemma OneNameFits(p: Prop, rs: seq<Reservation>)
    requires |p.name| <= MaxName && |ValueBytes(p.value)| <= 8 && |rs| <= 1
    ensures Fits(Tree([p], Nil), rs)
  {
    hide ValueBytes, NamesOf, Be32;
    var t := Tree([p], Nil);
    OneName(p);
    assert StringsBytes([p.name]) == p.name + [0] by {
      assert [p.name][..0] == [] && [] + (p.name + [0]) == p.name + [0];
    }
    assert Sized(p) && TreeSized(t);
    assert PropsBytes([p], map[]) == PropBytes(p, map[]) by {
      assert [p][1..] == [] && PropBytes(p, map[]) + [] == PropBytes(p, map[]);
    }
    assert |PropBytes(p, map[])| <= 12 + 8 + 3;
    assert |NodeBytes(t, [], map[])| <= 4 + 4 + 23 + 4;
    assert |StructBytes(t, map[])| <= 39;
  }

  /** What a reader gets of a tree of one property. */
  lemma OnePropReads(p: Prop)
    requires NoNul(p.name) && Fits(Tree([p], Nil), [])
    ensures ReadBlob(BlobBytes(Tree([p], Nil), [], 0))
         == Some(Blob(ReadTree([ReadProp(p.name, ValueBytes(p.value))], ReadNil), [], 0))
  {
    hide BlobBytes, ReadBlob, Fits, ValueBytes;
    var t := Tree([p], Nil);
    assert PropsSeen([p]) == [ReadProp(p.name, ValueBytes(p.value))] by {
      assert [p][1..] == [] && PropsSeen([]) == [];
    }
    assert TreeNamed(t) && TreeSeen(t) == ReadTree(PropsSeen([p]), ReadNil);
    BlobReads(t, [], 0);
  }

  /** A Uint8Array over the middle byte of three comes back as all three. */
  lemma PartialArrayComesBackWhole()
    ensures var t := Tree([Prop([97], Typed(ArrayView([1, 2, 3], 1, 1)))], Nil);
            && Fits(t, [])
            && ReadBlob(BlobBytes(t, [], 0)) == Some(Blob(ReadTree([ReadProp([97], [1, 2, 3])], ReadNil), [], 0))
  {
    hide BlobBytes, ReadBlob, Fits;
    var p := Prop([97], Typed(ArrayView([1, 2, 3], 1, 1)));
    OneNameFits(p, []);
    OnePropReads(p);
  }

  /** 2^32 comes back as 0. */
  lemma LargeNumberWraps()
    ensures var t := Tree([Prop([97], Number(0x1_0000_0000))], Nil);
            && Fits(t, [])
            && ReadBlob(BlobBytes(t, [], 0)) == Some(Blob(ReadTree([ReadProp([97], Be32(0))], ReadNil), [], 0))
  {
    hide BlobBytes, ReadBlob, Fits, Be32;
    var p := Prop([97], Number(0x1_0000_0000));
    OneNameFits(p, []);
    OnePropReads(p);
  }

  /** A name with a NUL in it does not come back. */
  lemma NulIsLost()
    ensures var t := Tree([Prop([97, 0, 98], Undefined)], Nil);
            Fits(t, Stored([])) && !Recovered(ReadBlob(Written(t, [], 0)), t, [], 0)
  {
    var p := Prop([97, 0, 98], Undefined);
    var t := Tree([p], Nil);
    OneNameFits(p, Stored([]));
    assert p.name[1] == 0 && t.props[0] == p;
    hide BlobBytes, ReadBlob, Fits, Stored;
    BlobReadsExactly(t, [], 0);
  }

  /** Nor does an empty reservation at address 0. */
  lemma ZeroReservationIsLost()
    ensures var t, regions := Tree([Prop([97], Undefined)], Nil), [Region(0, 0)];
            Fits(t, Stored(regions)) && !Recovered(ReadBlob(Written(t, regions, 0)), t, regions, 0)
  {
    var p, regions := Prop([97], Undefined), [Region(0, 0)];
    OneNameFits(p, Stored(regions));
    assert regions[0] == Region(0, 0);
    hide BlobBytes, ReadBlob, Fits, Stored;
    BlobReadsExactly(Tree([p], Nil), regions, 0);
  }
}
