/**
 The flattened devicetree (packages/kernel/src/devicetree.ts): its bytes, and a
 reader that follows chapter 5 of the Devicetree Specification.
 */
module Devicetree {
  import opened Wrappers
  import opened BigEndian
  import opened GrowingBytes
  import opened ObjectKeys

  const Magic: u32 := 0xd00dfeed
  const BeginNode: u32 := 1
  const EndNode: u32 := 2
  const PropToken: u32 := 3
  const Nop: u32 := 4
  const EndToken: u32 := 9
  const HeaderSize: nat := 40
  const MaxName: nat := 31

  /** A typed array: a stretch of the bytes of a buffer. */
  datatype ArrayView = ArrayView(buffer: Bytes, offset: nat, length: nat)

  type TypedArray = v: ArrayView | v.offset + v.length <= |v.buffer| witness ArrayView([], 0, 0)

  /** The kinds of property value the program takes. */
  datatype Value =
    | Number(n: int)                 // DataView.setUint32 keeps it modulo 2^32
    | Big(n: int)                    // setBigUint64 modulo 2^64
    | Text(utf8: Bytes)
    | Numbers(ns: seq<int>)
    | Typed(view: TypedArray)
    | Raw(bytes: Bytes)              // an ArrayBuffer
    | Undefined
    | Nested                         // a plain object taken for a value, which the program cannot write

  datatype Prop = Prop(name: Bytes, value: Value)

  /** A node's properties and its children, each in the order they are written. */
  datatype Tree = Tree(props: seq<Prop>, kids: Forest)

  datatype Forest = Nil | Cons(name: Bytes, tree: Tree, rest: Forest)

  datatype Reservation = Reservation(address: u64, size: u64)

  /** A reservation as given: setBigUint64 keeps its numbers modulo 2^64. */
  datatype Region = Region(address: int, size: int)

  function Stored(regions: seq<Region>): (rs: seq<Reservation>)
    ensures |rs| == |regions|
  {
    seq(|regions|, i requires 0 <= i < |regions| =>
      Reservation(regions[i].address % 0x1_0000_0000_0000_0000, regions[i].size % 0x1_0000_0000_0000_0000))
  }

  /** What the blob says of a property: its name and its bytes. */
  datatype ReadProp = ReadProp(name: Bytes, value: Bytes)

  datatype ReadTree = ReadTree(props: seq<ReadProp>, kids: ReadForest)

  datatype ReadForest = ReadNil | ReadCons(name: Bytes, tree: ReadTree, rest: ReadForest)

  datatype Blob = Blob(root: ReadTree, reservations: seq<Reservation>, bootCpu: u32)

  // ---------------------------------------------------------------------------
  // What is written

  function NumbersBytes(ns: seq<int>): Bytes
  {
    if ns == [] then [] else Be32(ns[0] % 0x1_0000_0000) + NumbersBytes(ns[1..])
  }

  /** What the program writes for a value: of a typed array, its whole buffer. */
  function ValueBytes(v: Value): Bytes
  {
    match v
    case Number(n) => Be32(n % 0x1_0000_0000)
    case Big(n) => Be64(n % 0x1_0000_0000_0000_0000)
    case Text(utf8) => utf8 + [0]
    case Numbers(ns) => NumbersBytes(ns)
    case Typed(view) => view.buffer
    case Raw(bytes) => bytes
    case Undefined => []
    case Nested => []
  }

  /** How many zero bytes bring a length to a multiple of four. */
  function Gap(length: nat): (n: nat)
    ensures Aligned(length + n) && n < 4
  {
    if length % 4 == 0 then 0 else 4 - length % 4
  }

  predicate Aligned(length: nat)
  {
    length % 4 == 0
  }

  function Padded(b: Bytes): (p: Bytes)
    ensures Aligned(|p|) && |p| >= |b|
  {
    b + Zeros(Gap(|b|))
  }

  /** Where each property name is in the strings block; 0 until that is known. */
  type Offsets = map<Bytes, u32>

  function OffsetOf(offsets: Offsets, name: Bytes): u32
  {
    if name in offsets then offsets[name] else 0
  }

  predicate Sized(p: Prop)
  {
    |ValueBytes(p.value)| < 0x1_0000_0000
  }

  predicate AllSized(props: seq<Prop>)
  {
    forall i :: 0 <= i < |props| ==> Sized(props[i])
  }

  predicate TreeSized(t: Tree)
  {
    AllSized(t.props) && ForestSized(t.kids)
  }

  predicate ForestSized(f: Forest)
  {
    f.Cons? ==> TreeSized(f.tree) && ForestSized(f.rest)
  }

  function PropBytes(p: Prop, offsets: Offsets): Bytes
    requires Sized(p)
  {
    Be32(PropToken) + Be32(|ValueBytes(p.value)|) + Be32(OffsetOf(offsets, p.name)) + Padded(ValueBytes(p.value))
  }

  function PropsBytes(props: seq<Prop>, offsets: Offsets): Bytes
    requires AllSized(props)
  {
    if props == [] then [] else PropBytes(props[0], offsets) + PropsBytes(props[1..], offsets)
  }

  /** A node, its properties before its children. */
  function NodeBytes(t: Tree, name: Bytes, offsets: Offsets): Bytes
    requires TreeSized(t)
  {
    Be32(BeginNode) + Padded(name + [0]) + PropsBytes(t.props, offsets) + ForestBytes(t.kids, offsets) + Be32(EndNode)
  }

  function ForestBytes(f: Forest, offsets: Offsets): Bytes
    requires ForestSized(f)
  {
    match f
    case Nil => []
    case Cons(name, tree, rest) => NodeBytes(tree, name, offsets) + ForestBytes(rest, offsets)
  }

  function ReservationsBytes(rs: seq<Reservation>): (b: Bytes)
    ensures |b| == 16 * |rs| + 16
  {
    if rs == [] then Be64(0) + Be64(0) else Be64(rs[0].address) + Be64(rs[0].size) + ReservationsBytes(rs[1..])
  }

  /** The keys of the object that collects property names, once these have been added. */
  function NamesOfProps(props: seq<Prop>, seen: seq<Bytes>): seq<Bytes>
  {
    if props == [] then seen
    else NamesOfProps(props[1..], if props[0].name in seen then seen else Placed(seen, props[0].name))
  }

  function NamesOf(t: Tree, seen: seq<Bytes>): seq<Bytes>
  {
    NamesOfForest(t.kids, NamesOfProps(t.props, seen))
  }

  function NamesOfForest(f: Forest, seen: seq<Bytes>): seq<Bytes>
  {
    match f
    case Nil => seen
    case Cons(_, tree, rest) => NamesOfForest(rest, NamesOf(tree, seen))
  }

  /** The strings block: every name once, with its NUL. */
  function StringsBytes(names: seq<Bytes>): Bytes
  {
    if names == [] then [] else StringsBytes(names[..|names| - 1]) + (names[|names| - 1] + [0])
  }

  /** Where each name starts in the strings block. */
  function OffsetsIn(names: seq<Bytes>): Offsets
    requires |StringsBytes(names)| < 0x1_0000_0000
  {
    if names == [] then map[]
    else OffsetsIn(names[..|names| - 1])[names[|names| - 1] := |StringsBytes(names[..|names| - 1])|]
  }

  function Header(total: u32, structAt: u32, stringsAt: u32, reservationsAt: u32, bootCpu: u32, stringsSize: u32,
                  structSize: u32): (h: Bytes)
    ensures |h| == HeaderSize
  {
    Be32(Magic) + Be32(total) + Be32(structAt) + Be32(stringsAt) + Be32(reservationsAt)
    + Be32(17) + Be32(16) + Be32(bootCpu) + Be32(stringsSize) + Be32(structSize)
  }

  /** The structure block. */
  function StructBytes(t: Tree, offsets: Offsets): Bytes
    requires TreeSized(t)
  {
    NodeBytes(t, [], offsets) + Be32(EndToken)
  }

  predicate Fits(t: Tree, rs: seq<Reservation>)
  {
    && TreeSized(t)
    && HeaderSize + |ReservationsBytes(rs)| + |StructBytes(t, map[])| + |StringsBytes(NamesOf(t, []))| < 0x1_0000_0000
  }

  /** The whole blob. */
  function BlobBytes(t: Tree, rs: seq<Reservation>, bootCpu: u32): Bytes
    requires Fits(t, rs)
  {
    var names := NamesOf(t, []);
    var strings := StringsBytes(names);
    var structure := StructBytes(t, OffsetsIn(names));
    StructLength(t, OffsetsIn(names), map[]);
    var structAt := HeaderSize + |ReservationsBytes(rs)|;
    var stringsAt := structAt + |structure|;
    Header(stringsAt + |strings|, structAt, stringsAt, HeaderSize, bootCpu, |strings|, |structure|)
    + ReservationsBytes(rs) + structure + strings
  }

  lemma StructLength(t: Tree, a: Offsets, b: Offsets)
    requires TreeSized(t)
    ensures |StructBytes(t, a)| == |StructBytes(t, b)|
  {
    NodeLength(t, [], a, b);
  }

  lemma {:induction false} PropsLength(props: seq<Prop>, a: Offsets, b: Offsets)
    requires AllSized(props)
    ensures |PropsBytes(props, a)| == |PropsBytes(props, b)|
  {
    if props != [] { PropsLength(props[1..], a, b); }
  }

  lemma {:induction false} NodeLength(t: Tree, name: Bytes, a: Offsets, b: Offsets)
    requires TreeSized(t)
    ensures |NodeBytes(t, name, a)| == |NodeBytes(t, name, b)|
  {
    PropsLength(t.props, a, b);
    ForestLength(t.kids, a, b);
  }

  lemma {:induction false} ForestLength(f: Forest, a: Offsets, b: Offsets)
    requires ForestSized(f)
    ensures |ForestBytes(f, a)| == |ForestBytes(f, b)|
  {
    if f.Cons? {
      NodeLength(f.tree, f.name, a, b);
      ForestLength(f.rest, a, b);
    }
  }

  // ---------------------------------------------------------------------------
  // What a reader reads

  /** The bytes before the first NUL, if there is one. */
  function CString(b: Bytes): Option<Bytes>
  {
    if b == [] then None
    else if b[0] == 0 then Some([])
    else
      match CString(b[1..])
      case None => None
      case Some(s) => Some([b[0]] + s)
  }

  function SkipNops(b: Bytes): (r: Bytes)
    ensures |r| <= |b|
    decreases |b|
  {
    if |b| >= 4 && Get32(b, 0) == Nop then SkipNops(b[4..]) else b
  }

  /** One token, NOPs before it skipped. */
  function Token(b: Bytes): (r: Option<(u32, Bytes)>)
    ensures r.Some? ==> |r.value.1| < |b|
  {
    var rest := SkipNops(b);
    if |rest| < 4 then None else Some((Get32(rest, 0), rest[4..]))
  }

  /** n bytes and the padding after them. */
  function TakePadded(b: Bytes, n: nat): (r: Option<(Bytes, Bytes)>)
    ensures r.Some? ==> |r.value.1| <= |b|
  {
    var m := n + Gap(n);
    if |b| < m then None else Some((b[..n], b[m..]))
  }

  function ReadProperty(b: Bytes, strings: Bytes): (r: Option<(ReadProp, Bytes)>)
    ensures r.Some? ==> |r.value.1| <= |b|
  {
    if |b| < 8 then None
    else
      var length, offset := Get32(b, 0), Get32(b, 4);
      if offset > |strings| then None
      else
        match CString(strings[offset..])
        case None => None
        case Some(name) =>
          match TakePadded(b[8..], length)
          case None => None
          case Some((value, rest)) => Some((ReadProp(name, value), rest))
  }

  function ReadProps(b: Bytes, strings: Bytes): (r: Option<(seq<ReadProp>, Bytes)>)
    ensures r.Some? ==> |r.value.1| <= |b|
    decreases |b|
  {
    match Token(b)
    case None => None
    case Some((token, rest)) =>
      if token != PropToken then Some(([], b))
      else
        match ReadProperty(rest, strings)
        case None => None
        case Some((p, after)) =>
          match ReadProps(after, strings)
          case None => None
          case Some((props, end)) => Some(([p] + props, end))
  }

  /** A node after its BEGIN_NODE token. */
  function ReadNode(b: Bytes, strings: Bytes): (r: Option<(Bytes, ReadTree, Bytes)>)
    ensures r.Some? ==> |r.value.2| < |b|
    decreases |b|, 1
  {
    match CString(b)
    case None => None
    case Some(name) =>
      match TakePadded(b, |name| + 1)
      case None => None
      case Some((_, body)) =>
        match ReadProps(body, strings)
        case None => None
        case Some((props, afterProps)) =>
          match ReadKids(afterProps, strings)
          case None => None
          case Some((kids, end)) => Some((name, ReadTree(props, kids), end))
  }

  /** Child nodes through the parent's END_NODE token. */
  function ReadKids(b: Bytes, strings: Bytes): (r: Option<(ReadForest, Bytes)>)
    ensures r.Some? ==> |r.value.1| < |b|
    decreases |b|, 0
  {
    match Token(b)
    case None => None
    case Some((token, rest)) =>
      if token == EndNode then Some((ReadNil, rest))
      else if token != BeginNode then None
      else
        match ReadNode(rest, strings)
        case None => None
        case Some((name, tree, after)) =>
          match ReadKids(after, strings)
          case None => None
          case Some((kids, end)) => Some((ReadCons(name, tree, kids), end))
  }

  function ReadReservations(b: Bytes): Option<seq<Reservation>>
    decreases |b|
  {
    if |b| < 16 then None
    else
      var r := Reservation(Get64(b, 0), Get64(b, 8));
      if r == Reservation(0, 0) then Some([])
      else
        match ReadReservations(b[16..])
        case None => None
        case Some(more) => Some([r] + more)
  }

  /** The header's fields point where they should, and its version can be read. */
  predicate HeaderValid(b: Bytes)
  {
    && |b| >= HeaderSize && Get32(b, 0) == Magic && Get32(b, 4) == |b|
    && Get32(b, 20) == 17 && Get32(b, 24) == 16
    && Get32(b, 16) % 8 == 0 && HeaderSize <= Get32(b, 16) <= |b|
    && Get32(b, 8) % 4 == 0 && Get32(b, 8) + Get32(b, 36) <= |b|
    && Get32(b, 12) + Get32(b, 32) <= |b|
  }

  function ReadBlob(b: Bytes): Option<Blob>
  {
    if !HeaderValid(b) then None
    else
      var structure := b[Get32(b, 8)..Get32(b, 8) + Get32(b, 36)];
      var strings := b[Get32(b, 12)..Get32(b, 12) + Get32(b, 32)];
      match ReadReservations(b[Get32(b, 16)..])
      case None => None
      case Some(reservations) =>
        match Token(structure)
        case None => None
        case Some((begin, rest)) =>
          if begin != BeginNode then None
          else
            match ReadNode(rest, strings)
            case None => None
            case Some((name, root, end)) =>
              if name != [] || end != Be32(EndToken) then None
              else Some(Blob(root, reservations, Get32(b, 28)))
  }

  // ---------------------------------------------------------------------------
  // The round trip

  predicate NoNul(b: Bytes)
  {
    0 !in b
  }

  /** Names that can be told apart from their NUL. */
  predicate PropsNamed(props: seq<Prop>)
  {
    forall i :: 0 <= i < |props| ==> NoNul(props[i].name)
  }

  predicate TreeNamed(t: Tree)
  {
    PropsNamed(t.props) && ForestNamed(t.kids)
  }

  predicate ForestNamed(f: Forest)
  {
    f.Cons? ==> NoNul(f.name) && TreeNamed(f.tree) && ForestNamed(f.rest)
  }

  function PropsSeen(props: seq<Prop>): seq<ReadProp>
  {
    if props == [] then [] else [ReadProp(props[0].name, ValueBytes(props[0].value))] + PropsSeen(props[1..])
  }

  /** The tree as its bytes give it. */
  function TreeSeen(t: Tree): ReadTree
  {
    ReadTree(PropsSeen(t.props), ForestSeen(t.kids))
  }

  function ForestSeen(f: Forest): ReadForest
  {
    match f
    case Nil => ReadNil
    case Cons(name, tree, rest) => ReadCons(name, TreeSeen(tree), ForestSeen(rest))
  }

  /** Where the strings block has a name. */
  predicate Resolves(offsets: Offsets, strings: Bytes, name: Bytes)
  {
    name in offsets && offsets[name] <= |strings| && CString(strings[offsets[name]..]) == Some(name)
  }

  predicate PropsResolve(props: seq<Prop>, offsets: Offsets, strings: Bytes)
  {
    forall i :: 0 <= i < |props| ==> Resolves(offsets, strings, props[i].name)
  }

  predicate TreeResolves(t: Tree, offsets: Offsets, strings: Bytes)
  {
    PropsResolve(t.props, offsets, strings) && ForestResolves(t.kids, offsets, strings)
  }

  predicate ForestResolves(f: Forest, offsets: Offsets, strings: Bytes)
  {
    f.Cons? ==> TreeResolves(f.tree, offsets, strings) && ForestResolves(f.rest, offsets, strings)
  }

  lemma {:induction false} CStringReads(name: Bytes, more: Bytes)
    requires NoNul(name)
    ensures CString(name + [0] + more) == Some(name)
  {
    if name == [] {
      assert ([] + [0] + more)[0] == 0;
    } else {
      assert (name + [0] + more)[1..] == name[1..] + [0] + more;
      CStringReads(name[1..], more);
      assert [name[0]] + name[1..] == name;
    }
  }

  lemma TokenReads(x: u32, rest: Bytes)
    requires x != Nop
    ensures Token(Be32(x) + rest) == Some((x, rest))
  {
    hide Be32, Get32;
    Get32Be32(x, [], rest);
    assert [] + Be32(x) + rest == Be32(x) + rest;
    assert (Be32(x) + rest)[4..] == rest;
  }

  lemma PaddedReads(b: Bytes, rest: Bytes)
    ensures TakePadded(Padded(b) + rest, |b|) == Some((b, rest))
  {
    var all := Padded(b) + rest;
    assert all[..|b|] == b && all[|Padded(b)|..] == rest;
  }

  lemma PropReads(p: Prop, offsets: Offsets, strings: Bytes, rest: Bytes)
    requires Sized(p) && Resolves(offsets, strings, p.name)
    ensures var b := Be32(|ValueBytes(p.value)|) + Be32(OffsetOf(offsets, p.name)) + Padded(ValueBytes(p.value));
            ReadProperty(b + rest, strings) == Some((ReadProp(p.name, ValueBytes(p.value)), rest))
  {
    hide Be32, Get32, CString, Padded, TakePadded, ValueBytes;
    var value := ValueBytes(p.value);
    var length, offset := Be32(|value|), Be32(OffsetOf(offsets, p.name));
    var after := Padded(value) + rest;
    var b := length + offset + Padded(value) + rest;
    Get32Be32(|value|, [], offset + after);
    Get32Be32(OffsetOf(offsets, p.name), length, after);
    assert b == [] + length + (offset + after) && b == length + offset + after;
    assert b[8..] == after;
    PaddedReads(value, rest);
  }

  /** Something a property list stops at. */
  predicate NotProp(b: Bytes)
  {
    Token(b).Some? && Token(b).value.0 != PropToken
  }

  lemma {:induction false} PropsRead(props: seq<Prop>, offsets: Offsets, strings: Bytes, rest: Bytes)
    requires AllSized(props) && PropsResolve(props, offsets, strings) && NotProp(rest)
    ensures ReadProps(PropsBytes(props, offsets) + rest, strings) == Some((PropsSeen(props), rest))
    decreases |props|
  {
    hide Be32, Token, ReadProperty, Padded, Sized, Resolves, ValueBytes;
    if props == [] {
      assert [] + rest == rest;
    } else {
      var p, after := props[0], PropsBytes(props[1..], offsets) + rest;
      SizedIs(p);
      var b := Be32(|ValueBytes(p.value)|) + Be32(OffsetOf(offsets, p.name)) + Padded(ValueBytes(p.value));
      TokenReads(PropToken, b + after);
      PropReads(p, offsets, strings, after);
      PropBytesIs(p, offsets);
      assert PropsBytes(props, offsets) + rest == Be32(PropToken) + (b + after);
      PropsRead(props[1..], offsets, strings, rest);
    }
  }

  lemma SizedIs(p: Prop)
    requires Sized(p)
    ensures |ValueBytes(p.value)| < 0x1_0000_0000
  {
  }

  lemma PropBytesIs(p: Prop, offsets: Offsets)
    requires Sized(p)
    ensures PropBytes(p, offsets)
         == Be32(PropToken)
            + (Be32(|ValueBytes(p.value)|) + Be32(OffsetOf(offsets, p.name)) + Padded(ValueBytes(p.value)))
  {
    hide Be32, Padded, ValueBytes;
  }

  lemma StartsNode(t: Tree, name: Bytes, offsets: Offsets, rest: Bytes)
    requires TreeSized(t)
    ensures Token(NodeBytes(t, name, offsets) + rest)
         == Some((BeginNode,
                  Padded(name + [0])
                  + (PropsBytes(t.props, offsets) + (ForestBytes(t.kids, offsets) + Be32(EndNode) + rest))))
  {
    hide Be32, Padded, PropsBytes, ForestBytes, Token;
    var after := Padded(name + [0])
    + (PropsBytes(t.props, offsets) + (ForestBytes(t.kids, offsets) + Be32(EndNode) + rest));
    TokenReads(BeginNode, after);
    assert NodeBytes(t, name, offsets) + rest == Be32(BeginNode) + after;
  }

  /** What follows a node's properties is not a property. */
  lemma KidsNotProp(f: Forest, offsets: Offsets, rest: Bytes)
    requires ForestSized(f)
    ensures NotProp(ForestBytes(f, offsets) + Be32(EndNode) + rest)
  {
    hide Be32, Token, NodeBytes, Padded, PropsBytes, ForestBytes;
    ForestHead(f, offsets, rest);
    if f.Nil? {
      TokenReads(EndNode, rest);
    } else {
      StartsNode(f.tree, f.name, offsets, ForestBytes(f.rest, offsets) + Be32(EndNode) + rest);
    }
  }

  lemma ForestHead(f: Forest, offsets: Offsets, rest: Bytes)
    requires ForestSized(f)
    ensures ForestBytes(f, offsets) + Be32(EndNode) + rest
         == if f.Nil? then Be32(EndNode) + rest
            else NodeBytes(f.tree, f.name, offsets) + (ForestBytes(f.rest, offsets) + Be32(EndNode) + rest)
  {
    hide Be32, NodeBytes;
    if f.Nil? {
      assert [] + Be32(EndNode) + rest == Be32(EndNode) + rest;
    } else {
      assert ForestBytes(f, offsets) + Be32(EndNode) + rest
          == NodeBytes(f.tree, f.name, offsets) + (ForestBytes(f.rest, offsets) + Be32(EndNode) + rest);
    }
  }

  lemma NameReads(name: Bytes, rest: Bytes)
    requires NoNul(name)
    ensures CString(Padded(name + [0]) + rest) == Some(name)
    ensures TakePadded(Padded(name + [0]) + rest, |name| + 1) == Some((name + [0], rest))
  {
    PaddedReads(name + [0], rest);
    var more := Zeros(Gap(|name + [0]|)) + rest;
    CStringReads(name, more);
    assert Padded(name + [0]) + rest == name + [0] + more;
  }

  /** A node's bytes read back as the node, and nothing beyond it. */
  lemma {:induction false} NodeReads(t: Tree, name: Bytes, offsets: Offsets, strings: Bytes, rest: Bytes)
    requires TreeSized(t) && TreeNamed(t) && NoNul(name) && TreeResolves(t, offsets, strings)
    ensures var afterProps := ForestBytes(t.kids, offsets) + Be32(EndNode) + rest;
            var b := Padded(name + [0]) + (PropsBytes(t.props, offsets) + afterProps);
            ReadNode(b, strings) == Some((name, TreeSeen(t), rest))
  {
    hide Be32, Padded, PropsBytes, ForestBytes, NotProp, CString, TakePadded, ReadProps, ReadKids, PropsSeen,
      ForestSeen, AllSized, PropsResolve;
    var afterProps := ForestBytes(t.kids, offsets) + Be32(EndNode) + rest;
    NameReads(name, PropsBytes(t.props, offsets) + afterProps);
    KidsNotProp(t.kids, offsets, rest);
    PropsRead(t.props, offsets, strings, afterProps);
    KidsRead(t.kids, offsets, strings, rest);
  }

  lemma {:induction false} KidsRead(f: Forest, offsets: Offsets, strings: Bytes, rest: Bytes)
    requires ForestSized(f) && ForestNamed(f) && ForestResolves(f, offsets, strings)
    ensures ReadKids(ForestBytes(f, offsets) + Be32(EndNode) + rest, strings) == Some((ForestSeen(f), rest))
  {
    hide Be32, Padded, PropsBytes, NodeBytes, ForestBytes, Token, ReadNode, TreeSeen;
    ForestHead(f, offsets, rest);
    if f.Nil? {
      TokenReads(EndNode, rest);
    } else {
      var after := ForestBytes(f.rest, offsets) + Be32(EndNode) + rest;
      StartsNode(f.tree, f.name, offsets, after);
      NodeReads(f.tree, f.name, offsets, strings, after);
      KidsRead(f.rest, offsets, strings, rest);
    }
  }

  // ---------------------------------------------------------------------------
  // Every name resolves

  predicate AllNoNul(names: seq<Bytes>)
  {
    forall i :: 0 <= i < |names| ==> NoNul(names[i])
  }

  predicate PropsIn(props: seq<Prop>, names: seq<Bytes>)
  {
    forall i :: 0 <= i < |props| ==> props[i].name in names
  }

  predicate TreeIn(t: Tree, names: seq<Bytes>)
  {
    PropsIn(t.props, names) && ForestIn(t.kids, names)
  }

  predicate ForestIn(f: Forest, names: seq<Bytes>)
  {
    f.Cons? ==> TreeIn(f.tree, names) && ForestIn(f.rest, names)
  }

  predicate Within(a: seq<Bytes>, b: seq<Bytes>)
  {
    forall n :: n in a ==> n in b
  }

  lemma {:induction false} TreeInMore(t: Tree, a: seq<Bytes>, b: seq<Bytes>)
    requires TreeIn(t, a) && Within(a, b)
    ensures TreeIn(t, b)
  {
    ForestInMore(t.kids, a, b);
  }

  lemma {:induction false} ForestInMore(f: Forest, a: seq<Bytes>, b: seq<Bytes>)
    requires ForestIn(f, a) && Within(a, b)
    ensures ForestIn(f, b)
  {
    if f.Cons? {
      TreeInMore(f.tree, a, b);
      ForestInMore(f.rest, a, b);
    }
  }

  /** A list of names that keeps those seen, has no NUL and is in the order of an object's keys. */
  predicate Collects(seen: seq<Bytes>, names: seq<Bytes>)
  {
    Within(seen, names) && (AllNoNul(seen) ==> AllNoNul(names)) && (Ordered(seen) ==> Ordered(names))
  }

  lemma PlacedCollects(seen: seq<Bytes>, n: Bytes)
    requires NoNul(n)
    ensures Collects(seen, Placed(seen, n))
  {
    hide NoNul, Placed, Ordered;
    if Ordered(seen) { PlacedOrdered(seen, n); }
    if AllNoNul(seen) {
      forall i | 0 <= i < |Placed(seen, n)| ensures NoNul(Placed(seen, n)[i]) {
        assert Placed(seen, n)[i] in Placed(seen, n);
      }
    }
  }

  lemma {:induction false} PropsNames(props: seq<Prop>, seen: seq<Bytes>)
    requires PropsNamed(props)
    ensures Collects(seen, NamesOfProps(props, seen)) && PropsIn(props, NamesOfProps(props, seen))
    decreases |props|
  {
    hide NoNul, Placed, Ordered;
    if props != [] {
      var next := if props[0].name in seen then seen else Placed(seen, props[0].name);
      PlacedCollects(seen, props[0].name);
      PropsNames(props[1..], next);
    }
  }

  lemma {:induction false} TreeNames(t: Tree, seen: seq<Bytes>)
    requires TreeNamed(t)
    ensures Collects(seen, NamesOf(t, seen)) && TreeIn(t, NamesOf(t, seen))
  {
    hide AllNoNul, NoNul, Ordered;
    var next := NamesOfProps(t.props, seen);
    PropsNames(t.props, seen);
    ForestNames(t.kids, next);
  }

  lemma {:induction false} ForestNames(f: Forest, seen: seq<Bytes>)
    requires ForestNamed(f)
    ensures Collects(seen, NamesOfForest(f, seen)) && ForestIn(f, NamesOfForest(f, seen))
  {
    hide TreeIn, AllNoNul, NoNul, Ordered;
    if f.Cons? {
      var next := NamesOf(f.tree, seen);
      TreeNames(f.tree, seen);
      ForestNames(f.rest, next);
      TreeInMore(f.tree, next, NamesOfForest(f, seen));
    }
  }

  lemma {:induction false} CStringMore(b: Bytes, more: Bytes)
    requires CString(b).Some?
    ensures CString(b + more) == CString(b)
  {
    if b != [] && b[0] != 0 {
      assert (b + more)[1..] == b[1..] + more;
      CStringMore(b[1..], more);
    }
  }

  lemma {:induction false} NamesResolve(names: seq<Bytes>, n: Bytes)
    requires AllNoNul(names) && |StringsBytes(names)| < 0x1_0000_0000 && n in names
    ensures Resolves(OffsetsIn(names), StringsBytes(names), n)
    decreases |names|
  {
    var init, last := names[..|names| - 1], names[|names| - 1];
    var strings, offset := StringsBytes(init), |StringsBytes(init)|;
    if n == last {
      assert StringsBytes(names)[offset..] == last + [0] + [];
      CStringReads(last, []);
    } else {
      NamesResolve(init, n);
      var at := OffsetsIn(init)[n];
      assert StringsBytes(names)[at..] == strings[at..] + (last + [0]);
      CStringMore(strings[at..], last + [0]);
    }
  }

  predicate AllResolve(names: seq<Bytes>, offsets: Offsets, strings: Bytes)
  {
    forall n :: n in names ==> Resolves(offsets, strings, n)
  }

  lemma {:induction false} TreeInResolves(t: Tree, names: seq<Bytes>, offsets: Offsets, strings: Bytes)
    requires TreeIn(t, names) && AllResolve(names, offsets, strings)
    ensures TreeResolves(t, offsets, strings)
  {
    hide Resolves;
    ForestInResolves(t.kids, names, offsets, strings);
  }

  lemma {:induction false} ForestInResolves(f: Forest, names: seq<Bytes>, offsets: Offsets, strings: Bytes)
    requires ForestIn(f, names) && AllResolve(names, offsets, strings)
    ensures ForestResolves(f, offsets, strings)
  {
    hide AllResolve;
    if f.Cons? {
      TreeInResolves(f.tree, names, offsets, strings);
      ForestInResolves(f.rest, names, offsets, strings);
    }
  }

  /** Every property's nameoff is the place of its own name, and the names are listed in order. */
  lemma EveryNameResolves(t: Tree)
    requires TreeNamed(t) && |StringsBytes(NamesOf(t, []))| < 0x1_0000_0000
    ensures TreeResolves(t, OffsetsIn(NamesOf(t, [])), StringsBytes(NamesOf(t, [])))
    ensures Ordered(NamesOf(t, []))
  {
    hide Resolves, TreeIn, TreeNamed, TreeResolves;
    var names := NamesOf(t, []);
    TreeNames(t, []);
    forall n | n in names ensures Resolves(OffsetsIn(names), StringsBytes(names), n) { NamesResolve(names, n); }
    TreeInResolves(t, names, OffsetsIn(names), StringsBytes(names));
  }

  // ---------------------------------------------------------------------------
  // The whole blob

  lemma ReservationFields(r: Reservation, after: Bytes)
    ensures var b := Be64(r.address) + Be64(r.size) + after;
            Reservation(Get64(b, 0), Get64(b, 8)) == r && b[16..] == after
  {
    hide Be64, Get64;
    Get64Be64(r.address, [], Be64(r.size) + after);
    Get64Be64(r.size, Be64(r.address), after);
    var b := Be64(r.address) + Be64(r.size) + after;
    assert b == [] + Be64(r.address) + (Be64(r.size) + after);
  }

  lemma NextReservation(r: Reservation, after: Bytes)
    ensures ReadReservations(Be64(r.address) + Be64(r.size) + after)
         == if r == Reservation(0, 0) then Some([])
            else match ReadReservations(after)
                 case None => None
                 case Some(more) => Some([r] + more)
  {
    hide Be64, Get64;
    ReservationFields(r, after);
  }

  lemma {:induction false} ReservationsRead(rs: seq<Reservation>, rest: Bytes)
    requires Reservation(0, 0) !in rs
    ensures ReadReservations(ReservationsBytes(rs) + rest) == Some(rs)
    decreases |rs|
  {
    hide Be64, ReadReservations;
    if rs == [] {
      NextReservation(Reservation(0, 0), rest);
    } else {
      var after := ReservationsBytes(rs[1..]) + rest;
      NextReservation(rs[0], after);
      ReservationsRead(rs[1..], rest);
      assert ReservationsBytes(rs) + rest == Be64(rs[0].address) + Be64(rs[0].size) + after;
      assert [rs[0]] + rs[1..] == rs;
    }
  }

  /** Where each header field is. */
  lemma HeaderReads(total: u32, structAt: u32, stringsAt: u32, reservationsAt: u32, bootCpu: u32, stringsSize: u32,
                    structSize: u32, rest: Bytes)
    ensures var b := Header(total, structAt, stringsAt, reservationsAt, bootCpu, stringsSize, structSize) + rest;
            && Get32(b, 0) == Magic && Get32(b, 4) == total && Get32(b, 8) == structAt && Get32(b, 12) == stringsAt
            && Get32(b, 16) == reservationsAt && Get32(b, 20) == 17 && Get32(b, 24) == 16 && Get32(b, 28) == bootCpu
            && Get32(b, 32) == stringsSize && Get32(b, 36) == structSize
  {
    hide Be32, Get32;
    var fields := [Magic, total, structAt, stringsAt, reservationsAt, 17, 16, bootCpu, stringsSize, structSize];
    assert Header(total, structAt, stringsAt, reservationsAt, bootCpu, stringsSize, structSize) == Words(fields) by {
      WordsAre(fields);
    }
    WordAt(fields, 0, rest); WordAt(fields, 1, rest); WordAt(fields, 2, rest); WordAt(fields, 3, rest);
    WordAt(fields, 4, rest);
    WordAt(fields, 5, rest); WordAt(fields, 6, rest); WordAt(fields, 7, rest); WordAt(fields, 8, rest);
    WordAt(fields, 9, rest);
  }

  function Words(fields: seq<u32>): (b: Bytes)
    ensures |b| == 4 * |fields|
  {
    if fields == [] then [] else Words(fields[..|fields| - 1]) + Be32(fields[|fields| - 1])
  }

  lemma WordsAre(f: seq<u32>)
    requires |f| == 10
    ensures Words(f)
         == Be32(f[0]) + Be32(f[1]) + Be32(f[2]) + Be32(f[3]) + Be32(f[4]) + Be32(f[5]) + Be32(f[6]) + Be32(f[7])
            + Be32(f[8]) + Be32(f[9])
  {
    hide Be32;
    WordsGrow(f, 0); WordsGrow(f, 1); WordsGrow(f, 2); WordsGrow(f, 3); WordsGrow(f, 4);
    WordsGrow(f, 5); WordsGrow(f, 6); WordsGrow(f, 7); WordsGrow(f, 8); WordsGrow(f, 9);
    assert f[..0] == [] && f[..10] == f && [] + Be32(f[0]) == Be32(f[0]);
    hide Words;
  }

  lemma WordsGrow(f: seq<u32>, i: nat)
    requires i < |f|
    ensures Words(f[..i + 1]) == Words(f[..i]) + Be32(f[i])
  {
    assert f[..i + 1][..i] == f[..i];
  }

  lemma {:induction false} WordAt(fields: seq<u32>, i: nat, rest: Bytes)
    requires i < |fields|
    ensures Get32(Words(fields) + rest, 4 * i) == fields[i]
    decreases |fields|
  {
    hide Be32, Get32;
    var init, last := fields[..|fields| - 1], fields[|fields| - 1];
    if i == |fields| - 1 {
      Get32Be32(last, Words(init), rest);
    } else {
      WordAt(init, i, Be32(last) + rest);
      assert Words(fields) + rest == Words(init) + (Be32(last) + rest);
    }
  }

  lemma StructReads(t: Tree, offsets: Offsets, strings: Bytes)
    requires TreeSized(t) && TreeNamed(t) && TreeResolves(t, offsets, strings)
    ensures var token := Token(StructBytes(t, offsets));
            && token.Some? && token.value.0 == BeginNode
            && ReadNode(token.value.1, strings) == Some(([], TreeSeen(t), Be32(EndToken)))
  {
    hide Be32, NodeBytes, Token, ReadNode, Padded, PropsBytes, ForestBytes, TreeNamed, TreeResolves, TreeSized;
    StartsNode(t, [], offsets, Be32(EndToken));
    NodeReads(t, [], offsets, strings, Be32(EndToken));
  }

  /** The four parts of a blob, and a header that says where they are. */
  lemma Parts(header: Bytes, reservations: Bytes, structure: Bytes, strings: Bytes)
    requires |header| == HeaderSize
    ensures var b := header + reservations + structure + strings;
            var structAt := HeaderSize + |reservations|;
            var stringsAt := structAt + |structure|;
            && b[HeaderSize..] == reservations + (structure + strings)
            && b[structAt..structAt + |structure|] == structure && b[stringsAt..stringsAt + |strings|] == strings
            && b == header + (reservations + structure + strings)
  {
  }

  lemma ReservationsAligned(rs: seq<Reservation>)
    ensures Aligned(HeaderSize + |ReservationsBytes(rs)|)
  {
  }

  lemma BlobHeaderValid(t: Tree, rs: seq<Reservation>, bootCpu: u32)
    requires Fits(t, rs)
    ensures var b := BlobBytes(t, rs, bootCpu);
            var structAt := HeaderSize + |ReservationsBytes(rs)|;
            var structure := StructBytes(t, OffsetsIn(NamesOf(t, [])));
            && HeaderValid(b) && Get32(b, 16) == HeaderSize && Get32(b, 28) == bootCpu
            && Get32(b, 8) == structAt && Get32(b, 36) == |structure|
            && Get32(b, 12) == structAt + |structure| && Get32(b, 32) == |StringsBytes(NamesOf(t, []))|
  {
    hide Header, StructBytes, StringsBytes, ReservationsBytes, Get32, NamesOf, OffsetsIn, TreeSized;
    var names := NamesOf(t, []);
    var strings, structure := StringsBytes(names), StructBytes(t, OffsetsIn(names));
    StructLength(t, OffsetsIn(names), map[]);
    var structAt := HeaderSize + |ReservationsBytes(rs)|;
    var stringsAt := structAt + |structure|;
    var header := Header(stringsAt + |strings|, structAt, stringsAt, HeaderSize, bootCpu, |strings|, |structure|);
    BlobParts(t, rs, bootCpu);
    Parts(header, ReservationsBytes(rs), structure, strings);
    ReservationsAligned(rs);
    assert BlobBytes(t, rs, bootCpu) == header + (ReservationsBytes(rs) + structure + strings);
    hide BlobBytes;
    HeaderReads(stringsAt + |strings|, structAt, stringsAt, HeaderSize, bootCpu, |strings|, |structure|,
                ReservationsBytes(rs) + structure + strings);
  }

  lemma BlobParts(t: Tree, rs: seq<Reservation>, bootCpu: u32)
    requires Fits(t, rs)
    ensures var b := BlobBytes(t, rs, bootCpu);
            var names := NamesOf(t, []);
            var structure := StructBytes(t, OffsetsIn(names));
            var structAt := HeaderSize + |ReservationsBytes(rs)|;
            && |b| == structAt + |structure| + |StringsBytes(names)|
            && b[HeaderSize..] == ReservationsBytes(rs) + (structure + StringsBytes(names))
            && b[structAt..structAt + |structure|] == structure && b[structAt + |structure|..] == StringsBytes(names)
  {
    hide Header, StructBytes, StringsBytes, ReservationsBytes, NamesOf, OffsetsIn;
    var names := NamesOf(t, []);
    var strings, structure := StringsBytes(names), StructBytes(t, OffsetsIn(names));
    StructLength(t, OffsetsIn(names), map[]);
    var structAt := HeaderSize + |ReservationsBytes(rs)|;
    var stringsAt := structAt + |structure|;
    var header := Header(stringsAt + |strings|, structAt, stringsAt, HeaderSize, bootCpu, |strings|, |structure|);
    Parts(header, ReservationsBytes(rs), structure, strings);
  }

  /**
   A reader that follows chapter 5 of the Devicetree Specification recovers
   exactly the tree, the reservations and the boot CPU that the blob was made
   from, as long as no name has a NUL in it and no reservation looks like the
   end of the list.
   */
  lemma BlobReads(t: Tree, rs: seq<Reservation>, bootCpu: u32)
    requires Fits(t, rs) && TreeNamed(t) && Reservation(0, 0) !in rs
    ensures ReadBlob(BlobBytes(t, rs, bootCpu)) == Some(Blob(TreeSeen(t), rs, bootCpu))
  {
    hide BlobBytes, HeaderValid, ReservationsBytes, StructBytes, StringsBytes, Get32, Token, ReadNode,
      ReadReservations, TreeNamed, TreeSized, NamesOf, OffsetsIn, TreeResolves;
    var names := NamesOf(t, []);
    var offsets, strings := OffsetsIn(names), StringsBytes(names);
    var structure := StructBytes(t, offsets);
    BlobHeaderValid(t, rs, bootCpu);
    BlobParts(t, rs, bootCpu);
    var b := BlobBytes(t, rs, bootCpu);
    HeaderValidParts(b);
    ReservationsRead(rs, structure + strings);
    EveryNameResolves(t);
    StructReads(t, offsets, strings);
    var at := HeaderSize + |ReservationsBytes(rs)| + |structure|;
    assert b[at..at + |strings|] == b[at..];
  }

  lemma HeaderValidParts(b: Bytes)
    requires HeaderValid(b)
    ensures |b| >= HeaderSize && Get32(b, 16) <= |b| && Get32(b, 8) + Get32(b, 36) <= |b|
            && Get32(b, 12) + Get32(b, 32) <= |b|
  {
  }
}
