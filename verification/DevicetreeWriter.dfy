/**
 generate_devicetree as the program runs it: one buffer that grows, a header
 filled in as its fields become known, and name offsets patched through handles
 once the strings block is written.
 */
module DevicetreeWriter {
  import opened Wrappers
  import opened BigEndian
  import opened GrowingBytes
  import opened ObjectKeys
  import opened Devicetree
  import opened DevicetreeNodes

  // ---------------------------------------------------------------------------
  // Where the name offsets are

  /** The offsets of the nameoff fields of properties with some name, for properties written from a base on. */
  function PropPositions(props: seq<Prop>, base: nat, n: Bytes): seq<nat>
    requires AllSized(props)
    decreases |props|
  {
    if props == [] then []
    else (if props[0].name == n then [base + 8] else [])
         + PropPositions(props[1..], base + |PropBytes(props[0], map[])|, n)
  }

  function PropsAt(name: Bytes, base: nat): nat
  {
    base + 4 + |Padded(name + [0])|
  }

  function TreePositions(t: Tree, name: Bytes, base: nat, n: Bytes): seq<nat>
    requires TreeSized(t)
  {
    PropPositions(t.props, PropsAt(name, base), n)
    + ForestPositions(t.kids, PropsAt(name, base) + |PropsBytes(t.props, map[])|, n)
  }

  function ForestPositions(f: Forest, base: nat, n: Bytes): seq<nat>
    requires ForestSized(f)
  {
    match f
    case Nil => []
    case Cons(name, tree, rest) =>
      TreePositions(tree, name, base, n) + ForestPositions(rest, base + |NodeBytes(tree, name, map[])|, n)
  }

  function Patched(b: Bytes, positions: seq<nat>, x: u32): (r: Bytes)
    ensures |r| == |b|
    decreases |positions|
  {
    if positions == [] then b else Patched(SetAt(b, positions[0], x), positions[1..], x)
  }

  lemma {:induction false} PatchedTwice(b: Bytes, p: seq<nat>, q: seq<nat>, x: u32)
    ensures Patched(b, p + q, x) == Patched(Patched(b, p, x), q, x)
    decreases |p|
  {
    if p == [] {
      assert p + q == q;
    } else {
      assert (p + q)[1..] == p[1..] + q;
      PatchedTwice(SetAt(b, p[0], x), p[1..], q, x);
    }
  }

  lemma SetWithin(pre: Bytes, b: Bytes, post: Bytes, x: u32)
    requires |b| == 4
    ensures SetAt(pre + b + post, |pre|, x) == pre + Be32(x) + post
  {
    hide Be32;
    var all := pre + b + post;
    assert all[..|pre|] == pre && all[|pre| + 4..] == post;
  }

  lemma Regroup(pre: Bytes, a: Bytes, b: Bytes, post: Bytes)
    ensures pre + (a + b) + post == pre + a + (b + post)
    ensures pre + a + (b + post) == (pre + a) + b + post
  {
  }

  lemma RegroupWord(pre: Bytes, a: Bytes, b: Bytes, word: Bytes, c: Bytes, post: Bytes)
    ensures pre + (a + b + word + c) + post == (pre + (a + b)) + word + (c + post)
  {
  }

  lemma PropPatched(p: Prop, offsets: Offsets, n: Bytes, x: u32, pre: Bytes, post: Bytes)
    requires Sized(p)
    ensures Patched(pre + PropBytes(p, offsets) + post, if p.name == n then [|pre| + 8] else [], x)
         == pre + PropBytes(p, offsets[n := x]) + post
  {
    hide Be32, Padded, ValueBytes, SetAt;
    SizedIs(p);
    if p.name == n {
      var token, size, value := Be32(PropToken), Be32(|ValueBytes(p.value)|), Padded(ValueBytes(p.value));
      RegroupWord(pre, token, size, Be32(OffsetOf(offsets, n)), value, post);
      RegroupWord(pre, token, size, Be32(x), value, post);
      SetWithin(pre + (token + size), Be32(OffsetOf(offsets, n)), value + post, x);
      OnePatched(pre + PropBytes(p, offsets) + post, |pre| + 8, x);
    }
  }

  lemma OnePatched(b: Bytes, at: nat, x: u32)
    ensures Patched(b, [at], x) == SetAt(b, at, x)
  {
    hide SetAt;
    assert [at][1..] == [];
  }

  lemma {:induction false} PropsPatched(props: seq<Prop>, offsets: Offsets, n: Bytes, x: u32, pre: Bytes, post: Bytes)
    requires AllSized(props)
    ensures Patched(pre + PropsBytes(props, offsets) + post, PropPositions(props, |pre|, n), x)
         == pre + PropsBytes(props, offsets[n := x]) + post
    decreases |props|
  {
    hide PropBytes, Patched, Sized;
    if props == [] {
      PatchedNone(pre + [] + post, x);
    } else {
      var p, tail := props[0], props[1..];
      var here := if p.name == n then [|pre| + 8] else [];
      PropLength(p, offsets[n := x], map[]);
      var next := pre + PropBytes(p, offsets[n := x]);
      Regroup(pre, PropBytes(p, offsets), PropsBytes(tail, offsets), post);
      PropPatched(p, offsets, n, x, pre, PropsBytes(tail, offsets) + post);
      Regroup(pre, PropBytes(p, offsets[n := x]), PropsBytes(tail, offsets), post);
      PropsPatched(tail, offsets, n, x, next, post);
      PatchedTwice(pre + PropsBytes(props, offsets) + post, here, PropPositions(tail, |next|, n), x);
      Regroup(pre, PropBytes(p, offsets[n := x]), PropsBytes(tail, offsets[n := x]), post);
    }
  }

  lemma PatchedNone(b: Bytes, x: u32)
    ensures Patched(b, [], x) == b
  {
  }

  lemma PropLength(p: Prop, a: Offsets, b: Offsets)
    requires Sized(p)
    ensures |PropBytes(p, a)| == |PropBytes(p, b)|
  {
  }

  lemma {:induction false} TreePatched(t: Tree, name: Bytes, offsets: Offsets, n: Bytes, x: u32, pre: Bytes,
                                       post: Bytes)
    requires TreeSized(t)
    ensures Patched(pre + NodeBytes(t, name, offsets) + post, TreePositions(t, name, |pre|, n), x)
         == pre + NodeBytes(t, name, offsets[n := x]) + post
  {
    hide Patched, PropsBytes, PropPositions, Padded, Be32, ForestBytes, ForestPositions;
    var head := pre + (Be32(BeginNode) + Padded(name + [0]));
    var more := offsets[n := x];
    var tail := Be32(EndNode) + post;
    PropsLength(t.props, more, map[]);
    assert pre + NodeBytes(t, name, offsets) + post
        == head + PropsBytes(t.props, offsets) + (ForestBytes(t.kids, offsets) + tail);
    PropsPatched(t.props, offsets, n, x, head, ForestBytes(t.kids, offsets) + tail);
    var next := head + PropsBytes(t.props, more);
    assert next + (ForestBytes(t.kids, offsets) + tail) == next + ForestBytes(t.kids, offsets) + tail;
    ForestPatched(t.kids, offsets, n, x, next, tail);
    PatchedTwice(pre + NodeBytes(t, name, offsets) + post, PropPositions(t.props, |head|, n),
                 ForestPositions(t.kids, |next|, n), x);
    assert next + ForestBytes(t.kids, more) + tail == pre + NodeBytes(t, name, more) + post;
  }

  lemma {:induction false} ForestPatched(f: Forest, offsets: Offsets, n: Bytes, x: u32, pre: Bytes, post: Bytes)
    requires ForestSized(f)
    ensures Patched(pre + ForestBytes(f, offsets) + post, ForestPositions(f, |pre|, n), x)
         == pre + ForestBytes(f, offsets[n := x]) + post
  {
    hide Patched, NodeBytes, TreePositions;
    if f.Nil? {
      PatchedNone(pre + [] + post, x);
    } else {
      var more := offsets[n := x];
      NodeLength(f.tree, f.name, more, map[]);
      var next := pre + NodeBytes(f.tree, f.name, more);
      assert pre + ForestBytes(f, offsets) + post
          == pre + NodeBytes(f.tree, f.name, offsets) + (ForestBytes(f.rest, offsets) + post);
      TreePatched(f.tree, f.name, offsets, n, x, pre, ForestBytes(f.rest, offsets) + post);
      assert next + (ForestBytes(f.rest, offsets) + post) == next + ForestBytes(f.rest, offsets) + post;
      ForestPatched(f.rest, offsets, n, x, next, post);
      PatchedTwice(pre + ForestBytes(f, offsets) + post, TreePositions(f.tree, f.name, |pre|, n),
                   ForestPositions(f.rest, |next|, n), x);
      assert next + ForestBytes(f.rest, more) + post == pre + ForestBytes(f, more) + post;
    }
  }

  // ---------------------------------------------------------------------------
  // Alignment

  lemma AlignedSum(a: nat, b: nat)
    requires Aligned(a) && Aligned(b)
    ensures Aligned(a + b)
  {
  }

  lemma {:induction false} PropsAligned(props: seq<Prop>)
    requires AllSized(props)
    ensures Aligned(|PropsBytes(props, map[])|)
  {
    hide Aligned, PropBytes;
    if props == [] {
      NothingAligned();
    } else {
      PropAligned(props[0]);
      PropsAligned(props[1..]);
      AlignedSum(|PropBytes(props[0], map[])|, |PropsBytes(props[1..], map[])|);
    }
  }

  lemma NothingAligned()
    ensures Aligned(0) && Aligned(4)
  {
  }

  lemma PropAligned(p: Prop)
    requires Sized(p)
    ensures Aligned(|PropBytes(p, map[])|)
  {
    hide Padded;
  }

  lemma {:induction false} TreeAligned(t: Tree, name: Bytes)
    requires TreeSized(t)
    ensures Aligned(|NodeBytes(t, name, map[])|)
  {
    hide Aligned, Padded, PropsBytes, ForestBytes;
    NothingAligned();
    PropsAligned(t.props);
    ForestAligned(t.kids);
    AlignedSum(4, |Padded(name + [0])|);
    AlignedSum(4 + |Padded(name + [0])|, |PropsBytes(t.props, map[])|);
    AlignedSum(4 + |Padded(name + [0])| + |PropsBytes(t.props, map[])|, |ForestBytes(t.kids, map[])|);
    AlignedSum(4 + |Padded(name + [0])| + |PropsBytes(t.props, map[])| + |ForestBytes(t.kids, map[])|, 4);
  }

  lemma {:induction false} ForestAligned(f: Forest)
    requires ForestSized(f)
    ensures Aligned(|ForestBytes(f, map[])|)
  {
    hide Aligned, NodeBytes;
    NothingAligned();
    if f.Cons? {
      TreeAligned(f.tree, f.name);
      ForestAligned(f.rest);
      AlignedSum(|NodeBytes(f.tree, f.name, map[])|, |ForestBytes(f.rest, map[])|);
    }
  }

  // ---------------------------------------------------------------------------
  // The program

  function TreeSize(t: Tree): nat
  {
    1 + ForestSize(t.kids)
  }

  function ForestSize(f: Forest): nat
  {
    match f
    case Nil => 0
    case Cons(_, tree, rest) => 1 + TreeSize(tree) + ForestSize(rest)
  }

  function RefsOf(refs: map<Bytes, seq<nat>>, n: Bytes): seq<nat>
  {
    if n in refs then refs[n] else []
  }

  class Writer {
    const bytes: Buffer
    const inherited: set<Bytes>
    var order: seq<Bytes>
    var refs: map<Bytes, seq<nat>>

    constructor (bytes: Buffer, inherited: set<Bytes>)
      ensures this.bytes == bytes && this.inherited == inherited && order == [] && refs == map[]
    {
      this.bytes, this.inherited := bytes, inherited;
      order := [];
      refs := map[];
    }

    ghost predicate Valid()
      reads this, bytes, bytes.data
    {
      bytes.Valid() && forall n :: n in order <==> n in refs
    }

    /** align. */
    method Align()
      requires Valid()
      modifies bytes
      ensures Valid() && bytes.Contents() == old(bytes.Contents()) + Zeros(Gap(old(bytes.length)))
      ensures bytes.data == old(bytes.data) || fresh(bytes.data)
    {
      var offset := bytes.length % 4;
      assert bytes.Contents() + [] == bytes.Contents();
      if offset != 0 {
        var at := bytes.Bump(4 - offset);
      }
    }

    /** `(strings[name] ??= []).push(handle)`, for a name that is not inherited. */
    method Note(name: Bytes, at: nat)
      requires Valid()
      modifies this`order, this`refs
      ensures Valid()
      ensures order == NamesOfProps([Prop(name, Undefined)], old(order))
      ensures forall n :: RefsOf(refs, n) == RefsOf(old(refs), n) + if n == name then [at] else []
    {
      forall n ensures RefsOf(refs, n) + [] == RefsOf(refs, n) {
      }
      if name !in refs {
        order := Placed(order, name);
        refs := refs[name := [at]];
      } else {
        refs := refs[name := refs[name] + [at]];
      }
    }

    /** One property: its token, its handle, its name noted, its value. */
    method WriteProp(p: Prop)
      requires Valid() && Sized(p) && Aligned(bytes.length)
      modifies this`order, this`refs, bytes, bytes.data
      ensures Valid() && Aligned(bytes.length)
      ensures bytes.data == old(bytes.data) || fresh(bytes.data)
      ensures bytes.Contents() == old(bytes.Contents()) + PropBytes(p, map[])
      ensures order == NamesOfProps([p], old(order))
      ensures forall n :: RefsOf(refs, n) == RefsOf(old(refs), n) + if n == p.name then [old(bytes.length) + 8] else []
    {
      hide Be32, ValueBytes, NamesOfProps, RefsOf, Zeros, PropBytes, SetAt, Gap, Aligned;
      ghost var before := bytes.Contents();
      bytes.Push32(PropToken);
      var at := bytes.Bump(8);
      Note(p.name, at + 4);
      SizedIs(p);
      var value := ValueBytes(p.value);
      bytes.Set32(at, |value|);
      PropHead(before, |value|);
      bytes.Append(value);
      Align();
      PropAligned(p);
      AlignedSum(|before|, |PropBytes(p, map[])|);
      PropWhole(before, p);
      NamesIgnoreValues(p, old(order));
    }

    /** A node's properties, in order, up to the first fault. */
    method WriteProps(props: seq<Prop>) returns (fault: Option<Fault>)
      requires Valid() && AllSized(props) && Aligned(bytes.length)
      modifies this`order, this`refs, bytes, bytes.data
      ensures Valid() && (bytes.data == old(bytes.data) || fresh(bytes.data))
      ensures fault == PropsFault(props, inherited)
      ensures fault.None? ==>
                && Aligned(bytes.length)
                && bytes.Contents() == old(bytes.Contents()) + PropsBytes(props, map[])
                && order == NamesOfProps(props, old(order))
                && forall n :: RefsOf(refs, n) == RefsOf(old(refs), n) + PropPositions(props, old(bytes.length), n)
    {
      hide Be32, PropBytes, PropsBytes, NamesOfProps, RefsOf, Aligned, PropPositions;
      ghost var was := bytes.Contents();
      assert props[0..] == props;
      for i := 0 to |props|
        invariant Valid() && (bytes.data == old(bytes.data) || fresh(bytes.data)) && Aligned(bytes.length)
        invariant PropsFault(props, inherited) == PropsFault(props[i..], inherited)
        invariant bytes.Contents() + PropsBytes(props[i..], map[]) == was + PropsBytes(props, map[])
        invariant NamesOfProps(props[i..], order) == NamesOfProps(props, old(order))
        invariant forall n :: RefsOf(refs, n) + PropPositions(props[i..], bytes.length, n)
                              == RefsOf(old(refs), n) + PropPositions(props, old(bytes.length), n)
      {
        assert props[i..][0] == props[i] && props[i..][1..] == props[i + 1..];
        if |props[i].name| > MaxName {
          return Some(NameTooLong);
        }
        if props[i].name in inherited {
          return Some(NameInherited);
        }
        if props[i].value.Nested? {
          return Some(NestedObject);
        }
        ghost var before, seen, noted := bytes.Contents(), order, refs;
        NextProp(props, i, before, seen);
        WriteProp(props[i]);
        forall n ensures RefsOf(refs, n) + PropPositions(props[i + 1..], bytes.length, n)
                      == RefsOf(noted, n) + PropPositions(props[i..], |before|, n) {
          NextPosition(props, i, |before|, n);
          Reassociate(RefsOf(noted, n), if n == props[i].name then [|before| + 8] else [],
                      PropPositions(props[i + 1..], bytes.length, n));
        }
      }
      NoProps(props, bytes.Contents(), order, bytes.length);
      forall n ensures RefsOf(refs, n) == RefsOf(old(refs), n) + PropPositions(props, old(bytes.length), n) {
        NoPositions(props, bytes.length, n, RefsOf(refs, n));
      }
      return None;
    }

    /** A node's first token and its name. */
    method WriteName(name: Bytes)
      requires Valid() && Aligned(bytes.length)
      modifies bytes, bytes.data
      ensures Valid() && Aligned(bytes.length) && (bytes.data == old(bytes.data) || fresh(bytes.data))
      ensures bytes.Contents() == old(bytes.Contents()) + Be32(BeginNode) + Padded(name + [0])
    {
      hide Be32, Aligned, Padded, Gap, Zeros;
      ghost var was := bytes.Contents();
      bytes.Push32(BeginNode);
      bytes.Append(name);
      var at := bytes.Bump(1);
      OneZero();
      Align();
      NameWhole(was, name);
    }

    /** walk_tree. */
    method WalkTree(node: Node, name: Bytes) returns (fault: Option<Fault>)
      requires Valid() && TreeSized(TreeOf(node)) && Aligned(bytes.length)
      modifies this`order, this`refs, bytes, bytes.data
      ensures Valid() && (bytes.data == old(bytes.data) || fresh(bytes.data))
      ensures fault == TreeFault(TreeOf(node), name, inherited)
      ensures fault.None? ==>
                var t := TreeOf(node);
                && Aligned(bytes.length)
                && bytes.Contents() == old(bytes.Contents()) + NodeBytes(t, name, map[])
                && order == NamesOf(t, old(order))
                && forall n :: RefsOf(refs, n) == RefsOf(old(refs), n) + TreePositions(t, name, old(bytes.length), n)
      decreases TreeSize(TreeOf(node))
    {
      ghost var t := TreeOf(node);
      hide Be32, PropsBytes, ForestBytes, NodeBytes, PropsFault, ForestFault, NamesOfProps, NamesOfForest, RefsOf,
        Aligned, PropPositions, ForestPositions, TreePositions, Padded, AllSized, ForestSized,
        TreeOf, PropsOf, KidsOf;
      NodeParts(node);
      SizedParts(t);
      ghost var was := bytes.Contents();
      if |name| > MaxName {
        return Some(NameTooLong);
      }
      WriteName(name);
      ghost var propsAt := PropsAt(name, |was|);
      assert bytes.length == propsAt;
      fault := WriteProps(PropsOf(node.entries));
      if fault.Some? {
        return;
      }
      ghost var noted, kidsAt := refs, propsAt + |PropsBytes(t.props, map[])|;
      assert bytes.length == kidsAt;
      fault := WalkKids(node.entries);
      if fault.Some? {
        return;
      }
      bytes.Push32(EndNode);
      NodeWhole(t, name, was);
      NothingAligned();
      AlignedSum(bytes.length - 4, 4);
      RefsWhole(t, name, |was|, propsAt, kidsAt, old(refs), noted, refs);
    }

    /** The loop over a node's children. */
    method WalkKids(entries: Entries) returns (fault: Option<Fault>)
      requires Valid() && ForestSized(KidsOf(entries)) && Aligned(bytes.length)
      modifies this`order, this`refs, bytes, bytes.data
      ensures Valid() && (bytes.data == old(bytes.data) || fresh(bytes.data))
      ensures fault == ForestFault(KidsOf(entries), inherited)
      ensures fault.None? ==>
                var kids := KidsOf(entries);
                && Aligned(bytes.length)
                && bytes.Contents() == old(bytes.Contents()) + ForestBytes(kids, map[])
                && order == NamesOfForest(kids, old(order))
                && forall n :: RefsOf(refs, n) == RefsOf(old(refs), n) + ForestPositions(kids, old(bytes.length), n)
      decreases ForestSize(KidsOf(entries))
    {
      hide NodeBytes, TreeFault, NamesOf, RefsOf, Aligned, TreePositions, TreeOf;
      ghost var was, kids := bytes.Contents(), KidsOf(entries);
      var left := entries;
      while left.Entry?
        invariant Valid() && (bytes.data == old(bytes.data) || fresh(bytes.data)) && Aligned(bytes.length)
        invariant ForestSized(KidsOf(left)) && ForestSize(KidsOf(left)) <= ForestSize(kids)
        invariant ForestFault(kids, inherited) == ForestFault(KidsOf(left), inherited)
        invariant bytes.Contents() + ForestBytes(KidsOf(left), map[]) == was + ForestBytes(kids, map[])
        invariant NamesOfForest(KidsOf(left), order) == NamesOfForest(kids, old(order))
        invariant forall n :: RefsOf(refs, n) + ForestPositions(KidsOf(left), bytes.length, n)
                              == RefsOf(old(refs), n) + ForestPositions(kids, old(bytes.length), n)
        decreases left
      {
        if IsChild(left.item) {
          ghost var before, seen, noted, f := bytes.Contents(), order, refs, KidsOf(left);
          NextKid(f, before, seen);
          fault := WalkTree(left.item.node, left.key);
          if fault.Some? {
            return;
          }
          forall n ensures RefsOf(refs, n) + ForestPositions(f.rest, bytes.length, n)
                        == RefsOf(noted, n) + ForestPositions(f, |before|, n) {
            Reassociate(RefsOf(noted, n), TreePositions(f.tree, f.name, |before|, n),
                        ForestPositions(f.rest, bytes.length, n));
          }
        }
        left := left.rest;
      }
      assert bytes.Contents() + [] == bytes.Contents();
      forall n ensures RefsOf(refs, n) + [] == RefsOf(refs, n) {
      }
      return None;
    }
  }

  /** The handles noted for a node's properties and then for its children are the node's. */
  lemma RefsWhole(t: Tree, name: Bytes, base: nat, propsAt: nat, kidsAt: nat,
                  before: map<Bytes, seq<nat>>, between: map<Bytes, seq<nat>>, after: map<Bytes, seq<nat>>)
    requires TreeSized(t) && propsAt == PropsAt(name, base) && kidsAt == propsAt + |PropsBytes(t.props, map[])|
    requires forall n :: RefsOf(between, n) == RefsOf(before, n) + PropPositions(t.props, propsAt, n)
    requires forall n :: RefsOf(after, n) == RefsOf(between, n) + ForestPositions(t.kids, kidsAt, n)
    ensures forall n :: RefsOf(after, n) == RefsOf(before, n) + TreePositions(t, name, base, n)
  {
    hide RefsOf, PropPositions, ForestPositions, PropsAt, PropsBytes;
    forall n ensures RefsOf(after, n) == RefsOf(before, n) + TreePositions(t, name, base, n) {
      Reassociate(RefsOf(before, n), PropPositions(t.props, propsAt, n), ForestPositions(t.kids, kidsAt, n));
    }
  }

  lemma NodeParts(node: Node)
    ensures TreeOf(node) == Tree(PropsOf(node.entries), KidsOf(node.entries))
  {
  }

  lemma SizedParts(t: Tree)
    requires TreeSized(t)
    ensures AllSized(t.props) && ForestSized(t.kids)
  {
  }

  lemma OneZero()
    ensures Zeros(1) == [0]
  {
    assert Zeros(0) == [];
  }

  lemma NodeWhole(t: Tree, name: Bytes, before: Bytes)
    requires TreeSized(t)
    ensures before + Be32(BeginNode) + Padded(name + [0]) + PropsBytes(t.props, map[]) + ForestBytes(t.kids, map[])
            + Be32(EndNode)
         == before + NodeBytes(t, name, map[])
  {
    hide Be32, Padded, PropsBytes, ForestBytes;
  }

  lemma NameWhole(before: Bytes, name: Bytes)
    requires Aligned(|before|)
    ensures var written := before + Be32(BeginNode) + name + [0];
            written + Zeros(Gap(|written|)) == before + Be32(BeginNode) + Padded(name + [0])
    ensures Aligned(|before| + 4 + |Padded(name + [0])|)
  {
    hide Be32, Zeros;
    GapOfSum(|before| + 4, |name| + 1);
  }

  lemma NextKid(f: Forest, before: Bytes, seen: seq<Bytes>)
    requires f.Cons? && ForestSized(f)
    ensures before + ForestBytes(f, map[]) == before + NodeBytes(f.tree, f.name, map[]) + ForestBytes(f.rest, map[])
    ensures NamesOfForest(f, seen) == NamesOfForest(f.rest, NamesOf(f.tree, seen))
  {
    hide NodeBytes;
  }

  lemma Reassociate<T>(a: seq<T>, b: seq<T>, c: seq<T>)
    ensures a + b + c == a + (b + c)
  {
  }

  lemma PropHead(before: Bytes, size: u32)
    ensures SetAt(before + Be32(PropToken) + Zeros(8), |before| + 4, size)
         == before + Be32(PropToken) + Be32(size) + Be32(0)
  {
    hide Be32;
    assert Be32(0) == Zeros(4) by { ZeroWord(); }
    var b := before + Be32(PropToken) + Zeros(8);
    assert b[..|before| + 4] == before + Be32(PropToken) && b[|before| + 8..] == Zeros(4);
  }

  lemma ZeroWord()
    ensures Be32(0) == Zeros(4)
  {
  }

  lemma PropWhole(before: Bytes, p: Prop)
    requires Sized(p) && Aligned(|before|)
    ensures |ValueBytes(p.value)| < 0x1_0000_0000
    ensures var written := before + Be32(PropToken) + Be32(|ValueBytes(p.value)|) + Be32(0) + ValueBytes(p.value);
            written + Zeros(Gap(|written|)) == before + PropBytes(p, map[])
  {
    SizedIs(p);
    hide Be32, ValueBytes, Zeros;
    var value := ValueBytes(p.value);
    GapOfSum(|before| + 12, |value|);
    assert before + Be32(PropToken) + Be32(|value|) + Be32(0) + value + Zeros(Gap(|value|))
        == before + PropBytes(p, map[]);
  }

  lemma GapOfSum(a: nat, b: nat)
    requires Aligned(a)
    ensures Gap(a + b) == Gap(b)
  {
  }

  lemma NamesIgnoreValues(p: Prop, seen: seq<Bytes>)
    ensures NamesOfProps([Prop(p.name, Undefined)], seen) == NamesOfProps([p], seen)
  {
  }

  lemma NextProp(props: seq<Prop>, i: nat, before: Bytes, seen: seq<Bytes>)
    requires i < |props| && AllSized(props)
    ensures before + PropsBytes(props[i..], map[])
         == before + PropBytes(props[i], map[]) + PropsBytes(props[i + 1..], map[])
    ensures NamesOfProps(props[i..], seen) == NamesOfProps(props[i + 1..], NamesOfProps([props[i]], seen))
  {
    hide PropBytes;
    assert props[i..][0] == props[i] && props[i..][1..] == props[i + 1..];
    assert [props[i]][1..] == [];
  }

  lemma NextPosition(props: seq<Prop>, i: nat, base: nat, n: Bytes)
    requires i < |props| && AllSized(props)
    ensures PropPositions(props[i..], base, n)
         == (if n == props[i].name then [base + 8] else [])
            + PropPositions(props[i + 1..], base + |PropBytes(props[i], map[])|, n)
  {
    assert props[i..][0] == props[i] && props[i..][1..] == props[i + 1..];
  }

  lemma NoProps(props: seq<Prop>, b: Bytes, seen: seq<Bytes>, base: nat)
    requires AllSized(props)
    ensures props[|props|..] == [] && b + PropsBytes(props[|props|..], map[]) == b
            && NamesOfProps(props[|props|..], seen) == seen
  {
  }

  lemma NoPositions(props: seq<Prop>, base: nat, n: Bytes, refs: seq<nat>)
    requires AllSized(props)
    ensures refs + PropPositions(props[|props|..], base, n) == refs
  {
  }

  // ---------------------------------------------------------------------------
  // The whole blob

  lemma {:induction false} PropPositionsWithin(props: seq<Prop>, base: nat, n: Bytes)
    requires AllSized(props)
    ensures forall i :: 0 <= i < |PropPositions(props, base, n)| ==>
                          base <= PropPositions(props, base, n)[i]
                          && PropPositions(props, base, n)[i] + 4 <= base + |PropsBytes(props, map[])|
    decreases |props|
  {
    hide PropBytes;
    if props != [] {
      PropPositionsWithin(props[1..], base + |PropBytes(props[0], map[])|, n);
      PropLong(props[0]);
    }
  }

  lemma PropLong(p: Prop)
    requires Sized(p)
    ensures |PropBytes(p, map[])| >= 12
  {
  }

  lemma {:induction false} TreePositionsWithin(t: Tree, name: Bytes, base: nat, n: Bytes)
    requires TreeSized(t)
    ensures forall i :: 0 <= i < |TreePositions(t, name, base, n)| ==>
                          base <= TreePositions(t, name, base, n)[i]
                          && TreePositions(t, name, base, n)[i] + 4 <= base + |NodeBytes(t, name, map[])|
  {
    hide Padded, PropsBytes, ForestBytes, PropPositions, ForestPositions, Be32;
    PropPositionsWithin(t.props, PropsAt(name, base), n);
    ForestPositionsWithin(t.kids, PropsAt(name, base) + |PropsBytes(t.props, map[])|, n);
  }

  lemma {:induction false} ForestPositionsWithin(f: Forest, base: nat, n: Bytes)
    requires ForestSized(f)
    ensures forall i :: 0 <= i < |ForestPositions(f, base, n)| ==>
                          base <= ForestPositions(f, base, n)[i]
                          && ForestPositions(f, base, n)[i] + 4 <= base + |ForestBytes(f, map[])|
  {
    hide NodeBytes, TreePositions;
    if f.Cons? {
      TreePositionsWithin(f.tree, f.name, base, n);
      ForestPositionsWithin(f.rest, base + |NodeBytes(f.tree, f.name, map[])|, n);
    }
  }

  /** Writing a header field once it is known. */
  lemma {:induction false} SetWord(fields: seq<u32>, i: nat, x: u32, rest: Bytes)
    requires i < |fields|
    ensures SetAt(Words(fields) + rest, 4 * i, x) == Words(fields[i := x]) + rest
    decreases |fields|
  {
    hide Be32;
    var n := |fields| - 1;
    var init, last, more := fields[..n], fields[n], fields[i := x];
    if i == n {
      assert more[..n] == init;
      SetWithin(Words(init), Be32(last), rest, x);
    } else {
      assert more[..n] == init[i := x] && more[n] == last;
      assert Words(fields) + rest == Words(init) + (Be32(last) + rest);
      SetWord(init, i, x, Be32(last) + rest);
      assert Words(init[i := x]) + (Be32(last) + rest) == Words(more) + rest;
    }
  }

  lemma BlankHeader()
    ensures Words([0, 0, 0, 0, 0, 0, 0, 0, 0, 0]) == Zeros(HeaderSize)
  {
    var f: seq<u32> := [0, 0, 0, 0, 0, 0, 0, 0, 0, 0];
    ZeroWord();
    WordsAre(f);
    hide Be32, Words;
    var a, b := Zeros(4) + Zeros(4) + Zeros(4) + Zeros(4) + Zeros(4) + Zeros(4) + Zeros(4) + Zeros(4) + Zeros(4)
      + Zeros(4), Zeros(HeaderSize);
    assert |a| == |b| && forall i :: 0 <= i < |a| ==> a[i] == b[i];
  }

  lemma {:induction false} StringsPrefix(names: seq<Bytes>, i: nat)
    requires i <= |names|
    ensures |StringsBytes(names[..i])| <= |StringsBytes(names)|
    decreases |names|
  {
    if i < |names| {
      StringsPrefix(names[..|names| - 1], i);
      assert names[..|names| - 1][..i] == names[..i];
    } else {
      assert names[..i] == names;
    }
  }

  lemma NextName(names: seq<Bytes>, i: nat)
    requires i < |names| && |StringsBytes(names)| < 0x1_0000_0000
    ensures |StringsBytes(names[..i])| < 0x1_0000_0000 && |StringsBytes(names[..i + 1])| < 0x1_0000_0000
    ensures StringsBytes(names[..i + 1]) == StringsBytes(names[..i]) + (names[i] + [0])
    ensures OffsetsIn(names[..i + 1]) == OffsetsIn(names[..i])[names[i] := |StringsBytes(names[..i])|]
  {
    StringsPrefix(names, i);
    StringsPrefix(names, i + 1);
    assert names[..i + 1][..i] == names[..i];
  }

  /** All of one name's handles get its offset. */
  method Patch(bytes: Buffer, positions: seq<nat>, x: u32)
    requires bytes.Valid() && forall i :: 0 <= i < |positions| ==> positions[i] + 4 <= bytes.length
    modifies bytes.data
    ensures bytes.Valid() && bytes.Contents() == Patched(old(bytes.Contents()), positions, x)
  {
    hide SetAt;
    assert positions[0..] == positions;
    for i := 0 to |positions|
      invariant bytes.Valid()
      invariant Patched(bytes.Contents(), positions[i..], x) == Patched(old(bytes.Contents()), positions, x)
    {
      assert positions[i..][0] == positions[i] && positions[i..][1..] == positions[i + 1..];
      bytes.Set32(positions[i], x);
    }
  }

  lemma StructPatched(t: Tree, offsets: Offsets, n: Bytes, x: u32, pre: Bytes, post: Bytes)
    requires TreeSized(t)
    ensures Patched(pre + StructBytes(t, offsets) + post, TreePositions(t, [], |pre|, n), x)
         == pre + StructBytes(t, offsets[n := x]) + post
  {
    hide Patched, NodeBytes, TreePositions, Be32;
    TreePatched(t, [], offsets, n, x, pre, Be32(EndToken) + post);
    assert pre + StructBytes(t, offsets) + post == pre + NodeBytes(t, [], offsets) + (Be32(EndToken) + post);
    assert pre + NodeBytes(t, [], offsets[n := x]) + (Be32(EndToken) + post)
        == pre + StructBytes(t, offsets[n := x]) + post;
  }

  /** The strings block: each name, and its offset in every property of that name. */
  method WriteStrings(bytes: Buffer, names: seq<Bytes>, refs: map<Bytes, seq<nat>>, ghost t: Tree, ghost pre: Bytes)
    requires bytes.Valid() && TreeSized(t) && bytes.Contents() == pre + StructBytes(t, map[])
    requires |StringsBytes(names)| < 0x1_0000_0000
    requires forall n :: n in names ==> n in refs && refs[n] == TreePositions(t, [], |pre|, n)
    modifies bytes, bytes.data
    ensures bytes.Valid() && (bytes.data == old(bytes.data) || fresh(bytes.data))
    ensures bytes.Contents() == pre + StructBytes(t, OffsetsIn(names)) + StringsBytes(names)
  {
    hide Patched, StructBytes, TreePositions, OffsetsIn, StringsBytes;
    var base := bytes.length;
    ghost var size := |StructBytes(t, map[])|;
    NoStrings();
    assert names[..0] == [] && bytes.Contents() + [] == bytes.Contents();
    for i := 0 to |names|
      invariant bytes.Valid() && (bytes.data == old(bytes.data) || fresh(bytes.data))
      invariant |StringsBytes(names[..i])| < 0x1_0000_0000
      invariant bytes.Contents() == pre + StructBytes(t, OffsetsIn(names[..i])) + StringsBytes(names[..i])
      invariant bytes.length == base + |StringsBytes(names[..i])|
    {
      ghost var offsets, strings := OffsetsIn(names[..i]), StringsBytes(names[..i]);
      var offset := bytes.length;
      bytes.Append(names[i]);
      var at := bytes.Bump(1);
      OneZero();
      NextName(names, i);
      StructLength(t, offsets, map[]);
      PositionsInStruct(t, |pre|, names[i]);
      ghost var post := strings + (names[i] + [0]);
      Appended(pre + StructBytes(t, offsets), strings, names[i]);
      StructPatched(t, offsets, names[i], offset - base, pre, post);
      Patch(bytes, refs[names[i]], offset - base);
      StructLength(t, OffsetsIn(names[..i + 1]), map[]);
    }
    assert names[..|names|] == names;
  }

  lemma NoStrings()
    ensures StringsBytes([]) == [] && OffsetsIn([]) == map[]
  {
  }

  lemma Appended(a: Bytes, strings: Bytes, name: Bytes)
    ensures a + strings + name + [0] == a + (strings + (name + [0]))
  {
  }

  lemma PositionsInStruct(t: Tree, base: nat, n: Bytes)
    requires TreeSized(t)
    ensures forall i :: 0 <= i < |TreePositions(t, [], base, n)| ==>
                          TreePositions(t, [], base, n)[i] + 4 <= base + |StructBytes(t, map[])|
  {
    hide TreePositions, NodeBytes, Be32;
    TreePositionsWithin(t, [], base, n);
  }

  /** The memory reservations and their terminator. */
  method WriteReservations(bytes: Buffer, regions: seq<Region>)
    requires bytes.Valid()
    modifies bytes, bytes.data
    ensures bytes.Valid() && (bytes.data == old(bytes.data) || fresh(bytes.data))
    ensures bytes.Contents() == old(bytes.Contents()) + ReservationsBytes(Stored(regions))
  {
    hide Be64;
    ghost var rs := Stored(regions);
    ghost var was := bytes.Contents();
    assert rs[0..] == rs;
    for i := 0 to |regions|
      invariant bytes.Valid() && (bytes.data == old(bytes.data) || fresh(bytes.data))
      invariant bytes.Contents() + ReservationsBytes(rs[i..]) == was + ReservationsBytes(rs)
    {
      ghost var before := bytes.Contents();
      assert rs[i..][0] == rs[i] && rs[i..][1..] == rs[i + 1..];
      bytes.Push64(regions[i].address % 0x1_0000_0000_0000_0000);
      bytes.Push64(regions[i].size % 0x1_0000_0000_0000_0000);
      assert before + (Be64(rs[i].address) + Be64(rs[i].size) + ReservationsBytes(rs[i + 1..]))
          == bytes.Contents() + ReservationsBytes(rs[i + 1..]);
    }
    ghost var before := bytes.Contents();
    bytes.Push64(0);
    bytes.Push64(0);
    assert rs[|rs|..] == [] && before + (Be64(0) + Be64(0)) == bytes.Contents();
  }

  lemma FieldsAreHeader(f: seq<u32>)
    requires |f| == 10 && f[0] == Magic && f[5] == 17 && f[6] == 16
    ensures Words(f) == Header(f[1], f[2], f[3], f[4], f[7], f[8], f[9])
  {
    WordsAre(f);
    hide Be32, Words;
  }

  /** The header's constant fields, and the reservations. */
  method WriteHead(bytes: Buffer, regions: seq<Region>, bootCpu: u32) returns (ghost f: seq<u32>)
    requires bytes.Valid() && bytes.length == 0
    requires HeaderSize + |ReservationsBytes(Stored(regions))| < 0x1_0000_0000
    modifies bytes, bytes.data
    ensures bytes.Valid() && (bytes.data == old(bytes.data) || fresh(bytes.data))
    ensures var rs := Stored(regions);
            && f == [Magic, 0, HeaderSize + |ReservationsBytes(rs)|, 0, HeaderSize, 17, 16, bootCpu, 0, 0]
            && bytes.Contents() == Words(f) + ReservationsBytes(rs) && Aligned(bytes.length)
  {
    hide Words, ReservationsBytes, SetAt, Aligned, Zeros, Stored;
    ghost var rs := Stored(regions);
    var header := bytes.Bump(HeaderSize);
    f := [0, 0, 0, 0, 0, 0, 0, 0, 0, 0];
    BlankHeader();
    assert bytes.Contents() == Words(f) + [];
    f := SetField(bytes, f, 0, Magic, []);
    f := SetField(bytes, f, 5, 17, []);
    f := SetField(bytes, f, 6, 16, []);
    f := SetField(bytes, f, 7, bootCpu, []);
    f := SetField(bytes, f, 4, bytes.length, []);
    assert Words(f) + [] == Words(f);
    WriteReservations(bytes, regions);
    f := SetField(bytes, f, 2, bytes.length, ReservationsBytes(rs));
    ReservationsAligned(rs);
  }

  /** The structure block, and the two header fields known after it. */
  method WriteStruct(bytes: Buffer, node: Node, inherited: set<Bytes>,
                     ghost t: Tree, ghost f: seq<u32>, ghost reservations: Bytes)
    returns (names: Result<Writer, Fault>, ghost g: seq<u32>)
    requires t == TreeOf(node)
    requires bytes.Valid() && TreeSized(t) && |f| == 10 && bytes.Contents() == Words(f) + reservations
             && Aligned(bytes.length)
    requires bytes.length + |StructBytes(t, map[])| < 0x1_0000_0000
    modifies bytes, bytes.data
    ensures bytes.Valid() && (bytes.data == old(bytes.data) || fresh(bytes.data))
    ensures TreeFault(t, [], inherited) == if names.Ok? then None else Some(names.error)
    ensures names.Ok? ==>
              && g == f[9 := |StructBytes(t, map[])|][3 := old(bytes.length) + |StructBytes(t, map[])|]
              && bytes.Contents() == Words(g) + reservations + StructBytes(t, map[])
              && names.value.order == NamesOf(t, [])
              && forall n :: n in names.value.order ==>
                               n in names.value.refs
                               && names.value.refs[n] == TreePositions(t, [], old(bytes.length), n)
  {
    hide Words, StructBytes, NodeBytes, NamesOf, TreePositions, TreeFault, SetAt, Be32, TreeSized, RefsOf, Aligned,
      TreeOf;
    var structAt := bytes.length;
    ghost var pre := bytes.Contents();
    var writer := new Writer(bytes, inherited);
    var fault := writer.WalkTree(node, []);
    if fault.Some? {
      return Err(fault.value), f;
    }
    bytes.Push32(EndToken);
    StructWhole(t, pre);
    Regrouped(Words(f), reservations, StructBytes(t, map[]));
    g := SetField(bytes, f, 9, bytes.length - structAt, reservations + StructBytes(t, map[]));
    g := SetField(bytes, g, 3, bytes.length, reservations + StructBytes(t, map[]));
    Regrouped(Words(g), reservations, StructBytes(t, map[]));
    forall n | n in writer.order ensures writer.refs[n] == TreePositions(t, [], structAt, n) {
      NewRefs(writer.refs, n, TreePositions(t, [], structAt, n));
    }
    names := Ok(writer);
  }

  /** generate_devicetree: the blob, or the first fault. The names Object.prototype has are given. */
  method Generate(node: Node, regions: seq<Region>, bootCpu: int, inherited: set<Bytes>)
    returns (r: Result<Bytes, Fault>)
    requires Fits(TreeOf(node), Stored(regions))
    ensures r == match TreeFault(TreeOf(node), [], inherited)
                 case None => Ok(BlobBytes(TreeOf(node), Stored(regions), bootCpu % 0x1_0000_0000))
                 case Some(fault) => Err(fault)
    ensures r.Ok? <==> Writable(node, [], inherited)
  {
    FaultExactly(node, [], inherited);
    hide TreeOf, Stored, Writable, Words, ReservationsBytes, StructBytes, StringsBytes, OffsetsIn, NamesOf,
      TreePositions, TreeFault, TreeSized, Aligned, BlobBytes, Fits;
    ghost var t, rs := TreeOf(node), Stored(regions);
    FitsParts(t, rs);
    var bytes := new Buffer(1024);
    ghost var f := WriteHead(bytes, regions, bootCpu % 0x1_0000_0000);
    ghost var reservations := ReservationsBytes(rs);
    var writer;
    writer, f := WriteStruct(bytes, node, inherited, t, f, reservations);
    if writer.Err? {
      return Err(writer.error);
    }
    var names := writer.value.order;
    var stringsAt := bytes.length;
    WriteStrings(bytes, names, writer.value.refs, t, Words(f) + reservations);
    ghost var structure, strings := StructBytes(t, OffsetsIn(names)), StringsBytes(names);
    StructLength(t, OffsetsIn(names), map[]);
    Regrouped4(Words(f), reservations, structure, strings);
    f := SetField(bytes, f, 8, bytes.length - stringsAt, reservations + structure + strings);
    f := SetField(bytes, f, 1, bytes.length, reservations + structure + strings);
    BlobIs(t, rs, bootCpu % 0x1_0000_0000, f);
    return Ok(bytes.data[..bytes.length]);
  }

  lemma BlobIs(t: Tree, rs: seq<Reservation>, bootCpu: u32, f: seq<u32>)
    requires Fits(t, rs)
    requires var strings, structAt, size := |StringsBytes(NamesOf(t, []))|, HeaderSize + |ReservationsBytes(rs)|,
                                            |StructBytes(t, map[])|;
             f == [Magic, structAt + size + strings, structAt, structAt + size, HeaderSize, 17, 16, bootCpu, strings,
                   size]
    ensures |StringsBytes(NamesOf(t, []))| < 0x1_0000_0000
    ensures BlobBytes(t, rs, bootCpu)
         == Words(f)
            + (ReservationsBytes(rs) + StructBytes(t, OffsetsIn(NamesOf(t, []))) + StringsBytes(NamesOf(t, [])))
  {
    hide Words, ReservationsBytes, StructBytes, StringsBytes, OffsetsIn, NamesOf, Header, TreeSized;
    var names := NamesOf(t, []);
    StructLength(t, OffsetsIn(names), map[]);
    FieldsAreHeader(f);
    Regrouped4(Words(f), ReservationsBytes(rs), StructBytes(t, OffsetsIn(names)), StringsBytes(names));
  }

  lemma Regrouped4(a: Bytes, b: Bytes, c: Bytes, d: Bytes)
    ensures a + b + c + d == a + (b + c + d)
  {
  }

  lemma NewRefs(refs: map<Bytes, seq<nat>>, n: Bytes, positions: seq<nat>)
    requires n in refs && RefsOf(refs, n) == RefsOf(map[], n) + positions
    ensures refs[n] == positions
  {
    assert [] + positions == positions;
  }

  lemma Regrouped(a: Bytes, b: Bytes, c: Bytes)
    ensures a + b + c == a + (b + c)
  {
  }

  lemma StructWhole(t: Tree, pre: Bytes)
    requires TreeSized(t)
    ensures pre + NodeBytes(t, [], map[]) + Be32(EndToken) == pre + StructBytes(t, map[])
  {
  }

  lemma FitsParts(t: Tree, rs: seq<Reservation>)
    requires Fits(t, rs)
    ensures TreeSized(t) && |StringsBytes(NamesOf(t, []))| < 0x1_0000_0000
    ensures HeaderSize + |ReservationsBytes(rs)| + |StructBytes(t, map[])|
            + |StringsBytes(NamesOf(t, []))| < 0x1_0000_0000
  {
  }

  /** A header field's setter. */
  method SetField(bytes: Buffer, ghost f: seq<u32>, i: nat, x: u32, ghost rest: Bytes) returns (ghost g: seq<u32>)
    requires bytes.Valid() && |f| == 10 && i < 10 && bytes.Contents() == Words(f) + rest
    modifies bytes.data
    ensures bytes.Valid() && g == f[i := x] && bytes.Contents() == Words(g) + rest
  {
    hide Words, SetAt;
    SetWord(f, i, x, rest);
    bytes.Set32(4 * i, x);
    g := f[i := x];
  }
}
