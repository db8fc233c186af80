/**
 The objects that generate_devicetree (packages/kernel/src/devicetree.ts) takes,
 and how it tells a node's children from its properties: a value is a child if
 its `constructor` is Object.
 */
module DevicetreeNodes {
  import opened Wrappers
  import opened Devicetree

  /** A plain object; its keys are listed as Object.entries lists them. */
  datatype Node = Node(entries: Entries)

  datatype Entries = NoEntries | Entry(key: Bytes, item: Item, rest: Entries)

  datatype Item = Leaf(value: Value) | Sub(node: Node)

  /** "constructor". */
  const Constructor: Bytes := [99, 111, 110, 115, 116, 114, 117, 99, 116, 111, 114]

  predicate HasKey(entries: Entries, key: Bytes)
  {
    entries.Entry? && (entries.key == key || HasKey(entries.rest, key))
  }

  /** A nested object that has no `constructor` of its own. */
  predicate IsChild(item: Item)
  {
    item.Sub? && !HasKey(item.node.entries, Constructor)
  }

  /** The entries filtered for properties: whatever is no child. */
  function PropsOf(entries: Entries): seq<Prop>
  {
    match entries
    case NoEntries => []
    case Entry(key, item, rest) =>
      if IsChild(item) then PropsOf(rest)
      else [Prop(key, if item.Leaf? then item.value else Nested)] + PropsOf(rest)
  }

  /** A node as it is walked. */
  function TreeOf(node: Node): Tree
  {
    Tree(PropsOf(node.entries), KidsOf(node.entries))
  }

  /** The entries filtered for children. */
  function KidsOf(entries: Entries): Forest
  {
    match entries
    case NoEntries => Nil
    case Entry(key, item, rest) =>
      if IsChild(item) then Cons(key, TreeOf(item.node), KidsOf(rest)) else KidsOf(rest)
  }

  /** Why the program throws: a long name, one that the object collecting names inherits, or a value it cannot write. */
  datatype Fault = NameTooLong | NameInherited | NestedObject

  /** The first fault that writing these properties meets; `inherited` is what Object.prototype has. */
  function PropsFault(props: seq<Prop>, inherited: set<Bytes>): Option<Fault>
  {
    if props == [] then None
    else if |props[0].name| > MaxName then Some(NameTooLong)
    else if props[0].name in inherited then Some(NameInherited)
    else if props[0].value.Nested? then Some(NestedObject)
    else PropsFault(props[1..], inherited)
  }

  /** The first fault in a node, its properties before its children. */
  function TreeFault(t: Tree, name: Bytes, inherited: set<Bytes>): Option<Fault>
  {
    if |name| > MaxName then Some(NameTooLong)
    else
      match PropsFault(t.props, inherited)
      case Some(fault) => Some(fault)
      case None => ForestFault(t.kids, inherited)
  }

  function ForestFault(f: Forest, inherited: set<Bytes>): Option<Fault>
  {
    match f
    case Nil => None
    case Cons(name, tree, rest) =>
      match TreeFault(tree, name, inherited)
      case Some(fault) => Some(fault)
      case None => ForestFault(rest, inherited)
  }

  /**
   What a caller can check of an object: its names are within the limit, no
   property has the name of a member of Object.prototype, and no object nested
   in it has a key "constructor".
   */
  predicate Writable(node: Node, name: Bytes, inherited: set<Bytes>)
  {
    |name| <= MaxName && EntriesWritable(node.entries, inherited)
  }

  predicate EntriesWritable(entries: Entries, inherited: set<Bytes>)
  {
    match entries
    case NoEntries => true
    case Entry(key, Leaf(value), rest) =>
      |key| <= MaxName && key !in inherited && !value.Nested? && EntriesWritable(rest, inherited)
    case Entry(key, Sub(node), rest) =>
      && !HasKey(node.entries, Constructor)
      && Writable(node, key, inherited) && EntriesWritable(rest, inherited)
  }

  lemma PropsFaultStep(p: Prop, rest: seq<Prop>, inherited: set<Bytes>)
    ensures PropsFault([p] + rest, inherited).None?
       <==> |p.name| <= MaxName && p.name !in inherited && !p.value.Nested? && PropsFault(rest, inherited).None?
  {
    assert ([p] + rest)[1..] == rest;
  }

  /** An object is written exactly if it is writable. */
  lemma {:induction false} FaultExactly(node: Node, name: Bytes, inherited: set<Bytes>)
    ensures TreeFault(TreeOf(node), name, inherited).None? <==> Writable(node, name, inherited)
  {
    EntriesFaultExactly(node.entries, inherited);
  }

  lemma {:induction false} EntriesFaultExactly(entries: Entries, inherited: set<Bytes>)
    ensures PropsFault(PropsOf(entries), inherited).None? && ForestFault(KidsOf(entries), inherited).None?
       <==> EntriesWritable(entries, inherited)
  {
    hide PropsFault, HasKey;
    match entries
    case NoEntries => NoFault(inherited);
    case Entry(key, item, rest) =>
      EntriesFaultExactly(rest, inherited);
      if IsChild(item) {
        FaultExactly(item.node, key, inherited);
      } else {
        PropsFaultStep(Prop(key, if item.Leaf? then item.value else Nested), PropsOf(rest), inherited);
      }
  }

  lemma NoFault(inherited: set<Bytes>)
    ensures PropsFault([], inherited).None?
  {
  }

  /** `{ a: { constructor: {} } }` throws: its `a` is taken for a value. */
  lemma NestedConstructorThrows(inherited: set<Bytes>)
    requires [97] !in inherited
    ensures var inner := Node(Entry(Constructor, Sub(Node(NoEntries)), NoEntries));
            TreeFault(TreeOf(Node(Entry([97], Sub(inner), NoEntries))), [], inherited) == Some(NestedObject)
  {
    var inner := Node(Entry(Constructor, Sub(Node(NoEntries)), NoEntries));
    assert HasKey(inner.entries, Constructor);
    assert PropsOf(Entry([97], Sub(inner), NoEntries)) == [Prop([97], Nested)];
  }

  /** At the root a child may have that name, and anywhere any that Object.prototype has. */
  lemma ChildNameIsFree(name: Bytes, inherited: set<Bytes>)
    requires |name| <= MaxName
    ensures TreeFault(TreeOf(Node(Entry(name, Sub(Node(NoEntries)), NoEntries))), [], inherited).None?
  {
    FaultExactly(Node(Entry(name, Sub(Node(NoEntries)), NoEntries)), [], inherited);
    assert Writable(Node(NoEntries), name, inherited);
  }
}
