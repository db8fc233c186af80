/**
 Types, sections and whole modules as a producer may write them, and what the two
 walkers make of every such module.
 */
module WasmWritten {
  import opened Wrappers
  import opened WasmBinary
  import opened WasmTypes
  import opened WasmImports
  import opened WasmModule
  import opened WasmGrammar

  // ---------------------------------------------------------------------------
  // Value types and fields

  predicate ValueGood(x: Type)
  {
    TypeGood(true, x)
  }

  function ValueMeans(x: Type): ValueType
  {
    if x.Simple? && x.code >= 0x7b then Plain(x.code) else Reference
  }

  lemma ValuesRead()
    ensures Reads(ValueTypeOf, TypeBytes, ValueGood, ValueMeans)
  {
    hide SignedFitsIn, SignedLeb, SignedOf;
    forall x: Type, rest: Bytes | ValueGood(x)
      ensures ValueTypeOf(TypeBytes(x) + rest) == Some((ValueMeans(x), rest)) {
      TypeRead(true, x, rest);
      assert (TypeBytes(x) + rest)[0] == TypeBytes(x)[0];
    }
    forall b: Bytes | ValueTypeOf(b).Some?
      ensures exists x ::
                Begins(TypeBytes, ValueGood, ValueMeans, b, x, ValueTypeOf(b).value.0, ValueTypeOf(b).value.1) {
      var x := TypeWritten(true, b);
      assert b[0] == TypeBytes(x)[0];
      assert Begins(TypeBytes, ValueGood, ValueMeans, b, x, ValueTypeOf(b).value.0, ValueTypeOf(b).value.1);
    }
  }

  /** A field: of a packed type, 0x78 or 0x77, or of a value type. */
  datatype Field = Packed(wide: bool, mutable: bool) | Whole(of: Type, mutable: bool)

  function FieldBytes(x: Field): Bytes
  {
    (match x { case Packed(wide, _) => [if wide then 0x77 else 0x78] case Whole(of, _) => TypeBytes(of) })
    + [FieldMeans(x)]
  }

  predicate FieldGood(x: Field)
  {
    x.Whole? ==> TypeGood(true, x.of)
  }

  function FieldMeans(x: Field): byte
  {
    if x.mutable then 1 else 0
  }

  lemma FieldRead(x: Field, rest: Bytes)
    requires FieldGood(x)
    ensures FieldOf(FieldBytes(x) + rest) == Some((FieldMeans(x), rest))
  {
    hide TypeOf, TypeGood, TypeBytes, ByteOf;
    var m := FieldMeans(x);
    MutabilityRead(m, rest);
    if x.Packed? {
      HeadTail(if x.wide then 0x77 else 0x78, [m], rest);
    } else {
      TypeRead(true, x.of, [m] + rest);
      NotPacked(x.of, [m] + rest);
      assert FieldBytes(x) + rest == TypeBytes(x.of) + ([m] + rest);
    }
  }

  lemma NotPacked(x: Type, rest: Bytes)
    requires TypeGood(true, x)
    ensures var b := TypeBytes(x) + rest; b != [] && b[0] != 0x77 && b[0] != 0x78
  {
    assert (TypeBytes(x) + rest)[0] == TypeBytes(x)[0];
  }

  lemma FieldWritten(b: Bytes) returns (x: Field)
    requires FieldOf(b).Some?
    ensures FieldGood(x) && FieldMeans(x) == FieldOf(b).value.0 && b == FieldBytes(x) + FieldOf(b).value.1
  {
    hide TypeGood, TypeBytes, TypeOf;
    var end := FieldOf(b).value.1;
    if b != [] && (b[0] == 0x78 || b[0] == 0x77) {
      x := Packed(b[0] == 0x77, b[1] == 1);
      assert b == [b[0]] + [b[1]] + end;
    } else {
      var of := TypeWritten(true, b);
      var last := TypeOf(true, b).value;
      x := Whole(of, last[0] == 1);
      assert last == [last[0]] + end;
      assert TypeBytes(of) + ([last[0]] + end) == TypeBytes(of) + [last[0]] + end;
    }
  }

  lemma FieldsRead()
    ensures Reads(FieldOf, FieldBytes, FieldGood, FieldMeans)
  {
    hide FieldOf, FieldBytes, FieldGood, FieldMeans;
    forall x: Field, rest: Bytes | FieldGood(x)
      ensures FieldOf(FieldBytes(x) + rest) == Some((FieldMeans(x), rest)) {
      FieldRead(x, rest);
    }
    forall b: Bytes | FieldOf(b).Some?
      ensures exists x :: Begins(FieldBytes, FieldGood, FieldMeans, b, x, FieldOf(b).value.0, FieldOf(b).value.1) {
      var x := FieldWritten(b);
      assert Begins(FieldBytes, FieldGood, FieldMeans, b, x, FieldOf(b).value.0, FieldOf(b).value.1);
    }
  }

  predicate IndexGood(x: Number)
  {
    FitsIn(32, x)
  }

  function IndexMeans(x: Number): nat
  {
    x.value
  }

  lemma IndicesRead()
    ensures Reads(WasmTypes.IndexOf, NumberBytes, IndexGood, IndexMeans)
  {
    hide FitsIn, UnsignedOf, Leb;
    forall x: Number, rest: Bytes | IndexGood(x)
      ensures WasmTypes.IndexOf(NumberBytes(x) + rest) == Some((IndexMeans(x), rest)) {
      LebRead(32, x, rest);
    }
    forall b: Bytes | WasmTypes.IndexOf(b).Some?
      ensures exists x ::
                Begins(NumberBytes, IndexGood, IndexMeans, b, x, WasmTypes.IndexOf(b).value.0,
                       WasmTypes.IndexOf(b).value.1) {
      var x := LebWritten(32, b);
      assert Begins(NumberBytes, IndexGood, IndexMeans, b, x, WasmTypes.IndexOf(b).value.0,
                    WasmTypes.IndexOf(b).value.1);
    }
  }

  // ---------------------------------------------------------------------------
  // Composite types, sub types and groups

  datatype Composite = Func(params: Vec<Type>, results: Vec<Type>) | Struct(fields: Vec<Field>) | Array(field: Field)

  function CompositeBytes(x: Composite): Bytes
  {
    match x
    case Func(params, results) => [0x60] + (VecBytes(TypeBytes, params) + VecBytes(TypeBytes, results))
    case Struct(fields) => [0x5f] + VecBytes(FieldBytes, fields)
    case Array(field) => [0x5e] + FieldBytes(field)
  }

  predicate CompositeGood(x: Composite)
  {
    match x
    case Func(params, results) => VecGood(ValueGood, params) && VecGood(ValueGood, results)
    case Struct(fields) => VecGood(FieldGood, fields)
    case Array(field) => FieldGood(field)
  }

  function CompositeMeans(x: Composite): FunctionType
  {
    if x.Func? then
      Some(Signature(Meanings(ValueMeans, x.params.items), Meanings(ValueMeans, x.results.items)))
    else None
  }

  lemma CompositeRead(x: Composite, rest: Bytes)
    requires CompositeGood(x)
    ensures CompositeOf(CompositeBytes(x) + rest) == Some((CompositeMeans(x), rest))
  {
    hide Reads, VecGood, VecBytes, Vector, Meanings, FieldOf, FieldGood, FieldBytes;
    match x
    case Func(params, results) =>
      ValuesRead();
      var tail := VecBytes(TypeBytes, results) + rest;
      VectorRead(ValueTypeOf, TypeBytes, ValueGood, ValueMeans, params, tail);
      VectorRead(ValueTypeOf, TypeBytes, ValueGood, ValueMeans, results, rest);
      HeadTail(0x60, VecBytes(TypeBytes, params) + VecBytes(TypeBytes, results), rest);
      assert VecBytes(TypeBytes, params) + VecBytes(TypeBytes, results) + rest == VecBytes(TypeBytes, params) + tail;
    case Struct(fields) =>
      FieldsRead();
      VectorRead(FieldOf, FieldBytes, FieldGood, FieldMeans, fields, rest);
      HeadTail(0x5f, VecBytes(FieldBytes, fields), rest);
    case Array(field) =>
      FieldRead(field, rest);
      HeadTail(0x5e, FieldBytes(field), rest);
  }

  lemma CompositeWritten(b: Bytes) returns (x: Composite)
    requires CompositeOf(b).Some?
    ensures CompositeGood(x) && CompositeMeans(x) == CompositeOf(b).value.0
    ensures b == CompositeBytes(x) + CompositeOf(b).value.1
  {
    hide Reads, VecGood, VecBytes, Vector, Meanings, FieldOf, FieldGood, FieldBytes;
    var c, end := b[1..], CompositeOf(b).value.1;
    assert b == [b[0]] + c;
    if b[0] == 0x60 {
      ValuesRead();
      var params := VectorWritten(ValueTypeOf, TypeBytes, ValueGood, ValueMeans, c);
      var after := Vector(ValueTypeOf, c).value.1;
      var results := VectorWritten(ValueTypeOf, TypeBytes, ValueGood, ValueMeans, after);
      x := Func(params, results);
      assert c == VecBytes(TypeBytes, params) + VecBytes(TypeBytes, results) + end;
    } else if b[0] == 0x5f {
      FieldsRead();
      var fields := VectorWritten(FieldOf, FieldBytes, FieldGood, FieldMeans, c);
      x := Struct(fields);
    } else {
      var field := FieldWritten(c);
      x := Array(field);
    }
  }

  datatype SubType = Bare(composite: Composite) | Under(final: bool, supers: Vec<Number>, composite: Composite)

  function SubTypeBytes(x: SubType): Bytes
  {
    match x
    case Bare(composite) => CompositeBytes(composite)
    case Under(final, supers, composite) =>
      [if final then 0x4f else 0x50] + (VecBytes(NumberBytes, supers) + CompositeBytes(composite))
  }

  predicate SubTypeGood(x: SubType)
  {
    CompositeGood(x.composite) && (x.Under? ==> VecGood(IndexGood, x.supers))
  }

  function SubTypeMeans(x: SubType): FunctionType
  {
    CompositeMeans(x.composite)
  }

  lemma CompositeStarts(x: Composite, rest: Bytes)
    ensures var b := CompositeBytes(x) + rest; b != [] && 0x5e <= b[0] <= 0x60
  {
    assert (CompositeBytes(x) + rest)[0] == CompositeBytes(x)[0];
  }

  lemma SubTypeRead(x: SubType, rest: Bytes)
    requires SubTypeGood(x)
    ensures SubTypeOf(SubTypeBytes(x) + rest) == Some((SubTypeMeans(x), rest))
  {
    hide Reads, VecGood, VecBytes, Vector, CompositeOf, CompositeGood, CompositeBytes, CompositeMeans;
    CompositeRead(x.composite, rest);
    CompositeStarts(x.composite, rest);
    if x.Under? {
      IndicesRead();
      var tail := CompositeBytes(x.composite) + rest;
      VectorRead(WasmTypes.IndexOf, NumberBytes, IndexGood, IndexMeans, x.supers, tail);
      HeadTail(if x.final then 0x4f else 0x50, VecBytes(NumberBytes, x.supers) + CompositeBytes(x.composite), rest);
      assert VecBytes(NumberBytes, x.supers) + CompositeBytes(x.composite) + rest
          == VecBytes(NumberBytes, x.supers) + tail;
    }
  }

  lemma SubTypeWritten(b: Bytes) returns (x: SubType)
    requires SubTypeOf(b).Some?
    ensures SubTypeGood(x) && SubTypeMeans(x) == SubTypeOf(b).value.0 && b == SubTypeBytes(x) + SubTypeOf(b).value.1
  {
    hide Reads, VecGood, VecBytes, Vector, CompositeOf, CompositeGood, CompositeBytes, CompositeMeans;
    if b != [] && (b[0] == 0x50 || b[0] == 0x4f) {
      IndicesRead();
      var c, end := b[1..], SubTypeOf(b).value.1;
      assert b == [b[0]] + c;
      var supers := VectorWritten(WasmTypes.IndexOf, NumberBytes, IndexGood, IndexMeans, c);
      var composite := CompositeWritten(Vector(WasmTypes.IndexOf, c).value.1);
      x := Under(b[0] == 0x4f, supers, composite);
      assert c == VecBytes(NumberBytes, supers) + CompositeBytes(composite) + end;
    } else {
      var composite := CompositeWritten(b);
      x := Bare(composite);
    }
  }

  lemma SubTypesRead()
    ensures Reads(SubTypeOf, SubTypeBytes, SubTypeGood, SubTypeMeans)
  {
    hide SubTypeOf, SubTypeBytes, SubTypeGood, SubTypeMeans;
    forall x: SubType, rest: Bytes | SubTypeGood(x)
      ensures SubTypeOf(SubTypeBytes(x) + rest) == Some((SubTypeMeans(x), rest)) {
      SubTypeRead(x, rest);
    }
    forall b: Bytes | SubTypeOf(b).Some?
      ensures exists x ::
                Begins(SubTypeBytes, SubTypeGood, SubTypeMeans, b, x, SubTypeOf(b).value.0, SubTypeOf(b).value.1) {
      var x := SubTypeWritten(b);
      assert Begins(SubTypeBytes, SubTypeGood, SubTypeMeans, b, x, SubTypeOf(b).value.0, SubTypeOf(b).value.1);
    }
  }

  datatype Group = Alone(one: SubType) | Together(types: Vec<SubType>)

  function GroupBytes(x: Group): Bytes
  {
    match x
    case Alone(one) => SubTypeBytes(one)
    case Together(types) => [0x4e] + VecBytes(SubTypeBytes, types)
  }

  predicate GroupGood(x: Group)
  {
    match x
    case Alone(one) => SubTypeGood(one)
    case Together(types) => VecGood(SubTypeGood, types)
  }

  function GroupMeans(x: Group): seq<FunctionType>
  {
    match x
    case Alone(one) => [SubTypeMeans(one)]
    case Together(types) => Meanings(SubTypeMeans, types.items)
  }

  lemma SubTypeStarts(x: SubType, rest: Bytes)
    ensures var b := SubTypeBytes(x) + rest; b != [] && b[0] != 0x4e
  {
    CompositeStarts(x.composite, rest);
    hide CompositeBytes, VecBytes;
    if x.Under? { HeadTail(if x.final then 0x4f else 0x50,
                           VecBytes(NumberBytes, x.supers) + CompositeBytes(x.composite), rest); }
  }

  lemma GroupRead(x: Group, rest: Bytes)
    requires GroupGood(x)
    ensures GroupOf(GroupBytes(x) + rest) == Some((GroupMeans(x), rest))
  {
    hide Reads, VecGood, VecBytes, Vector, Meanings, SubTypeOf, SubTypeGood, SubTypeBytes, SubTypeMeans;
    match x
    case Alone(one) =>
      SubTypeRead(one, rest);
      SubTypeStarts(one, rest);
    case Together(types) =>
      SubTypesRead();
      VectorRead(SubTypeOf, SubTypeBytes, SubTypeGood, SubTypeMeans, types, rest);
      HeadTail(0x4e, VecBytes(SubTypeBytes, types), rest);
  }

  lemma GroupWritten(b: Bytes) returns (x: Group)
    requires GroupOf(b).Some?
    ensures GroupGood(x) && GroupMeans(x) == GroupOf(b).value.0 && b == GroupBytes(x) + GroupOf(b).value.1
  {
    hide Reads, VecGood, VecBytes, Vector, Meanings, SubTypeOf, SubTypeGood, SubTypeBytes, SubTypeMeans;
    if b != [] && b[0] == 0x4e {
      SubTypesRead();
      assert b == [b[0]] + b[1..];
      var types := VectorWritten(SubTypeOf, SubTypeBytes, SubTypeGood, SubTypeMeans, b[1..]);
      x := Together(types);
    } else {
      var one := SubTypeWritten(b);
      x := Alone(one);
    }
  }

  /** A recursion group is read exactly as written. */
  lemma GroupsRead()
    ensures Reads(GroupOf, GroupBytes, GroupGood, GroupMeans)
  {
    hide GroupOf, GroupBytes, GroupGood, GroupMeans;
    forall x: Group, rest: Bytes | GroupGood(x)
      ensures GroupOf(GroupBytes(x) + rest) == Some((GroupMeans(x), rest)) {
      GroupRead(x, rest);
    }
    forall b: Bytes | GroupOf(b).Some?
      ensures exists x :: Begins(GroupBytes, GroupGood, GroupMeans, b, x, GroupOf(b).value.0, GroupOf(b).value.1) {
      var x := GroupWritten(b);
      assert Begins(GroupBytes, GroupGood, GroupMeans, b, x, GroupOf(b).value.0, GroupOf(b).value.1);
    }
  }

  // ---------------------------------------------------------------------------
  // Sections

  /** A section written as a vector of items is read as their list, and nothing else is. */
  lemma ListRead<T(!new), U>(one: Bytes -> Option<(U, Bytes)>, write: T -> Bytes, good: T -> bool, means: T -> U,
                             section: Bytes, v: Vec<T>)
    requires Reads(one, write, good, means) && VecGood(good, v) && section == VecBytes(write, v)
    ensures Closed(Vector(one, section)) == Some(Meanings(means, v.items))
  {
    hide Reads, VecGood, VecBytes, Vector;
    VectorRead(one, write, good, means, v, []);
    assert VecBytes(write, v) + [] == VecBytes(write, v);
  }

  lemma ListWritten<T(!new), U>(one: Bytes -> Option<(U, Bytes)>, write: T -> Bytes, good: T -> bool, means: T -> U,
                                section: Bytes) returns (v: Vec<T>)
    requires Reads(one, write, good, means) && Closed(Vector(one, section)).Some?
    ensures VecGood(good, v) && section == VecBytes(write, v)
    ensures Closed(Vector(one, section)) == Some(Meanings(means, v.items))
  {
    hide Reads, VecGood, VecBytes, Vector;
    v := VectorWritten(one, write, good, means, section);
    assert VecBytes(write, v) + [] == VecBytes(write, v);
  }

  predicate SharedGood(x: Limits)
  {
    LimitsGood(true, x)
  }

  lemma DefinitionsRead()
    ensures Reads(SharedLimitsOf, LimitsBytes, SharedGood, LimitsMean)
  {
    hide LimitsBytes, LimitsGood, LimitsMean, LimitsOf;
    forall x: Limits, rest: Bytes | SharedGood(x)
      ensures SharedLimitsOf(LimitsBytes(x) + rest) == Some((LimitsMean(x), rest)) {
      LimitsRead(true, x, rest);
    }
    forall b: Bytes | SharedLimitsOf(b).Some?
      ensures exists x ::
                Begins(LimitsBytes, SharedGood, LimitsMean, b, x, SharedLimitsOf(b).value.0,
                       SharedLimitsOf(b).value.1) {
      var x := LimitsWritten(true, b);
      assert Begins(LimitsBytes, SharedGood, LimitsMean, b, x, SharedLimitsOf(b).value.0, SharedLimitsOf(b).value.1);
    }
  }

  datatype Content =
    | TypeSection(groups: Vec<Group>)
    | ImportSection(entries: Vec<Entry>)
    | MemorySection(memories: Vec<Limits>)
    | OtherSection(id: byte, body: Bytes)

  function ContentId(x: Content): byte
  {
    match x
    case TypeSection(_) => 1
    case ImportSection(_) => 2
    case MemorySection(_) => 5
    case OtherSection(id, _) => id
  }

  function ContentBytes(x: Content): Bytes
  {
    match x
    case TypeSection(groups) => VecBytes(GroupBytes, groups)
    case ImportSection(entries) => VecBytes(EntryBytes, entries)
    case MemorySection(memories) => VecBytes(LimitsBytes, memories)
    case OtherSection(_, body) => body
  }

  predicate ContentGood(x: Content)
  {
    match x
    case TypeSection(groups) => VecGood(GroupGood, groups)
    case ImportSection(entries) => VecGood(EntryGood, entries)
    case MemorySection(memories) => VecGood(SharedGood, memories)
    case OtherSection(id, _) => id != 1 && id != 2 && id != 5
  }

  /** A section: its content, and its length as it is written. */
  datatype Part = Part(content: Content, length: Number)

  function PartBytes(x: Part): Bytes
  {
    [ContentId(x.content)] + SpanBytes(Span(x.length, ContentBytes(x.content)))
  }

  predicate PartGood(x: Part)
  {
    ContentGood(x.content) && SpanGood(Span(x.length, ContentBytes(x.content)))
  }

  function PartMeans(x: Part): Section
  {
    Section(ContentId(x.content), ContentBytes(x.content))
  }

  lemma PartRead(x: Part, rest: Bytes)
    requires PartGood(x)
    ensures SectionOf(PartBytes(x) + rest) == Some((PartMeans(x), rest))
  {
    hide SpanGood, SpanOf, SpanBytes, ContentGood, ContentBytes, ContentId;
    var span := Span(x.length, ContentBytes(x.content));
    SpanRead(span, rest);
    HeadTail(ContentId(x.content), SpanBytes(span), rest);
  }

  /** The sections of what is written are those written. */
  lemma {:induction false} PartsRead(parts: seq<Part>)
    requires AllGood(PartGood, parts)
    ensures SectionsOf(Concat(PartBytes, parts)) == Some(Meanings(PartMeans, parts))
    decreases |parts|
  {
    if parts != [] {
      hide SectionOf, PartGood, PartMeans;
      var rest := Concat(PartBytes, parts[1..]);
      PartRead(parts[0], rest);
      PartsRead(parts[1..]);
    }
  }

  // ---------------------------------------------------------------------------
  // Modules

  /** Eight bytes, then the sections. */
  function ModuleBytes(parts: seq<Part>): Bytes
  {
    [0x00, 0x61, 0x73, 0x6d, 0x01, 0x00, 0x00, 0x00] + Concat(PartBytes, parts)
  }

  /** The memories among a list of imports. */
  function MemoriesAmong(entries: seq<Entry>): seq<MemoryImport>
  {
    if entries == [] then []
    else
      (match entries[0].item {
         case AMemory(limits) => [MemoryImport(entries[0].from.body, entries[0].name.body, LimitsMean(limits))]
         case _ => [] })
      + MemoriesAmong(entries[1..])
  }

  /** The functions, with their signatures among the types. */
  function FunctionsAmong(entries: seq<Entry>, types: seq<FunctionType>): seq<FunctionImport>
  {
    if entries == [] then []
    else
      (match entries[0].item {
         case AFunction(index) =>
           [FunctionImport(entries[0].from.body, entries[0].name.body,
                           if index.value < |types| then types[index.value] else None)]
         case _ => [] })
      + FunctionsAmong(entries[1..], types)
  }

  lemma {:induction false} MemoriesJoin(a: seq<Import>, b: seq<Import>)
    ensures MemoriesIn(a + b) == MemoriesIn(a) + MemoriesIn(b)
    decreases |b|
  {
    hide MemoryOf, FunctionOf;
    if b == [] {
      assert a + b == a;
    } else {
      var n := |b| - 1;
      assert (a + b)[..|a + b| - 1] == a + b[..n] && (a + b)[|a + b| - 1] == b[n];
      MemoriesJoin(a, b[..n]);
    }
  }

  lemma {:induction false} FunctionsJoin(a: seq<Import>, b: seq<Import>, types: seq<FunctionType>)
    ensures FunctionsIn(a + b, types) == FunctionsIn(a, types) + FunctionsIn(b, types)
    decreases |b|
  {
    hide MemoryOf, FunctionOf;
    if b == [] {
      assert a + b == a;
    } else {
      var n := |b| - 1;
      assert (a + b)[..|a + b| - 1] == a + b[..n] && (a + b)[|a + b| - 1] == b[n];
      FunctionsJoin(a, b[..n], types);
    }
  }

  lemma OneListed(one: Import, types: seq<FunctionType>)
    ensures MemoriesIn([one]) == MemoryOf(one) && FunctionsIn([one], types) == FunctionOf(one, types)
  {
    assert [one][..0] == [];
    assert [] + MemoryOf(one) == MemoryOf(one) && [] + FunctionOf(one, types) == FunctionOf(one, types);
  }

  lemma {:induction false} AmongExactly(entries: seq<Entry>, types: seq<FunctionType>)
    ensures MemoriesIn(Meanings(EntryMeans, entries)) == MemoriesAmong(entries)
    ensures FunctionsIn(Meanings(EntryMeans, entries), types) == FunctionsAmong(entries, types)
    decreases |entries|
  {
    if entries != [] {
      hide LimitsMean, MemoriesIn, FunctionsIn;
      AmongExactly(entries[1..], types);
      OneListed(EntryMeans(entries[0]), types);
      MemoriesJoin([EntryMeans(entries[0])], Meanings(EntryMeans, entries[1..]));
      FunctionsJoin([EntryMeans(entries[0])], Meanings(EntryMeans, entries[1..]), types);
    } else {
      NothingIn(types);
    }
  }

  /** The module's first import section and first memory section, or nothing in their place. */
  function FirstImports(parts: seq<Part>): seq<Entry>
  {
    if parts == [] then []
    else if parts[0].content.ImportSection? then parts[0].content.entries.items
    else FirstImports(parts[1..])
  }

  function FirstMemories(parts: seq<Part>): seq<Limits>
  {
    if parts == [] then []
    else if parts[0].content.MemorySection? then parts[0].content.memories.items
    else FirstMemories(parts[1..])
  }

  /** The types of all type sections before the first import section. */
  function TypesFirst(parts: seq<Part>): seq<FunctionType>
  {
    if parts == [] || parts[0].content.ImportSection? then []
    else
      (if parts[0].content.TypeSection? then TypesAmong(parts[0].content.groups.items) else [])
      + TypesFirst(parts[1..])
  }

  function TypesAmong(groups: seq<Group>): seq<FunctionType>
  {
    if groups == [] then [] else GroupMeans(groups[0]) + TypesAmong(groups[1..])
  }

  function CountOf(parts: seq<Part>, id: byte): nat
  {
    if parts == [] then 0
    else (if ContentId(parts[0].content) == id then 1 else 0) + CountOf(parts[1..], id)
  }

  predicate EntryNamed(text: Bytes -> bool, x: Entry)
  {
    text(x.from.body) && text(x.name.body)
  }

  lemma {:induction false} GroupsJoin(groups: seq<Group>)
    ensures Joined(Meanings(GroupMeans, groups)) == TypesAmong(groups)
    decreases |groups|
  {
    if groups != [] {
      hide GroupMeans;
      GroupsJoin(groups[1..]);
      JoinedFront(GroupMeans(groups[0]), Meanings(GroupMeans, groups[1..]));
    }
  }

  lemma {:induction false} JoinedFront(first: seq<FunctionType>, groups: seq<seq<FunctionType>>)
    ensures Joined([first] + groups) == first + Joined(groups)
    decreases |groups|
  {
    var all := [first] + groups;
    if groups == [] {
      assert all[..0] == [] && [] + first == first && first + [] == first;
    } else {
      var n := |groups| - 1;
      assert all[..|all| - 1] == [first] + groups[..n];
      JoinedFront(first, groups[..n]);
    }
  }

  lemma ContentRead(x: Content)
    requires ContentGood(x)
    ensures x.TypeSection? ==> TypeList(ContentBytes(x)) == Some(TypesAmong(x.groups.items))
    ensures x.ImportSection? ==> ImportList(ContentBytes(x)) == Some(Meanings(EntryMeans, x.entries.items))
    ensures x.MemorySection? ==> DefinitionList(ContentBytes(x)) == Some(Meanings(LimitsMean, x.memories.items))
  {
    hide Reads, VecGood, VecBytes, Vector, Closed, Meanings, TypesAmong, Joined;
    match x
    case TypeSection(groups) =>
      GroupsRead();
      ListRead(GroupOf, GroupBytes, GroupGood, GroupMeans, ContentBytes(x), groups);
      GroupsJoin(groups.items);
    case ImportSection(entries) =>
      ImportsRead();
      ListRead(ImportOf, EntryBytes, EntryGood, EntryMeans, ContentBytes(x), entries);
    case MemorySection(memories) =>
      DefinitionsRead();
      ListRead(SharedLimitsOf, LimitsBytes, SharedGood, LimitsMean, ContentBytes(x), memories);
    case OtherSection(_, _) =>
  }

  lemma {:induction false} MeaningsAt<T, U>(means: T -> U, items: seq<T>)
    ensures |Meanings(means, items)| == |items|
    ensures forall i :: 0 <= i < |items| ==> Meanings(means, items)[i] == means(items[i])
  {
    if items != [] { MeaningsAt(means, items[1..]); }
  }

  lemma {:induction false} CountsOnce(parts: seq<Part>, id: byte)
    ensures CountOf(parts, id) <= 1 <==> AtMostOne(Meanings(PartMeans, parts), id)
    ensures CountOf(parts, id) == 0 <==> forall i :: 0 <= i < |parts| ==> ContentId(parts[i].content) != id
    decreases |parts|
  {
    hide ContentId, ContentBytes;
    MeaningsAt(PartMeans, parts);
    if parts != [] {
      var all, rest := Meanings(PartMeans, parts), Meanings(PartMeans, parts[1..]);
      MeaningsAt(PartMeans, parts[1..]);
      CountsOnce(parts[1..], id);
      assert forall i :: 0 <= i < |rest| ==> rest[i] == all[i + 1];
    }
  }

  /** The first section with an id, as the walkers find it. */
  lemma {:induction false} FirstsFound(parts: seq<Part>)
    requires AllGood(PartGood, parts)
    ensures var sections := Meanings(PartMeans, parts);
            && (FirstOf(sections, 2).None? ==> FirstImports(parts) == [] && CountOf(parts, 2) == 0)
            && (FirstOf(sections, 2).Some? ==>
                  ImportList(FirstOf(sections, 2).value) == Some(Meanings(EntryMeans, FirstImports(parts))))
            && (FirstOf(sections, 5).None? ==> FirstMemories(parts) == [])
            && (FirstOf(sections, 5).Some? ==>
                  DefinitionList(FirstOf(sections, 5).value) == Some(Meanings(LimitsMean, FirstMemories(parts))))
            && TypesBefore(sections) == Some(TypesFirst(parts))
    decreases |parts|
  {
    hide ImportList, DefinitionList, TypeList, ContentBytes, TypesAmong, SpanGood, ContentGood;
    if parts != [] {
      var sections := Meanings(PartMeans, parts);
      assert PartGood(parts[0]);
      GoodContent(parts[0]);
      ContentRead(parts[0].content);
      FirstsFound(parts[1..]);
      assert sections[1..] == Meanings(PartMeans, parts[1..]);
      assert [] + TypesFirst(parts[1..]) == TypesFirst(parts[1..]);
    }
  }

  lemma GoodContent(x: Part)
    requires PartGood(x)
    ensures ContentGood(x.content)
    ensures x.content.OtherSection? ==> x.content.id != 1 && x.content.id != 2 && x.content.id != 5
  {
  }

  lemma BodyIs(parts: seq<Part>)
    ensures BodyOf(ModuleBytes(parts)) == Some(Concat(PartBytes, parts))
  {
    var b := ModuleBytes(parts);
    assert b[..8] == Header && b[8..] == Concat(PartBytes, parts);
  }

  lemma {:induction false} NamesMean(entries: seq<Entry>, text: Bytes -> bool)
    ensures var imports := Meanings(EntryMeans, entries);
            && (AllNamed(text, imports) <==> forall i :: 0 <= i < |entries| ==> EntryNamed(text, entries[i]))
            && (MemoriesNamed(text, imports) <==>
                forall i :: 0 <= i < |entries| && entries[i].item.AMemory? ==> EntryNamed(text, entries[i]))
  {
    hide LimitsMean;
    MeaningsAt(EntryMeans, entries);
    var imports := Meanings(EntryMeans, entries);
    assert forall i :: 0 <= i < |entries| ==> imports[i] == EntryMeans(entries[i]);
    assert forall i :: 0 <= i < |entries| ==> (Named(text, imports[i]) <==> EntryNamed(text, entries[i]));
  }

  /**
   Whatever module a producer writes, with numbers of any permitted width: the
   memory walker accepts it exactly if no two sections import, no two define
   memories, and the memory imports' names are text, and then returns the memory
   imports and the memories in order.
   */
  lemma AnyModulesMemories(parts: seq<Part>, text: Bytes -> bool)
    requires AllGood(PartGood, parts)
    ensures var entries := FirstImports(parts);
            MemoryWalk(ModuleBytes(parts), text)
            == if CountOf(parts, 2) <= 1 && CountOf(parts, 5) <= 1
                  && forall i :: 0 <= i < |entries| && entries[i].item.AMemory? ==> EntryNamed(text, entries[i])
            then Some(Memories(MemoriesAmong(entries), Meanings(LimitsMean, FirstMemories(parts))))
            else None
  {
    hide ImportList, DefinitionList, SectionsOf, PartGood, PartMeans, ContentId, MemoriesIn, AtMostOne, ModuleBytes,
      FirstOf, MemoriesNamed, EntryNamed, LimitsMean, EntryMeans, TypesBefore;
    BodyIs(parts);
    PartsRead(parts);
    FirstsFound(parts);
    CountsOnce(parts, 2);
    CountsOnce(parts, 5);
    AmongExactly(FirstImports(parts), []);
    NamesMean(FirstImports(parts), text);
  }

  /**
   And the function walker accepts it exactly if all names of its first import
   section are text, and returns that section's functions with the signatures that
   the type sections before it give.
   */
  lemma AnyModulesFunctions(parts: seq<Part>, text: Bytes -> bool)
    requires AllGood(PartGood, parts)
    ensures var entries := FirstImports(parts);
            FunctionWalk(ModuleBytes(parts), text)
            == if forall i :: 0 <= i < |entries| ==> EntryNamed(text, entries[i])
            then Some(FunctionsAmong(entries, TypesFirst(parts)))
            else None
  {
    hide ImportList, DefinitionList, SectionsOf, PartGood, PartMeans, ContentId, FunctionsIn, ModuleBytes, FirstOf,
      AllNamed, EntryNamed, LimitsMean, EntryMeans, TypesBefore, FunctionsFrom;
    BodyIs(parts);
    PartsRead(parts);
    FirstsFound(parts);
    FunctionsOfSections([], Concat(PartBytes, parts), text);
    AmongExactly(FirstImports(parts), TypesFirst(parts));
    NamesMean(FirstImports(parts), text);
    assert [] + TypesFirst(parts) == TypesFirst(parts);
  }
}
