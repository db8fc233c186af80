/**
 read_wasm_memories and read_wasm_function_imports of
 packages/kernel/src/wasm_binary.ts over whole modules: one reads every section
 and refuses a second import section, the other stops after the first.
 */
module WasmModule {
  import opened Wrappers
  import opened WasmBinary
  import opened WasmTypes
  import opened WasmImports

  const Header: Bytes := [0x00, 0x61, 0x73, 0x6d, 0x01, 0x00, 0x00, 0x00]

  datatype Section = Section(id: byte, body: Bytes)

  const TypeId: byte := 1
  const ImportId: byte := 2
  const MemoryId: byte := 5

  // ---------------------------------------------------------------------------
  // What a module is

  function SectionOf(b: Bytes): (r: Option<(Section, Bytes)>)
    ensures r.Some? ==> |r.value.1| < |b|
  {
    match ByteOf(b)
    case None => None
    case Some((id, rest)) =>
      UnsignedShrinks(32, rest);
      match SpanOf(rest)
      case None => None
      case Some((body, end)) => Some((Section(id, body), end))
  }

  function SectionsOf(b: Bytes): Option<seq<Section>>
    decreases |b|
  {
    if b == [] then Some([])
    else
      match SectionOf(b)
      case None => None
      case Some((s, rest)) =>
        match SectionsOf(rest)
        case None => None
        case Some(more) => Some([s] + more)
  }

  /** What follows the header. */
  function BodyOf(bytes: Bytes): Option<Bytes>
  {
    if |bytes| >= 8 && bytes[..8] == Header then Some(bytes[8..]) else None
  }

  /** The body of the first section with an id. */
  function FirstOf(sections: seq<Section>, id: byte): Option<Bytes>
  {
    if sections == [] then None
    else if sections[0].id == id then Some(sections[0].body)
    else FirstOf(sections[1..], id)
  }

  predicate AtMostOne(sections: seq<Section>, id: byte)
  {
    forall i, j :: 0 <= i < j < |sections| && sections[i].id == id ==> sections[j].id != id
  }

  /** All a module imports: the lists of its import sections, one after the other. */
  function AllImports(sections: seq<Section>): Option<seq<Import>>
  {
    if sections == [] then Some([])
    else
      match AllImports(sections[1..])
      case None => None
      case Some(more) =>
        if sections[0].id != ImportId then Some(more)
        else
          match ImportList(sections[0].body)
          case None => None
          case Some(imports) => Some(imports + more)
  }

  /** The types that type sections give before the first import section. */
  function TypesBefore(sections: seq<Section>): Option<seq<FunctionType>>
  {
    if sections == [] || sections[0].id == ImportId then Some([])
    else
      match (if sections[0].id == TypeId then TypeList(sections[0].body) else Some([]))
      case None => None
      case Some(types) =>
        match TypesBefore(sections[1..])
        case None => None
        case Some(more) => Some(types + more)
  }

  // ---------------------------------------------------------------------------
  // What the walkers say of one

  datatype Memories = Memories(imports: seq<MemoryImport>, definitions: seq<MemoryType>)

  function SharedLimitsOf(b: Bytes): Option<(MemoryType, Bytes)>
  {
    LimitsOf(true, b)
  }

  function DefinitionList(section: Bytes): Option<seq<MemoryType>>
  {
    Closed(Vector(SharedLimitsOf, section))
  }

  /** Every section is read; the two kinds of interest come at most once. */
  function MemoriesOf(sections: seq<Section>, text: Bytes -> bool): Option<Memories>
  {
    var imports, definitions := FirstOf(sections, ImportId), FirstOf(sections, MemoryId);
    var found := if imports.None? then Some([]) else MemoryImports(imports.value, text);
    var defined := if definitions.None? then Some([]) else DefinitionList(definitions.value);
    if AtMostOne(sections, ImportId) && AtMostOne(sections, MemoryId) && found.Some? && defined.Some?
    then Some(Memories(found.value, defined.value))
    else None
  }

  function MemoryWalk(bytes: Bytes, text: Bytes -> bool): Option<Memories>
  {
    match BodyOf(bytes)
    case None => None
    case Some(b) =>
      match SectionsOf(b)
      case None => None
      case Some(sections) => MemoriesOf(sections, text)
  }

  /** Sections up to the first import section, with the types read before. */
  function FunctionsFrom(types: seq<FunctionType>, b: Bytes, text: Bytes -> bool): Option<seq<FunctionImport>>
    decreases |b|
  {
    if b == [] then Some([])
    else
      match SectionOf(b)
      case None => None
      case Some((s, rest)) =>
        if s.id == ImportId then FunctionImports(s.body, types, text)
        else if s.id != TypeId then FunctionsFrom(types, rest, text)
        else
          match TypeList(s.body)
          case None => None
          case Some(more) => FunctionsFrom(types + more, rest, text)
  }

  function FunctionWalk(bytes: Bytes, text: Bytes -> bool): Option<seq<FunctionImport>>
  {
    match BodyOf(bytes)
    case None => None
    case Some(b) => FunctionsFrom([], b, text)
  }

  // ---------------------------------------------------------------------------
  // The two agree

  /** On a module whose sections can be read, the function walker gives its first import section's functions. */
  lemma {:induction false} FunctionsOfSections(types: seq<FunctionType>, b: Bytes, text: Bytes -> bool)
    requires SectionsOf(b).Some?
    ensures var sections := SectionsOf(b).value;
            FunctionsFrom(types, b, text)
            == match TypesBefore(sections)
               case None => None
               case Some(more) =>
                 match FirstOf(sections, ImportId)
                 case None => Some([])
                 case Some(body) => FunctionImports(body, types + more, text)
    decreases |b|
  {
    hide SectionOf, TypeList, FunctionImports;
    if b == [] {
      return;
    }
    var (s, rest) := SectionOf(b).value;
    var sections := SectionsOf(b).value;
    assert sections[0] == s && sections[1..] == SectionsOf(rest).value;
    if s.id == ImportId {
      assert types + [] == types;
    } else {
      var here := if s.id == TypeId then TypeList(s.body) else Some([]);
      if here.Some? {
        assert types + [] == types;
        FunctionsOfSections(types + here.value, rest, text);
        var later := TypesBefore(sections[1..]);
        if later.Some? { assert types + here.value + later.value == types + (here.value + later.value); }
      }
    }
  }

  /** With one import section, or none, the module's imports are that section's. */
  lemma {:induction false} ImportsOfFirst(sections: seq<Section>)
    requires AtMostOne(sections, ImportId)
    ensures AllImports(sections) == match FirstOf(sections, ImportId)
                                    case None => Some([])
                                    case Some(body) => ImportList(body)
  {
    hide ImportList;
    if sections != [] {
      var rest := sections[1..];
      assert forall i :: 0 <= i < |rest| ==> rest[i] == sections[i + 1];
      ImportsOfFirst(rest);
      if sections[0].id == ImportId {
        NoneFirst(rest);
        if ImportList(sections[0].body).Some? {
          assert ImportList(sections[0].body).value + [] == ImportList(sections[0].body).value;
        }
      }
    }
  }

  lemma {:induction false} NoneFirst(sections: seq<Section>)
    requires forall i :: 0 <= i < |sections| ==> sections[i].id != ImportId
    ensures FirstOf(sections, ImportId).None?
  {
    if sections != [] { NoneFirst(sections[1..]); }
  }

  /**
   When both walkers accept a module, what they return are the memory and the
   function entries of one list, all that the module imports, the latter with
   the types of the sections before.
   */
  lemma WalkersAgree(bytes: Bytes, text: Bytes -> bool)
    requires MemoryWalk(bytes, text).Some? && FunctionWalk(bytes, text).Some?
    ensures var sections := SectionsOf(BodyOf(bytes).value);
            && sections.Some? && AllImports(sections.value).Some? && TypesBefore(sections.value).Some?
            && var imports := AllImports(sections.value).value;
            && MemoryWalk(bytes, text).value.imports == MemoriesIn(imports)
            && FunctionWalk(bytes, text).value == FunctionsIn(imports, TypesBefore(sections.value).value)
  {
    hide SectionsOf, ImportList, MemoriesIn, FunctionsIn, FunctionsFrom, TypesBefore, AllImports, FirstOf, AtMostOne,
      DefinitionList;
    NothingIn([]);
    var b := BodyOf(bytes).value;
    var sections := SectionsOf(b).value;
    ImportsOfFirst(sections);
    FunctionsOfSections([], b, text);
    if TypesBefore(sections).Some? {
      var types := TypesBefore(sections).value;
      assert [] + types == types;
      NothingIn(types);
    }
  }

  lemma NothingIn(types: seq<FunctionType>)
    ensures MemoriesIn([]) == [] && FunctionsIn([], types) == []
  {
  }

  // ---------------------------------------------------------------------------
  // The programs

  /** read_header. */
  method ReadHeader(bytes: Bytes) returns (c: Option<Cursor>)
    ensures c.Some? <==> BodyOf(bytes).Some?
    ensures c.Some? ==> fresh(c.value) && c.value.Valid() && c.value.Rest() == BodyOf(bytes).value
  {
    var cursor := new Cursor(bytes, 0, |bytes|);
    for i := 0 to 8
      invariant cursor.Valid() && fresh(cursor) && cursor.offset == i && cursor.Rest() == bytes[i..]
      invariant forall j :: 0 <= j < i ==> bytes[j] == Header[j]
    {
      var x := cursor.Byte();
      if x != Some(Header[i]) {
        if |bytes| >= 8 { assert bytes[..8][i] != Header[i]; }
        return None;
      }
      RestAt(cursor, bytes, i);
    }
    assert bytes[..8] == Header;
    return Some(cursor);
  }

  /** One byte further on. */
  lemma RestAt(c: Cursor, bytes: Bytes, i: nat)
    requires c.Valid() && i < |bytes| && c.Rest() == bytes[i..][1..] && c.end == |bytes| && c.bytes == bytes
    ensures c.offset == i + 1 && c.Rest() == bytes[i + 1..]
  {
  }

  /** The id and the span at the head of either loop's body. */
  method ReadSection(c: Cursor) returns (r: Option<Section>)
    requires c.Valid()
    modifies c`offset
    ensures c.Valid() && c.offset >= old(c.offset)
    ensures match SectionOf(old(c.Rest()))
            case None => r == None
            case Some((s, rest)) => r == Some(s) && c.Rest() == rest && c.offset > old(c.offset)
  {
    hide SpanOf;
    var id := c.Byte();
    if id.None? {
      return None;
    }
    var body := c.Span();
    return if body.None? then None else Some(Section(id.value, body.value));
  }

  /** read_definitions. */
  method ReadDefinitions(section: Bytes) returns (r: Option<seq<MemoryType>>)
    ensures r == DefinitionList(section)
  {
    hide LimitsOf, UnsignedOf, Many, After, Closed;
    var c := new Cursor(section, 0, |section|);
    assert section[0..|section|] == section;
    ClosedIs<MemoryType>(None, [], []);
    var count := c.Unsigned(32);
    if count.None? {
      return None;
    }
    ghost var total := Many(SharedLimitsOf, count.value, c.Rest());
    var found: seq<MemoryType> := [];
    AfterNothing(total);
    for i := 0 to count.value
      invariant c.Valid() && total == After(found, Many(SharedLimitsOf, count.value - i, c.Rest()))
    {
      ManyNext(SharedLimitsOf, count.value - i, found, c.Rest());
      var one := c.Limits(true);
      if one.None? {
        return None;
      }
      found := found + [one.value];
    }
    ManyNext(SharedLimitsOf, 0, found, c.Rest());
    ClosedIs(total, found, c.Rest());
    return if c.offset == c.end then Some(found) else None;
  }

  function AfterSections(read: seq<Section>, r: Option<seq<Section>>): Option<seq<Section>>
  {
    if r.None? then None else Some(read + r.value)
  }

  lemma SectionsNext(read: seq<Section>, b: Bytes)
    ensures b == [] ==> AfterSections(read, SectionsOf(b)) == Some(read)
    ensures b != [] ==>
              AfterSections(read, SectionsOf(b))
              == match SectionOf(b)
                 case None => None
                 case Some((s, rest)) => AfterSections(read + [s], SectionsOf(rest))
  {
    hide SectionOf;
    if b == [] {
      assert read + [] == read;
    } else if SectionOf(b).Some? {
      var (s, rest) := SectionOf(b).value;
      var more := SectionsOf(rest);
      if more.Some? { assert read + ([s] + more.value) == read + [s] + more.value; }
    }
  }

  lemma {:induction false} FirstOfMore(read: seq<Section>, more: seq<Section>, id: byte)
    ensures FirstOf(read + more, id) == if FirstOf(read, id).Some? then FirstOf(read, id) else FirstOf(more, id)
    decreases |read|
  {
    if read == [] {
      assert read + more == more;
    } else {
      assert (read + more)[1..] == read[1..] + more;
      FirstOfMore(read[1..], more, id);
    }
  }

  lemma {:induction false} FirstOfIs(sections: seq<Section>, id: byte)
    ensures FirstOf(sections, id).None? <==> forall i :: 0 <= i < |sections| ==> sections[i].id != id
  {
    if sections != [] {
      FirstOfIs(sections[1..], id);
      assert forall i :: 0 < i < |sections| ==> sections[i] == sections[1..][i - 1];
    }
  }

  lemma OneMore(read: seq<Section>, s: Section, id: byte)
    requires AtMostOne(read, id)
    ensures AtMostOne(read + [s], id) <==> s.id != id || FirstOf(read, id).None?
    ensures FirstOf(read + [s], id) == if FirstOf(read, id).None? && s.id == id then Some(s.body) else FirstOf(read, id)
  {
    FirstOfIs(read, id);
    FirstOfMore(read, [s], id);
    var all := read + [s];
    if s.id == id && FirstOf(read, id).Some? {
      var i :| 0 <= i < |read| && read[i].id == id;
      assert all[i].id == id && all[|read|].id == id;
    }
  }

  /** Sections that are refused stay refused whatever follows them. */
  lemma RefusedStays(read: seq<Section>, more: seq<Section>, text: Bytes -> bool)
    requires MemoriesOf(read, text).None?
    ensures MemoriesOf(read + more, text).None?
  {
    FirstOfMore(read, more, ImportId);
    FirstOfMore(read, more, MemoryId);
    if !AtMostOne(read, ImportId) { TwoStay(read, more, ImportId); }
    if !AtMostOne(read, MemoryId) { TwoStay(read, more, MemoryId); }
    hide AtMostOne, FirstOf, MemoryImports, DefinitionList;
  }

  lemma TwoStay(read: seq<Section>, more: seq<Section>, id: byte)
    requires !AtMostOne(read, id)
    ensures !AtMostOne(read + more, id)
  {
    var i, j :| 0 <= i < j < |read| && read[i].id == id && read[j].id == id;
    assert (read + more)[i].id == id && (read + more)[j].id == id;
  }

  /** read_wasm_memories. */
  method ReadMemories(bytes: Bytes, text: Bytes -> bool) returns (r: Option<Memories>)
    ensures r == MemoryWalk(bytes, text)
  {
    hide SectionOf, SectionsOf, MemoriesOf, AfterSections, MemoryImports, DefinitionList;
    var c := ReadHeader(bytes);
    if c.None? {
      return None;
    }
    var cursor := c.value;
    var found, defined, sawImports, sawDefinitions := [], [], false, false;
    ghost var total := SectionsOf(cursor.Rest());
    ghost var read: seq<Section> := [];
    StartsEmpty(total, text);
    while cursor.offset != cursor.end
      invariant cursor.Valid() && fresh(cursor)
      invariant total == AfterSections(read, SectionsOf(cursor.Rest()))
      invariant MemoriesOf(read, text) == Some(Memories(found, defined))
      invariant sawImports == FirstOf(read, ImportId).Some? && sawDefinitions == FirstOf(read, MemoryId).Some?
      decreases cursor.end - cursor.offset
    {
      SectionsNext(read, cursor.Rest());
      var section := ReadSection(cursor);
      if section.None? {
        return None;
      }
      var s := section.value;
      MemoriesStep(read, s, text);
      RefusedInTheEnd(read + [s], SectionsOf(cursor.Rest()), text);
      if s.id == ImportId {
        if sawImports {
          return None;
        }
        sawImports := true;
        var imports := ReadMemoryImports(s.body, text);
        if imports.None? {
          return None;
        }
        found := imports.value;
      } else if s.id == MemoryId {
        if sawDefinitions {
          return None;
        }
        sawDefinitions := true;
        var definitions := ReadDefinitions(s.body);
        if definitions.None? {
          return None;
        }
        defined := definitions.value;
      }
      read := read + [s];
    }
    SectionsNext(read, cursor.Rest());
    return Some(Memories(found, defined));
  }

  lemma StartsEmpty(r: Option<seq<Section>>, text: Bytes -> bool)
    ensures AfterSections([], r) == r && MemoriesOf([], text) == Some(Memories([], []))
  {
    if r.Some? { assert [] + r.value == r.value; }
  }

  /** What one more section does. */
  lemma MemoriesStep(read: seq<Section>, s: Section, text: Bytes -> bool)
    requires MemoriesOf(read, text).Some?
    ensures var m := MemoriesOf(read, text).value;
            MemoriesOf(read + [s], text)
            == if s.id == ImportId then
              (if FirstOf(read, ImportId).Some? || MemoryImports(s.body, text).None? then None
               else Some(m.(imports := MemoryImports(s.body, text).value)))
            else if s.id == MemoryId then
              (if FirstOf(read, MemoryId).Some? || DefinitionList(s.body).None? then None
               else Some(m.(definitions := DefinitionList(s.body).value)))
            else Some(m)
    ensures FirstOf(read + [s], ImportId).Some? <==> FirstOf(read, ImportId).Some? || s.id == ImportId
    ensures FirstOf(read + [s], MemoryId).Some? <==> FirstOf(read, MemoryId).Some? || s.id == MemoryId
  {
    OneMore(read, s, ImportId);
    OneMore(read, s, MemoryId);
    hide AtMostOne, FirstOf, MemoryImports, DefinitionList;
  }

  lemma RefusedInTheEnd(read: seq<Section>, r: Option<seq<Section>>, text: Bytes -> bool)
    ensures MemoriesOf(read, text).None? && AfterSections(read, r).Some? ==>
              MemoriesOf(AfterSections(read, r).value, text).None?
  {
    hide MemoriesOf;
    if MemoriesOf(read, text).None? && r.Some? { RefusedStays(read, r.value, text); }
  }

  /** read_wasm_function_imports. */
  method ReadFunctions(bytes: Bytes, text: Bytes -> bool) returns (r: Option<seq<FunctionImport>>)
    ensures r == FunctionWalk(bytes, text)
  {
    hide SectionOf, TypeList, FunctionImports;
    var c := ReadHeader(bytes);
    if c.None? {
      return None;
    }
    var cursor := c.value;
    var types: seq<FunctionType> := [];
    while cursor.offset != cursor.end
      invariant cursor.Valid() && fresh(cursor)
      invariant FunctionWalk(bytes, text) == FunctionsFrom(types, cursor.Rest(), text)
      decreases cursor.end - cursor.offset
    {
      var section := ReadSection(cursor);
      if section.None? {
        return None;
      }
      var s := section.value;
      if s.id == TypeId {
        var more := ReadTypes(s.body);
        if more.None? {
          return None;
        }
        types := types + more.value;
      } else if s.id == ImportId {
        r := ReadFunctionImports(s.body, types, text);
        return;
      }
    }
    return Some([]);
  }
}
