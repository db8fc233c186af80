/**
 The two walkers of packages/kernel/src/wasm_binary.ts over one import section:
 one keeps the memories, the other the functions.
 */
module WasmImports {
  import opened Wrappers
  import opened WasmBinary
  import opened WasmTypes

  datatype MemoryImport = MemoryImport(module_: Bytes, name: Bytes, memory: MemoryType)

  datatype FunctionImport = FunctionImport(module_: Bytes, name: Bytes, signature: FunctionType)

  /** `types[index] ?? null`. */
  function TypeAt(types: seq<FunctionType>, index: nat): FunctionType
  {
    if index < |types| then types[index] else None
  }

  function MemoryOf(one: Import): seq<MemoryImport>
  {
    if one.desc.Memory? then [MemoryImport(one.module_, one.name, one.desc.memory)] else []
  }

  function FunctionOf(one: Import, types: seq<FunctionType>): seq<FunctionImport>
  {
    if one.desc.Function? then [FunctionImport(one.module_, one.name, TypeAt(types, one.desc.index))] else []
  }

  /** A list's memory imports, in order. */
  function MemoriesIn(imports: seq<Import>): seq<MemoryImport>
  {
    if imports == [] then [] else MemoriesIn(imports[..|imports| - 1]) + MemoryOf(imports[|imports| - 1])
  }

  /** A list's function imports, in order. */
  function FunctionsIn(imports: seq<Import>, types: seq<FunctionType>): seq<FunctionImport>
  {
    if imports == [] then []
    else FunctionsIn(imports[..|imports| - 1], types) + FunctionOf(imports[|imports| - 1], types)
  }

  predicate Named(text: Bytes -> bool, one: Import)
  {
    text(one.module_) && text(one.name)
  }

  predicate MemoriesNamed(text: Bytes -> bool, imports: seq<Import>)
  {
    forall i :: 0 <= i < |imports| && imports[i].desc.Memory? ==> Named(text, imports[i])
  }

  predicate AllNamed(text: Bytes -> bool, imports: seq<Import>)
  {
    forall i :: 0 <= i < |imports| ==> Named(text, imports[i])
  }

  /** What the memory walker makes of a section. */
  function MemoryImports(section: Bytes, text: Bytes -> bool): Option<seq<MemoryImport>>
  {
    match ImportList(section)
    case None => None
    case Some(imports) => if MemoriesNamed(text, imports) then Some(MemoriesIn(imports)) else None
  }

  /** And the function walker. */
  function FunctionImports(section: Bytes, types: seq<FunctionType>, text: Bytes -> bool): Option<seq<FunctionImport>>
  {
    match ImportList(section)
    case None => None
    case Some(imports) => if AllNamed(text, imports) then Some(FunctionsIn(imports, types)) else None
  }

  lemma ListGrows(imports: seq<Import>, one: Import, types: seq<FunctionType>)
    ensures MemoriesIn(imports + [one]) == MemoriesIn(imports) + MemoryOf(one)
    ensures FunctionsIn(imports + [one], types) == FunctionsIn(imports, types) + FunctionOf(one, types)
  {
    assert (imports + [one])[..|imports|] == imports;
  }

  /** read_imports: the memory imports of a section that is exactly one list, if their names are text. */
  method ReadMemoryImports(section: Bytes, text: Bytes -> bool) returns (r: Option<seq<MemoryImport>>)
    ensures r == MemoryImports(section, text)
  {
    hide ImportOf, Many, After, UnsignedOf, MemoriesIn, FunctionsIn, AllNamed, MemoriesNamed, Closed;
    var cursor := new Cursor(section, 0, |section|);
    assert section[0..|section|] == section;
    ClosedIs<Import>(None, [], []);
    var count := cursor.Unsigned(32);
    if count.None? {
      return None;
    }
    var found: seq<MemoryImport> := [];
    ghost var imports: seq<Import> := [];
    ghost var total := Many(ImportOf, count.value, cursor.Rest());
    AfterNothing(total);
    NoneListed([], text);
    for i := 0 to count.value
      invariant cursor.Valid()
      invariant total == After(imports, Many(ImportOf, count.value - i, cursor.Rest()))
      invariant found == MemoriesIn(imports) && MemoriesNamed(text, imports)
    {
      ManyNext(ImportOf, count.value - i, imports, cursor.Rest());
      ghost var rest := cursor.Rest();
      var one := cursor.ReadImport();
      if one.None? {
        return None;
      }
      ListGrows(imports, one.value, []);
      NamedGrows(text, imports, one.value);
      imports := imports + [one.value];
      if one.value.desc.Memory? {
        if !text(one.value.module_) || !text(one.value.name) {
          ListedAnyway(text, imports, Many(ImportOf, count.value - i - 1, cursor.Rest()));
          return None;
        }
        found := found + [MemoryImport(one.value.module_, one.value.name, one.value.desc.memory)];
      } else {
        assert found + [] == found;
      }
    }
    ManyNext(ImportOf, 0, imports, cursor.Rest());
    ClosedIs(total, imports, cursor.Rest());
    return if cursor.offset == cursor.end then Some(found) else None;
  }

  /** The import loop of read_wasm_function_imports: the function imports, if every name is text. */
  method ReadFunctionImports(section: Bytes, types: seq<FunctionType>, text: Bytes -> bool)
    returns (r: Option<seq<FunctionImport>>)
    ensures r == FunctionImports(section, types, text)
  {
    hide ImportOf, Many, After, UnsignedOf, MemoriesIn, FunctionsIn, AllNamed, MemoriesNamed, Closed;
    var cursor := new Cursor(section, 0, |section|);
    assert section[0..|section|] == section;
    ClosedIs<Import>(None, [], []);
    var count := cursor.Unsigned(32);
    if count.None? {
      return None;
    }
    var found: seq<FunctionImport> := [];
    ghost var imports: seq<Import> := [];
    ghost var total := Many(ImportOf, count.value, cursor.Rest());
    AfterNothing(total);
    NoneListed(types, text);
    for i := 0 to count.value
      invariant cursor.Valid()
      invariant total == After(imports, Many(ImportOf, count.value - i, cursor.Rest()))
      invariant found == FunctionsIn(imports, types) && AllNamed(text, imports)
    {
      ManyNext(ImportOf, count.value - i, imports, cursor.Rest());
      var one := cursor.ReadImport();
      if one.None? {
        return None;
      }
      ListGrows(imports, one.value, types);
      NamedGrows(text, imports, one.value);
      imports := imports + [one.value];
      if !text(one.value.module_) || !text(one.value.name) {
        ListedAnyway(text, imports, Many(ImportOf, count.value - i - 1, cursor.Rest()));
        return None;
      }
      if one.value.desc.Function? {
        found := found + [FunctionImport(one.value.module_, one.value.name, TypeAt(types, one.value.desc.index))];
      } else {
        assert found + [] == found;
      }
    }
    ManyNext(ImportOf, 0, imports, cursor.Rest());
    ClosedIs(total, imports, cursor.Rest());
    return if cursor.offset == cursor.end then Some(found) else None;
  }

  lemma NoneListed(types: seq<FunctionType>, text: Bytes -> bool)
    ensures MemoriesIn([]) == [] && FunctionsIn([], types) == [] && AllNamed(text, []) && MemoriesNamed(text, [])
  {
  }

  lemma NamedGrows(text: Bytes -> bool, imports: seq<Import>, one: Import)
    ensures AllNamed(text, imports) && Named(text, one) ==> AllNamed(text, imports + [one])
    ensures MemoriesNamed(text, imports) && (one.desc.Memory? ==> Named(text, one)) ==>
              MemoriesNamed(text, imports + [one])
  {
  }

  /** An import that was read is in the list that is read in the end, so a bad name is too. */
  lemma ListedAnyway(text: Bytes -> bool, imports: seq<Import>, r: Option<(seq<Import>, Bytes)>)
    requires imports != [] && !Named(text, imports[|imports| - 1])
    ensures var list := Closed(After(imports, r));
            list.Some? ==> !AllNamed(text, list.value)
                           && (imports[|imports| - 1].desc.Memory? ==> !MemoriesNamed(text, list.value))
  {
    var list := Closed(After(imports, r));
    if list.Some? { assert list.value[|imports| - 1] == imports[|imports| - 1]; }
  }
}
