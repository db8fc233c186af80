/**
 read_types of packages/kernel/src/wasm_binary.ts: the type section's
 signatures, with GC aggregates, sub types and recursion groups passed over.
 */
module WasmTypes {
  import opened Wrappers
  import opened WasmBinary

  /** A value type's name: a number or vector type's code, or "ref". */
  datatype ValueType = Plain(code: byte) | Reference

  datatype Signature = Signature(params: seq<ValueType>, results: seq<ValueType>)

  /** A type: a function's signature, or None for an aggregate. */
  type FunctionType = Option<Signature>

  // ---------------------------------------------------------------------------
  // What the bytes mean

  function ValueTypeOf(b: Bytes): Option<(ValueType, Bytes)>
  {
    match TypeOf(true, b)
    case None => None
    case Some(rest) => Some((if 0x7b <= b[0] <= 0x7f then Plain(b[0]) else Reference, rest))
  }

  /** A field: a packed or value type, and its mutability. */
  function FieldOf(b: Bytes): Option<(byte, Bytes)>
  {
    var mutability := if b != [] && (b[0] == 0x78 || b[0] == 0x77) then Some(b[1..]) else TypeOf(true, b);
    match mutability
    case None => None
    case Some(rest) =>
      match ByteOf(rest)
      case None => None
      case Some((m, end)) => if m > 1 then None else Some((m, end))
  }

  function CompositeOf(b: Bytes): Option<(FunctionType, Bytes)>
  {
    match ByteOf(b)
    case None => None
    case Some((form, rest)) =>
      if form == 0x60 then
        (match Vector(ValueTypeOf, rest)
         case None => None
         case Some((params, afterParams)) =>
           match Vector(ValueTypeOf, afterParams)
           case None => None
           case Some((results, end)) => Some((Some(Signature(params, results)), end)))
      else if form == 0x5f then
        (match Vector(FieldOf, rest)
         case None => None
         case Some((_, end)) => Some((None, end)))
      else if form == 0x5e then
        (match FieldOf(rest)
         case None => None
         case Some((_, end)) => Some((None, end)))
      else None
  }

  function IndexOf(b: Bytes): Option<(nat, Bytes)>
  {
    UnsignedOf(32, b)
  }

  /** A composite type, with its supertypes first if it names any. */
  function SubTypeOf(b: Bytes): Option<(FunctionType, Bytes)>
  {
    if b != [] && (b[0] == 0x50 || b[0] == 0x4f) then
      match Vector(IndexOf, b[1..])
      case None => None
      case Some((_, rest)) => CompositeOf(rest)
    else CompositeOf(b)
  }

  /** A recursion group, or a type that is a group of its own. */
  function GroupOf(b: Bytes): Option<(seq<FunctionType>, Bytes)>
  {
    if b != [] && b[0] == 0x4e then Vector(SubTypeOf, b[1..])
    else
      match SubTypeOf(b)
      case None => None
      case Some((t, rest)) => Some(([t], rest))
  }

  function Joined(groups: seq<seq<FunctionType>>): seq<FunctionType>
  {
    if groups == [] then [] else Joined(groups[..|groups| - 1]) + groups[|groups| - 1]
  }

  /** The types of a section, if it is exactly that. */
  function TypeList(section: Bytes): Option<seq<FunctionType>>
  {
    match Closed(Vector(GroupOf, section))
    case None => None
    case Some(groups) => Some(Joined(groups))
  }

  // ---------------------------------------------------------------------------
  // The program

  /** read_value_type. */
  method ReadValueType(c: Cursor) returns (r: Option<ValueType>)
    requires c.Valid()
    modifies c`offset
    ensures c.Valid()
    ensures match ValueTypeOf(old(c.Rest()))
            case None => r == None
            case Some((t, rest)) => r == Some(t) && c.Rest() == rest
  {
    hide SignedOf;
    SignedEmpty(33);
    var kind := c.Byte();
    if kind.None? {
      return None;
    }
    if 0x7b <= kind.value <= 0x7f {
      return Some(Plain(kind.value));
    }
    if kind.value == 0x63 || kind.value == 0x64 {
      ghost var rest := c.Rest();
      var first := c.Byte();
      if first.None? {
        return None;
      }
      assert rest == [first.value] + c.Rest();
      var ok := c.Signed33(first.value);
      return if ok then Some(Reference) else None;
    }
    return if 0x69 <= kind.value <= 0x74 then Some(Reference) else None;
  }

  /** Array.from over read_value_type. */
  method ReadValueTypes(c: Cursor) returns (r: Option<seq<ValueType>>)
    requires c.Valid()
    modifies c`offset
    ensures c.Valid()
    ensures match Vector(ValueTypeOf, old(c.Rest()))
            case None => r == None
            case Some((types, rest)) => r == Some(types) && c.Rest() == rest
  {
    hide ValueTypeOf, UnsignedOf, Many, After;
    var count := c.Unsigned(32);
    if count.None? {
      return None;
    }
    ghost var total := Many(ValueTypeOf, count.value, c.Rest());
    var types: seq<ValueType> := [];
    AfterNothing(total);
    for i := 0 to count.value
      invariant c.Valid() && total == After(types, Many(ValueTypeOf, count.value - i, c.Rest()))
    {
      ManyNext(ValueTypeOf, count.value - i, types, c.Rest());
      var one := ReadValueType(c);
      if one.None? {
        return None;
      }
      types := types + [one.value];
    }
    ManyNext(ValueTypeOf, 0, types, c.Rest());
    return Some(types);
  }

  /** read_storage_type. */
  method ReadField(c: Cursor) returns (r: Option<byte>)
    requires c.Valid()
    modifies c`offset
    ensures c.Valid()
    ensures match FieldOf(old(c.Rest()))
            case None => r == None
            case Some((m, rest)) => r == Some(m) && c.Rest() == rest
  {
    hide TypeOf;
    if c.offset < c.end && (c.bytes[c.offset] == 0x78 || c.bytes[c.offset] == 0x77) {
      var packed := c.Byte();
    } else {
      var ok := c.SkipType(true);
      if !ok {
        return None;
      }
    }
    var mutability := c.Byte();
    return if mutability.None? || mutability.value > 1 then None else mutability;
  }

  method ReadFields(c: Cursor) returns (ok: bool)
    requires c.Valid()
    modifies c`offset
    ensures c.Valid()
    ensures match Vector(FieldOf, old(c.Rest()))
            case None => !ok
            case Some((_, rest)) => ok && c.Rest() == rest
  {
    hide FieldOf, UnsignedOf, Many, After;
    var count := c.Unsigned(32);
    if count.None? {
      return false;
    }
    ghost var total := Many(FieldOf, count.value, c.Rest());
    ghost var fields: seq<byte> := [];
    AfterNothing(total);
    for i := 0 to count.value
      invariant c.Valid() && total == After(fields, Many(FieldOf, count.value - i, c.Rest()))
    {
      ManyNext(FieldOf, count.value - i, fields, c.Rest());
      var one := ReadField(c);
      if one.None? {
        return false;
      }
      fields := fields + [one.value];
    }
    ManyNext(FieldOf, 0, fields, c.Rest());
    return true;
  }

  /** read_composite_type. */
  method ReadComposite(c: Cursor) returns (r: Option<FunctionType>)
    requires c.Valid()
    modifies c`offset
    ensures c.Valid()
    ensures match CompositeOf(old(c.Rest()))
            case None => r == None
            case Some((t, rest)) => r == Some(t) && c.Rest() == rest
  {
    hide Vector, FieldOf;
    var form := c.Byte();
    if form.None? {
      return None;
    }
    if form.value == 0x60 {
      var params := ReadValueTypes(c);
      if params.None? {
        return None;
      }
      var results := ReadValueTypes(c);
      return if results.None? then None else Some(Some(Signature(params.value, results.value)));
    } else if form.value == 0x5f {
      var ok := ReadFields(c);
      return if ok then Some(None) else None;
    } else if form.value == 0x5e {
      var field := ReadField(c);
      return if field.None? then None else Some(None);
    }
    return None;
  }

  method SkipSupertypes(c: Cursor) returns (ok: bool)
    requires c.Valid()
    modifies c`offset
    ensures c.Valid()
    ensures match Vector(IndexOf, old(c.Rest()))
            case None => !ok
            case Some((_, rest)) => ok && c.Rest() == rest
  {
    hide UnsignedOf, Many, After;
    var count := c.Unsigned(32);
    if count.None? {
      return false;
    }
    ghost var total := Many(IndexOf, count.value, c.Rest());
    ghost var indices: seq<nat> := [];
    AfterNothing(total);
    for i := 0 to count.value
      invariant c.Valid() && total == After(indices, Many(IndexOf, count.value - i, c.Rest()))
    {
      ManyNext(IndexOf, count.value - i, indices, c.Rest());
      var one := c.Unsigned(32);
      if one.None? {
        return false;
      }
      indices := indices + [one.value];
    }
    ManyNext(IndexOf, 0, indices, c.Rest());
    return true;
  }

  /** read_sub_type. */
  method ReadSubType(c: Cursor) returns (r: Option<FunctionType>)
    requires c.Valid()
    modifies c`offset
    ensures c.Valid()
    ensures match SubTypeOf(old(c.Rest()))
            case None => r == None
            case Some((t, rest)) => r == Some(t) && c.Rest() == rest
  {
    hide Vector, CompositeOf;
    if c.offset < c.end && (c.bytes[c.offset] == 0x50 || c.bytes[c.offset] == 0x4f) {
      var form := c.Byte();
      var ok := SkipSupertypes(c);
      if !ok {
        return None;
      }
    }
    r := ReadComposite(c);
  }

  /** The members of a recursion group. */
  method ReadMembers(c: Cursor) returns (r: Option<seq<FunctionType>>)
    requires c.Valid()
    modifies c`offset
    ensures c.Valid()
    ensures match Vector(SubTypeOf, old(c.Rest()))
            case None => r == None
            case Some((types, rest)) => r == Some(types) && c.Rest() == rest
  {
    hide SubTypeOf, UnsignedOf, Many, After;
    var count := c.Unsigned(32);
    if count.None? {
      return None;
    }
    ghost var total := Many(SubTypeOf, count.value, c.Rest());
    var types: seq<FunctionType> := [];
    AfterNothing(total);
    for i := 0 to count.value
      invariant c.Valid() && total == After(types, Many(SubTypeOf, count.value - i, c.Rest()))
    {
      ManyNext(SubTypeOf, count.value - i, types, c.Rest());
      var one := ReadSubType(c);
      if one.None? {
        return None;
      }
      types := types + [one.value];
    }
    ManyNext(SubTypeOf, 0, types, c.Rest());
    return Some(types);
  }

  /** One turn of read_types' loop. */
  method ReadGroup(c: Cursor) returns (r: Option<seq<FunctionType>>)
    requires c.Valid()
    modifies c`offset
    ensures c.Valid()
    ensures match GroupOf(old(c.Rest()))
            case None => r == None
            case Some((types, rest)) => r == Some(types) && c.Rest() == rest
  {
    hide Vector, SubTypeOf;
    if c.offset < c.end && c.bytes[c.offset] == 0x4e {
      var form := c.Byte();
      r := ReadMembers(c);
    } else {
      var one := ReadSubType(c);
      r := if one.None? then None else Some([one.value]);
    }
  }

  lemma JoinedGrows(groups: seq<seq<FunctionType>>, group: seq<FunctionType>)
    ensures Joined(groups + [group]) == Joined(groups) + group
  {
    assert (groups + [group])[..|groups|] == groups;
  }

  /** read_types: the types of a section that is exactly one list of groups. */
  method ReadTypes(section: Bytes) returns (r: Option<seq<FunctionType>>)
    ensures r == TypeList(section)
  {
    hide GroupOf, UnsignedOf, Many, After, Joined, Closed;
    var c := new Cursor(section, 0, |section|);
    assert section[0..|section|] == section;
    ClosedIs<seq<FunctionType>>(None, [], []);
    var count := c.Unsigned(32);
    if count.None? {
      return None;
    }
    ghost var total := Many(GroupOf, count.value, c.Rest());
    ghost var groups: seq<seq<FunctionType>> := [];
    var types: seq<FunctionType> := [];
    AfterNothing(total);
    NothingJoined();
    for i := 0 to count.value
      invariant c.Valid() && total == After(groups, Many(GroupOf, count.value - i, c.Rest()))
      invariant types == Joined(groups)
    {
      ManyNext(GroupOf, count.value - i, groups, c.Rest());
      var group := ReadGroup(c);
      if group.None? {
        return None;
      }
      JoinedGrows(groups, group.value);
      groups := groups + [group.value];
      types := types + group.value;
    }
    ManyNext(GroupOf, 0, groups, c.Rest());
    ClosedIs(total, groups, c.Rest());
    return if c.offset == c.end then Some(types) else None;
  }

  lemma NothingJoined()
    ensures Joined([]) == []
  {
  }
}
