/**
 The cursor of packages/kernel/src/wasm_binary.ts: LEB128 numbers, spans, limits
 and the imports that both of its walkers read.
 */
module WasmBinary {
  import opened Wrappers

  // ---------------------------------------------------------------------------
  // What the bytes mean: section 5.2.2 and chapter 5 of the WebAssembly Core Specification

  function Power(n: nat): (p: nat)
    ensures p > 0
  {
    if n == 0 then 1 else 2 * Power(n - 1)
  }

  /** An unsigned LEB128 number of at most n bits, by its grammar. */
  function UnsignedOf(n: nat, b: Bytes): Option<(nat, Bytes)>
    requires n > 0
    decreases n
  {
    if b == [] then None
    else if b[0] < 128 then (if b[0] < Power(n) then Some((b[0], b[1..])) else None)
    else if n <= 7 then None
    else
      match UnsignedOf(n - 7, b[1..])
      case None => None
      case Some((m, rest)) => Some((128 * m + (b[0] - 128), rest))
  }

  /** A signed one. */
  function SignedOf(n: nat, b: Bytes): Option<(int, Bytes)>
    requires n > 0
    decreases n
  {
    if b == [] then None
    else if b[0] < 64 then (if b[0] < Power(n - 1) then Some((b[0], b[1..])) else None)
    else if b[0] < 128 then (if b[0] >= 128 - Power(n - 1) then Some(((b[0] as int) - 128, b[1..])) else None)
    else if n <= 7 then None
    else
      match SignedOf(n - 7, b[1..])
      case None => None
      case Some((m, rest)) => Some((128 * m + ((b[0] as int) - 128), rest))
  }

  function ByteOf(b: Bytes): Option<(byte, Bytes)>
  {
    if b == [] then None else Some((b[0], b[1..]))
  }

  /** A length and that many bytes. */
  function SpanOf(b: Bytes): Option<(Bytes, Bytes)>
  {
    match UnsignedOf(32, b)
    case None => None
    case Some((length, rest)) => if length > |rest| then None else Some((rest[..length], rest[length..]))
  }

  datatype MemoryType = MemoryType(wide: bool, minimum: nat, maximum: Option<nat>, shared: bool)

  datatype Desc = Function(index: nat) | Table | Memory(memory: MemoryType) | Global | Tag

  datatype Import = Import(module_: Bytes, name: Bytes, desc: Desc)

  function LimitOf(wide: bool, b: Bytes): Option<(nat, Bytes)>
  {
    UnsignedOf(if wide then 64 else 32, b)
  }

  /** Limits with some flags allowed: bit 0 a maximum, bit 1 shared, bit 2 64-bit addresses. */
  function LimitsOf(sharedAllowed: bool, b: Bytes): Option<(MemoryType, Bytes)>
  {
    match ByteOf(b)
    case None => None
    case Some((flags, rest)) =>
      if flags >= 8 || (!sharedAllowed && flags / 2 % 2 != 0) then None
      else
        var wide := flags / 4 % 2 != 0;
        match LimitOf(wide, rest)
        case None => None
        case Some((minimum, afterMinimum)) =>
          if flags % 2 == 0 then Some((MemoryType(wide, minimum, None, flags / 2 % 2 != 0), afterMinimum))
          else
            match LimitOf(wide, afterMinimum)
            case None => None
            case Some((maximum, end)) => Some((MemoryType(wide, minimum, Some(maximum), flags / 2 % 2 != 0), end))
  }

  /** A reference type, or a number or vector type where those are allowed. */
  function TypeOf(numbersAllowed: bool, b: Bytes): Option<Bytes>
  {
    match ByteOf(b)
    case None => None
    case Some((kind, rest)) =>
      if numbersAllowed && 0x7b <= kind <= 0x7f then Some(rest)
      else if kind == 0x63 || kind == 0x64 then
        (match SignedOf(33, rest)
         case None => None
         case Some((_, end)) => Some(end))
      else if kind < 0x69 || kind > 0x74 then None
      else Some(rest)
  }

  function DescOf(b: Bytes): Option<(Desc, Bytes)>
  {
    match ByteOf(b)
    case None => None
    case Some((kind, rest)) =>
      if kind == 0 then
        (match UnsignedOf(32, rest)
         case None => None
         case Some((index, end)) => Some((Function(index), end)))
      else if kind == 1 then
        (match TypeOf(false, rest)
         case None => None
         case Some(limits) =>
           match LimitsOf(false, limits)
           case None => None
           case Some((_, end)) => Some((Table, end)))
      else if kind == 2 then
        (match LimitsOf(true, rest)
         case None => None
         case Some((memory, end)) => Some((Memory(memory), end)))
      else if kind == 3 then
        (match TypeOf(true, rest)
         case None => None
         case Some(mutability) =>
           match ByteOf(mutability)
           case None => None
           case Some((m, end)) => if m > 1 then None else Some((Global, end)))
      else if kind == 4 then
        (match ByteOf(rest)
         case None => None
         case Some((attribute, index)) =>
           if attribute != 0 then None
           else
             match UnsignedOf(32, index)
             case None => None
             case Some((_, end)) => Some((Tag, end)))
      else None
  }

  function ImportOf(b: Bytes): Option<(Import, Bytes)>
  {
    match SpanOf(b)
    case None => None
    case Some((module_, afterModule)) =>
      match SpanOf(afterModule)
      case None => None
      case Some((name, afterName)) =>
        match DescOf(afterName)
        case None => None
        case Some((desc, end)) => Some((Import(module_, name, desc), end))
  }

  /** n items, each read by the function given. */
  function Many<T>(one: Bytes -> Option<(T, Bytes)>, n: nat, b: Bytes): Option<(seq<T>, Bytes)>
    decreases n
  {
    if n == 0 then Some(([], b))
    else
      match one(b)
      case None => None
      case Some((x, rest)) =>
        match Many(one, n - 1, rest)
        case None => None
        case Some((more, end)) => Some(([x] + more, end))
  }

  /** A vector: a count and that many items. */
  function Vector<T>(one: Bytes -> Option<(T, Bytes)>, b: Bytes): Option<(seq<T>, Bytes)>
  {
    match UnsignedOf(32, b)
    case None => None
    case Some((count, rest)) => Many(one, count, rest)
  }

  /** The items of a section that is exactly one vector. */
  function Closed<T>(r: Option<(seq<T>, Bytes)>): Option<seq<T>>
  {
    match r
    case None => None
    case Some((items, end)) => if end == [] then Some(items) else None
  }

  /** The import section's list, if the section is exactly that. */
  function ImportList(section: Bytes): Option<seq<Import>>
  {
    Closed(Vector(ImportOf, section))
  }

  /** Some items that have been read, and those still to come. */
  function After<T>(items: seq<T>, r: Option<(seq<T>, Bytes)>): Option<(seq<T>, Bytes)>
  {
    match r
    case None => None
    case Some((more, end)) => Some((items + more, end))
  }

  lemma AfterNothing<T>(r: Option<(seq<T>, Bytes)>)
    ensures After([], r) == r
  {
    if r.Some? { assert [] + r.value.0 == r.value.0; }
  }

  lemma ManyNext<T>(one: Bytes -> Option<(T, Bytes)>, n: nat, items: seq<T>, rest: Bytes)
    ensures n == 0 ==> After(items, Many(one, n, rest)) == Some((items, rest))
    ensures n > 0 ==> After(items, Many(one, n, rest)) == match one(rest)
                                                          case None => None
                                                          case Some((x, more)) =>
                                                            After(items + [x], Many(one, n - 1, more))
  {
    if n == 0 {
      assert items + [] == items;
    } else if one(rest).Some? {
      var (x, more) := one(rest).value;
      var later := Many(one, n - 1, more);
      if later.Some? { assert items + ([x] + later.value.0) == items + [x] + later.value.0; }
    }
  }

  lemma ClosedIs<T>(r: Option<(seq<T>, Bytes)>, items: seq<T>, end: Bytes)
    ensures Closed<T>(None) == None
    ensures r == Some((items, end)) ==> Closed(r) == if end == [] then Some(items) else None
  {
  }

  // ---------------------------------------------------------------------------
  // The program

  class Cursor {
    const bytes: Bytes
    const end: nat
    var offset: nat

    ghost predicate Valid()
      reads this
    {
      offset <= end <= |bytes|
    }

    function Rest(): Bytes
      requires Valid()
      reads this
    {
      bytes[offset..end]
    }

    constructor (bytes: Bytes, offset: nat, end: nat)
      requires offset <= end <= |bytes|
      ensures Valid() && Rest() == bytes[offset..end] && this.bytes == bytes && this.end == end
    {
      this.bytes := bytes;
      this.offset := offset;
      this.end := end;
    }

    method Byte() returns (r: Option<byte>)
      requires Valid()
      modifies this`offset
      ensures Valid() && offset >= old(offset)
      ensures match ByteOf(old(Rest()))
              case None => r == None && offset == old(offset)
              case Some((x, rest)) => r == Some(x) && Rest() == rest && offset > old(offset)
    {
      if offset == end {
        return None;
      }
      offset := offset + 1;
      return Some(bytes[offset - 1]);
    }

    /** u32 and u64: exactly the encodings of an unsigned number of that many bits, and their value. */
    method Unsigned(bits: nat) returns (r: Option<nat>)
      requires Valid() && bits > 0
      modifies this`offset
      ensures Valid() && offset >= old(offset)
      ensures match UnsignedOf(bits, old(Rest()))
              case None => r == None
              case Some((value, rest)) => r == Some(value) && Rest() == rest && offset > old(offset)
    {
      hide UnsignedOf, Scaled, Power;
      var value: nat := 0;
      var scale: nat := 1;
      var remaining := bits;
      ScaledStart(UnsignedOf(bits, Rest()));
      while true
        invariant Valid() && offset >= old(offset) && remaining > 0
        invariant UnsignedOf(bits, old(Rest())) == Scaled(value, scale, UnsignedOf(remaining, Rest()))
        decreases remaining
      {
        UnsignedNext(remaining, Rest());
        ScaledNone(value, scale);
        ghost var rest := Rest();
        var x := Byte();
        if x.None? {
          return None;
        }
        var payload: nat := x.value % 128;
        if remaining < 7 && payload >= Power(remaining) {
          return None;
        }
        ScaledStep(value, scale, x.value, rest[1..],
                   if remaining > 7 then UnsignedOf(remaining - 7, rest[1..]) else None);
        value := value + scale * payload;
        if x.value < 128 {
          return Some(value);
        }
        if remaining <= 7 {
          return None;
        }
        scale := 128 * scale;
        remaining := remaining - 7;
      }
    }

    /** signed33: consumes exactly an encoding of a 33-bit signed number; the first byte has been read. */
    method Signed33(first: byte) returns (ok: bool)
      requires Valid()
      modifies this`offset
      ensures Valid() && offset >= old(offset)
      ensures match SignedOf(33, [first] + old(Rest()))
              case None => !ok
              case Some((_, rest)) => ok && Rest() == rest
    {
      hide Power, SignedOf;
      var current := first;
      var remaining: nat := 33;
      ghost var total := Skipped(SignedOf(33, [first] + Rest()));
      while true
        invariant Valid() && offset >= old(offset) && remaining in {33, 26, 19, 12, 5}
        invariant total == Skipped(SignedOf(remaining, [current] + Rest()))
        decreases remaining
      {
        assert ([current] + Rest())[1..] == Rest();
        SignedNext(remaining, [current] + Rest());
        if current < 128 {
          SignedFits(remaining, current);
          // The unused high bits of a last byte must repeat its sign.
          if remaining < 7 && current / 32 != (if current / 16 % 2 == 1 then 3 else 0) {
            return false;
          }
          return true;
        }
        if remaining == 5 {
          return false;
        }
        SignedEmpty(remaining - 7);
        ghost var rest := Rest();
        var x := Byte();
        if x.None? {
          return false;
        }
        assert rest == [x.value] + Rest();
        current := x.value;
        remaining := remaining - 7;
      }
    }

    /** span: a length and a cursor over that many bytes. */
    method Span() returns (r: Option<Bytes>)
      requires Valid()
      modifies this`offset
      ensures Valid() && offset >= old(offset)
      ensures match SpanOf(old(Rest()))
              case None => r == None
              case Some((span, rest)) => r == Some(span) && Rest() == rest && offset > old(offset)
    {
      hide UnsignedOf;
      var length := Unsigned(32);
      if length.None? || offset + length.value > end {
        return None;
      }
      ghost var rest := Rest();
      var start := offset;
      offset := start + length.value;
      assert bytes[start..offset] == rest[..length.value] && Rest() == rest[length.value..];
      return Some(bytes[start..offset]);
    }

    /** read_memory_type and skip_limits. */
    method Limits(sharedAllowed: bool) returns (r: Option<MemoryType>)
      requires Valid()
      modifies this`offset
      ensures Valid() && offset >= old(offset)
      ensures match LimitsOf(sharedAllowed, old(Rest()))
              case None => r == None
              case Some((limits, rest)) => r == Some(limits) && Rest() == rest
    {
      hide UnsignedOf;
      var flags := Byte();
      if flags.None? || flags.value >= 8 || (!sharedAllowed && flags.value / 2 % 2 != 0) {
        return None;
      }
      var wide := flags.value / 4 % 2 != 0;
      var minimum := Unsigned(if wide then 64 else 32);
      if minimum.None? {
        return None;
      }
      var maximum: Option<nat> := None;
      if flags.value % 2 != 0 {
        maximum := Unsigned(if wide then 64 else 32);
        if maximum.None? {
          return None;
        }
      }
      return Some(MemoryType(wide, minimum.value, maximum, flags.value / 2 % 2 != 0));
    }

    /** skip_reference_type and skip_value_type. */
    method SkipType(numbersAllowed: bool) returns (ok: bool)
      requires Valid()
      modifies this`offset
      ensures Valid() && offset >= old(offset)
      ensures match TypeOf(numbersAllowed, old(Rest()))
              case None => !ok
              case Some(rest) => ok && Rest() == rest
    {
      hide SignedOf;
      SignedEmpty(33);
      var kind := Byte();
      if kind.None? {
        return false;
      }
      if numbersAllowed && 0x7b <= kind.value <= 0x7f {
        return true;
      }
      if kind.value == 0x63 || kind.value == 0x64 {
        ghost var rest := Rest();
        var first := Byte();
        if first.None? {
          return false;
        }
        assert rest == [first.value] + Rest();
        ok := Signed33(first.value);
        return;
      }
      return 0x69 <= kind.value <= 0x74;
    }

    /** The switch both walkers share. */
    method ReadDesc() returns (r: Option<Desc>)
      requires Valid()
      modifies this`offset
      ensures Valid() && offset >= old(offset)
      ensures match DescOf(old(Rest()))
              case None => r == None
              case Some((desc, rest)) => r == Some(desc) && Rest() == rest
    {
      hide UnsignedOf, LimitsOf, TypeOf;
      var kind := Byte();
      if kind.None? {
        return None;
      }
      if kind.value == 0 {
        var index := Unsigned(32);
        return if index.None? then None else Some(Function(index.value));
      } else if kind.value == 1 {
        var ok := SkipType(false);
        if !ok {
          return None;
        }
        var limits := Limits(false);
        return if limits.None? then None else Some(Table);
      } else if kind.value == 2 {
        var memory := Limits(true);
        return if memory.None? then None else Some(Memory(memory.value));
      } else if kind.value == 3 {
        var ok := SkipType(true);
        if !ok {
          return None;
        }
        var mutability := Byte();
        return if mutability.None? || mutability.value > 1 then None else Some(Global);
      } else if kind.value == 4 {
        var attribute := Byte();
        if attribute.None? || attribute.value != 0 {
          return None;
        }
        var index := Unsigned(32);
        return if index.None? then None else Some(Tag);
      }
      return None;
    }

    /** One import, names as spans. */
    method ReadImport() returns (r: Option<Import>)
      requires Valid()
      modifies this`offset
      ensures Valid() && offset >= old(offset)
      ensures match ImportOf(old(Rest()))
              case None => r == None
              case Some((one, rest)) => r == Some(one) && Rest() == rest
    {
      hide SpanOf, DescOf;
      var module_ := Span();
      if module_.None? {
        return None;
      }
      var name := Span();
      if name.None? {
        return None;
      }
      var desc := ReadDesc();
      if desc.None? {
        return None;
      }
      return Some(Import(module_.value, name.value, desc.value));
    }
  }

  // ---------------------------------------------------------------------------
  // Numbers, digit by digit

  /** A number whose lower digits have been read. */
  function Scaled(value: nat, scale: nat, r: Option<(nat, Bytes)>): Option<(nat, Bytes)>
  {
    match r
    case None => None
    case Some((m, rest)) => Some((value + scale * m, rest))
  }

  function Skipped(r: Option<(int, Bytes)>): Option<Bytes>
  {
    match r
    case None => None
    case Some((_, rest)) => Some(rest)
  }

  lemma ScaledStart(r: Option<(nat, Bytes)>)
    ensures Scaled(0, 1, r) == r
  {
  }

  lemma ScaledNone(value: nat, scale: nat)
    ensures Scaled(value, scale, None) == None
  {
  }

  lemma UnsignedNext(n: nat, b: Bytes)
    requires n > 0
    ensures b == [] ==> UnsignedOf(n, b) == None
    ensures b != [] && b[0] < 128 && (n >= 7 || b[0] < Power(n)) ==> UnsignedOf(n, b) == Some((b[0], b[1..]))
    ensures b != [] && n < 7 && b[0] % 128 >= Power(n) ==> UnsignedOf(n, b) == None
    ensures b != [] && b[0] >= 128 && n <= 7 ==> UnsignedOf(n, b) == None
    ensures b != [] && b[0] >= 128 && n > 7 ==>
              UnsignedOf(n, b) == match UnsignedOf(n - 7, b[1..])
                                  case None => None
                                  case Some((m, rest)) => Some((128 * m + (b[0] - 128), rest))
  {
    if n >= 7 { PowerGrows(n); }
  }

  /** One more digit read, and the rest of the number still to come. */
  lemma ScaledStep(value: nat, scale: nat, x: byte, after: Bytes, r: Option<(nat, Bytes)>)
    ensures x < 128 ==> Scaled(value, scale, Some((x, after))) == Some((value + scale * (x % 128), after))
    ensures x >= 128 && r.Some? ==>
              Scaled(value, scale, Some((128 * r.value.0 + (x - 128), r.value.1)))
              == Scaled(value + scale * (x % 128), 128 * scale, r)
    ensures Scaled(value + scale * (x % 128), 128 * scale, None) == None
  {
    if x >= 128 && r.Some? {
      var m, d := r.value.0, x - 128;
      assert scale * (128 * m + d) == scale * (128 * m) + scale * d;
      assert scale * (128 * m) == 128 * scale * m;
    }
  }

  lemma SignedNext(n: nat, b: Bytes)
    requires n > 0 && b != []
    ensures b[0] >= 128 && n > 7 ==> Skipped(SignedOf(n, b)) == Skipped(SignedOf(n - 7, b[1..]))
    ensures b[0] >= 128 && n <= 7 ==> SignedOf(n, b) == None
    ensures b[0] < 64 ==> Skipped(SignedOf(n, b)) == if b[0] < Power(n - 1) then Some(b[1..]) else None
    ensures 64 <= b[0] < 128 ==> Skipped(SignedOf(n, b)) == if b[0] >= 128 - Power(n - 1) then Some(b[1..]) else None
  {
  }

  lemma SignedEmpty(n: nat)
    requires n > 0
    ensures SignedOf(n, []) == None
  {
  }

  /** With five bits left the three above the sign must repeat it; with seven or more any byte does. */
  lemma SignedFits(n: nat, x: byte)
    requires n == 5 || n >= 7
    ensures n >= 7 ==> Power(n - 1) >= 64
    ensures n == 5 ==> Power(n - 1) == 16
  {
    if n >= 7 { PowerGrows(n - 1); } else { assert Power(2) == 4 && Power(4) == 16; }
  }

  lemma {:induction false} PowerGrows(n: nat)
    ensures n >= 6 ==> Power(n) >= 64
    ensures n >= 7 ==> Power(n) >= 128
  {
    if n == 6 || n == 7 {
      assert Power(2) == 4 && Power(4) == 16 && Power(6) == 64;
    } else if n > 7 {
      PowerGrows(n - 1);
    }
  }

  lemma {:induction false} UnsignedShrinks(n: nat, b: Bytes)
    requires n > 0
    ensures UnsignedOf(n, b).Some? ==> |UnsignedOf(n, b).value.1| < |b|
    decreases n
  {
    hide Power;
    if b != [] && b[0] >= 128 && n > 7 { UnsignedShrinks(n - 7, b[1..]); }
  }
}
