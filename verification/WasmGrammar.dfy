/**
 The productions of chapter 5 of the WebAssembly Core Specification that the
 walkers read, told by what a producer may write, with numbers of any permitted
 width. Each reader takes exactly what is written so, and gives what it means.
 */
module WasmGrammar {
  import opened Wrappers
  import opened WasmBinary

  // ---------------------------------------------------------------------------
  // A reader and what is written for it

  /**
   The reader takes exactly the bytes that write a good x, gives what x means, and
   leaves the rest.
   */
  ghost predicate Reads<T(!new), U>(one: Bytes -> Option<(U, Bytes)>, write: T -> Bytes, good: T -> bool, means: T -> U)
  {
    && (forall x: T, rest: Bytes :: good(x) ==> one(write(x) + rest) == Some((means(x), rest)))
    && forall b: Bytes :: one(b).Some? ==>
                            exists x: T :: Begins(write, good, means, b, x, one(b).value.0, one(b).value.1)
  }

  ghost predicate Begins<T(!new),
                         U>(write: T -> Bytes, good: T -> bool, means: T -> U, b: Bytes, x: T, u: U, rest: Bytes)
  {
    good(x) && means(x) == u && b == write(x) + rest
  }

  // ---------------------------------------------------------------------------
  // Numbers

  datatype Number = Number(value: nat, width: nat)

  lemma PowerStep(n: nat)
    ensures Power(n + 7) == 128 * Power(n)
  {
    assert Power(n + 1) == 2 * Power(n);
    assert Power(n + 2) == 4 * Power(n);
    assert Power(n + 3) == 8 * Power(n);
    assert Power(n + 4) == 16 * Power(n);
    assert Power(n + 5) == 32 * Power(n);
    assert Power(n + 6) == 64 * Power(n);
  }

  /** So many bytes, of seven bits each from the least on, all but the last marked. */
  function Leb(value: nat, width: nat): Bytes
    decreases width
  {
    if width <= 1 then [value % 128] else [128 + value % 128] + Leb(value / 128, width - 1)
  }

  /** A value below 2^n, in no more bytes than n bits take and no fewer than it needs. */
  predicate FitsIn(n: nat, x: Number)
  {
    x.value < Power(n) && x.width > 0 && 7 * (x.width - 1) < n && x.value < Power(7 * x.width)
  }

  lemma {:induction false} LebRead(n: nat, x: Number, rest: Bytes)
    requires n > 0 && FitsIn(n, x)
    ensures UnsignedOf(n, Leb(x.value, x.width) + rest) == Some((x.value, rest))
    decreases x.width
  {
    var b := Leb(x.value, x.width) + rest;
    PowerStep(0);
    if x.width == 1 {
      assert b[1..] == rest;
    } else {
      PowerStep(n - 7);
      PowerStep(7 * (x.width - 1));
      var y := Number(x.value / 128, x.width - 1);
      LebRead(n - 7, y, rest);
      assert b[1..] == Leb(y.value, y.width) + rest;
    }
  }

  lemma {:induction false} LebWritten(n: nat, b: Bytes) returns (x: Number)
    requires n > 0 && UnsignedOf(n, b).Some?
    ensures FitsIn(n, x) && x.value == UnsignedOf(n, b).value.0
    ensures b == Leb(x.value, x.width) + UnsignedOf(n, b).value.1
    decreases n
  {
    PowerStep(0);
    if b[0] < 128 {
      x := Number(b[0], 1);
      assert b == [b[0]] + b[1..];
    } else {
      var y := LebWritten(n - 7, b[1..]);
      PowerStep(n - 7);
      PowerStep(7 * y.width);
      x := Number(128 * y.value + (b[0] - 128), y.width + 1);
      assert x.value / 128 == y.value && x.value % 128 == b[0] - 128;
      assert b == [b[0]] + b[1..];
    }
  }

  function NumberBytes(x: Number): Bytes
  {
    Leb(x.value, x.width)
  }

  /** A signed number, likewise; its last byte's bit 6 is its sign. */
  datatype Signed = Signed(value: int, width: nat)

  function SignedLeb(value: int, width: nat): Bytes
    decreases width
  {
    if width <= 1 then [value % 128] else [128 + value % 128] + SignedLeb(value / 128, width - 1)
  }

  predicate SignedFitsIn(n: nat, x: Signed)
  {
    && n > 0 && 0 <= x.value + Power(n - 1) && x.value < Power(n - 1)
    && x.width > 0 && 7 * (x.width - 1) < n
    && 0 <= x.value + Power(7 * x.width - 1) && x.value < Power(7 * x.width - 1)
  }

  lemma SmallPowers()
    ensures Power(6) == 64 && Power(0) == 1
  {
  }

  lemma {:induction false} SignedRead(n: nat, x: Signed, rest: Bytes)
    requires SignedFitsIn(n, x)
    ensures SignedOf(n, SignedLeb(x.value, x.width) + rest) == Some((x.value, rest))
    decreases x.width
  {
    hide Power;
    var b := SignedLeb(x.value, x.width) + rest;
    SmallPowers();
    if x.width == 1 {
      assert b[1..] == rest;
    } else {
      PowerStep(n - 8);
      PowerStep(7 * (x.width - 1) - 1);
      var y := Signed(x.value / 128, x.width - 1);
      SignedRead(n - 7, y, rest);
      assert b[1..] == SignedLeb(y.value, y.width) + rest;
    }
  }

  lemma SignedJoins(m: int, d: int, p: nat)
    requires 0 <= d < 128 && 0 <= m + p && m < p
    ensures 0 <= 128 * m + d + 128 * p && 128 * m + d < 128 * p
    ensures (128 * m + d) / 128 == m && (128 * m + d) % 128 == d
  {
  }

  lemma {:induction false} SignedWritten(n: nat, b: Bytes) returns (x: Signed)
    requires n > 0 && SignedOf(n, b).Some?
    ensures SignedFitsIn(n, x) && x.value == SignedOf(n, b).value.0
    ensures b == SignedLeb(x.value, x.width) + SignedOf(n, b).value.1
    decreases n
  {
    hide Power;
    SmallPowers();
    assert b == [b[0]] + b[1..];
    if b[0] < 128 {
      x := Signed(if b[0] < 64 then b[0] else (b[0] as int) - 128, 1);
    } else {
      var y := SignedWritten(n - 7, b[1..]);
      var d := (b[0] as int) - 128;
      PowerStep(n - 8);
      PowerStep(7 * y.width - 1);
      SignedJoins(y.value, d, Power(n - 8));
      SignedJoins(y.value, d, Power(7 * y.width - 1));
      x := Signed(128 * y.value + d, y.width + 1);
    }
  }

  function SignedBytes(x: Signed): Bytes
  {
    SignedLeb(x.value, x.width)
  }

  // ---------------------------------------------------------------------------
  // Vectors and spans

  datatype Vec<T> = Vec(count: Number, items: seq<T>)

  function Concat<T>(write: T -> Bytes, items: seq<T>): Bytes
  {
    if items == [] then [] else write(items[0]) + Concat(write, items[1..])
  }

  predicate AllGood<T>(good: T -> bool, items: seq<T>)
  {
    forall i :: 0 <= i < |items| ==> good(items[i])
  }

  function Meanings<T, U>(means: T -> U, items: seq<T>): seq<U>
  {
    if items == [] then [] else [means(items[0])] + Meanings(means, items[1..])
  }

  function VecBytes<T>(write: T -> Bytes, v: Vec<T>): Bytes
  {
    NumberBytes(v.count) + Concat(write, v.items)
  }

  predicate VecGood<T>(good: T -> bool, v: Vec<T>)
  {
    FitsIn(32, v.count) && v.count.value == |v.items| && AllGood(good, v.items)
  }

  lemma OneRead<T(!new), U>(one: Bytes -> Option<(U, Bytes)>, write: T -> Bytes, good: T -> bool, means: T -> U, x: T,
                            rest: Bytes)
    requires Reads(one, write, good, means) && good(x)
    ensures one(write(x) + rest) == Some((means(x), rest))
  {
  }

  lemma {:induction false} ItemsRead<T(!new), U>(one: Bytes -> Option<(U, Bytes)>, write: T -> Bytes, good: T -> bool,
                                                 means: T -> U, items: seq<T>, rest: Bytes)
    requires Reads(one, write, good, means) && AllGood(good, items)
    ensures Many(one, |items|, Concat(write, items) + rest) == Some((Meanings(means, items), rest))
    decreases |items|
  {
    hide Reads;
    if items == [] {
      assert [] + rest == rest;
    } else {
      var tail := Concat(write, items[1..]) + rest;
      ItemsRead(one, write, good, means, items[1..], rest);
      assert Concat(write, items) + rest == write(items[0]) + tail;
      OneRead(one, write, good, means, items[0], tail);
    }
  }

  lemma {:induction false} ItemsWritten<T(!new), U>(one: Bytes -> Option<(U, Bytes)>, write: T -> Bytes,
                                                    good: T -> bool, means: T -> U, n: nat, b: Bytes)
    returns (items: seq<T>)
    requires Reads(one, write, good, means) && Many(one, n, b).Some?
    ensures |items| == n && AllGood(good, items) && Meanings(means, items) == Many(one, n, b).value.0
    ensures b == Concat(write, items) + Many(one, n, b).value.1
    decreases n
  {
    if n == 0 {
      items := [];
      assert [] + b == b;
    } else {
      var (u, after) := one(b).value;
      var x: T :| Begins(write, good, means, b, x, u, after);
      var more := ItemsWritten(one, write, good, means, n - 1, after);
      items := [x] + more;
      assert items[1..] == more;
      var end := Many(one, n - 1, after).value.1;
      assert write(x) + (Concat(write, more) + end) == write(x) + Concat(write, more) + end;
    }
  }

  lemma VectorRead<T(!new), U>(one: Bytes -> Option<(U, Bytes)>, write: T -> Bytes, good: T -> bool, means: T -> U,
                               v: Vec<T>, rest: Bytes)
    requires Reads(one, write, good, means) && VecGood(good, v)
    ensures Vector(one, VecBytes(write, v) + rest) == Some((Meanings(means, v.items), rest))
  {
    hide Reads, FitsIn, UnsignedOf, Leb, Concat, AllGood, Many, Meanings;
    var tail := Concat(write, v.items) + rest;
    LebRead(32, v.count, tail);
    ItemsRead(one, write, good, means, v.items, rest);
    assert VecBytes(write, v) + rest == NumberBytes(v.count) + tail;
  }

  lemma VectorWritten<T(!new), U>(one: Bytes -> Option<(U, Bytes)>, write: T -> Bytes, good: T -> bool, means: T -> U,
                                  b: Bytes) returns (v: Vec<T>)
    requires Reads(one, write, good, means) && Vector(one, b).Some?
    ensures VecGood(good, v) && Meanings(means, v.items) == Vector(one, b).value.0
    ensures b == VecBytes(write, v) + Vector(one, b).value.1
  {
    hide Reads, FitsIn, UnsignedOf, Leb, Concat, AllGood, Many, Meanings;
    var count := LebWritten(32, b);
    var after := UnsignedOf(32, b).value.1;
    var items := ItemsWritten(one, write, good, means, count.value, after);
    v := Vec(count, items);
    var end := Vector(one, b).value.1;
    assert NumberBytes(count) + (Concat(write, items) + end) == VecBytes(write, v) + end;
  }

  datatype Span = Span(length: Number, body: Bytes)

  function SpanBytes(x: Span): Bytes
  {
    NumberBytes(x.length) + x.body
  }

  predicate SpanGood(x: Span)
  {
    FitsIn(32, x.length) && x.length.value == |x.body|
  }

  lemma SpanRead(x: Span, rest: Bytes)
    requires SpanGood(x)
    ensures SpanOf(SpanBytes(x) + rest) == Some((x.body, rest))
  {
    hide FitsIn, UnsignedOf, Leb;
    LebRead(32, x.length, x.body + rest);
    assert SpanBytes(x) + rest == NumberBytes(x.length) + (x.body + rest);
    assert (x.body + rest)[..|x.body|] == x.body && (x.body + rest)[|x.body|..] == rest;
  }

  lemma SpanWritten(b: Bytes) returns (x: Span)
    requires SpanOf(b).Some?
    ensures SpanGood(x) && x.body == SpanOf(b).value.0 && b == SpanBytes(x) + SpanOf(b).value.1
  {
    hide FitsIn, UnsignedOf, Leb;
    var length := LebWritten(32, b);
    var after := UnsignedOf(32, b).value.1;
    x := Span(length, after[..length.value]);
    var end := after[length.value..];
    assert after == x.body + end;
    assert NumberBytes(length) + (x.body + end) == SpanBytes(x) + end;
  }

  // ---------------------------------------------------------------------------
  // Limits

  datatype Limits = Limits(minimum: Number, maximum: Option<Number>, shared: bool, wide: bool)

  /** Bit 0 of the flags says that a maximum follows, bit 1 shared, bit 2 addresses of 64 bits. */
  function FlagsOf(x: Limits): byte
  {
    (if x.maximum.Some? then 1 else 0) + (if x.shared then 2 else 0) + (if x.wide then 4 else 0)
  }

  function LimitsBytes(x: Limits): Bytes
  {
    [FlagsOf(x)]
    + (NumberBytes(x.minimum) + match x.maximum { case None => [] case Some(maximum) => NumberBytes(maximum) })
  }

  predicate LimitsGood(sharedAllowed: bool, x: Limits)
  {
    var bits := if x.wide then 64 else 32;
    && (x.shared ==> sharedAllowed) && FitsIn(bits, x.minimum)
    && (x.maximum.Some? ==> FitsIn(bits, x.maximum.value))
  }

  function LimitsMean(x: Limits): MemoryType
  {
    MemoryType(x.wide, x.minimum.value, if x.maximum.Some? then Some(x.maximum.value.value) else None, x.shared)
  }

  lemma LimitsRead(sharedAllowed: bool, x: Limits, rest: Bytes)
    requires LimitsGood(sharedAllowed, x)
    ensures LimitsOf(sharedAllowed, LimitsBytes(x) + rest) == Some((LimitsMean(x), rest))
  {
    hide FitsIn, UnsignedOf, Leb;
    var bits := if x.wide then 64 else 32;
    var tail := (if x.maximum.Some? then NumberBytes(x.maximum.value) else []) + rest;
    LebRead(bits, x.minimum, tail);
    if x.maximum.Some? {
      LebRead(bits, x.maximum.value, rest);
    } else {
      assert [] + rest == rest;
    }
    var b := LimitsBytes(x) + rest;
    assert b[1..] == NumberBytes(x.minimum) + tail;
  }

  lemma LimitsWritten(sharedAllowed: bool, b: Bytes) returns (x: Limits)
    requires LimitsOf(sharedAllowed, b).Some?
    ensures LimitsGood(sharedAllowed, x) && LimitsMean(x) == LimitsOf(sharedAllowed, b).value.0
    ensures b == LimitsBytes(x) + LimitsOf(sharedAllowed, b).value.1
  {
    hide FitsIn, UnsignedOf, Leb;
    var flags := b[0];
    FlagsBack(flags);
    var wide, shared := flags / 4 % 2 != 0, flags / 2 % 2 != 0;
    var bits := if wide then 64 else 32;
    var c := b[1..];
    var minimum := LebWritten(bits, c);
    var after := UnsignedOf(bits, c).value.1;
    if flags % 2 == 0 {
      x := Limits(minimum, None, shared, wide);
      assert NumberBytes(minimum) + [] == NumberBytes(minimum);
      assert b == [flags] + NumberBytes(minimum) + after;
    } else {
      var maximum := LebWritten(bits, after);
      x := Limits(minimum, Some(maximum), shared, wide);
      var end := UnsignedOf(bits, after).value.1;
      assert b == [flags] + (NumberBytes(minimum) + NumberBytes(maximum)) + end;
    }
  }

  lemma FlagsBack(flags: byte)
    ensures flags < 8 ==>
              flags == flags % 2 + (if flags / 2 % 2 != 0 then 2 else 0) + (if flags / 4 % 2 != 0 then 4 else 0)
  {
  }

  // ---------------------------------------------------------------------------
  // Types

  /** A number, vector or abstract heap type's code, or a reference to a heap type that is written out. */
  datatype Type = Simple(code: byte) | Typed(nullable: bool, heap: Signed)

  function TypeBytes(x: Type): Bytes
  {
    match x
    case Simple(code) => [code]
    case Typed(nullable, heap) => [if nullable then 0x63 else 0x64] + SignedBytes(heap)
  }

  predicate TypeGood(numbersAllowed: bool, x: Type)
  {
    match x
    case Simple(code) => 0x69 <= code <= 0x74 || (numbersAllowed && 0x7b <= code <= 0x7f)
    case Typed(_, heap) => SignedFitsIn(33, heap)
  }

  lemma TypeRead(numbersAllowed: bool, x: Type, rest: Bytes)
    requires TypeGood(numbersAllowed, x)
    ensures TypeOf(numbersAllowed, TypeBytes(x) + rest) == Some(rest)
  {
    hide SignedFitsIn, SignedOf, SignedLeb;
    var b := TypeBytes(x) + rest;
    match x
    case Simple(_) => assert b[1..] == rest;
    case Typed(_, heap) =>
      SignedRead(33, heap, rest);
      assert b[1..] == SignedBytes(heap) + rest;
  }

  lemma TypeWritten(numbersAllowed: bool, b: Bytes) returns (x: Type)
    requires TypeOf(numbersAllowed, b).Some?
    ensures TypeGood(numbersAllowed, x) && b == TypeBytes(x) + TypeOf(numbersAllowed, b).value
  {
    hide SignedFitsIn, SignedOf, SignedLeb;
    assert b == [b[0]] + b[1..];
    if b[0] == 0x63 || b[0] == 0x64 {
      var heap := SignedWritten(33, b[1..]);
      x := Typed(b[0] == 0x63, heap);
      var end := SignedOf(33, b[1..]).value.1;
      assert [b[0]] + (SignedBytes(heap) + end) == TypeBytes(x) + end;
    } else {
      x := Simple(b[0]);
    }
  }

  // ---------------------------------------------------------------------------
  // Imports

  datatype Item =
    | AFunction(index: Number)
    | ATable(of: Type, limits: Limits)
    | AMemory(limits: Limits)
    | AGlobal(of: Type, mutable: bool)
    | ATag(index: Number)

  function ItemBytes(x: Item): Bytes
  {
    match x
    case AFunction(index) => [0] + NumberBytes(index)
    case ATable(of, limits) => [1] + (TypeBytes(of) + LimitsBytes(limits))
    case AMemory(limits) => [2] + LimitsBytes(limits)
    case AGlobal(of, mutable) => [3] + (TypeBytes(of) + [if mutable then 1 else 0])
    case ATag(index) => [4] + ([0] + NumberBytes(index))
  }

  predicate ItemGood(x: Item)
  {
    match x
    case AFunction(index) => FitsIn(32, index)
    case ATable(of, limits) => TypeGood(false, of) && LimitsGood(false, limits)
    case AMemory(limits) => LimitsGood(true, limits)
    case AGlobal(of, _) => TypeGood(true, of)
    case ATag(index) => FitsIn(32, index)
  }

  function ItemMeans(x: Item): Desc
  {
    match x
    case AFunction(index) => Function(index.value)
    case ATable(_, _) => Table
    case AMemory(limits) => Memory(LimitsMean(limits))
    case AGlobal(_, _) => Global
    case ATag(_) => Tag
  }

  lemma HeadTail(k: byte, c: Bytes, rest: Bytes)
    ensures var b := [k] + c + rest; b != [] && b[0] == k && b[1..] == c + rest
  {
  }

  lemma TableRead(of: Type, limits: Limits, rest: Bytes)
    requires ItemGood(ATable(of, limits))
    ensures DescOf(ItemBytes(ATable(of, limits)) + rest) == Some((Table, rest))
  {
    hide FitsIn, UnsignedOf, Leb, TypeGood, TypeOf, TypeBytes, LimitsGood, LimitsOf, LimitsBytes;
    LimitsRead(false, limits, rest);
    TypeRead(false, of, LimitsBytes(limits) + rest);
    HeadTail(1, TypeBytes(of) + LimitsBytes(limits), rest);
    assert TypeBytes(of) + LimitsBytes(limits) + rest == TypeBytes(of) + (LimitsBytes(limits) + rest);
  }

  lemma MutabilityRead(m: byte, rest: Bytes)
    ensures ByteOf([m] + rest) == Some((m, rest))
  {
    assert ([m] + rest)[1..] == rest;
  }

  lemma GlobalIs(c: Bytes)
    ensures DescOf([3] + c)
         == match TypeOf(true, c)
            case None => None
            case Some(last) =>
              match ByteOf(last)
              case None => None
              case Some((m, end)) => if m > 1 then None else Some((Global, end))
  {
    hide TypeOf, LimitsOf, UnsignedOf;
    assert ([3] + c)[1..] == c;
  }

  lemma GlobalRead(of: Type, mutable: bool, rest: Bytes)
    requires ItemGood(AGlobal(of, mutable))
    ensures DescOf(ItemBytes(AGlobal(of, mutable)) + rest) == Some((Global, rest))
  {
    hide DescOf, TypeGood, TypeOf, TypeBytes, ByteOf;
    var m: byte := if mutable then 1 else 0;
    var c := TypeBytes(of) + ([m] + rest);
    TypeRead(true, of, [m] + rest);
    MutabilityRead(m, rest);
    GlobalIs(c);
    assert ItemBytes(AGlobal(of, mutable)) + rest == [3] + c;
  }

  lemma IndexRead(x: Item, rest: Bytes)
    requires ItemGood(x) && (x.AFunction? || x.ATag?)
    ensures DescOf(ItemBytes(x) + rest) == Some((ItemMeans(x), rest))
  {
    hide FitsIn, UnsignedOf, Leb, TypeGood, TypeOf, TypeBytes, LimitsGood, LimitsOf, LimitsBytes;
    LebRead(32, x.index, rest);
    HeadTail(0, NumberBytes(x.index), rest);
    HeadTail(4, [0] + NumberBytes(x.index), rest);
  }

  lemma MemoryRead(limits: Limits, rest: Bytes)
    requires ItemGood(AMemory(limits))
    ensures DescOf(ItemBytes(AMemory(limits)) + rest) == Some((Memory(LimitsMean(limits)), rest))
  {
    hide FitsIn, UnsignedOf, Leb, TypeGood, TypeOf, TypeBytes, LimitsGood, LimitsOf, LimitsBytes;
    LimitsRead(true, limits, rest);
    HeadTail(2, LimitsBytes(limits), rest);
  }

  lemma ItemRead(x: Item, rest: Bytes)
    requires ItemGood(x)
    ensures DescOf(ItemBytes(x) + rest) == Some((ItemMeans(x), rest))
  {
    hide ItemGood, ItemBytes, DescOf;
    match x
    case ATable(of, limits) => TableRead(of, limits, rest);
    case AMemory(limits) => MemoryRead(limits, rest);
    case AGlobal(of, mutable) => GlobalRead(of, mutable, rest);
    case _ => IndexRead(x, rest);
  }

  lemma IndexWritten(b: Bytes) returns (x: Item)
    requires DescOf(b).Some? && b[0] != 1 && b[0] != 2 && b[0] != 3
    ensures ItemGood(x) && ItemMeans(x) == DescOf(b).value.0 && b == ItemBytes(x) + DescOf(b).value.1
  {
    hide FitsIn, UnsignedOf, Leb, TypeGood, TypeOf, TypeBytes, LimitsGood, LimitsOf, LimitsBytes;
    var c, end := b[1..], DescOf(b).value.1;
    assert b == [b[0]] + c;
    if b[0] == 0 {
      var index := LebWritten(32, c);
      x := AFunction(index);
    } else {
      var index := LebWritten(32, c[1..]);
      x := ATag(index);
      assert c == [0] + c[1..];
      assert c == [0] + NumberBytes(index) + end;
    }
  }

  lemma TableWritten(b: Bytes) returns (x: Item)
    requires DescOf(b).Some? && b[0] == 1
    ensures ItemGood(x) && ItemMeans(x) == DescOf(b).value.0 && b == ItemBytes(x) + DescOf(b).value.1
  {
    hide FitsIn, UnsignedOf, Leb, TypeGood, TypeOf, TypeBytes, LimitsGood, LimitsOf, LimitsBytes;
    var c, end := b[1..], DescOf(b).value.1;
    assert b == [b[0]] + c;
    var of := TypeWritten(false, c);
    var limits := LimitsWritten(false, TypeOf(false, c).value);
    x := ATable(of, limits);
    assert c == TypeBytes(of) + LimitsBytes(limits) + end;
  }

  lemma MemoryWritten(b: Bytes) returns (x: Item)
    requires DescOf(b).Some? && b[0] == 2
    ensures ItemGood(x) && ItemMeans(x) == DescOf(b).value.0 && b == ItemBytes(x) + DescOf(b).value.1
  {
    hide FitsIn, UnsignedOf, Leb, TypeGood, TypeOf, TypeBytes, LimitsGood, LimitsOf, LimitsBytes;
    var c, end := b[1..], DescOf(b).value.1;
    assert b == [b[0]] + c;
    var limits := LimitsWritten(true, c);
    x := AMemory(limits);
  }

  lemma GlobalWritten(b: Bytes) returns (x: Item)
    requires DescOf(b).Some? && b[0] == 3
    ensures ItemGood(x) && ItemMeans(x) == DescOf(b).value.0 && b == ItemBytes(x) + DescOf(b).value.1
  {
    hide FitsIn, UnsignedOf, Leb, TypeGood, TypeOf, TypeBytes, LimitsGood, LimitsOf, LimitsBytes;
    var c, end := b[1..], DescOf(b).value.1;
    assert b == [b[0]] + c;
    var of := TypeWritten(true, c);
    var last := TypeOf(true, c).value;
    x := AGlobal(of, last[0] == 1);
    assert last == [last[0]] + end;
    assert c == TypeBytes(of) + [last[0]] + end;
  }

  lemma ItemWritten(b: Bytes) returns (x: Item)
    requires DescOf(b).Some?
    ensures ItemGood(x) && ItemMeans(x) == DescOf(b).value.0 && b == ItemBytes(x) + DescOf(b).value.1
  {
    NotEmpty(b);
    hide ItemGood, ItemMeans, ItemBytes, DescOf;
    if b[0] == 1 {
      x := TableWritten(b);
    } else if b[0] == 2 {
      x := MemoryWritten(b);
    } else if b[0] == 3 {
      x := GlobalWritten(b);
    } else {
      x := IndexWritten(b);
    }
  }

  lemma NotEmpty(b: Bytes)
    requires DescOf(b).Some?
    ensures b != []
  {
  }

  /** An import: where from, under what name, and what. */
  datatype Entry = Entry(from: Span, name: Span, item: Item)

  function EntryBytes(x: Entry): Bytes
  {
    SpanBytes(x.from) + (SpanBytes(x.name) + ItemBytes(x.item))
  }

  predicate EntryGood(x: Entry)
  {
    SpanGood(x.from) && SpanGood(x.name) && ItemGood(x.item)
  }

  function EntryMeans(x: Entry): Import
  {
    Import(x.from.body, x.name.body, ItemMeans(x.item))
  }

  lemma EntryRead(x: Entry, rest: Bytes)
    requires EntryGood(x)
    ensures ImportOf(EntryBytes(x) + rest) == Some((EntryMeans(x), rest))
  {
    hide SpanGood, SpanBytes, SpanOf, ItemGood, ItemBytes, DescOf;
    var last := ItemBytes(x.item) + rest;
    ItemRead(x.item, rest);
    SpanRead(x.name, last);
    SpanRead(x.from, SpanBytes(x.name) + last);
    assert EntryBytes(x) + rest == SpanBytes(x.from) + (SpanBytes(x.name) + last);
  }

  lemma EntryWritten(b: Bytes) returns (x: Entry)
    requires ImportOf(b).Some?
    ensures EntryGood(x) && EntryMeans(x) == ImportOf(b).value.0 && b == EntryBytes(x) + ImportOf(b).value.1
  {
    hide SpanGood, SpanBytes, SpanOf, ItemGood, ItemBytes, DescOf;
    var from := SpanWritten(b);
    var afterFrom := SpanOf(b).value.1;
    var name := SpanWritten(afterFrom);
    var item := ItemWritten(SpanOf(afterFrom).value.1);
    x := Entry(from, name, item);
    var end := ImportOf(b).value.1;
    assert SpanBytes(from) + (SpanBytes(name) + (ItemBytes(item) + end)) == EntryBytes(x) + end;
  }

  /** An import is read exactly as written. */
  lemma ImportsRead()
    ensures Reads(ImportOf, EntryBytes, EntryGood, EntryMeans)
  {
    hide EntryBytes, EntryGood, EntryMeans, ImportOf;
    forall x: Entry, rest: Bytes | EntryGood(x)
      ensures ImportOf(EntryBytes(x) + rest) == Some((EntryMeans(x), rest)) {
      EntryRead(x, rest);
    }
    forall b: Bytes | ImportOf(b).Some?
      ensures exists x ::
                Begins(EntryBytes, EntryGood, EntryMeans, b, x, ImportOf(b).value.0, ImportOf(b).value.1) {
      var x := EntryWritten(b);
      assert Begins(EntryBytes, EntryGood, EntryMeans, b, x, ImportOf(b).value.0, ImportOf(b).value.1);
    }
  }
}
