/**
 The chunked transfer coding of packages/linux-guest/src/http.ts (section 7.1
 of RFC 9112): decoded from a stream cut anywhere, and encoded.
 */
module HttpChunked {
  import opened Wrappers
  import opened HttpReader

  const MaxTrailers: nat := 65536
  const MaxSafe: nat := 0x1f_ffff_ffff_ffff

  // ---------------------------------------------------------------------------
  // Sizes

  function DigitValue(x: byte): Option<nat>
  {
    if 48 <= x <= 57 then Some(x - 48)
    else if 97 <= x <= 102 then Some(x - 87)
    else if 65 <= x <= 70 then Some(x - 55)
    else None
  }

  /** How many hexadecimal digits a line starts with. */
  function DigitCount(line: Bytes): (n: nat)
    ensures n <= |line|
    ensures forall i :: 0 <= i < n ==> DigitValue(line[i]).Some?
    ensures n < |line| ==> DigitValue(line[n]).None?
  {
    if line == [] || DigitValue(line[0]).None? then 0 else 1 + DigitCount(line[1..])
  }

  predicate AllDigits(digits: Bytes)
  {
    forall i :: 0 <= i < |digits| ==> DigitValue(digits[i]).Some?
  }

  function HexValue(digits: Bytes): nat
    requires AllDigits(digits)
  {
    if digits == [] then 0
    else 16 * HexValue(digits[..|digits| - 1]) + DigitValue(digits[|digits| - 1]).value
  }

  datatype Size = Size(n: nat) | BadSize | SizeTooLarge

  /** A chunk-size line: digits, and extensions of the form that the grammar given allows. */
  function SizeOf(extensions: Bytes -> bool, line: Bytes): Size
  {
    var n := DigitCount(line);
    if n == 0 || !extensions(line[n..]) then BadSize
    else if HexValue(line[..n]) > MaxSafe then SizeTooLarge
    else Size(HexValue(line[..n]))
  }

  // ---------------------------------------------------------------------------
  // Decoding a whole stream

  lemma AfterLineShorter(strict: bool, stream: Bytes)
    ensures LineOf(strict, stream).Line? ==> |AfterLine(strict, stream)| < |stream|
  {
  }

  /** The trailer section is read through its empty line and dropped. */
  function Trailers(strict: bool, stream: Bytes, bytes: nat): Option<Bytes>
    decreases |stream|
  {
    match LineOf(strict, stream)
    case Line(text) =>
      AfterLineShorter(strict, stream);
      if bytes + |text| + 2 > MaxTrailers then None
      else if text == [] then Some(AfterLine(strict, stream))
      else Trailers(strict, AfterLine(strict, stream), bytes + |text| + 2)
    case _ => None
  }

  function Prefixed(first: Bytes, r: Option<(Bytes, Bytes)>): Option<(Bytes, Bytes)>
  {
    match r
    case None => None
    case Some((data, rest)) => Some((first + data, rest))
  }

  datatype Framing = Data(n: nat, rest: Bytes) | End(rest: Bytes) | Malformed

  /** Between chunks, or before the first: the next size, or the end of the coding. */
  function NextSize(strict: bool, extensions: Bytes -> bool, between: bool, stream: Bytes): (r: Framing)
    ensures r.Data? ==> r.n > 0 && |r.rest| < |stream|
    decreases |stream|
  {
    match LineOf(strict, stream)
    case Line(text) =>
      AfterLineShorter(strict, stream);
      var rest := AfterLine(strict, stream);
      if between then (if text == [] then NextSize(strict, extensions, false, rest) else Malformed)
      else
        (match SizeOf(extensions, text)
         case Size(n) =>
           if n > 0 then Data(n, rest)
           else
             (match Trailers(strict, rest, 0)
              case None => Malformed
              case Some(end) => End(end))
         case _ => Malformed)
    case _ => Malformed
  }

  /**
   The rest of a body: some bytes of a chunk still to come, or the end of a
   chunk, or the next size. Its data and what follows the coding, or None where
   it is malformed or cut short.
   */
  function Decoded(strict: bool, extensions: Bytes -> bool, remaining: nat, between: bool,
                   stream: Bytes): Option<(Bytes, Bytes)>
    decreases |stream|
  {
    if remaining > 0 then
      if |stream| < remaining then None
      else Prefixed(stream[..remaining], Decoded(strict, extensions, 0, true, stream[remaining..]))
    else
      match NextSize(strict, extensions, between, stream)
      case Data(n, rest) => Decoded(strict, extensions, n, false, rest)
      case End(rest) => Some(([], rest))
      case Malformed => None
  }

  /** Some of a chunk's bytes may come first. */
  lemma DecodedSplit(strict: bool, extensions: Bytes -> bool, remaining: nat, b: Bytes, stream: Bytes)
    requires 0 < |b| <= remaining
    ensures Decoded(strict, extensions, remaining, false, b + stream)
         == Prefixed(b, Decoded(strict, extensions, remaining - |b|, remaining == |b|, stream))
  {
    var left := remaining - |b|;
    var whole := b + stream;
    if |whole| >= remaining {
      assert whole[..remaining] == b + stream[..left];
      assert whole[remaining..] == stream[left..];
      var r := Decoded(strict, extensions, 0, true, stream[left..]);
      if left == 0 {
        assert stream[..0] == [] && stream[0..] == stream && b + [] == b;
      } else if r.Some? {
        assert b + stream[..left] + r.value.0 == b + (stream[..left] + r.value.0);
      }
    }
  }

  // ---------------------------------------------------------------------------
  // The program

  datatype Pulled = Chunk(data: Bytes) | Closed | Failed

  class ChunkedBody {
    const reader: ByteReader
    const extensions: Bytes -> bool
    var remaining: nat
    var between: bool

    constructor (reader: ByteReader, extensions: Bytes -> bool)
      ensures this.reader == reader && this.extensions == extensions && remaining == 0 && !between
    {
      this.reader := reader;
      this.extensions := extensions;
      remaining := 0;
      between := false;
    }

    /** What the body is from here on. */
    ghost function Rest(): Option<(Bytes, Bytes)>
      reads this, reader
    {
      Decoded(reader.strict, extensions, remaining, between, reader.Stream())
    }

    ghost predicate Valid()
      reads this, reader
    {
      reader.Valid() && (remaining > 0 ==> !between)
    }

    /** A chunk's size, and at the last chunk its trailers. */
    method ReadSizeLine() returns (size: Option<nat>)
      requires reader.Valid()
      modifies reader
      ensures reader.Valid() && |reader.Stream()| <= |old(reader.Stream())|
      ensures match NextSize(reader.strict, extensions, false, old(reader.Stream()))
              case Malformed => size == None
              case Data(n, rest) => size == Some(n) && reader.Stream() == rest
              case End(rest) => size == Some(0) && reader.Stream() == rest
    {
      hide LineOf, SizeOf, Trailers, AfterLine;
      AfterLineShorter(reader.strict, reader.Stream());
      ReadsLess(reader.strict, reader.Stream());
      var line := reader.ReadLine();
      if !line.Line? {
        return None;
      }
      var n := SizeOf(extensions, line.text);
      if !n.Size? {
        return None;
      }
      if n.n == 0 {
        var ended := SkipTrailers();
        if !ended {
          return None;
        }
      }
      return Some(n.n);
    }

    /** The part of pull that comes before data. */
    method ReadSize() returns (size: Option<nat>)
      requires reader.Valid()
      modifies this`between, reader
      ensures reader.Valid() && |reader.Stream()| <= |old(reader.Stream())|
      ensures match NextSize(reader.strict, extensions, old(between), old(reader.Stream()))
              case Malformed => size == None
              case Data(n, rest) => size == Some(n) && reader.Stream() == rest && !between
              case End(rest) => size == Some(0) && reader.Stream() == rest
    {
      hide LineOf, AfterLine, NextSize;
      if between {
        ReadsLess(reader.strict, reader.Stream());
        Boundary(reader.strict, extensions, reader.Stream());
        var boundary := reader.ReadLine();
        if boundary != Line([]) {
          return None;
        }
        between := false;
      }
      size := ReadSizeLine();
    }

    /** The stream's pull: one piece of data, the end, or an error. */
    method Pull() returns (r: Pulled)
      requires Valid()
      modifies this, reader
      ensures r.Chunk? ==>
                Valid() && old(Rest()) == Prefixed(r.data, Rest()) && |reader.Stream()| < |old(reader.Stream())|
      ensures r.Closed? ==> old(Rest()) == Some(([], reader.Stream()))
      ensures r.Failed? ==> old(Rest()) == None
    {
      hide NextSize, Prefixed, Decoded;
      DecodedNext(reader.strict, extensions, remaining, between, reader.Stream());
      if remaining == 0 {
        var size := ReadSize();
        if size.None? {
          return Failed;
        }
        remaining := size.value;
        if remaining == 0 {
          return Closed;
        }
        assert old(Rest()) == Rest();
      }
      ghost var before := Rest();
      DecodedNext(reader.strict, extensions, remaining, between, reader.Stream());
      var chunk := reader.Take(remaining);
      if chunk.None? {
        return Failed;
      }
      DecodedSplit(reader.strict, extensions, remaining, chunk.value, reader.Stream());
      remaining := remaining - |chunk.value|;
      if remaining == 0 {
        between := true;
      }
      assert before == Prefixed(chunk.value, Rest());
      return Chunk(chunk.value);
    }

    method SkipTrailers() returns (ended: bool)
      requires reader.Valid()
      modifies reader
      ensures reader.Valid() && |reader.Stream()| <= |old(reader.Stream())|
      ensures ended <==> Trailers(reader.strict, old(reader.Stream()), 0).Some?
      ensures ended ==> Trailers(reader.strict, old(reader.Stream()), 0) == Some(reader.Stream())
    {
      hide LineOf, AfterLine;
      var bytes: nat := 0;
      while true
        invariant reader.Valid() && |reader.Stream()| <= |old(reader.Stream())|
        invariant Trailers(reader.strict, old(reader.Stream()), 0) == Trailers(reader.strict, reader.Stream(), bytes)
        decreases |reader.Stream()|
      {
        AfterLineShorter(reader.strict, reader.Stream());
        ReadsLess(reader.strict, reader.Stream());
        var line := reader.ReadLine();
        if !line.Line? {
          return false;
        }
        bytes := bytes + |line.text| + 2;
        if bytes > MaxTrailers {
          return false;
        }
        if line.text == [] {
          return true;
        }
      }
    }
  }

  lemma Boundary(strict: bool, extensions: Bytes -> bool, stream: Bytes)
    ensures NextSize(strict, extensions, true, stream)
         == if LineOf(strict, stream) == Line([])
            then NextSize(strict, extensions, false, AfterLine(strict, stream))
            else Malformed
  {
    hide LineOf, AfterLine;
  }

  lemma DecodedNext(strict: bool, extensions: Bytes -> bool, remaining: nat, between: bool, stream: Bytes)
    ensures remaining > 0 && stream == [] ==> Decoded(strict, extensions, remaining, between, stream) == None
    ensures remaining == 0 ==>
              Decoded(strict, extensions, 0, between, stream)
              == match NextSize(strict, extensions, between, stream)
                 case Data(n, rest) => Decoded(strict, extensions, n, false, rest)
                 case End(rest) => Some(([], rest))
                 case Malformed => None
  {
  }

  lemma ReadsLess(strict: bool, stream: Bytes)
    ensures |AfterLine(strict, stream)| <= |stream|
  {
  }

  /**
   A consumer that pulls to the end: however the stream is cut, it gets what
   Decoded says, and stops exactly after the coding.
   */
  method ReadAll(reader: ByteReader, extensions: Bytes -> bool) returns (r: Option<Bytes>)
    requires reader.Valid()
    modifies reader
    ensures match Decoded(reader.strict, extensions, 0, false, old(reader.Stream()))
            case None => r == None
            case Some((data, rest)) => r == Some(data) && reader.Stream() == rest
  {
    hide Decoded;
    var body := new ChunkedBody(reader, extensions);
    var data: Bytes := [];
    PrefixedNothing(body.Rest());
    while true
      invariant body.Valid() && fresh(body) && body.reader == reader && body.extensions == extensions
      invariant Decoded(reader.strict, extensions, 0, false, old(reader.Stream())) == Prefixed(data, body.Rest())
      decreases |reader.Stream()|
    {
      ghost var before := body.Rest();
      var pulled := body.Pull();
      match pulled
      case Chunk(b) =>
        PrefixedTwice(data, b, body.Rest());
        data := data + b;
      case Closed =>
        assert data + [] == data;
        return Some(data);
      case Failed =>
        return None;
    }
  }

  lemma PrefixedNothing(r: Option<(Bytes, Bytes)>)
    ensures Prefixed([], r) == r
  {
    if r.Some? { assert [] + r.value.0 == r.value.0; }
  }

  lemma PrefixedTwice(a: Bytes, b: Bytes, r: Option<(Bytes, Bytes)>)
    ensures Prefixed(a, Prefixed(b, r)) == Prefixed(a + b, r)
  {
    if r.Some? { assert a + (b + r.value.0) == a + b + r.value.0; }
  }

  // ---------------------------------------------------------------------------
  // Encoding

  function Digit(x: nat): byte
    requires x < 16
  {
    if x < 10 then 48 + x else 87 + x
  }

  /** toString(16). */
  function Hex(n: nat): Bytes
  {
    if n < 16 then [Digit(n)] else Hex(n / 16) + [Digit(n % 16)]
  }

  const CrLf: Bytes := [CR, LF]

  /** The encoder's transform of one chunk; an empty one is dropped. */
  function EncodedChunk(chunk: Bytes): Bytes
  {
    if chunk == [] then [] else Hex(|chunk|) + CrLf + chunk + CrLf
  }

  /** Everything the encoder writes for a stream of chunks, its flush included. */
  function Encoded(chunks: seq<Bytes>): Bytes
  {
    if chunks == [] then [48] + CrLf + CrLf else EncodedChunk(chunks[0]) + Encoded(chunks[1..])
  }

  /** A line's bytes that are ASCII and no part of a line ending. */
  predicate Plain(b: Bytes)
  {
    forall i :: 0 <= i < |b| ==> b[i] < 0x80 && b[i] != CR && b[i] != LF
  }

  lemma {:induction false} HexDigits(n: nat)
    ensures AllDigits(Hex(n)) && HexValue(Hex(n)) == n && Plain(Hex(n))
  {
    if n >= 16 {
      HexDigits(n / 16);
      var h := Hex(n / 16);
      assert Hex(n)[..|h|] == h;
    }
  }

  lemma {:induction false} HexLength(n: nat, k: nat, power: nat)
    requires n < power && power == Power16(k) && k > 0
    ensures |Hex(n)| <= k
    decreases k
  {
    if n >= 16 {
      if k > 1 { HexLength(n / 16, k - 1, Power16(k - 1)); }
    }
  }

  function Power16(k: nat): nat
  {
    if k == 0 then 1 else 16 * Power16(k - 1)
  }

  lemma SafeHexLength(n: nat)
    requires n <= MaxSafe
    ensures |Hex(n)| <= 14
  {
    assert Power16(4) == 0x1_0000;
    assert Power16(8) == 0x1_0000_0000;
    assert Power16(12) == 0x1_0000_0000_0000;
    assert Power16(14) == 0x100_0000_0000_0000;
    HexLength(n, 14, Power16(14));
  }

  lemma {:induction false} IndexAfter(b: Bytes, more: Bytes, x: byte)
    requires x !in b
    ensures IndexOf(b + [x] + more, x) == |b|
  {
    if b == [] {
      assert ([] + [x] + more)[0] == x;
    } else {
      assert (b + [x] + more)[1..] == b[1..] + [x] + more;
      IndexAfter(b[1..], more, x);
    }
  }

  /** A line that the encoder writes is read back, strictly or not. */
  lemma LineRead(strict: bool, text: Bytes, rest: Bytes)
    requires Plain(text) && |text| <= 14
    ensures LineOf(strict, text + CrLf + rest) == Line(text) && AfterLine(strict, text + CrLf + rest) == rest
  {
    AnyLineRead(strict, text, rest);
  }

  lemma AnyLineRead(strict: bool, text: Bytes, rest: Bytes)
    requires CR !in text && LF !in text && |text| <= 14
    ensures LineOf(strict, text + CrLf + rest) == Line(TextOf(text)) && AfterLine(strict, text + CrLf + rest) == rest
  {
    hide TextOf;
    var stream := text + CrLf + rest;
    IndexAfter(text + [CR], rest, LF);
    assert stream == text + [CR] + [LF] + rest;
    assert stream[..|text| + 2] == text + CrLf;
    var bytes := text + CrLf;
    assert bytes[..|text|] == text;
  }

  /** Decoding drops a byte order mark, so a boundary may be a line of nothing else. */
  lemma MarkedBoundaryRead(strict: bool, extensions: Bytes -> bool, rest: Bytes)
    ensures NextSize(strict, extensions, true, ByteOrderMark + CrLf + rest) == NextSize(strict, extensions, false, rest)
  {
    hide LineOf, SizeOf, AfterLine, Trailers;
    AnyLineRead(strict, ByteOrderMark, rest);
    assert TextOf(ByteOrderMark) == [];
  }

  lemma {:induction false} DigitsCounted(digits: Bytes)
    requires AllDigits(digits)
    ensures DigitCount(digits) == |digits|
  {
    if digits != [] { DigitsCounted(digits[1..]); }
  }

  lemma SizeRead(extensions: Bytes -> bool, n: nat)
    requires extensions([]) && n <= MaxSafe
    ensures SizeOf(extensions, Hex(n)) == Size(n)
  {
    HexDigits(n);
    DigitsCounted(Hex(n));
    assert Hex(n)[|Hex(n)|..] == [] && Hex(n)[..|Hex(n)|] == Hex(n);
  }

  predicate AllSafe(chunks: seq<Bytes>)
  {
    forall i :: 0 <= i < |chunks| ==> |chunks[i]| <= MaxSafe
  }

  lemma SizeLineRead(strict: bool, extensions: Bytes -> bool, n: nat, rest: Bytes)
    requires extensions([]) && 0 < n <= MaxSafe
    ensures NextSize(strict, extensions, false, Hex(n) + CrLf + rest) == Data(n, rest)
  {
    hide Hex, LineOf, SizeOf, AfterLine;
    HexDigits(n);
    SafeHexLength(n);
    LineRead(strict, Hex(n), rest);
    SizeRead(extensions, n);
  }

  lemma BoundaryRead(strict: bool, extensions: Bytes -> bool, rest: Bytes)
    ensures NextSize(strict, extensions, true, CrLf + rest) == NextSize(strict, extensions, false, rest)
  {
    hide LineOf, SizeOf, AfterLine;
    LineRead(strict, [], rest);
    assert [] + CrLf + rest == CrLf + rest;
  }

  lemma ChunkRead(strict: bool, extensions: Bytes -> bool, chunk: Bytes, rest: Bytes)
    requires extensions([]) && 0 < |chunk| <= MaxSafe
    ensures Decoded(strict, extensions, 0, false, EncodedChunk(chunk) + rest)
         == Prefixed(chunk, Decoded(strict, extensions, 0, false, rest))
  {
    hide Hex, NextSize, Prefixed;
    var size, after := Hex(|chunk|), CrLf + rest;
    assert EncodedChunk(chunk) + rest == size + CrLf + (chunk + after);
    SizeLineRead(strict, extensions, |chunk|, chunk + after);
    BoundaryRead(strict, extensions, rest);
    assert (chunk + after)[..|chunk|] == chunk && (chunk + after)[|chunk|..] == after;
    assert Decoded(strict, extensions, |chunk|, false, chunk + after)
        == Prefixed(chunk, Decoded(strict, extensions, 0, true, after));
  }

  lemma EndRead(strict: bool, extensions: Bytes -> bool, rest: Bytes)
    requires extensions([])
    ensures Decoded(strict, extensions, 0, false, [48] + CrLf + CrLf + rest) == Some(([], rest))
  {
    hide LineOf, SizeOf, AfterLine, HexValue;
    var tail := [] + CrLf + rest;
    assert Hex(0) == [48];
    SizeRead(extensions, 0);
    LineRead(strict, [48], tail);
    LineRead(strict, [], rest);
    assert [48] + CrLf + CrLf + rest == [48] + CrLf + tail;
  }

  /**
   The round trip, on the stream as a whole: any chunks come back as their
   bytes, and what follows the coding is left. ReadAll gives the same for every
   cutting of the stream.
   */
  lemma {:induction false} ChunksComeBack(strict: bool, extensions: Bytes -> bool, chunks: seq<Bytes>, rest: Bytes)
    requires extensions([]) && AllSafe(chunks)
    ensures Decoded(strict, extensions, 0, false, Encoded(chunks) + rest) == Some((Flat(chunks), rest))
    decreases |chunks|
  {
    hide Decoded, EncodedChunk;
    if chunks == [] {
      EndRead(strict, extensions, rest);
    } else {
      var tail := Encoded(chunks[1..]) + rest;
      ChunksComeBack(strict, extensions, chunks[1..], rest);
      assert Encoded(chunks) + rest == EncodedChunk(chunks[0]) + tail;
      EmptyChunk(chunks[0]);
      if chunks[0] == [] {
        assert [] + tail == tail && [] + Flat(chunks[1..]) == Flat(chunks[1..]);
      } else {
        ChunkRead(strict, extensions, chunks[0], tail);
      }
    }
  }

  lemma EmptyChunk(chunk: Bytes)
    ensures chunk == [] ==> EncodedChunk(chunk) == []
  {
  }
}
