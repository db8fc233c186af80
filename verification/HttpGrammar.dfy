/**
 What the readers take, told by what a sender may write: lines and heads ended
 either way, and the chunked coding with digits of either case, extensions and
 trailers (sections 2.2 and 7.1 of RFC 9112).
 */
module HttpGrammar {
  import opened Wrappers
  import opened HttpReader
  import opened HttpChunked

  // ---------------------------------------------------------------------------
  // Lines

  /** A line ends with CR LF, or, where the reader is not strict, with LF alone. */
  predicate Ends(strict: bool, ending: Bytes)
  {
    ending == [13, 10] || (!strict && ending == [10])
  }

  lemma EndedBy(strict: bool, text: Bytes, ending: Bytes, rest: Bytes)
    requires 10 !in text && (ending == [13, 10] || ending == [10])
    ensures IndexOf(text + ending + rest, LF) == |text| + |ending| - 1
    ensures (text + ending + rest)[..|text| + |ending|] == text + ending
    ensures (text + ending + rest)[|text| + |ending|..] == rest
  {
    if ending == [13, 10] {
      IndexAfter(text + [13], rest, LF);
      assert text + ending + rest == text + [13] + [LF] + rest;
    } else {
      IndexAfter(text, rest, LF);
    }
  }

  /**
   A line of at most 8192 bytes with its ending is read as its text, less a byte
   order mark; a strict reader refuses an LF alone, and a CR within the text. A
   longer one is too long.
   */
  lemma LineExactly(strict: bool, text: Bytes, ending: Bytes, rest: Bytes)
    requires 10 !in text && (ending == [13, 10] || (ending == [10] && (text == [] || text[|text| - 1] != 13)))
    ensures var stream := text + ending + rest;
            LineOf(strict, stream)
            == (if |text| + |ending| > 8192 then LineTooLong
                else if strict && (ending == [10] || 13 in text) then BadEnding
                else Line(TextOf(text)))
    ensures |text| + |ending| <= 8192 ==> AfterLine(strict, text + ending + rest) == rest
  {
    hide TextOf;
    EndedBy(strict, text, ending, rest);
    assert (text + ending)[..|text|] == text;
  }

  /** A stream without an LF has no line in it: it is too long already, or more must come. */
  lemma NoLineExactly(strict: bool, stream: Bytes)
    requires 10 !in stream
    ensures LineOf(strict, stream) == if |stream| > 8192 then LineTooLong else LineEnded
  {
  }

  // ---------------------------------------------------------------------------
  // Heads

  /** The bytes end with an empty line: after a CR LF, or, where the reader is not strict, after an LF. */
  predicate EndsBlank(strict: bool, b: Bytes)
  {
    var n := |b|;
    if strict then n >= 4 && b[n - 4..] == [13, 10, 13, 10]
    else (n >= 2 && b[n - 2..] == [10, 10]) || (n >= 3 && b[n - 3..] == [10, 13, 10])
  }

  lemma BlankAt(strict: bool, b: Bytes, i: nat, end: nat)
    requires end <= |b|
    requires BlankLineAt(strict, b, i) == Some(end)
    ensures i < end && EndsBlank(strict, b[..end])
  {
    SliceOfSlice(b, i, end);
    if strict {
      assert b[i..end] == [13, 10, 13, 10];
    } else if end == i + 2 {
      assert b[i..end] == [10, 10];
    } else {
      assert b[i..end] == [10, 13, 10];
    }
  }

  lemma SliceOfSlice(b: Bytes, i: nat, end: nat)
    requires i <= end <= |b|
    ensures b[..end][i..] == b[i..end]
  {
  }

  /** Where a prefix ends with an empty line, that line is found there. */
  lemma BlankIsAt(strict: bool, b: Bytes, end: nat) returns (i: nat)
    requires end <= |b| && EndsBlank(strict, b[..end])
    ensures i < end && BlankLineAt(strict, b, i) == Some(end)
  {
    var c := b[..end];
    if strict {
      i := end - 4;
      assert c[i..][0] == b[i] && c[i..][1] == b[i + 1] && c[i..][2] == b[i + 2] && c[i..][3] == b[i + 3];
    } else if end >= 2 && c[end - 2..] == [10, 10] {
      i := end - 2;
      assert c[i..][0] == b[i] && c[i..][1] == b[i + 1];
    } else {
      i := end - 3;
      assert c[i..][0] == b[i] && c[i..][1] == b[i + 1] && c[i..][2] == b[i + 2];
    }
  }

  /** Blank lines that start earlier end earlier. */
  lemma BlanksInOrder(strict: bool, b: Bytes, i: nat, j: nat)
    requires i < j && BlankLineAt(strict, b, i).Some? && BlankLineAt(strict, b, j).Some?
    ensures BlankLineAt(strict, b, i).value < BlankLineAt(strict, b, j).value
  {
  }

  /**
   A head is read exactly if it ends with an empty line, nothing shorter does, and
   it is within 65536 bytes.
   */
  lemma HeadExactly(strict: bool, stream: Bytes, end: nat)
    requires end <= |stream|
    ensures HeadOf(strict, stream) == Head(stream[..end])
       <==> && EndsBlank(strict, stream[..end]) && end <= 65536
            && forall n :: 0 <= n < end ==> !EndsBlank(strict, stream[..n])
  {
    hide BlankLineAt, EndsBlank;
    var first := FirstBlankLine(strict, stream, 0);
    if first.Some? {
      var i := FirstIsSomewhere(strict, stream, 0);
      BlankAt(strict, stream, i, first.value);
      forall n: nat | n < first.value ensures !EndsBlank(strict, stream[..n]) {
        if EndsBlank(strict, stream[..n]) {
          var j := BlankIsAt(strict, stream, n);
          FoundFirst(strict, stream, 0, j);
        }
      }
      if first.value != end { assert |stream[..first.value]| != |stream[..end]|; }
    } else if EndsBlank(strict, stream[..end]) {
      var j := BlankIsAt(strict, stream, end);
      FoundFirst(strict, stream, 0, j);
    }
  }

  lemma {:induction false} FoundFirst(strict: bool, b: Bytes, from: nat, j: nat)
    requires from <= j < |b| && BlankLineAt(strict, b, j).Some?
    ensures FirstBlankLine(strict, b, from).Some?
    ensures FirstBlankLine(strict, b, from).value <= BlankLineAt(strict, b, j).value
    decreases |b| - from
  {
    if BlankLineAt(strict, b, from).Some? {
      if from < j { BlanksInOrder(strict, b, from, j); }
    } else {
      hide BlankLineAt;
      FoundFirst(strict, b, from + 1, j);
    }
  }

  // ---------------------------------------------------------------------------
  // Sizes

  const Lower: string := "0123456789abcdef"
  const Upper: string := "0123456789ABCDEF"

  /** A digit stands for its place among the sixteen, in either case; nothing else is one. */
  lemma DigitExactly(x: byte, k: nat)
    requires k < 16
    ensures DigitValue(x) == Some(k) <==> x as int == Lower[k] as int || x as int == Upper[k] as int
    ensures DigitValue(x).Some? ==> DigitValue(x).value < 16
  {
    assert Lower == ['0', '1', '2', '3', '4', '5', '6', '7', '8', '9', 'a', 'b', 'c', 'd', 'e', 'f'];
    assert Upper == ['0', '1', '2', '3', '4', '5', '6', '7', '8', '9', 'A', 'B', 'C', 'D', 'E', 'F'];
  }

  /** A chunk as some sender writes it: its size in digits, an extension, and its data. */
  datatype Written = Written(digits: Bytes, extension: Bytes, data: Bytes)

  /** Nothing in a line's text ends it, and it does not begin like a byte order mark. */
  predicate IsText(text: Bytes)
  {
    10 !in text && 13 !in text && (text != [] ==> text[0] != 0xef)
  }

  /** A size line: digits, then an extension that the grammar has and that begins with no digit. */
  predicate IsSizeLine(extensions: Bytes -> bool, digits: Bytes, extension: Bytes)
  {
    && digits != [] && AllDigits(digits) && HexValue(digits) <= 0x1f_ffff_ffff_ffff
    && extensions(extension) && (extension != [] ==> DigitValue(extension[0]).None?)
    && IsText(digits + extension) && |digits| + |extension| <= 8190
  }

  lemma {:induction false} DigitsBefore(digits: Bytes, extension: Bytes)
    requires AllDigits(digits) && (extension != [] ==> DigitValue(extension[0]).None?)
    ensures DigitCount(digits + extension) == |digits|
  {
    if digits == [] {
      assert [] + extension == extension;
    } else {
      assert (digits + extension)[1..] == digits[1..] + extension;
      DigitsBefore(digits[1..], extension);
    }
  }

  lemma SizeLineTaken(strict: bool, extensions: Bytes -> bool, digits: Bytes, extension: Bytes, ending: Bytes,
                      rest: Bytes)
    requires IsSizeLine(extensions, digits, extension) && Ends(strict, ending)
    ensures var stream := digits + extension + ending + rest;
            && LineOf(strict, stream) == Line(digits + extension) && AfterLine(strict, stream) == rest
            && SizeOf(extensions, digits + extension) == Size(HexValue(digits))
  {
    hide LineOf, AfterLine, HexValue, DigitValue;
    LineExactly(strict, digits + extension, ending, rest);
    DigitsBefore(digits, extension);
    var text := digits + extension;
    assert text[..|digits|] == digits && text[|digits|..] == extension;
  }

  /** A size line is refused exactly if it begins with no digit, has a wrong extension, or says more than 2^53 - 1. */
  lemma SizeExactly(extensions: Bytes -> bool, digits: Bytes, extension: Bytes)
    requires AllDigits(digits) && (extension != [] ==> DigitValue(extension[0]).None?)
    ensures SizeOf(extensions, digits + extension)
         == if digits == [] || !extensions(extension) then BadSize
            else if HexValue(digits) > 9007199254740991 then SizeTooLarge
            else Size(HexValue(digits))
  {
    DigitsBefore(digits, extension);
    var text := digits + extension;
    assert text[..|digits|] == digits && text[|digits|..] == extension;
  }

  /** What stands between two chunks is an empty line, and nothing else. */
  lemma BoundaryExactly(strict: bool, extensions: Bytes -> bool, text: Bytes, ending: Bytes, rest: Bytes)
    requires IsText(text) && Ends(strict, ending) && |text| <= 8190
    ensures NextSize(strict, extensions, true, text + ending + rest)
         == if text == [] then NextSize(strict, extensions, false, rest) else Malformed
  {
    hide LineOf, AfterLine, SizeOf, Trailers;
    LineExactly(strict, text, ending, rest);
  }

  // ---------------------------------------------------------------------------
  // Trailers

  predicate AreTrailers(trailers: seq<Bytes>)
  {
    forall i :: 0 <= i < |trailers| ==> trailers[i] != [] && IsText(trailers[i]) && |trailers[i]| <= 8190
  }

  function TrailerBytes(trailers: seq<Bytes>, ending: Bytes): Bytes
  {
    if trailers == [] then ending else trailers[0] + ending + TrailerBytes(trailers[1..], ending)
  }

  /** Their length as it is counted: two bytes for each line's ending, the empty line's too. */
  function TrailerLength(trailers: seq<Bytes>): nat
  {
    if trailers == [] then 2 else |trailers[0]| + 2 + TrailerLength(trailers[1..])
  }

  /** Trailers are passed over exactly if they are within 65536 bytes. */
  lemma {:induction false} TrailersExactly(strict: bool, trailers: seq<Bytes>, ending: Bytes, rest: Bytes, before: nat)
    requires AreTrailers(trailers) && Ends(strict, ending)
    ensures Trailers(strict, TrailerBytes(trailers, ending) + rest, before)
         == if before + TrailerLength(trailers) <= 65536 then Some(rest) else None
    decreases |trailers|
  {
    hide LineOf, AfterLine;
    if trailers == [] {
      LineExactly(strict, [], ending, rest);
      assert [] + ending + rest == ending + rest;
    } else {
      var tail := TrailerBytes(trailers[1..], ending) + rest;
      LineExactly(strict, trailers[0], ending, tail);
      TrailersExactly(strict, trailers[1..], ending, rest, before + |trailers[0]| + 2);
      assert TrailerBytes(trailers, ending) + rest == trailers[0] + ending + tail;
    }
  }

  // ---------------------------------------------------------------------------
  // The coding

  predicate IsWritten(extensions: Bytes -> bool, c: Written)
  {
    IsSizeLine(extensions, c.digits, c.extension) && HexValue(c.digits) == |c.data| && c.data != []
  }

  predicate AllWritten(extensions: Bytes -> bool, chunks: seq<Written>)
  {
    forall i :: 0 <= i < |chunks| ==> IsWritten(extensions, chunks[i])
  }

  /** Chunks, the last chunk, trailers and an empty line, with every line ended alike. */
  function Coding(chunks: seq<Written>, zeros: Bytes, extension: Bytes, trailers: seq<Bytes>, ending: Bytes): Bytes
  {
    if chunks == [] then zeros + extension + ending + TrailerBytes(trailers, ending)
    else
      var c := chunks[0];
      c.digits + c.extension + ending + (c.data + ending + Coding(chunks[1..], zeros, extension, trailers, ending))
  }

  function AllData(chunks: seq<Written>): Bytes
  {
    if chunks == [] then [] else chunks[0].data + AllData(chunks[1..])
  }

  lemma LastIsRead(strict: bool, extensions: Bytes -> bool, zeros: Bytes, extension: Bytes, trailers: seq<Bytes>,
                   ending: Bytes, rest: Bytes)
    requires IsSizeLine(extensions, zeros, extension) && HexValue(zeros) == 0
    requires AreTrailers(trailers) && Ends(strict, ending)
    ensures Decoded(strict, extensions, 0, false, zeros + extension + ending + TrailerBytes(trailers, ending) + rest)
         == if TrailerLength(trailers) <= 65536 then Some(([], rest)) else None
  {
    hide LineOf, AfterLine, SizeOf, HexValue, IsSizeLine, Trailers, TrailerBytes, TrailerLength, AreTrailers;
    var tail := TrailerBytes(trailers, ending) + rest;
    SizeLineTaken(strict, extensions, zeros, extension, ending, tail);
    TrailersExactly(strict, trailers, ending, rest, 0);
    assert zeros + extension + ending + TrailerBytes(trailers, ending) + rest == zeros + extension + ending + tail;
  }

  lemma ChunkIsRead(strict: bool, extensions: Bytes -> bool, c: Written, ending: Bytes, more: Bytes)
    requires IsWritten(extensions, c) && Ends(strict, ending)
    ensures Decoded(strict, extensions, 0, false, c.digits + c.extension + ending + (c.data + (ending + more)))
         == Prefixed(c.data, Decoded(strict, extensions, 0, false, more))
  {
    hide LineOf, AfterLine, SizeOf, HexValue, IsSizeLine, Trailers, Prefixed;
    SizeLineTaken(strict, extensions, c.digits, c.extension, ending, c.data + (ending + more));
    DataRead(strict, extensions, c.data, ending, more);
  }

  lemma DataRead(strict: bool, extensions: Bytes -> bool, data: Bytes, ending: Bytes, more: Bytes)
    requires data != [] && Ends(strict, ending)
    ensures Decoded(strict, extensions, |data|, false, data + (ending + more))
         == Prefixed(data, Decoded(strict, extensions, 0, false, more))
  {
    hide NextSize;
    BoundaryExactly(strict, extensions, [], ending, more);
    assert [] + ending + more == ending + more;
    var stream := data + (ending + more);
    assert stream[..|data|] == data && stream[|data|..] == ending + more;
  }

  lemma CodingSplits(chunks: seq<Written>, zeros: Bytes, extension: Bytes, trailers: seq<Bytes>, ending: Bytes,
                     rest: Bytes)
    ensures Coding(chunks, zeros, extension, trailers, ending) + rest
         == if chunks == [] then zeros + extension + ending + TrailerBytes(trailers, ending) + rest
            else
              var c := chunks[0];
              var more := Coding(chunks[1..], zeros, extension, trailers, ending) + rest;
              c.digits + c.extension + ending + (c.data + (ending + more))
  {
    hide TrailerBytes;
  }

  /**
   Whatever digits, extensions and trailers a sender writes, the coding is read as
   its data, and what follows it is left; unless its trailers are too long, when
   it is refused.
   */
  lemma {:induction false} AnyCodingIsRead(strict: bool, extensions: Bytes -> bool, chunks: seq<Written>,
                                           zeros: Bytes, extension: Bytes, trailers: seq<Bytes>, ending: Bytes,
                                           rest: Bytes)
    requires AllWritten(extensions, chunks) && AreTrailers(trailers) && Ends(strict, ending)
    requires IsSizeLine(extensions, zeros, extension) && HexValue(zeros) == 0
    ensures Decoded(strict, extensions, 0, false, Coding(chunks, zeros, extension, trailers, ending) + rest)
         == if TrailerLength(trailers) <= 65536 then Some((AllData(chunks), rest)) else None
    decreases |chunks|
  {
    hide Decoded, IsSizeLine, IsWritten, TrailerBytes, TrailerLength, Ends, Coding, HexValue, AreTrailers;
    CodingSplits(chunks, zeros, extension, trailers, ending, rest);
    if chunks == [] {
      LastIsRead(strict, extensions, zeros, extension, trailers, ending, rest);
    } else {
      var more := Coding(chunks[1..], zeros, extension, trailers, ending) + rest;
      AnyCodingIsRead(strict, extensions, chunks[1..], zeros, extension, trailers, ending, rest);
      var c := chunks[0];
      ChunkIsRead(strict, extensions, c, ending, more);
    }
  }
}
