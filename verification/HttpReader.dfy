/**
 The buffered reader of packages/linux-guest/src/http.ts over a byte stream
 that arrives in arbitrary pieces. What each read returns is a function of the
 bytes alone, not of how they were cut.
 */
module HttpReader {
  import opened Wrappers

  const MaxHead: nat := 65536
  const MaxLine: nat := 8192
  const CR: byte := 13
  const LF: byte := 10

  // ---------------------------------------------------------------------------
  // What a read of a whole stream gives

  function IndexOf(b: Bytes, x: byte): (i: nat)
    ensures i <= |b| && (i < |b| ==> b[i] == x)
    ensures forall j :: 0 <= j < i ==> b[j] != x
  {
    if b == [] then 0 else if b[0] == x then 0 else 1 + IndexOf(b[1..], x)
  }

  datatype LineResult = Line(text: Bytes) | BadEnding | LineTooLong | LineEnded

  const ByteOrderMark: Bytes := [0xef, 0xbb, 0xbf]

  /** What a decoder keeps of a line's bytes: all but a byte order mark at their start. */
  function TextOf(bytes: Bytes): Bytes
  {
    if |bytes| >= 3 && bytes[..3] == ByteOrderMark then bytes[3..] else bytes
  }

  /** The text of a line once its LF, and a CR before it, are off. */
  function LineText(strict: bool, bytes: Bytes): Option<Bytes>
    requires bytes != []
  {
    var index := |bytes| - 1;
    var end := if index > 0 && bytes[index - 1] == CR then index - 1 else index;
    if strict && (end == index || CR in bytes[..end]) then None else Some(TextOf(bytes[..end]))
  }

  function LineOf(strict: bool, stream: Bytes): LineResult
  {
    var index := IndexOf(stream, LF);
    if index == |stream| then (if |stream| > MaxLine then LineTooLong else LineEnded)
    else if index + 1 > MaxLine then LineTooLong
    else
      match LineText(strict, stream[..index + 1])
      case Some(text) => Line(text)
      case None => BadEnding
  }

  /** What a line leaves of the stream; one that ends wrongly is consumed all the same. */
  function AfterLine(strict: bool, stream: Bytes): Bytes
  {
    var r := LineOf(strict, stream);
    if r.Line? || r.BadEnding? then stream[IndexOf(stream, LF) + 1..] else stream
  }

  datatype HeadResult = Head(bytes: Bytes) | NoHead | HeadTooLarge | HeadEnded

  /** The end of the blank line that starts with the line ending at i, if it is there. */
  function BlankLineAt(strict: bool, b: Bytes, i: nat): Option<nat>
  {
    if strict then
      if i + 3 < |b| && b[i] == CR && b[i + 1] == LF && b[i + 2] == CR && b[i + 3] == LF then Some(i + 4) else None
    else if i + 1 < |b| && b[i] == LF && b[i + 1] == LF then Some(i + 2)
    else if i + 2 < |b| && b[i] == LF && b[i + 1] == CR && b[i + 2] == LF then Some(i + 3)
    else None
  }

  function FirstBlankLine(strict: bool, b: Bytes, i: nat): (r: Option<nat>)
    ensures r.Some? ==> r.value <= |b|
    decreases |b| - i
  {
    if i >= |b| then None
    else if BlankLineAt(strict, b, i).Some? then BlankLineAt(strict, b, i)
    else FirstBlankLine(strict, b, i + 1)
  }

  function HeadOf(strict: bool, stream: Bytes): HeadResult
  {
    match FirstBlankLine(strict, stream, 0)
    case Some(end) =>
      if end > MaxHead then HeadTooLarge else Head(stream[..end])
    case None =>
      if |stream| > MaxHead then HeadTooLarge else if stream == [] then NoHead else HeadEnded
  }

  // ---------------------------------------------------------------------------
  // Prefixes

  predicate NoneBefore(strict: bool, b: Bytes, i: nat)
  {
    forall j :: 0 <= j < i ==> BlankLineAt(strict, b, j).None?
  }

  lemma {:induction false} FirstIs(strict: bool, b: Bytes, from: nat, i: nat)
    requires from <= i <= |b| && forall j :: from <= j < i ==> BlankLineAt(strict, b, j).None?
    ensures i < |b| && BlankLineAt(strict, b, i).Some? ==> FirstBlankLine(strict, b, from) == BlankLineAt(strict, b, i)
    ensures i == |b| ==> FirstBlankLine(strict, b, from) == None
    decreases i - from
  {
    if from < i { FirstIs(strict, b, from + 1, i); }
  }

  /** Seen a blank line in what has arrived: it is the first of the whole stream. */
  lemma FirstOfWhole(strict: bool, b: Bytes, more: Bytes, i: nat)
    requires i < |b| && BlankLineAt(strict, b, i).Some? && NoneBefore(strict, b, i)
    ensures FirstBlankLine(strict, b + more, 0) == BlankLineAt(strict, b, i)
    ensures BlankLineAt(strict, b, i).value <= |b|
  {
    forall j | 0 <= j < i ensures BlankLineAt(strict, b + more, j).None? {
      assert BlankLineAt(strict, b, j).None?;
    }
    FirstIs(strict, b + more, 0, i);
  }

  /** Positions with three bytes behind them need not be looked at again. */
  lemma SettledPositions(strict: bool, b: Bytes, more: Bytes, searched: nat)
    requires NoneBefore(strict, b, |b|) && searched + 3 <= |b|
    ensures NoneBefore(strict, b + more, searched)
  {
    forall j | 0 <= j < searched ensures BlankLineAt(strict, b + more, j).None? {
      assert BlankLineAt(strict, b, j).None?;
    }
  }

  /** No blank line within the limit can still come. */
  lemma TooLargeAnyway(strict: bool, b: Bytes, more: Bytes)
    requires NoneBefore(strict, b, |b|) && |b| > MaxHead
    ensures HeadOf(strict, b + more) == HeadTooLarge
  {
    var whole := b + more;
    var n := |b| - 3;
    SettledPositions(strict, b, more, n);
    FirstAfter(strict, whole, 0, n);
    if FirstBlankLine(strict, whole, 0).Some? {
      EndWithin(strict, b, more);
    }
  }

  lemma {:induction false} FirstAfter(strict: bool, b: Bytes, from: nat, i: nat)
    requires from <= i <= |b| && forall j :: from <= j < i ==> BlankLineAt(strict, b, j).None?
    ensures FirstBlankLine(strict, b, from) == FirstBlankLine(strict, b, i)
    decreases i - from
  {
    if from < i { FirstAfter(strict, b, from + 1, i); }
  }

  lemma {:induction false} FirstIsSomewhere(strict: bool, b: Bytes, from: nat) returns (i: nat)
    requires FirstBlankLine(strict, b, from).Some?
    ensures from <= i < |b| && FirstBlankLine(strict, b, from) == BlankLineAt(strict, b, i)
            && BlankLineAt(strict, b, i).Some?
    decreases |b| - from
  {
    if BlankLineAt(strict, b, from).Some? { i := from; } else { i := FirstIsSomewhere(strict, b, from + 1); }
  }

  /** A blank line of the whole stream that is not one of a prefix ends beyond that prefix. */
  lemma EndWithin(strict: bool, b: Bytes, more: Bytes)
    requires NoneBefore(strict, b, |b|) && FirstBlankLine(strict, b + more, 0).Some?
    ensures FirstBlankLine(strict, b + more, 0).value > |b|
  {
    var i := FirstIsSomewhere(strict, b + more, 0);
    if i < |b| { assert BlankLineAt(strict, b, i).None?; }
  }

  // ---------------------------------------------------------------------------
  // The program

  class ByteReader {
    const strict: bool
    var buffer: Bytes
    var source: seq<Bytes>          // the pieces the stream has yet to deliver
    var ended: bool

    constructor (source: seq<Bytes>, strict: bool)
      ensures Valid() && Stream() == Flat(source) && this.strict == strict
    {
      this.strict := strict;
      this.source := source;
      buffer := [];
      ended := false;
    }

    ghost predicate Valid()
      reads this
    {
      ended ==> source == []
    }

    /** Everything still to be read: what is buffered and what is to come. */
    ghost function Stream(): Bytes
      reads this
    {
      buffer + Flat(source)
    }

    /** fill: one more non-empty piece, or the end. */
    method Fill() returns (more: bool)
      requires Valid()
      modifies this
      ensures Valid() && Stream() == old(Stream())
      ensures more ==> old(buffer) < buffer && |source| < |old(source)|
      ensures !more ==> buffer == old(buffer) && source == []
    {
      while !ended
        invariant Valid() && buffer == old(buffer) && Flat(source) == Flat(old(source)) && |source| <= |old(source)|
        decreases |source|, !ended
      {
        if source == [] {
          ended := true;
          return false;
        }
        var value := source[0];
        source := source[1..];
        if value == [] {
          assert [] + Flat(source) == Flat(source);
          continue;
        }
        buffer := buffer + value;
        assert old(buffer) + (value + Flat(source)) == buffer + Flat(source);
        return true;
      }
      return false;
    }

    /** consume: the first bytes of the buffer. */
    method Consume(length: nat) returns (bytes: Bytes)
      requires Valid() && length <= |buffer|
      modifies this`buffer
      ensures Valid() && bytes == old(buffer)[..length] && buffer == old(buffer)[length..]
      ensures bytes + Stream() == old(Stream())
    {
      bytes := buffer[..length];
      buffer := buffer[length..];
      assert bytes + (buffer + Flat(source)) == (bytes + buffer) + Flat(source);
    }

    /** head: however the stream is cut, what HeadOf says of its bytes. */
    method ReadHead() returns (r: HeadResult)
      requires Valid()
      modifies this
      ensures Valid() && r == HeadOf(strict, old(Stream()))
      ensures r.Head? ==> r.bytes + Stream() == old(Stream())
      ensures !r.Head? ==> Stream() == old(Stream())
    {
      hide BlankLineAt, FirstBlankLine, Flat;
      ghost var whole := Stream();
      var searched: nat := 0;
      while true
        invariant Valid() && Stream() == whole && searched <= |buffer|
        invariant NoneBefore(strict, whole, searched)
        decreases |source|
      {
        var b := buffer;
        ghost var more := Flat(source);
        PrefixHasNone(strict, b, more, searched);
        var index: nat := searched;
        while index + 1 < |b|
          invariant searched <= index <= |b| && NoneBefore(strict, b, index)
        {
          var end := BlankLineAt(strict, b, index);
          if end.Some? {
            FirstOfWhole(strict, b, more, index);
            if end.value > MaxHead {
              return HeadTooLarge;
            }
            var bytes := Consume(end.value);
            assert bytes == whole[..end.value];
            return Head(bytes);
          }
          index := index + 1;
        }
        LastPosition(strict, b, index);
        searched := if |b| < 3 then 0 else |b| - 3;
        if |b| >= 3 { SettledPositions(strict, b, more, searched); }
        if |b| > MaxHead {
          TooLargeAnyway(strict, b, more);
          return HeadTooLarge;
        }
        var filled := Fill();
        if !filled {
          FlatNone();
          assert b + [] == b;
          FirstIs(strict, b, 0, |b|);
          return if b == [] then NoHead else HeadEnded;
        }
      }
    }

    /** line: likewise. A line that ends wrongly has been consumed. */
    method ReadLine() returns (r: LineResult)
      requires Valid()
      modifies this
      ensures Valid() && r == LineOf(strict, old(Stream()))
      ensures Stream() == AfterLine(strict, old(Stream()))
    {
      hide Flat, TextOf;
      ghost var whole := Stream();
      while true
        invariant Valid() && Stream() == whole
        decreases |source|
      {
        var index := IndexOf(buffer, LF);
        ghost var more := Flat(source);
        IndexInWhole(buffer, more, LF);
        if index < |buffer| {
          if index + 1 > MaxLine {
            return LineTooLong;
          }
          ghost var b := buffer;
          var bytes := Consume(index + 1);
          assert bytes == whole[..index + 1] && whole[index + 1..] == Stream();
          var end := if index > 0 && bytes[index - 1] == CR then index - 1 else index;
          if strict {
            if end == index {
              return BadEnding;
            }
            for at := 0 to end
              invariant CR !in bytes[..at]
            {
              if bytes[at] == CR {
                assert CR in bytes[..end];
                return BadEnding;
              }
              assert bytes[..at + 1] == bytes[..at] + [bytes[at]];
            }
          }
          return Line(TextOf(bytes[..end]));
        }
        if |buffer| > MaxLine {
          return LineTooLong;
        }
        var filled := Fill();
        if !filled {
          FlatNone();
          assert buffer + [] == buffer;
          return LineEnded;
        }
      }
    }

    /** take: some of the next bytes, at most limit of them, and none only at the end. */
    method Take(limit: nat) returns (r: Option<Bytes>)
      requires Valid() && limit > 0
      modifies this
      ensures Valid()
      ensures r.None? <==> old(Stream()) == []
      ensures r.None? ==> Stream() == []
      ensures r.Some? ==> 0 < |r.value| <= limit && r.value + Stream() == old(Stream())
    {
      if buffer == [] {
        var filled := Fill();
        if !filled {
          return None;
        }
      }
      var bytes := Consume(if limit < |buffer| then limit else |buffer|);
      return Some(bytes);
    }
  }

  lemma FlatNone()
    ensures Flat([]) == []
  {
  }

  lemma PrefixHasNone(strict: bool, b: Bytes, more: Bytes, i: nat)
    requires i <= |b| && NoneBefore(strict, b + more, i)
    ensures NoneBefore(strict, b, i)
  {
    forall j | 0 <= j < i ensures BlankLineAt(strict, b, j).None? {
      assert BlankLineAt(strict, b + more, j).None?;
    }
  }

  lemma LastPosition(strict: bool, b: Bytes, i: nat)
    requires NoneBefore(strict, b, i) && i <= |b| <= i + 1
    ensures NoneBefore(strict, b, |b|)
  {
  }

  lemma {:induction false} IndexInWhole(b: Bytes, more: Bytes, x: byte)
    ensures IndexOf(b, x) < |b| ==> IndexOf(b + more, x) == IndexOf(b, x)
    ensures IndexOf(b, x) == |b| ==> IndexOf(b + more, x) >= |b|
  {
    if b != [] {
      assert (b + more)[1..] == b[1..] + more;
      IndexInWhole(b[1..], more, x);
    }
  }
}
