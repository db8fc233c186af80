/** The Internet checksum (RFC 1071) as packages/linux-guest/src/network.ts computes it. */
module Checksum {
  import opened Wrappers
  import opened BigEndian

  /** The sum of the big-endian 16-bit words, an odd last byte padded with zero. */
  function Sum(b: Bytes): nat
  {
    if |b| == 0 then 0
    else if |b| == 1 then b[0] * 256
    else b[0] * 256 + b[1] + Sum(b[2..])
  }

  /** `sum >>> 16` of a JavaScript number: only its low 32 bits take part. */
  function HighHalf(sum: nat): nat
  {
    sum % 0x1_0000_0000 / 0x1_0000
  }

  /** The end-around carry loop. */
  function Folded(sum: nat): nat
    decreases sum
  {
    if HighHalf(sum) == 0 then sum else FoldShrinks(sum); Folded(sum % 0x1_0000 + HighHalf(sum))
  }

  lemma FoldShrinks(sum: nat)
    ensures HighHalf(sum) != 0 ==> sum % 0x1_0000 + HighHalf(sum) < sum
  {
  }

  /** What the checksum of these bytes is. */
  function ChecksumOf(b: Bytes): (c: nat)
    ensures c < 0x1_0000
  {
    0xffff - Folded(Sum(b)) % 0x1_0000
  }

  lemma {:induction false} SumOfEven(a: Bytes, b: Bytes)
    requires |a| % 2 == 0
    ensures Sum(a + b) == Sum(a) + Sum(b)
    decreases |a|
  {
    if a == [] {
      assert a + b == b;
    } else {
      assert (a + b)[2..] == a[2..] + b;
      SumOfEven(a[2..], b);
    }
  }

  /** The state the loop carries across bytes and parts: whole words summed, and an odd byte waiting. */
  predicate Summing(done: Bytes, sum: nat, high: Option<byte>)
  {
    match high
    case None => |done| % 2 == 0 && sum == Sum(done)
    case Some(h) => |done| > 0 && |done| % 2 == 1 && done[|done| - 1] == h && sum == Sum(done[..|done| - 1])
  }

  lemma SummingStep(done: Bytes, sum: nat, high: Option<byte>, x: byte)
    requires Summing(done, sum, high)
    ensures high.None? ==> Summing(done + [x], sum, Some(x))
    ensures high.Some? ==> Summing(done + [x], sum + high.value * 256 + x, None)
  {
    match high
    case None => assert (done + [x])[..|done|] == done;
    case Some(h) =>
      var n := |done| - 1;
      SumOfEven(done[..n], [h, x]);
      assert done + [x] == done[..n] + [h, x];
  }

  lemma SummingEnd(done: Bytes, sum: nat, high: Option<byte>)
    requires Summing(done, sum, high)
    ensures Sum(done) == sum + if high.Some? then high.value * 256 else 0
  {
    if high.Some? {
      var n := |done| - 1;
      SumOfEven(done[..n], [high.value]);
      assert done == done[..n] + [high.value];
    }
  }

  /** The result depends only on the concatenation of the parts, however they are cut, odd lengths included. */
  method Checksum(parts: seq<Bytes>) returns (c: nat)
    ensures c == ChecksumOf(Flat(parts))
  {
    var sum: nat := 0;
    var high: Option<byte> := None;
    for i := 0 to |parts|
      invariant Summing(Flat(parts[..i]), sum, high)
    {
      var part := parts[i];
      ghost var before := Flat(parts[..i]);
      assert before + part[..0] == before;
      for j := 0 to |part|
        invariant Summing(before + part[..j], sum, high)
      {
        hide Summing, Flat;
        SummingStep(before + part[..j], sum, high, part[j]);
        assert before + part[..j + 1] == before + part[..j] + [part[j]];
        if high.None? {
          high := Some(part[j]);
        } else {
          sum, high := sum + high.value * 256 + part[j], None;
        }
      }
      assert part[..|part|] == part;
      assert parts[..i + 1] == parts[..i] + [part];
      FlatAppend(parts[..i], part);
    }
    assert parts[..|parts|] == parts;
    SummingEnd(Flat(parts), sum, high);
    if high.Some? {
      sum := sum + high.value * 256;
    }
    while HighHalf(sum) != 0
      invariant Folded(sum) == Folded(Sum(Flat(parts)))
      decreases sum
    {
      FoldShrinks(sum);
      sum := sum % 0x1_0000 + HighHalf(sum);
    }
    c := 0xffff - sum % 0x1_0000;
  }

  // ---------------------------------------------------------------------------
  // What the checksum is for

  lemma {:induction false} SumBound(b: Bytes)
    ensures Sum(b) <= 0xffff * ((|b| + 1) / 2)
    decreases |b|
  {
    if |b| >= 2 {
      SumBound(b[2..]);
    }
  }

  /** The most a TCP segment and its pseudo-header can hold: 12 + 65515 bytes. */
  const MaxChecked: nat := 12 + 65515

  /** For every legal segment the running sum is exact: no part of it is lost by the 32-bit shift. */
  lemma SumFitsShift(b: Bytes)
    requires |b| <= MaxChecked
    ensures Sum(b) < 0x1_0000_0000
  {
    SumBound(b);
  }

  /** The loop computes the residue modulo 0xffff, with 0xffff rather than 0 for non-zero sums. */
  lemma {:induction false} FoldedResidue(sum: nat)
    requires sum < 0x1_0000_0000
    ensures Folded(sum) == if sum == 0 then 0 else (sum - 1) % 0xffff + 1
    decreases sum
  {
    if HighHalf(sum) != 0 {
      var q, r := sum / 0x1_0000, sum % 0x1_0000;
      assert HighHalf(sum) == q;
      FoldedResidue(r + q);
      assert sum - 1 == (r + q - 1) + 0xffff * q;
      ResidueShift(r + q - 1, q);
    }
  }

  lemma ResidueShift(x: nat, q: nat)
    ensures (x + 0xffff * q) % 0xffff == x % 0xffff
  {
  }

  /** Storing a 16-bit value big-endian at an even offset that held zero adds it to the sum. */
  lemma {:induction false} StoredSum(b: Bytes, at: nat, v: nat)
    requires at % 2 == 0 && at + 2 <= |b| && b[at] == 0 && b[at + 1] == 0 && v < 0x1_0000
    ensures Sum(Stored(b, at, v)) == Sum(b) + v
  {
    var word: Bytes := [v / 256, v % 256];
    var zero: Bytes := [0, 0];
    SumOfEven(b[..at], zero + b[at + 2..]);
    SumOfEven(zero, b[at + 2..]);
    SumOfEven(b[..at], word + b[at + 2..]);
    SumOfEven(word, b[at + 2..]);
    assert b == b[..at] + (zero + b[at + 2..]);
    assert Stored(b, at, v) == b[..at] + (word + b[at + 2..]);
    assert word[2..] == [] && zero[2..] == [];
  }

  function Stored(b: Bytes, at: nat, v: nat): Bytes
    requires at + 2 <= |b| && v < 0x1_0000
  {
    b[..at] + [v / 256, v % 256] + b[at + 2..]
  }

  lemma Residues(s: nat, v: nat)
    requires 0 < s && v < 0x1_0000
    ensures var f := (s - 1) % 0xffff + 1;
            (s + v - 1) % 0xffff + 1 == 0xffff <==> f + v == 0xffff || f + v == 2 * 0xffff
  {
    var f := (s - 1) % 0xffff + 1;
    var k := (s - 1) / 0xffff;
    ResidueShift(f + v - 1, k);
    assert s + v - 1 == f + v - 1 + 0xffff * k;
  }

  /**
   A receiver that sums everything, checksum included, gets 0xffff; and of all
   values the field could hold, only the checksum passes that test, or the other
   zero of one's complement arithmetic when the checksum is 0.
   */
  lemma StoredChecksumVerifies(b: Bytes, at: nat, v: nat)
    requires |b| <= MaxChecked && at % 2 == 0 && at + 2 <= |b| && b[at] == 0 && b[at + 1] == 0 && v < 0x1_0000
    ensures Folded(Sum(Stored(b, at, v))) == 0xffff <==> v == ChecksumOf(b) || (v == 0xffff && ChecksumOf(b) == 0)
  {
    hide Sum, Folded, HighHalf;
    SumBound(b);
    FoldedResidue(Sum(b));
    StoredSum(b, at, v);
    FoldedResidue(Sum(b) + v);
    if Sum(b) > 0 { Residues(Sum(b), v); }
  }
}
