/** Little-endian numbers in byte strings. */
module LittleEndian {
  import opened Wrappers

  function Le32(x: u32): (b: Bytes)
    ensures |b| == 4
  {
    [x % 0x100, x / 0x100 % 0x100, x / 0x1_0000 % 0x100, x / 0x100_0000]
  }

  function Load32(b: Bytes): u32
    requires |b| >= 4
  {
    (b[0] as int) + 0x100 * (b[1] as int) + 0x1_0000 * (b[2] as int) + 0x100_0000 * (b[3] as int)
  }

  function Le64(x: u64): (b: Bytes)
    ensures |b| == 8
  {
    Le32(x % 0x1_0000_0000) + Le32(x / 0x1_0000_0000)
  }

  function Load64(b: Bytes): u64
    requires |b| >= 8
  {
    (Load32(b) as int) + 0x1_0000_0000 * (Load32(b[4..]) as int)
  }

  lemma Digits(x: nat)
    ensures x == x % 0x100 + 0x100 * (x / 0x100 % 0x100) + 0x1_0000 * (x / 0x1_0000 % 0x100)
                 + 0x100_0000 * (x / 0x100_0000)
  {
    var q := x / 0x100;
    assert x / 0x1_0000 == q / 0x100;
    assert x / 0x100_0000 == q / 0x100 / 0x100;
  }

  lemma Load32Le32(x: u32, rest: Bytes)
    ensures Load32(Le32(x) + rest) == x
  {
    Digits(x);
    var b := Le32(x) + rest;
    assert b[0] == Le32(x)[0] && b[1] == Le32(x)[1] && b[2] == Le32(x)[2] && b[3] == Le32(x)[3];
  }

  lemma Load64Le64(x: u64, rest: Bytes)
    ensures Load64(Le64(x) + rest) == x
  {
    var low, high := Le32(x % 0x1_0000_0000), Le32(x / 0x1_0000_0000);
    Load32Le32(x % 0x1_0000_0000, high + rest);
    Load32Le32(x / 0x1_0000_0000, rest);
    hide Le32, Load32;
    assert low + (high + rest) == Le64(x) + rest;
    assert (Le64(x) + rest)[4..] == high + rest;
  }

  /** The number a byte string stands for, its least significant byte first. */
  function NumberOf(b: Bytes): nat
  {
    if b == [] then 0 else (b[0] as int) + 0x100 * NumberOf(b[1..])
  }

  lemma FourBytes(b: Bytes, rest: Bytes)
    requires |b| == 4
    ensures NumberOf(b + rest)
         == (b[0] as int) + 0x100 * (b[1] as int) + 0x1_0000 * (b[2] as int) + 0x100_0000 * (b[3] as int)
            + 0x1_0000_0000 * NumberOf(rest)
  {
    OneByte(b[3], rest);
    OneByte(b[2], [b[3]] + rest);
    OneByte(b[1], [b[2]] + ([b[3]] + rest));
    OneByte(b[0], [b[1]] + ([b[2]] + ([b[3]] + rest)));
    assert b + rest == [b[0]] + ([b[1]] + ([b[2]] + ([b[3]] + rest)));
  }

  lemma OneByte(x: byte, rest: Bytes)
    ensures NumberOf([x] + rest) == (x as int) + 0x100 * NumberOf(rest)
  {
    assert ([x] + rest)[1..] == rest;
  }

  lemma LittleEndianValues(x: u32, y: u64)
    ensures NumberOf(Le32(x)) == x && NumberOf(Le64(y)) == y
  {
    Digits(x);
    FourBytes(Le32(x), []);
    assert Le32(x) + [] == Le32(x);
    var low, high := y % 0x1_0000_0000, y / 0x1_0000_0000;
    Digits(low);
    Digits(high);
    FourBytes(Le32(low), Le32(high));
    FourBytes(Le32(high), []);
    assert Le32(high) + [] == Le32(high);
  }
}
