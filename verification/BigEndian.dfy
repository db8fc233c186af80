/** Byte strings and big-endian numbers in them. */
module BigEndian {
  import opened Wrappers

  function Be16(x: u16): (b: Bytes)
    ensures |b| == 2
  {
    [x / 256, x % 256]
  }

  function Be32(x: u32): (b: Bytes)
    ensures |b| == 4
  {
    Be16(x / 0x1_0000) + Be16(x % 0x1_0000)
  }

  function Be64(x: u64): (b: Bytes)
    ensures |b| == 8
  {
    Be32(x / 0x1_0000_0000) + Be32(x % 0x1_0000_0000)
  }

  function Get16(b: Bytes, i: nat): u16
    requires i + 2 <= |b|
  {
    (b[i] as int) * 256 + b[i + 1]
  }

  function Get32(b: Bytes, i: nat): u32
    requires i + 4 <= |b|
  {
    (Get16(b, i) as int) * 0x1_0000 + Get16(b, i + 2)
  }

  function Get64(b: Bytes, i: nat): u64
    requires i + 8 <= |b|
  {
    (Get32(b, i) as int) * 0x1_0000_0000 + Get32(b, i + 4)
  }

  lemma Get32Be32(x: u32, before: Bytes, after: Bytes)
    ensures Get32(before + Be32(x) + after, |before|) == x
  {
    var b := before + Be32(x) + after;
    assert forall i :: 0 <= i < 4 ==> b[|before| + i] == Be32(x)[i];
  }

  lemma Get64Be64(x: u64, before: Bytes, after: Bytes)
    ensures Get64(before + Be64(x) + after, |before|) == x
  {
    hide Be32, Get32;
    var high, low := Be32(x / 0x1_0000_0000), Be32(x % 0x1_0000_0000);
    Get32Be32(x / 0x1_0000_0000, before, low + after);
    Get32Be32(x % 0x1_0000_0000, before + high, after);
    assert before + Be64(x) + after == before + high + (low + after);
    assert before + Be64(x) + after == before + high + low + after;
  }

  /** The number a byte string stands for, its most significant byte first. */
  function NumberOf(b: Bytes): nat
  {
    if b == [] then 0 else 0x100 * NumberOf(b[..|b| - 1]) + b[|b| - 1]
  }

  lemma TwoBytes(before: Bytes, x: u16)
    ensures NumberOf(before + Be16(x)) == 0x1_0000 * NumberOf(before) + x
  {
    var b := before + Be16(x);
    assert b[..|b| - 1] == before + [x / 256];
    assert b[..|b| - 1][..|b| - 2] == before;
  }

  lemma FourBytes(before: Bytes, x: u32)
    ensures NumberOf(before + Be32(x)) == 0x1_0000_0000 * NumberOf(before) + x
  {
    hide Be16, NumberOf;
    TwoBytes(before, x / 0x1_0000);
    TwoBytes(before + Be16(x / 0x1_0000), x % 0x1_0000);
    assert before + Be32(x) == before + Be16(x / 0x1_0000) + Be16(x % 0x1_0000);
  }

  lemma BigEndianValues(x: u16, y: u32, z: u64)
    ensures NumberOf(Be16(x)) == x && NumberOf(Be32(y)) == y && NumberOf(Be64(z)) == z
  {
    hide Be16, Be32;
    TwoBytes([], x);
    FourBytes([], y);
    FourBytes([], z / 0x1_0000_0000);
    FourBytes(Be32(z / 0x1_0000_0000), z % 0x1_0000_0000);
    assert [] + Be16(x) == Be16(x) && [] + Be32(y) == Be32(y);
    assert [] + Be32(z / 0x1_0000_0000) == Be32(z / 0x1_0000_0000);
  }
}
