/**
 The growable buffer of packages/bytes/src/index.ts: appending may move the
 bytes to a larger array, and a handle, an offset kept from an earlier
 allocation, still writes the same bytes.
 */
module GrowingBytes {
  import opened Wrappers
  import opened BigEndian

  /** b with a big-endian word written at an offset. */
  function SetAt(b: Bytes, at: nat, x: u32): (r: Bytes)
    ensures |r| == |b|
  {
    if at + 4 <= |b| then b[..at] + Be32(x) + b[at + 4..] else b
  }

  class Buffer {
    var data: array<byte>
    var length: nat

    /** What lies beyond the length is still zero. */
    ghost predicate Valid()
      reads this, data
    {
      && length <= data.Length && data.Length > 0
      && forall i :: length <= i < data.Length ==> data[i] == 0
    }

    ghost function Contents(): (b: Bytes)
      requires Valid()
      reads this, data
    {
      data[..length]
    }

    /** A capacity of zero could never grow. */
    constructor (capacity: nat)
      requires capacity > 0
      ensures Valid() && Contents() == [] && fresh(data)
    {
      data := new byte[capacity](_ => 0);
      length := 0;
    }

    /** ensure_capacity: double until it fits. */
    method EnsureCapacity(capacity: nat)
      requires Valid()
      modifies this
      ensures Valid() && length == old(length) && Contents() == old(Contents())
      ensures capacity <= data.Length
      ensures data == old(data) || fresh(data)
    {
      if data.Length < capacity {
        var size := data.Length;
        while size < capacity
          invariant size >= data.Length > 0
        {
          size := size * 2;
        }
        var next := new byte[size](_ => 0);
        forall i | 0 <= i < data.Length {
          next[i] := data[i];
        }
        data := next;
      }
    }

    /** bump: the offset of some new zero bytes. */
    method Bump(n: nat) returns (offset: nat)
      requires Valid()
      modifies this
      ensures Valid() && offset == old(length) && Contents() == old(Contents()) + Zeros(n)
      ensures data == old(data) || fresh(data)
    {
      offset := length;
      EnsureCapacity(length + n);
      length := length + n;
      assert data[..length] == data[..offset] + Zeros(n);
    }

    method Append(b: Bytes)
      requires Valid()
      modifies this, data
      ensures Valid() && Contents() == old(Contents()) + b
      ensures data == old(data) || fresh(data)
    {
      ghost var before := Contents();
      var offset := Bump(|b|);
      assert data[..offset] == before;
      forall i | 0 <= i < |b| {
        data[offset + i] := b[i];
      }
      assert data[..length] == before + b;
    }

    /** The setter of a handle's 32-bit field: it writes where the buffer is now. */
    method Set32(at: nat, x: u32)
      requires Valid() && at + 4 <= length
      modifies data
      ensures Valid() && Contents() == SetAt(old(Contents()), at, x)
    {
      var b := Be32(x);
      ghost var before := Contents();
      forall i | 0 <= i < 4 {
        data[at + i] := b[i];
      }
      assert data[..length] == before[..at] + b + before[at + 4..];
    }

    /** A handle to a word, written once: alloc(U32BE).value = x. */
    method Push32(x: u32)
      requires Valid()
      modifies this, data
      ensures Valid() && Contents() == old(Contents()) + Be32(x)
      ensures data == old(data) || fresh(data)
    {
      ghost var before := Contents();
      var at := Bump(4);
      Set32(at, x);
      assert SetAt(before + Zeros(4), |before|, x) == before + Be32(x);
    }

    /** The same for a 64-bit field. */
    method Push64(x: u64)
      requires Valid()
      modifies this, data
      ensures Valid() && Contents() == old(Contents()) + Be64(x)
      ensures data == old(data) || fresh(data)
    {
      hide Be32;
      Push32(x / 0x1_0000_0000);
      Push32(x % 0x1_0000_0000);
    }
  }
}
