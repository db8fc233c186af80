/**
 reassemble_ip as the program runs it (packages/linux-guest/src/network.ts):
 a table updated in place, with its searches and copies as loops, proved to
 take the steps of module Reassembly.
 */
module Reassembler {
  import opened Wrappers
  import opened BigEndian
  import opened IpPacket
  import R = Reassembly
  import B = ReassemblyBytes

  method FindIndex(pieces: seq<R.Piece>, offset: nat) returns (m: nat)
    ensures m == R.FirstEndingAfter(pieces, offset)
  {
    m := 0;
    while m < |pieces| && offset >= R.End(pieces[m])
      invariant m <= |pieces| && forall i :: 0 <= i < m ==> R.End(pieces[i]) <= offset
    {
      m := m + 1;
    }
    FirstUnique(pieces, offset, m);
  }

  lemma {:induction false} FirstUnique(pieces: seq<R.Piece>, offset: nat, m: nat)
    requires m <= |pieces| && (m < |pieces| ==> offset < R.End(pieces[m]))
    requires forall i :: 0 <= i < m ==> R.End(pieces[i]) <= offset
    ensures R.FirstEndingAfter(pieces, offset) == m
  {
    if m > 0 {
      assert R.End(pieces[0]) <= offset;
      FirstUnique(pieces[1..], offset, m - 1);
    }
  }

  /** The first piece with the fragment's offset and length, if any. */
  method FindSameRange(pieces: seq<R.Piece>, p: R.Piece) returns (r: Option<R.Piece>)
    ensures r.Some? ==> r.value in pieces && r.value.offset == p.offset && |r.value.payload| == |p.payload|
    ensures r.None? ==> forall q :: q in pieces ==> q.offset != p.offset || |q.payload| != |p.payload|
  {
    for i := 0 to |pieces|
      invariant forall j :: 0 <= j < i ==> pieces[j].offset != p.offset || |pieces[j].payload| != |p.payload|
    {
      if pieces[i].offset == p.offset && |pieces[i].payload| == |p.payload| {
        return Some(pieces[i]);
      }
    }
    return None;
  }

  /** At most one sorted non-empty piece starts at an offset. */
  lemma SameOffsetSame(pieces: seq<R.Piece>, p: R.Piece, q: R.Piece)
    requires R.Sorted(pieces) && R.NonEmpty(pieces) && p in pieces && q in pieces && p.offset == q.offset
    ensures p == q
  {
    var i :| 0 <= i < |pieces| && pieces[i] == p;
    var j :| 0 <= j < |pieces| && pieces[j] == q;
  }

  method Starts(pieces: seq<R.Piece>, end: nat) returns (beyond: bool)
    ensures beyond <==> R.BeyondAny(pieces, end)
  {
    for i := 0 to |pieces|
      invariant forall j :: 0 <= j < i ==> pieces[j].offset < end
    {
      if pieces[i].offset >= end {
        return true;
      }
    }
    return false;
  }

  /** Walking the pieces from 0: whether each starts where the last ended, and the last ends at n. */
  method IsContiguous(pieces: seq<R.Piece>, n: nat) returns (r: bool)
    ensures r <==> R.Tiling(pieces, 0, n)
  {
    var length: nat := 0;
    for i := 0 to |pieces|
      invariant R.Tiling(pieces, 0, n) <==> R.Tiling(pieces[i..], length, n)
    {
      var rest := pieces[i..];
      assert rest[0] == pieces[i] && rest[1..] == pieces[i + 1..];
      if pieces[i].offset != length {
        return false;
      }
      length := length + |pieces[i].payload|;
    }
    return length == n;
  }

  lemma {:induction false} JoinedGrows(pieces: seq<R.Piece>, i: nat)
    requires i < |pieces|
    ensures R.Joined(pieces[..i + 1]) == R.Joined(pieces[..i]) + pieces[i].payload
  {
    if i == 0 {
      assert pieces[..1] == [pieces[0]] && pieces[..1][1..] == [];
    } else {
      JoinedGrows(pieces[1..], i - 1);
      assert pieces[..i + 1][1..] == pieces[1..][..i] && pieces[..i][1..] == pieces[1..][..i - 1];
    }
  }

  /** Copying every piece to its own offset of a fresh buffer. */
  method Fill(pieces: seq<R.Piece>, n: nat) returns (payload: array<byte>)
    requires R.Tiling(pieces, 0, n)
    ensures fresh(payload) && payload[..] == R.Joined(pieces)
  {
    payload := new byte[n](_ => 0);
    ghost var length := 0;
    B.JoinedLength(pieces, 0, n);
    for i := 0 to |pieces|
      invariant length <= n && length == |R.Joined(pieces[..i])|
      invariant R.Tiling(pieces[i..], length, n)
      invariant payload[..length] == R.Joined(pieces[..i])
    {
      var p := pieces[i];
      var rest := pieces[i..];
      assert rest[0] == p && rest[1..] == pieces[i + 1..];
      B.JoinedLength(rest[1..], R.End(p), n);
      JoinedGrows(pieces, i);
      forall k | 0 <= k < |p.payload| {
        payload[p.offset + k] := p.payload[k];
      }
      length := length + |p.payload|;
      assert payload[..length] == R.Joined(pieces[..i]) + p.payload;
    }
    assert pieces[..|pieces|] == pieces && pieces[|pieces|..] == [];
  }

  /**
   What a fragment does to the pieces held for its datagram: only the two
   neighbours of the insertion point are compared.
   */
  method Weigh(pieces: seq<R.Piece>, total: Option<nat>, f: Fragment) returns (v: R.Verdict)
    requires R.PiecesOk(pieces, total) && R.Parsed(f) && f.payload != []
    ensures v == R.Judge(pieces, total, f)
  {
    hide R.Tiling, R.Joined, R.Inserted, R.Sorted, R.NonEmpty, R.Within, R.OverlapsAny, R.BeyondAny, R.Settled;
    var p := R.PieceOf(f);
    var end := f.offset + |f.payload|;
    if (f.offset == 0 && end + f.headerLength > 0xffff) || (total.Some? && end > total.value) {
      return R.Rejected;
    }
    var m := FindIndex(pieces, f.offset);
    R.OverlapIsAtInsertion(pieces, p, m);
    if (m > 0 && f.offset < R.End(pieces[m - 1])) || (m < |pieces| && end > pieces[m].offset) {
      var duplicate := FindSameRange(pieces, p);
      if duplicate.Some? && duplicate.value.payload == f.payload {
        assert duplicate.value == p;
        return R.Repeated;
      }
      if p in pieces && duplicate.Some? { SameOffsetSame(pieces, p, duplicate.value); }
      return R.Rejected;
    }
    if |pieces| == R.MaxFragments {
      return R.Rejected;
    }
    var all := pieces[..m] + [p] + pieces[m..];
    R.InsertedSplits(pieces, p, m);
    var known := total;
    if !f.moreFragments {
      if total.Some? && total.value != end {
        return R.Rejected;
      }
      var beyond := Starts(all, end);
      if beyond {
        return R.Rejected;
      }
      known := Some(end);
    }
    v := Finish(all, known);
  }

  method Finish(pieces: seq<R.Piece>, total: Option<nat>) returns (v: R.Verdict)
    requires pieces != []
    ensures v == R.Settled(pieces, total)
  {
    if total.None? || pieces[0].offset != 0 {
      return R.Kept(pieces, total);
    }
    var contiguous := IsContiguous(pieces, total.value);
    if !contiguous {
      return R.Kept(pieces, total);
    }
    var payload := Fill(pieces, total.value);
    return R.Complete(payload[..]);
  }

  class Table {
    var table: seq<R.Entry>
    var armed: map<nat, R.Key>
    var nextTimer: nat

    function Now(): R.State
      reads this
    {
      R.State(table, armed, nextTimer)
    }

    constructor ()
      ensures Now() == R.State([], map[], 0) && R.Inv(Now())
    {
      table, armed, nextTimer := [], map[], 0;
    }

    method Find(key: R.Key) returns (i: nat)
      ensures i == R.IndexOf(table, key)
    {
      i := 0;
      while i < |table| && table[i].key != key
        invariant i <= |table| && forall j :: 0 <= j < i ==> table[j].key != key
      {
        i := i + 1;
      }
      R.IndexUnique(table, key, i);
    }

    /** discard_ip_reassembly: clear the timer, drop the entry. */
    method Discard(key: R.Key)
      modifies this
      ensures Now() == R.Discarded(old(Now()), key)
    {
      var i := Find(key);
      if i < |table| {
        armed := armed - {table[i].timer};
        table := table[..i] + table[i + 1..];
      }
    }

    method Open(key: R.Key) returns (i: nat)
      modifies this
      ensures Now() == R.Opened(old(Now()), key) && i == R.IndexOf(table, key)
      ensures i < |table|
    {
      i := Find(key);
      if i == |table| {
        if |table| == R.MaxReassemblies {
          R.DiscardedLacks(Now(), table[0].key, key);
          Discard(table[0].key);
        }
        table := table + [R.Entry(key, nextTimer, [], None)];
        armed := armed[nextTimer := key];
        nextTimer := nextTimer + 1;
        i := |table| - 1;
        R.IndexUnique(table, key, i);
      }
    }

    /** reassemble_ip: the datagram this fragment completes, if it completes one. */
    method Deliver(f: Fragment) returns (r: Option<R.Packet>)
      requires R.Inv(Now()) && R.Parsed(f)
      modifies this
      ensures (Now(), r) == R.Delivered(old(Now()), f) && R.Inv(Now())
    {
      hide R.Inv, R.Opened, R.Discarded, R.Judge, R.Parsed, R.PiecesOk;
      var key := R.KeyOf(f);
      R.DeliveredKeeps(Now(), f);
      ParsedNonEmpty(f);
      if f.offset == 0 && !f.moreFragments {
        Discard(key);
        return Some(R.Packet(f.source, f.destination, f.protocol, f.payload));
      }
      R.OpenedKeeps(Now(), key);
      var i := Open(key);
      R.EntryPiecesOk(Now(), i);
      var v := Weigh(table[i].pieces, table[i].total, f);
      match v
      case Rejected =>
        Discard(key);
        r := None;
      case Repeated =>
        r := None;
      case Kept(pieces, total) =>
        table := table[i := table[i].(pieces := pieces, total := total)];
        r := None;
      case Complete(payload) =>
        Discard(key);
        r := Some(R.Packet(key.source, key.destination, key.protocol, payload));
    }

    /** A timer's callback. */
    method Expire(timer: nat)
      requires R.Inv(Now()) && timer in armed
      modifies this
      ensures Now() == R.Expired(old(Now()), timer) && R.Inv(Now())
    {
      R.ExpiredIsDiscarded(Now(), timer);
      R.DiscardedKeeps(Now(), armed[timer]);
      hide R.Inv, R.Discarded, R.Expired;
      Discard(armed[timer]);
    }

    /** A guest leaves, or the network closes: discard its entries while iterating over the table. */
    method Drop(source: Option<u32>)
      requires R.Inv(Now())
      modifies this
      ensures Now() == R.Dropped(old(Now()), source, 0) && R.Inv(Now())
    {
      R.DroppedKeeps(Now(), source, 0);
      hide R.Inv, R.Discarded;
      var i := 0;
      while i < |table|
        invariant i <= |table|
        invariant R.Dropped(Now(), source, i) == R.Dropped(old(Now()), source, 0)
        decreases |table| - i
      {
        if source == None || source == Some(table[i].key.source) {
          R.DiscardedShrinks(Now(), i);
          Discard(table[i].key);
        } else {
          i := i + 1;
        }
      }
    }
  }

  lemma ParsedNonEmpty(f: Fragment)
    requires R.Parsed(f)
    ensures f.offset != 0 || f.moreFragments ==> f.payload != []
  {
  }
}
