/**
 Directory pages of the filesystem device (READDIR in
 packages/kernel/src/virtio/fs.ts): 8-aligned records, cut off at the reply's
 limit and resumed by index.
 */
module Readdir {
  import opened Wrappers
  import opened LittleEndian

  /** An entry as the device lists it: "." and ".." first, then the directory's own. */
  datatype Entry = Entry(ino: u64, name: Bytes, kind: u32)

  /** A record as the guest reads it. */
  datatype Dirent = Dirent(entry: Entry, off: u64)

  predicate Listable(e: Entry)
  {
    0 < |e.name| <= 255
  }

  predicate AllListable(entries: seq<Entry>)
  {
    |entries| < 0x8000_0000_0000_0000 && forall i :: 0 <= i < |entries| ==> Listable(entries[i])
  }

  /** 24 bytes and the name, rounded up to eight. */
  function RecordLength(e: Entry): (n: nat)
    ensures n % 8 == 0 && 24 + |e.name| <= n < 32 + |e.name|
  {
    (24 + |e.name| + 7) / 8 * 8
  }

  function Record(e: Entry, off: u64): (b: Bytes)
    requires Listable(e)
    ensures |b| == RecordLength(e)
  {
    Le64(e.ino) + Le64(off) + Le32(|e.name|) + Le32(e.kind) + e.name + Zeros(RecordLength(e) - 24 - |e.name|)
  }

  /** Where a page that starts at an index and may hold some more bytes ends. */
  function PageEnd(entries: seq<Entry>, from: nat, room: nat): (end: nat)
    requires from <= |entries|
    ensures from <= end <= |entries|
    decreases |entries| - from
  {
    if from == |entries| || RecordLength(entries[from]) > room then from
    else PageEnd(entries, from + 1, room - RecordLength(entries[from]))
  }

  /** The records of the entries in a range; each one's off is where to go on after it. */
  function Page(entries: seq<Entry>, from: nat, end: nat): Bytes
    requires AllListable(entries) && from <= end <= |entries|
    decreases end - from
  {
    if from == end then [] else Record(entries[from], from + 1) + Page(entries, from + 1, end)
  }

  // ---------------------------------------------------------------------------
  // The guest's reading

  function ReadRecord(b: Bytes): (r: Option<(Dirent, Bytes)>)
    ensures r.Some? ==> |r.value.1| < |b|
  {
    if |b| < 24 then None
    else
      var length := Load32(b[16..]);
      var total := (24 + length + 7) / 8 * 8;
      if |b| < total then None
      else Some((Dirent(Entry(Load64(b), b[24..24 + length], Load32(b[20..])), Load64(b[8..])), b[total..]))
  }

  function ReadPage(b: Bytes): Option<seq<Dirent>>
    decreases |b|
  {
    if b == [] then Some([])
    else
      match ReadRecord(b)
      case None => None
      case Some((d, rest)) =>
        match ReadPage(rest)
        case None => None
        case Some(more) => Some([d] + more)
  }

  /** The records that should be read of a range. */
  function Listed(entries: seq<Entry>, from: nat, end: nat): seq<Dirent>
    requires from <= end <= |entries| < 0x8000_0000_0000_0000
    decreases end - from
  {
    if from == end then [] else [Dirent(entries[from], from + 1)] + Listed(entries, from + 1, end)
  }

  lemma HeaderLoads(ino: u64, off: u64, length: u32, kind: u32, tail: Bytes)
    ensures var b := Le64(ino) + (Le64(off) + (Le32(length) + (Le32(kind) + tail)));
            && |b| == 24 + |tail| && Load64(b) == ino && Load64(b[8..]) == off && Load32(b[16..]) == length
            && Load32(b[20..]) == kind
            && b[24..] == tail
  {
    hide Le32, Le64, Load32, Load64;
    var afterLength := Le32(kind) + tail;
    var afterOff := Le32(length) + afterLength;
    var afterIno := Le64(off) + afterOff;
    var b := Le64(ino) + afterIno;
    Load64Le64(ino, afterIno);
    Load64Le64(off, afterOff);
    Load32Le32(length, afterLength);
    Load32Le32(kind, tail);
    assert b[8..] == afterIno && afterIno[8..] == afterOff && afterOff[4..] == afterLength && afterLength[4..] == tail;
    assert b[16..] == afterIno[8..] && b[20..] == afterOff[4..] && b[24..] == afterLength[4..];
  }

  lemma RecordSplits(e: Entry, off: u64, rest: Bytes)
    requires Listable(e)
    ensures Record(e, off) + rest
         == Le64(e.ino)
            + (Le64(off)
               + (Le32(|e.name|) + (Le32(e.kind) + (e.name + Zeros(RecordLength(e) - 24 - |e.name|) + rest))))
  {
    hide Le32, Le64, Zeros, RecordLength;
  }

  lemma RecordRead(e: Entry, off: u64, rest: Bytes)
    requires Listable(e)
    ensures ReadRecord(Record(e, off) + rest) == Some((Dirent(e, off), rest))
  {
    hide Le32, Le64, Load32, Load64, Zeros, Record;
    var pad := Zeros(RecordLength(e) - 24 - |e.name|);
    var tail := e.name + pad + rest;
    var b := Record(e, off) + rest;
    RecordSplits(e, off, rest);
    HeaderLoads(e.ino, off, |e.name|, e.kind, tail);
    assert tail[..|e.name|] == e.name && tail[|e.name| + |pad|..] == rest;
    assert b[24..24 + |e.name|] == b[24..][..|e.name|] && b[RecordLength(e)..] == b[24..][|e.name| + |pad|..];
  }

  lemma {:induction false} PageRead(entries: seq<Entry>, from: nat, end: nat)
    requires AllListable(entries) && from <= end <= |entries|
    ensures ReadPage(Page(entries, from, end)) == Some(Listed(entries, from, end))
    decreases end - from
  {
    hide Record, ReadRecord;
    if from < end {
      RecordRead(entries[from], from + 1, Page(entries, from + 1, end));
      PageRead(entries, from + 1, end);
      assert |Record(entries[from], from + 1)| > 0;
    }
  }

  /**
   A page fits its limit in whole records of a multiple of eight bytes, and ends
   only where the next would not fit.
   */
  lemma {:induction false} PageFits(entries: seq<Entry>, from: nat, room: nat)
    requires AllListable(entries) && from <= |entries|
    ensures var end := PageEnd(entries, from, room);
            var page := Page(entries, from, end);
            && |page| <= room && |page| % 8 == 0
            && (end < |entries| ==> |page| + RecordLength(entries[end]) > room)
    decreases |entries| - from
  {
    hide Record;
    if from < |entries| && RecordLength(entries[from]) <= room {
      PageFits(entries, from + 1, room - RecordLength(entries[from]));
    }
  }

  /** What the device answers at an offset. */
  function Reply(entries: seq<Entry>, offset: nat, limit: nat): Bytes
    requires AllListable(entries)
  {
    if offset > |entries| then [] else Page(entries, offset, PageEnd(entries, offset, limit))
  }

  /** The last record of a page says where the page ended. */
  lemma {:induction false} LastOff(entries: seq<Entry>, from: nat, end: nat)
    requires from < end <= |entries| < 0x8000_0000_0000_0000
    ensures var listed := Listed(entries, from, end); listed != [] && listed[|listed| - 1].off == end
    decreases end - from
  {
    if from + 1 < end { LastOff(entries, from + 1, end); }
  }

  /** What the guest makes of the answer at an offset: the records, and where its last one says to go on. */
  lemma ReplyRead(entries: seq<Entry>, offset: nat, limit: nat)
    requires AllListable(entries) && offset <= |entries|
    ensures var end := PageEnd(entries, offset, limit);
            var page := ReadPage(Reply(entries, offset, limit));
            && page == Some(Listed(entries, offset, end))
            && (page.value == [] <==> end == offset)
            && (page.value != [] ==> page.value[|page.value| - 1].off == end)
  {
    hide ReadPage, Page;
    var end := PageEnd(entries, offset, limit);
    PageRead(entries, offset, end);
    if offset < end { LastOff(entries, offset, end); }
  }

  /**
   The guest's whole listing from the bytes it gets: page after page, each from
   the off of the last record it read, until a page is empty.
   */
  function ListAll(entries: seq<Entry>, offset: nat, limit: nat): seq<Dirent>
    requires AllListable(entries) && offset <= |entries|
    decreases |entries| - offset
  {
    ReplyRead(entries, offset, limit);
    var page := ReadPage(Reply(entries, offset, limit)).value;
    if page == [] then [] else page + ListAll(entries, page[|page| - 1].off, limit)
  }

  lemma ListAllStep(entries: seq<Entry>, from: nat, limit: nat)
    requires AllListable(entries) && from <= |entries|
    ensures var end := PageEnd(entries, from, limit);
            ListAll(entries, from, limit)
            == if end == from then [] else Listed(entries, from, end) + ListAll(entries, end, limit)
  {
    hide ReadPage, Reply, PageEnd, Listed;
    ReplyRead(entries, from, limit);
  }

  lemma {:induction false} ListedJoins(entries: seq<Entry>, from: nat, mid: nat, end: nat)
    requires from <= mid <= end <= |entries| < 0x8000_0000_0000_0000
    ensures Listed(entries, from, end) == Listed(entries, from, mid) + Listed(entries, mid, end)
    decreases mid - from
  {
    if from < mid { ListedJoins(entries, from + 1, mid, end); }
  }

  /**
   On an unchanged directory a guest that resumes from the offs it reads lists
   every entry exactly once, in order, whenever the limit holds the largest record.
   */
  lemma {:induction false} ListsEverythingOnce(entries: seq<Entry>, from: nat, limit: nat)
    requires AllListable(entries) && from <= |entries|
    requires forall i :: 0 <= i < |entries| ==> RecordLength(entries[i]) <= limit
    ensures ListAll(entries, from, limit) == Listed(entries, from, |entries|)
    decreases |entries| - from
  {
    hide RecordLength, ListAll;
    var end := PageEnd(entries, from, limit);
    ListAllStep(entries, from, limit);
    if from < |entries| {
      ListsEverythingOnce(entries, end, limit);
      ListedJoins(entries, from, end, |entries|);
    }
  }

  /** And if it does not, the listing stops before the first entry that cannot fit. */
  lemma {:induction false} ListingStopsAt(entries: seq<Entry>, from: nat, limit: nat, stop: nat)
    requires AllListable(entries) && from <= stop < |entries|
    requires RecordLength(entries[stop]) > limit && forall i :: from <= i < stop ==> RecordLength(entries[i]) <= limit
    ensures ListAll(entries, from, limit) == Listed(entries, from, stop)
    decreases stop - from
  {
    hide RecordLength, ListAll;
    ListAllStep(entries, from, limit);
    EndNotPast(entries, from, limit, stop);
    var end := PageEnd(entries, from, limit);
    if from < stop {
      ListingStopsAt(entries, end, limit, stop);
      ListedJoins(entries, from, end, stop);
    }
  }

  lemma {:induction false} EndNotPast(entries: seq<Entry>, from: nat, room: nat, stop: nat)
    requires from <= stop < |entries| && RecordLength(entries[stop]) > room
    ensures PageEnd(entries, from, room) <= stop
    decreases stop - from
  {
    if from < stop && RecordLength(entries[from]) <= room {
      EndNotPast(entries, from + 1, room - RecordLength(entries[from]), stop);
    }
  }

  // ---------------------------------------------------------------------------
  // The program

  /** The loop that fills a reply. */
  method FillPage(entries: seq<Entry>, offset: nat, limit: nat) returns (payload: Bytes)
    requires AllListable(entries)
    ensures payload == Reply(entries, offset, limit)
  {
    hide Record, RecordLength;
    payload := [];
    var index := offset;
    ghost var whole := Reply(entries, offset, limit);
    assert [] + whole == whole;
    while index < |entries|
      invariant offset <= index && (index <= |entries| || payload == [] == whole) && |payload| <= limit
      invariant index <= |entries| ==>
                  whole == payload + Page(entries, index, PageEnd(entries, index, limit - |payload|))
      decreases |entries| - index
    {
      var entry := entries[index];
      if |payload| + RecordLength(entry) > limit {
        break;
      }
      ghost var rest := Page(entries, index + 1, PageEnd(entries, index + 1, limit - |payload| - RecordLength(entry)));
      assert payload + (Record(entry, index + 1) + rest) == payload + Record(entry, index + 1) + rest;
      payload := payload + Record(entry, index + 1);
      index := index + 1;
    }
    assert payload + [] == payload;
  }
}
