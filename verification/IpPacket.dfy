/**
 Building, cutting and parsing IPv4 frames (packages/linux-guest/src/network.ts):
 ip_packet, send_ip and parse_ip over bytes.
 */
module IpPacket {
  import opened Wrappers
  import opened BigEndian
  import C = Checksum

  const EthernetSize: nat := 14
  const HeaderSize: nat := 20
  const MaxPayload: nat := 0xffff - HeaderSize
  const FragmentPayload: nat := 1480

  /** A parsed IPv4 packet or fragment. */
  datatype Fragment = Fragment(
    source: u32, destination: u32, protocol: byte, identification: u16,
    headerLength: nat, offset: nat, moreFragments: bool, payload: Bytes)

  // ---------------------------------------------------------------------------
  // Building

  function Header(source: u32, destination: u32, protocol: byte, identification: u16, flagsAndOffset: u16,
                  length: u16, checksum: u16): (h: Bytes)
    ensures |h| == HeaderSize
  {
    [0x45, 0] + Be16(length) + Be16(identification) + Be16(flagsAndOffset) + [64, protocol] + Be16(checksum)
    + Be32(source) + Be32(destination)
  }

  predicate IsMac(mac: Bytes)
  {
    |mac| == 6
  }

  const GatewayMac: Bytes := [2, 0, 0, 0, 0, 1]

  function Frame(mac: Bytes, source: u32, destination: u32, protocol: byte, payload: Bytes, identification: u16,
                 flagsAndOffset: u16): (frame: Bytes)
    requires IsMac(mac) && |payload| <= MaxPayload
    ensures |frame| == EthernetSize + HeaderSize + |payload|
  {
    var blank := Header(source, destination, protocol, identification, flagsAndOffset, HeaderSize + |payload|, 0);
    var sum := C.ChecksumOf(blank);
    mac + GatewayMac + Be16(0x0800)
    + Header(source, destination, protocol, identification, flagsAndOffset, HeaderSize + |payload|, sum) + payload
  }

  /** The header of every frame sent sums to 0xffff, as RFC 1071 asks of a receiver's check. */
  lemma FrameHeaderVerifies(mac: Bytes, source: u32, destination: u32, protocol: byte, payload: Bytes,
                            identification: u16, flagsAndOffset: u16)
    requires IsMac(mac) && |payload| <= MaxPayload
    ensures var frame := Frame(mac, source, destination, protocol, payload, identification, flagsAndOffset);
            C.Folded(C.Sum(frame[EthernetSize..EthernetSize + HeaderSize])) == 0xffff
  {
    hide C.Sum, C.Folded, C.ChecksumOf, Be16, Be32;
    var blank := Header(source, destination, protocol, identification, flagsAndOffset, HeaderSize + |payload|, 0);
    var sum := C.ChecksumOf(blank);
    HeaderChecksum(source, destination, protocol, identification, flagsAndOffset, HeaderSize + |payload|, sum);
    var frame := Frame(mac, source, destination, protocol, payload, identification, flagsAndOffset);
    assert frame[EthernetSize..EthernetSize + HeaderSize]
        == Header(source, destination, protocol, identification, flagsAndOffset, HeaderSize + |payload|, sum);
    C.StoredChecksumVerifies(blank, 10, sum);
  }

  lemma HeaderChecksum(source: u32, destination: u32, protocol: byte, identification: u16, flagsAndOffset: u16,
                       length: u16, sum: u16)
    ensures var blank := Header(source, destination, protocol, identification, flagsAndOffset, length, 0);
            && blank[10] == 0 && blank[11] == 0
            && C.Stored(blank, 10, sum)
               == Header(source, destination, protocol, identification, flagsAndOffset, length, sum)
  {
  }

  /**
   Where RFC 894 and RFC 791 put what a receiver reads before the payload: to the
   guest's address from the gateway's, an IPv4 header without options that may
   pass 64 routers, whose sum verifies.
   */
  ghost predicate IsAddressed(frame: Bytes, mac: Bytes, field: u16)
  {
    && |frame| >= 34
    && frame[..6] == mac && frame[6..12] == [0x02, 0, 0, 0, 0, 0x01] && frame[12..14] == [0x08, 0x00]
    && frame[14] == 0x45 && frame[15] == 0 && Get16(frame, 16) == |frame| - 14
    && Get16(frame, 20) == field && frame[22] == 64
    && C.Folded(C.Sum(frame[14..34])) == 0xffff
  }

  lemma FrameIsAddressed(mac: Bytes, source: u32, destination: u32, protocol: byte, payload: Bytes,
                         identification: u16, field: u16)
    requires IsMac(mac) && |payload| <= MaxPayload
    ensures var frame := Frame(mac, source, destination, protocol, payload, identification, field);
            IsAddressed(frame, mac, field)
  {
    hide C.Sum, C.Folded, C.ChecksumOf;
    FrameHeaderVerifies(mac, source, destination, protocol, payload, identification, field);
    var length := HeaderSize + |payload|;
    var sum := C.ChecksumOf(Header(source, destination, protocol, identification, field, length, 0));
    var h := Header(source, destination, protocol, identification, field, length, sum);
    var frame := Frame(mac, source, destination, protocol, payload, identification, field);
    assert frame == mac + GatewayMac + Be16(0x0800) + h + payload;
    assert frame[..6] == mac;
    assert frame[6..12] == GatewayMac;
    assert frame[12..14] == Be16(0x0800);
    forall i | 0 <= i < 20 ensures frame[14 + i] == h[i] {
    }
    assert frame[14] == h[0] && frame[15] == h[1] && frame[22] == h[8];
    assert frame[16] == h[2] && frame[17] == h[3] && frame[20] == h[6] && frame[21] == h[7];
  }

  // ---------------------------------------------------------------------------
  // Parsing

  function Parse(frame: Bytes): (r: Option<Fragment>)
    ensures r.Some? ==>
              && r.value.offset + |r.value.payload| <= MaxPayload && HeaderSize <= r.value.headerLength <= 60
              && (r.value.offset != 0 || r.value.moreFragments ==> r.value.payload != [])
              && (r.value.moreFragments ==> |r.value.payload| % 8 == 0)
              && r.value.offset % 8 == 0
  {
    if |frame| < EthernetSize + HeaderSize then None
    else if Get16(frame, 12) != 0x0800 then None
    else
      var b := frame[EthernetSize..];
      var headerLength := b[0] % 16 * 4;
      if b[0] / 16 != 4 || headerLength < HeaderSize || headerLength > |b| then None
      else
        var total := Get16(b, 2);
        if total < headerLength || total > |b| then None
        else
          var payload := b[headerLength..total];
          var field := Get16(b, 6);
          var offset := field % 0x2000 * 8;
          var more := field / 0x2000 % 2 != 0;
          if (offset != 0 || more) && |payload| == 0 then None
          else if more && |payload| % 8 != 0 then None
          else if offset + |payload| > MaxPayload then None
          else Some(Fragment(Get32(b, 12), Get32(b, 16), b[9], Get16(b, 4), headerLength, offset, more, payload))
  }

  /**
   What parse_ip takes, by RFC 791: an IPv4 header of at least five words and a
   total length, both within the frame; if a fragment, one with bytes, in whole
   units of eight but for the last, that ends within the longest packet. And what
   it reads: the options are passed over.
   */
  lemma ParsesExactly(frame: Bytes)
    ensures var r, ip := Parse(frame), frame[if |frame| < 14 then |frame| else 14..];
            && (r.Some? <==>
                && |ip| >= 20 && frame[12] == 0x08 && frame[13] == 0x00 && 0x45 <= ip[0] <= 0x4f
                && var words, total, field := (ip[0] as int) - 0x40, Get16(ip, 2), Get16(ip, 6);
                var last, size := field / 0x2000 % 2 == 0, total - 4 * words;
                && 4 * words <= total <= |ip|
                && (field % 0x2000 != 0 || !last ==> size > 0) && (!last ==> size % 8 == 0)
                && 8 * (field % 0x2000) + size <= 65515)
            && (r.Some? ==>
                  && r.value.headerLength == 4 * ((ip[0] as int) - 0x40)
                  && r.value.payload == ip[r.value.headerLength..Get16(ip, 2)]
                  && r.value.identification == Get16(ip, 4)
                  && r.value.offset == 8 * (Get16(ip, 6) % 0x2000)
                  && (r.value.moreFragments <==> Get16(ip, 6) / 0x2000 % 2 == 1)
                  && r.value.protocol == ip[9] && r.value.source == Get32(ip, 12)
                  && r.value.destination == Get32(ip, 16))
  {
    hide Get32;
    if |frame| >= 34 {
      var ip := frame[14..];
      assert ip[0] == frame[14];
      assert Get16(frame, 12) == 0x0800 <==> frame[12] == 8 && frame[13] == 0;
      NibblesOf(ip[0]);
    }
  }

  lemma NibblesOf(b: byte)
    ensures b / 16 == 4 && b % 16 >= 5 <==> 0x45 <= b <= 0x4f
    ensures b / 16 == 4 ==> b % 16 == (b as int) - 0x40
  {
  }

  /** The flags field of a fragment: bit 0x2000 for more fragments, and the offset in units of eight bytes. */
  function FragmentField(offset: nat, more: bool): u16
    requires offset % 8 == 0 && offset <= 0xffff
  {
    (if more then 0x2000 else 0) + offset / 8
  }

  /** Where each field of a built header is found again. */
  lemma HeaderFields(h: Bytes, source: u32, destination: u32, protocol: byte, identification: u16, field: u16,
                     length: u16, sum: u16)
    requires h == Header(source, destination, protocol, identification, field, length, sum)
    ensures h[0] == 0x45 && h[9] == protocol
    ensures Get16(h, 2) == length && Get16(h, 4) == identification && Get16(h, 6) == field
    ensures Get32(h, 12) == source && Get32(h, 16) == destination
  {
  }

  /** What parse_ip reads out of an Ethernet header, an IPv4 header without options and a payload. */
  lemma ParseLayout(e: Bytes, h: Bytes, payload: Bytes, offset: nat, more: bool)
    requires |e| == EthernetSize && Get16(e, 12) == 0x0800
    requires |h| == HeaderSize && h[0] == 0x45 && Get16(h, 2) == HeaderSize + |payload|
    requires offset + |payload| <= MaxPayload && (offset != 0 || more ==> payload != [])
             && (more ==> |payload| % 8 == 0)
    requires Get16(h, 6) % 0x2000 * 8 == offset && (Get16(h, 6) / 0x2000 % 2 != 0 <==> more)
    ensures Parse(e + h + payload)
         == Some(Fragment(Get32(h, 12), Get32(h, 16), h[9], Get16(h, 4), HeaderSize, offset, more, payload))
  {
    var frame := e + h + payload;
    assert Get16(frame, 12) == 0x0800;
    var b := h + payload;
    assert frame[EthernetSize..] == b;
    assert b[HeaderSize..HeaderSize + |payload|] == payload;
    assert b[0] == 0x45 && Get16(b, 2) == HeaderSize + |payload| && Get16(b, 6) == Get16(h, 6)
           && Get16(b, 4) == Get16(h, 4);
    assert Get32(b, 12) == Get32(h, 12) && Get32(b, 16) == Get32(h, 16) && b[9] == h[9];
  }

  lemma FieldParts(offset: nat, more: bool)
    requires offset % 8 == 0 && offset <= 0xffff
    ensures FragmentField(offset, more) % 0x2000 * 8 == offset
    ensures FragmentField(offset, more) / 0x2000 % 2 != 0 <==> more
  {
  }

  /** parse_ip recovers from a built frame exactly what it was built from. */
  lemma ParseFrame(mac: Bytes, source: u32, destination: u32, protocol: byte, payload: Bytes, identification: u16,
                   field: u16, offset: nat, more: bool)
    requires IsMac(mac) && offset + |payload| <= MaxPayload && offset % 8 == 0
    requires field == FragmentField(offset, more) || (field == 0x4000 && offset == 0 && !more)
    requires (offset != 0 || more ==> payload != []) && (more ==> |payload| % 8 == 0)
    ensures Parse(Frame(mac, source, destination, protocol, payload, identification, field))
         == Some(Fragment(source, destination, protocol, identification, HeaderSize, offset, more, payload))
  {
    hide C.ChecksumOf, Header, Parse, Get32, FragmentField;
    var length := HeaderSize + |payload|;
    var sum := C.ChecksumOf(Header(source, destination, protocol, identification, field, length, 0));
    var h := Header(source, destination, protocol, identification, field, length, sum);
    HeaderFields(h, source, destination, protocol, identification, field, length, sum);
    FieldParts(offset, more);
    var e := mac + GatewayMac + Be16(0x0800);
    assert Get16(e, 12) == 0x0800;
    ParseLayout(e, h, payload, offset, more);
  }

  // ---------------------------------------------------------------------------
  // Cutting

  function CutEnd(payload: Bytes, i: nat): nat
  {
    if FragmentPayload * (i + 1) <= |payload| then FragmentPayload * (i + 1) else |payload|
  }

  /** How many fragments send_ip cuts a payload into. */
  function CutCount(payload: Bytes): nat
  {
    (|payload| + FragmentPayload - 1) / FragmentPayload
  }

  /** The i-th fragment of a payload, as parse_ip will deliver it. */
  function Cut(source: u32, destination: u32, protocol: byte, identification: u16, payload: Bytes, i: nat): Fragment
    requires FragmentPayload * i < |payload| <= MaxPayload
  {
    Fragment(source, destination, protocol, identification, HeaderSize,
             FragmentPayload * i, CutEnd(payload, i) < |payload|, payload[FragmentPayload * i..CutEnd(payload, i)])
  }

  lemma CutIs(source: u32, destination: u32, protocol: byte, identification: u16, payload: Bytes, i: nat, end: nat)
    requires FragmentPayload * i < |payload| <= MaxPayload
    requires end
          == if FragmentPayload * i + FragmentPayload < |payload| then FragmentPayload * i + FragmentPayload
             else |payload|
    ensures Cut(source, destination, protocol, identification, payload, i)
         == Fragment(source, destination, protocol, identification, HeaderSize,
                     FragmentPayload * i, end < |payload|, payload[FragmentPayload * i..end])
  {
  }

  /** Bit 0x2000 but for the last cut, and the offset in units of eight bytes. */
  function CutField(payload: Bytes, i: nat): u16
    requires i < CutCount(payload) && |payload| <= MaxPayload
  {
    185 * i + if i + 1 < CutCount(payload) then 0x2000 else 0
  }

  lemma CutFieldIs(payload: Bytes, i: nat)
    requires FragmentPayload * i < |payload| <= MaxPayload
    ensures i < CutCount(payload)
    ensures var offset := FragmentPayload * i;
            CutField(payload, i) == (if offset + FragmentPayload < |payload| then 0x2000 else 0) + offset / 8
  {
    assert FragmentPayload * i / 8 == 185 * i;
  }

  /** The frame takes the i-th cut to a guest. */
  ghost predicate CarriesCut(frame: Bytes, mac: Bytes, source: u32, destination: u32, protocol: byte,
                             identification: u16, payload: Bytes, i: nat)
    requires i < CutCount(payload) && |payload| <= MaxPayload
  {
    && IsAddressed(frame, mac, CutField(payload, i))
    && Parse(frame) == Some(Cut(source, destination, protocol, identification, payload, i))
  }

  lemma CutCarried(mac: Bytes, source: u32, destination: u32, protocol: byte, identification: u16, payload: Bytes,
                   i: nat, end: nat, field: u16)
    requires IsMac(mac) && FragmentPayload * i < |payload| <= MaxPayload
    requires end
          == if FragmentPayload * i + FragmentPayload < |payload| then FragmentPayload * i + FragmentPayload
             else |payload|
    requires field == (if end < |payload| then 0x2000 else 0) + FragmentPayload * i / 8
    ensures i < CutCount(payload)
    ensures var frame :=
              Frame(mac, source, destination, protocol, payload[FragmentPayload * i..end], identification, field);
            CarriesCut(frame, mac, source, destination, protocol, identification, payload, i)
  {
    hide Frame, Parse, Cut, IsAddressed, CutField;
    var offset := FragmentPayload * i;
    CutIs(source, destination, protocol, identification, payload, i, end);
    ParseFrame(mac, source, destination, protocol, payload[offset..end], identification, field, offset,
               end < |payload|);
    FrameIsAddressed(mac, source, destination, protocol, payload[offset..end], identification, field);
    CutFieldIs(payload, i);
  }

  datatype Sent = TooLarge | Frames(frames: seq<Bytes>)

  /** send_ip: one frame for a payload that fits, otherwise one per cut. */
  method SendIp(mac: Bytes, source: u32, destination: u32, protocol: byte, payload: Bytes,
                counter: nat) returns (r: Sent)
    requires IsMac(mac)
    ensures r.TooLarge? <==> |payload| > MaxPayload
    ensures r.Frames? && |payload| <= FragmentPayload ==>
              && |r.frames| == 1
              && IsAddressed(r.frames[0], mac, 0x4000)
              && Parse(r.frames[0])
                 == Some(Fragment(source, destination, protocol, counter % 0x1_0000, HeaderSize, 0, false, payload))
    ensures r.Frames? && |payload| > FragmentPayload ==>
              && |r.frames| == CutCount(payload)
              && forall i :: 0 <= i < CutCount(payload) ==>
                               CarriesCut(r.frames[i], mac, source, destination, protocol, counter % 0x1_0000,
                                          payload, i)
  {
    hide Frame, Parse, IsAddressed, CarriesCut;
    if |payload| > MaxPayload {
      return TooLarge;
    }
    var identification := counter % 0x1_0000;
    if |payload| <= FragmentPayload {
      ParseFrame(mac, source, destination, protocol, payload, identification, 0x4000, 0, false);
      FrameIsAddressed(mac, source, destination, protocol, payload, identification, 0x4000);
      return Frames([Frame(mac, source, destination, protocol, payload, identification, 0x4000)]);
    }
    var frames: seq<Bytes> := [];
    var offset := 0;
    while offset < |payload|
      invariant offset == FragmentPayload * |frames|
      invariant |frames| <= CutCount(payload) && (offset >= |payload| ==> |frames| == CutCount(payload))
      invariant forall i :: 0 <= i < |frames| ==>
                              CarriesCut(frames[i], mac, source, destination, protocol, identification, payload, i)
      decreases |payload| - offset
    {
      var end := if offset + FragmentPayload < |payload| then offset + FragmentPayload else |payload|;
      var field := (if end < |payload| then 0x2000 else 0) + offset / 8;
      CutCarried(mac, source, destination, protocol, identification, payload, |frames|, end, field);
      frames := frames + [Frame(mac, source, destination, protocol, payload[offset..end], identification, field)];
      offset := offset + FragmentPayload;
    }
    return Frames(frames);
  }
}
