/** Ethernet frames with their IPv4, ICMP and ARP contents (`sr_protocol.h`), and the frames the router builds. */
module Frames {
  import opened Words
  import opened Checksum
  import opened Routing

  const TYPE_IP: Word16 := 0x0800
  const TYPE_ARP: Word16 := 0x0806
  const ICMP: Byte := 1
  const TCP: Byte := 6
  const UDP: Byte := 17
  const ARP_REQUEST: Word16 := 1
  const ARP_REPLY: Word16 := 2
  const INIT_TTL: Byte := 255
  const DONT_FRAGMENT: Word16 := 0x4000
  const BROADCAST: Mac := [0xff, 0xff, 0xff, 0xff, 0xff, 0xff]

  /** `struct sr_ip_hdr`; `vhl` is the byte that packs version and header length. */
  datatype IpHdr = IpHdr(vhl: Byte, tos: Byte, len: Word16, id: Word16, off: Word16, ttl: Byte, proto: Byte,
                         sum: Word16, src: Word32, dst: Word32)

  /** `struct sr_arp_hdr`. */
  datatype ArpHdr = ArpHdr(hrd: Word16, pro: Word16, hln: Byte, pln: Byte, op: Word16,
                           sha: Mac, sip: Word32, tha: Mac, tip: Word32)

  /** `Raw` holds every frame the router looks at no further: other types and truncated headers. */
  datatype Payload =
    | Ip(h: IpHdr, data: seq<Byte>)
    | Arp(a: ArpHdr, trailer: seq<Byte>)
    | Raw(etherType: Word16, rest: seq<Byte>)

  datatype Frame = Frame(dhost: Mac, shost: Mac, payload: Payload)

  // ----- the wire format

  function IpBytes(h: IpHdr): (bs: seq<Byte>)
    ensures |bs| == 20
  {
    [h.vhl, h.tos] + Bytes16(h.len) + Bytes16(h.id) + Bytes16(h.off) + [h.ttl, h.proto] + Bytes16(h.sum)
    + Bytes32(h.src) + Bytes32(h.dst)
  }

  function ParseIp(b: seq<Byte>): IpHdr
    requires |b| == 20
  {
    IpHdr(b[0], b[1], Join16(b[2], b[3]), Join16(b[4], b[5]), Join16(b[6], b[7]), b[8], b[9],
          Join16(b[10], b[11]), Join32(b[12..16]), Join32(b[16..20]))
  }

  function ArpBytes(a: ArpHdr): (bs: seq<Byte>)
    ensures |bs| == 28
  {
    Bytes16(a.hrd) + Bytes16(a.pro) + [a.hln, a.pln] + Bytes16(a.op)
    + a.sha + Bytes32(a.sip) + a.tha + Bytes32(a.tip)
  }

  function ParseArp(b: seq<Byte>): ArpHdr
    requires |b| == 28
  {
    ArpHdr(Join16(b[0], b[1]), Join16(b[2], b[3]), b[4], b[5], Join16(b[6], b[7]),
           b[8..14], Join32(b[14..18]), b[18..24], Join32(b[24..28]))
  }

  function ParsePayload(etherType: Word16, rest: seq<Byte>): Payload {
    if etherType == TYPE_IP && |rest| >= 20 then Ip(ParseIp(rest[..20]), rest[20..])
    else if etherType == TYPE_ARP && |rest| >= 28 then Arp(ParseArp(rest[..28]), rest[28..])
    else Raw(etherType, rest)
  }

  /** How `sr_handlepacket` reads a buffer of at least an Ethernet header. */
  function Parse(b: seq<Byte>): Frame
    requires |b| >= 14
  {
    Frame(b[..6], b[6..12], ParsePayload(Join16(b[12], b[13]), b[14..]))
  }

  function PayloadBytes(p: Payload): seq<Byte> {
    match p
    case Ip(h, data) => Bytes16(TYPE_IP) + IpBytes(h) + data
    case Arp(a, trailer) => Bytes16(TYPE_ARP) + ArpBytes(a) + trailer
    case Raw(etherType, rest) => Bytes16(etherType) + rest
  }

  function Serialize(f: Frame): seq<Byte> {
    f.dhost + f.shost + PayloadBytes(f.payload)
  }

  lemma IpRoundTrip(b: seq<Byte>)
    requires |b| == 20
    ensures IpBytes(ParseIp(b)) == b
  {
    Bytes16Join16(b[2], b[3]);
    Bytes16Join16(b[4], b[5]);
    Bytes16Join16(b[6], b[7]);
    Bytes16Join16(b[10], b[11]);
    Bytes32Join32(b[12..16]);
    Bytes32Join32(b[16..20]);
    hide Bytes16, Bytes32, Join16, Join32;
    var h := ParseIp(b);
    assert b[..4] == [h.vhl, h.tos] + Bytes16(h.len);
    assert b[..6] == b[..4] + Bytes16(h.id);
    assert b[..8] == b[..6] + Bytes16(h.off);
    assert b[..10] == b[..8] + [h.ttl, h.proto];
    assert b[..12] == b[..10] + Bytes16(h.sum);
    assert b[..16] == b[..12] + Bytes32(h.src);
    assert b == b[..16] + Bytes32(h.dst);
  }

  lemma IpParses(h: IpHdr)
    ensures ParseIp(IpBytes(h)) == h
  {
    Join16Bytes16(h.len);
    Join16Bytes16(h.id);
    Join16Bytes16(h.off);
    Join16Bytes16(h.sum);
    Join32Bytes32(h.src);
    Join32Bytes32(h.dst);
    hide Bytes16, Bytes32, Join16, Join32;
    var b := IpBytes(h);
    assert b[2..4] == Bytes16(h.len) && b[4..6] == Bytes16(h.id) && b[6..8] == Bytes16(h.off);
    assert b[10..12] == Bytes16(h.sum) && b[12..16] == Bytes32(h.src) && b[16..20] == Bytes32(h.dst);
    assert b[2] == b[2..4][0] && b[3] == b[2..4][1] && b[4] == b[4..6][0] && b[5] == b[4..6][1];
    assert b[6] == b[6..8][0] && b[7] == b[6..8][1] && b[10] == b[10..12][0] && b[11] == b[10..12][1];
  }

  lemma ArpRoundTrip(b: seq<Byte>)
    requires |b| == 28
    ensures ArpBytes(ParseArp(b)) == b
  {
    Bytes16Join16(b[0], b[1]);
    Bytes16Join16(b[2], b[3]);
    Bytes16Join16(b[6], b[7]);
    Bytes32Join32(b[14..18]);
    Bytes32Join32(b[24..28]);
    hide Bytes16, Bytes32, Join16, Join32;
    var a := ParseArp(b);
    assert b[..2] == Bytes16(a.hrd);
    assert b[..4] == b[..2] + Bytes16(a.pro);
    assert b[..6] == b[..4] + [a.hln, a.pln];
    assert b[..8] == b[..6] + Bytes16(a.op);
    assert b[..14] == b[..8] + a.sha;
    assert b[..18] == b[..14] + Bytes32(a.sip);
    assert b[..24] == b[..18] + a.tha;
    assert b == b[..24] + Bytes32(a.tip);
  }

  lemma ArpParses(a: ArpHdr)
    ensures ParseArp(ArpBytes(a)) == a
  {
    Join16Bytes16(a.hrd);
    Join16Bytes16(a.pro);
    Join16Bytes16(a.op);
    Join32Bytes32(a.sip);
    Join32Bytes32(a.tip);
    hide Bytes16, Bytes32, Join16, Join32;
    var b := ArpBytes(a);
    assert b[0..2] == Bytes16(a.hrd) && b[2..4] == Bytes16(a.pro) && b[6..8] == Bytes16(a.op);
    assert b[8..14] == a.sha && b[14..18] == Bytes32(a.sip) && b[18..24] == a.tha && b[24..28] == Bytes32(a.tip);
    assert b[0] == b[0..2][0] && b[1] == b[0..2][1] && b[2] == b[2..4][0] && b[3] == b[2..4][1];
    assert b[6] == b[6..8][0] && b[7] == b[6..8][1];
  }

  /** Reading a buffer as a frame loses nothing, whatever the bytes are. */
  lemma BytesRoundTrip(b: seq<Byte>)
    requires |b| >= 14
    ensures Serialize(Parse(b)) == b
  {
    hide Bytes16, Join16, ParsePayload, PayloadBytes;
    Bytes16Join16(b[12], b[13]);
    PayloadRoundTrip(Join16(b[12], b[13]), b[14..]);
    assert b == b[..6] + b[6..12] + ([b[12], b[13]] + b[14..]);
  }

  lemma PayloadRoundTrip(etherType: Word16, rest: seq<Byte>)
    ensures PayloadBytes(ParsePayload(etherType, rest)) == Bytes16(etherType) + rest
  {
    hide Bytes16, IpBytes, ArpBytes, ParseIp, ParseArp;
    if etherType == TYPE_IP && |rest| >= 20 {
      IpRoundTrip(rest[..20]);
    } else if etherType == TYPE_ARP && |rest| >= 28 {
      ArpRoundTrip(rest[..28]);
    }
  }

  /** A frame is written so that it is read back unchanged; `Raw` must not look like a complete header. */
  lemma FrameRoundTrip(f: Frame)
    requires f.payload.Raw? ==> ParsePayload(f.payload.etherType, f.payload.rest) == f.payload
    ensures |Serialize(f)| >= 14 && Parse(Serialize(f)) == f
  {
    hide Serialize, Join16, Bytes16, IpBytes, ArpBytes, ParseIp, ParseArp;
    match f.payload
    case Ip(h, data) =>
      IpParses(h);
      SplitFrame(f, TYPE_IP, IpBytes(h) + data);
      assert (IpBytes(h) + data)[..20] == IpBytes(h) && (IpBytes(h) + data)[20..] == data;
    case Arp(a, trailer) =>
      ArpParses(a);
      SplitFrame(f, TYPE_ARP, ArpBytes(a) + trailer);
      assert (ArpBytes(a) + trailer)[..28] == ArpBytes(a) && (ArpBytes(a) + trailer)[28..] == trailer;
    case Raw(etherType, rest) =>
      SplitFrame(f, etherType, rest);
  }

  lemma SplitFrame(f: Frame, etherType: Word16, rest: seq<Byte>)
    requires PayloadBytes(f.payload) == Bytes16(etherType) + rest
    ensures var b := Serialize(f);
      |b| >= 14 && b[..6] == f.dhost && b[6..12] == f.shost && Join16(b[12], b[13]) == etherType && b[14..] == rest
  {
    hide PayloadBytes;
    Join16Bytes16(etherType);
    var b := Serialize(f);
    assert b[12..] == Bytes16(etherType) + rest;
    assert b[12] == b[12..][0] && b[13] == b[12..][1] && b[14..] == b[12..][2..];
  }

  /** The four bytes of an address or number at `at`, the highest first. */
  predicate Word32At(b: seq<Byte>, at: nat, w: Word32) {
    at + 4 <= |b| && b[at] == w / 0x100_0000 && b[at + 1] == w / 0x1_0000 % 256 && b[at + 2] == w / 256 % 256 && b[at + 3] == w % 256
  }

  predicate Word16At(b: seq<Byte>, at: nat, w: Word16) {
    at + 2 <= |b| && b[at] == w / 256 && b[at + 1] == w % 256
  }

  lemma Bytes32At(w: Word32)
    ensures Word32At(Bytes32(w), 0, w)
  {
    var hi, lo := w / 0x1_0000, w % 0x1_0000;
    var a, b, c, d := hi / 256, hi % 256, lo / 256, lo % 256;
    assert Bytes32(w) == [a, b, c, d];
    assert hi == 256 * a + b && lo == 256 * c + d && w == 0x1_0000 * hi + lo;
    assert w / 256 == 0x1_0000 * a + 256 * b + c && w / 0x100_0000 == a;
  }

  lemma WordAtShift(a: seq<Byte>, b: seq<Byte>, c: seq<Byte>, at: nat, w: Word32)
    requires Word32At(b, at, w)
    ensures Word32At(a + b + c, |a| + at, w)
  {
  }

  /** Every field of an IPv4 header is where RFC 791 puts it. */
  lemma IpOnTheWire(h: IpHdr)
    ensures var b := IpBytes(h);
      b[0] == h.vhl && b[1] == h.tos && Word16At(b, 2, h.len) && Word16At(b, 4, h.id) && Word16At(b, 6, h.off) &&
      b[8] == h.ttl && b[9] == h.proto && Word16At(b, 10, h.sum) && Word32At(b, 12, h.src) && Word32At(b, 16, h.dst)
  {
    hide Bytes32;
    Bytes32At(h.src);
    Bytes32At(h.dst);
    var b := IpBytes(h);
    assert b[12..16] == Bytes32(h.src) && b[16..20] == Bytes32(h.dst);
    assert b == b[..12] + Bytes32(h.src) + b[16..] && b == b[..16] + Bytes32(h.dst) + [];
    WordAtShift(b[..12], Bytes32(h.src), b[16..], 0, h.src);
    WordAtShift(b[..16], Bytes32(h.dst), [], 0, h.dst);
  }

  /** Every field of an ARP packet is where RFC 826 puts it. */
  lemma ArpOnTheWire(a: ArpHdr)
    ensures var b := ArpBytes(a);
      Word16At(b, 0, a.hrd) && Word16At(b, 2, a.pro) && b[4] == a.hln && b[5] == a.pln && Word16At(b, 6, a.op) &&
      b[8..14] == a.sha && Word32At(b, 14, a.sip) && b[18..24] == a.tha && Word32At(b, 24, a.tip)
  {
    hide Bytes32;
    Bytes32At(a.sip);
    Bytes32At(a.tip);
    var b := ArpBytes(a);
    assert b[14..18] == Bytes32(a.sip) && b[24..28] == Bytes32(a.tip);
    assert b == b[..14] + Bytes32(a.sip) + b[18..] && b == b[..24] + Bytes32(a.tip) + [];
    WordAtShift(b[..14], Bytes32(a.sip), b[18..], 0, a.sip);
    WordAtShift(b[..24], Bytes32(a.tip), [], 0, a.tip);
  }

  /** Destination, source, type 0x0800 or 0x0806, then the header and what follows it. */
  lemma FrameOnTheWire(f: Frame)
    ensures var b := Serialize(f);
      |b| >= 14 && b[..6] == f.dhost && b[6..12] == f.shost &&
      match f.payload
      case Ip(h, data) => b[12] == 0x08 && b[13] == 0x00 && |b| >= 34 && b[14..34] == IpBytes(h) && b[34..] == data
      case Arp(a, trailer) => b[12] == 0x08 && b[13] == 0x06 && |b| >= 42 && b[14..42] == ArpBytes(a) && b[42..] == trailer
      case Raw(etherType, rest) => Word16At(b, 12, etherType) && b[14..] == rest
  {
    hide IpBytes, ArpBytes;
    var b, p := Serialize(f), PayloadBytes(f.payload);
    assert b[12..] == p;
    assert |p| >= 2 && b[12] == p[0] && b[13] == p[1] && b[14..] == p[2..];
    match f.payload
    case Ip(h, data) =>
      assert p[2..] == IpBytes(h) + data;
      assert b[14..34] == b[14..][..20] && b[34..] == b[14..][20..];
    case Arp(a, trailer) =>
      assert p[2..] == ArpBytes(a) + trailer;
      assert b[14..42] == b[14..][..28] && b[42..] == b[14..][28..];
    case Raw(_, rest) => assert p[2..] == rest;
  }

  /** What a buffer is read as, told from its bytes. */
  lemma ReadsFromTheWire(b: seq<Byte>)
    requires |b| >= 14
    ensures var f := Parse(b);
      f.dhost == b[..6] && f.shost == b[6..12] &&
      (f.payload.Ip? <==> b[12] == 0x08 && b[13] == 0x00 && |b| >= 34) &&
      (f.payload.Arp? <==> b[12] == 0x08 && b[13] == 0x06 && |b| >= 42) &&
      (f.payload.Ip? ==> IpBytes(f.payload.h) == b[14..34] && f.payload.data == b[34..]) &&
      (f.payload.Arp? ==> ArpBytes(f.payload.a) == b[14..42] && f.payload.trailer == b[42..])
  {
    hide IpBytes, ArpBytes, ParseIp, ParseArp;
    BytesRoundTrip(b);
    FrameOnTheWire(Parse(b));
  }

  // ----- checksums in headers

  /** The value `cksum` leaves in the header when the field was cleared first. */
  function HeaderChecksum(h: IpHdr): Word16 {
    NetChecksum(IpBytes(h.(sum := 0)))
  }

  /** The validation of `sr_handlepacket`. */
  predicate HeaderOk(h: IpHdr) {
    h.vhl / 16 == 4 && h.sum == HeaderChecksum(h)
  }

  function Seal(h: IpHdr): IpHdr {
    h.(sum := HeaderChecksum(h))
  }

  lemma SealedHeaderOk(h: IpHdr)
    requires h.vhl / 16 == 4
    ensures HeaderOk(Seal(h))
  {
    assert Seal(h).(sum := 0) == h.(sum := 0);
  }

  /** On the bytes of the header, validation is the RFC 1071 check with the field at offset 10. */
  lemma HeaderOkOnTheWire(h: IpHdr)
    ensures HeaderOk(h) <==> h.vhl / 16 == 4 && h.sum != 0 && Fold(WordSum(IpBytes(h))) == 0xffff
  {
    var b := IpBytes(h);
    FieldOfHeader(h);
    AcceptsIffSumFolds(b, 10);
  }

  lemma FieldOfHeader(h: IpHdr)
    ensures var b := IpBytes(h);
      Join16(b[10], b[11]) == h.sum && WithWord(b, 10, 0) == IpBytes(h.(sum := 0))
  {
    Join16Bytes16(h.sum);
    hide Bytes16, Bytes32, Join16;
    var b, z := IpBytes(h), IpBytes(h.(sum := 0));
    assert b[10..12] == Bytes16(h.sum) && z[10..12] == Bytes16(0);
    assert b[10] == b[10..12][0] && b[11] == b[10..12][1];
    assert b[..10] == z[..10] && b[12..] == z[12..];
  }

  /** An ICMP message with its checksum, at offset 2, filled in. */
  function SealIcmp(data: seq<Byte>): (r: seq<Byte>)
    requires |data| >= 4
    ensures |r| == |data|
  {
    WithWord(data, 2, NetChecksum(WithWord(data, 2, 0)))
  }

  lemma SealedIcmpOk(data: seq<Byte>)
    requires |data| >= 4
    ensures Accepts(SealIcmp(data), 2)
  {
    SealedIsAccepted(data, 2);
  }

  // ----- the frames the router builds

  /** An echo request turned around in place. */
  function EchoReply(h: IpHdr, data: seq<Byte>): Payload
    requires |data| >= 4
  {
    Ip(Seal(h.(ttl := INIT_TTL, src := h.dst, dst := h.src)), SealIcmp(data[0 := 0]))
  }

  /** `ip_ttl--` on an unsigned byte. */
  function DecrementTtl(ttl: Byte): Byte {
    if ttl == 0 then 255 else ttl - 1
  }

  function ForwardedHeader(h: IpHdr): IpHdr {
    Seal(h.(ttl := DecrementTtl(h.ttl)))
  }

  /** The header of an ICMP error about a packet with header `h`, sent from address `from`. */
  function ErrorHeader(from: Word32, h: IpHdr): IpHdr {
    Seal(IpHdr(0x45, 0, 56, h.id, DONT_FRAGMENT, INIT_TTL, ICMP, 0, from, h.src))
  }

  /** The ICMP error itself quotes the header and the first eight bytes behind it. */
  function ErrorBody(kind: Byte, code: Byte, h: IpHdr, data: seq<Byte>): (r: seq<Byte>)
    requires |data| >= 8
    ensures |r| == 36
  {
    SealIcmp([kind, code, 0, 0, 0, 0, 0, 0] + IpBytes(h) + data[..8])
  }

  /** An ICMP error leaving through `ifc`; its destination MAC is whatever the fresh buffer holds. */
  function ErrorFrame(stale: Mac, ifc: Iface, kind: Byte, code: Byte, h: IpHdr, data: seq<Byte>): Frame
    requires |data| >= 8
  {
    Frame(stale, ifc.mac, Ip(ErrorHeader(ifc.ip, h), ErrorBody(kind, code, h, data)))
  }

  function ArpRequest(ifc: Iface, ip: Word32): Frame {
    Frame(BROADCAST, ifc.mac, Arp(ArpHdr(1, TYPE_IP, 6, 4, ARP_REQUEST, ifc.mac, ifc.ip, BROADCAST, ip), []))
  }

  /** An ARP request turned around in place. */
  function ArpReply(f: Frame, ifc: Iface): Frame
    requires f.payload.Arp?
  {
    var a := f.payload.a;
    Frame(f.shost, ifc.mac,
          Arp(a.(op := ARP_REPLY, tip := a.sip, sip := ifc.ip, tha := a.sha, sha := ifc.mac), f.payload.trailer))
  }

  // ----- the black list

  const BLOCKED_NET: Word32 := 0x0a00_0200   // 10.0.2.0
  const BLOCKED_MASK: Word32 := 0xffff_ff00  // 255.255.255.0

  /** The network address is compared as it is: masking leaves it unchanged (`NetIsMasked`). */
  predicate Blocked(ip: Word32) {
    And(ip, BLOCKED_MASK) == BLOCKED_NET
  }

  lemma NetIsMasked()
    ensures And(BLOCKED_NET, BLOCKED_MASK) == BLOCKED_NET
  {
    hide And;
    MaskValue();
    FitsWord(BLOCKED_NET);
    AndMask(BLOCKED_NET, 24, 8);
    Shift8(BLOCKED_NET);
    assert ShiftLeft(0x0a_0002, 4) == 0xa0_0020;
    assert ShiftLeft(0x0a_0002, 8) == BLOCKED_NET;
  }

  /** `ip_black_list`. */
  predicate BlackListed(h: IpHdr) {
    Blocked(h.src) || Blocked(h.dst)
  }

  /** A packet is dropped for its addresses if and only if one of them is in 10.0.2.0/24. */
  lemma BlackListedIff(h: IpHdr)
    ensures BlackListed(h) <==> 0x0a00_0200 <= h.src <= 0x0a00_02ff || 0x0a00_0200 <= h.dst <= 0x0a00_02ff
  {
    hide Blocked;
    BlockedRange(h.src);
    BlockedRange(h.dst);
  }

  /** The blocked addresses are exactly 10.0.2.0 to 10.0.2.255. */
  lemma BlockedRange(ip: Word32)
    ensures Blocked(ip) <==> 0x0a00_0200 <= ip <= 0x0a00_02ff
  {
    hide And, Mask;
    MaskValue();
    NetIsMasked();
    var r := Route(BLOCKED_NET, 0, BLOCKED_MASK, "");
    MatchesIffPrefixAgrees(r, ip, 24);
    Shift8(ip);
    Shift8(BLOCKED_NET);
  }

  lemma MaskValue()
    ensures Mask(24, 8) == 0xffff_ff00
  {
    assert Mask(4, 0) == 0xf && Mask(8, 0) == 0xff && Mask(12, 0) == 0xfff;
    assert Mask(16, 0) == 0xffff && Mask(20, 0) == 0xf_ffff && Mask(24, 0) == 0xff_ffff;
    assert Mask(24, 4) == 0xfff_fff0;
  }

  lemma Shift8(x: nat)
    ensures ShiftRight(x, 8) == x / 256
  {
    ShiftTwo(x, 6);
    ShiftTwo(x / 4, 4);
    ShiftTwo(x / 4 / 4, 2);
    ShiftTwo(x / 4 / 4 / 4, 0);
    assert x / 4 / 4 / 4 / 4 == x / 256;
  }

  lemma ShiftTwo(x: nat, j: nat)
    ensures ShiftRight(x, j + 2) == ShiftRight(x / 4, j)
  {
    assert ShiftRight(x, j + 2) == ShiftRight(x / 2, j + 1) == ShiftRight(x / 2 / 2, j);
    assert x / 2 / 2 == x / 4;
  }
}
