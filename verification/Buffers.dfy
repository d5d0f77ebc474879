/** Frames as they lie in memory, and the in-place edits of `sr_router.c` and `sr_arpcache.c`. */
module Buffers {
  import opened Words
  import opened Checksum
  import opened Routing
  import opened Frames

  function Overwrite(b: seq<Byte>, at: nat, bs: seq<Byte>): (r: seq<Byte>)
    requires at + |bs| <= |b|
    ensures |r| == |b|
  {
    b[..at] + bs + b[at + |bs|..]
  }

  /** `memcpy` into a buffer. */
  method Write(buf: array<Byte>, at: nat, bs: seq<Byte>)
    requires at + |bs| <= buf.Length
    modifies buf
    ensures buf[..] == Overwrite(old(buf[..]), at, bs)
  {
    ghost var b := buf[..];
    for i := 0 to |bs|
      invariant forall k :: 0 <= k < buf.Length ==> buf[k] == if at <= k < at + i then bs[k - at] else b[k]
    {
      buf[at + i] := bs[i];
    }
  }

  /** Storing a 16-bit integer on a little-endian host. */
  method StoreHost16(buf: array<Byte>, at: nat, w: Word16)
    requires at + 2 <= buf.Length
    modifies buf
    ensures buf[..] == Overwrite(old(buf[..]), at, Bytes16(Swap16(w)))
  {
    SwapBytes(w);
    hide Bytes16, Swap16;
    Write(buf, at, [w % 256, w / 256]);
  }

  lemma SwapBytes(w: Word16)
    ensures Bytes16(Swap16(w)) == [w % 256, w / 256]
  {
  }

  // ----- what an overwrite does to the frame

  lemma OverwriteDhost(f: Frame, mac: Mac)
    ensures Overwrite(Serialize(f), 0, mac) == Serialize(f.(dhost := mac))
  {
    hide PayloadBytes;
  }

  lemma OverwriteShost(f: Frame, mac: Mac)
    ensures |Serialize(f)| >= 12 && Overwrite(Serialize(f), 6, mac) == Serialize(f.(shost := mac))
  {
    hide PayloadBytes;
  }

  lemma OverwriteMiddle(a: seq<Byte>, b: seq<Byte>, c: seq<Byte>, at: nat, bs: seq<Byte>)
    requires at + |bs| <= |b|
    ensures Overwrite(a + b + c, |a| + at, bs) == a + Overwrite(b, at, bs) + c
  {
  }

  lemma IpLayout(f: Frame)
    requires f.payload.Ip?
    ensures Serialize(f) == (f.dhost + f.shost + Bytes16(TYPE_IP)) + IpBytes(f.payload.h) + f.payload.data
  {
    hide IpBytes, Bytes16;
  }

  lemma ArpLayout(f: Frame)
    requires f.payload.Arp?
    ensures Serialize(f) == (f.dhost + f.shost + Bytes16(TYPE_ARP)) + ArpBytes(f.payload.a) + f.payload.trailer
  {
    hide ArpBytes, Bytes16;
  }

  lemma OverwriteIp(f: Frame, at: nat, bs: seq<Byte>, h: IpHdr)
    requires f.payload.Ip? && at + |bs| <= 20 && Overwrite(IpBytes(f.payload.h), at, bs) == IpBytes(h)
    ensures |Serialize(f)| >= 34
    ensures Overwrite(Serialize(f), 14 + at, bs) == Serialize(f.(payload := Ip(h, f.payload.data)))
  {
    hide IpBytes, Bytes16, Overwrite;
    IpLayout(f);
    IpLayout(f.(payload := Ip(h, f.payload.data)));
    OverwriteMiddle(f.dhost + f.shost + Bytes16(TYPE_IP), IpBytes(f.payload.h), f.payload.data, at, bs);
  }

  lemma OverwriteData(f: Frame, at: nat, bs: seq<Byte>)
    requires f.payload.Ip? && at + |bs| <= |f.payload.data|
    ensures |Serialize(f)| == 34 + |f.payload.data|
    ensures Overwrite(Serialize(f), 34 + at, bs) == Serialize(f.(payload := Ip(f.payload.h, Overwrite(f.payload.data, at, bs))))
  {
    hide IpBytes, Bytes16, Overwrite;
    IpLayout(f);
    IpLayout(f.(payload := Ip(f.payload.h, Overwrite(f.payload.data, at, bs))));
    var front := f.dhost + f.shost + Bytes16(TYPE_IP) + IpBytes(f.payload.h);
    assert Serialize(f) == front + f.payload.data + [];
    OverwriteMiddle(front, f.payload.data, [], at, bs);
    var changed := Overwrite(f.payload.data, at, bs);
    assert front + changed + [] == front + changed;
  }

  lemma OverwriteArp(f: Frame, at: nat, bs: seq<Byte>, a: ArpHdr)
    requires f.payload.Arp? && at + |bs| <= 28 && Overwrite(ArpBytes(f.payload.a), at, bs) == ArpBytes(a)
    ensures |Serialize(f)| >= 42
    ensures Overwrite(Serialize(f), 14 + at, bs) == Serialize(f.(payload := Arp(a, f.payload.trailer)))
  {
    hide ArpBytes, Bytes16, Overwrite;
    ArpLayout(f);
    ArpLayout(f.(payload := Arp(a, f.payload.trailer)));
    OverwriteMiddle(f.dhost + f.shost + Bytes16(TYPE_ARP), ArpBytes(f.payload.a), f.payload.trailer, at, bs);
  }

  lemma IpFields(h: IpHdr, ttl: Byte, sum: Word16, src: Word32, dst: Word32)
    ensures Overwrite(IpBytes(h), 8, [ttl]) == IpBytes(h.(ttl := ttl))
    ensures Overwrite(IpBytes(h), 10, Bytes16(sum)) == IpBytes(h.(sum := sum))
    ensures Overwrite(IpBytes(h), 12, Bytes32(src)) == IpBytes(h.(src := src))
    ensures Overwrite(IpBytes(h), 16, Bytes32(dst)) == IpBytes(h.(dst := dst))
  {
    hide Bytes16, Bytes32;
  }

  lemma ArpFields(a: ArpHdr, op: Word16, mac: Mac, ip: Word32)
    ensures Overwrite(ArpBytes(a), 6, Bytes16(op)) == ArpBytes(a.(op := op))
    ensures Overwrite(ArpBytes(a), 8, mac) == ArpBytes(a.(sha := mac))
    ensures Overwrite(ArpBytes(a), 14, Bytes32(ip)) == ArpBytes(a.(sip := ip))
    ensures Overwrite(ArpBytes(a), 18, mac) == ArpBytes(a.(tha := mac))
    ensures Overwrite(ArpBytes(a), 24, Bytes32(ip)) == ArpBytes(a.(tip := ip))
  {
    hide Bytes16, Bytes32;
  }

  lemma IpSlices(f: Frame)
    requires f.payload.Ip?
    ensures var b := Serialize(f); |b| == 34 + |f.payload.data| && b[14..34] == IpBytes(f.payload.h) && b[34..] == f.payload.data
  {
    hide IpBytes, Bytes16, Serialize;
    IpLayout(f);
  }

  // ----- edits in place

  /** Clear the header checksum, compute it, store it. */
  method SealHeader(buf: array<Byte>, ghost f: Frame)
    requires f.payload.Ip? && buf[..] == Serialize(f)
    modifies buf
    ensures buf[..] == Serialize(f.(payload := Ip(Seal(f.payload.h), f.payload.data)))
  {
    hide Serialize, IpBytes, Overwrite, NetChecksum, Bytes16, Swap16;
    ghost var h, data := f.payload.h, f.payload.data;
    ghost var z := h.(sum := 0);
    IpSlices(f);
    IpFields(h, 0, 0, 0, 0);
    OverwriteIp(f, 10, Bytes16(0), z);
    Write(buf, 24, ZeroWord());
    ghost var g := f.(payload := Ip(z, data));
    IpSlices(g);
    var r := Cksum(buf[14..34]);
    StoreHost16(buf, 24, r);
    IpFields(z, 0, Swap16(r), 0, 0);
    OverwriteIp(g, 10, Bytes16(Swap16(r)), z.(sum := Swap16(r)));
    assert z.(sum := Swap16(r)) == Seal(h);
  }

  function ZeroWord(): (z: seq<Byte>)
    ensures z == Bytes16(0)
  {
    [0, 0]
  }

  /** The same for the ICMP message, whose checksum is at offset 2. */
  method SealIcmpAt(buf: array<Byte>, ghost f: Frame)
    requires f.payload.Ip? && |f.payload.data| >= 4 && buf[..] == Serialize(f)
    modifies buf
    ensures buf[..] == Serialize(f.(payload := Ip(f.payload.h, SealIcmp(f.payload.data))))
  {
    hide Serialize, IpBytes, NetChecksum, Bytes16, Swap16;
    ghost var h, data := f.payload.h, f.payload.data;
    IpSlices(f);
    OverwriteData(f, 2, Bytes16(0));
    Write(buf, 36, ZeroWord());
    ghost var z := Overwrite(data, 2, Bytes16(0));
    ghost var g := f.(payload := Ip(h, z));
    IpSlices(g);
    var r := Cksum(buf[34..]);
    StoreHost16(buf, 36, r);
    OverwriteData(g, 2, Bytes16(Swap16(r)));
    WithWordTwice(data, 2, 0, Swap16(r));
  }

  /** The validation of the IPv4 header; a packet that fails it is dropped with the field left cleared. */
  method CheckHeader(buf: array<Byte>, f: Frame) returns (ok: bool)
    requires f.payload.Ip? && buf[..] == Serialize(f)
    modifies buf
    ensures ok <==> HeaderOk(f.payload.h)
    ensures ok ==> buf[..] == Serialize(f)
  {
    hide Serialize, IpBytes, Overwrite, NetChecksum, Bytes16;
    var h := f.payload.h;
    if h.vhl / 16 != 4 {
      return false;
    }
    IpSlices(f);
    IpFields(h, 0, 0, 0, 0);
    OverwriteIp(f, 10, Bytes16(0), h.(sum := 0));
    Write(buf, 24, ZeroWord());
    ghost var g := f.(payload := Ip(h.(sum := 0), f.payload.data));
    IpSlices(g);
    var r := Cksum(buf[14..34]);
    Swap16Involutive(r);
    if Swap16(h.sum) != r {
      Swap16Involutive(h.sum);
      return false;
    }
    Swap16Involutive(h.sum);
    StoreHost16(buf, 24, r);
    IpFields(h.(sum := 0), 0, Swap16(r), 0, 0);
    OverwriteIp(g, 10, Bytes16(Swap16(r)), h);
    return true;
  }

  /** The rewriting of a packet that is forwarded. */
  method EditForward(buf: array<Byte>, f: Frame, ifc: Iface)
    requires f.payload.Ip? && buf[..] == Serialize(f)
    modifies buf
    ensures buf[..] == Serialize(Frame(f.dhost, ifc.mac, Ip(ForwardedHeader(f.payload.h), f.payload.data)))
  {
    hide Serialize, IpBytes, Overwrite, Seal;
    var h := f.payload.h;
    var ttl := DecrementTtl(h.ttl);
    IpSlices(f);
    IpFields(h, ttl, 0, 0, 0);
    OverwriteIp(f, 8, [ttl], h.(ttl := ttl));
    Write(buf, 22, [ttl]);
    ghost var g := f.(payload := Ip(h.(ttl := ttl), f.payload.data));
    SealHeader(buf, g);
    g := g.(payload := Ip(ForwardedHeader(h), f.payload.data));
    OverwriteShost(g, ifc.mac);
    Write(buf, 6, ifc.mac);
  }

  /** The rewriting of an echo request into a reply; the source MAC is set when the route is known. */
  method EditEcho(buf: array<Byte>, f: Frame)
    requires f.payload.Ip? && |f.payload.data| >= 4 && buf[..] == Serialize(f)
    modifies buf
    ensures buf[..] == Serialize(f.(payload := EchoReply(f.payload.h, f.payload.data)))
  {
    hide Serialize, IpBytes, Overwrite, Seal, SealIcmp, Bytes32;
    var h, data := f.payload.h, f.payload.data;
    IpSlices(f);
    ghost var h1 := h.(ttl := INIT_TTL);
    IpFields(h, INIT_TTL, 0, 0, 0);
    OverwriteIp(f, 8, [INIT_TTL], h1);
    Write(buf, 22, [INIT_TTL]);
    ghost var h2, g1 := h1.(src := h.dst), f.(payload := Ip(h1, data));
    IpFields(h1, 0, 0, h.dst, 0);
    OverwriteIp(g1, 12, Bytes32(h.dst), h2);
    Write(buf, 26, Bytes32(h.dst));
    ghost var h3, g2 := h2.(dst := h.src), f.(payload := Ip(h2, data));
    IpFields(h2, 0, 0, 0, h.src);
    OverwriteIp(g2, 16, Bytes32(h.src), h3);
    Write(buf, 30, Bytes32(h.src));
    SealHeader(buf, f.(payload := Ip(h3, data)));
    ghost var g4 := f.(payload := Ip(Seal(h3), data));
    OverwriteData(g4, 0, [0]);
    Write(buf, 34, [0]);
    assert Overwrite(data, 0, [0]) == data[0 := 0] by { OverwriteFirst(data); }
    SealIcmpAt(buf, f.(payload := Ip(Seal(h3), data[0 := 0])));
  }

  lemma OverwriteFirst(data: seq<Byte>)
    requires |data| >= 1
    ensures Overwrite(data, 0, [0]) == data[0 := 0]
  {
  }

  /** The rewriting of an ARP request into a reply. */
  method EditArpReply(buf: array<Byte>, f: Frame, ifc: Iface)
    requires f.payload.Arp? && buf[..] == Serialize(f)
    modifies buf
    ensures buf[..] == Serialize(ArpReply(f, ifc))
  {
    hide Serialize, ArpBytes, Overwrite, Bytes32, Bytes16;
    var a, trailer := f.payload.a, f.payload.trailer;
    ghost var a1 := a.(op := ARP_REPLY);
    ghost var a2 := a1.(tip := a.sip);
    ghost var a3 := a2.(sip := ifc.ip);
    ghost var a4 := a3.(tha := a.sha);
    ghost var a5 := a4.(sha := ifc.mac);
    ArpFields(a, ARP_REPLY, a.sha, 0);
    OverwriteArp(f, 6, Bytes16(ARP_REPLY), a1);
    Write(buf, 20, Bytes16(ARP_REPLY));
    ArpFields(a1, 0, a.sha, a.sip);
    OverwriteArp(f.(payload := Arp(a1, trailer)), 24, Bytes32(a.sip), a2);
    Write(buf, 38, Bytes32(a.sip));
    ArpFields(a2, 0, a.sha, ifc.ip);
    OverwriteArp(f.(payload := Arp(a2, trailer)), 14, Bytes32(ifc.ip), a3);
    Write(buf, 28, Bytes32(ifc.ip));
    var g := f.(payload := Arp(a3, trailer));
    OverwriteDhost(g, f.shost);
    Write(buf, 0, f.shost);
    g := g.(dhost := f.shost);
    ArpFields(a3, 0, a.sha, 0);
    OverwriteArp(g, 18, a.sha, a4);
    Write(buf, 32, a.sha);
    g := g.(payload := Arp(a4, trailer));
    OverwriteShost(g, ifc.mac);
    Write(buf, 6, ifc.mac);
    g := g.(shost := ifc.mac);
    ArpFields(a4, 0, ifc.mac, 0);
    OverwriteArp(g, 8, ifc.mac, a5);
    Write(buf, 22, ifc.mac);
  }

  /** A new buffer with an ICMP error about the packet with header `h`. */
  method BuildError(stale: Mac, ifc: Iface, kind: Byte, code: Byte, h: IpHdr, data: seq<Byte>) returns (buf: array<Byte>)
    requires |data| >= 8
    ensures fresh(buf) && buf[..] == Serialize(ErrorFrame(stale, ifc, kind, code, h, data))
  {
    hide Serialize, IpBytes, Overwrite, Seal, SealIcmp;
    buf := new Byte[70](i requires 0 <= i < 70 => if i < 6 then stale[i] else 0);
    var hdr := IpHdr(0x45, 0, 56, h.id, DONT_FRAGMENT, INIT_TTL, ICMP, 0, ifc.ip, h.src);
    var body := [kind, code, 0, 0, 0, 0, 0, 0] + IpBytes(h) + data[..8];
    ghost var f := Frame(stale, ifc.mac, Ip(hdr, body));
    assert buf[..6] == stale;
    OverwriteTail(buf[..], 6, ifc.mac + [8, 0] + IpBytes(hdr) + body);
    Write(buf, 6, ifc.mac + [8, 0] + IpBytes(hdr) + body);
    FreshLayout(buf[..], f);
    SealHeader(buf, f);
    SealIcmpAt(buf, f.(payload := Ip(Seal(hdr), body)));
  }

  lemma OverwriteTail(b: seq<Byte>, at: nat, bs: seq<Byte>)
    requires at + |bs| == |b|
    ensures Overwrite(b, at, bs)[..at] == b[..at] && Overwrite(b, at, bs)[at..] == bs
  {
  }

  lemma FreshLayout(b: seq<Byte>, f: Frame)
    requires f.payload.Ip? && |f.payload.data| == 36 && |b| == 70
    requires b[..6] == f.dhost && b[6..] == f.shost + [8, 0] + IpBytes(f.payload.h) + f.payload.data
    ensures b == Serialize(f)
  {
    hide IpBytes;
    assert b == b[..6] + b[6..];
    assert Bytes16(TYPE_IP) == [8, 0];
  }
}
