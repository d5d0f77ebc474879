/** What `sr_handlepacket` makes of a frame, up to the point where the ARP cache comes in. */
module Forwarding {
  import opened Words
  import opened Checksum
  import opened Routing
  import opened Frames

  /** `stale` is what a freshly allocated buffer holds where nothing is written: a destination MAC. */
  datatype Config = Config(ifaces: seq<Iface>, routes: seq<Route>, stale: Mac)

  /** Ways into undefined behaviour: a null pointer, a read past a buffer, a request that was freed. */
  datatype Why = NullInterface | NullRoute | ShortPacket | FreedRequest

  datatype Decision =
    | Drop
    | Crash(why: Why)
    /** Send `frame` out of `iface` to the host with address `ip`, resolving its MAC. */
    | Deliver(ip: Word32, frame: Frame, iface: string)
    /** Send as is. */
    | Answer(frame: Frame, iface: string)
    /** An ARP reply for this router. */
    | Learn(ip: Word32, mac: Mac)

  predicate IsOwnAddress(cfg: Config, ip: Word32) {
    exists i :: 0 <= i < |cfg.ifaces| && cfg.ifaces[i].ip == ip
  }

  function IfaceOf(cfg: Config, name: string): Option<Iface> {
    GetIface(cfg.ifaces, name)
  }

  function RouteTo(cfg: Config, ip: Word32): Option<Route> {
    Lpm(cfg.routes, ip)
  }

  /** The interface of the route to `ip`, when both exist. */
  function OutIface(cfg: Config, ip: Word32): Option<Iface> {
    if RouteTo(cfg, ip).None? then None else IfaceOf(cfg, RouteTo(cfg, ip).value.iface)
  }

  /** An ICMP error to the sender, through the interface the packet came in on. */
  function ErrorBack(cfg: Config, kind: Byte, code: Byte, h: IpHdr, data: seq<Byte>, iface: string): Decision {
    if IfaceOf(cfg, iface).None? then Crash(NullInterface)
    else if |data| < 8 then Crash(ShortPacket)
    else Deliver(h.src, ErrorFrame(cfg.stale, IfaceOf(cfg, iface).value, kind, code, h, data), iface)
  }

  /** A packet addressed to the router. */
  function Local(cfg: Config, f: Frame, h: IpHdr, data: seq<Byte>, iface: string): Decision {
    if h.proto == ICMP then
      if |data| < 4 || data[0] != 8 || !Accepts(data, 2) then Drop
      else
        match RouteTo(cfg, h.src)
        case None => Drop
        case Some(route) =>
          match IfaceOf(cfg, route.iface)
          case None => Crash(NullInterface)
          case Some(ifc) => Deliver(h.src, Frame(f.dhost, ifc.mac, EchoReply(h, data)), route.iface)
    else if h.proto == TCP || h.proto == UDP then
      if |data| < 8 then Drop else ErrorBack(cfg, 3, 3, h, data, iface)
    else Drop
  }

  /** A packet addressed elsewhere. */
  function Forward(cfg: Config, f: Frame, h: IpHdr, data: seq<Byte>, iface: string): Decision {
    match RouteTo(cfg, h.dst)
    case None => ErrorBack(cfg, 3, 0, h, data, iface)
    case Some(route) =>
      if h.ttl == 1 then ErrorBack(cfg, 11, 0, h, data, iface)
      else
        match IfaceOf(cfg, route.iface)
        case None => Crash(NullInterface)
        case Some(ifc) => Deliver(h.dst, Frame(f.dhost, ifc.mac, Ip(ForwardedHeader(h), data)), route.iface)
  }

  function HandleArp(cfg: Config, f: Frame, iface: string): Decision
    requires f.payload.Arp?
  {
    match IfaceOf(cfg, iface)
    case None => Crash(NullInterface)
    case Some(ifc) =>
      var a := f.payload.a;
      if a.tip != ifc.ip then Drop
      else if a.op == ARP_REQUEST then Answer(ArpReply(f, ifc), iface)
      else if a.op == ARP_REPLY then Learn(a.sip, a.sha)
      else Drop
  }

  function Decide(cfg: Config, f: Frame, iface: string): Decision {
    match f.payload
    case Raw(_, _) => Drop
    case Arp(_, _) => HandleArp(cfg, f, iface)
    case Ip(h, data) =>
      if !HeaderOk(h) || BlackListed(h) then Drop
      else if IsOwnAddress(cfg, h.dst) then Local(cfg, f, h, data, iface)
      else Forward(cfg, f, h, data, iface)
  }

  // ----- what leaves the router is well formed

  /** `sr_ether_addrs_match_interface`: the interface exists and the source MAC is its own. */
  predicate SendCheck(cfg: Config, iface: string, f: Frame) {
    IfaceOf(cfg, iface).Some? && f.shost == IfaceOf(cfg, iface).value.mac
  }

  /** No interface of the router lies in the blocked network. */
  predicate CleanIfaces(cfg: Config) {
    forall i :: 0 <= i < |cfg.ifaces| ==> !Blocked(cfg.ifaces[i].ip)
  }

  /** An IPv4 frame for `ip` that may leave through `iface` once its destination MAC is known. */
  ghost predicate Sound(cfg: Config, ip: Word32, f: Frame, iface: string) {
    SendCheck(cfg, iface, f) && f.payload.Ip? && f.payload.h.dst == ip && HeaderOk(f.payload.h) &&
    (CleanIfaces(cfg) ==> !BlackListed(f.payload.h))
  }

  lemma ErrorFrameSound(cfg: Config, kind: Byte, code: Byte, h: IpHdr, data: seq<Byte>, iface: string)
    requires IfaceOf(cfg, iface).Some? && |data| >= 8
    requires CleanIfaces(cfg) ==> !Blocked(h.src)
    ensures Sound(cfg, h.src, ErrorFrame(cfg.stale, IfaceOf(cfg, iface).value, kind, code, h, data), iface)
  {
    hide HeaderChecksum, Blocked, ErrorBody;
    var ifc := IfaceOf(cfg, iface).value;
    SealedHeaderOk(IpHdr(0x45, 0, 56, h.id, DONT_FRAGMENT, INIT_TTL, ICMP, 0, ifc.ip, h.src));
  }

  /** Every frame handed on for delivery is sound for the address it is delivered to. */
  lemma DeliveredIsSound(cfg: Config, f: Frame, iface: string)
    requires Decide(cfg, f, iface).Deliver?
    ensures var d := Decide(cfg, f, iface); Sound(cfg, d.ip, d.frame, d.iface)
  {
    hide HeaderChecksum, Blocked, ErrorFrame, Accepts, Lpm, GetIface, SealIcmp;
    var h, data := f.payload.h, f.payload.data;
    if IsOwnAddress(cfg, h.dst) && h.proto == ICMP {
      SealedHeaderOk(h.(ttl := INIT_TTL, src := h.dst, dst := h.src));
    } else if Decide(cfg, f, iface) == ErrorBack(cfg, 3, 3, h, data, iface) {
      ErrorFrameSound(cfg, 3, 3, h, data, iface);
    } else if Decide(cfg, f, iface) == ErrorBack(cfg, 3, 0, h, data, iface) {
      ErrorFrameSound(cfg, 3, 0, h, data, iface);
    } else if Decide(cfg, f, iface) == ErrorBack(cfg, 11, 0, h, data, iface) {
      ErrorFrameSound(cfg, 11, 0, h, data, iface);
    } else {
      SealedHeaderOk(h.(ttl := DecrementTtl(h.ttl)));
    }
  }

  /**
   * An ARP request of this router: to everybody, from the MAC and the address of the interface it leaves on, which is
   * that of the route to the address it asks for.
   */
  ghost predicate ProperRequest(cfg: Config, iface: string, f: Frame) {
    f.payload.Arp? && IfaceOf(cfg, iface).Some? &&
    var ifc, a := IfaceOf(cfg, iface).value, f.payload.a;
    f.dhost == [255, 255, 255, 255, 255, 255] && f.shost == ifc.mac && f.payload.trailer == [] &&
    a.hrd == 1 && a.pro == 0x0800 && a.hln == 6 && a.pln == 4 && a.op == 1 &&
    a.sha == ifc.mac && a.sip == ifc.ip && a.tha == [255, 255, 255, 255, 255, 255] &&
    RouteTo(cfg, a.tip).Some? && RouteTo(cfg, a.tip).value.iface == iface
  }

  /** An ARP reply of this router: it names the MAC and the address of the interface it leaves on. */
  ghost predicate ProperReply(cfg: Config, iface: string, f: Frame) {
    f.payload.Arp? && IfaceOf(cfg, iface).Some? &&
    var ifc, a := IfaceOf(cfg, iface).value, f.payload.a;
    f.shost == ifc.mac && a.op == 2 && a.sha == ifc.mac && a.sip == ifc.ip
  }

  lemma RequestIsProper(cfg: Config, ip: Word32)
    requires OutIface(cfg, ip).Some?
    ensures var ifc := OutIface(cfg, ip).value; ProperRequest(cfg, ifc.name, ArpRequest(ifc, ip))
  {
    hide Lpm, GetIface;
  }

  /** The ARP frame is for the address of the interface it came in on. */
  predicate ForUs(cfg: Config, f: Frame, iface: string) {
    f.payload.Arp? && IfaceOf(cfg, iface).Some? && f.payload.a.tip == IfaceOf(cfg, iface).value.ip
  }

  /**
   * Who is answered, and who is believed. Exactly the ARP requests for the address of the interface they came in on
   * are answered, out of that interface, to the asker, with the address asked for and its MAC as the sender and the
   * asker as the target; nothing else in the frame changes. Exactly the ARP replies to that address are learned from,
   * namely that their sender's address is at their sender's MAC.
   */
  lemma WhoIsAnswered(cfg: Config, f: Frame, iface: string)
    ensures var d := Decide(cfg, f, iface);
      (d.Answer? <==> ForUs(cfg, f, iface) && f.payload.a.op == 1) && (d.Learn? <==> ForUs(cfg, f, iface) && f.payload.a.op == 2)
    ensures var d := Decide(cfg, f, iface); d.Answer? ==>
      d.iface == iface && d.frame.payload.Arp? &&
      var ifc, a, r := IfaceOf(cfg, iface).value, f.payload.a, d.frame.payload.a;
      d.frame.dhost == f.shost && d.frame.shost == ifc.mac && d.frame.payload.trailer == f.payload.trailer &&
      r.hrd == a.hrd && r.pro == a.pro && r.hln == a.hln && r.pln == a.pln && r.op == 2 &&
      r.sha == ifc.mac && r.sip == a.tip && r.tha == a.sha && r.tip == a.sip
    ensures var d := Decide(cfg, f, iface); d.Learn? ==> d.ip == f.payload.a.sip && d.mac == f.payload.a.sha
  {
    hide HeaderOk, BlackListed, Accepts, Lpm, GetIface, ErrorFrame, EchoReply, ForwardedHeader;
  }

  lemma AnswersAreProper(cfg: Config, f: Frame, iface: string)
    requires Decide(cfg, f, iface).Answer?
    ensures var d := Decide(cfg, f, iface); ProperReply(cfg, d.iface, d.frame)
  {
    hide Decide, GetIface;
    WhoIsAnswered(cfg, f, iface);
  }

  // ----- when the handler is defined

  /** What `sr_verify_routing_table` establishes. */
  ghost predicate Verified(cfg: Config) {
    forall r :: r in cfg.routes ==> IfaceOf(cfg, r.iface).Some?
  }

  /** An ICMP error about the packet has to be sent through an interface that is missing, or to quote more than there is. */
  predicate ErrorFails(cfg: Config, data: seq<Byte>, iface: string) {
    IfaceOf(cfg, iface).None? || |data| < 8
  }

  /**
   * Exactly when the packet handler runs into undefined behaviour before the cache is consulted, on any configuration:
   * an ARP frame or an ICMP error without an arrival interface, an ICMP error about a packet too short to quote, and a
   * route, for a packet in transit or an echo reply, whose interface is missing.
   */
  lemma CrashesIff(cfg: Config, f: Frame, iface: string)
    ensures Decide(cfg, f, iface).Crash? <==>
      match f.payload
      case Raw(_, _) => false
      case Arp(_, _) => IfaceOf(cfg, iface).None?
      case Ip(h, data) =>
        HeaderOk(h) && !BlackListed(h) &&
        if IsOwnAddress(cfg, h.dst) then
          (h.proto in {6, 17} && |data| >= 8 && IfaceOf(cfg, iface).None?) ||
          (h.proto == 1 && |data| >= 4 && data[0] == 8 && Accepts(data, 2) && RouteTo(cfg, h.src).Some? && OutIface(cfg, h.src).None?)
        else if RouteTo(cfg, h.dst).None? || h.ttl == 1 then ErrorFails(cfg, data, iface)
        else OutIface(cfg, h.dst).None?
  {
    hide HeaderOk, BlackListed, Accepts, GetIface, Lpm;
  }

  /**
   * On a verified configuration, a frame that came in on an existing interface is handled without
   * undefined behaviour unless an ICMP error must quote more than the packet holds, and exactly then not.
   */
  lemma DecideIsDefined(cfg: Config, f: Frame, iface: string)
    requires Verified(cfg) && IfaceOf(cfg, iface).Some?
    ensures Decide(cfg, f, iface).Crash? <==>
              f.payload.Ip? && HeaderOk(f.payload.h) && !BlackListed(f.payload.h) && |f.payload.data| < 8
              && !IsOwnAddress(cfg, f.payload.h.dst)
              && (RouteTo(cfg, f.payload.h.dst).None? || f.payload.h.ttl == 1)
  {
    hide HeaderOk, BlackListed, Accepts, GetIface, Lpm;
    if f.payload.Ip? {
      VerifiedRoutesResolve(cfg.routes, cfg.ifaces, f.payload.h.dst);
      VerifiedRoutesResolve(cfg.routes, cfg.ifaces, f.payload.h.src);
    }
  }

  // ----- what the answers say

  /**
   * An ICMP error names its kind, has a valid checksum, and quotes the packet it is about: the header in it reads
   * back as the offending one, followed by the first eight bytes of its data. It is addressed to the sender. Its own
   * header has no options, the identification of the offending one, "don't fragment" and the full time to live.
   */
  lemma ErrorQuotesPacket(stale: Mac, ifc: Iface, kind: Byte, code: Byte, h: IpHdr, data: seq<Byte>)
    requires |data| >= 8
    ensures var p := ErrorFrame(stale, ifc, kind, code, h, data).payload;
      p.data[0] == kind && p.data[1] == code && Accepts(p.data, 2) &&
      ParseIp(p.data[8..28]) == h && p.data[28..] == data[..8] &&
      p.h.src == ifc.ip && p.h.dst == h.src && p.h.proto == 1 && p.h.len == |IpBytes(p.h) + p.data| && HeaderOk(p.h)
    ensures var p := ErrorFrame(stale, ifc, kind, code, h, data).payload;
      p.h.vhl == 0x45 && p.h.tos == 0 && p.h.id == h.id && p.h.off == 0x4000 && p.h.ttl == 255 && p.data[4..8] == [0, 0, 0, 0]
  {
    hide IpBytes, ParseIp, NetChecksum, HeaderChecksum;
    var plain := [kind, code, 0, 0, 0, 0, 0, 0] + IpBytes(h) + data[..8];
    SealedIcmpOk(plain);
    IpParses(h);
    var body := ErrorBody(kind, code, h, data);
    assert body[4..] == plain[4..];
    assert body[4..8] == body[4..][..4] == plain[4..8] == [0, 0, 0, 0];
    assert body[8..28] == body[4..][4..24] == plain[8..28] == IpBytes(h);
    assert body[28..] == body[4..][24..] == plain[28..] == data[..8];
    SealedHeaderOk(IpHdr(0x45, 0, 56, h.id, DONT_FRAGMENT, INIT_TTL, ICMP, 0, ifc.ip, h.src));
  }

  /**
   * An echo reply exchanges the addresses, is of type 0, keeps code, identifier and data and the rest of the header but
   * for a full time to live, and has valid checksums.
   */
  lemma EchoReplyMirrors(h: IpHdr, data: seq<Byte>)
    requires |data| >= 4 && h.vhl / 16 == 4
    ensures var p := EchoReply(h, data);
      p.Ip? && p.h.src == h.dst && p.h.dst == h.src && p.h.ttl == 255 && HeaderOk(p.h) && p.h.id == h.id && p.h.len == h.len &&
      p.h.vhl == h.vhl && p.h.tos == h.tos && p.h.off == h.off && p.h.proto == h.proto &&
      |p.data| == |data| && p.data[0] == 0 && p.data[1] == data[1] && p.data[4..] == data[4..] && Accepts(p.data, 2)
  {
    hide NetChecksum, HeaderChecksum;
    SealedIcmpOk(data[0 := 0]);
    SealedHeaderOk(h.(ttl := INIT_TTL, src := h.dst, dst := h.src));
    var d := SealIcmp(data[0 := 0]);
    assert d[4..] == data[0 := 0][4..] == data[4..];
  }

  /** The decision to send the sender an ICMP message of type 0 from the address of this router that it wrote to. */
  ghost predicate Echoes(cfg: Config, d: Decision, f: Frame)
    requires f.payload.Ip?
  {
    d.Deliver? && d.ip == f.payload.h.src && d.frame.payload.Ip? && IsOwnAddress(cfg, d.frame.payload.h.src) &&
    d.frame.payload.h.src == f.payload.h.dst && d.frame.payload.h.dst == f.payload.h.src &&
    d.frame.payload.h.proto == 1 && |d.frame.payload.data| > 0 && d.frame.payload.data[0] == 0
  }

  /** A valid ICMP echo request to this router from a host with a route. */
  predicate Pings(cfg: Config, f: Frame)
    requires f.payload.Ip?
  {
    HeaderOk(f.payload.h) && !BlackListed(f.payload.h) && IsOwnAddress(cfg, f.payload.h.dst) && f.payload.h.proto == 1 &&
    |f.payload.data| >= 4 && f.payload.data[0] == 8 && Accepts(f.payload.data, 2) && OutIface(cfg, f.payload.h.src).Some?
  }

  /**
   * Exactly the valid echo requests to this router from hosts with a route are answered, out of the interface of that
   * route, with everything kept but what makes it a reply.
   */
  lemma WhoIsEchoed(cfg: Config, f: Frame, iface: string)
    requires f.payload.Ip?
    ensures Echoes(cfg, Decide(cfg, f, iface), f) <==> Pings(cfg, f)
    ensures |f.payload.data| <= 131074 && Pings(cfg, f) ==>
      Join16(f.payload.data[2], f.payload.data[3]) != 0 && Fold(WordSum(f.payload.data)) == 0xffff
    ensures var d := Decide(cfg, f, iface); Pings(cfg, f) ==>
      var h, data, g := f.payload.h, f.payload.data, d.frame;
      d.iface == RouteTo(cfg, h.src).value.iface && g.shost == OutIface(cfg, h.src).value.mac && HeaderOk(g.payload.h) &&
      g.payload.h.vhl == h.vhl && g.payload.h.tos == h.tos && g.payload.h.len == h.len && g.payload.h.id == h.id &&
      g.payload.h.off == h.off && g.payload.h.ttl == 255 && |g.payload.data| == |data| && g.payload.data[1] == data[1] &&
      g.payload.data[4..] == data[4..] && Accepts(g.payload.data, 2)
  {
    hide HeaderOk, BlackListed, Accepts, Lpm, GetIface, ErrorBody, EchoReply, Fold, WordSum;
    var h, data := f.payload.h, f.payload.data;
    if |data| >= 4 && HeaderOk(h) {
      VersionFour(h);
      EchoReplyMirrors(h, data);
    }
    if 4 <= |data| <= 131074 {
      AcceptsIffSumFolds(data, 2);
    }
    if |data| >= 8 && IfaceOf(cfg, iface).Some? {
      var ifc := IfaceOf(cfg, iface).value;
      ErrorQuotesPacket(cfg.stale, ifc, 3, 3, h, data);
      ErrorQuotesPacket(cfg.stale, ifc, 3, 0, h, data);
      ErrorQuotesPacket(cfg.stale, ifc, 11, 0, h, data);
    }
  }

  lemma VersionFour(h: IpHdr)
    requires HeaderOk(h)
    ensures h.vhl / 16 == 4
  {
  }

  /**
   * The decision to tell the sender, from the address of the interface the packet came in on and through that
   * interface, what happened to that packet.
   */
  ghost predicate TellsSender(cfg: Config, d: Decision, f: Frame, iface: string, kind: Byte, code: Byte)
    requires f.payload.Ip?
  {
    d.Deliver? && d.ip == f.payload.h.src && d.iface == iface && IfaceOf(cfg, iface).Some? &&
    d.frame.payload.Ip? && |d.frame.payload.data| == 36 && d.frame.payload.h.src == IfaceOf(cfg, iface).value.ip &&
    d.frame.payload.h.dst == f.payload.h.src && d.frame.payload.h.proto == 1 &&
    d.frame.payload.data[0] == kind && d.frame.payload.data[1] == code && Accepts(d.frame.payload.data, 2) &&
    ParseIp(d.frame.payload.data[8..28]) == f.payload.h
  }

  /**
   * What is the matter with a packet: one for the router over TCP or UDP makes a port unreachable, one without a
   * route a network unreachable, and one that may travel no further a time exceeded.
   */
  function Complaint(cfg: Config, h: IpHdr): Option<(Byte, Byte)> {
    if IsOwnAddress(cfg, h.dst) then (if h.proto in {6, 17} then Some((3, 3)) else None)
    else if RouteTo(cfg, h.dst).None? then Some((3, 0))
    else if h.ttl == 1 then Some((11, 0))
    else None
  }

  /**
   * Who gets which ICMP error, and who gets none: an error goes back exactly for the valid packets outside the
   * blocked network that came in on an existing interface, hold what it quotes and have something the matter.
   * (Type 0 is the echo reply.)
   */
  lemma WhoIsTold(cfg: Config, f: Frame, iface: string, kind: Byte, code: Byte)
    requires f.payload.Ip? && kind != 0
    ensures TellsSender(cfg, Decide(cfg, f, iface), f, iface, kind, code) <==>
              HeaderOk(f.payload.h) && !BlackListed(f.payload.h) && |f.payload.data| >= 8 && IfaceOf(cfg, iface).Some?
              && Complaint(cfg, f.payload.h) == Some((kind, code))
  {
    hide HeaderOk, BlackListed, Accepts, Lpm, GetIface, ErrorBody, ParseIp, EchoReply;
    var h, data, d := f.payload.h, f.payload.data, Decide(cfg, f, iface);
    if |data| >= 8 && IfaceOf(cfg, iface).Some? {
      var ifc := IfaceOf(cfg, iface).value;
      assert IsOwnAddress(cfg, ifc.ip) by { IfaceIsOwn(cfg, iface); }
      ErrorQuotesPacket(cfg.stale, ifc, 3, 3, h, data);
      ErrorQuotesPacket(cfg.stale, ifc, 3, 0, h, data);
      ErrorQuotesPacket(cfg.stale, ifc, 11, 0, h, data);
    }
    if |data| >= 4 {
      EchoIsTypeZero(h, data);
    }
  }

  lemma IfaceIsOwn(cfg: Config, name: string)
    requires IfaceOf(cfg, name).Some?
    ensures IsOwnAddress(cfg, IfaceOf(cfg, name).value.ip)
  {
    var ifc := IfaceOf(cfg, name).value;
    assert ifc in cfg.ifaces;
  }

  lemma EchoIsTypeZero(h: IpHdr, data: seq<Byte>)
    requires |data| >= 4
    ensures var p := EchoReply(h, data); p.Ip? && |p.data| == |data| && p.data[0] == 0
  {
  }
}
