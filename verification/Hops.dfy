/** A packet on its way through a chain, or a loop, of these routers. */
module Hops {
  import opened Checksum
  import opened Routing
  import opened Frames
  import opened Forwarding

  /** A router on the path, the interface the frame reaches it on, and the MAC it will use for the next hop. */
  datatype Station = Station(cfg: Config, iface: string, mac: Mac)

  /** The router passes the packet on. */
  predicate Forwards(at: Station, f: Frame) {
    f.payload.Ip? && HeaderOk(f.payload.h) && !BlackListed(f.payload.h) && !IsOwnAddress(at.cfg, f.payload.h.dst) &&
    f.payload.h.ttl != 1 && OutIface(at.cfg, f.payload.h.dst).Some?
  }

  /** The frame on the wire behind that router. */
  function Onward(at: Station, f: Frame): Frame
    requires Forwards(at, f)
  {
    Frame(at.mac, OutIface(at.cfg, f.payload.h.dst).value.mac, Ip(ForwardedHeader(f.payload.h), f.payload.data))
  }

  /** How many routers of the path, one after the other, pass the packet on. */
  function Distance(path: seq<Station>, f: Frame): nat {
    if path == [] || !Forwards(path[0], f) then 0 else 1 + Distance(path[1..], Onward(path[0], f))
  }

  /** The frame as it leaves the last of them. */
  function Final(path: seq<Station>, f: Frame): Frame {
    if path == [] || !Forwards(path[0], f) then f else Final(path[1..], Onward(path[0], f))
  }

  /** The packets differ in TTL and header checksum at most. */
  ghost predicate SameButTtl(f: Frame, g: Frame) {
    f.payload.Ip? && g.payload.Ip? && g.payload.data == f.payload.data &&
    g.payload.h.(ttl := f.payload.h.ttl, sum := f.payload.h.sum) == f.payload.h
  }

  /** This is what the packet handler decides, and it hands on the packet it got, bar the TTL, in no other case. */
  lemma ForwardsIsDecided(at: Station, f: Frame)
    ensures var d := Decide(at.cfg, f, at.iface);
      Forwards(at, f) <==> d.Deliver? && SameButTtl(f, d.frame)
    ensures var d := Decide(at.cfg, f, at.iface);
      Forwards(at, f) ==> d.ip == f.payload.h.dst && d.frame.(dhost := at.mac) == Onward(at, f)
                          && d.iface == RouteTo(at.cfg, f.payload.h.dst).value.iface
  {
    hide HeaderOk, BlackListed, Lpm, GetIface, EchoReply, ErrorBody, HeaderChecksum;
    if f.payload.Ip? {
      var h, data := f.payload.h, f.payload.data;
      if IfaceOf(at.cfg, at.iface).Some? {
        IfaceIsOwn(at.cfg, at.iface);
      }
      if |data| >= 4 {
        EchoIsTypeZero(h, data);
      }
    }
  }

  /**
   * Every packet handed over for delivery is the one that came in, on its way, or an echo reply to its sender, or an
   * ICMP error about it to its sender; there is no fourth kind.
   */
  lemma EveryDelivery(at: Station, f: Frame)
    requires Decide(at.cfg, f, at.iface).Deliver?
    ensures var d := Decide(at.cfg, f, at.iface);
      f.payload.Ip? && (Forwards(at, f) || Pings(at.cfg, f) ||
                        exists kind, code :: kind != 0 && TellsSender(at.cfg, d, f, at.iface, kind, code))
  {
    hide HeaderOk, BlackListed, Lpm, GetIface, EchoReply, ErrorFrame, ForwardedHeader, TellsSender, Accepts, IsOwnAddress;
    var h, data := f.payload.h, f.payload.data;
    WhoIsTold(at.cfg, f, at.iface, 3, 3);
    WhoIsTold(at.cfg, f, at.iface, 3, 0);
    WhoIsTold(at.cfg, f, at.iface, 11, 0);
  }

  lemma OnwardIsValid(at: Station, f: Frame)
    requires Forwards(at, f)
    ensures SameButTtl(f, Onward(at, f)) && HeaderOk(Onward(at, f).payload.h)
    ensures Onward(at, f).payload.h.ttl == DecrementTtl(f.payload.h.ttl)
  {
    hide HeaderChecksum, BlackListed, Lpm, GetIface;
    SealedHeaderOk(f.payload.h.(ttl := DecrementTtl(f.payload.h.ttl)));
  }

  /** A packet with TTL t >= 1 is passed on at most t - 1 times; one with TTL 0 wraps and is passed on at most 255 times. */
  lemma {:induction false} HopLimit(path: seq<Station>, f: Frame)
    requires f.payload.Ip?
    ensures f.payload.h.ttl >= 1 ==> Distance(path, f) <= f.payload.h.ttl - 1
    ensures f.payload.h.ttl == 0 ==> Distance(path, f) <= 255
    decreases |path|
  {
    hide Forwards, Onward;
    if path != [] && Forwards(path[0], f) {
      OnwardIsValid(path[0], f);
      TtlIsNotOne(path[0], f);
      HopLimit(path[1..], Onward(path[0], f));
    }
  }

  lemma TtlIsNotOne(at: Station, f: Frame)
    requires Forwards(at, f)
    ensures f.payload.Ip? && f.payload.h.ttl != 1
  {
    hide HeaderOk, BlackListed;
  }

  /** Every router on the way receives a packet its validation accepts, unchanged but for TTL and checksum. */
  lemma {:induction false} EveryHopIsValid(path: seq<Station>, f: Frame)
    requires f.payload.Ip? && HeaderOk(f.payload.h)
    ensures SameButTtl(f, Final(path, f)) && HeaderOk(Final(path, f).payload.h)
    ensures (Final(path, f).payload.h.ttl + Distance(path, f)) % 256 == f.payload.h.ttl
    decreases |path|
  {
    hide Forwards, Onward, HeaderOk;
    if path != [] && Forwards(path[0], f) {
      OnwardIsValid(path[0], f);
      EveryHopIsValid(path[1..], Onward(path[0], f));
    }
  }
}
