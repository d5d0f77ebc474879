/**
 * The router as the program it is: an entry array and a request list changed in place by loops and by the
 * recursive handler. Every method is proved against the function of the state it implements.
 */
module Device {
  import opened Words
  import opened Checksum
  import opened Routing
  import opened Frames
  import opened Forwarding
  import opened Arp
  import opened Router
  import opened Buffers

  class Instance {
    const cfg: Config
    const entries: array<Entry>
    var requests: seq<Request>
    var nextNode: nat
    var clock: int
    /** What went out on the wire, and the other notable moments. */
    var log: seq<Log>
    ghost var direct: multiset<Packet>
    ghost var queued: multiset<Packet>
    ghost var flushed: multiset<Packet>
    ghost var expired: multiset<Packet>
    ghost var told: seq<Packet>

    ghost predicate Valid()
      reads this, entries
    {
      entries.Length == CACHE_SIZE && Ordered(requests, nextNode)
    }

    ghost function Abs(): State
      requires Valid()
      reads this, entries
    {
      State(entries[..], requests, nextNode, clock, log, direct, queued, flushed, expired, told)
    }

    /** `sr_arpcache_init`. */
    constructor (cfg: Config)
      ensures Valid() && Abs() == INITIAL && this.cfg == cfg && fresh(entries)
    {
      this.cfg := cfg;
      entries := new Entry[CACHE_SIZE](i => NO_ENTRY);
      requests, nextNode, clock, log := [], 0, 0, [];
      direct, queued, flushed, expired, told := multiset{}, multiset{}, multiset{}, multiset{}, [];
      new;
      assert entries[..] == NoEntries();
    }

    /** `sr_arpcache_lookup`: a scan to the end that remembers the last match. */
    method LookupEntry(ip: Word32) returns (r: Option<Entry>)
      requires Valid()
      ensures r == Lookup(entries[..], ip)
    {
      r := None;
      for i := 0 to CACHE_SIZE
        invariant r == Lookup(entries[..i], ip)
      {
        assert entries[..i + 1][..i] == entries[..i];
        if entries[i].valid && entries[i].ip == ip {
          r := Some(entries[i]);
        }
      }
      assert entries[..CACHE_SIZE] == entries[..];
    }

    /** `sr_send_packet`. */
    method SendPacket(iface: string, frame: Frame)
      requires Valid()
      modifies `log
      ensures Valid() && Abs() == Send(old(Abs()), iface, frame)
    {
      log := log + [Sent(clock, iface, frame)];
    }

    method FindByIp(ip: Word32) returns (i: nat)
      ensures i == IpIndex(requests, ip)
    {
      i := 0;
      while i < |requests| && requests[i].ip != ip
        invariant i <= |requests| && IpIndex(requests, ip) == i + IpIndex(requests[i..], ip)
      {
        assert requests[i..][1..] == requests[i + 1..];
        i := i + 1;
      }
    }

    method FindByNode(node: nat) returns (i: nat)
      ensures i == NodeIndex(requests, node)
    {
      i := 0;
      while i < |requests| && requests[i].node != node
        invariant i <= |requests| && NodeIndex(requests, node) == i + NodeIndex(requests[i..], node)
      {
        assert requests[i..][1..] == requests[i + 1..];
        i := i + 1;
      }
    }

    /** `sr_arpcache_queuereq`. */
    method QueueReq(ip: Word32, p: Packet) returns (node: nat)
      requires Valid()
      modifies `requests, `nextNode, `queued
      ensures Valid() && Abs() == Enqueue(old(Abs()), ip, p) && node == QueueNode(old(Abs()), ip)
    {
      var i := FindByIp(ip);
      if i == |requests| {
        requests := requests + [Request(nextNode, ip, 0, 0, [], clock, |log|)];
        nextNode := nextNode + 1;
      }
      var r := requests[i];
      requests := requests[i := r.(packets := [p] + r.packets)];
      queued := queued + multiset{p};
      node := r.node;
      assert i == |old(requests)| ==> [p] + r.packets == [p];
      assert requests == Enqueue(old(Abs()), ip, p).requests;
    }

    /** `sr_arpcache_insert`: unlink the request for the address, then fill the first free slot, if any. */
    method Insert(ip: Word32, mac: Mac) returns (r: Option<Request>)
      requires Valid()
      modifies `requests, entries
      ensures Valid() && entries[..] == Store(old(entries[..]), ip, mac, clock)
      ensures var i := IpIndex(old(requests), ip);
        if i < |old(requests)| then r == Some(old(requests)[i]) && requests == Remove(old(requests), i)
        else r == None && requests == old(requests)
    {
      var i := FindByIp(ip);
      r := None;
      if i < |requests| {
        r := Some(requests[i]);
        requests := Remove(requests, i);
      }
      var k := 0;
      while k < CACHE_SIZE && entries[k].valid
        invariant 0 <= k <= CACHE_SIZE && FirstFree(entries[..]) == k + FirstFree(entries[k..])
      {
        assert entries[k..][1..] == entries[k + 1..];
        k := k + 1;
      }
      if k != CACHE_SIZE {
        entries[k] := Entry(mac, ip, clock, true);
      }
    }

    /** The loop that sends what waited for a reply. */
    method Flush(packets: seq<Packet>, mac: Mac)
      modifies `log
      ensures log == old(log) + FlushLog(packets, mac, clock)
    {
      for k := 0 to |packets|
        invariant log == old(log) + FlushLog(packets[..k], mac, clock)
      {
        FlushOneMore(packets, k, mac, clock);
        log := log + [Sent(clock, packets[k].iface, packets[k].frame.(dhost := mac))];
      }
      assert packets[..|packets|] == packets;
    }

    /** The reply branch of `sr_handlepacket`. */
    method AcceptReply(ip: Word32, mac: Mac)
      requires Valid()
      modifies this, entries
      ensures Valid() && Abs() == Accept(old(Abs()), ip, mac)
    {
      hide FlushLog, Store, IpIndex, Remove;
      var r := Insert(ip, mac);
      log := log + [Learned(clock, ip, mac)];
      if r.Some? {
        Flush(r.value.packets, mac);
        flushed := flushed + multiset(r.value.packets);
      }
    }

    // ----- timeouts

    /** `sr_arpreq_destroy` on a request that is given up. */
    method Destroy(node: nat)
      requires Valid() && Pending(Abs(), node)
      modifies `requests, `expired, `log
      ensures Valid() && Abs() == GiveUp(old(Abs()), node)
    {
      hide NodeIndex;
      var i := FindByNode(node);
      var r := requests[i];
      requests := Remove(requests, i);
      expired := expired + multiset(r.packets);
      log := log + [GaveUp(clock, r.ip, r.born, r.since)];
    }

    /** `sr_arpcache_handle_arpreq`. The bound is a ghost: it is what makes the recursion end, not what it does. */
    method HandleArpReq(node: nat, ghost b: Bound)
      requires Valid() && Handle(cfg, Abs(), node, b).Done?
      modifies this
      ensures Valid() && Abs() == Handle(cfg, old(Abs()), node, b).st
      decreases Size(b), 0, 0
    {
      hide GiveUp, Ask, ArpRequest, Tell, Lpm, GetIface;
      var i := FindByNode(node);
      var r := requests[i];
      if clock - r.sent > 1 {
        if r.timesSent >= MAX_ASKS {
          TellSenders(r.packets, Enter(b, node).value);
          Destroy(node);
        } else {
          Broadcast(node, i);
        }
      }
    }

    /** The interface of the route to an address. */
    method FindOutIface(ip: Word32) returns (ifc: Option<Iface>)
      ensures ifc == OutIface(cfg, ip)
    {
      hide Lpm, GetIface, Matches;
      var route := FindLpmEntry(cfg.routes, ip);
      ifc := None;
      if route.Some? {
        ifc := FindIface(cfg.ifaces, route.value.iface);
      }
    }

    /** Another ARP request for a request that is due. */
    method Broadcast(node: nat, i: nat)
      requires Valid() && Pending(Abs(), node) && i == NodeIndex(requests, node) && OutIface(cfg, requests[i].ip).Some?
      modifies `requests, `log
      ensures Valid()
      ensures var ifc := OutIface(cfg, old(requests)[i].ip).value;
        Abs() == Ask(old(Abs()), node, ifc.name, ArpRequest(ifc, old(requests)[i].ip))
    {
      hide OutIface, ArpRequest, NodeIndex;
      var r := requests[i];
      var ifc := FindOutIface(r.ip);
      requests := requests[i := r.(sent := clock, timesSent := r.timesSent + 1)];
      SendPacket(ifc.value.name, ArpRequest(ifc.value, r.ip));
    }

    /** The loop over the packets of a request that is given up. */
    method TellSenders(packets: seq<Packet>, ghost b: Bound)
      requires Valid() && Tell(cfg, Abs(), packets, b).Done?
      modifies this
      ensures Valid() && Abs() == Tell(cfg, old(Abs()), packets, b).st
      decreases Size(b), 3, 0
    {
      hide TellOne, Consider;
      ghost var result := Tell(cfg, Abs(), packets, b);
      var k := 0;
      while k < |packets|
        invariant Valid() && 0 <= k <= |packets|
        invariant Tell(cfg, Abs(), packets[k..], b) == result
      {
        assert packets[k..][1..] == packets[k + 1..];
        TellSender(packets[k], b);
        k := k + 1;
      }
    }

    /** A host unreachable to the sender of a packet that is given up. */
    method TellSender(p: Packet, ghost b: Bound)
      requires Valid() && TellOne(cfg, Consider(Abs(), p), p, b).Done?
      modifies this
      ensures Valid() && Abs() == TellOne(cfg, Consider(old(Abs()), p), p, b).st
      decreases Size(b), 2, 0
    {
      hide Resolve, Lpm, GetIface, ErrorFrame, Serialize, Parse;
      told := told + [p];
      var h, data := p.frame.payload.h, p.frame.payload.data;
      var route := FindLpmEntry(cfg.routes, h.src);
      if route.Some? {
        var ifc := FindIface(cfg.ifaces, route.value.iface);
        var buf := BuildError(cfg.stale, ifc.value, 3, 1, h, data);
        ErrorIsIp(cfg.stale, ifc.value, 3, 1, h, data);
        FrameRoundTrip(ErrorFrame(cfg.stale, ifc.value, 3, 1, h, data));
        ResolveFrame(h.src, Parse(buf[..]), route.value.iface, b);
      }
    }

    /** Look the address up; send, or queue and handle the request. */
    method ResolveFrame(ip: Word32, frame: Frame, iface: string, ghost b: Bound)
      requires Valid() && Resolve(cfg, Abs(), ip, frame, iface, b).Done?
      modifies this
      ensures Valid() && Abs() == Resolve(cfg, old(Abs()), ip, frame, iface, b).st
      decreases Size(b), 1, 0
    {
      hide Handle, Enqueue;
      var e := LookupEntry(ip);
      if e.Some? {
        SendPacket(iface, frame.(dhost := e.value.mac));
        direct := direct + multiset{Packet(frame, iface)};
      } else {
        var node := QueueReq(ip, Packet(frame, iface));
        HandleArpReq(node, b);
      }
    }

    /** `sr_arpcache_sweepreqs`. */
    method SweepReqs()
      requires Valid() && Sweep(cfg, Abs(), Head(Abs())).Done?
      modifies this
      ensures Valid() && Abs() == Sweep(cfg, old(Abs()), Head(old(Abs()))).st
    {
      hide Handle, NodeIndex, Overdue, Sweep;
      ghost var result := Sweep(cfg, Abs(), Head(Abs()));
      var cur := if requests == [] then None else Some(requests[0].node);
      while cur.Some?
        invariant Valid() && Sweep(cfg, Abs(), cur) == result
        decreases |Overdue(Abs())|, Ahead(Abs(), cur)
      {
        var node := cur.value;
        var i := FindByNode(node);
        var next := if i + 1 < |requests| then Some(requests[i + 1].node) else None;
        SweepUnrolls(cfg, Abs(), node);
        SweepProgress(cfg, Abs(), node);
        HandleArpReq(node, Live(Nodes(requests)));
        cur := next;
      }
      SweepNothing(cfg, Abs());
    }

    /** One round of `sr_arpcache_timeout` at time `now`. */
    method Timeout(now: int)
      requires Valid() && Tick(cfg, Abs().(clock := now)).Done?
      modifies this, entries
      ensures Valid() && Abs() == Tick(cfg, old(Abs()).(clock := now)).st
    {
      hide Sweep;
      clock := now;
      AgeEntries();
      SweepReqs();
    }

    method AgeEntries()
      requires Valid()
      modifies entries
      ensures Valid() && Abs() == Age(old(Abs()))
    {
      for i := 0 to CACHE_SIZE
        invariant forall k :: 0 <= k < i ==> entries[k] == Aged(old(entries[k]), clock)
        invariant forall k :: i <= k < CACHE_SIZE ==> entries[k] == old(entries[k])
      {
        if entries[i].valid && clock - entries[i].added > CACHE_TIMEOUT {
          entries[i] := entries[i].(valid := false);
        }
      }
      assert entries[..] == AgeAll(old(entries[..]), clock);
    }

    // ----- the packet handler

    method IsOwn(ip: Word32) returns (own: bool)
      ensures own <==> IsOwnAddress(cfg, ip)
    {
      own := false;
      for i := 0 to |cfg.ifaces|
        invariant own <==> exists k :: 0 <= k < i && cfg.ifaces[k].ip == ip
      {
        if cfg.ifaces[i].ip == ip {
          own := true;
        }
      }
    }

    /** The checksum of an ICMP message as it arrived. */
    method CheckIcmp(data: seq<Byte>) returns (ok: bool)
      requires |data| >= 4
      ensures ok <==> Accepts(data, 2)
    {
      hide NetChecksum, Swap16;
      var r := Cksum(WithWord(data, 2, 0));
      ok := Join16(data[2], data[3]) == Swap16(r);
    }

    /** `sr_handlepacket` at time `now`. The lent buffer is edited in place. */
    method HandlePacket(buf: array<Byte>, iface: string, now: int)
      requires Valid()
      requires buf.Length >= 14 ==> Receive(cfg, Abs().(clock := now), Parse(buf[..]), iface).Done?
      modifies this, entries, buf
      ensures Valid()
      ensures Abs() == if buf.Length < 14 then old(Abs()).(clock := now)
                       else Receive(cfg, old(Abs()).(clock := now), Parse(old(buf[..])), iface).st
    {
      hide Parse, Serialize, Resolve, Local, Forward, HandleArp, HeaderOk, BlackListed, Accept;
      clock := now;
      if buf.Length < 14 {
        return;
      }
      BytesRoundTrip(buf[..]);
      var f := Parse(buf[..]);
      match f.payload
      case Raw(_, _) =>
      case Arp(_, _) => HandleArpFrame(buf, f, iface);
      case Ip(h, data) =>
        var ok := CheckHeader(buf, f);
        if ok {
          var own := IsOwn(h.dst);
          if !BlackListed(h) {
            if own {
              HandleLocal(buf, f, iface);
            } else {
              HandleTransit(buf, f, iface);
            }
          }
        }
    }

    /** An ARP frame. */
    method HandleArpFrame(buf: array<Byte>, f: Frame, iface: string)
      requires Valid() && f.payload.Arp? && buf[..] == Serialize(f) && Receive(cfg, Abs(), f, iface).Done?
      modifies this, entries, buf
      ensures Valid() && Abs() == Receive(cfg, old(Abs()), f, iface).st
    {
      hide Parse, Serialize, Accept, ArpReply;
      var found := FindIface(cfg.ifaces, iface);
      var ifc, a := found.value, f.payload.a;
      if a.tip == ifc.ip {
        if a.op == ARP_REQUEST {
          EditArpReply(buf, f, ifc);
          ReplyIsArp(f, ifc);
          FrameRoundTrip(ArpReply(f, ifc));
          SendPacket(iface, Parse(buf[..]));
        } else if a.op == ARP_REPLY {
          AcceptReply(a.sip, a.sha);
        }
      }
    }

    /** An ICMP error to the sender through the interface the packet came in on. */
    method ErrorReply(kind: Byte, code: Byte, h: IpHdr, data: seq<Byte>, iface: string)
      requires Valid() && ErrorBack(cfg, kind, code, h, data, iface).Deliver?
      requires var d := ErrorBack(cfg, kind, code, h, data, iface);
        Resolve(cfg, Abs(), d.ip, d.frame, d.iface, Outer(Abs(), d.ip)).Done?
      modifies this
      ensures var d := ErrorBack(cfg, kind, code, h, data, iface);
        Valid() && Abs() == Resolve(cfg, old(Abs()), d.ip, d.frame, d.iface, Outer(old(Abs()), d.ip)).st
    {
      hide Resolve, Parse, Serialize, ErrorFrame, GetIface;
      var ifc := FindIface(cfg.ifaces, iface);
      var buf := BuildError(cfg.stale, ifc.value, kind, code, h, data);
      ErrorIsIp(cfg.stale, ifc.value, kind, code, h, data);
      FrameRoundTrip(ErrorFrame(cfg.stale, ifc.value, kind, code, h, data));
      ResolveFrame(h.src, Parse(buf[..]), iface, Outer(Abs(), h.src));
    }

    /** A packet addressed to the router. */
    method HandleLocal(buf: array<Byte>, f: Frame, iface: string)
      requires Valid() && f.payload.Ip? && buf[..] == Serialize(f)
      requires Decide(cfg, f, iface) == Local(cfg, f, f.payload.h, f.payload.data, iface)
      requires Receive(cfg, Abs(), f, iface).Done?
      modifies this, buf
      ensures Valid() && Abs() == Receive(cfg, old(Abs()), f, iface).st
    {
      hide Decide, Resolve, Parse, Serialize, ErrorFrame, GetIface, Lpm, EchoReply, Accepts;
      var h, data := f.payload.h, f.payload.data;
      if h.proto == ICMP {
        if |data| >= 4 && data[0] == 8 {
          var ok := CheckIcmp(data);
          if ok {
            EditEcho(buf, f);
            var route := FindLpmEntry(cfg.routes, h.src);
            if route.Some? {
              var ifc := FindIface(cfg.ifaces, route.value.iface);
              EchoIsIp(h, data);
              ghost var reply := f.(payload := EchoReply(h, data));
              OverwriteShost(reply, ifc.value.mac);
              Write(buf, 6, ifc.value.mac);
              FrameRoundTrip(reply.(shost := ifc.value.mac));
              ResolveFrame(h.src, Parse(buf[..]), route.value.iface, Outer(Abs(), h.src));
            }
          }
        }
      } else if h.proto == TCP || h.proto == UDP {
        if |data| >= 8 {
          ErrorReply(3, 3, h, data, iface);
        }
      }
    }

    /** A packet addressed elsewhere. */
    method HandleTransit(buf: array<Byte>, f: Frame, iface: string)
      requires Valid() && f.payload.Ip? && buf[..] == Serialize(f)
      requires Decide(cfg, f, iface) == Forward(cfg, f, f.payload.h, f.payload.data, iface)
      requires Receive(cfg, Abs(), f, iface).Done?
      modifies this, buf
      ensures Valid() && Abs() == Receive(cfg, old(Abs()), f, iface).st
    {
      hide Decide, Resolve, Parse, Serialize, ErrorFrame, GetIface, Lpm, ForwardedHeader;
      var h, data := f.payload.h, f.payload.data;
      var route := FindLpmEntry(cfg.routes, h.dst);
      if route.None? {
        ErrorReply(3, 0, h, data, iface);
      } else if h.ttl == 1 {
        ErrorReply(11, 0, h, data, iface);
      } else {
        var ifc := FindIface(cfg.ifaces, route.value.iface);
        EditForward(buf, f, ifc.value);
        FrameRoundTrip(Frame(f.dhost, ifc.value.mac, Ip(ForwardedHeader(h), data)));
        ResolveFrame(h.dst, Parse(buf[..]), route.value.iface, Outer(Abs(), h.dst));
      }
    }
  }

  lemma ReplyIsArp(f: Frame, ifc: Iface)
    requires f.payload.Arp?
    ensures ArpReply(f, ifc).payload.Arp?
  {
  }

  lemma EchoIsIp(h: IpHdr, data: seq<Byte>)
    requires |data| >= 4
    ensures EchoReply(h, data).Ip?
  {
  }

  lemma ErrorIsIp(stale: Mac, ifc: Iface, kind: Byte, code: Byte, h: IpHdr, data: seq<Byte>)
    requires |data| >= 8
    ensures ErrorFrame(stale, ifc, kind, code, h, data).payload.Ip?
  {
  }

  lemma FlushOneMore(packets: seq<Packet>, k: nat, mac: Mac, now: int)
    requires k < |packets|
    ensures FlushLog(packets[..k + 1], mac, now)
         == FlushLog(packets[..k], mac, now) + [Sent(now, packets[k].iface, packets[k].frame.(dhost := mac))]
  {
  }
}
