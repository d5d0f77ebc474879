/** What an event does to the log, from the frame that came in to the frames that go out. */
module Effects {
  import opened Words
  import opened Checksum
  import opened Routing
  import opened Frames
  import opened Forwarding
  import opened Hops
  import opened Arp
  import opened Router
  import opened Accounting
  import opened Cascade

  // ----- what goes out at once

  /** A packet for a cached address leaves at once, whole, to the cached MAC, and nothing else happens. */
  lemma CachedIsSentAtOnce(cfg: Config, s: State, at: int, f: Frame, iface: string)
    requires var d := Decide(cfg, f, iface); d.Deliver? && Lookup(s.entries, d.ip).Some?
    ensures var o, d := Step(cfg, s, Arrival(at, f, iface)), Decide(cfg, f, iface);
      o.Done? && o.st.log == s.log + [Sent(at, d.iface, d.frame.(dhost := Lookup(s.entries, d.ip).value.mac))] &&
      o.st.requests == s.requests && o.st.entries == s.entries && o.st.clock == at
  {
    hide Decide, Lookup;
  }

  /** A packet in transit to a cached address: what goes on the wire is what the path model carries to the next router. */
  lemma TransitGoesOnward(cfg: Config, s: State, at: int, f: Frame, iface: string, mac: Mac)
    requires Forwards(Station(cfg, iface, mac), f)
    requires Lookup(s.entries, f.payload.h.dst).Some? && Lookup(s.entries, f.payload.h.dst).value.mac == mac
    ensures var o := Step(cfg, s, Arrival(at, f, iface));
      o.Done? && o.st.requests == s.requests && o.st.entries == s.entries &&
      o.st.log == s.log + [Sent(at, RouteTo(cfg, f.payload.h.dst).value.iface, Onward(Station(cfg, iface, mac), f))]
  {
    hide Decide, Forwards, Onward, Step, Lookup;
    ForwardsIsDecided(Station(cfg, iface, mac), f);
    CachedIsSentAtOnce(cfg, s, at, f, iface);
  }

  /** An echo request from a cached host: the reply goes back to it, from the address it wrote to. */
  lemma PingIsAnswered(cfg: Config, s: State, at: int, f: Frame, iface: string)
    requires f.payload.Ip? && Pings(cfg, f) && Lookup(s.entries, f.payload.h.src).Some?
    ensures var o := Step(cfg, s, Arrival(at, f, iface));
      o.Done? && o.st.requests == s.requests && |o.st.log| == |s.log| + 1 && s.log <= o.st.log &&
      var l, h, data := o.st.log[|s.log|], f.payload.h, f.payload.data;
      l.Sent? && l.at == at && l.iface == RouteTo(cfg, h.src).value.iface &&
      l.frame.dhost == Lookup(s.entries, h.src).value.mac && l.frame.shost == OutIface(cfg, h.src).value.mac &&
      l.frame.payload.Ip? && l.frame.payload.h.src == h.dst && l.frame.payload.h.dst == h.src && HeaderOk(l.frame.payload.h) &&
      |l.frame.payload.data| == |data| && l.frame.payload.data[0] == 0 && l.frame.payload.data[1] == data[1] &&
      l.frame.payload.data[4..] == data[4..] && Accepts(l.frame.payload.data, 2)
  {
    hide Decide, Pings, Step, Lookup, HeaderOk, Accepts;
    WhoIsEchoed(cfg, f, iface);
    CachedIsSentAtOnce(cfg, s, at, f, iface);
  }

  /** An ARP request for the address of the interface it came in on: one reply goes back, and nothing else happens. */
  lemma RequestIsAnswered(cfg: Config, s: State, at: int, f: Frame, iface: string)
    requires ForUs(cfg, f, iface) && f.payload.a.op == 1
    ensures var o := Step(cfg, s, Arrival(at, f, iface));
      o.Done? && o.st.requests == s.requests && o.st.entries == s.entries && |o.st.log| == |s.log| + 1 && s.log <= o.st.log &&
      var l, ifc := o.st.log[|s.log|], IfaceOf(cfg, iface).value;
      l.Sent? && l.at == at && l.iface == iface && l.frame.dhost == f.shost && l.frame.shost == ifc.mac && l.frame.payload.Arp? &&
      l.frame.payload.a.op == 2 && l.frame.payload.a.sha == ifc.mac && l.frame.payload.a.sip == f.payload.a.tip &&
      l.frame.payload.a.tha == f.payload.a.sha && l.frame.payload.a.tip == f.payload.a.sip
  {
    hide Decide, GetIface;
    WhoIsAnswered(cfg, f, iface);
  }

  /**
   * An ARP reply to the router: the mapping goes into the first free slot, if any, and into no other; what waited for
   * that address leaves in list order, each packet whole and to the MAC of the reply; the request is gone.
   */
  lemma ReplyFlushes(cfg: Config, s: State, at: int, f: Frame, iface: string)
    requires ForUs(cfg, f, iface) && f.payload.a.op == 2
    ensures var o, a := Step(cfg, s, Arrival(at, f, iface)), f.payload.a;
      o.Done? && s.log <= o.st.log && |o.st.log| > |s.log| && o.st.log[|s.log|] == Learned(at, a.sip, a.sha) &&
      var k := FirstFree(s.entries);
      o.st.entries == if k < |s.entries| then s.entries[k := Entry(a.sha, a.sip, at, true)] else s.entries
    ensures var o, a, i := Step(cfg, s, Arrival(at, f, iface)), f.payload.a, IpIndex(s.requests, f.payload.a.sip);
      if i == |s.requests| then o.st.requests == s.requests && |o.st.log| == |s.log| + 1
      else
        var packets := s.requests[i].packets;
        o.st.requests == s.requests[..i] + s.requests[i + 1..] && |o.st.log| == |s.log| + 1 + |packets| &&
        forall j :: 0 <= j < |packets| ==>
          o.st.log[|s.log| + 1 + j] == Sent(at, packets[j].iface, packets[j].frame.(dhost := a.sha))
  {
    hide Decide, ForUs;
    WhoIsAnswered(cfg, f, iface);
  }

  // ----- what has to wait is released newest first

  /** The arrival of a packet that is to be delivered to `ip`. */
  predicate IsFor(cfg: Config, e: Event, ip: Word32) {
    e.Arrival? && Decide(cfg, e.frame, e.iface).Deliver? && Decide(cfg, e.frame, e.iface).ip == ip
  }

  function PacketOf(cfg: Config, e: Event, ip: Word32): Packet
    requires IsFor(cfg, e, ip)
  {
    Packet(Decide(cfg, e.frame, e.iface).frame, Decide(cfg, e.frame, e.iface).iface)
  }

  /** The packets that arrivals hand over for `ip`, newest first. */
  function Newest(cfg: Config, events: seq<Event>, ip: Word32): seq<Packet>
    requires forall i :: 0 <= i < |events| ==> IsFor(cfg, events[i], ip)
  {
    if events == [] then []
    else [PacketOf(cfg, events[|events| - 1], ip)] + Newest(cfg, events[..|events| - 1], ip)
  }

  /** Packets for `ip`, each within a second of the last ARP request for it. */
  ghost predicate Patient(cfg: Config, events: seq<Event>, ip: Word32, sent: int) {
    forall i :: 0 <= i < |events| ==> IsFor(cfg, events[i], ip) && events[i].at <= sent + 1
  }

  lemma QueuedInFront(cfg: Config, s: State, e: Event, i: nat)
    requires i < |s.requests| && IsFor(cfg, e, s.requests[i].ip) && IpIndex(s.requests, s.requests[i].ip) == i
    requires Lookup(s.entries, s.requests[i].ip).None? && e.at <= s.requests[i].sent + 1
    ensures var o, r := Step(cfg, s, e), s.requests[i];
      o.Done? && o.st.log == s.log && o.st.entries == s.entries &&
      o.st.requests == s.requests[i := r.(packets := [PacketOf(cfg, e, r.ip)] + r.packets)]
  {
    hide Decide, Lookup;
    var s0, r := s.(clock := e.at), s.requests[i];
    var t := Enqueue(s0, r.ip, PacketOf(cfg, e, r.ip));
    NodeIndexIs(t.requests, t.nextNode, i);
    assert Step(cfg, s, e) == Handle(cfg, t, r.node, Outer(s0, r.ip));
  }

  lemma {:induction false} WaitNewestFirst(cfg: Config, before: seq<Event>, events: seq<Event>, i: nat)
    requires Run(cfg, before).Done? && i < |Run(cfg, before).st.requests|
    requires var s := Run(cfg, before).st; var r := s.requests[i];
      IpIndex(s.requests, r.ip) == i && Lookup(s.entries, r.ip).None? && Patient(cfg, events, r.ip, r.sent)
    ensures var s, o := Run(cfg, before).st, Run(cfg, before + events); var r := s.requests[i];
      o.Done? && o.st.log == s.log && o.st.entries == s.entries &&
      o.st.requests == s.requests[i := r.(packets := Newest(cfg, events, r.ip) + r.packets)]
    decreases |events|
  {
    hide Step, IsFor, PacketOf, Lookup;
    var s := Run(cfg, before).st;
    var r := s.requests[i];
    if events == [] {
      assert before + events == before;
      assert Newest(cfg, events, r.ip) + r.packets == r.packets;
    } else {
      var n := |events| - 1;
      WaitNewestFirst(cfg, before, events[..n], i);
      var t := Run(cfg, before + events[..n]).st;
      assert (before + events)[..|before| + n] == before + events[..n];
      IpIndexStays(s.requests, i, t.requests[i]);
      QueuedInFront(cfg, t, events[n], i);
      assert [PacketOf(cfg, events[n], r.ip)] + (Newest(cfg, events[..n], r.ip) + r.packets) == Newest(cfg, events, r.ip) + r.packets;
    }
  }

  lemma IpIndexStays(requests: seq<Request>, i: nat, r: Request)
    requires i < |requests| && r.ip == requests[i].ip && IpIndex(requests, r.ip) == i
    ensures IpIndex(requests[i := r], r.ip) == i
  {
    var changed := requests[i := r];
    var k := IpIndex(changed, r.ip);
    assert changed[i].ip == r.ip;
    assert forall j :: 0 <= j < i ==> changed[j] == requests[j];
  }

  /**
   * Last in, first out: packets that arrive for a pending address within a second of the last ARP request wait in the
   * order newest first, before those that waited already, and that is the order in which a reply then sends them.
   */
  lemma ReleasedNewestFirst(cfg: Config, before: seq<Event>, events: seq<Event>, i: nat, at: int, f: Frame, iface: string)
    requires Run(cfg, before).Done? && i < |Run(cfg, before).st.requests|
    requires var s := Run(cfg, before).st; var r := s.requests[i];
      IpIndex(s.requests, r.ip) == i && Lookup(s.entries, r.ip).None? && Patient(cfg, events, r.ip, r.sent) &&
      ForUs(cfg, f, iface) && f.payload.a.op == 2 && f.payload.a.sip == r.ip
    ensures var s, o := Run(cfg, before).st, Run(cfg, before + events + [Arrival(at, f, iface)]);
      var out := Newest(cfg, events, s.requests[i].ip) + s.requests[i].packets;
      o.Done? && |o.st.log| == |s.log| + 1 + |out| && o.st.log[..|s.log| + 1] == s.log + [Learned(at, f.payload.a.sip, f.payload.a.sha)] &&
      forall j :: 0 <= j < |out| ==> o.st.log[|s.log| + 1 + j] == Sent(at, out[j].iface, out[j].frame.(dhost := f.payload.a.sha))
  {
    hide Step, IsFor, Lookup, ForUs, Newest, FirstFree;
    var s := Run(cfg, before).st;
    WaitNewestFirst(cfg, before, events, i);
    var t, last := Run(cfg, before + events).st, [Arrival(at, f, iface)];
    IpIndexStays(s.requests, i, t.requests[i]);
    ReplyFlushes(cfg, t, at, f, iface);
    assert (before + events + last)[..|before + events|] == before + events;
  }

  // ----- what is given up is told of in list order

  /** The host unreachable for a dropped packet. */
  function NoticeFor(cfg: Config, p: Packet): (q: Packet)
    requires Quotable(p) && OutIface(cfg, p.frame.payload.h.src).Some?
    ensures Notice(cfg, p) == multiset{q}
  {
    var h := p.frame.payload.h;
    Packet(ErrorFrame(cfg.stale, OutIface(cfg, h.src).value, 3, 1, h, p.frame.payload.data), RouteTo(cfg, h.src).value.iface)
  }

  /** The sender of the packet can be told at once. */
  predicate Tellable(cfg: Config, entries: seq<Entry>, p: Packet) {
    Quotable(p) && OutIface(cfg, p.frame.payload.h.src).Some? && Lookup(entries, p.frame.payload.h.src).Some?
  }

  /** Its host unreachable, sent. */
  function NoticeEntry(cfg: Config, entries: seq<Entry>, p: Packet, now: int): Log
    requires Tellable(cfg, entries, p)
  {
    var q := NoticeFor(cfg, p);
    Sent(now, q.iface, q.frame.(dhost := Lookup(entries, p.frame.payload.h.src).value.mac))
  }

  function NoticeLog(cfg: Config, entries: seq<Entry>, packets: seq<Packet>, now: int): (l: seq<Log>)
    requires forall j :: 0 <= j < |packets| ==> Tellable(cfg, entries, packets[j])
    ensures |l| == |packets|
    ensures forall j :: 0 <= j < |packets| ==> l[j] == NoticeEntry(cfg, entries, packets[j], now)
  {
    seq(|packets|, j requires 0 <= j < |packets| => NoticeEntry(cfg, entries, packets[j], now))
  }

  lemma TellOneAtOnce(cfg: Config, s: State, p: Packet, b: Bound)
    requires Tellable(cfg, s.entries, p)
    ensures var o := TellOne(cfg, s, p, b);
      o.Done? && OnlyLogs(s, o.st, [NoticeEntry(cfg, s.entries, p, s.clock)])
  {
    hide Lookup, RouteTo, IfaceOf, ErrorHeader, ErrorBody;
    var h := p.frame.payload.h;
    var ifc, route := OutIface(cfg, h.src).value, RouteTo(cfg, h.src).value;
    var frame := ErrorFrame(cfg.stale, ifc, 3, 1, h, p.frame.payload.data);
    assert TellOne(cfg, s, p, b) == Resolve(cfg, s, h.src, frame, route.iface, b);
  }

  lemma NoticeLogSplit(cfg: Config, entries: seq<Entry>, packets: seq<Packet>, now: int)
    requires packets != [] && forall j :: 0 <= j < |packets| ==> Tellable(cfg, entries, packets[j])
    ensures NoticeLog(cfg, entries, packets, now)
         == [NoticeEntry(cfg, entries, packets[0], now)] + NoticeLog(cfg, entries, packets[1..], now)
  {
    hide Tellable, NoticeEntry;
  }

  /** Only the log, and the history of packets, is different. */
  ghost predicate OnlyLogs(s: State, t: State, more: seq<Log>) {
    t.requests == s.requests && t.entries == s.entries && t.clock == s.clock && t.nextNode == s.nextNode && t.log == s.log + more
  }

  lemma {:induction false} TellAtOnce(cfg: Config, s: State, packets: seq<Packet>, b: Bound)
    requires forall j :: 0 <= j < |packets| ==> Tellable(cfg, s.entries, packets[j])
    ensures var o := Tell(cfg, s, packets, b); o.Done? && OnlyLogs(s, o.st, NoticeLog(cfg, s.entries, packets, s.clock))
    decreases |packets|
  {
    hide TellOne, Tellable, NoticeEntry, NoticeLog;
    if packets == [] {
      assert s.log + NoticeLog(cfg, s.entries, packets, s.clock) == s.log;
    } else {
      var p, s0 := packets[0], Consider(s, packets[0]);
      TellOneAtOnce(cfg, s0, p, b);
      var s1 := TellOne(cfg, s0, p, b).st;
      TellAtOnce(cfg, s1, packets[1..], b);
      NoticeLogSplit(cfg, s.entries, packets, s.clock);
    }
  }

  /**
   * Giving up a request all of whose senders are cached: one host unreachable for each packet, in list order, each to
   * the MAC of its sender, and then the request, alone, is gone.
   */
  lemma GiveUpTellsAll(cfg: Config, s: State, node: nat)
    requires Pending(s, node) && Hopeless(Req(s, node), s.clock)
    requires forall j :: 0 <= j < |Req(s, node).packets| ==> Tellable(cfg, s.entries, Req(s, node).packets[j])
    ensures var o, r, i := Handle(cfg, s, node, Unbounded(s)), Req(s, node), NodeIndex(s.requests, node);
      o.Done? && o.st.requests == s.requests[..i] + s.requests[i + 1..] && o.st.entries == s.entries &&
      o.st.log == s.log + NoticeLog(cfg, s.entries, r.packets, s.clock) + [GaveUp(s.clock, r.ip, r.born, r.since)]
  {
    hide Tell, NodeIndex, Tellable;
    var r := Req(s, node);
    assert r in s.requests;
    assert node in Nodes(s.requests);
    var inner := Live(Nodes(s.requests) - {node});
    TellAtOnce(cfg, s, r.packets, inner);
  }
}
