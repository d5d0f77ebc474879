/** Runs from power-up that end in undefined behaviour, each on a verified routing table. */
module Crashes {
  import opened Words
  import opened Routing
  import opened Frames
  import opened Forwarding
  import opened Arp
  import opened Router
  import opened Safety
  import opened Cascade
  import opened Sweeping
  import opened Spread
  import opened Definedness
  import opened Scenario

  // ----- a null route

  /** One TCP or UDP packet to the router from a host it has no route to: the port unreachable has nowhere to go. */
  lemma UnroutableSenderCrashes(cfg: Config, f: Frame, iface: string)
    requires f.payload.Ip? && HeaderOk(f.payload.h) && !BlackListed(f.payload.h) && |f.payload.data| >= 8
    requires IsOwnAddress(cfg, f.payload.h.dst) && f.payload.h.proto in {TCP, UDP}
    requires IfaceOf(cfg, iface).Some? && RouteTo(cfg, f.payload.h.src).None?
    ensures var o := Run(cfg, [Arrival(2, f, iface)]); o.Fault? && o.why == NullRoute
  {
    hide HeaderOk, BlackListed, Lpm, GetIface, ErrorFrame, Handle, Enqueue, QueueNode, Lookup;
    var e, s0, ip := [Arrival(2, f, iface)], INITIAL.(clock := 2), f.payload.h.src;
    assert s0.requests == [];
    EmptyLookup(s0.entries, ip);
    var d := Decide(cfg, f, iface);
    assert d == ErrorBack(cfg, 3, 3, f.payload.h, f.payload.data, iface);
    UnroutedFaults(cfg, s0, ip, Packet(d.frame, d.iface), Outer(s0, ip));
    RunPrefix(cfg, e, 0, INITIAL);
    assert e[..1] == e;
  }

  // ----- a packet too short to quote

  /** One forwarded packet with fewer than eight bytes of data and a host that does not answer. */
  lemma ShortPacketCrashes(cfg: Config, f: Frame, iface: string)
    requires Transit(cfg, f) && |f.payload.data| < 8
    ensures var events := [Arrival(2, f, iface)] + Ticks(); var o := Run(cfg, events);
      Chronological(events) && o.Fault? && o.why == ShortPacket
  {
    hide Step, AllWait, HeaderOk, BlackListed, OutIface, IsOwnAddress;
    var first := [Arrival(2, f, iface)];
    assert INITIAL.requests == [];
    ArrivalAsks(cfg, INITIAL, f, iface);
    RunPrefix(cfg, first, 0, INITIAL);
    assert first[..1] == first;
    var s := FourTicks(cfg, first);
    ShortStep(cfg, s, f);
  }

  lemma ShortStep(cfg: Config, s: State, f: Frame)
    requires Transit(cfg, f) && |f.payload.data| < 8 && AllWait(cfg, s, 5, 10) && |s.requests| == 1 && Holds(s.requests[0], f)
    ensures var o := Step(cfg, s, Timer(12)); o.Fault? && o.why == ShortPacket
  {
    hide Lpm, GetIface, Resolve, GiveUp, HeaderOk, BlackListed, IsOwnAddress, Overdue, Sweep;
    var s0, node := s.(clock := 12), s.requests[0].node;
    AgeNothing(s, 12);
    NodeIndexIs(s0.requests, s0.nextNode, 0);
    var r := s0.requests[0];
    var p, nodes := r.packets[0], Nodes(s0.requests);
    assert r in s0.requests && node in nodes;
    assert TellOne(cfg, Consider(s0, p), p, Live(nodes - {node})) == Fault(ShortPacket, Consider(s0, p));
    assert Tell(cfg, s0, r.packets, Live(nodes - {node})) == Fault(ShortPacket, Consider(s0, p));
    SweepUnrolls(cfg, s0, node);
  }

  // ----- a freed request

  /** Two packets, the sender of the first being the host that the second is for; the third host is another one. */
  predicate Chained(cfg: Config, f: Frame, g: Frame) {
    Transit(cfg, f) && Transit(cfg, g) && |f.payload.data| >= 8 && |g.payload.data| >= 8 &&
    f.payload.h.src == g.payload.h.dst && f.payload.h.dst != g.payload.h.dst &&
    g.payload.h.src != f.payload.h.dst && g.payload.h.src != g.payload.h.dst
  }

  /** The two requests that are left hopeless. */
  ghost predicate TwoHopeless(cfg: Config, s: State, f: Frame, g: Frame)
    requires Chained(cfg, f, g)
  {
    AllWait(cfg, s.(clock := 10), 5, 10) && s.clock == 12 && |s.requests| == 2 &&
    Holds(s.requests[0], f) && Holds(s.requests[1], g)
  }

  lemma TwoRequests(cfg: Config, s: State, f: Frame, g: Frame)
    requires Chained(cfg, f, g) && TwoHopeless(cfg, s, f, g)
    ensures DistinctAddresses(s) && Solid(cfg, s)
    ensures var a, b := s.requests[0].node, s.requests[1].node;
      HopelessAt(s, a) && HopelessAt(s, b) && Req(s, a) == s.requests[0] && Req(s, b) == s.requests[1] &&
      Head(s) == Some(a) && Next(s, a) == Some(b) && forall n :: Pending(s, n) ==> n == a || n == b
  {
    hide Lpm, GetIface, HeaderOk, BlackListed, IsOwnAddress, Lookup;
    NodeIndexIs(s.requests, s.nextNode, 0);
    NodeIndexIs(s.requests, s.nextNode, 1);
  }

  /** The first tells the second. */
  lemma FirstTells(cfg: Config, s: State, f: Frame, g: Frame)
    requires Chained(cfg, f, g) && TwoHopeless(cfg, s, f, g)
    ensures Tells(cfg, s, s.requests[0].node, s.requests[1].node)
  {
    hide Lpm, GetIface, HeaderOk, BlackListed, IsOwnAddress, Lookup, NodeIndex;
    TwoRequests(cfg, s, f, g);
    var b, p := s.requests[1].node, s.requests[0].packets[0];
    EmptyLookup(s.entries, p.frame.payload.h.src);
    assert Goes(cfg, s, p.frame.payload.h.src, {b});
    assert p in s.requests[0].packets;
  }

  /** The second tells neither, so that there is no trap. */
  lemma NoTrap(cfg: Config, s: State, f: Frame, g: Frame)
    requires Chained(cfg, f, g) && TwoHopeless(cfg, s, f, g)
    ensures !Trapped(cfg, s, s.requests[0].node)
  {
    hide Lpm, GetIface, HeaderOk, BlackListed, IsOwnAddress, Lookup, NodeIndex;
    TwoRequests(cfg, s, f, g);
    var ra, rb := s.requests[0], s.requests[1];
    if Trapped(cfg, s, ra.node) {
      var C :| Trap(cfg, s, C) && SenderIn(cfg, s, ra, C);
      assert rb.node in C;
      assert !SenderIn(cfg, s, rb, C);
      assert SelfIn(cfg, s, rb, C);
      IfaceIsOwn(cfg, RouteTo(cfg, rb.ip).value.iface);
    }
  }

  lemma SolidIsLegible(cfg: Config, s: State, G: set<nat>)
    requires Solid(cfg, s)
    ensures Legible(s, G)
  {
    hide Lpm, Quotable;
  }

  lemma FreedStep(cfg: Config, s: State, f: Frame, g: Frame)
    requires Verified(cfg) && Chained(cfg, f, g) && TwoHopeless(cfg, s, f, g)
    ensures var o := Sweep(cfg, s, Head(s)); o.Fault? && o.why == FreedRequest
  {
    assert |s.requests| == 2;
    hide Verified, Handle, Sweep, TwoHopeless, Chained, Legible, Trapped, NodeIndex, Next, Solid, DistinctAddresses, Routed, Falls, Tells;
    var a, b := s.requests[0].node, s.requests[1].node;
    TwoRequests(cfg, s, f, g);
    SolidIsRouted(cfg, s);
    SolidIsLegible(cfg, s, Falls(cfg, s, a));
    NoTrap(cfg, s, f, g);
    CascadeEndsIff(cfg, s, a);
    FirstTells(cfg, s, f, g);
    HandleGivesUp(cfg, s, a, Unbounded(s), b);
    SweepUnrolls(cfg, s, a);
    SweepUnrolls(cfg, Handle(cfg, s, a, Unbounded(s)).st, b);
  }

  function FreeingRun(f: Frame, g: Frame, iface: string): seq<Event> {
    [Arrival(2, f, iface), Arrival(2, g, iface)] + Ticks()
  }

  /**
   * A packet from B to A, one from C to B, and neither A nor B answers: the tick that gives up the request for A tells
   * B, which gives up the request for B, and then follows the pointer to that request.
   */
  lemma ChainedPacketsCrash(cfg: Config, f: Frame, g: Frame, iface: string)
    requires Verified(cfg) && Chained(cfg, f, g)
    ensures var events := FreeingRun(f, g, iface); var o := Run(cfg, events);
      Chronological(events) && Run(cfg, events[..6]).Done? && o.Fault? && o.why == FreedRequest
  {
    hide Step, AllWait, HeaderOk, BlackListed, OutIface, IsOwnAddress, Verified;
    var e := [Arrival(2, f, iface), Arrival(2, g, iface)];
    assert INITIAL.requests == [];
    ArrivalAsks(cfg, INITIAL, f, iface);
    RunPrefix(cfg, e, 0, INITIAL);
    var s1 := Step(cfg, INITIAL, e[0]).st;
    WaitingEntries(cfg, s1, 1, 2);
    assert IpIndex(s1.requests, g.payload.h.dst) == 1;
    ArrivalAsks(cfg, s1, g, iface);
    RunPrefix(cfg, e, 1, s1);
    assert e[..2] == e;
    var s2 := Step(cfg, s1, e[1]).st;
    assert s2.requests[0] == s2.requests[..1][0];
    var s := FourTicks(cfg, e);
    LastTick(cfg, s, f, g);
  }

  lemma WaitingEntries(cfg: Config, s: State, k: nat, at: int)
    requires AllWait(cfg, s, k, at)
    ensures s.entries == NoEntries()
  {
  }

  lemma LastTick(cfg: Config, s: State, f: Frame, g: Frame)
    requires Verified(cfg) && Chained(cfg, f, g) && AllWait(cfg, s, 5, 10) && |s.requests| == 2
    requires Holds(s.requests[0], f) && Holds(s.requests[1], g)
    ensures var o := Step(cfg, s, Timer(12)); o.Fault? && o.why == FreedRequest
  {
    hide Chained, Verified, Sweep, OutIface;
    AgeNothing(s, 12);
    assert s.(clock := 12).(clock := 10) == s;
    FreedStep(cfg, s.(clock := 12), f, g);
  }
}
