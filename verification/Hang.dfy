/** A run, reachable from power-up with one packet, in which the recursion of the timer never ends. */
module Hang {
  import opened Routing
  import opened Frames
  import opened Forwarding
  import opened Arp
  import opened Router
  import opened Safety
  import opened Cascade
  import opened Scenario

  /** A forwardable packet from a host to itself. */
  predicate SelfAddressed(cfg: Config, f: Frame) {
    Transit(cfg, f) && f.payload.h.src == f.payload.h.dst && |f.payload.data| >= 8
  }

  /** The request is hopeless, and telling the sender means giving up the very same request. */
  lemma LastStep(cfg: Config, s: State, f: Frame)
    requires SelfAddressed(cfg, f) && AllWait(cfg, s, 5, 10) && |s.requests| == 1 && Holds(s.requests[0], f)
    ensures var s0 := s.(clock := 12);
      Trapped(cfg, s0, s0.requests[0].node) && DistinctAddresses(s0) && Solid(cfg, s0) && !Step(cfg, s, Timer(12)).Done?
    ensures Verified(cfg) ==> Step(cfg, s, Timer(12)).Cut?
  {
    hide Lpm, GetIface, Overdue, Verified, Handle, HeaderOk, BlackListed, IsOwnAddress;
    var s0, node := s.(clock := 12), s.requests[0].node;
    AgeNothing(s, 12);
    NodeIndexIs(s0.requests, s0.nextNode, 0);
    EmptyLookup(s0.entries, f.payload.h.dst);
    OwnSenderTraps(cfg, s0, node, s0.requests[0].packets[0]);
    TrappedNeverReturns(cfg, s0, node, Live(Nodes(s0.requests)));
    if Verified(cfg) {
      TrappedRecursesForever(cfg, s0, node, Live(Nodes(s0.requests)));
    }
  }

  function HangingRun(f: Frame, iface: string): seq<Event> {
    [Arrival(2, f, iface)] + Ticks()
  }

  /**
   * One packet from a host to itself and a host that does not answer: five ARP requests later, the tick that
   * gives up the request does not come to its end at any depth of recursion. On a verified table it does not
   * crash either: it nests beyond every depth.
   */
  lemma SelfAddressedPacketHangs(cfg: Config, f: Frame, iface: string)
    requires SelfAddressed(cfg, f)
    ensures var events := HangingRun(f, iface);
      Chronological(events) && Run(cfg, events[..5]).Done? && !Run(cfg, events).Done? && (Verified(cfg) ==> Run(cfg, events).Cut?)
    ensures var s := Run(cfg, HangingRun(f, iface)[..5]).st.(clock := 12);
      s.requests != [] && forall n: nat ::
        var o := Handle(cfg, s, s.requests[0].node, Depth(n)); !o.Done? && (Verified(cfg) ==> o.Cut?)
  {
    hide Step, AllWait, Handle, Trapped, OutIface, DistinctAddresses, Solid, Verified, HeaderOk, BlackListed, IsOwnAddress;
    assert INITIAL.requests == [];
    ArrivalAsks(cfg, INITIAL, f, iface);
    var first := [Arrival(2, f, iface)];
    RunPrefix(cfg, first, 0, INITIAL);
    assert first[..1] == first;
    var s := FourTicks(cfg, first);
    LastStep(cfg, s, f);
    var s0 := s.(clock := 12);
    forall n: nat
      ensures var o := Handle(cfg, s0, s0.requests[0].node, Depth(n)); !o.Done? && (Verified(cfg) ==> o.Cut?)
    {
      TrappedNeverReturns(cfg, s0, s0.requests[0].node, Depth(n));
      if Verified(cfg) {
        TrappedRecursesForever(cfg, s0, s0.requests[0].node, Depth(n));
      }
    }
  }
}
