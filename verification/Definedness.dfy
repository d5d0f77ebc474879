/** When the handlers run without undefined behaviour, and when they come to their end. */
module Definedness {
  import opened Words
  import opened Routing
  import opened Frames
  import opened Forwarding
  import opened Arp
  import opened Router
  import opened Safety
  import opened Runs
  import opened Cascade
  import opened Sweeping
  import opened Spread
  import opened Forecast

  // ----- undefined behaviour in the handling of an arrival

  /** An ARP request for an address without a route dereferences a null route. */
  lemma UnroutedFaults(cfg: Config, s: State, ip: Word32, p: Packet, b: Bound)
    requires Routed(cfg, s) && RouteTo(cfg, ip).None? && s.clock >= 2
    ensures var o := Handle(cfg, Enqueue(s, ip, p), QueueNode(s, ip), b); o.Fault? && o.why == NullRoute
  {
    hide Lpm, Tell;
    var t, i := Enqueue(s, ip, p), IpIndex(s.requests, ip);
    assert i == |s.requests|;
    NodeIndexIs(t.requests, t.nextNode, i);
  }

  /** A packet too short to quote, behind a request that is given up at once. */
  lemma IllegibleFaults(cfg: Config, s: State, ip: Word32, p: Packet, nodes: set<nat>)
    requires HopelessAt(s, QueueNode(s, ip)) && QueueNode(s, ip) in nodes && !Quotable(p)
    ensures var o := Handle(cfg, Enqueue(s, ip, p), QueueNode(s, ip), Live(nodes)); o.Fault? && o.why == ShortPacket
  {
    hide Lpm, GetIface, Resolve, GiveUp;
    var t, n, i := Enqueue(s, ip, p), QueueNode(s, ip), IpIndex(s.requests, ip);
    if i < |s.requests| {
      NodeIndexIs(s.requests, s.nextNode, i);
      NodeIndexIs(t.requests, t.nextNode, i);
      var inner, packets := Live(nodes - {n}), Req(t, n).packets;
      assert packets[0] == p;
      assert TellOne(cfg, Consider(t, p), p, inner) == Fault(ShortPacket, Consider(t, p));
      assert Tell(cfg, t, packets, inner) == Fault(ShortPacket, Consider(t, p));
    }
  }

  /** A short packet behind a request that is not hopeless does no harm yet, and stays. */
  lemma IllegibleWaits(cfg: Config, s: State, ip: Word32, p: Packet, b: Bound)
    requires Verified(cfg) && Routed(cfg, s) && RouteTo(cfg, ip).Some? && !HopelessAt(s, QueueNode(s, ip))
    ensures var o := Handle(cfg, Enqueue(s, ip, p), QueueNode(s, ip), b);
      o.Done? && Pending(o.st, QueueNode(s, ip)) && p in Req(o.st, QueueNode(s, ip)).packets
  {
    hide Lpm, GetIface, ArpRequest, Tell;
    var t, n, i := Enqueue(s, ip, p), QueueNode(s, ip), IpIndex(s.requests, ip);
    VerifiedRoutesResolve(cfg.routes, cfg.ifaces, ip);
    if i < |s.requests| {
      NodeIndexIs(s.requests, s.nextNode, i);
    }
    NodeIndexIs(t.requests, t.nextNode, i);
    assert Req(t, n).ip == ip && p in Req(t, n).packets && !Hopeless(Req(t, n), t.clock);
    if Due(Req(t, n), t.clock) {
      var ifc := OutIface(cfg, ip).value;
      var u := Ask(t, n, ifc.name, ArpRequest(ifc, ip));
      assert Handle(cfg, t, n, b) == Done(u);
      assert u.requests[i].node == n;
      NodeIndexIs(u.requests, u.nextNode, i);
    }
  }

  lemma SolidIsRouted(cfg: Config, s: State)
    requires Solid(cfg, s)
    ensures Routed(cfg, s)
  {
    hide Lpm, Quotable;
  }

  lemma SolidElsewhere(cfg: Config, s: State, t: State)
    requires Solid(cfg, s) && t.requests == s.requests
    ensures Solid(cfg, t)
  {
    hide Lpm;
  }

  lemma SolidAt(cfg: Config, s: State, n: nat, p: Packet)
    requires Solid(cfg, s) && Pending(s, n) && p in Req(s, n).packets
    ensures Quotable(p)
  {
    hide Lpm, Quotable;
  }

  lemma CrashIsOwn(cfg: Config, f: Frame, iface: string)
    ensures var d := Decide(cfg, f, iface); d.Crash? ==> d.why == NullInterface || d.why == ShortPacket
  {
    hide HeaderOk, BlackListed, Lpm, GetIface, ErrorFrame, EchoReply, ForwardedHeader, ArpReply;
  }

  /**
   * Exactly when an arrival runs into undefined behaviour: when the packet handler does so by itself, or when the
   * packet has to be queued and its address has no route, or it is too short to be quoted and the request it is
   * queued behind is due to be given up.
   */
  lemma ArrivalFaultsIff(cfg: Config, s: State, e: Event)
    requires e.Arrival? && Verified(cfg) && Solid(cfg, s) && e.at >= 2
    ensures var s0, d := s.(clock := e.at), Decide(cfg, e.frame, e.iface);
      Step(cfg, s, e).Fault? <==>
        d.Crash? || (d.Deliver? && Lookup(s.entries, d.ip).None? &&
                     (RouteTo(cfg, d.ip).None? ||
                      (!Quotable(Packet(d.frame, d.iface)) && HopelessAt(s0, QueueNode(s0, d.ip)))))
    ensures Step(cfg, s, e).Fault? ==> Step(cfg, s, e).why != FreedRequest
  {
    hide Verified, Solid, Handle, Decide, Enqueue, Lpm, HopelessAt, QueueNode, Quotable;
    var s0, d := s.(clock := e.at), Decide(cfg, e.frame, e.iface);
    SolidElsewhere(cfg, s, s0);
    SolidIsRouted(cfg, s0);
    CrashIsOwn(cfg, e.frame, e.iface);
    if d.Deliver? && Lookup(s.entries, d.ip).None? {
      var p, n := Packet(d.frame, d.iface), QueueNode(s0, d.ip);
      var nodes := Nodes(s0.requests) + {n};
      assert Step(cfg, s, e) == Handle(cfg, Enqueue(s0, d.ip, p), n, Live(nodes));
      if RouteTo(cfg, d.ip).None? {
        UnroutedFaults(cfg, s0, d.ip, p, Live(nodes));
      } else if Quotable(p) {
        EnqueueSolid(cfg, s0, d.ip, p);
        EnqueueOverdue(s0, d.ip, p);
        HandleSolid(cfg, Enqueue(s0, d.ip, p), n, nodes);
      } else if HopelessAt(s0, n) {
        IllegibleFaults(cfg, s0, d.ip, p, nodes);
      } else {
        IllegibleWaits(cfg, s0, d.ip, p, Live(nodes));
      }
    }
  }

  // ----- undefined behaviour in runs

  /** The handler can deal with the arrival, and if its packet has to be queued then behind an address with a route and whole. */
  ghost predicate Regular(cfg: Config, s: State, e: Event) {
    e.Arrival? ==>
      var d := Decide(cfg, e.frame, e.iface);
      !d.Crash? &&
      (d.Deliver? && Lookup(s.entries, d.ip).None? ==> RouteTo(cfg, d.ip).Some? && Quotable(Packet(d.frame, d.iface)))
  }

  /** No null pointer and no overread; the list may still be walked over a freed request, or the recursion not end. */
  predicate OnlyFreed(o: Outcome) {
    o.Fault? ==> o.why == FreedRequest
  }

  lemma {:induction false} SweepDefined(cfg: Config, s: State, cur: Option<nat>)
    requires Verified(cfg) && Solid(cfg, s)
    ensures OnlyFreed(Sweep(cfg, s, cur))
    ensures Sweep(cfg, s, cur).Done? ==> Solid(cfg, Sweep(cfg, s, cur).st)
    decreases |Overdue(s)|, Ahead(s, cur)
  {
    hide Verified, Solid, Handle, Overdue, NodeIndex;
    if cur.Some? && Pending(s, cur.value) {
      HandleSolid(cfg, s, cur.value, Nodes(s.requests));
      var o := Handle(cfg, s, cur.value, Live(Nodes(s.requests)));
      if o.Done? {
        SweepProgress(cfg, s, cur.value);
        SweepDefined(cfg, o.st, Next(s, cur.value));
      }
    }
  }

  lemma ResolveSolid(cfg: Config, s: State, ip: Word32, frame: Frame, iface: string, nodes: set<nat>)
    requires Verified(cfg) && Solid(cfg, s)
    requires Lookup(s.entries, ip).None? ==> RouteTo(cfg, ip).Some? && Quotable(Packet(frame, iface))
    ensures var o := Resolve(cfg, s, ip, frame, iface, Live(nodes)); !o.Fault? && (o.Done? ==> Solid(cfg, o.st))
  {
    hide Verified, Handle, Lpm, Solid, Quotable;
    if Lookup(s.entries, ip).None? {
      var p := Packet(frame, iface);
      EnqueueSolid(cfg, s, ip, p);
      EnqueueOverdue(s, ip, p);
      HandleSolid(cfg, Enqueue(s, ip, p), QueueNode(s, ip), nodes);
    } else {
      SolidElsewhere(cfg, s, Resolve(cfg, s, ip, frame, iface, Live(nodes)).st);
    }
  }

  lemma AcceptSolid(cfg: Config, s: State, ip: Word32, mac: Mac)
    requires Solid(cfg, s)
    ensures Solid(cfg, Accept(s, ip, mac))
  {
    hide Lpm, Quotable, Store, FlushLog;
    var t, n := Accept(s, ip, mac), IpIndex(s.requests, ip);
    forall i | 0 <= i < |t.requests|
      ensures RouteTo(cfg, t.requests[i].ip).Some? && forall p :: p in t.requests[i].packets ==> Quotable(p)
    {
      var k := if i < n then i else i + 1;
      assert t.requests[i] == s.requests[k];
    }
  }

  lemma ReceiveSolid(cfg: Config, s: State, f: Frame, iface: string)
    requires Verified(cfg) && Solid(cfg, s) && Regular(cfg, s, Arrival(s.clock, f, iface))
    ensures var o := Receive(cfg, s, f, iface); !o.Fault? && (o.Done? ==> Solid(cfg, o.st))
  {
    hide Verified, Solid, Resolve, Decide, Accept, Lpm, Quotable, Lookup;
    match Decide(cfg, f, iface)
    case Deliver(ip, frame, out) => ResolveSolid(cfg, s, ip, frame, out, Nodes(s.requests) + {QueueNode(s, ip)});
    case Learn(ip, mac) => AcceptSolid(cfg, s, ip, mac);
    case Answer(frame, out) => SolidElsewhere(cfg, s, Send(s, out, frame));
    case _ =>
  }

  /** No undefined behaviour but for a freed request, and only whole packets with routes waiting. */
  ghost predicate Sane(cfg: Config, o: Outcome) {
    OnlyFreed(o) && (o.Done? ==> Solid(cfg, o.st))
  }

  /**
   * An arrival runs into no undefined behaviour and leaves only whole packets with routes waiting, if and only if
   * it is regular; a tick runs into undefined behaviour only by way of a freed request.
   */
  lemma EventDefined(cfg: Config, s: State, e: Event)
    requires Verified(cfg) && Solid(cfg, s) && e.at >= 2
    ensures var o := Step(cfg, s, e);
      e.Arrival? ==> (Regular(cfg, s, e) <==> !o.Fault? && (o.Done? ==> Solid(cfg, o.st)))
    ensures Regular(cfg, s, e) <==> Sane(cfg, Step(cfg, s, e))
  {
    hide Verified, Solid, Sweep, Handle, Decide, Enqueue, Lpm, Quotable, HopelessAt, QueueNode;
    var s0 := s.(clock := e.at);
    SolidElsewhere(cfg, s, s0);
    if e.Timer? {
      SolidElsewhere(cfg, s0, Age(s0));
      SweepDefined(cfg, Age(s0), Head(s0));
    } else if Regular(cfg, s, e) {
      ReceiveSolid(cfg, s0, e.frame, e.iface);
    } else {
      ArrivalFaultsIff(cfg, s, e);
      var d := Decide(cfg, e.frame, e.iface);
      assert Step(cfg, s, e).Fault? ==> !OnlyFreed(Step(cfg, s, e));
      if !Step(cfg, s, e).Fault? {
        var p, n := Packet(d.frame, d.iface), QueueNode(s0, d.ip);
        SolidIsRouted(cfg, s0);
        IllegibleWaits(cfg, s0, d.ip, p, Outer(s0, d.ip));
        assert Step(cfg, s, e) == Handle(cfg, Enqueue(s0, d.ip, p), n, Outer(s0, d.ip));
        if Solid(cfg, Step(cfg, s, e).st) {
          SolidAt(cfg, Step(cfg, s, e).st, n, p);
        }
      }
    }
  }

  /** Every event is regular in the state that the events before it lead to. */
  ghost predicate AllRegular(cfg: Config, events: seq<Event>) {
    forall i :: 0 <= i < |events| && Run(cfg, events[..i]).Done? ==> Regular(cfg, Run(cfg, events[..i]).st, events[i])
  }

  ghost predicate AllSane(cfg: Config, events: seq<Event>) {
    forall k :: 0 <= k <= |events| ==> Sane(cfg, Run(cfg, events[..k]))
  }

  lemma LastRegular(cfg: Config, events: seq<Event>, n: nat)
    requires |events| == n + 1
    ensures AllRegular(cfg, events) <==>
              AllRegular(cfg, events[..n]) && (Run(cfg, events[..n]).Done? ==> Regular(cfg, Run(cfg, events[..n]).st, events[n]))
  {
    hide Run, Regular;
    forall i | 0 <= i < n ensures events[..n][..i] == events[..i] && events[..n][i] == events[i] {}
  }

  lemma LastSane(cfg: Config, events: seq<Event>, n: nat)
    requires |events| == n + 1
    ensures AllSane(cfg, events) <==> AllSane(cfg, events[..n]) && Sane(cfg, Run(cfg, events))
    ensures AllSane(cfg, events[..n]) ==> Sane(cfg, Run(cfg, events[..n]))
  {
    hide Run, Sane;
    assert events[..n + 1] == events && events[..n][..n] == events[..n];
    forall k | 0 <= k <= n ensures events[..n][..k] == events[..k] {}
    if AllSane(cfg, events[..n]) && Sane(cfg, Run(cfg, events)) {
      forall k | 0 <= k <= n + 1 ensures Sane(cfg, Run(cfg, events[..k])) {
        if k <= n {
          assert Sane(cfg, Run(cfg, events[..n][..k]));
        }
      }
    }
  }

  /**
   * On a verified routing table, a run never dereferences a missing route or interface or reads past a packet, and at
   * no time keeps a packet waiting that it could not tell the sender of, if and only if all arrivals are regular.
   */
  lemma {:induction false} RunDefined(cfg: Config, events: seq<Event>)
    requires Verified(cfg) && Chronological(events)
    ensures AllSane(cfg, events) <==> AllRegular(cfg, events)
  {
    hide Verified, Solid, Step, Regular;
    if events == [] {
      InitialSolid(cfg);
      assert AllSane(cfg, events) by {
        assert Run(cfg, events[..0]) == Done(INITIAL);
      }
    } else {
      hide AllRegular, AllSane;
      var n := |events| - 1;
      LastRegular(cfg, events, n);
      LastSane(cfg, events, n);
      RunDefined(cfg, events[..n]);
      if AllSane(cfg, events[..n]) && Run(cfg, events[..n]).Done? {
        EventDefined(cfg, Run(cfg, events[..n]).st, events[n]);
      }
    }
  }

  lemma InitialSolid(cfg: Config)
    ensures Solid(cfg, INITIAL) && Routed(cfg, INITIAL)
  {
    assert INITIAL.requests == [];
  }

  // ----- when an event is handled to its end

  /** The packet is queued behind an address with a route; if that request is given up at once, the cascade ends. */
  ghost predicate Queueable(cfg: Config, s: State, ip: Word32, p: Packet) {
    RouteTo(cfg, ip).Some? &&
    var t, n := Enqueue(s, ip, p), QueueNode(s, ip);
    HopelessAt(t, n) ==> !Trapped(cfg, t, n) && Legible(t, Falls(cfg, t, n))
  }

  /** None of the ways in which the handling of an event can fail to come to its end. */
  ghost predicate Untroubled(cfg: Config, s: State, e: Event) {
    var s0 := s.(clock := e.at);
    if e.Timer? then Walk(cfg, Age(s0), 0, {}) == Finishes
    else
      var d := Decide(cfg, e.frame, e.iface);
      !d.Crash? && (d.Deliver? && Lookup(s.entries, d.ip).None? ==> Queueable(cfg, s0, d.ip, Packet(d.frame, d.iface)))
  }

  lemma QueueEndsIff(cfg: Config, s: State, ip: Word32, p: Packet)
    requires Verified(cfg) && Routed(cfg, s) && DistinctAddresses(s) && s.clock >= 2
    ensures var o := Handle(cfg, Enqueue(s, ip, p), QueueNode(s, ip), Outer(s, ip));
      (o.Done? <==> Queueable(cfg, s, ip, p)) && (o.Done? ==> Routed(cfg, o.st))
  {
    hide Verified, Routed, DistinctAddresses, Handle, Trapped, Legible, Falls, Enqueue, QueueNode, Lpm, Encloses, NodeIndex;
    var t, n := Enqueue(s, ip, p), QueueNode(s, ip);
    QueuedNodes(s, ip, p);
    if RouteTo(cfg, ip).None? {
      UnroutedFaults(cfg, s, ip, p, Outer(s, ip));
    } else {
      EnqueueRouted(cfg, s, ip, p);
      EnqueueDistinct(s, ip, p);
      EnqueueOverdue(s, ip, p);
      if HopelessAt(t, n) {
        CascadeEndsIff(cfg, t, n);
      } else {
        LegibleNothing(t);
        HandleReads(cfg, t, n, Nodes(t.requests), {});
        HandleGentle(cfg, t, n, Unbounded(t));
      }
    }
  }

  lemma AcceptRouted(cfg: Config, s: State, ip: Word32, mac: Mac)
    requires Routed(cfg, s)
    ensures Routed(cfg, Accept(s, ip, mac))
  {
    hide Lpm, Store, FlushLog;
    var t, n := Accept(s, ip, mac), IpIndex(s.requests, ip);
    forall i | 0 <= i < |t.requests| ensures RouteTo(cfg, t.requests[i].ip).Some? {
      var k := if i < n then i else i + 1;
      assert t.requests[i] == s.requests[k];
    }
  }

  /** An arrival is handled to its end if and only if nothing is the matter with it. */
  lemma ArrivalCompletesIff(cfg: Config, s: State, e: Event)
    requires e.Arrival? && e.at >= 2 && Verified(cfg) && Routed(cfg, s) && DistinctAddresses(s)
    ensures Step(cfg, s, e).Done? <==> Untroubled(cfg, s, e)
    ensures Step(cfg, s, e).Done? ==> Routed(cfg, Step(cfg, s, e).st)
  {
    hide Verified, Routed, DistinctAddresses, Handle, Decide, Enqueue, QueueNode, Queueable, Accept;
    var s0, d := s.(clock := e.at), Decide(cfg, e.frame, e.iface);
    RoutedElsewhere(cfg, s, s0);
    DistinctElsewhere(s, s0);
    match d
    case Deliver(ip, frame, out) =>
      if Lookup(s.entries, ip).None? {
        QueueEndsIff(cfg, s0, ip, Packet(frame, out));
      } else {
        RoutedElsewhere(cfg, s0, Step(cfg, s, e).st);
      }
    case Learn(ip, mac) => AcceptRouted(cfg, s0, ip, mac);
    case Answer(frame, out) => RoutedElsewhere(cfg, s0, Send(s0, out, frame));
    case _ =>
  }

  lemma DistinctElsewhere(s: State, t: State)
    requires DistinctAddresses(s) && t.requests == s.requests
    ensures DistinctAddresses(t)
  {
  }

  lemma {:induction false} SweepRouted(cfg: Config, s: State, cur: Option<nat>)
    requires Sweep(cfg, s, cur).Done? && Verified(cfg) && Routed(cfg, s) && DistinctAddresses(s)
    ensures Routed(cfg, Sweep(cfg, s, cur).st)
    decreases |Overdue(s)|, Ahead(s, cur)
  {
    hide Verified, Routed, DistinctAddresses, Handle, Overdue, NodeIndex, Encloses, Trapped, Legible, Falls;
    if cur.Some? {
      var b := Live(Nodes(s.requests));
      if HopelessAt(s, cur.value) {
        CascadeEndsIff(cfg, s, cur.value);
      } else {
        LegibleNothing(s);
        HandleReads(cfg, s, cur.value, Nodes(s.requests), {});
      }
      HandleDistinct(cfg, s, cur.value, b);
      SweepProgress(cfg, s, cur.value);
      SweepRouted(cfg, Handle(cfg, s, cur.value, b).st, Next(s, cur.value));
    }
  }

  /** With whole packets only, a tick that neither ends nor follows a freed pointer nests beyond every depth. */
  lemma TickHangsIff(cfg: Config, s: State)
    requires Verified(cfg) && Solid(cfg, s) && DistinctAddresses(s)
    ensures Tick(cfg, s).Cut? <==> Walk(cfg, Age(s), 0, {}) == Sticks
  {
    hide Verified, Solid, DistinctAddresses, Sweep, Walk, Routed;
    SolidIsRouted(cfg, s);
    SolidElsewhere(cfg, s, Age(s));
    SweepDefined(cfg, Age(s), Head(s));
    TickTurnsOut(cfg, s);
  }

  /** An event is handled to its end if and only if there is no trouble. */
  lemma EventCompletesIff(cfg: Config, s: State, e: Event)
    requires Verified(cfg) && Routed(cfg, s) && DistinctAddresses(s) && e.at >= 2
    ensures Step(cfg, s, e).Done? <==> Untroubled(cfg, s, e)
    ensures Step(cfg, s, e).Done? ==> Routed(cfg, Step(cfg, s, e).st)
  {
    hide Verified, Routed, DistinctAddresses, Sweep, Receive, Walk, Queueable, Decide;
    if e.Timer? {
      var s0 := s.(clock := e.at);
      RoutedElsewhere(cfg, s, s0);
      DistinctElsewhere(s, s0);
      TickTurnsOut(cfg, s0);
      if Tick(cfg, s0).Done? {
        RoutedElsewhere(cfg, s0, Age(s0));
        DistinctElsewhere(s0, Age(s0));
        SweepRouted(cfg, Age(s0), Head(s0));
      }
    } else {
      ArrivalCompletesIff(cfg, s, e);
    }
  }

  /** Every event, found in the state that the events before it lead to, is free of trouble. */
  ghost predicate AllUntroubled(cfg: Config, events: seq<Event>) {
    forall i :: 0 <= i < |events| && Run(cfg, events[..i]).Done? ==> Untroubled(cfg, Run(cfg, events[..i]).st, events[i])
  }

  lemma LastUntroubled(cfg: Config, events: seq<Event>, n: nat)
    requires |events| == n + 1
    ensures AllUntroubled(cfg, events) <==>
              AllUntroubled(cfg, events[..n]) && (Run(cfg, events[..n]).Done? ==> Untroubled(cfg, Run(cfg, events[..n]).st, events[n]))
  {
    hide Run, Untroubled;
    forall i | 0 <= i < n ensures events[..n][..i] == events[..i] && events[..n][i] == events[i] {}
  }

  /** On a verified table, a run goes on to its end if and only if there is no trouble on the way. */
  lemma {:induction false} RunCompletesIff(cfg: Config, events: seq<Event>)
    requires Verified(cfg) && Chronological(events)
    ensures Run(cfg, events).Done? <==> AllUntroubled(cfg, events)
    ensures Run(cfg, events).Done? ==> Routed(cfg, Run(cfg, events).st)
  {
    hide Verified, Step, Untroubled, Inv, Routed;
    if events == [] {
      InitialSolid(cfg);
    } else {
      hide AllUntroubled;
      var n := |events| - 1;
      var o := Run(cfg, events[..n]);
      RunCompletesIff(cfg, events[..n]);
      LastUntroubled(cfg, events, n);
      if o.Done? {
        RunIsSafe(cfg, events[..n]);
        InvDistinct(cfg, o.st);
        EventCompletesIff(cfg, o.st, events[n]);
      }
    }
  }

  lemma InvDistinct(cfg: Config, s: State)
    requires Inv(cfg, s)
    ensures DistinctAddresses(s)
  {
  }
}
