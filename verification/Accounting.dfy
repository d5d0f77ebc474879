/** Where every IPv4 packet that enters the delivery machinery ends up. */
module Accounting {
  import opened Words
  import opened Frames
  import opened Forwarding
  import opened Arp
  import opened Router
  import opened Safety
  import opened Transmission
  import opened Runs

  /** The host unreachable owed for a dropped packet: one if its sender can be reached, else none. */
  function Notice(cfg: Config, p: Packet): multiset<Packet> {
    if p.frame.payload.Ip? && |p.frame.payload.data| >= 8 && OutIface(cfg, p.frame.payload.h.src).Some? then
      var h := p.frame.payload.h;
      multiset{Packet(ErrorFrame(cfg.stale, OutIface(cfg, h.src).value, 3, 1, h, p.frame.payload.data),
                      RouteTo(cfg, h.src).value.iface)}
    else multiset{}
  }

  /**
   * What is owed is a host unreachable, type 3 and code 1, to the sender of the dropped packet and quoting it, from and
   * through the interface of the route to that sender; and nothing is owed without such a route or to a packet that
   * cannot be quoted.
   */
  lemma NoticeIsHostUnreachable(cfg: Config, p: Packet) returns (q: Packet)
    ensures var owed := p.frame.payload.Ip? && |p.frame.payload.data| >= 8 && OutIface(cfg, p.frame.payload.h.src).Some?;
      if !owed then Notice(cfg, p) == multiset{}
      else
        var h, data, ifc := p.frame.payload.h, p.frame.payload.data, OutIface(cfg, p.frame.payload.h.src).value;
        Notice(cfg, p) == multiset{q} && q.iface == RouteTo(cfg, h.src).value.iface && q.frame.shost == ifc.mac &&
        q.frame.payload.Ip? && q.frame.payload.h.src == ifc.ip && q.frame.payload.h.dst == h.src && q.frame.payload.h.proto == 1 &&
        |q.frame.payload.data| == 36 && q.frame.payload.data[0] == 3 && q.frame.payload.data[1] == 1 &&
        ParseIp(q.frame.payload.data[8..28]) == h && q.frame.payload.data[28..] == data[..8]
  {
    hide RouteTo, IfaceOf, ErrorHeader, ErrorBody, ParseIp;
    q := p;
    if p.frame.payload.Ip? && |p.frame.payload.data| >= 8 && OutIface(cfg, p.frame.payload.h.src).Some? {
      var h, data, ifc := p.frame.payload.h, p.frame.payload.data, OutIface(cfg, p.frame.payload.h.src).value;
      ErrorQuotesPacket(cfg.stale, ifc, 3, 1, h, data);
      q := Packet(ErrorFrame(cfg.stale, ifc, 3, 1, h, data), RouteTo(cfg, h.src).value.iface);
    }
  }

  function Notices(cfg: Config, told: seq<Packet>): multiset<Packet> {
    if told == [] then multiset{} else Notices(cfg, told[..|told| - 1]) + Notice(cfg, told[|told| - 1])
  }

  lemma NoticesAppend(cfg: Config, told: seq<Packet>, p: Packet)
    ensures Notices(cfg, told + [p]) == Notices(cfg, told) + Notice(cfg, p)
  {
    hide Notice;
    assert (told + [p])[..|told|] == told;
  }

  /** Every packet handed over for delivery so far. */
  function HandedOver(s: State): multiset<Packet> {
    s.direct + s.queued
  }

  // ----- each notice is handed over exactly once

  lemma {:induction false} HandleAccounts(cfg: Config, s: State, node: nat, b: Bound)
    requires Handle(cfg, s, node, b).Done?
    ensures var t := Handle(cfg, s, node, b).st;
      HandedOver(t) + Notices(cfg, s.told) == HandedOver(s) + Notices(cfg, t.told)
    decreases Size(b), 0, 0
  {
    hide Notices, ArpRequest;
    var r := Req(s, node);
    if Hopeless(r, s.clock) {
      TellAccounts(cfg, s, r.packets, Enter(b, node).value);
    }
  }

  lemma {:induction false} TellAccounts(cfg: Config, s: State, packets: seq<Packet>, b: Bound)
    requires Tell(cfg, s, packets, b).Done?
    ensures var t := Tell(cfg, s, packets, b).st;
      HandedOver(t) + Notices(cfg, s.told) == HandedOver(s) + Notices(cfg, t.told)
    decreases Size(b), 3, |packets|
  {
    hide Notices, Notice, TellOne;
    if packets != [] {
      var p, s0 := packets[0], Consider(s, packets[0]);
      var s1 := TellOne(cfg, s0, p, b).st;
      var t := Tell(cfg, s1, packets[1..], b).st;
      TellOneAccounts(cfg, s0, p, b);
      NoticesAppend(cfg, s.told, p);
      TellAccounts(cfg, s1, packets[1..], b);
      Chain(HandedOver(s), HandedOver(s1), HandedOver(t), Notices(cfg, s.told), Notices(cfg, s1.told),
            Notices(cfg, t.told), Notice(cfg, p));
    }
  }

  lemma Chain(h0: multiset<Packet>, h1: multiset<Packet>, h2: multiset<Packet>,
              n0: multiset<Packet>, n1: multiset<Packet>, n2: multiset<Packet>, d: multiset<Packet>)
    requires h1 + (n0 + d) == h0 + d + n1 && h2 + n1 == h1 + n2
    ensures h2 + n0 == h0 + n2
  {
    forall x ensures (h2 + n0)[x] == (h0 + n2)[x] {
      assert (h1 + (n0 + d))[x] == (h0 + d + n1)[x] && (h2 + n1)[x] == (h1 + n2)[x];
    }
  }

  lemma {:induction false} TellOneAccounts(cfg: Config, s: State, p: Packet, b: Bound)
    requires TellOne(cfg, s, p, b).Done?
    ensures var t := TellOne(cfg, s, p, b).st;
      HandedOver(t) + Notices(cfg, s.told) == HandedOver(s) + Notice(cfg, p) + Notices(cfg, t.told)
    decreases Size(b), 2, 0
  {
    hide Notices, ErrorFrame, Resolve;
    var h, data := p.frame.payload.h, p.frame.payload.data;
    if RouteTo(cfg, h.src).Some? {
      var route := RouteTo(cfg, h.src).value;
      ResolveAccounts(cfg, s, h.src, ErrorFrame(cfg.stale, IfaceOf(cfg, route.iface).value, 3, 1, h, data), route.iface, b);
    }
  }

  /** Resolving a packet hands over that packet, once, and the notices it brings about. */
  lemma {:induction false} ResolveAccounts(cfg: Config, s: State, ip: Word32, frame: Frame, iface: string, b: Bound)
    requires Resolve(cfg, s, ip, frame, iface, b).Done?
    ensures var t := Resolve(cfg, s, ip, frame, iface, b).st;
      HandedOver(t) + Notices(cfg, s.told) == HandedOver(s) + multiset{Packet(frame, iface)} + Notices(cfg, t.told)
    decreases Size(b), 1, 0
  {
    hide Notices, Handle;
    if Lookup(s.entries, ip).None? {
      HandleAccounts(cfg, Enqueue(s, ip, Packet(frame, iface)), QueueNode(s, ip), b);
    }
  }

  // ----- a request that is being given up is not touched meanwhile

  /** `r` is on the way out: it is hopeless, and handling it again would be cut off. */
  ghost predicate Leaving(s: State, r: Request, b: Bound) {
    r in s.requests && Hopeless(r, s.clock) && b.Live? && r.node !in b.nodes
  }

  lemma OnlyOne(s: State, r: Request)
    requires r in s.requests
    ensures Pending(s, r.node) && Req(s, r.node) == r
  {
    var i :| 0 <= i < |s.requests| && s.requests[i] == r;
    NodeIndexIs(s.requests, s.nextNode, i);
  }

  lemma {:induction false} HandleSpares(cfg: Config, s: State, node: nat, b: Bound, r: Request)
    requires Handle(cfg, s, node, b).Done? && Leaving(s, r, b)
    ensures Leaving(Handle(cfg, s, node, b).st, r, b)
    decreases Size(b), 0, 0
  {
    HandleSettles(cfg, s, node, b);
    var q := Req(s, node);
    OnlyOne(s, r);
    if Due(q, s.clock) && q.timesSent < MAX_ASKS {
      var k :| 0 <= k < |s.requests| && s.requests[k] == r;
      assert Handle(cfg, s, node, b).st.requests[k] == r;
    } else if Hopeless(q, s.clock) {
      var inner := Enter(b, node).value;
      TellSpares(cfg, s, q.packets, inner, r);
      var s1 := Tell(cfg, s, q.packets, inner).st;
      RemoveKeeps(s1.requests, NodeIndex(s1.requests, node), r);
    }
  }

  lemma RemoveKeeps<T>(xs: seq<T>, i: nat, x: T)
    requires i < |xs| && x in xs && x != xs[i]
    ensures x in Remove(xs, i)
  {
    var k :| 0 <= k < |xs| && xs[k] == x;
    var j := if k < i then k else k - 1;
    assert Remove(xs, i)[j] == x;
  }

  lemma {:induction false} TellSpares(cfg: Config, s: State, packets: seq<Packet>, b: Bound, r: Request)
    requires Tell(cfg, s, packets, b).Done? && Leaving(s, r, b)
    ensures Leaving(Tell(cfg, s, packets, b).st, r, b)
    decreases Size(b), 3, |packets|
  {
    hide TellOne;
    if packets != [] {
      TellOneSpares(cfg, Consider(s, packets[0]), packets[0], b, r);
      TellSpares(cfg, TellOne(cfg, Consider(s, packets[0]), packets[0], b).st, packets[1..], b, r);
    }
  }

  lemma {:induction false} TellOneSpares(cfg: Config, s: State, p: Packet, b: Bound, r: Request)
    requires TellOne(cfg, s, p, b).Done? && Leaving(s, r, b)
    ensures Leaving(TellOne(cfg, s, p, b).st, r, b)
    decreases Size(b), 2, 0
  {
    hide Resolve, ErrorFrame, Leaving;
    var h, data := p.frame.payload.h, p.frame.payload.data;
    if RouteTo(cfg, h.src).Some? {
      var route := RouteTo(cfg, h.src).value;
      ResolveSpares(cfg, s, h.src, ErrorFrame(cfg.stale, IfaceOf(cfg, route.iface).value, 3, 1, h, data), route.iface, b, r);
    }
  }

  lemma {:induction false} ResolveSpares(cfg: Config, s: State, ip: Word32, frame: Frame, iface: string, b: Bound, r: Request)
    requires Resolve(cfg, s, ip, frame, iface, b).Done? && Leaving(s, r, b)
    ensures Leaving(Resolve(cfg, s, ip, frame, iface, b).st, r, b)
    decreases Size(b), 1, 0
  {
    if Lookup(s.entries, ip).None? {
      var s1, n := Enqueue(s, ip, Packet(frame, iface)), QueueNode(s, ip);
      EnqueueOverdue(s, ip, Packet(frame, iface));
      assert n != r.node by {
        if n == r.node {
          QueuedIsHopeless(s, ip, Packet(frame, iface), r);
        }
      }
      EnqueueSpares(s, ip, Packet(frame, iface), r);
      HandleSpares(cfg, s1, n, b, r);
    }
  }

  lemma EnqueueSpares(s: State, ip: Word32, p: Packet, r: Request)
    requires r in s.requests && QueueNode(s, ip) != r.node
    ensures r in Enqueue(s, ip, p).requests
  {
    var i, t := IpIndex(s.requests, ip), Enqueue(s, ip, p);
    var k :| 0 <= k < |s.requests| && s.requests[k] == r;
    assert t.requests[k] == r;
  }

  lemma QueuedIsHopeless(s: State, ip: Word32, p: Packet, r: Request)
    requires r in s.requests && Hopeless(r, s.clock) && QueueNode(s, ip) == r.node
    ensures var t := Enqueue(s, ip, p); Pending(t, r.node) && Hopeless(Req(t, r.node), t.clock)
  {
    var i, t := IpIndex(s.requests, ip), Enqueue(s, ip, p);
    OnlyOne(s, r);
    if i == |s.requests| {
      assert false;
    }
    NodeIndexIs(s.requests, s.nextNode, i);
    NodeIndexIs(t.requests, t.nextNode, i);
  }

  // ----- the packets dropped are those considered

  /** Between `s` and `t`, as many packets were considered as dropped, and `open` more. */
  ghost predicate Balanced(s: State, t: State, open: multiset<Packet>) {
    multiset(t.told) + s.expired == t.expired + multiset(s.told) + open
  }

  lemma {:induction false} HandleBalances(cfg: Config, s: State, node: nat, nodes: set<nat>)
    requires Handle(cfg, s, node, Live(nodes)).Done?
    ensures Balanced(s, Handle(cfg, s, node, Live(nodes)).st, multiset{})
    decreases |nodes|, 0, 0
  {
    hide ArpRequest;
    var r := Req(s, node);
    if Hopeless(r, s.clock) {
      var inner := nodes - {node};
      var s1 := Tell(cfg, s, r.packets, Live(inner)).st;
      TellBalances(cfg, s, r.packets, inner);
      TellSpares(cfg, s, r.packets, Live(inner), r);
      OnlyOne(s1, r);
    }
  }

  lemma {:induction false} TellBalances(cfg: Config, s: State, packets: seq<Packet>, nodes: set<nat>)
    requires Tell(cfg, s, packets, Live(nodes)).Done?
    ensures Balanced(s, Tell(cfg, s, packets, Live(nodes)).st, multiset(packets))
    decreases |nodes|, 3, |packets|
  {
    hide TellOne;
    if packets != [] {
      var p, s0 := packets[0], Consider(s, packets[0]);
      var s1 := TellOne(cfg, s0, p, Live(nodes)).st;
      TellOneBalances(cfg, s0, p, nodes);
      TellBalances(cfg, s1, packets[1..], nodes);
      assert packets == [p] + packets[1..];
      BalancedChain(s, s0, s1, Tell(cfg, s, packets, Live(nodes)).st, p, multiset(packets[1..]));
    }
  }

  lemma BalancedChain(s: State, s0: State, s1: State, t: State, p: Packet, rest: multiset<Packet>)
    requires s0 == Consider(s, p) && Balanced(s0, s1, multiset{}) && Balanced(s1, t, rest)
    ensures Balanced(s, t, multiset{p} + rest)
  {
    forall x ensures (multiset(t.told) + s.expired)[x] == (t.expired + multiset(s.told) + (multiset{p} + rest))[x] {
      assert (multiset(s1.told) + s0.expired)[x] == (s1.expired + multiset(s0.told) + multiset{})[x];
      assert (multiset(t.told) + s1.expired)[x] == (t.expired + multiset(s1.told) + rest)[x];
      assert multiset(s0.told) == multiset(s.told) + multiset{p};
    }
  }

  lemma {:induction false} TellOneBalances(cfg: Config, s: State, p: Packet, nodes: set<nat>)
    requires TellOne(cfg, s, p, Live(nodes)).Done?
    ensures Balanced(s, TellOne(cfg, s, p, Live(nodes)).st, multiset{})
    decreases |nodes|, 2, 0
  {
    hide Resolve, ErrorFrame;
    var h, data := p.frame.payload.h, p.frame.payload.data;
    if RouteTo(cfg, h.src).Some? {
      var route := RouteTo(cfg, h.src).value;
      ResolveBalances(cfg, s, h.src, ErrorFrame(cfg.stale, IfaceOf(cfg, route.iface).value, 3, 1, h, data), route.iface, nodes);
    }
  }

  lemma {:induction false} ResolveBalances(cfg: Config, s: State, ip: Word32, frame: Frame, iface: string, nodes: set<nat>)
    requires Resolve(cfg, s, ip, frame, iface, Live(nodes)).Done?
    ensures Balanced(s, Resolve(cfg, s, ip, frame, iface, Live(nodes)).st, multiset{})
    decreases |nodes|, 1, 0
  {
    hide Handle;
    if Lookup(s.entries, ip).None? {
      HandleBalances(cfg, Enqueue(s, ip, Packet(frame, iface)), QueueNode(s, ip), nodes);
    }
  }

  // ----- runs

  /**
   * The books are balanced: the packets dropped are those considered, and every packet handed over is one
   * of `arrived` or the notice for a dropped packet.
   */
  ghost predicate Accounted(cfg: Config, s: State, arrived: multiset<Packet>) {
    multiset(s.told) == s.expired && HandedOver(s) == arrived + Notices(cfg, s.told)
  }

  lemma AccountedStep(cfg: Config, s: State, t: State, arrived: multiset<Packet>, novel: multiset<Packet>)
    requires Accounted(cfg, s, arrived) && Balanced(s, t, multiset{})
    requires HandedOver(t) + Notices(cfg, s.told) == HandedOver(s) + novel + Notices(cfg, t.told)
    ensures Accounted(cfg, t, arrived + novel)
  {
    hide HandedOver, Notices;
    var h, h', n, n' := HandedOver(s), HandedOver(t), Notices(cfg, s.told), Notices(cfg, t.told);
    forall x ensures h'[x] == (arrived + novel + n')[x] {
      assert (h' + n)[x] == (h + novel + n')[x];
    }
    forall x ensures multiset(t.told)[x] == t.expired[x] {
      assert (multiset(t.told) + s.expired)[x] == (t.expired + multiset(s.told) + multiset{})[x];
    }
  }

  lemma {:induction false} SweepAccounts(cfg: Config, s: State, cur: Option<nat>, arrived: multiset<Packet>)
    requires Sweep(cfg, s, cur).Done? && Accounted(cfg, s, arrived)
    ensures Accounted(cfg, Sweep(cfg, s, cur).st, arrived)
    decreases |Overdue(s)|, Ahead(s, cur)
  {
    hide Accounted, Handle, Overdue, HandedOver, Notices, Balanced;
    if cur.Some? {
      var nodes := Nodes(s.requests);
      var s1 := Handle(cfg, s, cur.value, Live(nodes)).st;
      SweepProgress(cfg, s, cur.value);
      HandleAccounts(cfg, s, cur.value, Live(nodes));
      HandleBalances(cfg, s, cur.value, nodes);
      assert HandedOver(s) + multiset{} == HandedOver(s);
      AccountedStep(cfg, s, s1, arrived, multiset{});
      assert arrived + multiset{} == arrived;
      SweepAccounts(cfg, s1, Next(s, cur.value), arrived);
    }
  }

  /** The packet an event hands over for delivery, if any. */
  function Arrived(cfg: Config, e: Event): multiset<Packet> {
    if e.Arrival? && Decide(cfg, e.frame, e.iface).Deliver? then
      multiset{Packet(Decide(cfg, e.frame, e.iface).frame, Decide(cfg, e.frame, e.iface).iface)}
    else multiset{}
  }

  function AllArrived(cfg: Config, events: seq<Event>): multiset<Packet> {
    if events == [] then multiset{}
    else AllArrived(cfg, events[..|events| - 1]) + Arrived(cfg, events[|events| - 1])
  }

  lemma EventAccounts(cfg: Config, s: State, e: Event, arrived: multiset<Packet>)
    requires Step(cfg, s, e).Done? && Accounted(cfg, s, arrived)
    ensures Accounted(cfg, Step(cfg, s, e).st, arrived + Arrived(cfg, e))
  {
    hide Sweep, Resolve, Decide, Notices;
    var s0 := s.(clock := e.at);
    match e
    case Timer(at) =>
      SweepAccounts(cfg, Age(s0), Head(s0), arrived);
      assert arrived + multiset{} == arrived;
    case Arrival(at, f, iface) =>
      match Decide(cfg, f, iface)
      case Deliver(ip, frame, out) =>
        var nodes := Nodes(s0.requests) + {QueueNode(s0, ip)};
        ResolveAccounts(cfg, s0, ip, frame, out, Live(nodes));
        ResolveBalances(cfg, s0, ip, frame, out, nodes);
        AccountedStep(cfg, s0, Resolve(cfg, s0, ip, frame, out, Live(nodes)).st, arrived, Arrived(cfg, e));
      case Drop => assert arrived + multiset{} == arrived;
      case Answer(_, _) => assert arrived + multiset{} == arrived;
      case Learn(_, _) => assert arrived + multiset{} == arrived;
      case Crash(_) =>
  }

  /**
   * Conservation over every run. Every IPv4 packet handed over for delivery, whether for an arrival or as the
   * one host unreachable for a dropped packet with a reachable sender, was sent at once, flushed by a reply,
   * dropped with its request, or is still waiting, and only one of these.
   */
  lemma {:induction false} RunConserves(cfg: Config, events: seq<Event>)
    requires Run(cfg, events).Done? && Chronological(events)
    ensures var s := Run(cfg, events).st;
      AllArrived(cfg, events) + Notices(cfg, s.told) == s.direct + s.queued
      && s.queued == Waiting(s.requests) + s.flushed + s.expired
      && multiset(s.told) == s.expired
  {
    hide Run;
    RunIsSafe(cfg, events);
    RunAccounts(cfg, events);
  }

  /**
   * The same told from what left the router: but for destination MACs, the packets handed over for arrivals and the host
   * unreachables for dropped packets are the IPv4 frames sent, the packets still waiting and the packets dropped.
   */
  lemma RunDelivers(cfg: Config, events: seq<Event>)
    requires Run(cfg, events).Done? && Chronological(events)
    ensures var s := Run(cfg, events).st;
      BareAll(AllArrived(cfg, events)) + BareAll(Notices(cfg, s.told))
      == SentPackets(s.log) + BareAll(Waiting(s.requests)) + BareAll(multiset(s.told))
  {
    hide Run, BareAll, SentPackets, Waiting, AllArrived, Notices, Inv;
    var s := Run(cfg, events).st;
    RunConserves(cfg, events);
    RunIsSafe(cfg, events);
    InvTransmitted(cfg, s);
    BareAllUnion(AllArrived(cfg, events), Notices(cfg, s.told));
    BareAllUnion(s.direct + s.flushed, Waiting(s.requests) + s.expired);
    BareAllUnion(Waiting(s.requests), s.expired);
    assert s.direct + s.queued == s.direct + s.flushed + (Waiting(s.requests) + s.expired);
  }

  lemma InvTransmitted(cfg: Config, s: State)
    requires Inv(cfg, s)
    ensures Transmitted(s)
  {
  }

  lemma {:induction false} RunAccounts(cfg: Config, events: seq<Event>)
    requires Run(cfg, events).Done?
    ensures Accounted(cfg, Run(cfg, events).st, AllArrived(cfg, events))
  {
    hide Step, Arrived;
    if events != [] {
      hide Accounted;
      var n := |events| - 1;
      RunAccounts(cfg, events[..n]);
      EventAccounts(cfg, Run(cfg, events[..n]).st, events[n], AllArrived(cfg, events[..n]));
    }
  }
}
