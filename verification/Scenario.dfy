/** What happens from power-up when packets are forwarded to hosts that do not answer. */
module Scenario {
  import opened Words
  import opened Routing
  import opened Frames
  import opened Forwarding
  import opened Arp
  import opened Router

  /** A packet that the router forwards. */
  predicate Transit(cfg: Config, f: Frame) {
    f.payload.Ip? && HeaderOk(f.payload.h) && !BlackListed(f.payload.h) && !IsOwnAddress(cfg, f.payload.h.dst) &&
    f.payload.h.ttl != 1 && OutIface(cfg, f.payload.h.dst).Some?
  }

  /** Nothing is cached, and every pending address was asked for `k` times, last at time `at`. */
  ghost predicate AllWait(cfg: Config, s: State, k: nat, at: int) {
    s.entries == NoEntries() && s.clock == at && forall i :: 0 <= i < |s.requests| ==>
      s.requests[i].sent == at && s.requests[i].timesSent == k && OutIface(cfg, s.requests[i].ip).Some?
  }

  /** A request for the destination of `f`, behind which just that packet waits. */
  ghost predicate Holds(r: Request, f: Frame)
    requires f.payload.Ip?
  {
    r.ip == f.payload.h.dst && |r.packets| == 1 &&
    var g := r.packets[0].frame;
    g.payload.Ip? && g.payload.h.src == f.payload.h.src && g.payload.data == f.payload.data
  }

  lemma EmptyLookup(entries: seq<Entry>, ip: Word32)
    requires forall i :: 0 <= i < |entries| ==> !entries[i].valid
    ensures Lookup(entries, ip) == None
  {
  }

  lemma TransitIsDelivered(cfg: Config, f: Frame, iface: string) returns (p: Packet)
    requires Transit(cfg, f)
    ensures Decide(cfg, f, iface) == Deliver(f.payload.h.dst, p.frame, p.iface)
    ensures p.frame.payload.Ip? && p.frame.payload.h.src == f.payload.h.src && p.frame.payload.data == f.payload.data
  {
    hide HeaderOk, BlackListed, Lpm, GetIface, Seal;
    var h := f.payload.h;
    var ifc := OutIface(cfg, h.dst).value;
    ForwardedSource(h);
    p := Packet(Frame(f.dhost, ifc.mac, Ip(ForwardedHeader(h), f.payload.data)), RouteTo(cfg, h.dst).value.iface);
  }

  lemma QueueAsks(cfg: Config, s: State, ip: Word32, p: Packet, b: Bound)
    requires IpIndex(s.requests, ip) == |s.requests| && OutIface(cfg, ip).Some? && s.clock == 2
    ensures var o := Handle(cfg, Enqueue(s, ip, p), QueueNode(s, ip), b);
      o.Done? && o.st.entries == s.entries && o.st.clock == 2 &&
      o.st.requests == s.requests + [Request(s.nextNode, ip, 2, 1, [p], 2, |s.log|)]
  {
    hide Lpm, GetIface, ArpRequest;
    var t, i, ifc := Enqueue(s, ip, p), |s.requests|, OutIface(cfg, ip).value;
    NodeIndexIs(t.requests, t.nextNode, i);
    assert Handle(cfg, t, s.nextNode, b) == Done(Ask(t, s.nextNode, ifc.name, ArpRequest(ifc, ip)));
  }

  /** A packet for an address that is not pending yet is queued, and the address asked for. */
  lemma ArrivalAsks(cfg: Config, s: State, f: Frame, iface: string)
    requires Transit(cfg, f) && s.entries == NoEntries() && IpIndex(s.requests, f.payload.h.dst) == |s.requests|
    requires s.requests == [] || AllWait(cfg, s, 1, 2)
    ensures var o := Step(cfg, s, Arrival(2, f, iface));
      o.Done? && AllWait(cfg, o.st, 1, 2) && |o.st.requests| == |s.requests| + 1 &&
      o.st.requests[..|s.requests|] == s.requests && Holds(o.st.requests[|s.requests|], f)
  {
    hide HeaderOk, BlackListed, OutIface, Handle, Enqueue, QueueNode, Decide, IsOwnAddress;
    var s0, ip := s.(clock := 2), f.payload.h.dst;
    var p := TransitIsDelivered(cfg, f, iface);
    EmptyLookup(s0.entries, ip);
    QueueAsks(cfg, s0, ip, p, Outer(s0, ip));
  }

  lemma ForwardedSource(h: IpHdr)
    ensures ForwardedHeader(h).src == h.src
  {
  }

  lemma AgeNothing(s: State, now: int)
    requires s.entries == NoEntries()
    ensures Age(s.(clock := now)) == s.(clock := now)
  {
    assert AgeAll(NoEntries(), now) == NoEntries();
  }

  /** The same requests with the same packets. */
  ghost predicate SameWaiting(s: State, t: State) {
    |t.requests| == |s.requests| && forall i :: 0 <= i < |s.requests| ==>
      t.requests[i].node == s.requests[i].node && t.requests[i].ip == s.requests[i].ip && t.requests[i].packets == s.requests[i].packets
  }

  /** The walk from place `i` on, if every request from there on is due and may still be asked for. */
  lemma {:induction false} SweepAsks(cfg: Config, s: State, i: nat, k: nat)
    requires i <= |s.requests| && k < 5
    requires forall j :: i <= j < |s.requests| ==>
      s.requests[j].sent == s.clock - 2 && s.requests[j].timesSent == k && OutIface(cfg, s.requests[j].ip).Some?
    ensures var o := Sweep(cfg, s, if i < |s.requests| then Some(s.requests[i].node) else None);
      o.Done? && o.st.entries == s.entries && o.st.clock == s.clock && SameWaiting(s, o.st) &&
      (forall j :: 0 <= j < i ==> o.st.requests[j] == s.requests[j]) &&
      (forall j :: i <= j < |s.requests| ==> o.st.requests[j].sent == s.clock && o.st.requests[j].timesSent == k + 1)
    decreases |s.requests| - i
  {
    hide OutIface, Sweep, Handle, Next, Pending;
    if i < |s.requests| {
      var s1 := AskAt(cfg, s, i, k);
      SweepUnrolls(cfg, s, s.requests[i].node);
      SweepAsks(cfg, s1, i + 1, k);
    } else {
      SweepNothing(cfg, s);
    }
  }

  lemma AskAt(cfg: Config, s: State, i: nat, k: nat) returns (s1: State)
    requires i < |s.requests| && k < 5 && s.requests[i].sent == s.clock - 2 && s.requests[i].timesSent == k
    requires OutIface(cfg, s.requests[i].ip).Some?
    ensures s1.entries == s.entries && s1.clock == s.clock
    ensures s1.requests == s.requests[i := s.requests[i].(sent := s.clock, timesSent := k + 1)]
    ensures var node := s.requests[i].node;
      Pending(s, node) && Handle(cfg, s, node, Live(Nodes(s.requests))) == Done(s1) &&
      Next(s, node) == if i + 1 < |s.requests| then Some(s.requests[i + 1].node) else None
  {
    hide ArpRequest, Lpm, GetIface;
    var node, ifc := s.requests[i].node, OutIface(cfg, s.requests[i].ip).value;
    NodeIndexIs(s.requests, s.nextNode, i);
    s1 := Ask(s, node, ifc.name, ArpRequest(ifc, s.requests[i].ip));
  }

  /** Each of the next four ticks asks again. */
  lemma TickAsksAll(cfg: Config, s: State, k: nat, at: int)
    requires AllWait(cfg, s, k, at) && k < 5
    ensures var o := Step(cfg, s, Timer(at + 2)); o.Done? && AllWait(cfg, o.st, k + 1, at + 2) && SameWaiting(s, o.st)
  {
    hide OutIface, Sweep;
    AgeNothing(s, at + 2);
    SweepAsks(cfg, s.(clock := at + 2), 0, k);
  }

  /** Every two seconds a tick, until all hope is lost. */
  function Ticks(): seq<Event> {
    [Timer(4), Timer(6), Timer(8), Timer(10), Timer(12)]
  }

  lemma SameWaitingTransitive(s: State, t: State, u: State)
    requires SameWaiting(s, t) && SameWaiting(t, u)
    ensures SameWaiting(s, u)
  {
  }

  /** Four ticks after the packets, every request has been asked for five times; the fifth will find it hopeless. */
  lemma FourTicks(cfg: Config, arrivals: seq<Event>) returns (t: State)
    requires Run(cfg, arrivals).Done? && AllWait(cfg, Run(cfg, arrivals).st, 1, 2)
    ensures var e, n := arrivals + Ticks(), |arrivals| + 4;
      Run(cfg, e[..n]) == Done(t) && Run(cfg, e) == Step(cfg, t, Timer(12))
    ensures AllWait(cfg, t, 5, 10) && SameWaiting(Run(cfg, arrivals).st, t)
  {
    hide Step, AllWait, Run, SameWaiting;
    var e, m, s := arrivals + Ticks(), |arrivals|, Run(cfg, arrivals).st;
    assert e[..m] == arrivals;
    assert forall i :: 0 <= i < 5 ==> e[m + i] == Timer(2 * i + 4);
    t := s;
    assert SameWaiting(s, t) by { StillWaiting(s); }
    for i := 0 to 4
      invariant Run(cfg, e[..m + i]) == Done(t) && AllWait(cfg, t, i + 1, 2 * i + 2) && SameWaiting(s, t)
    {
      TickAsksAll(cfg, t, i + 1, 2 * i + 2);
      RunPrefix(cfg, e, m + i, t);
      SameWaitingTransitive(s, t, Step(cfg, t, e[m + i]).st);
      t := Step(cfg, t, e[m + i]).st;
    }
    RunPrefix(cfg, e, m + 4, t);
    assert e[..m + 5] == e;
  }

  lemma StillWaiting(s: State)
    ensures SameWaiting(s, s)
  {
  }
}
