/**
 * When the recursion of `sr_arpcache_handle_arpreq` ends. Giving up a request tells the senders of its
 * packets, which queues notices behind other requests and handles those, and so on.
 */
module Cascade {
  import opened Words
  import opened Routing
  import opened Frames
  import opened Forwarding
  import opened Arp
  import opened Router
  import opened Safety
  import opened Accounting

  // ----- the bound does not matter as long as it is not hit

  /** Whatever `b` lets through, `c` lets through. */
  ghost predicate Wider(b: Bound, c: Bound) {
    c.Depth? && Size(b) <= c.left
  }

  lemma {:induction false} HandleWider(cfg: Config, s: State, node: nat, b: Bound, c: Bound)
    requires Wider(b, c) && !Handle(cfg, s, node, b).Cut?
    ensures Handle(cfg, s, node, c) == Handle(cfg, s, node, b)
    decreases Size(b), 0, 0
  {
    hide Ask, GiveUp, ArpRequest;
    if Pending(s, node) && Hopeless(Req(s, node), s.clock) {
      TellWider(cfg, s, Req(s, node).packets, Enter(b, node).value, Enter(c, node).value);
    }
  }

  lemma {:induction false} TellWider(cfg: Config, s: State, packets: seq<Packet>, b: Bound, c: Bound)
    requires Wider(b, c) && !Tell(cfg, s, packets, b).Cut?
    ensures Tell(cfg, s, packets, c) == Tell(cfg, s, packets, b)
    decreases Size(b), 3, |packets|
  {
    hide TellOne, Consider;
    if packets != [] {
      var s0, p := Consider(s, packets[0]), packets[0];
      TellOneWider(cfg, s0, p, b, c);
      if TellOne(cfg, s0, p, b).Done? {
        TellWider(cfg, TellOne(cfg, s0, p, b).st, packets[1..], b, c);
      }
    }
  }

  lemma {:induction false} TellOneWider(cfg: Config, s: State, p: Packet, b: Bound, c: Bound)
    requires Wider(b, c) && !TellOne(cfg, s, p, b).Cut?
    ensures TellOne(cfg, s, p, c) == TellOne(cfg, s, p, b)
    decreases Size(b), 2, 0
  {
    hide Enqueue, SendDirect, ErrorFrame, Handle;
    if p.frame.payload.Ip? && |p.frame.payload.data| >= 8 {
      var h := p.frame.payload.h;
      if OutIface(cfg, h.src).Some? && Lookup(s.entries, h.src).None? {
        var route := RouteTo(cfg, h.src).value;
        var notice := Packet(ErrorFrame(cfg.stale, OutIface(cfg, h.src).value, 3, 1, h, p.frame.payload.data), route.iface);
        HandleWider(cfg, Enqueue(s, h.src, notice), QueueNode(s, h.src), b, c);
      }
    }
  }

  // ----- traps

  /** Sending a notice to `a` means handling a member of `C`. */
  ghost predicate Goes(cfg: Config, s: State, a: Word32, C: set<nat>) {
    RouteTo(cfg, a).Some? && Lookup(s.entries, a).None? &&
    exists z :: z in C && Pending(s, z) && Req(s, z).ip == a
  }

  /** A packet waiting on `r` has its sender in `C`. */
  ghost predicate SenderIn(cfg: Config, s: State, r: Request, C: set<nat>) {
    exists p :: p in r.packets && p.frame.payload.Ip? && Goes(cfg, s, p.frame.payload.h.src, C)
  }

  /** The router itself, which is the sender of any notice queued behind `r`, is in `C`. */
  ghost predicate SelfIn(cfg: Config, s: State, r: Request, C: set<nat>) {
    OutIface(cfg, r.ip).Some? && Goes(cfg, s, OutIface(cfg, r.ip).value.ip, C)
  }

  /** Hopeless requests each of which, once a notice is queued behind it, leads back into the set. */
  ghost predicate Trap(cfg: Config, s: State, C: set<nat>) {
    forall y :: y in C ==>
      Pending(s, y) && Hopeless(Req(s, y), s.clock) && (SenderIn(cfg, s, Req(s, y), C) || SelfIn(cfg, s, Req(s, y), C))
  }

  /** The address of a hopeless request whose packets lead into a trap. */
  ghost predicate Trapped(cfg: Config, s: State, node: nat) {
    Pending(s, node) && Hopeless(Req(s, node), s.clock) &&
    exists C :: Trap(cfg, s, C) && SenderIn(cfg, s, Req(s, node), C)
  }

  /** `t` still has the members of `C` as `s` has them, with perhaps more packets. */
  ghost predicate Retains(s: State, t: State, C: set<nat>) {
    t.entries == s.entries && t.clock == s.clock &&
    forall y :: y in C && Pending(s, y) ==>
      Pending(t, y) && Req(t, y).ip == Req(s, y).ip && Req(t, y).sent == Req(s, y).sent
      && Req(t, y).timesSent == Req(s, y).timesSent && forall p :: p in Req(s, y).packets ==> p in Req(t, y).packets
  }

  lemma GoesRetained(cfg: Config, s: State, t: State, C: set<nat>, a: Word32)
    requires Retains(s, t, C) && Goes(cfg, s, a, C)
    ensures Goes(cfg, t, a, C)
  {
    var z :| z in C && Pending(s, z) && Req(s, z).ip == a;
    assert z in C && Pending(t, z) && Req(t, z).ip == a;
  }

  lemma TrapRetained(cfg: Config, s: State, t: State, C: set<nat>)
    requires Retains(s, t, C) && Trap(cfg, s, C)
    ensures Trap(cfg, t, C)
  {
    hide Goes, NodeIndex, Lookup;
    forall y | y in C
      ensures Pending(t, y) && Hopeless(Req(t, y), t.clock) && (SenderIn(cfg, t, Req(t, y), C) || SelfIn(cfg, t, Req(t, y), C))
    {
      if SenderIn(cfg, s, Req(s, y), C) {
        var p :| p in Req(s, y).packets && p.frame.payload.Ip? && Goes(cfg, s, p.frame.payload.h.src, C);
        GoesRetained(cfg, s, t, C, p.frame.payload.h.src);
        assert p in Req(t, y).packets;
      } else {
        GoesRetained(cfg, s, t, C, OutIface(cfg, Req(s, y).ip).value.ip);
      }
    }
  }

  lemma EnqueueRetains(s: State, ip: Word32, p: Packet, C: set<nat>)
    ensures Retains(s, Enqueue(s, ip, p), C)
  {
    hide Lookup;
    var t, i := Enqueue(s, ip, p), IpIndex(s.requests, ip);
    forall y | y in C && Pending(s, y)
      ensures Pending(t, y) && NodeIndex(t.requests, y) == NodeIndex(s.requests, y)
    {
      var k := NodeIndex(s.requests, y);
      assert t.requests[k].node == y;
      NodeIndexIs(t.requests, t.nextNode, k);
    }
  }

  lemma AskRetains(s: State, node: nat, iface: string, f: Frame, C: set<nat>)
    requires Pending(s, node) && node !in C
    ensures Retains(s, Ask(s, node, iface, f), C)
  {
    hide Lookup;
    var t := Ask(s, node, iface, f);
    forall y | y in C && Pending(s, y)
      ensures Pending(t, y) && NodeIndex(t.requests, y) == NodeIndex(s.requests, y)
    {
      var k := NodeIndex(s.requests, y);
      assert t.requests[k].node == y;
      NodeIndexIs(t.requests, t.nextNode, k);
    }
  }

  lemma GiveUpRetains(s: State, node: nat, C: set<nat>)
    requires Pending(s, node) && node !in C
    ensures Retains(s, GiveUp(s, node), C)
  {
    hide NodeIndex;
    forall y | y in C && Pending(s, y)
      ensures Pending(GiveUp(s, node), y) && Req(GiveUp(s, node), y) == Req(s, y)
    {
      GiveUpKeepsReq(s, node, y);
    }
  }

  lemma GiveUpKeepsReq(s: State, node: nat, y: nat)
    requires Pending(s, node) && Pending(s, y) && y != node
    ensures Pending(GiveUp(s, node), y) && Req(GiveUp(s, node), y) == Req(s, y)
  {
    RemoveKeeps(s.requests, NodeIndex(s.requests, node), Req(s, y));
    OnlyOne(GiveUp(s, node), Req(s, y));
  }

  // ----- whatever the bound, handling a trapped request does not return

  lemma RetainsTransitive(s: State, t: State, u: State, C: set<nat>)
    requires Retains(s, t, C) && Retains(t, u, C)
    ensures Retains(s, u, C)
  {
    hide NodeIndex;
  }

  /** A call that returns keeps every trap, and the request it handled was outside and led into none. */
  lemma {:induction false} HandleAvoidsTrap(cfg: Config, s: State, node: nat, b: Bound, C: set<nat>)
    requires Handle(cfg, s, node, b).Done? && Trap(cfg, s, C) && DistinctAddresses(s)
    requires node in C ==> SenderIn(cfg, s, Req(s, node), C)
    ensures Retains(s, Handle(cfg, s, node, b).st, C) && DistinctAddresses(Handle(cfg, s, node, b).st)
    ensures node !in C && (Hopeless(Req(s, node), s.clock) ==> !SenderIn(cfg, s, Req(s, node), C))
    decreases Size(b), 0, 0
  {
    hide Ask, GiveUp, ArpRequest, Goes, Retains, Tell;
    var r := Req(s, node);
    if !Due(r, s.clock) {
      SelfRetains(s, C);
    } else if r.timesSent < MAX_ASKS {
      var ifc := OutIface(cfg, r.ip).value;
      AskRetains(s, node, ifc.name, ArpRequest(ifc, r.ip), C);
      AskDistinct(s, node, ifc.name, ArpRequest(ifc, r.ip));
    } else {
      var inner := Enter(b, node).value;
      var s1 := Tell(cfg, s, r.packets, inner).st;
      TellAvoidsTrap(cfg, s, r.packets, inner, C);
      GiveUpRetains(s1, node, C);
      GiveUpDistinct(s1, node);
      RetainsTransitive(s, s1, GiveUp(s1, node), C);
    }
  }

  lemma SelfRetains(s: State, C: set<nat>)
    ensures Retains(s, s, C)
  {
  }

  lemma {:induction false} TellAvoidsTrap(cfg: Config, s: State, packets: seq<Packet>, b: Bound, C: set<nat>)
    requires Tell(cfg, s, packets, b).Done? && Trap(cfg, s, C) && DistinctAddresses(s)
    ensures Retains(s, Tell(cfg, s, packets, b).st, C) && DistinctAddresses(Tell(cfg, s, packets, b).st)
    ensures forall p :: p in packets ==> !(p.frame.payload.Ip? && Goes(cfg, s, p.frame.payload.h.src, C))
    decreases Size(b), 3, |packets|
  {
    hide TellOne, Goes, Retains, Trap;
    if packets == [] {
      SelfRetains(s, C);
    } else {
      var s0, p := Consider(s, packets[0]), packets[0];
      ConsiderRetains(cfg, s, p, C);
      TrapRetained(cfg, s, s0, C);
      TellOneAvoidsTrap(cfg, s0, p, b, C);
      var s1 := TellOne(cfg, s0, p, b).st;
      TrapRetained(cfg, s0, s1, C);
      TellAvoidsTrap(cfg, s1, packets[1..], b, C);
      RetainsTransitive(s, s0, s1, C);
      RetainsTransitive(s, s1, Tell(cfg, s, packets, b).st, C);
      forall q | q in packets && q.frame.payload.Ip?
        ensures !Goes(cfg, s, q.frame.payload.h.src, C)
      {
        assert q == p || q in packets[1..];
        if Goes(cfg, s, q.frame.payload.h.src, C) {
          GoesRetained(cfg, s, s0, C, q.frame.payload.h.src);
          GoesRetained(cfg, s, s1, C, q.frame.payload.h.src);
        }
      }
    }
  }

  lemma ConsiderRetains(cfg: Config, s: State, p: Packet, C: set<nat>)
    ensures Retains(s, Consider(s, p), C)
  {
  }

  lemma {:induction false} TellOneAvoidsTrap(cfg: Config, s: State, p: Packet, b: Bound, C: set<nat>)
    requires TellOne(cfg, s, p, b).Done? && Trap(cfg, s, C) && DistinctAddresses(s)
    ensures Retains(s, TellOne(cfg, s, p, b).st, C) && DistinctAddresses(TellOne(cfg, s, p, b).st)
    ensures p.frame.payload.Ip? ==> !Goes(cfg, s, p.frame.payload.h.src, C)
    decreases Size(b), 2, 0
  {
    hide Resolve, Retains, Trap, ErrorBody;
    SelfRetains(s, C);
    var h, data := p.frame.payload.h, p.frame.payload.data;
    if RouteTo(cfg, h.src).Some? {
      var route := RouteTo(cfg, h.src).value;
      NoticeAvoidsTrap(cfg, s, h.src, ErrorFrame(cfg.stale, OutIface(cfg, h.src).value, 3, 1, h, data), route.iface, b, C);
    }
  }

  lemma {:induction false} NoticeAvoidsTrap(cfg: Config, s: State, ip: Word32, notice: Frame, iface: string, b: Bound, C: set<nat>)
    requires Resolve(cfg, s, ip, notice, iface, b).Done? && Trap(cfg, s, C) && DistinctAddresses(s)
    requires OutIface(cfg, ip).Some? && notice.payload.Ip? && notice.payload.h.src == OutIface(cfg, ip).value.ip
    ensures Retains(s, Resolve(cfg, s, ip, notice, iface, b).st, C)
    ensures DistinctAddresses(Resolve(cfg, s, ip, notice, iface, b).st) && !Goes(cfg, s, ip, C)
    decreases Size(b), 1, 0
  {
    hide Handle, Trap, Retains, Enqueue, SendDirect;
    if Lookup(s.entries, ip).Some? {
      DirectRetains(s, ip, notice, iface, C);
    } else {
      var p := Packet(notice, iface);
      var s1, n := Enqueue(s, ip, p), QueueNode(s, ip);
      EnqueueRetains(s, ip, p, C);
      EnqueueDistinct(s, ip, p);
      TrapRetained(cfg, s, s1, C);
      if n in C || Goes(cfg, s, ip, C) {
        NoticeSpringsTrap(cfg, s, ip, p, C);
      }
      HandleAvoidsTrap(cfg, s1, n, b, C);
      RetainsTransitive(s, s1, Resolve(cfg, s, ip, notice, iface, b).st, C);
    }
  }

  lemma DirectRetains(s: State, ip: Word32, f: Frame, iface: string, C: set<nat>)
    requires Lookup(s.entries, ip).Some?
    ensures var t := SendDirect(s, iface, f, Lookup(s.entries, ip).value.mac);
      Retains(s, t, C) && (DistinctAddresses(s) ==> DistinctAddresses(t))
  {
  }

  /** Behind a member of a trap, the notice itself is a packet whose sender leads on. */
  lemma NoticeSpringsTrap(cfg: Config, s: State, ip: Word32, p: Packet, C: set<nat>)
    requires Trap(cfg, s, C) && DistinctAddresses(s) && (QueueNode(s, ip) in C || Goes(cfg, s, ip, C))
    requires OutIface(cfg, ip).Some? && p.frame.payload.Ip? && p.frame.payload.h.src == OutIface(cfg, ip).value.ip
    ensures var t, n := Enqueue(s, ip, p), QueueNode(s, ip);
      n in C && Pending(t, n) && SenderIn(cfg, t, Req(t, n), C)
  {
    hide Lookup, Retains, Enqueue, NodeIndex, Goes;
    var t, n := Enqueue(s, ip, p), QueueNode(s, ip);
    EnqueueRetains(s, ip, p, C);
    TrapMemberQueued(cfg, s, ip, p, C);
    var r := Req(s, n);
    if SenderIn(cfg, s, r, C) {
      var q :| q in r.packets && q.frame.payload.Ip? && Goes(cfg, s, q.frame.payload.h.src, C);
      GoesRetained(cfg, s, t, C, q.frame.payload.h.src);
      assert q in Req(t, n).packets;
    } else {
      GoesRetained(cfg, s, t, C, OutIface(cfg, ip).value.ip);
      assert p in Req(t, n).packets;
    }
  }

  lemma TrapMemberQueued(cfg: Config, s: State, ip: Word32, p: Packet, C: set<nat>)
    requires Trap(cfg, s, C) && DistinctAddresses(s) && (QueueNode(s, ip) in C || Goes(cfg, s, ip, C))
    ensures var t, n := Enqueue(s, ip, p), QueueNode(s, ip);
      n in C && Pending(s, n) && Pending(t, n) && Req(s, n).ip == ip && Req(t, n).packets == [p] + Req(s, n).packets
  {
    hide Lookup, SenderIn, SelfIn;
    var t, n, i := Enqueue(s, ip, p), QueueNode(s, ip), IpIndex(s.requests, ip);
    if Goes(cfg, s, ip, C) {
      var z :| z in C && Pending(s, z) && Req(s, z).ip == ip;
      assert NodeIndex(s.requests, z) == i;
    }
    assert Pending(s, n) && n < s.nextNode;
    NodeIndexIs(s.requests, s.nextNode, i);
    NodeIndexIs(t.requests, t.nextNode, i);
  }

  // ----- if the bound is hit, there is a trap

  /** Like `Goes`, but the request handled may also be one that `nodes` no longer lets through. */
  ghost predicate GoesOut(cfg: Config, s: State, a: Word32, C: set<nat>, nodes: set<nat>) {
    RouteTo(cfg, a).Some? && Lookup(s.entries, a).None? &&
    exists z :: (z in C || z !in nodes) && Pending(s, z) && Req(s, z).ip == a && Hopeless(Req(s, z), s.clock)
  }

  ghost predicate SenderOut(cfg: Config, s: State, r: Request, C: set<nat>, nodes: set<nat>) {
    exists p :: p in r.packets && p.frame.payload.Ip? && GoesOut(cfg, s, p.frame.payload.h.src, C, nodes)
  }

  ghost predicate SelfOut(cfg: Config, s: State, r: Request, C: set<nat>, nodes: set<nat>) {
    OutIface(cfg, r.ip).Some? && GoesOut(cfg, s, OutIface(cfg, r.ip).value.ip, C, nodes)
  }

  ghost predicate OpenTrap(cfg: Config, s: State, C: set<nat>, nodes: set<nat>) {
    forall y :: y in C ==>
      Pending(s, y) && Hopeless(Req(s, y), s.clock) &&
      (SenderOut(cfg, s, Req(s, y), C, nodes) || SelfOut(cfg, s, Req(s, y), C, nodes))
  }

  /** What `t` has of hopeless requests, `s` had, except that notices may have joined them. */
  ghost predicate Stems(cfg: Config, s: State, t: State) {
    t.entries == s.entries && t.clock == s.clock &&
    forall y :: Pending(t, y) && Hopeless(Req(t, y), t.clock) ==>
      Pending(s, y) && Req(s, y).ip == Req(t, y).ip && Hopeless(Req(s, y), s.clock) &&
      forall p :: p in Req(t, y).packets ==> p in Req(s, y).packets || FromSelf(cfg, Req(s, y).ip, p)
  }

  ghost predicate FromSelf(cfg: Config, ip: Word32, p: Packet) {
    OutIface(cfg, ip).Some? && Quotable(p) && p.frame.payload.h.src == OutIface(cfg, ip).value.ip
  }

  lemma GoesOutStems(cfg: Config, s: State, t: State, a: Word32, C: set<nat>, nodes: set<nat>)
    requires Stems(cfg, s, t) && GoesOut(cfg, t, a, C, nodes)
    ensures GoesOut(cfg, s, a, C, nodes)
  {
    var z :| (z in C || z !in nodes) && Pending(t, z) && Req(t, z).ip == a && Hopeless(Req(t, z), t.clock);
    assert Pending(s, z) && Req(s, z).ip == a;
  }

  lemma SenderOutStems(cfg: Config, s: State, t: State, y: nat, C: set<nat>, nodes: set<nat>)
    requires Stems(cfg, s, t) && Pending(t, y) && Hopeless(Req(t, y), t.clock)
    requires SenderOut(cfg, t, Req(t, y), C, nodes) || SelfOut(cfg, t, Req(t, y), C, nodes)
    ensures Pending(s, y) && (SenderOut(cfg, s, Req(s, y), C, nodes) || SelfOut(cfg, s, Req(s, y), C, nodes))
  {
    hide GoesOut, NodeIndex;
    if SenderOut(cfg, t, Req(t, y), C, nodes) {
      var p :| p in Req(t, y).packets && p.frame.payload.Ip? && GoesOut(cfg, t, p.frame.payload.h.src, C, nodes);
      GoesOutStems(cfg, s, t, p.frame.payload.h.src, C, nodes);
    } else {
      GoesOutStems(cfg, s, t, OutIface(cfg, Req(t, y).ip).value.ip, C, nodes);
    }
  }

  lemma OpenTrapStems(cfg: Config, s: State, t: State, C: set<nat>, nodes: set<nat>)
    requires Stems(cfg, s, t) && OpenTrap(cfg, t, C, nodes)
    ensures OpenTrap(cfg, s, C, nodes)
  {
    hide SenderOut, SelfOut, NodeIndex;
    forall y | y in C
      ensures Pending(s, y) && Hopeless(Req(s, y), s.clock)
      ensures SenderOut(cfg, s, Req(s, y), C, nodes) || SelfOut(cfg, s, Req(s, y), C, nodes)
    {
      SenderOutStems(cfg, s, t, y, C, nodes);
    }
  }

  lemma StemsTransitive(cfg: Config, s: State, t: State, u: State)
    requires Stems(cfg, s, t) && Stems(cfg, t, u)
    ensures Stems(cfg, s, u)
  {
    hide NodeIndex, FromSelf;
  }

  lemma SelfStems(cfg: Config, s: State)
    ensures Stems(cfg, s, s)
  {
  }

  lemma SameRequestsStem(cfg: Config, s: State, t: State)
    requires t.requests == s.requests && t.entries == s.entries && t.clock == s.clock
    ensures Stems(cfg, s, t)
  {
    hide FromSelf;
  }

  lemma EnqueueStems(cfg: Config, s: State, ip: Word32, p: Packet)
    requires FromSelf(cfg, ip, p)
    ensures Stems(cfg, s, Enqueue(s, ip, p))
  {
    hide Lookup, OutIface;
    var t, i := Enqueue(s, ip, p), IpIndex(s.requests, ip);
    forall y | Pending(t, y) && Hopeless(Req(t, y), t.clock)
      ensures Pending(s, y) && Req(s, y).ip == Req(t, y).ip && Hopeless(Req(s, y), s.clock)
      ensures forall q :: q in Req(t, y).packets ==> q in Req(s, y).packets || FromSelf(cfg, Req(s, y).ip, q)
    {
      var k := NodeIndex(t.requests, y);
      assert k < |s.requests|;
      assert s.requests[k].node == y;
      NodeIndexIs(s.requests, s.nextNode, k);
    }
  }

  lemma AskStems(cfg: Config, s: State, node: nat, iface: string, f: Frame)
    requires Pending(s, node)
    ensures Stems(cfg, s, Ask(s, node, iface, f))
  {
    hide FromSelf;
    var t := Ask(s, node, iface, f);
    forall y | Pending(t, y) && Hopeless(Req(t, y), t.clock)
      ensures Pending(s, y) && Req(s, y) == Req(t, y)
    {
      var k := NodeIndex(t.requests, y);
      assert s.requests[k].node == y;
      NodeIndexIs(s.requests, s.nextNode, k);
      assert k != NodeIndex(s.requests, node);
    }
  }

  lemma GiveUpStems(cfg: Config, s: State, node: nat)
    requires Pending(s, node)
    ensures Stems(cfg, s, GiveUp(s, node))
  {
    hide FromSelf, NodeIndex;
    var t := GiveUp(s, node);
    forall y | Pending(t, y)
      ensures Pending(s, y) && Req(s, y) == Req(t, y)
    {
      assert Req(t, y) in s.requests;
      OnlyOne(s, Req(t, y));
    }
  }

  lemma {:induction false} HandleStems(cfg: Config, s: State, node: nat, b: Bound)
    requires Handle(cfg, s, node, b).Done?
    ensures Stems(cfg, s, Handle(cfg, s, node, b).st)
    decreases Size(b), 0, 0
  {
    hide Ask, GiveUp, ArpRequest, Stems, Tell;
    var r := Req(s, node);
    if !Due(r, s.clock) {
      SelfStems(cfg, s);
    } else if r.timesSent < MAX_ASKS {
      var ifc := OutIface(cfg, r.ip).value;
      AskStems(cfg, s, node, ifc.name, ArpRequest(ifc, r.ip));
    } else {
      var inner := Enter(b, node).value;
      var s1 := Tell(cfg, s, r.packets, inner).st;
      TellStems(cfg, s, r.packets, inner);
      GiveUpStems(cfg, s1, node);
      StemsTransitive(cfg, s, s1, GiveUp(s1, node));
    }
  }

  lemma {:induction false} TellStems(cfg: Config, s: State, packets: seq<Packet>, b: Bound)
    requires Tell(cfg, s, packets, b).Done?
    ensures Stems(cfg, s, Tell(cfg, s, packets, b).st)
    decreases Size(b), 3, |packets|
  {
    hide TellOne, Stems;
    if packets == [] {
      SelfStems(cfg, s);
    } else {
      var s0, p := Consider(s, packets[0]), packets[0];
      SameRequestsStem(cfg, s, s0);
      TellOneStems(cfg, s0, p, b);
      var s1 := TellOne(cfg, s0, p, b).st;
      TellStems(cfg, s1, packets[1..], b);
      StemsTransitive(cfg, s, s0, s1);
      StemsTransitive(cfg, s, s1, Tell(cfg, s, packets, b).st);
    }
  }

  lemma {:induction false} TellOneStems(cfg: Config, s: State, p: Packet, b: Bound)
    requires TellOne(cfg, s, p, b).Done?
    ensures Stems(cfg, s, TellOne(cfg, s, p, b).st)
    decreases Size(b), 2, 0
  {
    hide Stems, ErrorBody, Handle, Enqueue;
    SelfStems(cfg, s);
    var h, data := p.frame.payload.h, p.frame.payload.data;
    if RouteTo(cfg, h.src).Some? {
      var route, ifc := RouteTo(cfg, h.src).value, OutIface(cfg, h.src).value;
      var notice := Packet(ErrorFrame(cfg.stale, ifc, 3, 1, h, data), route.iface);
      if Lookup(s.entries, h.src).None? {
        EnqueueStems(cfg, s, h.src, notice);
        HandleStems(cfg, Enqueue(s, h.src, notice), QueueNode(s, h.src), b);
        StemsTransitive(cfg, s, Enqueue(s, h.src, notice), TellOne(cfg, s, p, b).st);
      } else {
        SameRequestsStem(cfg, s, TellOne(cfg, s, p, b).st);
      }
    }
  }

  /** A larger set, and fewer nodes that are let through, keep every way out. */
  lemma GoesOutWiden(cfg: Config, s: State, a: Word32, C: set<nat>, nodes: set<nat>, D: set<nat>, more: set<nat>)
    requires GoesOut(cfg, s, a, C, nodes)
    requires forall z :: z in C || z !in nodes ==> z in D || z !in more
    ensures GoesOut(cfg, s, a, D, more)
  {
    var z :| (z in C || z !in nodes) && Pending(s, z) && Req(s, z).ip == a && Hopeless(Req(s, z), s.clock);
    assert z in D || z !in more;
  }

  lemma OutWiden(cfg: Config, s: State, r: Request, C: set<nat>, nodes: set<nat>, D: set<nat>, more: set<nat>)
    requires forall z :: z in C || z !in nodes ==> z in D || z !in more
    ensures SenderOut(cfg, s, r, C, nodes) ==> SenderOut(cfg, s, r, D, more)
    ensures SelfOut(cfg, s, r, C, nodes) ==> SelfOut(cfg, s, r, D, more)
  {
    hide GoesOut;
    if SenderOut(cfg, s, r, C, nodes) {
      var p :| p in r.packets && p.frame.payload.Ip? && GoesOut(cfg, s, p.frame.payload.h.src, C, nodes);
      GoesOutWiden(cfg, s, p.frame.payload.h.src, C, nodes, D, more);
    }
    if SelfOut(cfg, s, r, C, nodes) {
      GoesOutWiden(cfg, s, OutIface(cfg, r.ip).value.ip, C, nodes, D, more);
    }
  }

  /** Closing the trap with one more member. */
  lemma OpenTrapAdd(cfg: Config, s: State, C: set<nat>, nodes: set<nat>, x: nat, more: set<nat>)
    requires OpenTrap(cfg, s, C, nodes) && nodes >= more - {x}
    requires Pending(s, x) && Hopeless(Req(s, x), s.clock)
    requires SenderOut(cfg, s, Req(s, x), C, nodes) || SelfOut(cfg, s, Req(s, x), C, nodes)
    ensures OpenTrap(cfg, s, C + {x}, more)
  {
    hide SenderOut, SelfOut, NodeIndex;
    forall y | y in C + {x}
      ensures Pending(s, y) && Hopeless(Req(s, y), s.clock)
      ensures SenderOut(cfg, s, Req(s, y), C + {x}, more) || SelfOut(cfg, s, Req(s, y), C + {x}, more)
    {
      OutWiden(cfg, s, Req(s, y), C, nodes, C + {x}, more);
    }
  }

  lemma {:induction false} HandleCut(cfg: Config, s: State, node: nat, nodes: set<nat>) returns (C: set<nat>)
    requires Handle(cfg, s, node, Live(nodes)).Cut?
    ensures Pending(s, node) && Hopeless(Req(s, node), s.clock) && OpenTrap(cfg, s, C, nodes)
    ensures node !in nodes || SenderOut(cfg, s, Req(s, node), C, nodes)
    decreases |nodes|, 0, 0
  {
    hide OpenTrap, SenderOut, SelfOut, NodeIndex, GiveUp, Ask;
    if node !in nodes {
      C := {};
      EmptyTrap(cfg, s, nodes);
    } else {
      var inner := nodes - {node};
      var p;
      C, p := TellCut(cfg, s, Req(s, node).packets, inner);
      SenderOutBy(cfg, s, Req(s, node), p, C, inner);
      OpenTrapAdd(cfg, s, C, inner, node, nodes);
      OutWiden(cfg, s, Req(s, node), C, inner, C + {node}, nodes);
      C := C + {node};
    }
  }

  lemma EmptyTrap(cfg: Config, s: State, nodes: set<nat>)
    ensures OpenTrap(cfg, s, {}, nodes)
  {
  }

  lemma SenderOutBy(cfg: Config, s: State, r: Request, p: Packet, C: set<nat>, nodes: set<nat>)
    requires p in r.packets && p.frame.payload.Ip? && GoesOut(cfg, s, p.frame.payload.h.src, C, nodes)
    ensures SenderOut(cfg, s, r, C, nodes)
  {
  }

  lemma {:induction false} TellCut(cfg: Config, s: State, packets: seq<Packet>, nodes: set<nat>)
    returns (C: set<nat>, p: Packet)
    requires Tell(cfg, s, packets, Live(nodes)).Cut?
    ensures OpenTrap(cfg, s, C, nodes)
    ensures p in packets && p.frame.payload.Ip? && GoesOut(cfg, s, p.frame.payload.h.src, C, nodes)
    decreases |nodes|, 3, |packets|
  {
    hide OpenTrap, GoesOut, TellOne, Stems;
    var s0 := Consider(s, packets[0]);
    SameRequestsStem(cfg, s, s0);
    if TellOne(cfg, s0, packets[0], Live(nodes)).Cut? {
      p := packets[0];
      C := TellOneCut(cfg, s0, p, nodes);
      OpenTrapStems(cfg, s, s0, C, nodes);
      GoesOutStems(cfg, s, s0, p.frame.payload.h.src, C, nodes);
    } else {
      var s1 := TellOne(cfg, s0, packets[0], Live(nodes)).st;
      C, p := TellCut(cfg, s1, packets[1..], nodes);
      TellOneStems(cfg, s0, packets[0], Live(nodes));
      StemsTransitive(cfg, s, s0, s1);
      OpenTrapStems(cfg, s, s1, C, nodes);
      GoesOutStems(cfg, s, s1, p.frame.payload.h.src, C, nodes);
    }
  }

  lemma {:induction false} TellOneCut(cfg: Config, s: State, p: Packet, nodes: set<nat>) returns (C: set<nat>)
    requires TellOne(cfg, s, p, Live(nodes)).Cut?
    ensures OpenTrap(cfg, s, C, nodes) && p.frame.payload.Ip? && GoesOut(cfg, s, p.frame.payload.h.src, C, nodes)
    decreases |nodes|, 2, 0
  {
    hide OpenTrap, SenderOut, SelfOut, Stems, Handle, ErrorBody;
    var h, data := p.frame.payload.h, p.frame.payload.data;
    var route, ifc := RouteTo(cfg, h.src).value, OutIface(cfg, h.src).value;
    var notice := Packet(ErrorFrame(cfg.stale, ifc, 3, 1, h, data), route.iface);
    var s1, n := Enqueue(s, h.src, notice), QueueNode(s, h.src);
    C := HandleCut(cfg, s1, n, nodes);
    EnqueueStems(cfg, s, h.src, notice);
    OpenTrapStems(cfg, s, s1, C, nodes);
    StemsAt(cfg, s, s1, n);
    QueueNodeIp(s, h.src);
    if n in nodes {
      SenderOutStems(cfg, s, s1, n, C, nodes);
      OpenTrapAdd(cfg, s, C, nodes, n, nodes);
      C := C + {n};
    }
    assert (n in C || n !in nodes) && Pending(s, n) && Req(s, n).ip == h.src;
  }

  lemma StemsAt(cfg: Config, s: State, t: State, y: nat)
    requires Stems(cfg, s, t) && Pending(t, y) && Hopeless(Req(t, y), t.clock)
    ensures Pending(s, y) && Hopeless(Req(s, y), s.clock)
  {
  }

  lemma QueueNodeIp(s: State, ip: Word32)
    ensures Pending(s, QueueNode(s, ip)) ==> Req(s, QueueNode(s, ip)).ip == ip
  {
    var i := IpIndex(s.requests, ip);
    if i < |s.requests| {
      NodeIndexIs(s.requests, s.nextNode, i);
    }
  }

  // ----- the theorems

  /** All requests may be given up: the bound of a call from outside. */
  function Unbounded(s: State): Bound {
    Live(Nodes(s.requests))
  }

  lemma CutIsTrapped(cfg: Config, s: State, node: nat)
    requires Handle(cfg, s, node, Unbounded(s)).Cut?
    ensures Trapped(cfg, s, node)
  {
    hide NodeIndex, Lookup, Handle;
    var nodes := Nodes(s.requests);
    var C := HandleCut(cfg, s, node, nodes);
    forall a | GoesOut(cfg, s, a, C, nodes)
      ensures Goes(cfg, s, a, C)
    {
      var z :| (z in C || z !in nodes) && Pending(s, z) && Req(s, z).ip == a;
      assert Req(s, z) in s.requests;
      assert z in nodes;
    }
    assert Trap(cfg, s, C) by {
      forall y | y in C ensures SenderIn(cfg, s, Req(s, y), C) || SelfIn(cfg, s, Req(s, y), C) {
        assert SenderOut(cfg, s, Req(s, y), C, nodes) || SelfOut(cfg, s, Req(s, y), C, nodes);
      }
    }
    assert Req(s, node) in s.requests;
    assert SenderOut(cfg, s, Req(s, node), C, nodes);
  }

  /** However deep it may nest, handling a trapped request never returns. */
  lemma TrappedNeverReturns(cfg: Config, s: State, node: nat, b: Bound)
    requires Trapped(cfg, s, node) && DistinctAddresses(s)
    ensures !Handle(cfg, s, node, b).Done?
  {
    var C :| Trap(cfg, s, C) && SenderIn(cfg, s, Req(s, node), C);
    if Handle(cfg, s, node, b).Done? {
      HandleAvoidsTrap(cfg, s, node, b, C);
    }
  }

  /**
   * Cutting the recursion off at a repeated give-up loses nothing: the code itself, run to whatever depth,
   * returns a state exactly when the cut-off version does, and it is the same state.
   */
  lemma CutOffIsExact(cfg: Config, s: State, node: nat, t: State)
    requires DistinctAddresses(s)
    ensures Handle(cfg, s, node, Unbounded(s)) == Done(t) <==> exists n: nat :: Handle(cfg, s, node, Depth(n)) == Done(t)
  {
    hide Handle, DistinctAddresses, Trapped;
    var b := Unbounded(s);
    var o := Handle(cfg, s, node, b);
    if o == Done(t) {
      HandleWider(cfg, s, node, b, Depth(Size(b)));
      assert Handle(cfg, s, node, Depth(Size(b))) == Done(t);
    }
    if exists n: nat :: Handle(cfg, s, node, Depth(n)) == Done(t) {
      var n: nat :| Handle(cfg, s, node, Depth(n)) == Done(t);
      if o.Cut? {
        CutIsTrapped(cfg, s, node);
        TrappedNeverReturns(cfg, s, node, Depth(n));
      }
      var m := n + Size(b);
      HandleWider(cfg, s, node, b, Depth(m));
      HandleWider(cfg, s, node, Depth(n), Depth(m));
    }
  }

  /** The same of the packet handler: it returns exactly when its unbounded recursion does, with the same state. */
  lemma DeliveryIsExact(cfg: Config, s: State, ip: Word32, frame: Frame, iface: string, t: State)
    requires DistinctAddresses(s)
    ensures Resolve(cfg, s, ip, frame, iface, Outer(s, ip)) == Done(t)
       <==> exists n: nat :: Resolve(cfg, s, ip, frame, iface, Depth(n)) == Done(t)
  {
    hide Handle, DistinctAddresses, Enqueue, SendDirect;
    var p := Packet(frame, iface);
    if Lookup(s.entries, ip).None? {
      var s1 := Enqueue(s, ip, p);
      EnqueueDistinct(s, ip, p);
      QueuedNodes(s, ip, p);
      CutOffIsExact(cfg, s1, QueueNode(s, ip), t);
      forall n: nat ensures Resolve(cfg, s, ip, frame, iface, Depth(n)) == Handle(cfg, s1, QueueNode(s, ip), Depth(n)) {}
    } else {
      assert Resolve(cfg, s, ip, frame, iface, Depth(0)) == Resolve(cfg, s, ip, frame, iface, Outer(s, ip));
    }
  }

  lemma QueuedNodes(s: State, ip: Word32, p: Packet)
    ensures Live(Nodes(Enqueue(s, ip, p).requests)) == Outer(s, ip)
  {
    var t, i := Enqueue(s, ip, p), IpIndex(s.requests, ip);
    forall n | n in Nodes(s.requests) + {QueueNode(s, ip)} ensures n in Nodes(t.requests) {
      if n == QueueNode(s, ip) {
        assert t.requests[i] in t.requests;
      } else {
        var r :| r in s.requests && r.node == n;
        var k :| 0 <= k < |s.requests| && s.requests[k] == r;
        assert t.requests[k] in t.requests;
      }
    }
    forall n | n in Nodes(t.requests) ensures n in Nodes(s.requests) + {QueueNode(s, ip)} {
      var r :| r in t.requests && r.node == n;
      var k :| 0 <= k < |t.requests| && t.requests[k] == r;
      if k < |s.requests| {
        assert s.requests[k] in s.requests;
      }
    }
  }

  // ----- without undefined behaviour

  /** Every pending address has a route and every waiting packet holds what a notice quotes. */
  ghost predicate Solid(cfg: Config, s: State) {
    forall i :: 0 <= i < |s.requests| ==>
      RouteTo(cfg, s.requests[i].ip).Some? &&
      forall p :: p in s.requests[i].packets ==> Quotable(p)
  }

  predicate Quotable(p: Packet) {
    p.frame.payload.Ip? && |p.frame.payload.data| >= 8
  }

  lemma EnqueueSolid(cfg: Config, s: State, ip: Word32, p: Packet)
    requires Solid(cfg, s) && RouteTo(cfg, ip).Some? && Quotable(p)
    ensures Solid(cfg, Enqueue(s, ip, p))
  {
    hide Quotable, Lpm;
  }

  lemma AskSolid(cfg: Config, s: State, node: nat, iface: string, f: Frame)
    requires Solid(cfg, s) && Pending(s, node)
    ensures Solid(cfg, Ask(s, node, iface, f))
  {
    hide Quotable, Lpm;
  }

  lemma GiveUpSolid(cfg: Config, s: State, node: nat)
    requires Solid(cfg, s) && Pending(s, node)
    ensures Solid(cfg, GiveUp(s, node))
  {
    hide Quotable, Lpm;
  }

  lemma {:induction false} HandleSolid(cfg: Config, s: State, node: nat, nodes: set<nat>)
    requires Verified(cfg) && Solid(cfg, s) && Pending(s, node)
    ensures !Handle(cfg, s, node, Live(nodes)).Fault?
    ensures Handle(cfg, s, node, Live(nodes)).Done? ==> Solid(cfg, Handle(cfg, s, node, Live(nodes)).st)
    decreases |nodes|, 0, 0
  {
    hide Ask, GiveUp, ArpRequest, Tell, Lpm, Quotable;
    var r := Req(s, node);
    VerifiedRoutesResolve(cfg.routes, cfg.ifaces, r.ip);
    if Due(r, s.clock) && r.timesSent < MAX_ASKS {
      var ifc := OutIface(cfg, r.ip).value;
      AskSolid(cfg, s, node, ifc.name, ArpRequest(ifc, r.ip));
    } else if Due(r, s.clock) && node in nodes {
      var inner := Live(nodes - {node});
      TellSolid(cfg, s, r.packets, nodes - {node});
      if Tell(cfg, s, r.packets, inner).Done? {
        TellSpares(cfg, s, r.packets, inner, r);
        OnlyOne(Tell(cfg, s, r.packets, inner).st, r);
        GiveUpSolid(cfg, Tell(cfg, s, r.packets, inner).st, node);
      }
    }
  }

  lemma {:induction false} TellSolid(cfg: Config, s: State, packets: seq<Packet>, nodes: set<nat>)
    requires Verified(cfg) && Solid(cfg, s) && forall p :: p in packets ==> Quotable(p)
    ensures !Tell(cfg, s, packets, Live(nodes)).Fault?
    ensures Tell(cfg, s, packets, Live(nodes)).Done? ==> Solid(cfg, Tell(cfg, s, packets, Live(nodes)).st)
    decreases |nodes|, 3, |packets|
  {
    hide TellOne, Quotable, Lpm;
    if packets != [] {
      var s0, p := Consider(s, packets[0]), packets[0];
      TellOneSolid(cfg, s0, p, nodes);
      if TellOne(cfg, s0, p, Live(nodes)).Done? {
        TellSolid(cfg, TellOne(cfg, s0, p, Live(nodes)).st, packets[1..], nodes);
      }
    }
  }

  lemma {:induction false} TellOneSolid(cfg: Config, s: State, p: Packet, nodes: set<nat>)
    requires Verified(cfg) && Solid(cfg, s) && Quotable(p)
    ensures !TellOne(cfg, s, p, Live(nodes)).Fault?
    ensures TellOne(cfg, s, p, Live(nodes)).Done? ==> Solid(cfg, TellOne(cfg, s, p, Live(nodes)).st)
    decreases |nodes|, 2, 0
  {
    hide Handle, Lpm, GetIface;
    var h, data := p.frame.payload.h, p.frame.payload.data;
    VerifiedRoutesResolve(cfg.routes, cfg.ifaces, h.src);
    if RouteTo(cfg, h.src).Some? && Lookup(s.entries, h.src).None? {
      var route, ifc := RouteTo(cfg, h.src).value, OutIface(cfg, h.src).value;
      var notice := Packet(ErrorFrame(cfg.stale, ifc, 3, 1, h, data), route.iface);
      EnqueueSolid(cfg, s, h.src, notice);
      EnqueueOverdue(s, h.src, notice);
      HandleSolid(cfg, Enqueue(s, h.src, notice), QueueNode(s, h.src), nodes);
    }
  }

  /**
   * If telling the senders of a hopeless request comes to its end at some depth, that request is still there to
   * be given up: nothing it led to can have freed it.
   */
  lemma ToldIsStillPending(cfg: Config, s: State, node: nat, b: Bound)
    requires DistinctAddresses(s) && Verified(cfg) && Solid(cfg, s)
    requires Pending(s, node) && Hopeless(Req(s, node), s.clock) && Tell(cfg, s, Req(s, node).packets, b).Done?
    ensures Pending(Tell(cfg, s, Req(s, node).packets, b).st, node)
  {
    hide Tell, DistinctAddresses, Verified, Solid, NodeIndex, GiveUp, Goes, Trap;
    var r, all := Req(s, node), Nodes(s.requests);
    assert node in all;
    if Trapped(cfg, s, node) {
      var C :| Trap(cfg, s, C) && SenderIn(cfg, s, r, C);
      TellAvoidsTrap(cfg, s, r.packets, b, C);
      assert false;
    }
    var inner := Live(all - {node});
    HandleSolid(cfg, s, node, all);
    if Tell(cfg, s, r.packets, inner).Cut? {
      CutIsTrapped(cfg, s, node);
      assert false;
    }
    assert Tell(cfg, s, r.packets, inner).Done?;
    TellSpares(cfg, s, r.packets, inner, r);
    var wide := Depth(Size(b) + Size(inner));
    TellWider(cfg, s, r.packets, inner, wide);
    TellWider(cfg, s, r.packets, b, wide);
    OnlyOne(Tell(cfg, s, r.packets, inner).st, r);
  }

  /** So there is no undefined behaviour at any depth either. */
  lemma {:induction false} HandleDefined(cfg: Config, s: State, node: nat, b: Bound)
    requires Verified(cfg) && Solid(cfg, s) && DistinctAddresses(s) && Pending(s, node)
    ensures var o := Handle(cfg, s, node, b); !o.Fault? && (o.Done? ==> Solid(cfg, o.st) && DistinctAddresses(o.st))
    decreases Size(b), 0, 0
  {
    hide Ask, GiveUp, ArpRequest, Tell, Lpm, Quotable, DistinctAddresses;
    var r := Req(s, node);
    VerifiedRoutesResolve(cfg.routes, cfg.ifaces, r.ip);
    if Due(r, s.clock) && r.timesSent < MAX_ASKS {
      var ifc := OutIface(cfg, r.ip).value;
      AskSolid(cfg, s, node, ifc.name, ArpRequest(ifc, r.ip));
      AskDistinct(s, node, ifc.name, ArpRequest(ifc, r.ip));
    } else if Due(r, s.clock) && Enter(b, node).Some? {
      var inner := Enter(b, node).value;
      TellDefined(cfg, s, r.packets, inner);
      if Tell(cfg, s, r.packets, inner).Done? {
        ToldIsStillPending(cfg, s, node, inner);
        GiveUpSolid(cfg, Tell(cfg, s, r.packets, inner).st, node);
        GiveUpDistinct(Tell(cfg, s, r.packets, inner).st, node);
      }
    }
  }

  lemma {:induction false} TellDefined(cfg: Config, s: State, packets: seq<Packet>, b: Bound)
    requires Verified(cfg) && Solid(cfg, s) && DistinctAddresses(s) && forall p :: p in packets ==> Quotable(p)
    ensures var o := Tell(cfg, s, packets, b); !o.Fault? && (o.Done? ==> Solid(cfg, o.st) && DistinctAddresses(o.st))
    decreases Size(b), 3, |packets|
  {
    hide TellOne, Quotable, Lpm;
    if packets != [] {
      var s0, p := Consider(s, packets[0]), packets[0];
      TellOneDefined(cfg, s0, p, b);
      if TellOne(cfg, s0, p, b).Done? {
        TellDefined(cfg, TellOne(cfg, s0, p, b).st, packets[1..], b);
      }
    }
  }

  lemma {:induction false} TellOneDefined(cfg: Config, s: State, p: Packet, b: Bound)
    requires Verified(cfg) && Solid(cfg, s) && DistinctAddresses(s) && Quotable(p)
    ensures var o := TellOne(cfg, s, p, b); !o.Fault? && (o.Done? ==> Solid(cfg, o.st) && DistinctAddresses(o.st))
    decreases Size(b), 2, 0
  {
    hide Handle, Lpm, GetIface;
    var h, data := p.frame.payload.h, p.frame.payload.data;
    VerifiedRoutesResolve(cfg.routes, cfg.ifaces, h.src);
    if RouteTo(cfg, h.src).Some? && Lookup(s.entries, h.src).None? {
      var route, ifc := RouteTo(cfg, h.src).value, OutIface(cfg, h.src).value;
      var notice := Packet(ErrorFrame(cfg.stale, ifc, 3, 1, h, data), route.iface);
      EnqueueSolid(cfg, s, h.src, notice);
      EnqueueDistinct(s, h.src, notice);
      EnqueueOverdue(s, h.src, notice);
      HandleDefined(cfg, Enqueue(s, h.src, notice), QueueNode(s, h.src), b);
    }
  }

  /** However deep a trapped request has nested, it nests deeper: it neither returns nor fails. */
  lemma TrappedRecursesForever(cfg: Config, s: State, node: nat, b: Bound)
    requires DistinctAddresses(s) && Verified(cfg) && Solid(cfg, s) && Trapped(cfg, s, node)
    ensures Handle(cfg, s, node, b).Cut?
  {
    hide Handle, DistinctAddresses, Solid, Verified, Trap;
    TrappedNeverReturns(cfg, s, node, b);
    HandleDefined(cfg, s, node, b);
  }

  /**
   * The cascade terminates exactly when the request is not trapped. Everything else the code needs being in
   * place (routes, interfaces, whole packets), there is a nesting depth at which it returns if and only if
   * there is no set of hopeless requests that its packets lead into and that leads back into itself; if there
   * is one, the code nests beyond every depth.
   */
  lemma CascadeTerminatesIff(cfg: Config, s: State, node: nat)
    requires DistinctAddresses(s) && Verified(cfg) && Solid(cfg, s) && Pending(s, node)
    ensures (exists n: nat :: Handle(cfg, s, node, Depth(n)).Done?) <==> !Trapped(cfg, s, node)
    ensures (forall n: nat :: Handle(cfg, s, node, Depth(n)).Cut?) <==> Trapped(cfg, s, node)
  {
    hide Handle, DistinctAddresses, Trapped, Solid, Verified;
    var b := Unbounded(s);
    HandleSolid(cfg, s, node, Nodes(s.requests));
    if Handle(cfg, s, node, b).Cut? {
      CutIsTrapped(cfg, s, node);
    }
    if Trapped(cfg, s, node) {
      forall n: nat ensures Handle(cfg, s, node, Depth(n)).Cut? { TrappedRecursesForever(cfg, s, node, Depth(n)); }
    } else {
      HandleWider(cfg, s, node, b, Depth(Size(b)));
      assert Handle(cfg, s, node, Depth(Size(b))).Done?;
    }
  }

  // ----- ranks

  ghost predicate HopelessAt(s: State, y: nat) {
    Pending(s, y) && Hopeless(Req(s, y), s.clock)
  }

  /** Two hopeless requests such that giving up `y`, with a notice queued behind it, means giving up `z`. */
  ghost predicate Passes(cfg: Config, s: State, y: nat, z: nat) {
    HopelessAt(s, y) && HopelessAt(s, z) && (SenderIn(cfg, s, Req(s, y), {z}) || SelfIn(cfg, s, Req(s, y), {z}))
  }

  /**
   * A rank under which every sender of a packet behind a hopeless request, and the router's own address on
   * the way to that request, is lower if it is the address of a hopeless request itself.
   */
  ghost predicate Ranked(cfg: Config, s: State, rank: nat -> nat) {
    forall y: nat, z: nat :: Passes(cfg, s, y, z) ==> rank(z) < rank(y)
  }

  lemma GoesToMember(cfg: Config, s: State, a: Word32, C: set<nat>) returns (z: nat)
    requires Goes(cfg, s, a, C)
    ensures z in C && Goes(cfg, s, a, {z})
  {
    z :| z in C && Pending(s, z) && Req(s, z).ip == a;
  }

  /** A member of a trap passes on to a member. */
  lemma TrapPasses(cfg: Config, s: State, C: set<nat>, y: nat) returns (z: nat)
    requires Trap(cfg, s, C) && y in C
    ensures z in C && Passes(cfg, s, y, z)
  {
    hide NodeIndex, Goes, OutIface;
    var r := Req(s, y);
    if SenderIn(cfg, s, r, C) {
      var p :| p in r.packets && p.frame.payload.Ip? && Goes(cfg, s, p.frame.payload.h.src, C);
      z := GoesToMember(cfg, s, p.frame.payload.h.src, C);
    } else {
      z := GoesToMember(cfg, s, OutIface(cfg, r.ip).value.ip, C);
    }
  }

  lemma {:induction false} RankedHasNoTrap(cfg: Config, s: State, rank: nat -> nat, C: set<nat>, y: nat)
    requires Ranked(cfg, s, rank) && Trap(cfg, s, C)
    ensures y !in C
    decreases rank(y)
  {
    hide Passes, Trap;
    if y in C {
      var z := TrapPasses(cfg, s, C, y);
      RankedHasNoTrap(cfg, s, rank, C, z);
    }
  }

  /** Numbers for requests, such that whatever a numbered request leads to has a lower one. */
  ghost predicate Numbered(cfg: Config, s: State, m: map<nat, nat>) {
    forall y, z :: y in m && Passes(cfg, s, y, z) ==> z in m && m[z] < m[y]
  }

  /** Without a trap, there is always a request that leads to none of those left, and can be numbered next. */
  lemma {:induction false} NumberAll(cfg: Config, s: State, U: set<nat>, m: map<nat, nat>, k: nat) returns (r: map<nat, nat>)
    requires forall C :: Trap(cfg, s, C) ==> C == {}
    requires Numbered(cfg, s, m) && (forall y :: y in m ==> m[y] < k)
    requires (forall y :: y in U ==> y !in m && HopelessAt(s, y)) && (forall y :: HopelessAt(s, y) ==> y in U || y in m)
    ensures Numbered(cfg, s, r) && forall y :: HopelessAt(s, y) ==> y in r
    decreases |U|
  {
    hide Passes, Trap, HopelessAt;
    if U == {} {
      r := m;
    } else {
      var y := Outermost(cfg, s, U);
      forall z | Passes(cfg, s, y, z) ensures z in m { PassesHopeless(cfg, s, y, z); }
      r := NumberAll(cfg, s, U - {y}, m[y := k], k + 1);
    }
  }

  lemma PassesHopeless(cfg: Config, s: State, y: nat, z: nat)
    requires Passes(cfg, s, y, z)
    ensures HopelessAt(s, y) && HopelessAt(s, z)
  {
  }

  lemma Outermost(cfg: Config, s: State, U: set<nat>) returns (y: nat)
    requires !Trap(cfg, s, U) && forall y :: y in U ==> HopelessAt(s, y)
    ensures y in U && forall z :: z in U ==> !Passes(cfg, s, y, z)
  {
    hide NodeIndex, SenderIn, SelfIn;
    y :| y in U && !SenderIn(cfg, s, Req(s, y), U) && !SelfIn(cfg, s, Req(s, y), U);
    forall z | z in U ensures !Passes(cfg, s, y, z) {
      InWiden(cfg, s, Req(s, y), z, U);
    }
  }

  lemma InWiden(cfg: Config, s: State, r: Request, z: nat, U: set<nat>)
    requires z in U
    ensures SenderIn(cfg, s, r, {z}) ==> SenderIn(cfg, s, r, U)
    ensures SelfIn(cfg, s, r, {z}) ==> SelfIn(cfg, s, r, U)
  {
    hide NodeIndex, Lookup;
    assert forall a :: Goes(cfg, s, a, {z}) ==> Goes(cfg, s, a, U);
  }

  /** There is such a rank if and only if there is no trap. */
  lemma RankExistsIff(cfg: Config, s: State)
    ensures (exists rank: nat -> nat :: Ranked(cfg, s, rank)) <==> (forall C :: Trap(cfg, s, C) ==> C == {})
  {
    hide NodeIndex, SenderIn, SelfIn;
    if exists rank: nat -> nat :: Ranked(cfg, s, rank) {
      var rank: nat -> nat :| Ranked(cfg, s, rank);
      forall C | Trap(cfg, s, C) ensures C == {} {
        forall y | y in C ensures false { RankedHasNoTrap(cfg, s, rank, C, y); }
      }
    }
    if forall C :: Trap(cfg, s, C) ==> C == {} {
      var U := set y | y in Nodes(s.requests) && HopelessAt(s, y);
      forall y | Pending(s, y) ensures y in Nodes(s.requests) { assert Req(s, y) in s.requests; }
      var m := NumberAll(cfg, s, U, map[], 0);
      assert Ranked(cfg, s, (y: nat) => if y in m then m[y] else 0);
    }
  }

  /** Under a rank every cascade terminates. */
  lemma RankedTerminates(cfg: Config, s: State, rank: nat -> nat, node: nat)
    requires DistinctAddresses(s) && Verified(cfg) && Solid(cfg, s) && Pending(s, node) && Ranked(cfg, s, rank)
    ensures exists n: nat :: Handle(cfg, s, node, Depth(n)).Done?
  {
    hide Handle, DistinctAddresses, Solid, Verified, Ranked, Trap;
    if Trapped(cfg, s, node) {
      var C :| Trap(cfg, s, C) && SenderIn(cfg, s, Req(s, node), C);
      var p :| p in Req(s, node).packets && p.frame.payload.Ip? && Goes(cfg, s, p.frame.payload.h.src, C);
      var z :| z in C && Pending(s, z) && Req(s, z).ip == p.frame.payload.h.src;
      RankedHasNoTrap(cfg, s, rank, C, z);
    }
    CascadeTerminatesIff(cfg, s, node);
  }

  /** A packet waiting for its own sender: the code recurses without end once the request is hopeless. */
  lemma OwnSenderTraps(cfg: Config, s: State, node: nat, p: Packet)
    requires Pending(s, node) && Hopeless(Req(s, node), s.clock) && Lookup(s.entries, Req(s, node).ip).None?
    requires RouteTo(cfg, Req(s, node).ip).Some?
    requires p in Req(s, node).packets && p.frame.payload.Ip? && p.frame.payload.h.src == Req(s, node).ip
    ensures Trapped(cfg, s, node)
  {
    var a := p.frame.payload.h.src;
    assert node in {node} && Pending(s, node) && Req(s, node).ip == a;
    assert Goes(cfg, s, a, {node});
    assert SenderIn(cfg, s, Req(s, node), {node});
    assert Trap(cfg, s, {node});
  }
}
