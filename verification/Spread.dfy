/** Exactly what a cascade does to the requests that are hopeless when it starts. */
module Spread {
  import opened Words
  import opened Routing
  import opened Frames
  import opened Forwarding
  import opened Arp
  import opened Router
  import opened Safety
  import opened Accounting
  import opened Cascade
  import opened Sweeping

  ghost predicate Closed(cfg: Config, s: State, G: set<nat>) {
    forall w, z :: w in G && Passes(cfg, s, w, z) ==> z in G
  }

  /** Where handling `y` leads, and wherever that leads. */
  ghost predicate Encloses(cfg: Config, s: State, y: nat, G: set<nat>) {
    (forall z :: Tells(cfg, s, y, z) ==> z in G) && Closed(cfg, s, G)
  }

  /** The requests reachable from `y`: first to a sender, then to a sender or to the router itself. */
  ghost function Reach(cfg: Config, s: State, y: nat): set<nat> {
    set z | z in Nodes(s.requests) && forall G :: Encloses(cfg, s, y, G) ==> z in G
  }

  lemma HopelessIsNode(s: State, z: nat)
    requires Pending(s, z)
    ensures z in Nodes(s.requests)
  {
    assert Req(s, z) in s.requests;
  }

  /** `Reach` is the least set that encloses where `y` leads. */
  lemma ReachEncloses(cfg: Config, s: State, y: nat)
    ensures Encloses(cfg, s, y, Reach(cfg, s, y))
    ensures forall G :: Encloses(cfg, s, y, G) ==> Reach(cfg, s, y) <= G
  {
    hide Tells, NodeIndex, SenderIn, SelfIn;
    var R := Reach(cfg, s, y);
    forall z | Tells(cfg, s, y, z) ensures z in R {
      TellsPending(cfg, s, y, z);
      HopelessIsNode(s, z);
    }
    forall w, z | w in R && Passes(cfg, s, w, z) ensures z in R {
      HopelessIsNode(s, z);
    }
  }

  lemma ReachIsHopeless(cfg: Config, s: State, y: nat)
    ensures forall z :: z in Reach(cfg, s, y) ==> HopelessAt(s, z)
  {
    hide NodeIndex, SenderIn, SelfIn;
    var G := set z | z in Nodes(s.requests) && HopelessAt(s, z);
    forall z | HopelessAt(s, z) ensures z in G { HopelessIsNode(s, z); }
    assert Encloses(cfg, s, y, G);
  }

  // ----- nothing else is touched

  /** Every request stays but hopeless ones in `G`, and hopeless ones outside it stay as they are. */
  ghost predicate Spared(s: State, t: State, G: set<nat>) {
    t.entries == s.entries && t.clock == s.clock && s.nextNode <= t.nextNode &&
    (forall z :: Pending(s, z) && !(z in G && HopelessAt(s, z)) ==> Pending(t, z)) &&
    (forall z :: HopelessAt(s, z) && z !in G ==> Pending(t, z) && Req(t, z) == Req(s, z))
  }

  lemma SparedTransitive(cfg: Config, s: State, t: State, u: State, G: set<nat>)
    requires Spared(s, t, G) && Spared(t, u, G) && Stems(cfg, s, t)
    ensures Spared(s, u, G)
  {
    hide NodeIndex, FromSelf;
  }

  lemma SparedWiden(s: State, t: State, G: set<nat>, H: set<nat>)
    requires Spared(s, t, G) && G <= H
    ensures Spared(s, t, H)
  {
    hide NodeIndex;
  }

  lemma SameSpared(s: State, t: State, G: set<nat>)
    requires t.entries == s.entries && t.clock == s.clock && t.requests == s.requests && t.nextNode == s.nextNode
    ensures Spared(s, t, G)
  {
  }

  lemma EnqueueSpared(s: State, ip: Word32, p: Packet, G: set<nat>)
    requires HopelessAt(s, QueueNode(s, ip)) ==> QueueNode(s, ip) in G
    ensures Spared(s, Enqueue(s, ip, p), G)
  {
    var t, i := Enqueue(s, ip, p), IpIndex(s.requests, ip);
    if i < |s.requests| {
      NodeIndexIs(s.requests, s.nextNode, i);
    }
    forall z | Pending(s, z)
      ensures Pending(t, z) && NodeIndex(t.requests, z) == NodeIndex(s.requests, z)
    {
      var k := NodeIndex(s.requests, z);
      assert t.requests[k].node == z;
      NodeIndexIs(t.requests, t.nextNode, k);
    }
  }

  lemma AskSpared(s: State, node: nat, iface: string, f: Frame, G: set<nat>)
    requires Pending(s, node) && !Hopeless(Req(s, node), s.clock)
    ensures Spared(s, Ask(s, node, iface, f), G)
  {
    var t := Ask(s, node, iface, f);
    forall z | Pending(s, z)
      ensures Pending(t, z) && NodeIndex(t.requests, z) == NodeIndex(s.requests, z)
    {
      var k := NodeIndex(s.requests, z);
      assert t.requests[k].node == z;
      NodeIndexIs(t.requests, t.nextNode, k);
    }
  }

  lemma GiveUpSpared(s: State, node: nat, G: set<nat>)
    requires HopelessAt(s, node) && node in G
    ensures Spared(s, GiveUp(s, node), G)
  {
    hide NodeIndex;
    forall z | Pending(s, z) && z != node
      ensures Pending(GiveUp(s, node), z) && Req(GiveUp(s, node), z) == Req(s, z)
    {
      GiveUpKeepsReq(s, node, z);
    }
  }

  /** Notices to `a` reach no hopeless request outside `G`. */
  ghost predicate Into(cfg: Config, s: State, a: Word32, G: set<nat>) {
    forall z :: HopelessAt(s, z) && Goes(cfg, s, a, {z}) ==> z in G
  }

  lemma IntoStems(cfg: Config, s: State, t: State, a: Word32, G: set<nat>)
    requires Stems(cfg, s, t) && Into(cfg, s, a, G)
    ensures Into(cfg, t, a, G)
  {
    hide NodeIndex, FromSelf, Lookup, Lpm;
    forall z | HopelessAt(t, z) && Goes(cfg, t, a, {z}) ensures z in G {
      assert Goes(cfg, s, a, {z});
    }
  }

  lemma PassesStems(cfg: Config, s: State, t: State, w: nat, z: nat)
    requires Stems(cfg, s, t) && Passes(cfg, t, w, z)
    ensures Passes(cfg, s, w, z)
  {
    hide NodeIndex, Lookup, Lpm, GetIface;
    if SenderIn(cfg, t, Req(t, w), {z}) {
      var p :| p in Req(t, w).packets && p.frame.payload.Ip? && Goes(cfg, t, p.frame.payload.h.src, {z});
      assert Goes(cfg, s, p.frame.payload.h.src, {z});
    } else {
      assert Goes(cfg, s, OutIface(cfg, Req(s, w).ip).value.ip, {z});
    }
  }

  lemma ClosedStems(cfg: Config, s: State, t: State, G: set<nat>)
    requires Stems(cfg, s, t) && Closed(cfg, s, G)
    ensures Closed(cfg, t, G)
  {
    hide Stems, Passes;
    forall w, z | w in G && Passes(cfg, t, w, z) ensures z in G {
      PassesStems(cfg, s, t, w, z);
    }
  }

  lemma {:induction false} HandleSpared(cfg: Config, s: State, node: nat, b: Bound, G: set<nat>)
    requires Handle(cfg, s, node, b).Done? && Encloses(cfg, s, node, G)
    ensures Spared(s, Handle(cfg, s, node, b).st, G + {node})
    decreases Size(b), 0, 0
  {
    hide Ask, GiveUp, ArpRequest, Spared, Tell, Closed, Stems, NodeIndex, Goes;
    var r, H := Req(s, node), G + {node};
    if !Due(r, s.clock) {
      SameSpared(s, s, H);
    } else if r.timesSent < MAX_ASKS {
      var ifc := OutIface(cfg, r.ip).value;
      AskSpared(s, node, ifc.name, ArpRequest(ifc, r.ip), H);
    } else {
      var inner := Enter(b, node).value;
      var s1 := Tell(cfg, s, r.packets, inner).st;
      forall p | p in r.packets && p.frame.payload.Ip? ensures Into(cfg, s, p.frame.payload.h.src, G) {
        TellsInto(cfg, s, node, p, G);
      }
      TellSpared(cfg, s, r.packets, inner, G);
      SparedWiden(s, s1, G, H);
      TellStems(cfg, s, r.packets, inner);
      TellPersists(cfg, s, r.packets, inner);
      GiveUpSpared(s1, node, H);
      SparedTransitive(cfg, s, s1, GiveUp(s1, node), H);
    }
  }

  lemma TellsInto(cfg: Config, s: State, node: nat, p: Packet, G: set<nat>)
    requires HopelessAt(s, node) && p in Req(s, node).packets && p.frame.payload.Ip?
    requires forall z :: Tells(cfg, s, node, z) ==> z in G
    ensures Into(cfg, s, p.frame.payload.h.src, G)
  {
    hide NodeIndex, Goes;
    forall z | HopelessAt(s, z) && Goes(cfg, s, p.frame.payload.h.src, {z}) ensures z in G {
      assert Tells(cfg, s, node, z);
    }
  }

  lemma {:induction false} TellSpared(cfg: Config, s: State, packets: seq<Packet>, b: Bound, G: set<nat>)
    requires Tell(cfg, s, packets, b).Done? && Closed(cfg, s, G)
    requires forall p :: p in packets && p.frame.payload.Ip? ==> Into(cfg, s, p.frame.payload.h.src, G)
    ensures Spared(s, Tell(cfg, s, packets, b).st, G)
    decreases Size(b), 3, |packets|
  {
    hide TellOne, Spared, Closed, Stems, Into;
    if packets == [] {
      SameSpared(s, s, G);
    } else {
      var s0, p := Consider(s, packets[0]), packets[0];
      var s1 := TellOne(cfg, s0, p, b).st;
      SameSpared(s, s0, G);
      SameRequestsStem(cfg, s, s0);
      ClosedStems(cfg, s, s0, G);
      if p.frame.payload.Ip? {
        IntoStems(cfg, s, s0, p.frame.payload.h.src, G);
      }
      TellOneSpared(cfg, s0, p, b, G);
      TellOneStems(cfg, s0, p, b);
      SparedTransitive(cfg, s, s0, s1, G);
      StemsTransitive(cfg, s, s0, s1);
      ClosedStems(cfg, s, s1, G);
      forall q | q in packets[1..] && q.frame.payload.Ip? ensures Into(cfg, s1, q.frame.payload.h.src, G) {
        IntoStems(cfg, s, s1, q.frame.payload.h.src, G);
      }
      TellSpared(cfg, s1, packets[1..], b, G);
      SparedTransitive(cfg, s, s1, Tell(cfg, s, packets, b).st, G);
    }
  }

  lemma {:induction false} TellOneSpared(cfg: Config, s: State, p: Packet, b: Bound, G: set<nat>)
    requires TellOne(cfg, s, p, b).Done? && Closed(cfg, s, G)
    requires p.frame.payload.Ip? ==> Into(cfg, s, p.frame.payload.h.src, G)
    ensures Spared(s, TellOne(cfg, s, p, b).st, G)
    decreases Size(b), 2, 0
  {
    hide Spared, ErrorBody, Handle, Enqueue, NodeIndex, Closed, Stems, Into, Encloses;
    var h, data := p.frame.payload.h, p.frame.payload.data;
    if RouteTo(cfg, h.src).Some? && Lookup(s.entries, h.src).None? {
      var route, ifc := RouteTo(cfg, h.src).value, OutIface(cfg, h.src).value;
      var notice := Packet(ErrorFrame(cfg.stale, ifc, 3, 1, h, data), route.iface);
      var s1, n := Enqueue(s, h.src, notice), QueueNode(s, h.src);
      EnqueueStems(cfg, s, h.src, notice);
      QueuedEncloses(cfg, s, h.src, notice, G);
      EnqueueSpared(s, h.src, notice, G);
      if HopelessAt(s1, n) {
        HandleSpared(cfg, s1, n, b, G);
        assert G + {n} == G;
      } else {
        EnqueueOverdue(s, h.src, notice);
        HandleGentle(cfg, s1, n, b);
        GentleSpares(s1, Handle(cfg, s1, n, b).st, G);
      }
      SparedTransitive(cfg, s, s1, Handle(cfg, s1, n, b).st, G);
    } else {
      SameSpared(s, TellOne(cfg, s, p, b).st, G);
    }
  }

  lemma GentleSpares(s: State, t: State, G: set<nat>)
    requires Gentle(s, t)
    ensures Spared(s, t, G)
  {
    hide NodeIndex;
    forall z | Pending(s, z) ensures Pending(t, z) && (HopelessAt(s, z) ==> Req(t, z) == Req(s, z)) {
      PendingBound(s, z);
      if HopelessAt(s, z) {
        assert Req(s, z) in t.requests;
        OnlyOne(t, Req(s, z));
      }
    }
  }

  /** A hopeless request with a notice behind it is in `G`, and leads to what is in `G`. */
  lemma QueuedEncloses(cfg: Config, s: State, ip: Word32, p: Packet, G: set<nat>)
    requires FromSelf(cfg, ip, p) && Closed(cfg, s, G) && Into(cfg, s, ip, G)
    requires RouteTo(cfg, ip).Some? && Lookup(s.entries, ip).None?
    ensures HopelessAt(s, QueueNode(s, ip)) ==> QueueNode(s, ip) in G
    ensures var t, n := Enqueue(s, ip, p), QueueNode(s, ip);
      HopelessAt(t, n) ==> n in G && Encloses(cfg, t, n, G)
  {
    hide Enqueue, NodeIndex, Lookup, Lpm, FromSelf, Closed, Stems, SenderIn;
    var t, n := Enqueue(s, ip, p), QueueNode(s, ip);
    EnqueueStems(cfg, s, ip, p);
    QueueNodeIp(s, ip);
    if HopelessAt(t, n) || HopelessAt(s, n) {
      if HopelessAt(t, n) {
        StemsAt(cfg, s, t, n);
      }
      assert Goes(cfg, s, ip, {n});
      assert n in G;
      ClosedStems(cfg, s, t, G);
      forall z | Tells(cfg, t, n, z) ensures z in G {
        assert Passes(cfg, t, n, z);
        ClosedAt(cfg, t, G, n, z);
      }
    }
  }

  lemma ClosedAt(cfg: Config, s: State, G: set<nat>, w: nat, z: nat)
    requires Closed(cfg, s, G) && w in G && Passes(cfg, s, w, z)
    ensures z in G
  {
  }

  // ----- everything reachable is given up

  /** What passes on still does, as long as both requests are there. */
  lemma PassesStays(cfg: Config, s: State, t: State, w: nat, z: nat)
    requires Persists(s, t) && Passes(cfg, s, w, z) && Pending(t, w) && Pending(t, z)
    ensures Passes(cfg, t, w, z)
  {
    hide NodeIndex, Lookup, Lpm, GetIface;
    assert Kept(Req(s, w), Req(t, w)) && Kept(Req(s, z), Req(t, z));
    if SenderIn(cfg, s, Req(s, w), {z}) {
      var p :| p in Req(s, w).packets && p.frame.payload.Ip? && Goes(cfg, s, p.frame.payload.h.src, {z});
      assert p in Req(t, w).packets && Goes(cfg, t, p.frame.payload.h.src, {z});
    } else {
      assert Goes(cfg, t, OutIface(cfg, Req(t, w).ip).value.ip, {z});
    }
  }

  /** Between `s` and `t`, with every request given up those it passes on to were given up too. */
  ghost predicate Complies(cfg: Config, s: State, t: State) {
    forall w, z :: Passes(cfg, s, w, z) && !Pending(t, w) ==> !Pending(t, z)
  }

  lemma PersistsGone(s: State, t: State, z: nat)
    requires Persists(s, t) && z < s.nextNode && !Pending(s, z)
    ensures !Pending(t, z)
  {
  }

  lemma PassesBounds(cfg: Config, s: State, w: nat, z: nat)
    requires Passes(cfg, s, w, z)
    ensures Pending(s, w) && Pending(s, z) && w < s.nextNode && z < s.nextNode
  {
  }

  lemma CompliesTransitive(cfg: Config, s: State, t: State, u: State)
    requires Complies(cfg, s, t) && Complies(cfg, t, u) && Persists(s, t) && Persists(t, u)
    ensures Complies(cfg, s, u)
  {
    hide Passes, Persists, NodeIndex;
    assert s.nextNode <= t.nextNode by { PersistsNext(s, t); }
    forall w, z | Passes(cfg, s, w, z) && !Pending(u, w) ensures !Pending(u, z) {
      PassesBounds(cfg, s, w, z);
      if !Pending(t, z) {
        PersistsGone(t, u, z);
      } else if Pending(t, w) {
        PassesStays(cfg, s, t, w, z);
      }
    }
  }

  lemma PersistsNext(s: State, t: State)
    requires Persists(s, t)
    ensures s.nextNode <= t.nextNode
  {
  }

  lemma SameComplies(cfg: Config, s: State, t: State)
    requires t.requests == s.requests
    ensures Complies(cfg, s, t)
  {
    hide SenderIn, SelfIn;
  }

  lemma StayComplies(cfg: Config, s: State, t: State)
    requires forall y :: Pending(s, y) ==> Pending(t, y)
    ensures Complies(cfg, s, t)
  {
    hide SenderIn, SelfIn, NodeIndex;
  }

  /** The router's own address, if it leads anywhere, leads there by way of a packet already. */
  ghost predicate Sprung(cfg: Config, s: State, node: nat) {
    forall z :: Passes(cfg, s, node, z) ==> Tells(cfg, s, node, z)
  }

  lemma {:induction false} HandleComplies(cfg: Config, s: State, node: nat, b: Bound)
    requires Handle(cfg, s, node, b).Done? && DistinctAddresses(s) && Sprung(cfg, s, node)
    ensures Complies(cfg, s, Handle(cfg, s, node, b).st)
    decreases Size(b), 0, 0
  {
    hide Ask, GiveUp, ArpRequest, Complies, Tell, NodeIndex, Persists, DistinctAddresses, Passes, Tells;
    var r := Req(s, node);
    if !Due(r, s.clock) {
      SameComplies(cfg, s, s);
    } else if r.timesSent < MAX_ASKS {
      var ifc := OutIface(cfg, r.ip).value;
      AskSpared(s, node, ifc.name, ArpRequest(ifc, r.ip), {});
      StayComplies(cfg, s, Ask(s, node, ifc.name, ArpRequest(ifc, r.ip)));
    } else {
      var inner := Enter(b, node).value;
      var s1 := Tell(cfg, s, r.packets, inner).st;
      TellComplies(cfg, s, r.packets, inner);
      TellPersists(cfg, s, r.packets, inner);
      GiveUpComplies(cfg, s, s1, node, b);
    }
  }

  lemma GiveUpComplies(cfg: Config, s: State, s1: State, node: nat, b: Bound)
    requires Handle(cfg, s, node, b).Done? && DistinctAddresses(s) && Sprung(cfg, s, node)
    requires Complies(cfg, s, s1) && Persists(s, s1) && Pending(s1, node) && Handle(cfg, s, node, b).st == GiveUp(s1, node)
    ensures Complies(cfg, s, GiveUp(s1, node))
  {
    hide GiveUp, NodeIndex, Persists, Passes, Tells, Handle, DistinctAddresses;
    var t := GiveUp(s1, node);
    GiveUpPersists(s1, node);
    PersistsNext(s, s1);
    forall w, z | Passes(cfg, s, w, z) && !Pending(t, w) ensures !Pending(t, z) {
      PassesBounds(cfg, s, w, z);
      if w == node {
        HandleGivesUp(cfg, s, node, b, z);
      } else if Pending(s1, w) {
        GiveUpKeepsReq(s1, node, w);
      } else {
        PersistsGone(s1, t, z);
      }
    }
  }

  lemma {:induction false} TellComplies(cfg: Config, s: State, packets: seq<Packet>, b: Bound)
    requires Tell(cfg, s, packets, b).Done? && DistinctAddresses(s)
    ensures Complies(cfg, s, Tell(cfg, s, packets, b).st)
    decreases Size(b), 3, |packets|
  {
    hide TellOne, Complies, Persists;
    if packets == [] {
      SameComplies(cfg, s, s);
    } else {
      var s0, p := Consider(s, packets[0]), packets[0];
      var s1 := TellOne(cfg, s0, p, b).st;
      SameComplies(cfg, s, s0);
      SamePersists(s, s0);
      TellOneComplies(cfg, s0, p, b);
      TellOnePersists(cfg, s0, p, b);
      CompliesTransitive(cfg, s, s0, s1);
      PersistsTransitive(s, s0, s1);
      TellOneDistinct(cfg, s0, p, b);
      TellComplies(cfg, s1, packets[1..], b);
      TellPersists(cfg, s1, packets[1..], b);
      CompliesTransitive(cfg, s, s1, Tell(cfg, s, packets, b).st);
    }
  }

  lemma {:induction false} TellOneComplies(cfg: Config, s: State, p: Packet, b: Bound)
    requires TellOne(cfg, s, p, b).Done? && DistinctAddresses(s)
    ensures Complies(cfg, s, TellOne(cfg, s, p, b).st)
    decreases Size(b), 2, 0
  {
    hide Complies, ErrorBody, Handle, Enqueue, NodeIndex, Persists, DistinctAddresses;
    var h, data := p.frame.payload.h, p.frame.payload.data;
    if RouteTo(cfg, h.src).Some? && Lookup(s.entries, h.src).None? {
      var route, ifc := RouteTo(cfg, h.src).value, OutIface(cfg, h.src).value;
      var notice := Packet(ErrorFrame(cfg.stale, ifc, 3, 1, h, data), route.iface);
      var s1, n := Enqueue(s, h.src, notice), QueueNode(s, h.src);
      EnqueueDistinct(s, h.src, notice);
      EnqueuePersists(s, h.src, notice);
      EnqueueComplies(cfg, s, h.src, notice);
      QueuedIsSprung(cfg, s, h.src, notice);
      HandleComplies(cfg, s1, n, b);
      HandlePersists(cfg, s1, n, b);
      CompliesTransitive(cfg, s, s1, Handle(cfg, s1, n, b).st);
    } else {
      SameComplies(cfg, s, TellOne(cfg, s, p, b).st);
    }
  }

  lemma EnqueueComplies(cfg: Config, s: State, ip: Word32, p: Packet)
    ensures Complies(cfg, s, Enqueue(s, ip, p))
  {
    hide Passes, Enqueue, NodeIndex;
    EnqueueStays(s, ip, p);
    StayComplies(cfg, s, Enqueue(s, ip, p));
  }

  lemma EnqueueStays(s: State, ip: Word32, p: Packet)
    ensures forall y :: Pending(s, y) ==> Pending(Enqueue(s, ip, p), y)
  {
    EnqueueRetains(s, ip, p, Nodes(s.requests));
    forall y | Pending(s, y) ensures Pending(Enqueue(s, ip, p), y) {
      HopelessIsNode(s, y);
    }
  }

  /** The notice is a packet from the router itself. */
  lemma QueuedIsSprung(cfg: Config, s: State, ip: Word32, p: Packet)
    requires FromSelf(cfg, ip, p)
    ensures Sprung(cfg, Enqueue(s, ip, p), QueueNode(s, ip))
  {
    hide Goes;
    var t, n, i := Enqueue(s, ip, p), QueueNode(s, ip), IpIndex(s.requests, ip);
    NodeIndexIs(t.requests, t.nextNode, i);
    var r := Req(t, n);
    assert r.ip == ip && p in r.packets;
    forall z | Passes(cfg, t, n, z) ensures Tells(cfg, t, n, z) {
    }
  }

  // ----- the theorem

  /** What handling the hopeless request `y` gives up. */
  ghost function Falls(cfg: Config, s: State, y: nat): set<nat> {
    {y} + Reach(cfg, s, y)
  }

  /**
   * The exact effect of a cascade that ends: of the requests that were hopeless at its start, it gives up the one
   * handled and those reachable from it, and leaves the others exactly as they were; no other request goes.
   */
  lemma CascadeRemovesReach(cfg: Config, s: State, y: nat)
    requires HopelessAt(s, y) && DistinctAddresses(s) && Handle(cfg, s, y, Unbounded(s)).Done?
    ensures var t := Handle(cfg, s, y, Unbounded(s)).st;
      (forall z :: HopelessAt(s, z) ==> (Pending(t, z) <==> z !in Falls(cfg, s, y)) && (Pending(t, z) ==> Req(t, z) == Req(s, z))) &&
      (forall z :: Pending(s, z) && !HopelessAt(s, z) ==> Pending(t, z))
    ensures y !in Reach(cfg, s, y)
  {
    hide NodeIndex, Handle, Tell, GiveUp, Reach, Passes, Tells, DistinctAddresses;
    var b, r, R := Unbounded(s), Req(s, y), Reach(cfg, s, y);
    var t := Handle(cfg, s, y, b).st;
    ReachEncloses(cfg, s, y);
    HandleSpared(cfg, s, y, b, R);
    HandlePersists(cfg, s, y, b);
    var W := GivenUpEncloses(cfg, s, y);
  }

  /** What is given up on the way, short of `y` itself, is closed. */
  lemma GivenUpEncloses(cfg: Config, s: State, y: nat) returns (W: set<nat>)
    requires HopelessAt(s, y) && DistinctAddresses(s) && Handle(cfg, s, y, Unbounded(s)).Done?
    ensures Encloses(cfg, s, y, W) && y !in W && forall z :: z in W ==> !Pending(Handle(cfg, s, y, Unbounded(s)).st, z)
  {
    hide NodeIndex, Tell, GiveUp, Passes, Tells, DistinctAddresses, Persists;
    var b, r := Unbounded(s), Req(s, y);
    var inner := Enter(b, y).value;
    var s1 := Tell(cfg, s, r.packets, inner).st;
    TellComplies(cfg, s, r.packets, inner);
    TellPersists(cfg, s, r.packets, inner);
    TellSpares(cfg, s, r.packets, inner, r);
    OnlyOne(s1, r);
    GiveUpPersists(s1, y);
    W := set z | z in Nodes(s.requests) && !Pending(s1, z);
    forall z | Tells(cfg, s, y, z) ensures z in W {
      TellsPending(cfg, s, y, z);
      HopelessIsNode(s, z);
      FirstTellsSecond(cfg, s, y, z);
      if Pending(s1, z) {
        GiveUpKeepsReq(s1, y, z);
      }
    }
    forall w, z | w in W && Passes(cfg, s, w, z) ensures z in W {
      PassesBounds(cfg, s, w, z);
      HopelessIsNode(s, z);
    }
    PersistsNext(s, s1);
    forall z | z in W ensures !Pending(GiveUp(s1, y), z) {
      var q :| q in s.requests && q.node == z;
      PersistsGone(s1, GiveUp(s1, y), z);
    }
  }

  // ----- when there is one

  /** Every pending address has a route. */
  ghost predicate Routed(cfg: Config, s: State) {
    forall i :: 0 <= i < |s.requests| ==> RouteTo(cfg, s.requests[i].ip).Some?
  }

  lemma EnqueueRouted(cfg: Config, s: State, ip: Word32, p: Packet)
    requires Routed(cfg, s) && RouteTo(cfg, ip).Some?
    ensures Routed(cfg, Enqueue(s, ip, p))
  {
    hide Lpm;
  }

  lemma AskRouted(cfg: Config, s: State, node: nat, iface: string, f: Frame)
    requires Routed(cfg, s) && Pending(s, node)
    ensures Routed(cfg, Ask(s, node, iface, f))
  {
    hide Lpm;
  }

  lemma GiveUpRouted(cfg: Config, s: State, node: nat)
    requires Routed(cfg, s) && Pending(s, node)
    ensures Routed(cfg, GiveUp(s, node))
  {
    hide Lpm;
  }

  /** The packets behind the hopeless requests in `G` hold what a notice quotes. */
  ghost predicate Legible(s: State, G: set<nat>) {
    forall z, p :: z in G && HopelessAt(s, z) && p in Req(s, z).packets ==> Quotable(p)
  }

  lemma LegibleStems(cfg: Config, s: State, t: State, G: set<nat>)
    requires Stems(cfg, s, t) && Legible(s, G)
    ensures Legible(t, G)
  {
    hide NodeIndex, Quotable;
    forall z, p | z in G && HopelessAt(t, z) && p in Req(t, z).packets ensures Quotable(p) {
      assert HopelessAt(s, z);
      assert p in Req(s, z).packets || FromSelf(cfg, Req(s, z).ip, p);
    }
  }

  /** With nothing illegible ahead, a cascade does not run into undefined behaviour. */
  lemma {:induction false} HandleReads(cfg: Config, s: State, node: nat, nodes: set<nat>, G: set<nat>)
    requires Verified(cfg) && Routed(cfg, s) && Pending(s, node) && Legible(s, G)
    requires HopelessAt(s, node) ==> Encloses(cfg, s, node, G) && Legible(s, {node})
    ensures var o := Handle(cfg, s, node, Live(nodes)); !o.Fault? && (o.Done? ==> Routed(cfg, o.st))
    decreases |nodes|, 0, 0
  {
    hide Ask, GiveUp, ArpRequest, Tell, Lpm, Quotable, Legible, Closed, Into, Tells;
    var r := Req(s, node);
    VerifiedRoutesResolve(cfg.routes, cfg.ifaces, r.ip);
    if Due(r, s.clock) && r.timesSent < MAX_ASKS {
      var ifc := OutIface(cfg, r.ip).value;
      AskRouted(cfg, s, node, ifc.name, ArpRequest(ifc, r.ip));
    } else if Due(r, s.clock) && node in nodes {
      var inner := Live(nodes - {node});
      forall p | p in r.packets ensures Quotable(p) && p.frame.payload.Ip? && Into(cfg, s, p.frame.payload.h.src, G) {
        LegibleAt(s, {node}, node, p);
        TellsInto(cfg, s, node, p, G);
      }
      TellReads(cfg, s, r.packets, nodes - {node}, G);
      if Tell(cfg, s, r.packets, inner).Done? {
        TellSpares(cfg, s, r.packets, inner, r);
        OnlyOne(Tell(cfg, s, r.packets, inner).st, r);
        GiveUpRouted(cfg, Tell(cfg, s, r.packets, inner).st, node);
      }
    }
  }

  lemma LegibleAt(s: State, G: set<nat>, z: nat, p: Packet)
    requires Legible(s, G) && z in G && HopelessAt(s, z) && p in Req(s, z).packets
    ensures Quotable(p) && p.frame.payload.Ip?
  {
    assert Quotable(p);
  }

  lemma {:induction false} TellReads(cfg: Config, s: State, packets: seq<Packet>, nodes: set<nat>, G: set<nat>)
    requires Verified(cfg) && Routed(cfg, s) && Legible(s, G) && Closed(cfg, s, G)
    requires forall p :: p in packets ==> Quotable(p) && Into(cfg, s, p.frame.payload.h.src, G)
    ensures var o := Tell(cfg, s, packets, Live(nodes)); !o.Fault? && (o.Done? ==> Routed(cfg, o.st))
    decreases |nodes|, 3, |packets|
  {
    hide TellOne, Legible, Closed, Into, Stems, Lpm, Verified;
    if packets != [] {
      var s0, p := Consider(s, packets[0]), packets[0];
      SameRequestsStem(cfg, s, s0);
      LegibleStems(cfg, s, s0, G);
      ClosedStems(cfg, s, s0, G);
      IntoStems(cfg, s, s0, p.frame.payload.h.src, G);
      TellOneReads(cfg, s0, p, nodes, G);
      if TellOne(cfg, s0, p, Live(nodes)).Done? {
        var s1 := TellOne(cfg, s0, p, Live(nodes)).st;
        TellOneStems(cfg, s0, p, Live(nodes));
        StemsTransitive(cfg, s, s0, s1);
        LegibleStems(cfg, s, s1, G);
        ClosedStems(cfg, s, s1, G);
        forall q | q in packets[1..] ensures Quotable(q) && Into(cfg, s1, q.frame.payload.h.src, G) {
          IntoStems(cfg, s, s1, q.frame.payload.h.src, G);
        }
        TellReads(cfg, s1, packets[1..], nodes, G);
      }
    }
  }

  lemma {:induction false} TellOneReads(cfg: Config, s: State, p: Packet, nodes: set<nat>, G: set<nat>)
    requires Verified(cfg) && Routed(cfg, s) && Legible(s, G) && Closed(cfg, s, G)
    requires Quotable(p) && Into(cfg, s, p.frame.payload.h.src, G)
    ensures var o := TellOne(cfg, s, p, Live(nodes)); !o.Fault? && (o.Done? ==> Routed(cfg, o.st))
    decreases |nodes|, 2, 0
  {
    hide Handle, Enqueue, Lpm, GetIface, Closed, Into, Legible, Stems, ErrorBody, Encloses, NodeIndex, Routed;
    var h, data := p.frame.payload.h, p.frame.payload.data;
    VerifiedRoutesResolve(cfg.routes, cfg.ifaces, h.src);
    if RouteTo(cfg, h.src).Some? && Lookup(s.entries, h.src).None? {
      var route, ifc := RouteTo(cfg, h.src).value, OutIface(cfg, h.src).value;
      var notice := Packet(ErrorFrame(cfg.stale, ifc, 3, 1, h, data), route.iface);
      var s1, n := Enqueue(s, h.src, notice), QueueNode(s, h.src);
      EnqueueRouted(cfg, s, h.src, notice);
      EnqueueOverdue(s, h.src, notice);
      EnqueueStems(cfg, s, h.src, notice);
      LegibleStems(cfg, s, s1, G);
      QueuedEncloses(cfg, s, h.src, notice, G);
      if HopelessAt(s1, n) {
        LegibleNarrow(s1, G, {n});
      }
      HandleReads(cfg, s1, n, nodes, G);
    } else if RouteTo(cfg, h.src).Some? {
      var route, ifc := RouteTo(cfg, h.src).value, OutIface(cfg, h.src).value;
      var frame := ErrorFrame(cfg.stale, ifc, 3, 1, h, data);
      assert TellOne(cfg, s, p, Live(nodes)) == Resolve(cfg, s, h.src, frame, route.iface, Live(nodes));
      RoutedElsewhere(cfg, s, TellOne(cfg, s, p, Live(nodes)).st);
    }
  }

  lemma LegibleNarrow(s: State, G: set<nat>, H: set<nat>)
    requires Legible(s, G) && H <= G
    ensures Legible(s, H)
  {
    hide Quotable;
  }

  lemma RoutedElsewhere(cfg: Config, s: State, t: State)
    requires Routed(cfg, s) && t.requests == s.requests
    ensures Routed(cfg, t)
  {
    hide Lpm;
  }

  /** Between `s` and `t`, every packet dropped was legible. */
  ghost predicate Read(s: State, t: State) {
    forall z, p :: HopelessAt(s, z) && !Pending(t, z) && p in Req(s, z).packets ==> Quotable(p)
  }

  lemma ReadTransitive(s: State, t: State, u: State)
    requires Read(s, t) && Read(t, u) && Persists(s, t)
    ensures Read(s, u)
  {
    hide NodeIndex, Quotable;
    forall z, p | HopelessAt(s, z) && !Pending(u, z) && p in Req(s, z).packets ensures Quotable(p) {
      if Pending(t, z) {
        assert Kept(Req(s, z), Req(t, z));
        assert HopelessAt(t, z) && p in Req(t, z).packets;
      }
    }
  }

  lemma StayRead(s: State, t: State)
    requires forall y :: Pending(s, y) ==> Pending(t, y)
    ensures Read(s, t)
  {
    hide NodeIndex;
  }

  lemma GiveUpRead(s: State, node: nat)
    requires Pending(s, node) && forall p :: p in Req(s, node).packets ==> Quotable(p)
    ensures Read(s, GiveUp(s, node))
  {
    hide NodeIndex, Quotable, GiveUp;
    forall z | Pending(s, z) && z != node ensures Pending(GiveUp(s, node), z) {
      GiveUpKeepsReq(s, node, z);
    }
  }

  lemma {:induction false} HandleHasRead(cfg: Config, s: State, node: nat, nodes: set<nat>)
    requires Handle(cfg, s, node, Live(nodes)).Done?
    ensures Read(s, Handle(cfg, s, node, Live(nodes)).st)
    decreases |nodes|, 0, 0
  {
    hide Ask, GiveUp, ArpRequest, Tell, NodeIndex, Persists, Read, Quotable;
    var r := Req(s, node);
    if !Due(r, s.clock) {
      StayRead(s, s);
    } else if r.timesSent < MAX_ASKS {
      var ifc := OutIface(cfg, r.ip).value;
      AskSpared(s, node, ifc.name, ArpRequest(ifc, r.ip), {});
      StayRead(s, Ask(s, node, ifc.name, ArpRequest(ifc, r.ip)));
    } else {
      var inner := nodes - {node};
      var s1 := Tell(cfg, s, r.packets, Live(inner)).st;
      TellHasRead(cfg, s, r.packets, inner);
      TellPersists(cfg, s, r.packets, Live(inner));
      TellSpares(cfg, s, r.packets, Live(inner), r);
      OnlyOne(s1, r);
      GiveUpRead(s1, node);
      ReadTransitive(s, s1, GiveUp(s1, node));
    }
  }

  lemma {:induction false} TellHasRead(cfg: Config, s: State, packets: seq<Packet>, nodes: set<nat>)
    requires Tell(cfg, s, packets, Live(nodes)).Done?
    ensures Read(s, Tell(cfg, s, packets, Live(nodes)).st) && forall p :: p in packets ==> Quotable(p)
    decreases |nodes|, 3, |packets|
  {
    hide TellOne, Read, Persists, Quotable;
    if packets == [] {
      StayRead(s, s);
    } else {
      var s0, p, b := Consider(s, packets[0]), packets[0], Live(nodes);
      var s1 := TellOne(cfg, s0, p, b).st;
      SamePersists(s, s0);
      StayRead(s, s0);
      TellOneHasRead(cfg, s0, p, nodes);
      TellOnePersists(cfg, s0, p, b);
      ReadTransitive(s, s0, s1);
      PersistsTransitive(s, s0, s1);
      TellHasRead(cfg, s1, packets[1..], nodes);
      ReadTransitive(s, s1, Tell(cfg, s, packets, b).st);
    }
  }

  lemma {:induction false} TellOneHasRead(cfg: Config, s: State, p: Packet, nodes: set<nat>)
    requires TellOne(cfg, s, p, Live(nodes)).Done?
    ensures Read(s, TellOne(cfg, s, p, Live(nodes)).st) && Quotable(p)
    decreases |nodes|, 2, 0
  {
    hide Read, ErrorBody, Handle, Enqueue, NodeIndex, Persists;
    var h, data, b := p.frame.payload.h, p.frame.payload.data, Live(nodes);
    if RouteTo(cfg, h.src).Some? && Lookup(s.entries, h.src).None? {
      var route, ifc := RouteTo(cfg, h.src).value, OutIface(cfg, h.src).value;
      var notice := Packet(ErrorFrame(cfg.stale, ifc, 3, 1, h, data), route.iface);
      var s1, n := Enqueue(s, h.src, notice), QueueNode(s, h.src);
      EnqueuePersists(s, h.src, notice);
      EnqueueStays(s, h.src, notice);
      StayRead(s, s1);
      HandleHasRead(cfg, s1, n, nodes);
      ReadTransitive(s, s1, Handle(cfg, s1, n, b).st);
    } else {
      StayRead(s, TellOne(cfg, s, p, b).st);
    }
  }

  /**
   * When a cascade ends: with routes and interfaces in place, handling a hopeless request returns if and only if
   * the request is not trapped and every packet behind it and behind what is reachable from it holds the eight
   * bytes that a notice quotes.
   */
  lemma CascadeEndsIff(cfg: Config, s: State, y: nat)
    requires HopelessAt(s, y) && DistinctAddresses(s) && Verified(cfg) && Routed(cfg, s)
    ensures var o := Handle(cfg, s, y, Unbounded(s));
      (o.Done? <==> !Trapped(cfg, s, y) && Legible(s, Falls(cfg, s, y))) && (o.Done? ==> Routed(cfg, o.st))
  {
    hide Handle, DistinctAddresses, Verified, Trapped, Legible, Reach, Encloses, Tells, NodeIndex;
    var o, F := Handle(cfg, s, y, Unbounded(s)), Falls(cfg, s, y);
    if o.Done? {
      if Trapped(cfg, s, y) {
        TrappedNeverReturns(cfg, s, y, Unbounded(s));
      }
      HandleHasRead(cfg, s, y, Nodes(s.requests));
      CascadeRemovesReach(cfg, s, y);
      GoneIsLegible(s, o.st, F);
    }
    if Legible(s, F) {
      ReachEncloses(cfg, s, y);
      LegibleNarrow(s, F, Reach(cfg, s, y));
      LegibleNarrow(s, F, {y});
      HandleReads(cfg, s, y, Nodes(s.requests), Reach(cfg, s, y));
      if o.Cut? {
        CutIsTrapped(cfg, s, y);
      }
    }
  }

  lemma GoneIsLegible(s: State, t: State, F: set<nat>)
    requires Read(s, t) && forall z :: HopelessAt(s, z) && z in F ==> !Pending(t, z)
    ensures Legible(s, F)
  {
    hide Quotable;
  }

  // ----- a request is never freed while it is handled

  lemma {:induction false} HandleKeepsNode(cfg: Config, s: State, node: nat, nodes: set<nat>)
    requires Pending(s, node)
    ensures var o := Handle(cfg, s, node, Live(nodes)); o.Fault? ==> o.why != FreedRequest
    decreases |nodes|, 0, 0
  {
    hide Ask, GiveUp, ArpRequest, Tell, Lpm, GetIface;
    var r := Req(s, node);
    if Hopeless(r, s.clock) && node in nodes {
      var inner := Live(nodes - {node});
      TellKeepsNodes(cfg, s, r.packets, nodes - {node});
      if Tell(cfg, s, r.packets, inner).Done? {
        TellSpares(cfg, s, r.packets, inner, r);
        OnlyOne(Tell(cfg, s, r.packets, inner).st, r);
      }
    }
  }

  lemma {:induction false} TellKeepsNodes(cfg: Config, s: State, packets: seq<Packet>, nodes: set<nat>)
    ensures var o := Tell(cfg, s, packets, Live(nodes)); o.Fault? ==> o.why != FreedRequest
    decreases |nodes|, 3, |packets|
  {
    hide TellOne;
    if packets != [] {
      var s0, p := Consider(s, packets[0]), packets[0];
      TellOneKeepsNodes(cfg, s0, p, nodes);
      if TellOne(cfg, s0, p, Live(nodes)).Done? {
        TellKeepsNodes(cfg, TellOne(cfg, s0, p, Live(nodes)).st, packets[1..], nodes);
      }
    }
  }

  lemma {:induction false} TellOneKeepsNodes(cfg: Config, s: State, p: Packet, nodes: set<nat>)
    ensures var o := TellOne(cfg, s, p, Live(nodes)); o.Fault? ==> o.why != FreedRequest
    decreases |nodes|, 2, 0
  {
    hide Handle, Enqueue, Lpm, GetIface, ErrorBody;
    if p.frame.payload.Ip? && |p.frame.payload.data| >= 8 {
      var h := p.frame.payload.h;
      if OutIface(cfg, h.src).Some? && Lookup(s.entries, h.src).None? {
        var route := RouteTo(cfg, h.src).value;
        var notice := Packet(ErrorFrame(cfg.stale, OutIface(cfg, h.src).value, 3, 1, h, p.frame.payload.data), route.iface);
        EnqueueOverdue(s, h.src, notice);
        HandleKeepsNode(cfg, Enqueue(s, h.src, notice), QueueNode(s, h.src), nodes);
      }
    }
  }
}
