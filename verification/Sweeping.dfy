/** The walk of `sr_arpcache_sweepreqs` over a list that its own steps change. */
module Sweeping {
  import opened Words
  import opened Frames
  import opened Forwarding
  import opened Arp
  import opened Router
  import opened Safety
  import opened Accounting
  import opened Cascade

  // ----- a sweep that ends leaves nothing overdue

  lemma NextIsLeast(s: State, node: nat, n: nat)
    requires Pending(s, node) && Pending(s, n) && n > node
    ensures Next(s, node).Some? && node < Next(s, node).value <= n && Pending(s, Next(s, node).value)
  {
    var i, k := NodeIndex(s.requests, node), NodeIndex(s.requests, n);
    assert i < k;
    NodeIndexIs(s.requests, s.nextNode, i + 1);
  }

  lemma NextAfter(s: State, node: nat)
    requires Pending(s, node) && Next(s, node).Some?
    ensures Next(s, node).value > node && Pending(s, Next(s, node).value)
  {
    NodeIndexIs(s.requests, s.nextNode, NodeIndex(s.requests, node) + 1);
  }

  lemma OverduePending(s: State, n: nat)
    requires n in Overdue(s)
    ensures Pending(s, n) && Due(Req(s, n), s.clock)
  {
    var r :| r in s.requests && Due(r, s.clock) && r.node == n;
    OnlyOne(s, r);
  }

  /** Whatever the cascades do to the list, if the sweep comes to its end then every request has been settled. */
  lemma {:induction false} SweepSettles(cfg: Config, s: State, cur: Option<nat>)
    requires Sweep(cfg, s, cur).Done?
    requires forall n :: n in Overdue(s) ==> cur.Some? && n >= cur.value
    ensures Overdue(Sweep(cfg, s, cur).st) == {}
    decreases |Overdue(s)|, Ahead(s, cur)
  {
    hide Handle, Overdue, NodeIndex;
    if cur.Some? {
      var b := Live(Nodes(s.requests));
      var s1, next := Handle(cfg, s, cur.value, b).st, Next(s, cur.value);
      SweepProgress(cfg, s, cur.value);
      HandleSettles(cfg, s, cur.value, b);
      forall n | n in Overdue(s1) ensures next.Some? && n >= next.value {
        OverduePending(s, n);
        NextIsLeast(s, cur.value, n);
      }
      SweepSettles(cfg, s1, next);
    }
  }

  /** After every completed tick, no pending request was last asked for more than a second ago. */
  lemma TickSettles(cfg: Config, s: State)
    requires Tick(cfg, s).Done?
    ensures Overdue(Tick(cfg, s).st) == {}
  {
    hide NodeIndex, Sweep;
    var s0 := Age(s);
    forall n | n in Overdue(s0) ensures Head(s).Some? && n >= Head(s).value {
      OverduePending(s0, n);
      assert Req(s0, n) in s.requests;
    }
    SweepSettles(cfg, s0, Head(s));
  }

  // ----- the requests a sweep visits

  /** The requests that the loop of the sweep passes to the handler. */
  function Visits(cfg: Config, s: State, cur: Option<nat>): seq<nat>
    decreases |Overdue(s)|, Ahead(s, cur)
  {
    if cur.None? || !Pending(s, cur.value) then []
    else
      var next := Next(s, cur.value);
      match Handle(cfg, s, cur.value, Live(Nodes(s.requests)))
      case Done(s1) =>
        assert |Overdue(s1)| < |Overdue(s)| || (s1 == s && Ahead(s, next) < Ahead(s, cur)) by {
          SweepProgress(cfg, s, cur.value);
        }
        [cur.value] + Visits(cfg, s1, next)
      case _ => [cur.value]
  }

  /** Two hopeless requests such that telling the senders of `y` means giving up `z`. */
  ghost predicate Tells(cfg: Config, s: State, y: nat, z: nat) {
    Pending(s, y) && Pending(s, z) && Hopeless(Req(s, y), s.clock) && Hopeless(Req(s, z), s.clock) &&
    SenderIn(cfg, s, Req(s, y), {z})
  }

  /** No hopeless request has its packets' senders at or behind its own place in the list. */
  ghost predicate Calm(cfg: Config, s: State) {
    forall y: nat, z: nat :: Tells(cfg, s, y, z) ==> z < y
  }

  // ----- what a step may do to the other requests

  /** Requests go and do not come back; hopeless ones that stay keep everything and may gain packets. */
  ghost predicate Persists(s: State, t: State) {
    t.entries == s.entries && t.clock == s.clock && s.nextNode <= t.nextNode &&
    (forall y: nat :: y < s.nextNode && Pending(t, y) ==> Pending(s, y)) &&
    (forall y :: Pending(s, y) && Hopeless(Req(s, y), s.clock) && Pending(t, y) ==> Kept(Req(s, y), Req(t, y)))
  }

  ghost predicate Kept(q: Request, r: Request) {
    r.ip == q.ip && r.sent == q.sent && r.timesSent == q.timesSent && forall p :: p in q.packets ==> p in r.packets
  }

  lemma PersistsTransitive(s: State, t: State, u: State)
    requires Persists(s, t) && Persists(t, u)
    ensures Persists(s, u)
  {
    hide NodeIndex;
    forall y | Pending(s, y) && Hopeless(Req(s, y), s.clock) && Pending(u, y)
      ensures Kept(Req(s, y), Req(u, y))
    {
      PendingBound(s, y);
      assert Pending(t, y) && Kept(Req(s, y), Req(t, y)) && Kept(Req(t, y), Req(u, y));
    }
  }

  lemma PendingBound(s: State, y: nat)
    requires Pending(s, y)
    ensures y < s.nextNode
  {
  }

  lemma SamePersists(s: State, t: State)
    requires t.entries == s.entries && t.clock == s.clock && t.requests == s.requests && t.nextNode == s.nextNode
    ensures Persists(s, t)
  {
  }

  lemma EnqueuePersists(s: State, ip: Word32, p: Packet)
    ensures Persists(s, Enqueue(s, ip, p))
  {
    var t, i := Enqueue(s, ip, p), IpIndex(s.requests, ip);
    forall y: nat | y < s.nextNode && Pending(t, y)
      ensures Pending(s, y) && NodeIndex(s.requests, y) == NodeIndex(t.requests, y)
    {
      var k := NodeIndex(t.requests, y);
      assert k < |s.requests| && s.requests[k].node == y;
      NodeIndexIs(s.requests, s.nextNode, k);
    }
  }

  lemma AskPersists(s: State, node: nat, iface: string, f: Frame)
    requires Pending(s, node) && Req(s, node).timesSent < MAX_ASKS
    ensures Persists(s, Ask(s, node, iface, f))
  {
    var t := Ask(s, node, iface, f);
    forall y | Pending(t, y)
      ensures Pending(s, y) && NodeIndex(s.requests, y) == NodeIndex(t.requests, y)
    {
      var k := NodeIndex(t.requests, y);
      assert s.requests[k].node == y;
      NodeIndexIs(s.requests, s.nextNode, k);
    }
  }

  lemma GiveUpPersists(s: State, node: nat)
    requires Pending(s, node)
    ensures Persists(s, GiveUp(s, node)) && !Pending(GiveUp(s, node), node)
  {
    hide NodeIndex;
    var t := GiveUp(s, node);
    forall y | Pending(t, y)
      ensures y != node && Pending(s, y) && Req(s, y) == Req(t, y)
    {
      GiveUpKeeps(s, node, y);
    }
  }

  lemma GiveUpKeeps(s: State, node: nat, y: nat)
    requires Pending(s, node) && Pending(GiveUp(s, node), y)
    ensures y != node && Pending(s, y) && Req(s, y) == Req(GiveUp(s, node), y)
  {
    var t, i, k := GiveUp(s, node), NodeIndex(s.requests, node), NodeIndex(GiveUp(s, node).requests, y);
    var j := if k < i then k else k + 1;
    assert t.requests[k] == s.requests[j];
    NodeIndexIs(s.requests, s.nextNode, j);
  }

  lemma {:induction false} HandlePersists(cfg: Config, s: State, node: nat, b: Bound)
    requires Handle(cfg, s, node, b).Done?
    ensures Persists(s, Handle(cfg, s, node, b).st)
    ensures Hopeless(Req(s, node), s.clock) ==> !Pending(Handle(cfg, s, node, b).st, node)
    decreases Size(b), 0, 0
  {
    hide Ask, GiveUp, ArpRequest, Persists, Tell, NodeIndex;
    var r := Req(s, node);
    if !Due(r, s.clock) {
      SamePersists(s, s);
    } else if r.timesSent < MAX_ASKS {
      var ifc := OutIface(cfg, r.ip).value;
      AskPersists(s, node, ifc.name, ArpRequest(ifc, r.ip));
    } else {
      var inner := Enter(b, node).value;
      var s1 := Tell(cfg, s, r.packets, inner).st;
      TellPersists(cfg, s, r.packets, inner);
      GiveUpPersists(s1, node);
      PersistsTransitive(s, s1, GiveUp(s1, node));
    }
  }

  lemma {:induction false} TellPersists(cfg: Config, s: State, packets: seq<Packet>, b: Bound)
    requires Tell(cfg, s, packets, b).Done?
    ensures Persists(s, Tell(cfg, s, packets, b).st)
    decreases Size(b), 3, |packets|
  {
    hide TellOne, Persists;
    if packets == [] {
      SamePersists(s, s);
    } else {
      var s0, p := Consider(s, packets[0]), packets[0];
      SamePersists(s, s0);
      TellOnePersists(cfg, s0, p, b);
      var s1 := TellOne(cfg, s0, p, b).st;
      TellPersists(cfg, s1, packets[1..], b);
      PersistsTransitive(s, s0, s1);
      PersistsTransitive(s, s1, Tell(cfg, s, packets, b).st);
    }
  }

  lemma {:induction false} TellOnePersists(cfg: Config, s: State, p: Packet, b: Bound)
    requires TellOne(cfg, s, p, b).Done?
    ensures Persists(s, TellOne(cfg, s, p, b).st)
    decreases Size(b), 2, 0
  {
    hide Persists, ErrorFrame, Handle, Enqueue, NodeIndex;
    var h, data := p.frame.payload.h, p.frame.payload.data;
    if RouteTo(cfg, h.src).Some? && Lookup(s.entries, h.src).None? {
      var route, ifc := RouteTo(cfg, h.src).value, OutIface(cfg, h.src).value;
      var notice := Packet(ErrorFrame(cfg.stale, ifc, 3, 1, h, data), route.iface);
      EnqueuePersists(s, h.src, notice);
      HandlePersists(cfg, Enqueue(s, h.src, notice), QueueNode(s, h.src), b);
      PersistsTransitive(s, Enqueue(s, h.src, notice), TellOne(cfg, s, p, b).st);
    } else {
      SamePersists(s, TellOne(cfg, s, p, b).st);
    }
  }

  // ----- telling a sender with a hopeless request gives that request up

  lemma {:induction false} HandleGivesUp(cfg: Config, s: State, y: nat, b: Bound, z: nat)
    requires Handle(cfg, s, y, b).Done? && DistinctAddresses(s) && Tells(cfg, s, y, z)
    ensures !Pending(Handle(cfg, s, y, b).st, z)
  {
    hide GiveUp, Goes, NodeIndex, Tell;
    var r, inner := Req(s, y), Enter(b, y).value;
    var p :| p in r.packets && p.frame.payload.Ip? && Goes(cfg, s, p.frame.payload.h.src, {z});
    TellGivesUp(cfg, s, r.packets, inner, z, p);
    var s1 := Tell(cfg, s, r.packets, inner).st;
    TellPersists(cfg, s, r.packets, inner);
    GiveUpPersists(s1, y);
    PendingBound(s, z);
  }

  lemma {:induction false} TellGivesUp(cfg: Config, s: State, packets: seq<Packet>, b: Bound, z: nat, p: Packet)
    requires Tell(cfg, s, packets, b).Done? && DistinctAddresses(s) && Pending(s, z) && Hopeless(Req(s, z), s.clock)
    requires p in packets && p.frame.payload.Ip? && Goes(cfg, s, p.frame.payload.h.src, {z})
    ensures !Pending(Tell(cfg, s, packets, b).st, z)
    decreases |packets|
  {
    hide TellOne, NodeIndex, Lookup, DistinctAddresses;
    var s0, first := Consider(s, packets[0]), packets[0];
    var s1 := TellOne(cfg, s0, first, b).st;
    var t := Tell(cfg, s1, packets[1..], b).st;
    TellOnePersists(cfg, s0, first, b);
    TellPersists(cfg, s1, packets[1..], b);
    PendingBound(s0, z);
    ConsiderKeeps(cfg, s, first, p.frame.payload.h.src, z);
    if Pending(s1, z) {
      if p == first {
        TellOneGivesUp(cfg, s0, p, b, z);
      } else {
        TellOneDistinct(cfg, s0, first, b);
        assert Goes(cfg, s1, p.frame.payload.h.src, {z});
        TellGivesUp(cfg, s1, packets[1..], b, z, p);
      }
    }
  }

  lemma ConsiderKeeps(cfg: Config, s: State, p: Packet, a: Word32, z: nat)
    requires Goes(cfg, s, a, {z})
    ensures Goes(cfg, Consider(s, p), a, {z}) && Pending(Consider(s, p), z) && Req(Consider(s, p), z) == Req(s, z)
    ensures DistinctAddresses(s) ==> DistinctAddresses(Consider(s, p))
  {
    GoesRetained(cfg, s, Consider(s, p), {z}, a);
  }

  lemma TellOneDistinct(cfg: Config, s: State, p: Packet, b: Bound)
    requires TellOne(cfg, s, p, b).Done? && DistinctAddresses(s)
    ensures DistinctAddresses(TellOne(cfg, s, p, b).st)
  {
    hide TellOne;
    TellOneAvoidsTrap(cfg, s, p, b, {});
  }

  lemma TellOneGivesUp(cfg: Config, s: State, p: Packet, b: Bound, z: nat)
    requires TellOne(cfg, s, p, b).Done? && DistinctAddresses(s) && Pending(s, z) && Hopeless(Req(s, z), s.clock)
    requires p.frame.payload.Ip? && Goes(cfg, s, p.frame.payload.h.src, {z})
    ensures !Pending(TellOne(cfg, s, p, b).st, z)
  {
    hide ErrorFrame, Handle;
    var h, data := p.frame.payload.h, p.frame.payload.data;
    var route, ifc := RouteTo(cfg, h.src).value, OutIface(cfg, h.src).value;
    var notice := Packet(ErrorFrame(cfg.stale, ifc, 3, 1, h, data), route.iface);
    assert IpIndex(s.requests, h.src) == NodeIndex(s.requests, z);
    QueuedIsHopeless(s, h.src, notice, Req(s, z));
    HandlePersists(cfg, Enqueue(s, h.src, notice), z, b);
  }

  // ----- if the senders are not behind, the sweep visits everything

  /** A step that leaves the hopeless requests exactly as they are and removes no request. */
  ghost predicate Gentle(s: State, t: State) {
    t.entries == s.entries && t.clock == s.clock && s.nextNode <= t.nextNode &&
    (forall y: nat :: y < s.nextNode ==> (Pending(t, y) <==> Pending(s, y))) &&
    (forall r :: Hopeless(r, s.clock) ==> (r in t.requests <==> r in s.requests))
  }

  lemma GentleTransitive(s: State, t: State, u: State)
    requires Gentle(s, t) && Gentle(t, u)
    ensures Gentle(s, u)
  {
    hide NodeIndex;
  }

  lemma EnqueueGentle(s: State, ip: Word32, p: Packet)
    requires IpIndex(s.requests, ip) < |s.requests| ==> !Hopeless(s.requests[IpIndex(s.requests, ip)], s.clock)
    ensures Gentle(s, Enqueue(s, ip, p))
    ensures var t := Enqueue(s, ip, p); Pending(t, QueueNode(s, ip)) && !Hopeless(Req(t, QueueNode(s, ip)), t.clock)
  {
    var t, i := Enqueue(s, ip, p), IpIndex(s.requests, ip);
    EnqueuePersists(s, ip, p);
    assert t.requests[i].node == QueueNode(s, ip);
    NodeIndexIs(t.requests, t.nextNode, i);
    forall y: nat | y < s.nextNode && Pending(s, y) ensures Pending(t, y) {
      var k := NodeIndex(s.requests, y);
      assert t.requests[k].node == y;
    }
    forall r | Hopeless(r, s.clock) ensures r in t.requests <==> r in s.requests {
      if r in s.requests {
        var k :| 0 <= k < |s.requests| && s.requests[k] == r;
        assert k != i && t.requests[k] == r;
      }
    }
  }

  lemma AskGentle(s: State, node: nat, iface: string, f: Frame)
    requires Pending(s, node) && !Hopeless(Req(s, node), s.clock)
    ensures Gentle(s, Ask(s, node, iface, f))
  {
    var t, i := Ask(s, node, iface, f), NodeIndex(s.requests, node);
    forall y: nat ensures Pending(t, y) <==> Pending(s, y) {
      if Pending(s, y) {
        assert t.requests[NodeIndex(s.requests, y)].node == y;
      }
      if Pending(t, y) {
        assert s.requests[NodeIndex(t.requests, y)].node == y;
      }
    }
    forall r | Hopeless(r, s.clock) ensures r in t.requests <==> r in s.requests {
      if r in s.requests {
        var k :| 0 <= k < |s.requests| && s.requests[k] == r;
        assert k != i && t.requests[k] == r;
      }
    }
  }

  lemma SameGentle(s: State, t: State)
    requires t.entries == s.entries && t.clock == s.clock && t.requests == s.requests && t.nextNode == s.nextNode
    ensures Gentle(s, t)
  {
  }

  /** Notices to `a` do not reach a hopeless request. */
  ghost predicate Harmless(cfg: Config, s: State, a: Word32) {
    RouteTo(cfg, a).Some? && Lookup(s.entries, a).None? ==>
      forall r :: r in s.requests && r.ip == a ==> !Hopeless(r, s.clock)
  }

  lemma HarmlessStays(cfg: Config, s: State, t: State, a: Word32)
    requires Gentle(s, t) && Harmless(cfg, s, a)
    ensures Harmless(cfg, t, a)
  {
  }

  lemma TellOneGentle(cfg: Config, s: State, p: Packet, nodes: set<nat>)
    requires Verified(cfg) && Solid(cfg, s) && Quotable(p) && Harmless(cfg, s, p.frame.payload.h.src)
    ensures TellOne(cfg, s, p, Live(nodes)).Done?
    ensures var t := TellOne(cfg, s, p, Live(nodes)).st; Gentle(s, t) && Solid(cfg, t)
  {
    hide Gentle, Solid, ErrorFrame, Enqueue, Ask, ArpRequest, NodeIndex, Verified;
    TellOneSolid(cfg, s, p, nodes);
    var h, data := p.frame.payload.h, p.frame.payload.data;
    var b := Live(nodes);
    if RouteTo(cfg, h.src).None? {
      SameGentle(s, s);
    } else {
      var route, ifc := RouteTo(cfg, h.src).value, OutIface(cfg, h.src).value;
      var frame := ErrorFrame(cfg.stale, ifc, 3, 1, h, data);
      assert TellOne(cfg, s, p, b) == Resolve(cfg, s, h.src, frame, route.iface, b);
      if Lookup(s.entries, h.src).Some? {
        SameGentle(s, Resolve(cfg, s, h.src, frame, route.iface, b).st);
      } else {
        var s1, n := Enqueue(s, h.src, Packet(frame, route.iface)), QueueNode(s, h.src);
        EnqueueGentle(s, h.src, Packet(frame, route.iface));
        HandleGentle(cfg, s1, n, b);
        assert TellOne(cfg, s, p, b) == Handle(cfg, s1, n, b);
        GentleTransitive(s, s1, Handle(cfg, s1, n, b).st);
      }
    }
  }

  lemma HandleGentle(cfg: Config, s: State, node: nat, b: Bound)
    requires Pending(s, node) && !Hopeless(Req(s, node), s.clock) && !Handle(cfg, s, node, b).Fault?
    ensures Handle(cfg, s, node, b).Done? && Gentle(s, Handle(cfg, s, node, b).st)
    ensures Pending(Handle(cfg, s, node, b).st, node)
  {
    hide Gentle, Ask, ArpRequest, NodeIndex;
    var r := Req(s, node);
    if Due(r, s.clock) {
      var ifc := OutIface(cfg, r.ip).value;
      AskGentle(s, node, ifc.name, ArpRequest(ifc, r.ip));
      GentlePending(s, Ask(s, node, ifc.name, ArpRequest(ifc, r.ip)), node);
    } else {
      SameGentle(s, s);
    }
  }

  lemma GentlePending(s: State, t: State, y: nat)
    requires Gentle(s, t) && Pending(s, y)
    ensures Pending(t, y)
  {
    PendingBound(s, y);
  }

  lemma {:induction false} TellGentle(cfg: Config, s: State, packets: seq<Packet>, nodes: set<nat>)
    requires Verified(cfg) && Solid(cfg, s)
    requires forall p :: p in packets ==> Quotable(p) && Harmless(cfg, s, p.frame.payload.h.src)
    ensures Tell(cfg, s, packets, Live(nodes)).Done?
    ensures var t := Tell(cfg, s, packets, Live(nodes)).st; Gentle(s, t) && Solid(cfg, t)
    decreases |packets|
  {
    hide Gentle, TellOne, Harmless;
    if packets == [] {
      SameGentle(s, s);
    } else {
      var s0, p := Consider(s, packets[0]), packets[0];
      SameGentle(s, s0);
      HarmlessStays(cfg, s, s0, p.frame.payload.h.src);
      TellOneGentle(cfg, s0, p, nodes);
      var s1 := TellOne(cfg, s0, p, Live(nodes)).st;
      GentleTransitive(s, s0, s1);
      forall q | q in packets[1..] ensures Quotable(q) && Harmless(cfg, s1, q.frame.payload.h.src) {
        HarmlessStays(cfg, s, s1, q.frame.payload.h.src);
      }
      TellGentle(cfg, s1, packets[1..], nodes);
      GentleTransitive(s, s1, Tell(cfg, s, packets, Live(nodes)).st);
    }
  }

  /** Every hopeless request is at or after `cur`. */
  ghost predicate HopelessFrom(s: State, cur: Option<nat>) {
    forall r :: r in s.requests && Hopeless(r, s.clock) ==> cur.Some? && r.node >= cur.value
  }

  /** The effect of handling `node` when no cascade reaches another request. */
  ghost predicate Removed(s: State, t: State, node: nat)
    requires Pending(s, node)
  {
    t.entries == s.entries && t.clock == s.clock && s.nextNode <= t.nextNode &&
    (forall y: nat :: y < s.nextNode ==> (Pending(t, y) <==> Pending(s, y) && !(y == node && Hopeless(Req(s, node), s.clock)))) &&
    (forall r :: Hopeless(r, s.clock) ==> (r in t.requests <==> r in s.requests && r.node != node))
  }

  lemma SendersHarmless(cfg: Config, s: State, node: nat, p: Packet)
    requires Calm(cfg, s) && Pending(s, node) && Hopeless(Req(s, node), s.clock) && HopelessFrom(s, Some(node))
    requires p in Req(s, node).packets && p.frame.payload.Ip?
    ensures Harmless(cfg, s, p.frame.payload.h.src)
  {
    var a := p.frame.payload.h.src;
    if RouteTo(cfg, a).Some? && Lookup(s.entries, a).None? {
      forall r | r in s.requests && r.ip == a ensures !Hopeless(r, s.clock) {
        OnlyOne(s, r);
        assert Goes(cfg, s, a, {r.node});
        assert Hopeless(r, s.clock) ==> Tells(cfg, s, node, r.node);
      }
    }
  }

  lemma GiveUpRemoves(s: State, t: State, node: nat)
    requires Gentle(s, t) && Pending(s, node) && Hopeless(Req(s, node), s.clock)
    ensures Pending(t, node) && Removed(s, GiveUp(t, node), node)
  {
    hide NodeIndex;
    PendingBound(s, node);
    var u := GiveUp(t, node);
    GiveUpPersists(t, node);
    forall y: nat | y < s.nextNode && Pending(s, y) && y != node ensures Pending(u, y) {
      GiveUpKeepsReq(t, node, y);
    }
    forall r | Hopeless(r, s.clock) ensures r in u.requests <==> r in s.requests && r.node != node {
      if r in u.requests {
        OnlyOne(u, r);
        GiveUpKeeps(t, node, r.node);
      } else if r in t.requests && r.node != node {
        OnlyOne(t, r);
        GiveUpKeepsReq(t, node, r.node);
      }
    }
  }

  lemma GentleRemoves(s: State, t: State, node: nat)
    requires Gentle(s, t) && Pending(s, node) && !Hopeless(Req(s, node), s.clock)
    ensures Removed(s, t, node)
  {
    hide NodeIndex;
    forall r | r in s.requests && Hopeless(r, s.clock) ensures r.node != node {
      OnlyOne(s, r);
    }
  }

  lemma CalmStep(cfg: Config, s: State, node: nat)
    requires Verified(cfg) && Solid(cfg, s) && Calm(cfg, s) && Pending(s, node) && HopelessFrom(s, Some(node))
    ensures Handle(cfg, s, node, Unbounded(s)).Done?
    ensures var t := Handle(cfg, s, node, Unbounded(s)).st; Removed(s, t, node) && Solid(cfg, t)
  {
    hide Gentle, Removed, Calm, HopelessFrom, Verified, Harmless, Quotable, GiveUp, Ask, Tell, NodeIndex, Solid;
    var nodes := Nodes(s.requests);
    HandleSolid(cfg, s, node, nodes);
    var r := Req(s, node);
    if Hopeless(r, s.clock) {
      assert node in nodes;
      WaitingQuotable(cfg, s, r);
      forall p | p in r.packets
        ensures Quotable(p) && p.frame.payload.Ip? && Harmless(cfg, s, p.frame.payload.h.src)
      {
        QuotableIsIp(p);
        SendersHarmless(cfg, s, node, p);
      }
      TellGentle(cfg, s, r.packets, nodes - {node});
      GiveUpRemoves(s, Tell(cfg, s, r.packets, Live(nodes - {node})).st, node);
    } else {
      HandleGentle(cfg, s, node, Unbounded(s));
      GentleRemoves(s, Handle(cfg, s, node, Unbounded(s)).st, node);
    }
  }

  lemma WaitingQuotable(cfg: Config, s: State, r: Request)
    requires Solid(cfg, s) && r in s.requests
    ensures forall p :: p in r.packets ==> Quotable(p)
  {
  }

  lemma QuotableIsIp(p: Packet)
    requires Quotable(p)
    ensures p.frame.payload.Ip?
  {
  }

  /** Calm is kept, since the hopeless requests that are left are as they were. */
  lemma CalmStays(cfg: Config, s: State, t: State, node: nat)
    requires Calm(cfg, s) && Pending(s, node) && Removed(s, t, node)
    ensures Calm(cfg, t)
  {
    hide NodeIndex, Lookup, Removed;
    forall y, z | Tells(cfg, t, y, z) ensures z < y {
      RemovedKeeps(s, t, node, y);
      RemovedKeeps(s, t, node, z);
      var p :| p in Req(t, y).packets && p.frame.payload.Ip? && Goes(cfg, t, p.frame.payload.h.src, {z});
      assert s.entries == t.entries by { RemovedEntries(s, t, node); }
      assert Goes(cfg, s, p.frame.payload.h.src, {z});
      assert Tells(cfg, s, y, z);
    }
  }

  lemma RemovedKeeps(s: State, t: State, node: nat, y: nat)
    requires Pending(s, node) && Removed(s, t, node) && Pending(t, y) && Hopeless(Req(t, y), t.clock)
    ensures Pending(s, y) && Req(s, y) == Req(t, y) && Hopeless(Req(s, y), s.clock) && y != node
  {
    OnlyOne(s, Req(t, y));
  }

  lemma RemovedEntries(s: State, t: State, node: nat)
    requires Pending(s, node) && Removed(s, t, node)
    ensures t.entries == s.entries && t.clock == s.clock
  {
  }

  lemma HopelessAfter(s: State, t: State, node: nat)
    requires Pending(s, node) && Removed(s, t, node) && HopelessFrom(s, Some(node))
    ensures HopelessFrom(t, Next(s, node))
  {
    hide NodeIndex;
    forall r | r in t.requests && Hopeless(r, t.clock) ensures Next(s, node).Some? && r.node >= Next(s, node).value {
      OnlyOne(s, r);
      NextIsLeast(s, node, r.node);
    }
  }

  ghost predicate Increasing(v: seq<nat>) {
    forall i, j :: 0 <= i < j < |v| ==> v[i] < v[j]
  }

  /** What a complete sweep from `cur` does: `v` are the requests visited and `t` is the final state. */
  ghost predicate Complete(s: State, cur: Option<nat>, v: seq<nat>, t: State) {
    Increasing(v) && s.nextNode <= t.nextNode && (forall n :: n in v ==> cur.Some? && n >= cur.value) &&
    (forall n: nat :: n < s.nextNode ==> (n in v <==> Pending(s, n) && cur.Some? && n >= cur.value)) &&
    (forall n: nat :: n < s.nextNode ==> (Pending(t, n) <==> Pending(s, n) && !Hopeless(Req(s, n), s.clock)))
  }

  lemma {:induction false} SweepComplete(cfg: Config, s: State, cur: Option<nat>)
    requires Verified(cfg) && Solid(cfg, s) && Calm(cfg, s) && HopelessFrom(s, cur)
    requires cur.Some? ==> Pending(s, cur.value)
    ensures Sweep(cfg, s, cur).Done? && Complete(s, cur, Visits(cfg, s, cur), Sweep(cfg, s, cur).st)
    decreases |Overdue(s)|, Ahead(s, cur)
  {
    hide Verified, Solid, Calm, HopelessFrom, Handle, Overdue, NodeIndex, Removed, Complete;
    if cur.None? {
      NothingLeft(s);
    } else {
      CalmStep(cfg, s, cur.value);
      var s1, next := Handle(cfg, s, cur.value, Unbounded(s)).st, Next(s, cur.value);
      SweepProgress(cfg, s, cur.value);
      CalmStays(cfg, s, s1, cur.value);
      HopelessAfter(s, s1, cur.value);
      if next.Some? {
        NextStays(s, s1, cur.value);
      }
      SweepComplete(cfg, s1, next);
      CompleteStep(s, s1, cur.value, Visits(cfg, s1, next), Sweep(cfg, s1, next).st);
    }
  }

  lemma NothingLeft(s: State)
    requires HopelessFrom(s, None)
    ensures Complete(s, None, [], s)
  {
    hide NodeIndex;
    forall n: nat | Pending(s, n) ensures !Hopeless(Req(s, n), s.clock) {
      assert Req(s, n) in s.requests;
    }
  }

  lemma NextStays(s: State, t: State, node: nat)
    requires Pending(s, node) && Removed(s, t, node) && Next(s, node).Some?
    ensures Pending(t, Next(s, node).value)
  {
    NextAfter(s, node);
    PendingBound(s, Next(s, node).value);
  }

  lemma CompleteStep(s: State, s1: State, node: nat, v: seq<nat>, t: State)
    requires Pending(s, node) && Removed(s, s1, node) && Complete(s1, Next(s, node), v, t)
    ensures Complete(s, Some(node), [node] + v, t)
  {
    hide NodeIndex, Next;
    var w, next := [node] + v, Next(s, node);
    PendingBound(s, node);
    if next.Some? {
      NextAfter(s, node);
    }
    assert forall n :: n in w <==> n == node || n in v;
    forall n: nat | n < s.nextNode ensures n in w <==> Pending(s, n) && n >= node {
      if Pending(s, n) && n > node {
        NextIsLeast(s, node, n);
      }
    }
    forall n: nat | n < s.nextNode ensures Pending(t, n) <==> Pending(s, n) && !Hopeless(Req(s, n), s.clock) {
      HopelessTransfers(s, s1, node, n);
    }
    assert Increasing(w) by {
      forall i, j | 0 <= i < j < |w| ensures w[i] < w[j] {
        assert w[j] == v[j - 1];
        if i > 0 {
          assert w[i] == v[i - 1];
        } else {
          assert v[j - 1] in v;
        }
      }
    }
  }

  /** A request other than `node` is hopeless after the step exactly if it was before. */
  lemma HopelessTransfers(s: State, t: State, node: nat, n: nat)
    requires Pending(s, node) && Removed(s, t, node) && n < s.nextNode
    ensures Pending(t, n) && !Hopeless(Req(t, n), t.clock) <==> Pending(s, n) && !Hopeless(Req(s, n), s.clock)
  {
    if Pending(s, n) && Hopeless(Req(s, n), s.clock) && Pending(t, n) {
      assert Req(s, n) in t.requests;
      OnlyOne(t, Req(s, n));
    }
    if Pending(t, n) && Hopeless(Req(t, n), t.clock) {
      RemovedKeeps(s, t, node, n);
    }
  }

  // ----- if a sender is behind, it does not

  lemma {:induction false} VisitedIsPending(cfg: Config, s: State, cur: Option<nat>, n: nat)
    requires n in Visits(cfg, s, cur) && n < s.nextNode
    ensures Pending(s, n)
    decreases |Overdue(s)|, Ahead(s, cur)
  {
    hide Handle, Overdue, NodeIndex;
    var o := Handle(cfg, s, cur.value, Unbounded(s));
    if n != cur.value && o.Done? {
      SweepProgress(cfg, s, cur.value);
      HandlePersists(cfg, s, cur.value, Unbounded(s));
      VisitedIsPending(cfg, o.st, Next(s, cur.value), n);
    }
  }

  lemma TellsStays(cfg: Config, s: State, t: State, y: nat, z: nat)
    requires Persists(s, t) && Tells(cfg, s, y, z) && Pending(t, y) && Pending(t, z)
    ensures Tells(cfg, t, y, z)
  {
    hide NodeIndex, Lookup;
    assert Kept(Req(s, y), Req(t, y)) && Kept(Req(s, z), Req(t, z));
    var p :| p in Req(s, y).packets && p.frame.payload.Ip? && Goes(cfg, s, p.frame.payload.h.src, {z});
    assert p in Req(t, y).packets && Goes(cfg, t, p.frame.payload.h.src, {z});
  }

  lemma HandleDistinct(cfg: Config, s: State, node: nat, b: Bound)
    requires Handle(cfg, s, node, b).Done? && DistinctAddresses(s)
    ensures DistinctAddresses(Handle(cfg, s, node, b).st)
  {
    hide Handle;
    HandleAvoidsTrap(cfg, s, node, b, {});
  }

  /** Of a hopeless request and a sender at or behind it, a sweep that ends misses one. */
  lemma {:induction false} SweepMisses(cfg: Config, s: State, cur: Option<nat>, y: nat, z: nat)
    requires Sweep(cfg, s, cur).Done? && DistinctAddresses(s) && Tells(cfg, s, y, z) && y <= z
    ensures !(y in Visits(cfg, s, cur) && z in Visits(cfg, s, cur))
    decreases |Overdue(s)|, Ahead(s, cur)
  {
    hide Handle, Overdue, NodeIndex, DistinctAddresses, Tells, Persists;
    if cur.Some? {
      var s1, next := Handle(cfg, s, cur.value, Unbounded(s)).st, Next(s, cur.value);
      SweepProgress(cfg, s, cur.value);
      HandleDistinct(cfg, s, cur.value, Unbounded(s));
      HandlePersists(cfg, s, cur.value, Unbounded(s));
      TellsBounds(cfg, s, s1, y, z);
      if Pending(s1, y) && Pending(s1, z) {
        TellsStays(cfg, s, s1, y, z);
        SweepMisses(cfg, s1, next, y, z);
        if y == cur.value {
          FirstTellsSecond(cfg, s, y, z);
        } else if z == cur.value {
          TellsGone(cfg, s, y, z);
        }
      } else if y == cur.value {
        FirstTellsSecond(cfg, s, y, z);
        if z in Visits(cfg, s1, next) {
          VisitedIsPending(cfg, s1, next, z);
        }
      } else if z == cur.value {
        VisitsAhead(cfg, s, cur, y);
      } else if y in Visits(cfg, s1, next) && z in Visits(cfg, s1, next) {
        VisitedIsPending(cfg, s1, next, y);
        VisitedIsPending(cfg, s1, next, z);
      }
    }
  }

  lemma TellsBounds(cfg: Config, s: State, t: State, y: nat, z: nat)
    requires Tells(cfg, s, y, z) && Persists(s, t)
    ensures y < t.nextNode && z < t.nextNode && Pending(s, y) && Pending(s, z)
  {
    PendingBound(s, y);
    PendingBound(s, z);
  }

  /** Handling `y` to its end gives up `z`; were they the same, it would have no end. */
  lemma FirstTellsSecond(cfg: Config, s: State, y: nat, z: nat)
    requires Handle(cfg, s, y, Unbounded(s)).Done? && DistinctAddresses(s) && Tells(cfg, s, y, z)
    ensures y != z && !Pending(Handle(cfg, s, y, Unbounded(s)).st, z)
  {
    hide Handle, NodeIndex;
    if y == z {
      assert Trap(cfg, s, {y});
      TrappedNeverReturns(cfg, s, y, Unbounded(s));
    }
    HandleGivesUp(cfg, s, y, Unbounded(s), z);
  }

  /** Handling the hopeless `z` gives it up. */
  lemma TellsGone(cfg: Config, s: State, y: nat, z: nat)
    requires Handle(cfg, s, z, Unbounded(s)).Done? && Tells(cfg, s, y, z)
    ensures !Pending(Handle(cfg, s, z, Unbounded(s)).st, z)
  {
    hide Handle, NodeIndex;
    HandlePersists(cfg, s, z, Unbounded(s));
  }

  /** The walk only moves forward. */
  lemma {:induction false} VisitsAhead(cfg: Config, s: State, cur: Option<nat>, n: nat)
    ensures n in Visits(cfg, s, cur) ==> cur.Some? && n >= cur.value
    decreases |Overdue(s)|, Ahead(s, cur)
  {
    hide Handle, Overdue, NodeIndex;
    if cur.Some? && Pending(s, cur.value) {
      var o := Handle(cfg, s, cur.value, Unbounded(s));
      if o.Done? {
        SweepProgress(cfg, s, cur.value);
        VisitsAhead(cfg, o.st, Next(s, cur.value), n);
        if Next(s, cur.value).Some? {
          NextAfter(s, cur.value);
        }
      }
    }
  }

  // ----- the theorem

  lemma HeadIsFirst(s: State)
    ensures HopelessFrom(s, Head(s)) && (Head(s).Some? ==> Pending(s, Head(s).value))
    ensures forall n: nat :: Pending(s, n) ==> Head(s).Some? && n >= Head(s).value
  {
    if s.requests != [] {
      NodeIndexIs(s.requests, s.nextNode, 0);
    }
  }

  /**
   * A sweep comes to its end and passes every request that was pending at its start to the handler if and
   * only if no hopeless request has, among the senders of its packets, the address of a hopeless request at
   * or behind its own place in the list.
   */
  lemma SweepVisitsAllIffCalm(cfg: Config, s: State)
    requires Verified(cfg) && Solid(cfg, s) && DistinctAddresses(s)
    ensures Calm(cfg, s) <==>
              Sweep(cfg, s, Head(s)).Done? && forall n: nat :: Pending(s, n) ==> n in Visits(cfg, s, Head(s))
  {
    hide Verified, Solid, DistinctAddresses, NodeIndex, Visits, Sweep, Tells;
    HeadIsFirst(s);
    if Calm(cfg, s) {
      SweepComplete(cfg, s, Head(s));
      forall n | Pending(s, n) ensures n in Visits(cfg, s, Head(s)) {
        PendingBound(s, n);
      }
    } else {
      var y, z :| Tells(cfg, s, y, z) && !(z < y);
      if Sweep(cfg, s, Head(s)).Done? {
        SweepMisses(cfg, s, Head(s), y, z);
        TellsPending(cfg, s, y, z);
      }
    }
  }

  lemma TellsPending(cfg: Config, s: State, y: nat, z: nat)
    requires Tells(cfg, s, y, z)
    ensures Pending(s, y) && Pending(s, z)
  {
  }

  /** A complete sweep visits each request once, in list order, and removes exactly the hopeless ones. */
  lemma CalmSweep(cfg: Config, s: State)
    requires Verified(cfg) && Solid(cfg, s) && Calm(cfg, s)
    ensures Sweep(cfg, s, Head(s)).Done?
    ensures var t := Sweep(cfg, s, Head(s)).st;
      forall n: nat :: n < s.nextNode ==> (Pending(t, n) <==> Pending(s, n) && !Hopeless(Req(s, n), s.clock))
    ensures var v := Visits(cfg, s, Head(s));
      (forall i, j :: 0 <= i < j < |v| ==> v[i] < v[j]) && (forall n: nat :: n < s.nextNode ==> (n in v <==> Pending(s, n)))
  {
    hide Verified, Solid, Calm, NodeIndex, Visits, Sweep;
    HeadIsFirst(s);
    SweepComplete(cfg, s, Head(s));
  }
}
