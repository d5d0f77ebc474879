/** The two entry points of the router, the timer and the packet handler, and its runs. */
module Router {
  import opened Words
  import opened Frames
  import opened Forwarding
  import opened Arp

  /** The requests that are due. */
  function Overdue(s: State): set<nat> {
    set r | r in s.requests && Due(r, s.clock) :: r.node
  }

  lemma NodeIndexIs(requests: seq<Request>, bound: nat, i: nat)
    requires Ordered(requests, bound) && i < |requests|
    ensures NodeIndex(requests, requests[i].node) == i
  {
  }

  lemma OverdueIsDue(s: State, node: nat)
    ensures node in Overdue(s) <==> Pending(s, node) && Due(Req(s, node), s.clock)
  {
    forall i | 0 <= i < |s.requests| && s.requests[i].node == node
      ensures NodeIndex(s.requests, node) == i
    {
      NodeIndexIs(s.requests, s.nextNode, i);
    }
    assert Pending(s, node) ==> Req(s, node) in s.requests;
  }

  lemma EnqueueOverdue(s: State, ip: Word32, p: Packet)
    ensures var s1, n := Enqueue(s, ip, p), QueueNode(s, ip);
      s1.clock == s.clock && Pending(s1, n) && Overdue(s1) <= Overdue(s) + {n}
  {
    var s1, n := Enqueue(s, ip, p), QueueNode(s, ip);
    var i := IpIndex(s.requests, ip);
    assert s1.requests[i].node == n;
    NodeIndexIs(s1.requests, s1.nextNode, i);
    forall m | m in Overdue(s1)
      ensures m in Overdue(s) + {n}
    {
      var r :| r in s1.requests && Due(r, s1.clock) && r.node == m;
      if m != n {
        assert r in s.requests;
      }
    }
  }

  lemma AskOverdue(s: State, node: nat, iface: string, frame: Frame)
    requires Pending(s, node)
    ensures var s1 := Ask(s, node, iface, frame);
      s1.clock == s.clock && Overdue(s1) <= Overdue(s) - {node}
  {
    var s1 := Ask(s, node, iface, frame);
    var i := NodeIndex(s.requests, node);
    forall m | m in Overdue(s1)
      ensures m in Overdue(s) - {node}
    {
      var k :| 0 <= k < |s1.requests| && Due(s1.requests[k], s1.clock) && s1.requests[k].node == m;
      assert k != i;
      assert s1.requests[k] == s.requests[k];
      assert s.requests[k] in s.requests;
    }
  }

  lemma GiveUpOverdue(s: State, node: nat)
    requires Pending(s, node)
    ensures var s1 := GiveUp(s, node);
      s1.clock == s.clock && Overdue(s1) <= Overdue(s) - {node}
  {
    var s1 := GiveUp(s, node);
    var i := NodeIndex(s.requests, node);
    forall r | r in s1.requests
      ensures r in s.requests && r.node != node
    {
      var k :| 0 <= k < |s1.requests| && s1.requests[k] == r;
      var j := if k < i then k else k + 1;
      assert r == s.requests[j];
    }
  }

  /** Handling a request leaves it settled, and makes no other request overdue. */
  lemma {:induction false} HandleSettles(cfg: Config, s: State, node: nat, b: Bound)
    requires Handle(cfg, s, node, b).Done?
    ensures var s1 := Handle(cfg, s, node, b).st;
      s1.clock == s.clock && Overdue(s1) <= Overdue(s) - {node} && (node !in Overdue(s) ==> s1 == s)
    decreases Size(b), 0, 0
  {
    var r := Req(s, node);
    if !Due(r, s.clock) {
      OverdueIsDue(s, node);
    } else if r.timesSent < MAX_ASKS {
      var ifc := IfaceOf(cfg, RouteTo(cfg, r.ip).value.iface).value;
      AskOverdue(s, node, ifc.name, ArpRequest(ifc, r.ip));
    } else {
      var inner := Enter(b, node).value;
      TellSettles(cfg, s, r.packets, inner);
      GiveUpOverdue(Tell(cfg, s, r.packets, inner).st, node);
    }
  }

  lemma {:induction false} TellSettles(cfg: Config, s: State, packets: seq<Packet>, b: Bound)
    requires Tell(cfg, s, packets, b).Done?
    ensures var s1 := Tell(cfg, s, packets, b).st; s1.clock == s.clock && Overdue(s1) <= Overdue(s)
    decreases Size(b), 3, |packets|
  {
    if packets != [] {
      var p, s0 := packets[0], Consider(s, packets[0]);
      var s1 := TellOne(cfg, s0, p, b).st;
      assert Overdue(s1) <= Overdue(s0) == Overdue(s) && s1.clock == s.clock by {
        if RouteTo(cfg, p.frame.payload.h.src).Some? {
          var route := RouteTo(cfg, p.frame.payload.h.src).value;
          var ifc := IfaceOf(cfg, route.iface).value;
          ResolveSettles(cfg, s0, p.frame.payload.h.src,
                         ErrorFrame(cfg.stale, ifc, 3, 1, p.frame.payload.h, p.frame.payload.data), route.iface, b);
        }
      }
      TellSettles(cfg, s1, packets[1..], b);
    }
  }

  lemma {:induction false} ResolveSettles(cfg: Config, s: State, ip: Word32, frame: Frame, iface: string, b: Bound)
    requires Resolve(cfg, s, ip, frame, iface, b).Done?
    ensures var s1 := Resolve(cfg, s, ip, frame, iface, b).st; s1.clock == s.clock && Overdue(s1) <= Overdue(s)
    decreases Size(b), 1, 0
  {
    if Lookup(s.entries, ip).None? {
      EnqueueOverdue(s, ip, Packet(frame, iface));
      HandleSettles(cfg, Enqueue(s, ip, Packet(frame, iface)), QueueNode(s, ip), b);
    }
  }

  // ----- the timer

  /** `req->next`. */
  function Next(s: State, node: nat): Option<nat>
    requires Pending(s, node)
  {
    var i := NodeIndex(s.requests, node) + 1;
    if i < |s.requests| then Some(s.requests[i].node) else None
  }

  function Head(s: State): Option<nat> {
    if s.requests == [] then None else Some(s.requests[0].node)
  }

  /** The number of requests from `cur` to the end of the list. */
  function Ahead(s: State, cur: Option<nat>): nat {
    if cur.None? then 0 else |s.requests| - NodeIndex(s.requests, cur.value)
  }

  lemma NextIsAhead(s: State, node: nat)
    requires Pending(s, node)
    ensures Ahead(s, Next(s, node)) < Ahead(s, Some(node))
  {
    var i := NodeIndex(s.requests, node) + 1;
    if i < |s.requests| {
      NodeIndexIs(s.requests, s.nextNode, i);
    }
  }

  lemma FewerOverdue(a: set<nat>, b: set<nat>, node: nat)
    requires a <= b - {node} && node in b
    ensures |a| < |b|
  {
    SubsetSize(a, b - {node});
  }

  lemma {:induction false} SubsetSize(a: set<nat>, b: set<nat>)
    requires a <= b
    ensures |a| <= |b|
  {
    if a != {} {
      var x :| x in a;
      SubsetSize(a - {x}, b - {x});
    }
  }

  /** `sr_arpcache_sweepreqs`, from the request `cur` on; the successor is read before the request is handled. */
  function Sweep(cfg: Config, s: State, cur: Option<nat>): Outcome
    decreases |Overdue(s)|, Ahead(s, cur)
  {
    if cur.None? then Done(s)
    else if !Pending(s, cur.value) then Fault(FreedRequest, s)
    else
      var next := Next(s, cur.value);
      match Handle(cfg, s, cur.value, Live(Nodes(s.requests)))
      case Done(s1) =>
        assert |Overdue(s1)| < |Overdue(s)| || (s1 == s && Ahead(s, next) < Ahead(s, cur)) by {
          SweepProgress(cfg, s, cur.value);
        }
        Sweep(cfg, s1, next)
      case o => o
  }

  lemma SweepProgress(cfg: Config, s: State, node: nat)
    requires Pending(s, node) && Handle(cfg, s, node, Live(Nodes(s.requests))).Done?
    ensures var s1 := Handle(cfg, s, node, Live(Nodes(s.requests))).st;
      |Overdue(s1)| < |Overdue(s)| || (s1 == s && Ahead(s, Next(s, node)) < Ahead(s, Some(node)))
  {
    HandleSettles(cfg, s, node, Live(Nodes(s.requests)));
    NextIsAhead(s, node);
    if node in Overdue(s) {
      FewerOverdue(Overdue(Handle(cfg, s, node, Live(Nodes(s.requests))).st), Overdue(s), node);
    }
  }

  lemma SweepNothing(cfg: Config, s: State)
    ensures Sweep(cfg, s, None) == Done(s)
  {
  }

  lemma SweepUnrolls(cfg: Config, t: State, cur: nat)
    ensures !Pending(t, cur) ==> Sweep(cfg, t, Some(cur)) == Fault(FreedRequest, t)
    ensures Pending(t, cur) ==>
      var o := Handle(cfg, t, cur, Live(Nodes(t.requests))); Sweep(cfg, t, Some(cur)) == if o.Done? then Sweep(cfg, o.st, Next(t, cur)) else o
  {
    hide Handle, Overdue, NodeIndex;
  }

  /** One round of `sr_arpcache_timeout`. */
  function Tick(cfg: Config, s: State): Outcome {
    Sweep(cfg, Age(s), Head(s))
  }

  // ----- the packet handler

  /** Any request may be given up, among them the one that a packet for `ip` is queued behind. */
  function Outer(s: State, ip: Word32): Bound {
    Live(Nodes(s.requests) + {QueueNode(s, ip)})
  }

  /** `sr_handlepacket`. */
  function Receive(cfg: Config, s: State, f: Frame, iface: string): Outcome {
    match Decide(cfg, f, iface)
    case Drop => Done(s)
    case Crash(why) => Fault(why, s)
    case Deliver(ip, frame, out) => Resolve(cfg, s, ip, frame, out, Outer(s, ip))
    case Answer(frame, out) => Done(Send(s, out, frame))
    case Learn(ip, mac) => Done(Accept(s, ip, mac))
  }

  // ----- runs

  datatype Event = Arrival(at: int, frame: Frame, iface: string) | Timer(at: int)

  function Step(cfg: Config, s: State, e: Event): Outcome {
    var s0 := s.(clock := e.at);
    if e.Timer? then Tick(cfg, s0) else Receive(cfg, s0, e.frame, e.iface)
  }

  /** A sequence of events from power-up. It ends with the first event that is not handled to its end. */
  function Run(cfg: Config, events: seq<Event>): Outcome {
    if events == [] then Done(INITIAL)
    else
      match Run(cfg, events[..|events| - 1])
      case Done(s) => Step(cfg, s, events[|events| - 1])
      case o => o
  }

  lemma RunPrefix(cfg: Config, e: seq<Event>, i: nat, s: State)
    requires i < |e| && Run(cfg, e[..i]) == Done(s)
    ensures Run(cfg, e[..i + 1]) == Step(cfg, s, e[i])
  {
    hide Step;
    assert e[..i + 1][..i] == e[..i];
  }

  /** The clock is monotone and starts past its first second. */
  predicate Chronological(events: seq<Event>) {
    (forall i :: 0 <= i < |events| ==> events[i].at >= 2) &&
    (forall i, j :: 0 <= i < j < |events| ==> events[i].at <= events[j].at)
  }
}
