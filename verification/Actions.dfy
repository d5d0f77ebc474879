/**
 * The elementary actions of the router with the conditions under which they are taken. Everything the
 * code does between two events is a sequence of such actions, so what each action keeps, every run keeps.
 */
module Actions {
  import opened Words
  import opened Routing
  import opened Frames
  import opened Forwarding
  import opened Arp
  import opened Router

  datatype Action =
    | Advance(to: int)
    | AgeCache
    | AcceptReply(ip: Word32, mac: Mac)
    | Reply(iface: string, frame: Frame)
    | Direct(iface: string, frame: Frame, mac: Mac)
    | Queue(ip: Word32, packet: Packet)
    | Broadcast(node: nat, iface: string, frame: Frame)
    | TakeUp(packet: Packet)
    | Abandon(node: nat)

  predicate IsAskFor(f: Frame, ip: Word32) {
    f.payload.Arp? && f.payload.a.op == ARP_REQUEST && f.payload.a.tip == ip
  }

  ghost predicate Enabled(cfg: Config, s: State, a: Action) {
    match a
    case Advance(to) => to >= 2 && to >= s.clock
    case AgeCache => true
    case AcceptReply(_, _) => true
    case Reply(iface, f) => ProperReply(cfg, iface, f)
    case Direct(iface, f, mac) =>
      f.payload.Ip? && Sound(cfg, f.payload.h.dst, f, iface) &&
      Lookup(s.entries, f.payload.h.dst).Some? && Lookup(s.entries, f.payload.h.dst).value.mac == mac
    case Queue(ip, p) => Sound(cfg, ip, p.frame, p.iface) && Lookup(s.entries, ip).None?
    case Broadcast(node, iface, f) =>
      Pending(s, node) && Due(Req(s, node), s.clock) && Req(s, node).timesSent < MAX_ASKS &&
      IsAskFor(f, Req(s, node).ip) && ProperRequest(cfg, iface, f)
    case TakeUp(_) => true
    case Abandon(node) => Pending(s, node) && Hopeless(Req(s, node), s.clock)
  }

  ghost function Apply(cfg: Config, s: State, a: Action): State
    requires Enabled(cfg, s, a)
  {
    match a
    case Advance(to) => s.(clock := to)
    case AgeCache => Age(s)
    case AcceptReply(ip, mac) => Accept(s, ip, mac)
    case Reply(iface, f) => Send(s, iface, f)
    case Direct(iface, f, mac) => SendDirect(s, iface, f, mac)
    case Queue(ip, p) => Enqueue(s, ip, p)
    case Broadcast(node, iface, f) => Ask(s, node, iface, f)
    case TakeUp(p) => Consider(s, p)
    case Abandon(node) => GiveUp(s, node)
  }

  /** `acts` leads from `s` to `t`, each action taken under its condition. */
  ghost predicate Leads(cfg: Config, s: State, acts: seq<Action>, t: State)
    decreases |acts|
  {
    if acts == [] then s == t
    else Enabled(cfg, s, acts[0]) && Leads(cfg, Apply(cfg, s, acts[0]), acts[1..], t)
  }

  /** The actions of the timeout machinery itself: the clock and the cache stay as they are. */
  predicate Internal(a: Action) {
    a.Direct? || a.Queue? || a.Broadcast? || a.TakeUp? || a.Abandon?
  }

  predicate AllInternal(acts: seq<Action>) {
    forall i :: 0 <= i < |acts| ==> Internal(acts[i])
  }

  lemma {:induction false} InternalKeeps(cfg: Config, s: State, acts: seq<Action>, t: State)
    requires Leads(cfg, s, acts, t) && AllInternal(acts)
    ensures t.clock == s.clock && t.entries == s.entries
    decreases |acts|
  {
    hide Sound, Lookup, IsAskFor, SendCheck;
    if acts != [] {
      InternalKeeps(cfg, Apply(cfg, s, acts[0]), acts[1..], t);
    }
  }

  lemma {:induction false} LeadsConcat(cfg: Config, s: State, a: seq<Action>, t: State, b: seq<Action>, u: State)
    requires Leads(cfg, s, a, t) && Leads(cfg, t, b, u)
    ensures Leads(cfg, s, a + b, u)
    decreases |a|
  {
    hide Enabled, Apply;
    if a == [] {
      assert a + b == b;
    } else {
      assert (a + b)[1..] == a[1..] + b;
      LeadsConcat(cfg, Apply(cfg, s, a[0]), a[1..], t, b, u);
    }
  }

  lemma LeadsOne(cfg: Config, s: State, a: Action)
    requires Enabled(cfg, s, a)
    ensures Leads(cfg, s, [a], Apply(cfg, s, a))
  {
    hide Enabled, Apply;
    assert [a][1..] == [];
  }

  // ----- waiting packets are sound

  ghost predicate WaitingSound(cfg: Config, s: State) {
    forall i, j :: 0 <= i < |s.requests| && 0 <= j < |s.requests[i].packets| ==>
      Sound(cfg, s.requests[i].ip, s.requests[i].packets[j].frame, s.requests[i].packets[j].iface)
  }

  lemma StepKeepsWaitingSound(cfg: Config, s: State, a: Action)
    requires Enabled(cfg, s, a) && WaitingSound(cfg, s)
    ensures WaitingSound(cfg, Apply(cfg, s, a))
  {
    hide Sound, Lookup, IsAskFor, ProperRequest, ProperReply, Accept, GiveUp, Ask, Enqueue;
    match a
    case AcceptReply(ip, mac) => AcceptWaitingSound(cfg, s, ip, mac);
    case Queue(ip, p) => EnqueueWaitingSound(cfg, s, ip, p);
    case Broadcast(node, iface, f) => AskWaitingSound(cfg, s, node, iface, f);
    case Abandon(node) => GiveUpWaitingSound(cfg, s, node);
    case _ =>
  }

  lemma EnqueueWaitingSound(cfg: Config, s: State, ip: Word32, p: Packet)
    requires WaitingSound(cfg, s) && Sound(cfg, ip, p.frame, p.iface)
    ensures WaitingSound(cfg, Enqueue(s, ip, p))
  {
    hide Sound;
  }

  lemma AskWaitingSound(cfg: Config, s: State, node: nat, iface: string, f: Frame)
    requires WaitingSound(cfg, s) && Pending(s, node)
    ensures WaitingSound(cfg, Ask(s, node, iface, f))
  {
    hide Sound;
  }

  lemma GiveUpWaitingSound(cfg: Config, s: State, node: nat)
    requires WaitingSound(cfg, s) && Pending(s, node)
    ensures WaitingSound(cfg, GiveUp(s, node))
  {
    hide Sound;
  }

  lemma AcceptWaitingSound(cfg: Config, s: State, ip: Word32, mac: Mac)
    requires WaitingSound(cfg, s)
    ensures WaitingSound(cfg, Accept(s, ip, mac))
  {
    hide Sound, Store, FlushLog;
  }

  lemma {:induction false} LeadsKeepsWaitingSound(cfg: Config, s: State, acts: seq<Action>, t: State)
    requires Leads(cfg, s, acts, t) && WaitingSound(cfg, s)
    ensures WaitingSound(cfg, t)
    decreases |acts|
  {
    hide Enabled, Apply, WaitingSound;
    if acts != [] {
      StepKeepsWaitingSound(cfg, s, acts[0]);
      LeadsKeepsWaitingSound(cfg, Apply(cfg, s, acts[0]), acts[1..], t);
    }
  }

  // ----- nothing revives a hopeless request

  ghost predicate BeyondHope(s: State, node: nat) {
    node < s.nextNode && forall i :: 0 <= i < |s.requests| && s.requests[i].node == node ==> Hopeless(s.requests[i], s.clock)
  }

  lemma StepKeepsBeyondHope(cfg: Config, s: State, a: Action, node: nat)
    requires Enabled(cfg, s, a) && BeyondHope(s, node)
    ensures BeyondHope(Apply(cfg, s, a), node)
  {
    hide Sound, Lookup, Store, FlushLog, Aged, IsAskFor, SendCheck;
  }

  lemma {:induction false} LeadsKeepsBeyondHope(cfg: Config, s: State, acts: seq<Action>, t: State, node: nat)
    requires Leads(cfg, s, acts, t) && BeyondHope(s, node)
    ensures BeyondHope(t, node)
    decreases |acts|
  {
    hide Enabled, Apply, BeyondHope;
    if acts != [] {
      StepKeepsBeyondHope(cfg, s, acts[0], node);
      LeadsKeepsBeyondHope(cfg, Apply(cfg, s, acts[0]), acts[1..], t, node);
    }
  }

  // ----- the code takes enabled actions only

  ghost predicate PacketSound(cfg: Config, p: Packet) {
    p.frame.payload.Ip? && Sound(cfg, p.frame.payload.h.dst, p.frame, p.iface)
  }

  lemma OneAbandon(cfg: Config, s: State, node: nat)
    requires Pending(s, node) && BeyondHope(s, node)
    ensures Leads(cfg, s, [Abandon(node)], GiveUp(s, node)) && AllInternal([Abandon(node)])
  {
    LeadsOne(cfg, s, Abandon(node));
  }

  lemma OneTakeUp(cfg: Config, s: State, p: Packet)
    ensures Leads(cfg, s, [TakeUp(p)], Consider(s, p)) && AllInternal([TakeUp(p)])
  {
    LeadsOne(cfg, s, TakeUp(p));
  }

  lemma OneQueue(cfg: Config, s: State, ip: Word32, p: Packet)
    requires Sound(cfg, ip, p.frame, p.iface) && Lookup(s.entries, ip).None? && WaitingSound(cfg, s)
    ensures Leads(cfg, s, [Queue(ip, p)], Enqueue(s, ip, p)) && AllInternal([Queue(ip, p)])
    ensures WaitingSound(cfg, Enqueue(s, ip, p))
  {
    hide WaitingSound, Sound, Lookup;
    LeadsOne(cfg, s, Queue(ip, p));
    StepKeepsWaitingSound(cfg, s, Queue(ip, p));
  }

  lemma OneDirect(cfg: Config, s: State, ip: Word32, frame: Frame, iface: string)
    requires Sound(cfg, ip, frame, iface) && Lookup(s.entries, ip).Some?
    ensures var mac := Lookup(s.entries, ip).value.mac;
      Leads(cfg, s, [Direct(iface, frame, mac)], SendDirect(s, iface, frame, mac)) && AllInternal([Direct(iface, frame, mac)])
  {
    LeadsOne(cfg, s, Direct(iface, frame, Lookup(s.entries, ip).value.mac));
  }

  lemma OneAsk(cfg: Config, s: State, node: nat) returns (acts: seq<Action>)
    requires Pending(s, node) && Due(Req(s, node), s.clock) && Req(s, node).timesSent < MAX_ASKS
    requires OutIface(cfg, Req(s, node).ip).Some?
    ensures AllInternal(acts)
    ensures var ifc := OutIface(cfg, Req(s, node).ip).value;
      Leads(cfg, s, acts, Ask(s, node, ifc.name, ArpRequest(ifc, Req(s, node).ip)))
  {
    var ip := Req(s, node).ip;
    var ifc := OutIface(cfg, ip).value;
    acts := [Broadcast(node, ifc.name, ArpRequest(ifc, ip))];
    RequestIsProper(cfg, ip);
    LeadsOne(cfg, s, acts[0]);
  }

  lemma WaitingPacketsSound(cfg: Config, s: State, r: Request)
    requires WaitingSound(cfg, s) && r in s.requests
    ensures forall p :: p in r.packets ==> PacketSound(cfg, p)
  {
  }

  lemma HopelessIsBeyondHope(s: State, node: nat)
    requires Pending(s, node) && Hopeless(Req(s, node), s.clock)
    ensures BeyondHope(s, node)
  {
    forall i | 0 <= i < |s.requests| && s.requests[i].node == node
      ensures s.requests[i] == Req(s, node)
    {
      NodeIndexIs(s.requests, s.nextNode, i);
    }
  }

  /** However it ends, handling a request is a sequence of enabled actions. */
  lemma {:induction false} HandleLeads(cfg: Config, s: State, node: nat, b: Bound) returns (acts: seq<Action>)
    requires WaitingSound(cfg, s)
    ensures Leads(cfg, s, acts, Handle(cfg, s, node, b).st) && AllInternal(acts)
    decreases Size(b), 0, 0
  {
    hide Enabled, Apply, WaitingSound, PacketSound, BeyondHope, GiveUp, Ask, ArpRequest;
    acts := [];
    if Pending(s, node) && Due(Req(s, node), s.clock) {
      var r := Req(s, node);
      if r.timesSent < MAX_ASKS {
        if OutIface(cfg, r.ip).Some? {
          acts := OneAsk(cfg, s, node);
        }
      } else if Enter(b, node).Some? {
        var inner := Enter(b, node).value;
        var s1 := Tell(cfg, s, r.packets, inner).st;
        WaitingPacketsSound(cfg, s, r);
        acts := TellLeads(cfg, s, r.packets, inner);
        if Tell(cfg, s, r.packets, inner).Done? && Pending(s1, node) {
          HopelessIsBeyondHope(s, node);
          LeadsKeepsBeyondHope(cfg, s, acts, s1, node);
          OneAbandon(cfg, s1, node);
          LeadsConcat(cfg, s, acts, s1, [Abandon(node)], GiveUp(s1, node));
          acts := acts + [Abandon(node)];
        }
      }
    }
  }

  lemma {:induction false} TellLeads(cfg: Config, s: State, packets: seq<Packet>, b: Bound)
    returns (acts: seq<Action>)
    requires WaitingSound(cfg, s)
    requires forall p :: p in packets ==> PacketSound(cfg, p)
    ensures Leads(cfg, s, acts, Tell(cfg, s, packets, b).st) && AllInternal(acts)
    decreases Size(b), 3, |packets|
  {
    hide Enabled, Apply, PacketSound, Consider, TellOne;
    if packets == [] {
      acts := [];
    } else {
      var p, s0 := packets[0], Consider(s, packets[0]);
      var s1 := TellOne(cfg, s0, p, b).st;
      OneTakeUp(cfg, s, p);
      LeadsKeepsWaitingSound(cfg, s, [TakeUp(p)], s0);
      hide WaitingSound;
      var first := TellOneLeads(cfg, s0, p, b);
      LeadsKeepsWaitingSound(cfg, s0, first, s1);
      LeadsConcat(cfg, s, [TakeUp(p)], s0, first, s1);
      acts := [TakeUp(p)] + first;
      if TellOne(cfg, s0, p, b).Done? {
        var rest := TellLeads(cfg, s1, packets[1..], b);
        LeadsConcat(cfg, s, acts, s1, rest, Tell(cfg, s, packets, b).st);
        acts := acts + rest;
      }
    }
  }

  lemma {:induction false} TellOneLeads(cfg: Config, s: State, p: Packet, b: Bound) returns (acts: seq<Action>)
    requires WaitingSound(cfg, s) && PacketSound(cfg, p)
    ensures Leads(cfg, s, acts, TellOne(cfg, s, p, b).st) && AllInternal(acts)
    decreases Size(b), 2, 0
  {
    hide WaitingSound, Enabled, Apply, ErrorFrame, HeaderOk, Resolve;
    acts := [];
    var h, data := p.frame.payload.h, p.frame.payload.data;
    if |data| >= 8 && OutIface(cfg, h.src).Some? {
      var route := RouteTo(cfg, h.src).value;
      ErrorFrameSound(cfg, 3, 1, h, data, route.iface);
      acts := ResolveLeads(cfg, s, h.src, ErrorFrame(cfg.stale, IfaceOf(cfg, route.iface).value, 3, 1, h, data),
                           route.iface, b);
    }
  }

  lemma {:induction false} ResolveLeads(cfg: Config, s: State, ip: Word32, frame: Frame, iface: string, b: Bound)
    returns (acts: seq<Action>)
    requires WaitingSound(cfg, s) && Sound(cfg, ip, frame, iface)
    ensures Leads(cfg, s, acts, Resolve(cfg, s, ip, frame, iface, b).st) && AllInternal(acts)
    decreases Size(b), 1, 0
  {
    hide WaitingSound, Enabled, Apply, Sound, Enqueue, SendDirect, Handle;
    var p := Packet(frame, iface);
    if Lookup(s.entries, ip).Some? {
      OneDirect(cfg, s, ip, frame, iface);
      acts := [Direct(iface, frame, Lookup(s.entries, ip).value.mac)];
    } else {
      var s1 := Enqueue(s, ip, p);
      OneQueue(cfg, s, ip, p);
      var rest := HandleLeads(cfg, s1, QueueNode(s, ip), b);
      LeadsConcat(cfg, s, [Queue(ip, p)], s1, rest, Resolve(cfg, s, ip, frame, iface, b).st);
      acts := [Queue(ip, p)] + rest;
    }
  }
}
