/** How long an unanswered request can last when the timer is punctual. */
module Lifetime {
  import opened Words
  import opened Routing
  import opened Frames
  import opened Forwarding
  import opened Arp
  import opened Router
  import opened Actions
  import opened Timing
  import opened Runs
  import opened Sweeping

  /** `k` rounds of one second of rest and at most `d` seconds until the timer fires. */
  function Rounds(k: nat, d: nat): nat {
    if k == 0 then 0 else Rounds(k - 1, d) + 1 + d
  }

  /** The last time the timer fired, or the start. */
  function LastTick(start: int, events: seq<Event>): int {
    if events == [] then start
    else if events[|events| - 1].Timer? then events[|events| - 1].at
    else LastTick(start, events[..|events| - 1])
  }

  /** At no event has the timer been silent for more than `d` seconds. */
  ghost predicate Punctual(start: int, d: nat, events: seq<Event>) {
    forall i :: 0 <= i < |events| ==> start <= events[i].at <= LastTick(start, events[..i]) + d
  }

  ghost predicate OnTime(s: State, r: Request, d: nat, tick: int) {
    (r.timesSent == 0 ==> r.born == s.clock) &&
    (r.timesSent > 0 ==> r.sent <= r.born + Rounds(r.timesSent - 1, d) && tick - 1 <= r.sent && s.clock <= r.sent + 1 + d)
  }

  ghost predicate GivenUpBy(l: Log, d: nat) {
    l.GaveUp? ==> l.at <= l.born + Rounds(5, d)
  }

  ghost predicate AllOnTime(s: State, d: nat, tick: int) {
    tick <= s.clock &&
    (forall i :: 0 <= i < |s.requests| ==> OnTime(s, s.requests[i], d, tick)) &&
    (forall i :: 0 <= i < |s.log| ==> GivenUpBy(s.log[i], d))
  }

  lemma {:induction false} RoundsGrow(j: nat, k: nat, d: nat)
    requires j <= k
    ensures Rounds(j, d) <= Rounds(k, d)
  {
    if j < k {
      RoundsGrow(j, k - 1, d);
    }
  }

  lemma FiveRounds(d: nat)
    ensures Rounds(5, d) == 5 * (1 + d)
  {
    assert Rounds(3, d) == Rounds(1, d) + 2 * (1 + d);
  }

  lemma StepKeepsOnTime(cfg: Config, s: State, a: Action, d: nat, tick: int)
    requires Enabled(cfg, s, a) && !a.Advance? && AllOnTime(s, d, tick) && RequestsTimed(s)
    ensures AllOnTime(Apply(cfg, s, a), d, tick)
  {
    hide Sound, Lookup, IsAskFor, SendCheck, AllOnTime, RequestsTimed, Enqueue, Ask, GiveUp, Accept;
    match a
    case Broadcast(node, iface, f) => AskOnTime(s, node, iface, f, d, tick);
    case Abandon(node) => GiveUpOnTime(s, node, d, tick);
    case Queue(ip, p) => EnqueueOnTime(s, ip, p, d, tick);
    case AcceptReply(ip, mac) => AcceptOnTime(s, ip, mac, d, tick);
    case AgeCache => SameOnTime(s, Age(s), d, tick);
    case Reply(iface, f) => SameOnTime(s, Send(s, iface, f), d, tick);
    case Direct(iface, f, mac) => SameOnTime(s, SendDirect(s, iface, f, mac), d, tick);
    case TakeUp(p) => SameOnTime(s, Consider(s, p), d, tick);
    case Advance(_) =>
  }

  lemma SameOnTime(s: State, t: State, d: nat, tick: int)
    requires AllOnTime(s, d, tick) && t.clock == s.clock && t.requests == s.requests
    requires s.log <= t.log && forall i :: |s.log| <= i < |t.log| ==> t.log[i].Sent?
    ensures AllOnTime(t, d, tick)
  {
    hide Rounds;
    forall i | 0 <= i < |t.log| ensures GivenUpBy(t.log[i], d) {
      if i < |s.log| {
        assert t.log[i] == s.log[i];
      }
    }
  }

  lemma EnqueueOnTime(s: State, ip: Word32, p: Packet, d: nat, tick: int)
    requires AllOnTime(s, d, tick)
    ensures AllOnTime(Enqueue(s, ip, p), d, tick)
  {
    hide Rounds;
    var t := Enqueue(s, ip, p);
    forall i | 0 <= i < |t.requests| ensures OnTime(t, t.requests[i], d, tick) {
      if i < |s.requests| {
        assert OnTime(s, s.requests[i], d, tick);
      }
    }
  }

  lemma AcceptOnTime(s: State, ip: Word32, mac: Mac, d: nat, tick: int)
    requires AllOnTime(s, d, tick)
    ensures AllOnTime(Accept(s, ip, mac), d, tick)
  {
    hide Rounds, Store;
    var t, n := Accept(s, ip, mac), IpIndex(s.requests, ip);
    forall i | 0 <= i < |t.requests| ensures OnTime(t, t.requests[i], d, tick) {
      var k := if i < n then i else i + 1;
      assert OnTime(s, s.requests[k], d, tick) && t.requests[i] == s.requests[k];
    }
    forall i | 0 <= i < |t.log| ensures GivenUpBy(t.log[i], d) {
      if i < |s.log| {
        assert t.log[i] == s.log[i];
      }
    }
  }

  lemma AskOnTime(s: State, node: nat, iface: string, f: Frame, d: nat, tick: int)
    requires AllOnTime(s, d, tick) && Pending(s, node)
    ensures AllOnTime(Ask(s, node, iface, f), d, tick)
  {
    var t, n := Ask(s, node, iface, f), NodeIndex(s.requests, node);
    forall i | 0 <= i < |t.requests| ensures OnTime(t, t.requests[i], d, tick) {
      assert OnTime(s, s.requests[i], d, tick);
    }
  }

  lemma GiveUpOnTime(s: State, node: nat, d: nat, tick: int)
    requires AllOnTime(s, d, tick) && RequestsTimed(s) && Pending(s, node) && Hopeless(Req(s, node), s.clock)
    ensures AllOnTime(GiveUp(s, node), d, tick)
  {
    hide CountAsks, LastAsk;
    var t, n, r := GiveUp(s, node), NodeIndex(s.requests, node), Req(s, node);
    assert RequestTimed(s, r) && OnTime(s, r, d, tick);
    forall i | 0 <= i < |t.requests| ensures OnTime(t, t.requests[i], d, tick) {
      var k := if i < n then i else i + 1;
      assert OnTime(s, s.requests[k], d, tick);
    }
  }

  lemma {:induction false} LeadsKeepsOnTime(cfg: Config, s: State, acts: seq<Action>, t: State, d: nat, tick: int)
    requires Leads(cfg, s, acts, t) && forall i :: 0 <= i < |acts| ==> !acts[i].Advance?
    requires Inv(cfg, s) && s.clock >= 2 && AllOnTime(s, d, tick)
    ensures AllOnTime(t, d, tick)
    decreases |acts|
  {
    hide Enabled, Apply, Inv, AllOnTime;
    if acts != [] {
      InvTimed(cfg, s);
      StepKeepsOnTime(cfg, s, acts[0], d, tick);
      StepKeepsInv(cfg, s, acts[0]);
      LeadsKeepsOnTime(cfg, Apply(cfg, s, acts[0]), acts[1..], t, d, tick);
    }
  }

  lemma InvTimed(cfg: Config, s: State)
    requires Inv(cfg, s)
    ensures RequestsTimed(s)
  {
  }

  // ----- between events every pending request has been asked for

  ghost predicate AllAsked(s: State) {
    forall i :: 0 <= i < |s.requests| ==> s.requests[i].timesSent > 0
  }

  /** Of the requests below `bound`, those that are left have been asked for. */
  ghost predicate AskedBelow(s: State, bound: nat) {
    bound <= s.nextNode && forall i :: 0 <= i < |s.requests| && s.requests[i].node < bound ==> s.requests[i].timesSent > 0
  }

  lemma StepKeepsAskedBelow(cfg: Config, s: State, a: Action, bound: nat)
    requires Enabled(cfg, s, a) && AskedBelow(s, bound)
    ensures AskedBelow(Apply(cfg, s, a), bound)
  {
    hide Sound, Lookup, IsAskFor, SendCheck, Accept, AskedBelow, GiveUp, Ask, Enqueue;
    match a
    case AcceptReply(ip, mac) => AcceptAskedBelow(s, ip, mac, bound);
    case Queue(ip, p) => EnqueueAskedBelow(s, ip, p, bound);
    case Broadcast(node, iface, f) => AskAskedBelow(s, node, iface, f, bound);
    case Abandon(node) => GiveUpAskedBelow(s, node, bound);
    case _ => SameAskedBelow(s, Apply(cfg, s, a), bound);
  }

  lemma SameAskedBelow(s: State, t: State, bound: nat)
    requires AskedBelow(s, bound) && t.requests == s.requests && t.nextNode == s.nextNode
    ensures AskedBelow(t, bound)
  {
  }

  lemma EnqueueAskedBelow(s: State, ip: Word32, p: Packet, bound: nat)
    requires AskedBelow(s, bound)
    ensures AskedBelow(Enqueue(s, ip, p), bound)
  {
  }

  lemma AskAskedBelow(s: State, node: nat, iface: string, f: Frame, bound: nat)
    requires AskedBelow(s, bound) && Pending(s, node)
    ensures AskedBelow(Ask(s, node, iface, f), bound)
  {
  }

  lemma GiveUpAskedBelow(s: State, node: nat, bound: nat)
    requires AskedBelow(s, bound) && Pending(s, node)
    ensures AskedBelow(GiveUp(s, node), bound)
  {
  }

  lemma AcceptAskedBelow(s: State, ip: Word32, mac: Mac, bound: nat)
    requires AskedBelow(s, bound)
    ensures AskedBelow(Accept(s, ip, mac), bound)
  {
    hide Store, FlushLog;
  }

  lemma {:induction false} LeadsKeepsAskedBelow(cfg: Config, s: State, acts: seq<Action>, t: State, bound: nat)
    requires Leads(cfg, s, acts, t) && AskedBelow(s, bound)
    ensures AskedBelow(t, bound)
    decreases |acts|
  {
    hide Enabled, Apply, AskedBelow;
    if acts != [] {
      StepKeepsAskedBelow(cfg, s, acts[0], bound);
      LeadsKeepsAskedBelow(cfg, Apply(cfg, s, acts[0]), acts[1..], t, bound);
    }
  }

  /** A request that was never asked for is overdue. */
  lemma UnaskedIsOverdue(s: State, i: nat)
    requires RequestsTimed(s) && s.clock >= 2 && i < |s.requests| && s.requests[i].timesSent == 0
    ensures s.requests[i].node in Overdue(s)
  {
    hide CountAsks, LastAsk;
    assert RequestTimed(s, s.requests[i]) && s.requests[i] in s.requests;
  }

  lemma SettledIsAsked(s: State, t: State)
    requires RequestsTimed(t) && t.clock >= 2 && AskedBelow(t, s.nextNode) && Overdue(t) <= Overdue(s)
    ensures AllAsked(t)
  {
    forall i | 0 <= i < |t.requests| ensures t.requests[i].timesSent > 0 {
      if t.requests[i].timesSent == 0 {
        UnaskedIsOverdue(t, i);
        OverduePending(s, t.requests[i].node);
      }
    }
  }

  /** After an event, every pending request has been asked for; after a tick, within the last second. */
  lemma EventAsks(cfg: Config, s: State, e: Event)
    requires Step(cfg, s, e).Done? && Inv(cfg, s) && AllAsked(s) && e.at >= 2 && e.at >= s.clock
    ensures AllAsked(Step(cfg, s, e).st)
    ensures e.Timer? ==> Overdue(Step(cfg, s, e).st) == {}
  {
    hide Inv, Sweep, Resolve, Decide, RequestsTimed, Overdue, AskedBelow, Leads;
    var s0, t := s.(clock := e.at), Step(cfg, s, e).st;
    EventKeepsInv(cfg, s, e);
    InvTimed(cfg, t);
    InvWaiting(cfg, s);
    var acts := EventLeads(cfg, s, e);
    AllAskedBelow(s0);
    LeadsKeepsAskedBelow(cfg, s0, acts, t, s0.nextNode);
    match e
    case Timer(at) =>
      TickSettles(cfg, s0);
      SettledIsAsked(s0, t);
    case Arrival(at, f, iface) =>
      if Decide(cfg, f, iface).Deliver? {
        var dec := Decide(cfg, f, iface);
        ResolveSettles(cfg, s0, dec.ip, dec.frame, dec.iface, Outer(s0, dec.ip));
        SettledIsAsked(s0, t);
      } else {
        NoNewRequests(cfg, s0, f, iface);
      }
  }

  lemma AllAskedBelow(s: State)
    requires AllAsked(s)
    ensures AskedBelow(s, s.nextNode)
  {
  }

  lemma NoNewRequests(cfg: Config, s: State, f: Frame, iface: string)
    requires Receive(cfg, s, f, iface).Done? && !Decide(cfg, f, iface).Deliver? && AllAsked(s)
    ensures AllAsked(Receive(cfg, s, f, iface).st)
  {
    hide Decide, Resolve, Store;
  }

  // ----- runs

  lemma AdvanceOnTime(s: State, to: int, d: nat, tick: int)
    requires AllOnTime(s, d, tick) && AllAsked(s) && to >= s.clock && to <= tick + d
    ensures AllOnTime(s.(clock := to), d, tick)
  {
    forall i | 0 <= i < |s.requests| ensures OnTime(s.(clock := to), s.requests[i], d, tick) {
      assert OnTime(s, s.requests[i], d, tick);
    }
  }

  lemma TickOnTime(s: State, d: nat, tick: int)
    requires AllOnTime(s, d, tick) && AllAsked(s) && Overdue(s) == {}
    ensures AllOnTime(s, d, s.clock)
  {
    forall i | 0 <= i < |s.requests| ensures OnTime(s, s.requests[i], d, s.clock) {
      var r := s.requests[i];
      assert OnTime(s, r, d, tick) && r in s.requests;
      assert Due(r, s.clock) ==> r.node in Overdue(s);
    }
  }

  lemma EventOnTime(cfg: Config, s: State, e: Event, d: nat, tick: int)
    requires Step(cfg, s, e).Done? && Inv(cfg, s) && AllAsked(s) && AllOnTime(s, d, tick)
    requires e.at >= 2 && s.clock <= e.at <= tick + d
    ensures AllAsked(Step(cfg, s, e).st)
    ensures AllOnTime(Step(cfg, s, e).st, d, if e.Timer? then e.at else tick)
  {
    hide Inv, AllAsked, AllOnTime, Step, Overdue, Leads;
    var s0, t := s.(clock := e.at), Step(cfg, s, e).st;
    AdvanceOnTime(s, e.at, d, tick);
    StepKeepsInv(cfg, s, Advance(e.at));
    InvWaiting(cfg, s);
    var acts := EventLeads(cfg, s, e);
    LeadsKeepsOnTime(cfg, s0, acts, t, d, tick);
    EventAsks(cfg, s, e);
    EventKeepsInv(cfg, s, e);
    if e.Timer? {
      TickOnTime(t, d, tick);
    }
  }

  lemma {:induction false} RunOnTime(cfg: Config, events: seq<Event>, start: nat, d: nat)
    requires Run(cfg, events).Done? && Chronological(events) && Punctual(start, d, events) && events != []
    ensures AllAsked(Run(cfg, events).st) && AllOnTime(Run(cfg, events).st, d, LastTick(start, events))
  {
    hide Inv, AllAsked, Step;
    var n := |events| - 1;
    var s := Run(cfg, events[..n]).st;
    RunIsSafe(cfg, events[..n]);
    assert start <= events[n].at <= LastTick(start, events[..n]) + d;
    if n == 0 {
      FirstOnTime(cfg, events[0], start, d);
    } else {
      forall i | 0 <= i < n ensures start <= events[..n][i].at <= LastTick(start, events[..n][..i]) + d {
        assert events[..n][..i] == events[..i];
      }
      RunOnTime(cfg, events[..n], start, d);
      EventOnTime(cfg, s, events[n], d, LastTick(start, events[..n]));
    }
  }

  lemma FirstOnTime(cfg: Config, e: Event, start: nat, d: nat)
    requires Step(cfg, INITIAL, e).Done? && e.at >= 2 && start <= e.at <= start + d
    ensures AllAsked(Step(cfg, INITIAL, e).st)
    ensures AllOnTime(Step(cfg, INITIAL, e).st, d, if e.Timer? then e.at else start)
  {
    hide Step, Inv, Overdue, Leads;
    var s0, t := INITIAL.(clock := e.at), Step(cfg, INITIAL, e).st;
    InitialInv(cfg);
    InvWaiting(cfg, INITIAL);
    assert INITIAL.requests == [] && INITIAL.log == [];
    StepKeepsInv(cfg, INITIAL, Advance(e.at));
    assert AllOnTime(s0, d, start);
    var acts := EventLeads(cfg, INITIAL, e);
    LeadsKeepsOnTime(cfg, s0, acts, t, d, start);
    EventAsks(cfg, INITIAL, e);
    EventKeepsInv(cfg, INITIAL, e);
    if e.Timer? {
      TickOnTime(t, d, start);
    }
  }

  /**
   * With the timer firing at most every `d` seconds, no request lasts longer than 5 (1 + d) seconds: those
   * given up were given up by then, and those pending are not that old.
   */
  lemma RequestsEndInTime(cfg: Config, events: seq<Event>, start: nat, d: nat)
    requires Run(cfg, events).Done? && Chronological(events) && Punctual(start, d, events) && events != []
    ensures var s := Run(cfg, events).st;
      (forall k :: 0 <= k < |s.log| && s.log[k].GaveUp? ==> s.log[k].at <= s.log[k].born + 5 * (1 + d)) &&
      (forall i :: 0 <= i < |s.requests| ==> s.clock <= s.requests[i].born + 5 * (1 + d))
  {
    hide Run, Inv;
    var s := Run(cfg, events).st;
    RunOnTime(cfg, events, start, d);
    RunIsSafe(cfg, events);
    InvTimed(cfg, s);
    FiveRounds(d);
    forall i | 0 <= i < |s.requests| ensures s.clock <= s.requests[i].born + 5 * (1 + d) {
      var r := s.requests[i];
      assert OnTime(s, r, d, LastTick(start, events)) && RequestTimed(s, r);
      RoundsGrow(r.timesSent - 1, 4, d);
      assert Rounds(5, d) == Rounds(4, d) + 1 + d;
    }
    forall k | 0 <= k < |s.log| && s.log[k].GaveUp? ensures s.log[k].at <= s.log[k].born + 5 * (1 + d) {
      assert GivenUpBy(s.log[k], d);
    }
  }
}
