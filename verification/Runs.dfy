/** Every run of the router is a run of its elementary actions, and so keeps what they keep. */
module Runs {
  import opened Words
  import opened Routing
  import opened Frames
  import opened Forwarding
  import opened Arp
  import opened Router
  import opened Actions
  import opened Safety
  import opened Timing
  import opened Transmission

  /** What holds between any two actions. */
  ghost predicate Inv(cfg: Config, s: State) {
    WaitingSound(cfg, s) && DistinctAddresses(s) && PendingNotCached(s) && EntriesLearned(s) &&
    AllSentWell(cfg, s) && Conserved(s) && Timed(s) && Transmitted(s) && SpeaksArp(cfg, s)
  }

  lemma StepKeepsInv(cfg: Config, s: State, a: Action)
    requires Enabled(cfg, s, a) && Inv(cfg, s) && (s.clock >= 2 || a.Advance?)
    ensures Inv(cfg, Apply(cfg, s, a)) && Apply(cfg, s, a).clock >= 2
  {
    hide WaitingSound, DistinctAddresses, PendingNotCached, EntriesLearned, AllSentWell, Conserved, Timed, Transmitted, SpeaksArp;
    StepKeepsTransmitted(cfg, s, a);
    StepKeepsSpeaksArp(cfg, s, a);
    StepKeepsWaitingSound(cfg, s, a);
    StepKeepsDistinct(cfg, s, a);
    StepKeepsNotCached(cfg, s, a);
    StepKeepsEntriesLearned(cfg, s, a);
    StepKeepsSentWell(cfg, s, a);
    StepConserves(cfg, s, a);
    StepKeepsTimed(cfg, s, a);
  }

  /** The invariants hold after any sequence of enabled actions. */
  lemma {:induction false} LeadsKeepsInv(cfg: Config, s: State, acts: seq<Action>, t: State)
    requires Leads(cfg, s, acts, t) && Inv(cfg, s) && s.clock >= 2
    ensures Inv(cfg, t) && t.clock >= 2
    decreases |acts|
  {
    hide Enabled, Apply, Inv;
    if acts != [] {
      StepKeepsInv(cfg, s, acts[0]);
      LeadsKeepsInv(cfg, Apply(cfg, s, acts[0]), acts[1..], t);
    }
  }

  lemma InitialInv(cfg: Config)
    ensures Inv(cfg, INITIAL)
  {
    assert INITIAL.requests == [] && INITIAL.log == [];
    forall e | e in INITIAL.entries ensures !e.valid {}
  }

  lemma {:induction false} SweepLeads(cfg: Config, s: State, cur: Option<nat>) returns (acts: seq<Action>)
    requires WaitingSound(cfg, s)
    ensures Leads(cfg, s, acts, Sweep(cfg, s, cur).st) && AllInternal(acts)
    decreases |Overdue(s)|, Ahead(s, cur)
  {
    hide Enabled, Apply, WaitingSound, Handle, Overdue;
    acts := [];
    if cur.Some? && Pending(s, cur.value) {
      var b := Live(Nodes(s.requests));
      var s1 := Handle(cfg, s, cur.value, b).st;
      acts := HandleLeads(cfg, s, cur.value, b);
      if Handle(cfg, s, cur.value, b).Done? {
        SweepProgress(cfg, s, cur.value);
        LeadsKeepsWaitingSound(cfg, s, acts, s1);
        var rest := SweepLeads(cfg, s1, Next(s, cur.value));
        LeadsConcat(cfg, s, acts, s1, rest, Sweep(cfg, s, cur).st);
        acts := acts + rest;
      }
    }
  }

  /** Handling a frame, however it ends, is a sequence of enabled actions too. */
  lemma ReceiveLeads(cfg: Config, s: State, f: Frame, iface: string) returns (acts: seq<Action>)
    requires WaitingSound(cfg, s)
    ensures Leads(cfg, s, acts, Receive(cfg, s, f, iface).st)
    ensures forall i :: 0 <= i < |acts| ==> !acts[i].Advance? && !acts[i].AgeCache?
    ensures Decide(cfg, f, iface).Deliver? ==> AllInternal(acts)
  {
    hide WaitingSound, Resolve, Accept, Decide, Enabled, Apply;
    match Decide(cfg, f, iface)
    case Drop => acts := [];
    case Crash(_) => acts := [];
    case Deliver(ip, frame, out) =>
      DeliveredIsSound(cfg, f, iface);
      acts := ResolveLeads(cfg, s, ip, frame, out, Outer(s, ip));
    case Answer(frame, out) =>
      AnswersAreProper(cfg, f, iface);
      acts := [Reply(out, frame)];
      OneReply(cfg, s, out, frame);
    case Learn(ip, mac) =>
      acts := [AcceptReply(ip, mac)];
      OneAccept(cfg, s, ip, mac);
  }

  lemma OneReply(cfg: Config, s: State, iface: string, f: Frame)
    requires ProperReply(cfg, iface, f)
    ensures Leads(cfg, s, [Reply(iface, f)], Send(s, iface, f))
  {
    LeadsOne(cfg, s, Reply(iface, f));
  }

  lemma OneAccept(cfg: Config, s: State, ip: Word32, mac: Mac)
    ensures Leads(cfg, s, [AcceptReply(ip, mac)], Accept(s, ip, mac))
  {
    hide Accept;
    LeadsOne(cfg, s, AcceptReply(ip, mac));
  }

  /** An event, whether it is handled to its end or not, is the advance of the clock, then what the code does about it. */
  lemma EventLeads(cfg: Config, s: State, e: Event) returns (acts: seq<Action>)
    requires WaitingSound(cfg, s)
    ensures Leads(cfg, s.(clock := e.at), acts, Step(cfg, s, e).st)
    ensures forall i :: 0 <= i < |acts| ==> !acts[i].Advance?
    ensures e.Timer? ==> |acts| > 0 && acts[0] == AgeCache && AllInternal(acts[1..])
    ensures e.Arrival? && Decide(cfg, e.frame, e.iface).Deliver? ==> AllInternal(acts)
  {
    hide WaitingSound, Receive, Sweep, Age, Decide;
    var s0 := s.(clock := e.at);
    ClockIrrelevant(cfg, s, s0);
    match e
    case Timer(at) =>
      LeadsOne(cfg, s0, AgeCache);
      StepKeepsWaitingSound(cfg, s0, AgeCache);
      var rest := SweepLeads(cfg, Age(s0), Head(s0));
      LeadsConcat(cfg, s0, [AgeCache], Age(s0), rest, Step(cfg, s, e).st);
      acts := [AgeCache] + rest;
      assert acts[1..] == rest;
    case Arrival(at, f, iface) => acts := ReceiveLeads(cfg, s0, f, iface);
  }

  lemma ClockIrrelevant(cfg: Config, s: State, t: State)
    requires WaitingSound(cfg, s) && t.requests == s.requests
    ensures WaitingSound(cfg, t)
  {
  }

  /** What the code does about an event leaves the clock alone. */
  lemma {:induction false} LeadsKeepsClock(cfg: Config, s: State, acts: seq<Action>, t: State)
    requires Leads(cfg, s, acts, t) && forall i :: 0 <= i < |acts| ==> !acts[i].Advance?
    ensures t.clock == s.clock
    decreases |acts|
  {
    hide Sound, Lookup, IsAskFor, SendCheck, Enabled;
    if acts != [] {
      LeadsKeepsClock(cfg, Apply(cfg, s, acts[0]), acts[1..], t);
    }
  }

  lemma EventKeepsInv(cfg: Config, s: State, e: Event)
    requires Inv(cfg, s) && e.at >= s.clock && e.at >= 2
    ensures Inv(cfg, Step(cfg, s, e).st) && Step(cfg, s, e).st.clock == e.at
  {
    hide WaitingSound, DistinctAddresses, PendingNotCached, EntriesLearned, AllSentWell, Conserved, Timed, Step;
    StepKeepsInv(cfg, s, Advance(e.at));
    var acts := EventLeads(cfg, s, e);
    LeadsKeepsInv(cfg, s.(clock := e.at), acts, Step(cfg, s, e).st);
    LeadsKeepsClock(cfg, s.(clock := e.at), acts, Step(cfg, s, e).st);
  }

  lemma InvWaiting(cfg: Config, s: State)
    requires Inv(cfg, s)
    ensures WaitingSound(cfg, s)
  {
  }

  /** The time of the last event. */
  function Latest(events: seq<Event>): int {
    if events == [] then 0 else events[|events| - 1].at
  }

  /**
   * The invariants hold in every state that any run of the router reaches, also in the midst of an event that is
   * not handled to its end.
   */
  lemma {:induction false} RunIsSafe(cfg: Config, events: seq<Event>)
    requires Chronological(events)
    ensures Inv(cfg, Run(cfg, events).st) && (Run(cfg, events).Done? ==> Run(cfg, events).st.clock == Latest(events))
  {
    hide Inv, Step;
    if events == [] {
      InitialInv(cfg);
    } else {
      var n := |events| - 1;
      RunIsSafe(cfg, events[..n]);
      if Run(cfg, events[..n]).Done? {
        EventKeepsInv(cfg, Run(cfg, events[..n]).st, events[n]);
      }
    }
  }

  /** So they do however deep a recursion without end has nested. */
  lemma EveryDepthIsSafe(cfg: Config, s: State, node: nat, n: nat)
    requires Inv(cfg, s) && s.clock >= 2
    ensures Inv(cfg, Handle(cfg, s, node, Depth(n)).st)
  {
    hide Handle, DistinctAddresses, PendingNotCached, EntriesLearned, AllSentWell, Conserved, Timed, WaitingSound;
    var acts := HandleLeads(cfg, s, node, Depth(n));
    LeadsKeepsInv(cfg, s, acts, Handle(cfg, s, node, Depth(n)).st);
  }

  // ----- what that says of a run

  /** In every run, pending addresses are distinct and none of them is cached. */
  lemma PendingAddressesAreExclusive(cfg: Config, events: seq<Event>)
    requires Chronological(events)
    ensures var s := Run(cfg, events).st;
      (forall i, j :: 0 <= i < j < |s.requests| ==> s.requests[i].ip != s.requests[j].ip) &&
      (forall i, e :: 0 <= i < |s.requests| && e in s.entries && e.valid ==> e.ip != s.requests[i].ip)
  {
    hide Run;
    RunIsSafe(cfg, events);
    var s := Run(cfg, events).st;
    forall i, e | 0 <= i < |s.requests| && e in s.entries && e.valid
      ensures e.ip != s.requests[i].ip
    {
      assert !Cached(s, s.requests[i].ip);
    }
  }

  /**
   * No misdelivery: what waits for an address is addressed to it, and every IPv4 frame sent in the run went
   * to a MAC that an ARP reply accepted earlier in the run gave for the frame's destination.
   */
  lemma NoMisdelivery(cfg: Config, events: seq<Event>)
    requires Chronological(events)
    ensures var s := Run(cfg, events).st;
      (forall i, j :: 0 <= i < |s.requests| && 0 <= j < |s.requests[i].packets| ==>
         var f := s.requests[i].packets[j].frame; f.payload.Ip? && f.payload.h.dst == s.requests[i].ip) &&
      (forall i :: 0 <= i < |s.log| && s.log[i].Sent? && s.log[i].frame.payload.Ip? ==>
         LearnedBefore(s.log, i, s.log[i].frame.payload.h.dst, s.log[i].frame.dhost))
  {
    hide Run, HeaderOk, BlackListed, CleanIfaces, SendCheck;
    RunIsSafe(cfg, events);
    var s := Run(cfg, events).st;
    forall i | 0 <= i < |s.log| && s.log[i].Sent? && s.log[i].frame.payload.Ip?
      ensures LearnedBefore(s.log, i, s.log[i].frame.payload.h.dst, s.log[i].frame.dhost)
    {
      assert SentWell(cfg, s.log, i);
    }
  }

  /**
   * Every frame sent in a run passes `sr_ether_addrs_match_interface`, and every IPv4 frame sent has a header
   * that this router's own validation accepts.
   */
  lemma SentFramesPassChecks(cfg: Config, events: seq<Event>, i: nat)
    requires Chronological(events)
    requires i < |Run(cfg, events).st.log| && Run(cfg, events).st.log[i].Sent?
    ensures var l := Run(cfg, events).st.log[i];
      IfaceOf(cfg, l.iface).Some? && l.frame.shost == IfaceOf(cfg, l.iface).value.mac &&
      (l.frame.payload.Ip? ==> HeaderOk(l.frame.payload.h))
  {
    hide Run;
    RunIsSafe(cfg, events);
    assert SentWell(cfg, Run(cfg, events).st.log, i);
  }

  /**
   * Every IPv4 frame sent in a run, but for its destination MAC, is a packet that was handed over and sent at once or
   * that waited and was flushed, and the other way round, each as often.
   */
  lemma SentIsHandedOver(cfg: Config, events: seq<Event>)
    requires Chronological(events)
    ensures var s := Run(cfg, events).st; SentPackets(s.log) == BareAll(s.direct + s.flushed)
  {
    hide Run, SentPackets, BareAll;
    RunIsSafe(cfg, events);
  }

  /** Every ARP frame sent in a run is a proper request or a proper reply. */
  lemma ArpFramesAreProper(cfg: Config, events: seq<Event>, i: nat)
    requires Chronological(events)
    requires var log := Run(cfg, events).st.log; i < |log| && log[i].Sent? && log[i].frame.payload.Arp?
    ensures var l := Run(cfg, events).st.log[i];
      if l.frame.payload.a.op == 1 then ProperRequest(cfg, l.iface, l.frame) else ProperReply(cfg, l.iface, l.frame)
  {
    hide Run;
    RunIsSafe(cfg, events);
  }

  /** With no interface in 10.0.2.0/24, no IPv4 frame from or to that network is ever queued or sent. */
  lemma BlockedNetworkStaysOut(cfg: Config, events: seq<Event>)
    requires Chronological(events)
    requires forall i :: 0 <= i < |cfg.ifaces| ==> !(0x0a00_0200 <= cfg.ifaces[i].ip <= 0x0a00_02ff)
    ensures var s := Run(cfg, events).st;
      (forall i :: 0 <= i < |s.log| && s.log[i].Sent? && s.log[i].frame.payload.Ip? ==> OutsideBlock(s.log[i].frame)) &&
      (forall i, j :: 0 <= i < |s.requests| && 0 <= j < |s.requests[i].packets| ==>
         s.requests[i].packets[j].frame.payload.Ip? && OutsideBlock(s.requests[i].packets[j].frame))
  {
    hide Run, HeaderOk, SendCheck, Blocked, Timed;
    RunIsSafe(cfg, events);
    var s := Run(cfg, events).st;
    assert CleanIfaces(cfg) by {
      forall i | 0 <= i < |cfg.ifaces| ensures !Blocked(cfg.ifaces[i].ip) { BlockedRange(cfg.ifaces[i].ip); }
    }
    forall i | 0 <= i < |s.log| && s.log[i].Sent? && s.log[i].frame.payload.Ip?
      ensures OutsideBlock(s.log[i].frame)
    {
      assert SentWell(cfg, s.log, i);
      BlockedRange(s.log[i].frame.payload.h.src);
      BlockedRange(s.log[i].frame.payload.h.dst);
    }
    forall i, j | 0 <= i < |s.requests| && 0 <= j < |s.requests[i].packets|
      ensures s.requests[i].packets[j].frame.payload.Ip? && OutsideBlock(s.requests[i].packets[j].frame)
    {
      var p := s.requests[i].packets[j];
      assert Sound(cfg, s.requests[i].ip, p.frame, p.iface);
      BlockedRange(p.frame.payload.h.src);
      BlockedRange(p.frame.payload.h.dst);
    }
  }

  predicate OutsideBlock(f: Frame)
    requires f.payload.Ip?
  {
    !(0x0a00_0200 <= f.payload.h.src <= 0x0a00_02ff) && !(0x0a00_0200 <= f.payload.h.dst <= 0x0a00_02ff)
  }

  /** Rate limit: without a reply in between, ARP requests for one address are at least two seconds apart. */
  lemma AsksAreRateLimited(cfg: Config, events: seq<Event>, ip: Word32, i: nat, j: nat)
    requires Chronological(events)
    requires var log := Run(cfg, events).st.log;
      i < j < |log| && AsksAt(log[i], ip) && AsksAt(log[j], ip) && forall k :: i < k < j ==> !LearnsAt(log[k], ip)
    ensures var log := Run(cfg, events).st.log; log[j].at - log[i].at >= 2
  {
    hide Run;
    RunIsSafe(cfg, events);
  }

  /** Five ARP requests, and at least ten seconds, before a request is given up. */
  lemma GivenUpOnlyAfterFiveAsks(cfg: Config, events: seq<Event>, k: nat)
    requires Chronological(events)
    requires k < |Run(cfg, events).st.log| && Run(cfg, events).st.log[k].GaveUp?
    ensures var log := Run(cfg, events).st.log;
      log[k].at >= log[k].born + 10 && log[k].since <= k && CountAsks(log[..k], log[k].since, log[k].ip) == 5
  {
    hide Run;
    RunIsSafe(cfg, events);
    assert GivenUpInTime(Run(cfg, events).st.log, k);
  }

  // ----- the cache

  /** A tick invalidates exactly the entries older than fifteen seconds and touches nothing else of the cache. */
  lemma CacheAfterTick(cfg: Config, s: State, e: Event)
    requires e.Timer? && WaitingSound(cfg, s)
    ensures var t := Step(cfg, s, e).st;
      forall i :: 0 <= i < |s.entries| ==>
        t.entries[i].valid == (s.entries[i].valid && e.at - s.entries[i].added <= 15) &&
        t.entries[i].(valid := true) == s.entries[i].(valid := true)
  {
    hide WaitingSound, Step, Leads;
    var s0, t := s.(clock := e.at), Step(cfg, s, e).st;
    var acts := EventLeads(cfg, s, e);
    LeadsFirst(cfg, s0, acts, t);
    InternalKeeps(cfg, Age(s0), acts[1..], t);
  }

  lemma LeadsFirst(cfg: Config, s: State, acts: seq<Action>, t: State)
    requires Leads(cfg, s, acts, t) && |acts| > 0 && acts[0] == AgeCache
    ensures Leads(cfg, Age(s), acts[1..], t)
  {
  }

  /**
   * In every run, a lookup succeeds exactly for the addresses of valid entries, and what it returns was given
   * for that address by an ARP reply accepted in the run.
   */
  lemma LookupIsTruthful(cfg: Config, events: seq<Event>, ip: Word32)
    requires Chronological(events)
    ensures var s := Run(cfg, events).st;
      (Lookup(s.entries, ip).Some? <==> exists e :: e in s.entries && e.valid && e.ip == ip) &&
      (Lookup(s.entries, ip).Some? ==> LearnedBefore(s.log, |s.log|, ip, Lookup(s.entries, ip).value.mac))
  {
    hide Run;
    RunIsSafe(cfg, events);
  }

  /** A lookup sees the last slots first. */
  lemma {:induction false} LookupSplit(a: seq<Entry>, b: seq<Entry>, ip: Word32)
    ensures Lookup(a + b, ip) == if Lookup(b, ip).Some? then Lookup(b, ip) else Lookup(a, ip)
    decreases |b|
  {
    if b == [] {
      assert a + b == a;
    } else {
      var n := |b| - 1;
      assert (a + b)[..|a + b| - 1] == a + b[..n];
      LookupSplit(a, b[..n], ip);
    }
  }

  lemma LookupOne(e: Entry)
    requires e.valid
    ensures Lookup([e], e.ip) == Some(e)
  {
  }

  /**
   * An accepted mapping is what the next lookup returns if and only if there is a free slot for it and no valid
   * entry for the address behind that slot says otherwise: an older duplicate there goes on being used. With no
   * free slot the mapping is dropped, and a lookup returns it only if it was there already.
   */
  lemma AcceptedMappingIsSeenIff(entries: seq<Entry>, ip: Word32, mac: Mac, now: int)
    ensures var i, e := FirstFree(entries), Entry(mac, ip, now, true);
      Lookup(Store(entries, ip, mac, now), ip) == Some(e) <==>
        if i < |entries| then Lookup(entries[i + 1..], ip) in {None, Some(e)} else Lookup(entries, ip) == Some(e)
  {
    hide Lookup, FirstFree;
    var i, e := FirstFree(entries), Entry(mac, ip, now, true);
    if i < |entries| {
      assert Store(entries, ip, mac, now) == entries[..i] + [e] + entries[i + 1..];
      LookupSplit(entries[..i] + [e], entries[i + 1..], ip);
      LookupSplit(entries[..i], [e], ip);
      LookupOne(e);
    }
  }

  /** A reply to a pending request is always seen, if there is room: the address was not cached. */
  lemma SolicitedMappingIsSeen(s: State, ip: Word32, mac: Mac)
    requires PendingNotCached(s) && IpIndex(s.requests, ip) < |s.requests| && FirstFree(s.entries) < |s.entries|
    ensures Lookup(Accept(s, ip, mac).entries, ip) == Some(Entry(mac, ip, s.clock, true))
  {
    hide FlushLog;
    assert !Cached(s, ip);
    var i := FirstFree(s.entries);
    assert forall e :: e in s.entries[i + 1..] ==> e in s.entries;
    AcceptedMappingIsSeenIff(s.entries, ip, mac, s.clock);
  }
}
