/** Where the mappings in the cache come from, and where requests go. */
module Provenance {
  import opened Words
  import opened Routing
  import opened Forwarding
  import opened Arp
  import opened Router
  import opened Actions
  import opened Runs

  // ----- every mapping was heard

  /** The event is the arrival of an ARP reply, to the address of the interface it came in on, that `ip` is at `mac`. */
  ghost predicate Heard(cfg: Config, e: Event, at: int, ip: Word32, mac: Mac) {
    e.Arrival? && e.at == at && ForUs(cfg, e.frame, e.iface) && e.frame.payload.a.op == 2 &&
    e.frame.payload.a.sip == ip && e.frame.payload.a.sha == mac
  }

  /** `t` adds to the log of `s`, but no mapping. */
  ghost predicate LearnsNothing(s: State, t: State) {
    s.log <= t.log && forall k :: |s.log| <= k < |t.log| ==> !t.log[k].Learned?
  }

  lemma ActionLearnsNothing(cfg: Config, s: State, a: Action)
    requires Enabled(cfg, s, a) && !a.AcceptReply?
    ensures LearnsNothing(s, Apply(cfg, s, a))
  {
    hide Sound, Lookup, IsAskFor, ProperRequest, ProperReply, NodeIndex, Aged;
  }

  lemma {:induction false} LeadsLearnsNothing(cfg: Config, s: State, acts: seq<Action>, t: State)
    requires Leads(cfg, s, acts, t) && forall i :: 0 <= i < |acts| ==> !acts[i].AcceptReply?
    ensures LearnsNothing(s, t)
    decreases |acts|
  {
    hide Enabled, Apply;
    if acts != [] {
      ActionLearnsNothing(cfg, s, acts[0]);
      LeadsLearnsNothing(cfg, Apply(cfg, s, acts[0]), acts[1..], t);
    }
  }

  /** What an event adds to the log is learned from its own frame. */
  lemma EventLearns(cfg: Config, s: State, e: Event)
    requires WaitingSound(cfg, s)
    ensures var t := Step(cfg, s, e).st;
      s.log <= t.log && forall k :: |s.log| <= k < |t.log| && t.log[k].Learned? ==> Heard(cfg, e, t.log[k].at, t.log[k].ip, t.log[k].mac)
  {
    hide WaitingSound, Resolve, Sweep, Decide, Leads, ForUs, Store;
    var s0, t := s.(clock := e.at), Step(cfg, s, e).st;
    if e.Arrival? {
      WhoIsAnswered(cfg, e.frame, e.iface);
    }
    if e.Timer? || Decide(cfg, e.frame, e.iface).Deliver? {
      var acts := EventLeads(cfg, s, e);
      if e.Timer? {
        forall i | 0 <= i < |acts| ensures !acts[i].AcceptReply? {
          assert i > 0 ==> acts[i] == acts[1..][i - 1];
        }
      }
      LeadsLearnsNothing(cfg, s0, acts, t);
    }
  }

  ghost predicate AllHeard(cfg: Config, events: seq<Event>, log: seq<Log>) {
    forall k :: 0 <= k < |log| && log[k].Learned? ==> exists e :: e in events && Heard(cfg, e, log[k].at, log[k].ip, log[k].mac)
  }

  lemma HeardMore(cfg: Config, events: seq<Event>, log: seq<Log>, e: Event, more: seq<Log>)
    requires AllHeard(cfg, events, log) && log <= more
    requires forall k :: |log| <= k < |more| && more[k].Learned? ==> Heard(cfg, e, more[k].at, more[k].ip, more[k].mac)
    ensures AllHeard(cfg, events + [e], more)
  {
    hide Heard;
    forall k | 0 <= k < |more| && more[k].Learned?
      ensures exists d :: d in events + [e] && Heard(cfg, d, more[k].at, more[k].ip, more[k].mac)
    {
      if k < |log| {
        assert more[k] == log[k];
        var d :| d in events && Heard(cfg, d, log[k].at, log[k].ip, log[k].mac);
        assert d in events + [e];
      } else {
        assert e in events + [e];
      }
    }
  }

  /** Every mapping learned in a run was heard in it. */
  lemma {:induction false} RunLearns(cfg: Config, events: seq<Event>)
    requires Chronological(events)
    ensures AllHeard(cfg, events, Run(cfg, events).st.log)
  {
    hide Step, Inv, Heard;
    if events == [] {
      assert INITIAL.log == [];
    } else {
      hide AllHeard;
      var n := |events| - 1;
      var o := Run(cfg, events[..n]);
      RunLearns(cfg, events[..n]);
      assert events == events[..n] + [events[n]];
      if o.Done? {
        RunIsSafe(cfg, events[..n]);
        InvWaiting(cfg, o.st);
        EventLearns(cfg, o.st, events[n]);
        HeardMore(cfg, events[..n], o.st.log, events[n], Step(cfg, o.st, events[n]).st.log);
      } else {
        HeardMore(cfg, events[..n], o.st.log, events[n], o.st.log);
      }
    }
  }

  /**
   * From end to end: every IPv4 frame sent in a run went to a MAC for which an ARP reply arrived in that run, saying
   * that the destination of the frame is there, at or before the time of sending.
   */
  lemma EveryMacWasHeard(cfg: Config, events: seq<Event>, i: nat)
    requires Chronological(events)
    requires var log := Run(cfg, events).st.log; i < |log| && log[i].Sent? && log[i].frame.payload.Ip?
    ensures var l := Run(cfg, events).st.log[i];
      exists e :: e in events && e.at <= l.at && Heard(cfg, e, e.at, l.frame.payload.h.dst, l.frame.dhost)
  {
    hide Run;
    var log := Run(cfg, events).st.log;
    NoMisdelivery(cfg, events);
    RunLearns(cfg, events);
    LogIsMonotone(cfg, events);
    var k :| 0 <= k < i && log[k].Learned? && log[k].ip == log[i].frame.payload.h.dst && log[k].mac == log[i].frame.dhost;
    var e :| e in events && Heard(cfg, e, log[k].at, log[k].ip, log[k].mac);
  }

  lemma LogIsMonotone(cfg: Config, events: seq<Event>)
    requires Chronological(events)
    ensures var log := Run(cfg, events).st.log; forall i, j :: 0 <= i < j < |log| ==> log[i].at <= log[j].at
  {
    hide Run;
    RunIsSafe(cfg, events);
  }

  // ----- every request that goes is accounted for

  /** A mapping for the address of the request was accepted, or this very request given up. */
  predicate Ends(l: Log, r: Request) {
    (l.Learned? && l.ip == r.ip) || (l.GaveUp? && l.ip == r.ip && l.born == r.born && l.since == r.since)
  }

  /** The log of `t` beyond that of `s` says that the request ended. */
  ghost predicate Closes(s: State, t: State, r: Request) {
    s.log <= t.log && exists k :: |s.log| <= k < |t.log| && Ends(t.log[k], r)
  }

  /** Requests that are there in both are the same request; those that are gone were closed. */
  ghost predicate Tracked(s: State, t: State) {
    s.log <= t.log &&
    forall i :: 0 <= i < |s.requests| ==>
      var r := s.requests[i];
      Closes(s, t, r) || exists j :: 0 <= j < |t.requests| && SameRequest(r, t.requests[j])
  }

  predicate SameRequest(q: Request, r: Request) {
    r.node == q.node && r.ip == q.ip && r.born == q.born && r.since == q.since
  }

  lemma KeptTracked(s: State, t: State)
    requires s.log <= t.log && |s.requests| <= |t.requests|
    requires forall i :: 0 <= i < |s.requests| ==> SameRequest(s.requests[i], t.requests[i])
    ensures Tracked(s, t)
  {
  }

  lemma GiveUpTracked(s: State, node: nat)
    requires Pending(s, node)
    ensures Tracked(s, GiveUp(s, node))
  {
    var t, n, r := GiveUp(s, node), NodeIndex(s.requests, node), Req(s, node);
    assert t.log[|s.log|] == GaveUp(s.clock, r.ip, r.born, r.since);
    forall i | 0 <= i < |s.requests| && i != n ensures exists j :: 0 <= j < |t.requests| && SameRequest(s.requests[i], t.requests[j]) {
      var j := if i < n then i else i - 1;
      assert t.requests[j] == s.requests[i];
    }
  }

  lemma AcceptTracked(s: State, ip: Word32, mac: Mac)
    ensures Tracked(s, Accept(s, ip, mac))
  {
    hide Store, FlushLog;
    var t, n := Accept(s, ip, mac), IpIndex(s.requests, ip);
    assert t.log[|s.log|] == Learned(s.clock, ip, mac);
    forall i | 0 <= i < |s.requests| && i != n ensures exists j :: 0 <= j < |t.requests| && SameRequest(s.requests[i], t.requests[j]) {
      var j := if i < n then i else i - 1;
      assert t.requests[j] == s.requests[i];
    }
  }

  lemma ActionTracked(cfg: Config, s: State, a: Action)
    requires Enabled(cfg, s, a)
    ensures Tracked(s, Apply(cfg, s, a))
  {
    hide Tracked, Sound, Lookup, IsAskFor, ProperRequest, ProperReply, Accept, GiveUp;
    match a
    case AcceptReply(ip, mac) => AcceptTracked(s, ip, mac);
    case Abandon(node) => GiveUpTracked(s, node);
    case _ => KeptTracked(s, Apply(cfg, s, a));
  }

  lemma TrackedTransitive(s: State, t: State, u: State)
    requires Tracked(s, t) && Tracked(t, u)
    ensures Tracked(s, u)
  {
    forall i | 0 <= i < |s.requests|
      ensures Closes(s, u, s.requests[i]) || exists j :: 0 <= j < |u.requests| && SameRequest(s.requests[i], u.requests[j])
    {
      if Closes(s, t, s.requests[i]) {
        ClosesLater(s, t, u, s.requests[i]);
      } else {
        var j :| 0 <= j < |t.requests| && SameRequest(s.requests[i], t.requests[j]);
        if Closes(t, u, t.requests[j]) {
          ClosesEarlier(s, t, u, s.requests[i], t.requests[j]);
        }
      }
    }
  }

  lemma ClosesLater(s: State, t: State, u: State, r: Request)
    requires Closes(s, t, r) && t.log <= u.log
    ensures Closes(s, u, r)
  {
    var k :| |s.log| <= k < |t.log| && Ends(t.log[k], r);
    assert u.log[k] == t.log[k];
  }

  lemma ClosesEarlier(s: State, t: State, u: State, q: Request, r: Request)
    requires Closes(t, u, r) && s.log <= t.log && SameRequest(q, r)
    ensures Closes(s, u, q)
  {
  }

  lemma {:induction false} LeadsTracked(cfg: Config, s: State, acts: seq<Action>, t: State)
    requires Leads(cfg, s, acts, t)
    ensures Tracked(s, t)
    decreases |acts|
  {
    hide Enabled, Apply, Tracked;
    if acts == [] {
      SelfTracked(s);
    } else {
      var s1 := Apply(cfg, s, acts[0]);
      ActionTracked(cfg, s, acts[0]);
      LeadsTracked(cfg, s1, acts[1..], t);
      TrackedTransitive(s, s1, t);
    }
  }

  lemma SelfTracked(s: State)
    ensures Tracked(s, s)
  {
    KeptTracked(s, s);
  }

  /**
   * No request is lost: after any event, however it ends, a request that was pending is pending still, or a mapping for
   * its address was accepted, or it was given up, and the log says so.
   */
  lemma NoRequestIsLost(cfg: Config, s: State, e: Event)
    requires WaitingSound(cfg, s)
    ensures Tracked(s, Step(cfg, s, e).st)
  {
    hide WaitingSound, Step, Leads;
    var s0 := s.(clock := e.at);
    var acts := EventLeads(cfg, s, e);
    LeadsTracked(cfg, s0, acts, Step(cfg, s, e).st);
    ClockTracked(s, s0, Step(cfg, s, e).st);
  }

  lemma ClockTracked(s: State, s0: State, t: State)
    requires s0 == s.(clock := s0.clock) && Tracked(s0, t)
    ensures Tracked(s, t)
  {
    forall i | 0 <= i < |s.requests| && Closes(s0, t, s0.requests[i]) ensures Closes(s, t, s.requests[i]) {
    }
  }
}
