/** How often and for how long the router asks for an address. */
module Timing {
  import opened Words
  import opened Routing
  import opened Frames
  import opened Forwarding
  import opened Arp
  import opened Actions
  import opened Safety

  predicate AsksAt(l: Log, ip: Word32) {
    l.Sent? && IsAskFor(l.frame, ip)
  }

  predicate LearnsAt(l: Log, ip: Word32) {
    l.Learned? && l.ip == ip
  }

  /** The number of ARP requests for `ip` in the log from position `since` on. */
  function CountAsks(log: seq<Log>, since: nat, ip: Word32): nat {
    if |log| <= since then 0
    else
      var last := if AsksAt(log[|log| - 1], ip) then 1 else 0;
      CountAsks(log[..|log| - 1], since, ip) + last
  }

  /** The time of the last ARP request for `ip`, if no reply for `ip` was accepted after it. */
  function LastAsk(log: seq<Log>, ip: Word32): Option<int> {
    if log == [] then None
    else
      var l := log[|log| - 1];
      if AsksAt(l, ip) then Some(l.at)
      else if LearnsAt(l, ip) then None
      else LastAsk(log[..|log| - 1], ip)
  }

  lemma Appended(log: seq<Log>, l: Log, since: nat, ip: Word32)
    ensures since <= |log| ==>
              CountAsks(log + [l], since, ip) == CountAsks(log, since, ip) + if AsksAt(l, ip) then 1 else 0
    ensures LastAsk(log + [l], ip)
         == if AsksAt(l, ip) then Some(l.at) else if LearnsAt(l, ip) then None else LastAsk(log, ip)
  {
    assert (log + [l])[..|log|] == log;
  }

  /** Entries about other addresses change neither. */
  lemma {:induction false} AppendedQuietly(log: seq<Log>, more: seq<Log>, since: nat, ip: Word32)
    requires since <= |log|
    requires forall i :: 0 <= i < |more| ==> !AsksAt(more[i], ip) && !LearnsAt(more[i], ip)
    ensures CountAsks(log + more, since, ip) == CountAsks(log, since, ip)
    ensures LastAsk(log + more, ip) == LastAsk(log, ip)
    decreases |more|
  {
    if more == [] {
      assert log + more == log;
    } else {
      var n := |more| - 1;
      AppendedQuietly(log, more[..n], since, ip);
      assert log + more == log + more[..n] + [more[n]];
      Appended(log + more[..n], more[n], since, ip);
    }
  }

  // ----- what a pending request knows about the past

  ghost predicate RequestTimed(s: State, r: Request) {
    r.since <= |s.log| && r.timesSent <= MAX_ASKS && r.born <= s.clock &&
    CountAsks(s.log, r.since, r.ip) == r.timesSent &&
    (r.timesSent == 0 ==> r.sent == 0) &&
    (r.timesSent > 0 ==> r.sent <= s.clock && r.sent >= r.born + 2 * (r.timesSent - 1) && LastAsk(s.log, r.ip) == Some(r.sent))
  }

  ghost predicate RequestsTimed(s: State) {
    forall i :: 0 <= i < |s.requests| ==> RequestTimed(s, s.requests[i])
  }

  ghost predicate AskedPending(s: State, ip: Word32) {
    exists i :: 0 <= i < |s.requests| && s.requests[i].ip == ip && s.requests[i].timesSent > 0
  }

  /** An ARP request that is not answered and whose record is gone lies more than a second back. */
  ghost predicate OldAsksRest(s: State) {
    forall ip :: LastAsk(s.log, ip).Some? ==> AskedPending(s, ip) || LastAsk(s.log, ip).value + 1 < s.clock
  }

  ghost predicate LogMonotone(s: State) {
    (forall i :: 0 <= i < |s.log| ==> s.log[i].at <= s.clock) &&
    (forall i, j :: 0 <= i < j < |s.log| ==> s.log[i].at <= s.log[j].at)
  }

  /** Two ARP requests for one address with no accepted reply in between are at least two seconds apart. */
  ghost predicate RateLimited(log: seq<Log>) {
    forall ip, i, j :: 0 <= i < j < |log| && AsksAt(log[i], ip) && AsksAt(log[j], ip) ==>
      log[j].at - log[i].at >= 2 || RepliedBetween(log, ip, i, j)
  }

  ghost predicate RepliedBetween(log: seq<Log>, ip: Word32, i: nat, j: nat)
    requires i < j < |log|
  {
    exists k :: i < k < j && LearnsAt(log[k], ip)
  }

  /** A request is given up after exactly five ARP requests and no sooner than ten seconds after its creation. */
  ghost predicate GivenUpInTime(log: seq<Log>, k: nat)
    requires k < |log|
  {
    log[k].GaveUp? ==>
      log[k].at >= log[k].born + 10 && log[k].since <= k && CountAsks(log[..k], log[k].since, log[k].ip) == MAX_ASKS
  }

  ghost predicate AllGivenUpInTime(s: State) {
    forall k :: 0 <= k < |s.log| ==> GivenUpInTime(s.log, k)
  }

  ghost predicate Timed(s: State) {
    RequestsTimed(s) && OldAsksRest(s) && LogMonotone(s) && RateLimited(s.log) && AllGivenUpInTime(s)
  }

  /** An unanswered ARP request is not later than the one `LastAsk` finds. */
  lemma {:induction false} LastAskCovers(log: seq<Log>, ip: Word32, i: nat)
    requires i < |log| && AsksAt(log[i], ip)
    requires forall k :: i < k < |log| ==> !LearnsAt(log[k], ip)
    requires forall k :: i < k < |log| ==> log[i].at <= log[k].at
    ensures LastAsk(log, ip).Some? && log[i].at <= LastAsk(log, ip).value
    decreases |log|
  {
    var n := |log| - 1;
    if i < n && !AsksAt(log[n], ip) {
      LastAskCovers(log[..n], ip, i);
    }
  }

  // ----- what each effect does to the log

  lemma AppendedRateLimited(log: seq<Log>, l: Log, now: int)
    requires RateLimited(log) && l.at == now
    requires forall i, j :: 0 <= i < j < |log| ==> log[i].at <= log[j].at
    requires forall ip :: AsksAt(l, ip) && LastAsk(log, ip).Some? ==> LastAsk(log, ip).value + 1 < now
    ensures RateLimited(log + [l])
  {
    var more := log + [l];
    forall ip, i, j | 0 <= i < j < |more| && AsksAt(more[i], ip) && AsksAt(more[j], ip)
      ensures more[j].at - more[i].at >= 2 || RepliedBetween(more, ip, i, j)
    {
      if j < |log| {
        if RepliedBetween(log, ip, i, j) {
          var k :| i < k < j && LearnsAt(log[k], ip);
          assert LearnsAt(more[k], ip);
        }
      } else if !RepliedBetween(more, ip, i, j) {
        forall k | i < k < |log| ensures !LearnsAt(log[k], ip) {
          assert more[k] == log[k];
        }
        LastAskCovers(log, ip, i);
      }
    }
  }

  lemma AppendedGivenUp(log: seq<Log>, l: Log)
    requires forall k :: 0 <= k < |log| ==> GivenUpInTime(log, k)
    requires l.GaveUp? ==> l.at >= l.born + 10 && l.since <= |log| && CountAsks(log, l.since, l.ip) == MAX_ASKS
    ensures forall k :: 0 <= k < |log + [l]| ==> GivenUpInTime(log + [l], k)
  {
    forall k | 0 <= k < |log + [l]|
      ensures GivenUpInTime(log + [l], k)
    {
      if k < |log| {
        assert GivenUpInTime(log, k);
        assert (log + [l])[..k] == log[..k];
      } else {
        assert (log + [l])[..k] == log;
      }
    }
  }

  /** Entries that are neither ARP requests nor give-ups. */
  lemma {:induction false} AppendedNeutral(log: seq<Log>, more: seq<Log>, now: int)
    requires forall i :: 0 <= i < |more| ==> more[i].at == now && !more[i].GaveUp? && forall ip :: !AsksAt(more[i], ip)
    requires RateLimited(log) && forall k :: 0 <= k < |log| ==> GivenUpInTime(log, k)
    requires forall i, j :: 0 <= i < j < |log| ==> log[i].at <= log[j].at
    requires forall i :: 0 <= i < |log| ==> log[i].at <= now
    ensures RateLimited(log + more) && forall k :: 0 <= k < |log + more| ==> GivenUpInTime(log + more, k)
    ensures forall i, j :: 0 <= i < j < |log + more| ==> (log + more)[i].at <= (log + more)[j].at
    ensures forall i :: 0 <= i < |log + more| ==> (log + more)[i].at <= now
    decreases |more|
  {
    hide RateLimited, GivenUpInTime;
    if more == [] {
      assert log + more == log;
    } else {
      var n := |more| - 1;
      AppendedNeutral(log, more[..n], now);
      assert log + more == log + more[..n] + [more[n]];
      AppendedRateLimited(log + more[..n], more[n], now);
      AppendedGivenUp(log + more[..n], more[n]);
    }
  }

  // ----- each effect keeps the books

  lemma TransmitTimed(s: State, iface: string, f: Frame)
    requires Timed(s) && forall ip :: !IsAskFor(f, ip)
    ensures Timed(Send(s, iface, f))
  {
    hide RateLimited, GivenUpInTime, CountAsks, LastAsk, IsAskFor;
    var t := Send(s, iface, f);
    var l := Sent(s.clock, iface, f);
    assert forall ip :: AsksAt(l, ip) == IsAskFor(f, ip);
    AppendedNeutral(s.log, [l], s.clock);
    forall ip ensures LastAsk(t.log, ip) == LastAsk(s.log, ip) { Appended(s.log, l, 0, ip); }
    forall i | 0 <= i < |t.requests| ensures RequestTimed(t, t.requests[i]) {
      assert RequestTimed(s, s.requests[i]);
      Appended(s.log, l, s.requests[i].since, s.requests[i].ip);
    }
    assert OldAsksRest(t) by {
      forall ip | LastAsk(t.log, ip).Some? && AskedPending(s, ip) ensures AskedPending(t, ip) {}
    }
  }

  lemma AdvanceTimed(s: State, to: int)
    requires Timed(s) && to >= s.clock
    ensures Timed(s.(clock := to))
  {
    hide RateLimited, GivenUpInTime, CountAsks, LastAsk;
    var t := s.(clock := to);
    forall ip | AskedPending(s, ip) ensures AskedPending(t, ip) {}
    forall i | 0 <= i < |t.requests| ensures RequestTimed(t, t.requests[i]) {
      assert RequestTimed(s, s.requests[i]);
    }
  }

  /** Neither the entries nor the histories of packets matter. */
  lemma UnrelatedTimed(s: State, t: State)
    requires Timed(s) && t.requests == s.requests && t.log == s.log && t.clock == s.clock
    ensures Timed(t)
  {
    hide RateLimited, GivenUpInTime, CountAsks, LastAsk;
    forall ip | AskedPending(s, ip) ensures AskedPending(t, ip) {}
    forall i | 0 <= i < |t.requests| ensures RequestTimed(t, t.requests[i]) {
      assert RequestTimed(s, s.requests[i]);
    }
  }

  lemma EnqueueTimed(s: State, ip: Word32, p: Packet)
    requires Timed(s)
    ensures Timed(Enqueue(s, ip, p))
  {
    hide RateLimited, GivenUpInTime, LastAsk;
    var t := Enqueue(s, ip, p);
    forall a | AskedPending(s, a) ensures AskedPending(t, a) {
      var i :| 0 <= i < |s.requests| && s.requests[i].ip == a && s.requests[i].timesSent > 0;
      assert t.requests[i].ip == a && t.requests[i].timesSent > 0;
    }
    forall i | 0 <= i < |t.requests| ensures RequestTimed(t, t.requests[i]) {
      if i < |s.requests| {
        assert RequestTimed(s, s.requests[i]);
      }
    }
  }

  lemma GiveUpTimed(s: State, node: nat)
    requires Timed(s) && Pending(s, node) && Hopeless(Req(s, node), s.clock)
    ensures Timed(GiveUp(s, node))
  {
    hide RateLimited, GivenUpInTime, CountAsks, LastAsk, RequestTimed, AskedPending;
    var t, r, n := GiveUp(s, node), Req(s, node), NodeIndex(s.requests, node);
    var l := GaveUp(s.clock, r.ip, r.born, r.since);
    GivenUpBook(s, r);
    AppendedRateLimited(s.log, l, s.clock);
    AppendedGivenUp(s.log, l);
    forall ip ensures LastAsk(t.log, ip) == LastAsk(s.log, ip) { Appended(s.log, l, 0, ip); }
    forall i | 0 <= i < |t.requests| ensures RequestTimed(t, t.requests[i]) {
      var k := if i < n then i else i + 1;
      assert t.requests[i] == s.requests[k];
      RequestSurvives(s, t, s.requests[k], l);
    }
    forall ip | LastAsk(t.log, ip).Some? && AskedPending(s, ip)
      ensures AskedPending(t, ip) || LastAsk(t.log, ip).value + 1 < t.clock
    {
      if ip != r.ip {
        AskedSurvivesGiveUp(s, node, ip);
      }
    }
  }

  lemma GivenUpBook(s: State, r: Request)
    requires RequestTimed(s, r) && Hopeless(r, s.clock)
    ensures s.clock >= r.born + 10 && r.since <= |s.log| && CountAsks(s.log, r.since, r.ip) == MAX_ASKS
    ensures LastAsk(s.log, r.ip).Some? && LastAsk(s.log, r.ip).value + 1 < s.clock
  {
  }

  lemma RequestSurvives(s: State, t: State, r: Request, l: Log)
    requires RequestTimed(s, r) && l.GaveUp? && t.clock == s.clock && t.log == s.log + [l]
    ensures RequestTimed(t, r)
  {
    hide CountAsks, LastAsk;
    Appended(s.log, l, r.since, r.ip);
  }

  lemma AskedSurvivesGiveUp(s: State, node: nat, ip: Word32)
    requires Pending(s, node) && AskedPending(s, ip) && ip != Req(s, node).ip
    ensures AskedPending(GiveUp(s, node), ip)
  {
    var t, n := GiveUp(s, node), NodeIndex(s.requests, node);
    var i :| 0 <= i < |s.requests| && s.requests[i].ip == ip && s.requests[i].timesSent > 0;
    var k := if i < n then i else i - 1;
    assert t.requests[k] == s.requests[i];
  }

  lemma AskTimed(s: State, node: nat, iface: string, f: Frame)
    requires Timed(s) && DistinctAddresses(s) && s.clock >= 2
    requires Pending(s, node) && Due(Req(s, node), s.clock) && Req(s, node).timesSent < MAX_ASKS && IsAskFor(f, Req(s, node).ip)
    ensures Timed(Ask(s, node, iface, f))
  {
    hide RateLimited, GivenUpInTime, CountAsks, LastAsk;
    var t, r, n := Ask(s, node, iface, f), Req(s, node), NodeIndex(s.requests, node);
    var l := Sent(s.clock, iface, f);
    assert forall ip :: AsksAt(l, ip) <==> ip == r.ip;
    assert RequestTimed(s, r);
    LastAskRests(s, n);
    AppendedRateLimited(s.log, l, s.clock);
    AppendedGivenUp(s.log, l);
    forall ip ensures LastAsk(t.log, ip) == if ip == r.ip then Some(s.clock) else LastAsk(s.log, ip) {
      Appended(s.log, l, 0, ip);
    }
    forall i | 0 <= i < |t.requests| ensures RequestTimed(t, t.requests[i]) {
      assert RequestTimed(s, s.requests[i]);
      Appended(s.log, l, s.requests[i].since, s.requests[i].ip);
    }
    forall ip | AskedPending(s, ip) || ip == r.ip ensures AskedPending(t, ip) {
      if ip == r.ip {
        assert t.requests[n].ip == ip && t.requests[n].timesSent > 0;
      } else {
        var i :| 0 <= i < |s.requests| && s.requests[i].ip == ip && s.requests[i].timesSent > 0;
        assert t.requests[i] == s.requests[i];
      }
    }
  }

  /** When a request is due, its address was last asked for more than a second ago. */
  lemma LastAskRests(s: State, n: nat)
    requires Timed(s) && DistinctAddresses(s) && n < |s.requests| && Due(s.requests[n], s.clock)
    ensures var ip := s.requests[n].ip; LastAsk(s.log, ip).Some? ==> LastAsk(s.log, ip).value + 1 < s.clock
  {
    hide RateLimited, GivenUpInTime, CountAsks, LastAsk;
    var ip := s.requests[n].ip;
    if LastAsk(s.log, ip).Some? && AskedPending(s, ip) {
      var i :| 0 <= i < |s.requests| && s.requests[i].ip == ip && s.requests[i].timesSent > 0;
      assert i == n;
      assert RequestTimed(s, s.requests[n]);
    }
  }

  lemma AcceptTimed(cfg: Config, s: State, ip: Word32, mac: Mac)
    requires Timed(s) && DistinctAddresses(s) && WaitingSound(cfg, s)
    ensures Timed(Accept(s, ip, mac))
  {
    hide RateLimited, GivenUpInTime, CountAsks, LastAsk, Sound, Store, RequestTimed, AskedPending, FlushLog;
    var t, n := Accept(s, ip, mac), IpIndex(s.requests, ip);
    var flush := if n < |s.requests| then FlushLog(s.requests[n].packets, mac, s.clock) else [];
    var l := Learned(s.clock, ip, mac);
    assert t.log == s.log + ([l] + flush);
    FlushIsNeutral(cfg, s, n, mac, flush);
    AppendedNeutral(s.log, [l] + flush, s.clock);
    forall a ensures LastAsk(t.log, a) == if a == ip then None else LastAsk(s.log, a) {
      RepliedLog(s.log, l, flush, 0, a);
    }
    forall i | 0 <= i < |t.requests| ensures RequestTimed(t, t.requests[i]) {
      var k := if i < n then i else i + 1;
      assert t.requests[i] == s.requests[k] && s.requests[k].ip != ip;
      RequestSurvivesReply(s, t, s.requests[k], l, flush);
    }
    forall a | a != ip && AskedPending(s, a) ensures AskedPending(t, a) {
      AskedSurvivesReply(s, ip, mac, a);
    }
  }

  lemma RepliedLog(log: seq<Log>, l: Log, flush: seq<Log>, since: nat, a: Word32)
    requires l.Learned? && since <= |log|
    requires forall i :: 0 <= i < |flush| ==> flush[i].Sent? && flush[i].frame.payload.Ip?
    ensures CountAsks(log + ([l] + flush), since, a) == CountAsks(log, since, a)
    ensures LastAsk(log + ([l] + flush), a) == if a == l.ip then None else LastAsk(log, a)
  {
    hide CountAsks, LastAsk;
    assert log + ([l] + flush) == log + [l] + flush;
    Appended(log, l, since, a);
    AppendedQuietly(log + [l], flush, since, a);
  }

  lemma RequestSurvivesReply(s: State, t: State, r: Request, l: Log, flush: seq<Log>)
    requires RequestTimed(s, r) && l.Learned? && r.ip != l.ip && t.clock == s.clock && t.log == s.log + ([l] + flush)
    requires forall i :: 0 <= i < |flush| ==> flush[i].Sent? && flush[i].frame.payload.Ip?
    ensures RequestTimed(t, r)
  {
    hide CountAsks, LastAsk;
    RepliedLog(s.log, l, flush, r.since, r.ip);
  }

  lemma AskedSurvivesReply(s: State, ip: Word32, mac: Mac, a: Word32)
    requires a != ip && AskedPending(s, a)
    ensures AskedPending(Accept(s, ip, mac), a)
  {
    hide Store, FlushLog;
    var t, n := Accept(s, ip, mac), IpIndex(s.requests, ip);
    var i :| 0 <= i < |s.requests| && s.requests[i].ip == a && s.requests[i].timesSent > 0;
    var k := if i < n then i else i - 1;
    assert t.requests[k] == s.requests[i];
  }

  lemma FlushIsNeutral(cfg: Config, s: State, n: nat, mac: Mac, flush: seq<Log>)
    requires WaitingSound(cfg, s)
    requires flush == if n < |s.requests| then FlushLog(s.requests[n].packets, mac, s.clock) else []
    ensures forall i :: 0 <= i < |flush| ==> flush[i].Sent? && flush[i].at == s.clock && flush[i].frame.payload.Ip?
  {
    hide HeaderOk, BlackListed, SendCheck, CleanIfaces;
    forall i | 0 <= i < |flush|
      ensures flush[i].Sent? && flush[i].at == s.clock && flush[i].frame.payload.Ip?
    {
      var p := s.requests[n].packets[i];
      assert Sound(cfg, s.requests[n].ip, p.frame, p.iface);
    }
  }

  lemma StepKeepsTimed(cfg: Config, s: State, a: Action)
    requires Enabled(cfg, s, a) && Timed(s) && DistinctAddresses(s) && WaitingSound(cfg, s)
    requires s.clock >= 2 || a.Advance?
    ensures Timed(Apply(cfg, s, a))
  {
    hide Timed, DistinctAddresses, WaitingSound, Enqueue, Ask, GiveUp, Accept, Send;
    match a
    case Advance(to) => AdvanceTimed(s, to);
    case AgeCache => UnrelatedTimed(s, Age(s));
    case AcceptReply(ip, mac) => AcceptTimed(cfg, s, ip, mac);
    case Reply(iface, f) => TransmitTimed(s, iface, f);
    case Direct(iface, f, mac) =>
      TransmitTimed(s, iface, f.(dhost := mac));
      UnrelatedTimed(Send(s, iface, f.(dhost := mac)), SendDirect(s, iface, f, mac));
    case Queue(ip, p) => EnqueueTimed(s, ip, p);
    case Broadcast(node, iface, f) => AskTimed(s, node, iface, f);
    case TakeUp(p) => UnrelatedTimed(s, Consider(s, p));
    case Abandon(node) => GiveUpTimed(s, node);
  }
}
