/** What the log of sent frames says: which packets left the router, and in which ARP frames it spoke. */
module Transmission {
  import opened Words
  import opened Routing
  import opened Frames
  import opened Forwarding
  import opened Arp
  import opened Actions

  // ----- packets without the MAC they are sent to

  /** A packet but for its destination MAC, which is filled in on sending. */
  function Bare(p: Packet): Packet {
    p.(frame := p.frame.(dhost := [0, 0, 0, 0, 0, 0]))
  }

  ghost function BareAll(m: multiset<Packet>): multiset<Packet> {
    if m == multiset{} then multiset{}
    else
      var p :| p in m;
      BareAll(m - multiset{p}) + multiset{Bare(p)}
  }

  /** It does not matter which packet is taken out first. */
  lemma {:induction false} BareAllTake(m: multiset<Packet>, p: Packet)
    requires p in m
    ensures BareAll(m) == BareAll(m - multiset{p}) + multiset{Bare(p)}
    decreases |m|
  {
    hide BareAll, Bare;
    var q := FirstTaken(m);
    if q != p {
      Exchange(m, p, q);
      BareAllTake(m - multiset{q}, p);
      BareAllTake(m - multiset{p}, q);
      Commute(BareAll(m - multiset{p} - multiset{q}), Bare(p), Bare(q));
    }
  }

  lemma Exchange<T>(m: multiset<T>, p: T, q: T)
    requires p in m && q in m && p != q
    ensures m - multiset{q} - multiset{p} == m - multiset{p} - multiset{q}
    ensures p in m - multiset{q} && q in m - multiset{p}
    ensures |m - multiset{q}| < |m| && |m - multiset{p}| < |m|
  {
  }

  lemma Commute<T>(m: multiset<T>, p: T, q: T)
    ensures m + multiset{p} + multiset{q} == m + multiset{q} + multiset{p}
  {
  }

  lemma FirstTaken(m: multiset<Packet>) returns (q: Packet)
    requires m != multiset{}
    ensures q in m && BareAll(m) == BareAll(m - multiset{q}) + multiset{Bare(q)}
  {
    hide Bare;
    q :| q in m && BareAll(m) == BareAll(m - multiset{q}) + multiset{Bare(q)};
  }

  lemma BareAllAdd(m: multiset<Packet>, p: Packet)
    ensures BareAll(m + multiset{p}) == BareAll(m) + multiset{Bare(p)}
  {
    hide Bare;
    BareAllTake(m + multiset{p}, p);
    assert m + multiset{p} - multiset{p} == m;
  }

  lemma {:induction false} BareAllUnion(m: multiset<Packet>, n: multiset<Packet>)
    ensures BareAll(m + n) == BareAll(m) + BareAll(n)
    decreases |n|
  {
    hide Bare, BareAll;
    if n == multiset{} {
      assert m + n == m;
      NothingBare();
    } else {
      var p :| p in n;
      var rest := n - multiset{p};
      BareAllUnion(m, rest);
      PutBack(m, n, p);
      BareAllAdd(m + rest, p);
      BareAllTake(n, p);
    }
  }

  lemma PutBack<T>(m: multiset<T>, n: multiset<T>, p: T)
    requires p in n
    ensures m + n == m + (n - multiset{p}) + multiset{p}
  {
  }

  // ----- the IPv4 packets in the log

  function SentPacket(l: Log): multiset<Packet> {
    if l.Sent? && l.frame.payload.Ip? then multiset{Bare(Packet(l.frame, l.iface))} else multiset{}
  }

  /** The IPv4 packets sent so far, without the MACs they were sent to. */
  function SentPackets(log: seq<Log>): multiset<Packet> {
    if log == [] then multiset{} else SentPackets(log[..|log| - 1]) + SentPacket(log[|log| - 1])
  }

  lemma SentAppend(log: seq<Log>, l: Log)
    ensures SentPackets(log + [l]) == SentPackets(log) + SentPacket(l)
  {
    hide SentPacket;
    assert (log + [l])[..|log|] == log;
  }

  /** What left the router is what was handed over and sent at once, or waited and was flushed by a reply. */
  ghost predicate Transmitted(s: State) {
    SentPackets(s.log) == BareAll(s.direct + s.flushed)
  }

  lemma {:induction false} FlushSends(log: seq<Log>, packets: seq<Packet>, mac: Mac, now: int)
    requires forall p :: p in packets ==> p.frame.payload.Ip?
    ensures SentPackets(log + FlushLog(packets, mac, now)) == SentPackets(log) + BareAll(multiset(packets))
    decreases |packets|
  {
    hide BareAll, SentPackets;
    var more := FlushLog(packets, mac, now);
    if packets == [] {
      assert log + more == log && multiset(packets) == multiset{};
      NothingBare();
    } else {
      var n := |packets| - 1;
      var p := packets[n];
      FlushSends(log, packets[..n], mac, now);
      assert log + more == log + FlushLog(packets[..n], mac, now) + [more[n]];
      SentAppend(log + FlushLog(packets[..n], mac, now), more[n]);
      assert packets == packets[..n] + [p];
      BareAllAdd(multiset(packets[..n]), p);
    }
  }

  lemma NothingBare()
    ensures BareAll(multiset{}) == multiset{}
  {
  }

  lemma QuietTransmitted(s: State, t: State, l: Log)
    requires Transmitted(s) && t.log == s.log + [l] && SentPacket(l) == multiset{} && t.direct == s.direct && t.flushed == s.flushed
    ensures Transmitted(t)
  {
    hide BareAll, SentPackets;
    SentAppend(s.log, l);
  }

  lemma DirectTransmitted(s: State, iface: string, f: Frame, mac: Mac)
    requires Transmitted(s) && f.payload.Ip?
    ensures Transmitted(SendDirect(s, iface, f, mac))
  {
    hide BareAll, SentPackets;
    var p, l := Packet(f, iface), Sent(s.clock, iface, f.(dhost := mac));
    SentAppend(s.log, l);
    assert Bare(Packet(l.frame, iface)) == Bare(p);
    BareAllAdd(s.direct + s.flushed, p);
    assert s.direct + multiset{p} + s.flushed == s.direct + s.flushed + multiset{p};
  }

  lemma AcceptTransmitted(cfg: Config, s: State, ip: Word32, mac: Mac)
    requires Transmitted(s) && WaitingSound(cfg, s)
    ensures Transmitted(Accept(s, ip, mac))
  {
    hide BareAll, SentPackets, FlushLog, Store, Remove;
    var i, l := IpIndex(s.requests, ip), Learned(s.clock, ip, mac);
    SentAppend(s.log, l);
    if i < |s.requests| {
      var packets := s.requests[i].packets;
      WaitingIsIp(cfg, s, i);
      FlushSends(s.log + [l], packets, mac, s.clock);
      BareAllUnion(s.direct + s.flushed, multiset(packets));
      assert s.direct + (s.flushed + multiset(packets)) == s.direct + s.flushed + multiset(packets);
    }
  }

  lemma WaitingIsIp(cfg: Config, s: State, i: nat)
    requires WaitingSound(cfg, s) && i < |s.requests|
    ensures forall p :: p in s.requests[i].packets ==> p.frame.payload.Ip?
  {
  }

  lemma StepKeepsTransmitted(cfg: Config, s: State, a: Action)
    requires Enabled(cfg, s, a) && WaitingSound(cfg, s) && Transmitted(s)
    ensures Transmitted(Apply(cfg, s, a))
  {
    hide Sound, Lookup, Accept, SendDirect, SentPackets, BareAll, NodeIndex;
    match a
    case AcceptReply(ip, mac) => AcceptTransmitted(cfg, s, ip, mac);
    case Direct(iface, f, mac) => DirectTransmitted(s, iface, f, mac);
    case Reply(iface, f) => QuietTransmitted(s, Send(s, iface, f), Sent(s.clock, iface, f));
    case Broadcast(node, iface, f) => QuietTransmitted(s, Ask(s, node, iface, f), Sent(s.clock, iface, f));
    case Abandon(node) =>
      var r := Req(s, node);
      QuietTransmitted(s, GiveUp(s, node), GaveUp(s.clock, r.ip, r.born, r.since));
    case _ =>
  }

  // ----- the ARP frames in the log

  /** Every ARP frame sent so far is a proper request or a proper reply. */
  ghost predicate SpeaksArp(cfg: Config, s: State) {
    forall i :: 0 <= i < |s.log| && s.log[i].Sent? && s.log[i].frame.payload.Arp? ==>
      ProperRequest(cfg, s.log[i].iface, s.log[i].frame) || ProperReply(cfg, s.log[i].iface, s.log[i].frame)
  }

  lemma StepKeepsSpeaksArp(cfg: Config, s: State, a: Action)
    requires Enabled(cfg, s, a) && WaitingSound(cfg, s) && SpeaksArp(cfg, s)
    ensures SpeaksArp(cfg, Apply(cfg, s, a))
  {
    hide Sound, Lookup, Accept, NodeIndex, ProperRequest, ProperReply, IsAskFor, SendCheck;
    match a
    case AcceptReply(ip, mac) => AcceptSpeaksArp(cfg, s, ip, mac);
    case _ =>
  }

  lemma AcceptSpeaksArp(cfg: Config, s: State, ip: Word32, mac: Mac)
    requires WaitingSound(cfg, s) && SpeaksArp(cfg, s)
    ensures SpeaksArp(cfg, Accept(s, ip, mac))
  {
    hide Store, Remove, ProperRequest, ProperReply;
    var i := IpIndex(s.requests, ip);
    if i < |s.requests| {
      WaitingIsIp(cfg, s, i);
    }
  }
}
