/** What every action of the router keeps. */
module Safety {
  import opened Words
  import opened Routing
  import opened Frames
  import opened Forwarding
  import opened Arp
  import opened Actions

  // ----- one request per address, and none for a cached address

  ghost predicate DistinctAddresses(s: State) {
    forall i, j :: 0 <= i < j < |s.requests| ==> s.requests[i].ip != s.requests[j].ip
  }

  ghost predicate Cached(s: State, ip: Word32) {
    exists e :: e in s.entries && e.valid && e.ip == ip
  }

  ghost predicate PendingNotCached(s: State) {
    forall i :: 0 <= i < |s.requests| ==> !Cached(s, s.requests[i].ip)
  }

  lemma AskDistinct(s: State, node: nat, iface: string, f: Frame)
    requires Pending(s, node) && DistinctAddresses(s)
    ensures DistinctAddresses(Ask(s, node, iface, f))
  {
  }

  lemma GiveUpDistinct(s: State, node: nat)
    requires Pending(s, node) && DistinctAddresses(s)
    ensures DistinctAddresses(GiveUp(s, node))
  {
  }

  lemma EnqueueDistinct(s: State, ip: Word32, p: Packet)
    requires DistinctAddresses(s)
    ensures DistinctAddresses(Enqueue(s, ip, p))
  {
  }

  lemma AcceptDistinct(s: State, ip: Word32, mac: Mac)
    requires DistinctAddresses(s)
    ensures DistinctAddresses(Accept(s, ip, mac))
  {
    hide Store, FlushLog;
  }

  lemma StepKeepsDistinct(cfg: Config, s: State, a: Action)
    requires Enabled(cfg, s, a) && DistinctAddresses(s)
    ensures DistinctAddresses(Apply(cfg, s, a))
  {
    hide Sound, Lookup, IsAskFor, SendCheck, Enqueue, Ask, GiveUp, Accept;
    match a
    case Queue(ip, p) => EnqueueDistinct(s, ip, p);
    case Broadcast(node, iface, f) => AskDistinct(s, node, iface, f);
    case Abandon(node) => GiveUpDistinct(s, node);
    case AcceptReply(ip, mac) => AcceptDistinct(s, ip, mac);
    case _ =>
  }

  lemma StepKeepsNotCached(cfg: Config, s: State, a: Action)
    requires Enabled(cfg, s, a) && DistinctAddresses(s) && PendingNotCached(s)
    ensures PendingNotCached(Apply(cfg, s, a))
  {
    hide DistinctAddresses, PendingNotCached, Sound, Enqueue, Ask, GiveUp, Accept, Age, IsAskFor, SendCheck;
    match a
    case Queue(ip, p) => EnqueueNotCached(s, ip, p);
    case Broadcast(node, iface, f) => AskNotCached(s, node, iface, f);
    case Abandon(node) => GiveUpNotCached(s, node);
    case AcceptReply(ip, mac) => AcceptNotCached(s, ip, mac);
    case AgeCache => AgeNotCached(s);
    case _ => UnchangedNotCached(s, Apply(cfg, s, a));
  }

  lemma UnchangedNotCached(s: State, t: State)
    requires PendingNotCached(s) && t.entries == s.entries && t.requests == s.requests
    ensures PendingNotCached(t)
  {
    assert forall ip :: Cached(t, ip) <==> Cached(s, ip);
  }

  lemma SameNotCached(s: State, t: State)
    requires PendingNotCached(s) && t.entries == s.entries
    requires forall i :: 0 <= i < |t.requests| ==> exists k :: 0 <= k < |s.requests| && s.requests[k].ip == t.requests[i].ip
    ensures PendingNotCached(t)
  {
    assert forall ip :: Cached(t, ip) <==> Cached(s, ip);
  }

  lemma EnqueueNotCached(s: State, ip: Word32, p: Packet)
    requires PendingNotCached(s) && Lookup(s.entries, ip).None?
    ensures PendingNotCached(Enqueue(s, ip, p))
  {
    var t := Enqueue(s, ip, p);
    assert forall a :: Cached(t, a) <==> Cached(s, a);
    forall i | 0 <= i < |t.requests| ensures !Cached(t, t.requests[i].ip) {
      if i < |s.requests| {
        assert t.requests[i].ip == s.requests[i].ip;
      }
    }
  }

  lemma AskNotCached(s: State, node: nat, iface: string, f: Frame)
    requires PendingNotCached(s) && Pending(s, node)
    ensures PendingNotCached(Ask(s, node, iface, f))
  {
    var t := Ask(s, node, iface, f);
    assert forall i :: 0 <= i < |t.requests| ==> t.requests[i].ip == s.requests[i].ip;
    SameNotCached(s, t);
  }

  lemma GiveUpNotCached(s: State, node: nat)
    requires PendingNotCached(s) && Pending(s, node)
    ensures PendingNotCached(GiveUp(s, node))
  {
    var t, n := GiveUp(s, node), NodeIndex(s.requests, node);
    forall i | 0 <= i < |t.requests|
      ensures exists k :: 0 <= k < |s.requests| && s.requests[k].ip == t.requests[i].ip
    {
      var k := if i < n then i else i + 1;
      assert s.requests[k].ip == t.requests[i].ip;
    }
    SameNotCached(s, t);
  }

  lemma AgeNotCached(s: State)
    requires PendingNotCached(s)
    ensures PendingNotCached(Age(s))
  {
    var t := Age(s);
    forall ip | Cached(t, ip) ensures Cached(s, ip) {
      var k :| 0 <= k < |t.entries| && t.entries[k].valid && t.entries[k].ip == ip;
      assert s.entries[k] in s.entries;
    }
  }

  /** The address a reply is for leaves the list; it is the only one that enters the cache. */
  lemma AcceptNotCached(s: State, ip: Word32, mac: Mac)
    requires DistinctAddresses(s) && PendingNotCached(s)
    ensures PendingNotCached(Accept(s, ip, mac))
  {
    hide FlushLog, FirstFree;
    var t, n := Accept(s, ip, mac), IpIndex(s.requests, ip);
    forall a | a != ip && Cached(t, a) ensures Cached(s, a) {
      var k :| 0 <= k < |t.entries| && t.entries[k].valid && t.entries[k].ip == a;
      assert s.entries[k] in s.entries;
    }
    forall i | 0 <= i < |t.requests| ensures !Cached(t, t.requests[i].ip) {
      var k := if i < n then i else i + 1;
      assert t.requests[i] == s.requests[k] && s.requests[k].ip != ip;
    }
  }

  /** A valid entry that was not there before comes from the accepted reply. */
  lemma CacheGrowth(cfg: Config, s: State, a: Action, e: Entry)
    requires Enabled(cfg, s, a) && e in Apply(cfg, s, a).entries && e.valid && e !in s.entries
    ensures a.AcceptReply? && e.ip == a.ip && e.mac == a.mac && e.added == s.clock
  {
    hide Sound, Lookup, FlushLog, IsAskFor, SendCheck;
    var t := Apply(cfg, s, a);
    var k :| 0 <= k < |t.entries| && t.entries[k] == e;
    assert e == s.entries[k] || a.AcceptReply?;
  }

  // ----- cached mappings were learned

  ghost predicate LearnedBefore(log: seq<Log>, n: nat, ip: Word32, mac: Mac)
    requires n <= |log|
  {
    exists k :: 0 <= k < n && log[k].Learned? && log[k].ip == ip && log[k].mac == mac
  }

  ghost predicate EntriesLearned(s: State) {
    forall e :: e in s.entries && e.valid ==> LearnedBefore(s.log, |s.log|, e.ip, e.mac)
  }

  lemma LogGrows(cfg: Config, s: State, a: Action)
    requires Enabled(cfg, s, a)
    ensures s.log <= Apply(cfg, s, a).log
    ensures a.AcceptReply? ==> |s.log| < |Apply(cfg, s, a).log| && Apply(cfg, s, a).log[|s.log|] == Learned(s.clock, a.ip, a.mac)
  {
    hide Sound, Lookup, Store, FlushLog, Aged, IsAskFor, SendCheck;
  }

  lemma StepKeepsEntriesLearned(cfg: Config, s: State, a: Action)
    requires Enabled(cfg, s, a) && EntriesLearned(s)
    ensures EntriesLearned(Apply(cfg, s, a))
  {
    hide Enabled, Apply;
    LogGrows(cfg, s, a);
    var t := Apply(cfg, s, a);
    forall e | e in t.entries && e.valid
      ensures LearnedBefore(t.log, |t.log|, e.ip, e.mac)
    {
      if e in s.entries {
        var k :| 0 <= k < |s.log| && s.log[k].Learned? && s.log[k].ip == e.ip && s.log[k].mac == e.mac;
        assert t.log[k] == s.log[k];
      } else {
        CacheGrowth(cfg, s, a, e);
      }
    }
  }

  // ----- every frame sent

  /**
   * The frame sent at position `i` of the log passes the send check. If it carries IPv4, its header passes
   * the router's own validation, it avoids the blocked network, and the MAC it is sent to is one that an
   * earlier ARP reply gave for its destination.
   */
  ghost predicate SentWell(cfg: Config, log: seq<Log>, i: nat)
    requires i < |log|
  {
    log[i].Sent? ==>
      SendCheck(cfg, log[i].iface, log[i].frame) && !log[i].frame.payload.Raw? &&
      (log[i].frame.payload.Ip? ==>
        var h := log[i].frame.payload.h;
        HeaderOk(h) && (CleanIfaces(cfg) ==> !BlackListed(h)) && LearnedBefore(log, i, h.dst, log[i].frame.dhost))
  }

  ghost predicate AllSentWell(cfg: Config, s: State) {
    forall i :: 0 <= i < |s.log| ==> SentWell(cfg, s.log, i)
  }

  lemma StepKeepsSentWell(cfg: Config, s: State, a: Action)
    requires Enabled(cfg, s, a) && WaitingSound(cfg, s) && EntriesLearned(s) && AllSentWell(cfg, s)
    ensures AllSentWell(cfg, Apply(cfg, s, a))
  {
    hide Enabled, Apply, HeaderOk, BlackListed, CleanIfaces, IfaceOf;
    var t := Apply(cfg, s, a);
    LogGrows(cfg, s, a);
    forall i | 0 <= i < |t.log|
      ensures SentWell(cfg, t.log, i)
    {
      if i < |s.log| {
        assert SentWell(cfg, s.log, i) && t.log[i] == s.log[i];
        SentWellStable(cfg, s.log, t.log, i);
      } else {
        NewlySentWell(cfg, s, a, i);
      }
    }
  }

  lemma SentWellStable(cfg: Config, log: seq<Log>, more: seq<Log>, i: nat)
    requires i < |log| && log <= more && SentWell(cfg, log, i)
    ensures SentWell(cfg, more, i)
  {
    hide HeaderOk, BlackListed, CleanIfaces, SendCheck;
    if log[i].Sent? && log[i].frame.payload.Ip? {
      var h := log[i].frame.payload.h;
      var k :| 0 <= k < i && log[k].Learned? && log[k].ip == h.dst && log[k].mac == log[i].frame.dhost;
      assert more[k] == log[k];
    }
  }

  lemma NewlySentWell(cfg: Config, s: State, a: Action, i: nat)
    requires Enabled(cfg, s, a) && WaitingSound(cfg, s) && EntriesLearned(s)
    requires |s.log| <= i < |Apply(cfg, s, a).log|
    ensures SentWell(cfg, Apply(cfg, s, a).log, i)
  {
    hide HeaderOk, BlackListed, CleanIfaces, IfaceOf, Accept, SendDirect;
    match a
    case AcceptReply(ip, mac) => FlushedWell(cfg, s, ip, mac, i);
    case Direct(iface, f, mac) => DirectWell(cfg, s, iface, f, mac, i);
    case _ =>
  }

  lemma DirectWell(cfg: Config, s: State, iface: string, f: Frame, mac: Mac, i: nat)
    requires Enabled(cfg, s, Direct(iface, f, mac)) && EntriesLearned(s)
    requires |s.log| <= i < |SendDirect(s, iface, f, mac).log|
    ensures SentWell(cfg, SendDirect(s, iface, f, mac).log, i)
  {
    hide HeaderOk, BlackListed, CleanIfaces, IfaceOf;
    var e, t := Lookup(s.entries, f.payload.h.dst).value, SendDirect(s, iface, f, mac);
    assert LearnedBefore(s.log, |s.log|, e.ip, e.mac);
    var k :| 0 <= k < |s.log| && s.log[k].Learned? && s.log[k].ip == e.ip && s.log[k].mac == e.mac;
    assert t.log[k] == s.log[k];
  }

  lemma FlushedWell(cfg: Config, s: State, ip: Word32, mac: Mac, i: nat)
    requires WaitingSound(cfg, s) && |s.log| <= i < |Accept(s, ip, mac).log|
    ensures SentWell(cfg, Accept(s, ip, mac).log, i)
  {
    hide HeaderOk, BlackListed, CleanIfaces, IfaceOf, Store;
    var t := Accept(s, ip, mac);
    assert t.log[|s.log|] == Learned(s.clock, ip, mac);
    if i > |s.log| {
      var k := IpIndex(s.requests, ip);
      var p := s.requests[k].packets[i - |s.log| - 1];
      assert t.log[i] == Sent(s.clock, p.iface, p.frame.(dhost := mac));
      assert Sound(cfg, ip, p.frame, p.iface);
    }
  }

  // ----- conservation

  function Waiting(requests: seq<Request>): multiset<Packet> {
    if requests == [] then multiset{} else multiset(requests[0].packets) + Waiting(requests[1..])
  }

  /** Every packet ever queued is waiting, was flushed by a reply, or was dropped with its request; once. */
  ghost predicate Conserved(s: State) {
    s.queued == Waiting(s.requests) + s.flushed + s.expired
  }

  lemma {:induction false} WaitingConcat(a: seq<Request>, b: seq<Request>)
    ensures Waiting(a + b) == Waiting(a) + Waiting(b)
  {
    if a == [] {
      assert a + b == b;
    } else {
      assert (a + b)[1..] == a[1..] + b;
      WaitingConcat(a[1..], b);
    }
  }

  lemma WaitingSplit(requests: seq<Request>, i: nat)
    requires i < |requests|
    ensures Waiting(requests) == Waiting(requests[..i]) + multiset(requests[i].packets) + Waiting(requests[i + 1..])
    ensures Waiting(Remove(requests, i)) == Waiting(requests[..i]) + Waiting(requests[i + 1..])
  {
    assert requests == requests[..i] + requests[i..];
    WaitingConcat(requests[..i], requests[i..]);
    WaitingConcat(requests[..i], requests[i + 1..]);
  }

  lemma WaitingUpdate(requests: seq<Request>, i: nat, r: Request)
    requires i < |requests|
    ensures Waiting(requests[i := r]) == Waiting(requests[..i]) + multiset(r.packets) + Waiting(requests[i + 1..])
  {
    var changed := requests[i := r];
    assert changed[..i] == requests[..i] && changed[i + 1..] == requests[i + 1..];
    WaitingSplit(changed, i);
  }

  lemma EnqueueConserves(s: State, ip: Word32, p: Packet)
    requires Conserved(s)
    ensures Conserved(Enqueue(s, ip, p))
  {
    hide Waiting;
    var i := IpIndex(s.requests, ip);
    if i < |s.requests| {
      var r := s.requests[i];
      WaitingSplit(s.requests, i);
      WaitingUpdate(s.requests, i, r.(packets := [p] + r.packets));
    } else {
      var r := Request(s.nextNode, ip, 0, 0, [p], s.clock, |s.log|);
      WaitingConcat(s.requests, [r]);
      WaitingOne(r);
    }
  }

  lemma AskConserves(s: State, node: nat, iface: string, f: Frame)
    requires Conserved(s) && Pending(s, node)
    ensures Conserved(Ask(s, node, iface, f))
  {
    hide Waiting;
    var i, r := NodeIndex(s.requests, node), Req(s, node);
    WaitingSplit(s.requests, i);
    WaitingUpdate(s.requests, i, r.(sent := s.clock, timesSent := r.timesSent + 1));
  }

  lemma GiveUpConserves(s: State, node: nat)
    requires Conserved(s) && Pending(s, node)
    ensures Conserved(GiveUp(s, node))
  {
    hide Waiting;
    WaitingSplit(s.requests, NodeIndex(s.requests, node));
  }

  lemma AcceptConserves(s: State, ip: Word32, mac: Mac)
    requires Conserved(s)
    ensures Conserved(Accept(s, ip, mac))
  {
    hide Waiting, Store, FlushLog;
    if IpIndex(s.requests, ip) < |s.requests| {
      WaitingSplit(s.requests, IpIndex(s.requests, ip));
    }
  }

  lemma StepConserves(cfg: Config, s: State, a: Action)
    requires Enabled(cfg, s, a) && Conserved(s)
    ensures Conserved(Apply(cfg, s, a))
  {
    hide Enqueue, Ask, GiveUp, Accept, Waiting;
    match a
    case Queue(ip, p) => EnqueueConserves(s, ip, p);
    case Broadcast(node, iface, f) => AskConserves(s, node, iface, f);
    case Abandon(node) => GiveUpConserves(s, node);
    case AcceptReply(ip, mac) => AcceptConserves(s, ip, mac);
    case _ =>
  }

  lemma WaitingOne(r: Request)
    ensures Waiting([r]) == multiset(r.packets)
  {
    assert Waiting([]) == multiset{};
  }
}
