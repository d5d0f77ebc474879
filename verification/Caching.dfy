/** Runs from power-up in which a lookup does not return the mapping of the last accepted reply. */
module Caching {
  import opened Words
  import opened Routing
  import opened Frames
  import opened Forwarding
  import opened Arp
  import opened Router

  /** The arrival of an ARP reply that says where `ip` is, on the interface `ifc`. */
  function ReplyAt(at: int, ifc: Iface, ip: Word32, mac: Mac): Event {
    Arrival(at, Frame(ifc.mac, mac, Arp(ArpHdr(1, TYPE_IP, 6, 4, ARP_REPLY, mac, ip, ifc.mac, ifc.ip), [])), ifc.name)
  }

  /** With nothing pending, a reply is stored and that is all. */
  lemma ReplyIsStored(cfg: Config, s: State, at: int, ifc: Iface, ip: Word32, mac: Mac)
    requires s.requests == [] && IfaceOf(cfg, ifc.name) == Some(ifc)
    ensures var o := Step(cfg, s, ReplyAt(at, ifc, ip, mac));
      o.Done? && o.st.requests == [] && o.st.entries == Store(s.entries, ip, mac, at)
  {
    hide GetIface, Store;
  }

  /** A reply as the next event of a run. */
  lemma NextReply(cfg: Config, e: seq<Event>, i: nat, s: State, ifc: Iface, ip: Word32, mac: Mac) returns (t: State)
    requires i < |e| && Run(cfg, e[..i]) == Done(s) && s.requests == [] && IfaceOf(cfg, ifc.name) == Some(ifc)
    requires e[i] == ReplyAt(e[i].at, ifc, ip, mac)
    ensures Run(cfg, e[..i + 1]) == Done(t) && t.requests == [] && t.entries == Store(s.entries, ip, mac, e[i].at)
    ensures t.log == s.log + [Learned(e[i].at, ip, mac)]
  {
    hide Step, Run, Store, ReplyAt, IfaceOf;
    ReplyIsStored(cfg, s, e[i].at, ifc, ip, mac);
    LastReplyLogged(cfg, s, e[i].at, ifc, ip, mac);
    RunPrefix(cfg, e, i, s);
    t := Step(cfg, s, e[i]).st;
  }

  /** With nothing pending, a tick ages the cache and that is all. */
  lemma TickOnlyAges(cfg: Config, s: State, at: int)
    requires s.requests == []
    ensures var o := Step(cfg, s, Timer(at)); o.Done? && o.st.requests == [] && o.st.entries == AgeAll(s.entries, at)
  {
    hide Aged;
  }

  // ----- a mapping that is shadowed

  function ShadowingRun(ifc: Iface, other: Word32, ip: Word32, otherMac: Mac, oldMac: Mac, newMac: Mac): seq<Event> {
    [ReplyAt(2, ifc, other, otherMac), ReplyAt(10, ifc, ip, oldMac), Timer(18), ReplyAt(18, ifc, ip, newMac)]
  }

  lemma FirstFreeIs(entries: seq<Entry>, i: nat)
    requires i < |entries| && !entries[i].valid && forall j :: 0 <= j < i ==> entries[j].valid
    ensures FirstFree(entries) == i
  {
  }

  lemma OldEntryIsFound(other: Word32, ip: Word32, otherMac: Mac, oldMac: Mac, newMac: Mac)
    requires other != ip
    ensures var two := Store(Store(NoEntries(), other, otherMac, 2), ip, oldMac, 10);
      Lookup(Store(AgeAll(two, 18), ip, newMac, 18), ip) == Some(Entry(oldMac, ip, 10, true))
  {
    hide Lookup;
    FirstFreeIs(NoEntries(), 0);
    var one := Store(NoEntries(), other, otherMac, 2);
    FirstFreeIs(one, 1);
    var aged := AgeAll(Store(one, ip, oldMac, 10), 18);
    FirstFreeIs(aged, 0);
    LookupIs(Store(aged, ip, newMac, 18), ip, 1);
  }

  /**
   * Any two addresses: after these four events the router has accepted a reply with the new MAC, later than the
   * one with the old MAC, and goes on using the old one.
   */
  lemma NewMappingIsShadowed(cfg: Config, ifc: Iface, other: Word32, ip: Word32, otherMac: Mac, oldMac: Mac, newMac: Mac)
    requires IfaceOf(cfg, ifc.name) == Some(ifc) && other != ip
    ensures var events := ShadowingRun(ifc, other, ip, otherMac, oldMac, newMac); var o := Run(cfg, events);
      Chronological(events) && o.Done? && |o.st.log| > 0 && o.st.log[|o.st.log| - 1] == Learned(18, ip, newMac) &&
      Lookup(o.st.entries, ip) == Some(Entry(oldMac, ip, 10, true))
  {
    hide Step, Lookup, IfaceOf, Store, AgeAll, Run;
    var e, s0 := ShadowingRun(ifc, other, ip, otherMac, oldMac, newMac), INITIAL;
    assert Run(cfg, e[..0]) == Done(s0) && s0.requests == [] by { NoEvents(cfg); }
    var s1 := NextReply(cfg, e, 0, s0, ifc, other, otherMac);
    var s2 := NextReply(cfg, e, 1, s1, ifc, ip, oldMac);
    TickOnlyAges(cfg, s2, 18);
    RunPrefix(cfg, e, 2, s2);
    var s3 := Step(cfg, s2, e[2]).st;
    var s4 := NextReply(cfg, e, 3, s3, ifc, ip, newMac);
    assert e[..4] == e;
    OldEntryIsFound(other, ip, otherMac, oldMac, newMac);
  }

  lemma NoEvents(cfg: Config)
    ensures Run(cfg, []) == Done(INITIAL) && INITIAL.requests == []
  {
  }

  lemma LastReplyLogged(cfg: Config, s: State, at: int, ifc: Iface, ip: Word32, mac: Mac)
    requires s.requests == [] && IfaceOf(cfg, ifc.name) == Some(ifc)
    ensures Step(cfg, s, ReplyAt(at, ifc, ip, mac)).st.log == s.log + [Learned(at, ip, mac)]
  {
    hide GetIface, Store;
  }

  /** The last valid entry for the address is what a lookup returns. */
  lemma {:induction false} LookupIs(entries: seq<Entry>, ip: Word32, i: nat)
    requires i < |entries| && entries[i].valid && entries[i].ip == ip
    requires forall j :: i < j < |entries| ==> !(entries[j].valid && entries[j].ip == ip)
    ensures Lookup(entries, ip) == Some(entries[i])
    decreases |entries|
  {
    if i < |entries| - 1 {
      LookupIs(entries[..|entries| - 1], ip, i);
    }
  }

  // ----- a mapping that is dropped

  /** Replies from `n` hosts with consecutive addresses, all in the same second. */
  function FloodingRun(ifc: Iface, mac: Mac, n: nat): (r: seq<Event>)
    ensures |r| == n
  {
    seq(n, i => ReplyAt(2, ifc, i % 0x1_0000_0000, mac))
  }

  /** The first `n` slots hold the first `n` addresses, and the others nothing. */
  ghost predicate Filled(entries: seq<Entry>, n: nat) {
    (forall i :: 0 <= i < |entries| ==> (entries[i].valid <==> i < n)) &&
    (forall i :: 0 <= i < n && i < |entries| ==> entries[i].ip == i)
  }

  lemma StoreFills(entries: seq<Entry>, mac: Mac, n: nat)
    requires Filled(entries, n) && n < |entries| <= 100
    ensures Filled(Store(entries, n, mac, 2), n + 1)
  {
    hide FirstFree;
    FirstFreeIs(entries, n);
  }

  lemma {:induction false} FloodFills(cfg: Config, ifc: Iface, mac: Mac, n: nat)
    requires IfaceOf(cfg, ifc.name) == Some(ifc) && n <= 100
    ensures var o := Run(cfg, FloodingRun(ifc, mac, n)); o.Done? && o.st.requests == [] && Filled(o.st.entries, n)
  {
    hide Step, IfaceOf, Run, Store, ReplyAt;
    var e := FloodingRun(ifc, mac, n);
    if n == 0 {
      NoEvents(cfg);
    } else {
      hide Filled;
      FloodFills(cfg, ifc, mac, n - 1);
      assert e[..n - 1] == FloodingRun(ifc, mac, n - 1);
      var s := Run(cfg, e[..n - 1]).st;
      StoreFills(s.entries, mac, n - 1);
      assert e[n - 1].at == 2 by { ReplyTime(2, ifc, n - 1, mac); }
      var t := NextReply(cfg, e, n - 1, s, ifc, n - 1, mac);
      assert e[..n] == e;
    }
  }

  lemma ReplyTime(at: int, ifc: Iface, ip: Word32, mac: Mac)
    ensures ReplyAt(at, ifc, ip, mac).at == at
  {
  }

  /** The hundred and first reply in a second is accepted, and the address is not found all the same. */
  lemma FullCacheDropsMapping(cfg: Config, ifc: Iface, mac: Mac)
    requires IfaceOf(cfg, ifc.name) == Some(ifc)
    ensures var events := FloodingRun(ifc, mac, 101); var o := Run(cfg, events);
      Chronological(events) && o.Done? && |o.st.log| > 0 && o.st.log[|o.st.log| - 1] == Learned(2, 100, mac) &&
      Lookup(o.st.entries, 100) == None
  {
    hide Step, IfaceOf, Run;
    var e := FloodingRun(ifc, mac, 101);
    FloodFills(cfg, ifc, mac, 100);
    assert e[..100] == FloodingRun(ifc, mac, 100);
    var s := Run(cfg, e[..100]).st;
    assert FirstFree(s.entries) == 100;
    var t := NextReply(cfg, e, 100, s, ifc, 100, mac);
    assert e[..101] == e;
    forall x | x in t.entries ensures x.ip != 100 {
      var k :| 0 <= k < |t.entries| && t.entries[k] == x;
      assert t.entries[k].ip == k;
    }
  }
}
