/**
 * The ARP cache, the queue of pending requests and their timeouts (`sr_arpcache.c`), driven by the
 * packet handler (`sr_router.c`), as functions of a state.
 */
module Arp {
  import opened Words
  import opened Routing
  import opened Frames
  import opened Forwarding

  const CACHE_SIZE := 100
  const CACHE_TIMEOUT := 15
  const MAX_ASKS := 5

  datatype Entry = Entry(mac: Mac, ip: Word32, added: int, valid: bool)

  datatype Packet = Packet(frame: Frame, iface: string)

  /**
   * `struct sr_arpreq`. `node` is the identity of the allocated record. `born` and `since` are history:
   * the time of its creation and the length of the log then.
   */
  datatype Request = Request(node: nat, ip: Word32, sent: int, timesSent: nat, packets: seq<Packet>,
                             born: int, since: nat)

  /** What the router did, in order: frames sent, ARP replies accepted, requests given up. */
  datatype Log =
    | Sent(at: int, iface: string, frame: Frame)
    | Learned(at: int, ip: Word32, mac: Mac)
    | GaveUp(at: int, ip: Word32, born: int, since: nat)

  /**
   * The cache, the clock and history: the log; the packets sent at once, those ever queued, those flushed
   * by a reply and those dropped with an unanswered request; and the dropped packets in the order in which
   * their senders were considered for a host unreachable.
   */
  datatype RawState = State(entries: seq<Entry>, requests: seq<Request>, nextNode: nat, clock: int, log: seq<Log>,
                            direct: multiset<Packet>, queued: multiset<Packet>, flushed: multiset<Packet>,
                            expired: multiset<Packet>, told: seq<Packet>)

  /** Requests are only ever appended, so identities grow along the list. */
  predicate Ordered(requests: seq<Request>, bound: nat) {
    (forall i :: 0 <= i < |requests| ==> requests[i].node < bound) &&
    (forall i, j :: 0 <= i < j < |requests| ==> requests[i].node < requests[j].node)
  }

  const NO_ENTRY := Entry([0, 0, 0, 0, 0, 0], 0, 0, false)

  function NoEntries(): (es: seq<Entry>)
    ensures |es| == CACHE_SIZE
  {
    seq(CACHE_SIZE, i => NO_ENTRY)
  }

  const INITIAL := State(NoEntries(), [], 0, 0, [], multiset{}, multiset{}, multiset{}, multiset{}, [])

  type State = s: RawState | Ordered(s.requests, s.nextNode) && |s.entries| == CACHE_SIZE
    witness INITIAL

  // ----- the entry array

  /** `sr_arpcache_lookup`: the last valid entry for the address. */
  function Lookup(entries: seq<Entry>, ip: Word32): (r: Option<Entry>)
    ensures r.Some? ==> r.value in entries && r.value.valid && r.value.ip == ip
    ensures r.None? ==> forall e :: e in entries && e.valid ==> e.ip != ip
  {
    if entries == [] then None
    else
      var e := entries[|entries| - 1];
      if e.valid && e.ip == ip then Some(e) else Lookup(entries[..|entries| - 1], ip)
  }

  /** The first invalid slot, or the size of the array. */
  function FirstFree(entries: seq<Entry>): (i: nat)
    ensures i <= |entries|
    ensures i < |entries| ==> !entries[i].valid
    ensures forall j :: 0 <= j < i ==> entries[j].valid
  {
    if entries == [] || !entries[0].valid then 0 else 1 + FirstFree(entries[1..])
  }

  /** The store of `sr_arpcache_insert`; a full array drops the mapping. */
  function Store(entries: seq<Entry>, ip: Word32, mac: Mac, now: int): (r: seq<Entry>)
    ensures |r| == |entries|
  {
    var i := FirstFree(entries);
    if i < |entries| then entries[i := Entry(mac, ip, now, true)] else entries
  }

  /** The loop of `sr_arpcache_timeout`. */
  function Aged(e: Entry, now: int): Entry {
    if e.valid && now - e.added > CACHE_TIMEOUT then e.(valid := false) else e
  }

  function AgeAll(entries: seq<Entry>, now: int): (r: seq<Entry>)
    ensures |r| == |entries|
    ensures forall i :: 0 <= i < |entries| ==> r[i] == Aged(entries[i], now)
  {
    seq(|entries|, i requires 0 <= i < |entries| => Aged(entries[i], now))
  }

  // ----- the request list

  function NodeIndex(requests: seq<Request>, node: nat): (i: nat)
    ensures i <= |requests|
    ensures i < |requests| ==> requests[i].node == node
    ensures forall j :: 0 <= j < i ==> requests[j].node != node
  {
    if requests == [] || requests[0].node == node then 0 else 1 + NodeIndex(requests[1..], node)
  }

  function IpIndex(requests: seq<Request>, ip: Word32): (i: nat)
    ensures i <= |requests|
    ensures i < |requests| ==> requests[i].ip == ip
    ensures forall j :: 0 <= j < i ==> requests[j].ip != ip
  {
    if requests == [] || requests[0].ip == ip then 0 else 1 + IpIndex(requests[1..], ip)
  }

  predicate Pending(s: State, node: nat) {
    NodeIndex(s.requests, node) < |s.requests|
  }

  function Req(s: State, node: nat): (r: Request)
    requires Pending(s, node)
    ensures r in s.requests && r.node == node
  {
    s.requests[NodeIndex(s.requests, node)]
  }

  function Remove<T>(xs: seq<T>, i: nat): (r: seq<T>)
    requires i < |xs|
    ensures |r| == |xs| - 1
    ensures forall j :: 0 <= j < i ==> r[j] == xs[j]
    ensures forall j :: i <= j < |r| ==> r[j] == xs[j + 1]
  {
    xs[..i] + xs[i + 1..]
  }

  predicate Due(r: Request, now: int) {
    now - r.sent > 1
  }

  predicate Hopeless(r: Request, now: int) {
    Due(r, now) && r.timesSent >= MAX_ASKS
  }

  // ----- elementary effects

  function Send(s: State, iface: string, frame: Frame): State {
    s.(log := s.log + [Sent(s.clock, iface, frame)])
  }

  /** Send an IPv4 frame whose destination is cached. */
  function SendDirect(s: State, iface: string, frame: Frame, mac: Mac): State {
    Send(s, iface, frame.(dhost := mac)).(direct := s.direct + multiset{Packet(frame, iface)})
  }

  /** `sr_arpcache_queuereq`: find or append the request, then put the packet at the head of its list. */
  function Enqueue(s: State, ip: Word32, p: Packet): State {
    var i := IpIndex(s.requests, ip);
    if i < |s.requests| then
      var r := s.requests[i];
      s.(requests := s.requests[i := r.(packets := [p] + r.packets)], queued := s.queued + multiset{p})
    else
      var r := Request(s.nextNode, ip, 0, 0, [p], s.clock, |s.log|);
      s.(requests := s.requests + [r], nextNode := s.nextNode + 1, queued := s.queued + multiset{p})
  }

  /** The request that `sr_arpcache_queuereq` returns. */
  function QueueNode(s: State, ip: Word32): nat {
    var i := IpIndex(s.requests, ip);
    if i < |s.requests| then s.requests[i].node else s.nextNode
  }

  /** Broadcast an ARP request and count it. */
  function Ask(s: State, node: nat, iface: string, frame: Frame): State
    requires Pending(s, node)
  {
    var i, r := NodeIndex(s.requests, node), Req(s, node);
    Send(s.(requests := s.requests[i := r.(sent := s.clock, timesSent := r.timesSent + 1)]), iface, frame)
  }

  /** A waiting packet is taken up to tell its sender. */
  function Consider(s: State, p: Packet): State {
    s.(told := s.told + [p])
  }

  /** `sr_arpreq_destroy` on a request that is given up: its packets are gone. */
  function GiveUp(s: State, node: nat): State
    requires Pending(s, node)
  {
    var i, r := NodeIndex(s.requests, node), Req(s, node);
    s.(requests := Remove(s.requests, i), expired := s.expired + multiset(r.packets),
       log := s.log + [GaveUp(s.clock, r.ip, r.born, r.since)])
  }

  /** The frames that leave when a reply arrives, in list order. */
  function FlushLog(packets: seq<Packet>, mac: Mac, now: int): (l: seq<Log>)
    ensures |l| == |packets|
    ensures forall i :: 0 <= i < |packets| ==> l[i] == Sent(now, packets[i].iface, packets[i].frame.(dhost := mac))
  {
    seq(|packets|, i requires 0 <= i < |packets| => Sent(now, packets[i].iface, packets[i].frame.(dhost := mac)))
  }

  /** An accepted ARP reply: store the mapping, unlink the request, send what waited on it, free it. */
  function Accept(s: State, ip: Word32, mac: Mac): State {
    var i := IpIndex(s.requests, ip);
    var s1 := s.(entries := Store(s.entries, ip, mac, s.clock), log := s.log + [Learned(s.clock, ip, mac)]);
    if i < |s.requests| then
      var r := s.requests[i];
      s1.(requests := Remove(s.requests, i), flushed := s.flushed + multiset(r.packets),
          log := s1.log + FlushLog(r.packets, mac, s.clock))
    else s1
  }

  function Age(s: State): State {
    s.(entries := AgeAll(s.entries, s.clock))
  }

  // ----- sr_arpcache_handle_arpreq

  /** A call returns, is cut off by its bound, or runs into undefined behaviour; `st` is the state reached. */
  datatype Outcome = Done(st: State) | Cut(st: State) | Fault(why: Why, st: State)

  /**
   * The recursion of the handler has no bound of its own. It is cut off here either at a nesting depth,
   * or at the first attempt to give up a request that is not in a shrinking set.
   */
  datatype Bound = Live(nodes: set<nat>) | Depth(left: nat)

  function Size(b: Bound): nat {
    match b case Live(nodes) => |nodes| case Depth(left) => left
  }

  function Enter(b: Bound, node: nat): (r: Option<Bound>)
    ensures r.Some? ==> Size(r.value) < Size(b)
  {
    match b
    case Live(nodes) => if node in nodes then Some(Live(nodes - {node})) else None
    case Depth(left) => if left > 0 then Some(Depth(left - 1)) else None
  }

  function Nodes(requests: seq<Request>): set<nat> {
    set r | r in requests :: r.node
  }

  /** `sr_arpcache_handle_arpreq`. */
  function Handle(cfg: Config, s: State, node: nat, b: Bound): Outcome
    decreases Size(b), 0, 0
  {
    if !Pending(s, node) then Fault(FreedRequest, s)
    else
      var r := Req(s, node);
      if !Due(r, s.clock) then Done(s)
      else if r.timesSent < MAX_ASKS then
        match RouteTo(cfg, r.ip)
        case None => Fault(NullRoute, s)
        case Some(route) =>
          match IfaceOf(cfg, route.iface)
          case None => Fault(NullInterface, s)
          case Some(ifc) => Done(Ask(s, node, ifc.name, ArpRequest(ifc, r.ip)))
      else
        match Enter(b, node)
        case None => Cut(s)
        case Some(inner) =>
          match Tell(cfg, s, r.packets, inner)
          case Done(s1) => if Pending(s1, node) then Done(GiveUp(s1, node)) else Fault(FreedRequest, s1)
          case o => o
  }

  /** The loop over the waiting packets of a request that is given up. */
  function Tell(cfg: Config, s: State, packets: seq<Packet>, b: Bound): Outcome
    decreases Size(b), 3, |packets|
  {
    if packets == [] then Done(s)
    else
      match TellOne(cfg, Consider(s, packets[0]), packets[0], b)
      case Done(s1) => Tell(cfg, s1, packets[1..], b)
      case o => o
  }

  /** One iteration: a host unreachable to the sender, if there is a route to it. */
  function TellOne(cfg: Config, s: State, p: Packet, b: Bound): Outcome
    decreases Size(b), 2, 0
  {
    if !p.frame.payload.Ip? || |p.frame.payload.data| < 8 then Fault(ShortPacket, s)
    else
      var h := p.frame.payload.h;
      match RouteTo(cfg, h.src)
      case None => Done(s)
      case Some(route) =>
        match IfaceOf(cfg, route.iface)
        case None => Fault(NullInterface, s)
        case Some(ifc) =>
          Resolve(cfg, s, h.src, ErrorFrame(cfg.stale, ifc, 3, 1, h, p.frame.payload.data), route.iface, b)
  }

  /** Send to a cached address, or queue behind a request and handle the request. */
  function Resolve(cfg: Config, s: State, ip: Word32, frame: Frame, iface: string, b: Bound): Outcome
    decreases Size(b), 1, 0
  {
    match Lookup(s.entries, ip)
    case Some(e) => Done(SendDirect(s, iface, frame, e.mac))
    case None => Handle(cfg, Enqueue(s, ip, Packet(frame, iface)), QueueNode(s, ip), b)
  }
}
