/**
 * The packet thread and the timer thread share the cache. The timer holds the lock for a whole tick; the
 * packet thread takes it only inside each call, so ticks can fall between a lookup and what follows it.
 */
module Interleaving {
  import opened Words
  import opened Routing
  import opened Frames
  import opened Forwarding
  import opened Arp
  import opened Router
  import opened Actions
  import opened Safety
  import opened Runs

  /**
   * Where the packet thread is: it queues a packet only after its own lookup of that address has failed, and
   * sends one at once only to the MAC that its own lookup has copied out.
   */
  datatype Phase = Idle | Missed(ip: Word32) | Found(ip: Word32, mac: Mac)

  datatype Shared = Shared(st: State, phase: Phase)

  datatype Move =
    | TimerTick(at: int)
    | ClockMove(to: int)
    | LookupMove(ip: Word32)
    | DirectMove(packet: Packet)
    | QueueMove(packet: Packet)
    | InsertMove(ip: Word32, mac: Mac)
    | SendMove(iface: string, frame: Frame)
    | AskMove(node: nat, iface: string, frame: Frame)
    | NoteMove(packet: Packet)
    | DestroyMove(node: nat)

  /** One critical section, or the passing of time; `None` if the thread cannot take it now. */
  ghost function Perform(cfg: Config, x: Shared, m: Move): Option<Shared> {
    match m
    case TimerTick(at) =>
      if at >= x.st.clock && Tick(cfg, x.st.(clock := at)).Done?
      then Some(x.(st := Tick(cfg, x.st.(clock := at)).st)) else None
    case ClockMove(to) => if to >= x.st.clock then Some(x.(st := x.st.(clock := to))) else None
    case LookupMove(ip) =>
      if !x.phase.Idle? then None
      else
        var e := Lookup(x.st.entries, ip);
        Some(x.(phase := if e.None? then Missed(ip) else Found(ip, e.value.mac)))
    case DirectMove(p) =>
      if x.phase.Found? && Sound(cfg, x.phase.ip, p.frame, p.iface)
      then Some(Shared(SendDirect(x.st, p.iface, p.frame, x.phase.mac), Idle)) else None
    case QueueMove(p) =>
      if x.phase.Missed? && Sound(cfg, x.phase.ip, p.frame, p.iface)
      then Some(Shared(Enqueue(x.st, x.phase.ip, p), Idle)) else None
    case InsertMove(ip, mac) =>
      if x.phase.Idle? then Some(x.(st := Accept(x.st, ip, mac))) else None
    case SendMove(iface, f) =>
      if x.phase.Idle? then Some(x.(st := Send(x.st, iface, f))) else None
    case AskMove(node, iface, f) =>
      if x.phase.Idle? && Pending(x.st, node) then Some(x.(st := Ask(x.st, node, iface, f))) else None
    case NoteMove(p) =>
      if x.phase.Idle? then Some(x.(st := Consider(x.st, p))) else None
    case DestroyMove(node) =>
      if x.phase.Idle? && Pending(x.st, node) then Some(x.(st := GiveUp(x.st, node))) else None
  }

  /** A sequence of moves of the two threads. */
  ghost function Interleave(cfg: Config, x: Shared, moves: seq<Move>): Option<Shared> {
    if moves == [] then Some(x)
    else
      var before := Interleave(cfg, x, moves[..|moves| - 1]);
      if before.None? then None else Perform(cfg, before.value, moves[|moves| - 1])
  }

  const POWER_UP := Shared(INITIAL, Idle)

  ghost predicate Exclusive(cfg: Config, s: State) {
    WaitingSound(cfg, s) && DistinctAddresses(s) && PendingNotCached(s)
  }

  /** A failed lookup stays true until the thread acts on it: ticks cache nothing. */
  ghost predicate SharedInv(cfg: Config, x: Shared) {
    Exclusive(cfg, x.st) && (x.phase.Missed? ==> !Cached(x.st, x.phase.ip))
  }

  lemma {:induction false} LeadsKeepsExclusive(cfg: Config, s: State, acts: seq<Action>, t: State)
    requires Leads(cfg, s, acts, t) && Exclusive(cfg, s)
    ensures Exclusive(cfg, t)
    decreases |acts|
  {
    hide Enabled, Apply, WaitingSound, DistinctAddresses, PendingNotCached;
    if acts != [] {
      StepKeepsWaitingSound(cfg, s, acts[0]);
      StepKeepsDistinct(cfg, s, acts[0]);
      StepKeepsNotCached(cfg, s, acts[0]);
      LeadsKeepsExclusive(cfg, Apply(cfg, s, acts[0]), acts[1..], t);
    }
  }

  lemma TickKeepsExclusive(cfg: Config, s: State, at: int)
    requires Exclusive(cfg, s) && Tick(cfg, s.(clock := at)).Done?
    ensures Exclusive(cfg, Tick(cfg, s.(clock := at)).st)
    ensures forall ip :: Cached(Tick(cfg, s.(clock := at)).st, ip) ==> Cached(s, ip)
  {
    hide Leads, Exclusive, Tick, WaitingSound;
    var s0, t := s.(clock := at), Tick(cfg, s.(clock := at)).st;
    SameExclusive(cfg, s, s0);
    var acts := EventLeads(cfg, s, Timer(at));
    LeadsKeepsExclusive(cfg, s0, acts, t);
    CacheAfterTick(cfg, s, Timer(at));
    forall ip | Cached(t, ip) ensures Cached(s, ip) {
      var k :| 0 <= k < |t.entries| && t.entries[k].valid && t.entries[k].ip == ip;
      assert s.entries[k] in s.entries && s.entries[k].valid && s.entries[k].ip == ip;
    }
  }

  /** Neither the clock nor the histories matter. */
  lemma SameExclusive(cfg: Config, s: State, t: State)
    requires Exclusive(cfg, s) && t.requests == s.requests && t.entries == s.entries
    ensures Exclusive(cfg, t) && WaitingSound(cfg, s) && forall ip :: Cached(t, ip) <==> Cached(s, ip)
  {
    hide Sound;
    UnchangedNotCached(s, t);
  }

  lemma SendKeeps(cfg: Config, s: State, iface: string, f: Frame)
    requires Exclusive(cfg, s)
    ensures Exclusive(cfg, Send(s, iface, f))
  {
    hide Exclusive;
    SameExclusive(cfg, s, Send(s, iface, f));
  }

  lemma DirectKeeps(cfg: Config, s: State, p: Packet, mac: Mac)
    requires Exclusive(cfg, s)
    ensures Exclusive(cfg, SendDirect(s, p.iface, p.frame, mac))
  {
    hide Exclusive;
    SameExclusive(cfg, s, SendDirect(s, p.iface, p.frame, mac));
  }

  lemma PerformKeeps(cfg: Config, x: Shared, m: Move)
    requires SharedInv(cfg, x) && Perform(cfg, x, m).Some?
    ensures SharedInv(cfg, Perform(cfg, x, m).value)
  {
    hide Tick, Enqueue, Accept, Ask, GiveUp, Sound, WaitingSound, DistinctAddresses, PendingNotCached, Send;
    match m
    case ClockMove(to) => SameExclusive(cfg, x.st, x.st.(clock := to));
    case DirectMove(p) => DirectKeeps(cfg, x.st, p, x.phase.mac);
    case SendMove(iface, f) => SendKeeps(cfg, x.st, iface, f);
    case NoteMove(p) => SameExclusive(cfg, x.st, Consider(x.st, p));
    case TimerTick(at) => TickKeepsExclusive(cfg, x.st, at);
    case LookupMove(ip) =>
    case QueueMove(p) => QueueKeeps(cfg, x.st, x.phase.ip, p);
    case InsertMove(ip, mac) => InsertKeeps(cfg, x.st, ip, mac);
    case AskMove(node, iface, f) => AskKeeps(cfg, x.st, node, iface, f);
    case DestroyMove(node) => DestroyKeeps(cfg, x.st, node);
  }

  lemma QueueKeeps(cfg: Config, s: State, ip: Word32, p: Packet)
    requires Exclusive(cfg, s) && !Cached(s, ip) && Sound(cfg, ip, p.frame, p.iface)
    ensures Exclusive(cfg, Enqueue(s, ip, p))
  {
    hide Enqueue, Sound, WaitingSound, DistinctAddresses, PendingNotCached;
    assert Lookup(s.entries, ip).None?;
    StepKeepsWaitingSound(cfg, s, Queue(ip, p));
    EnqueueDistinct(s, ip, p);
    EnqueueNotCached(s, ip, p);
  }

  lemma InsertKeeps(cfg: Config, s: State, ip: Word32, mac: Mac)
    requires Exclusive(cfg, s)
    ensures Exclusive(cfg, Accept(s, ip, mac))
  {
    hide Accept, WaitingSound, DistinctAddresses, PendingNotCached;
    StepKeepsWaitingSound(cfg, s, AcceptReply(ip, mac));
    StepKeepsDistinct(cfg, s, AcceptReply(ip, mac));
    AcceptNotCached(s, ip, mac);
  }

  lemma AskKeeps(cfg: Config, s: State, node: nat, iface: string, f: Frame)
    requires Exclusive(cfg, s) && Pending(s, node)
    ensures Exclusive(cfg, Ask(s, node, iface, f))
  {
    hide Sound;
    AskDistinct(s, node, iface, f);
    AskNotCached(s, node, iface, f);
  }

  lemma DestroyKeeps(cfg: Config, s: State, node: nat)
    requires Exclusive(cfg, s) && Pending(s, node)
    ensures Exclusive(cfg, GiveUp(s, node))
  {
    hide Sound;
    GiveUpDistinct(s, node);
    GiveUpNotCached(s, node);
  }

  lemma {:induction false} InterleavingKeeps(cfg: Config, moves: seq<Move>)
    requires Interleave(cfg, POWER_UP, moves).Some?
    ensures SharedInv(cfg, Interleave(cfg, POWER_UP, moves).value)
  {
    hide SharedInv, Perform;
    if moves == [] {
      InitialShared(cfg);
    } else {
      var n := |moves| - 1;
      InterleavingKeeps(cfg, moves[..n]);
      PerformKeeps(cfg, Interleave(cfg, POWER_UP, moves[..n]).value, moves[n]);
    }
  }

  lemma InitialShared(cfg: Config)
    ensures SharedInv(cfg, POWER_UP)
  {
    assert INITIAL.requests == [];
  }

  /**
   * In every interleaving of the packet thread's critical sections with ticks, pending addresses are distinct
   * and none of them is validly cached.
   */
  lemma EveryInterleavingIsExclusive(cfg: Config, moves: seq<Move>)
    requires Interleave(cfg, POWER_UP, moves).Some?
    ensures var s := Interleave(cfg, POWER_UP, moves).value.st;
      (forall i, j :: 0 <= i < j < |s.requests| ==> s.requests[i].ip != s.requests[j].ip) &&
      (forall i, e :: 0 <= i < |s.requests| && e in s.entries && e.valid ==> e.ip != s.requests[i].ip)
  {
    hide Interleave;
    InterleavingKeeps(cfg, moves);
    var s := Interleave(cfg, POWER_UP, moves).value.st;
    forall i, e | 0 <= i < |s.requests| && e in s.entries && e.valid
      ensures e.ip != s.requests[i].ip
    {
      assert !Cached(s, s.requests[i].ip);
    }
  }

  // ----- the packet handler is such a thread

  lemma {:induction false} InterleaveConcat(cfg: Config, x: Shared, a: seq<Move>, b: seq<Move>)
    requires Interleave(cfg, x, a).Some?
    ensures Interleave(cfg, x, a + b) == Interleave(cfg, Interleave(cfg, x, a).value, b)
    decreases |b|
  {
    hide Perform;
    if b == [] {
      assert a + b == a;
    } else {
      assert (a + b)[..|a + b| - 1] == a + b[..|b| - 1];
      InterleaveConcat(cfg, x, a, b[..|b| - 1]);
    }
  }

  /** The critical sections that make up an action of the packet thread. */
  function MovesOf(a: Action): seq<Move> {
    match a
    case Advance(to) => [ClockMove(to)]
    case AgeCache => []
    case AcceptReply(ip, mac) => [InsertMove(ip, mac)]
    case Reply(iface, f) => [SendMove(iface, f)]
    case Direct(iface, f, _) => if f.payload.Ip? then [LookupMove(f.payload.h.dst), DirectMove(Packet(f, iface))] else []
    case Queue(ip, p) => [LookupMove(ip), QueueMove(p)]
    case Broadcast(node, iface, f) => [AskMove(node, iface, f)]
    case TakeUp(p) => [NoteMove(p)]
    case Abandon(node) => [DestroyMove(node)]
  }

  lemma ActionIsMoves(cfg: Config, s: State, a: Action)
    requires Enabled(cfg, s, a) && !a.AgeCache?
    ensures Interleave(cfg, Shared(s, Idle), MovesOf(a)) == Some(Shared(Apply(cfg, s, a), Idle))
  {
    hide Sound, Lookup, Enqueue, Accept, Ask, GiveUp, Send, SendDirect, Consider, IsAskFor, SendCheck, Tick, NodeIndex;
    var x, m := Shared(s, Idle), MovesOf(a);
    if |m| == 1 {
      OneMove(cfg, x, m[0]);
      assert m == [m[0]];
    } else {
      OneMove(cfg, x, m[0]);
      var y := Perform(cfg, x, m[0]).value;
      OneMove(cfg, y, m[1]);
      assert m == [m[0]] + [m[1]];
      InterleaveConcat(cfg, x, [m[0]], [m[1]]);
    }
  }

  lemma OneMove(cfg: Config, x: Shared, m: Move)
    ensures Interleave(cfg, x, [m]) == Perform(cfg, x, m)
  {
    hide Perform;
    assert [m][..0] == [];
    assert Interleave(cfg, x, []) == Some(x);
  }

  ghost predicate NoTick(moves: seq<Move>) {
    forall i :: 0 <= i < |moves| ==> !moves[i].TimerTick?
  }

  lemma {:induction false} ActionsAreMoves(cfg: Config, s: State, acts: seq<Action>, t: State) returns (moves: seq<Move>)
    requires Leads(cfg, s, acts, t) && forall i :: 0 <= i < |acts| ==> !acts[i].AgeCache?
    ensures Interleave(cfg, Shared(s, Idle), moves) == Some(Shared(t, Idle)) && NoTick(moves)
    decreases |acts|
  {
    hide Enabled, Apply, Interleave;
    if acts == [] {
      moves := [];
      NoMoves(cfg, Shared(s, Idle));
    } else {
      ActionIsMoves(cfg, s, acts[0]);
      moves := ActionsAreMoves(cfg, Apply(cfg, s, acts[0]), acts[1..], t);
      InterleaveConcat(cfg, Shared(s, Idle), MovesOf(acts[0]), moves);
      moves := MovesOf(acts[0]) + moves;
    }
  }

  lemma NoMoves(cfg: Config, x: Shared)
    ensures Interleave(cfg, x, []) == Some(x)
  {
  }

  /**
   * The packet handler is a packet thread of this kind: what it does about a frame, however it ends, is the
   * passing of time and then a sequence of such moves with no tick in between.
   */
  lemma ReceiveIsMoves(cfg: Config, s: State, at: int, f: Frame, iface: string) returns (moves: seq<Move>)
    requires WaitingSound(cfg, s) && at >= s.clock
    ensures Interleave(cfg, Shared(s, Idle), moves) == Some(Shared(Receive(cfg, s.(clock := at), f, iface).st, Idle))
    ensures NoTick(moves)
  {
    hide WaitingSound, Receive, Leads, Interleave;
    var s0 := s.(clock := at);
    ClockIrrelevant(cfg, s, s0);
    var acts := ReceiveLeads(cfg, s0, f, iface);
    var rest := ActionsAreMoves(cfg, s0, acts, Receive(cfg, s0, f, iface).st);
    OneMove(cfg, Shared(s, Idle), ClockMove(at));
    InterleaveConcat(cfg, Shared(s, Idle), [ClockMove(at)], rest);
    moves := [ClockMove(at)] + rest;
  }

  /** Hence every run is an interleaving, in which the handler of each frame is not interrupted. */
  lemma {:induction false} RunIsInterleaving(cfg: Config, events: seq<Event>) returns (moves: seq<Move>)
    requires Chronological(events) && Run(cfg, events).Done?
    ensures Interleave(cfg, POWER_UP, moves) == Some(Shared(Run(cfg, events).st, Idle))
  {
    hide Inv, Step, Interleave;
    if events == [] {
      moves := [];
      NoMoves(cfg, POWER_UP);
    } else {
      var n := |events| - 1;
      var s, e := Run(cfg, events[..n]).st, events[n];
      var first := RunIsInterleaving(cfg, events[..n]);
      RunIsSafe(cfg, events[..n]);
      InvWaiting(cfg, s);
      var rest := EventIsMoves(cfg, s, e);
      InterleaveConcat(cfg, POWER_UP, first, rest);
      moves := first + rest;
    }
  }

  lemma EventIsMoves(cfg: Config, s: State, e: Event) returns (moves: seq<Move>)
    requires WaitingSound(cfg, s) && e.at >= s.clock && Step(cfg, s, e).Done?
    ensures Interleave(cfg, Shared(s, Idle), moves) == Some(Shared(Step(cfg, s, e).st, Idle))
  {
    hide WaitingSound, Tick, Receive, Interleave;
    match e
    case Timer(at) =>
      moves := [TimerTick(at)];
      OneMove(cfg, Shared(s, Idle), moves[0]);
    case Arrival(at, f, iface) => moves := ReceiveIsMoves(cfg, s, at, f, iface);
  }
}
