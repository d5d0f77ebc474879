/** Whether a tick comes to its end, told from the state before it. */
module Forecast {
  import opened Words
  import opened Routing
  import opened Forwarding
  import opened Arp
  import opened Router
  import opened Safety
  import opened Accounting
  import opened Cascade
  import opened Sweeping
  import opened Spread

  // ----- the list without what has been given up

  function Left(requests: seq<Request>, gone: set<nat>): (left: seq<Request>)
    ensures forall r :: r in left <==> r in requests && r.node !in gone
  {
    if requests == [] then []
    else if requests[0].node in gone then Left(requests[1..], gone)
    else [requests[0]] + Left(requests[1..], gone)
  }

  lemma {:induction false} LeftOrdered(requests: seq<Request>, gone: set<nat>, bound: nat)
    requires Ordered(requests, bound)
    ensures Ordered(Left(requests, gone), bound)
  {
    if requests != [] {
      var first, rest := requests[0], Left(requests[1..], gone);
      LeftOrdered(requests[1..], gone, bound);
      forall i | 0 <= i < |rest| ensures first.node < rest[i].node {
        assert rest[i] in requests[1..];
      }
      PrependOrdered(first, rest, bound);
    }
  }

  lemma PrependOrdered(first: Request, rest: seq<Request>, bound: nat)
    requires Ordered(rest, bound) && first.node < bound && forall i :: 0 <= i < |rest| ==> first.node < rest[i].node
    ensures Ordered([first] + rest, bound)
  {
  }

  function Without(s: State, gone: set<nat>): (u: State)
    ensures u.entries == s.entries && u.clock == s.clock && u.nextNode == s.nextNode
    ensures forall r :: r in u.requests <==> r in s.requests && r.node !in gone
  {
    LeftOrdered(s.requests, gone, s.nextNode);
    s.(requests := Left(s.requests, gone))
  }

  lemma WithoutPending(s: State, gone: set<nat>, n: nat)
    ensures var u := Without(s, gone);
      (Pending(u, n) <==> Pending(s, n) && n !in gone) && (Pending(u, n) ==> Req(u, n) == Req(s, n))
  {
    hide Without, NodeIndex;
    var u := Without(s, gone);
    if Pending(u, n) {
      OnlyOne(s, Req(u, n));
    }
    if Pending(s, n) && n !in gone {
      OnlyOne(u, Req(s, n));
    }
  }

  /** The first request from place `i` on that has not been given up. */
  function Behind(requests: seq<Request>, i: nat, gone: set<nat>): (n: Option<nat>)
    requires i <= |requests|
    ensures n.None? ==> forall k :: i <= k < |requests| ==> requests[k].node in gone
    ensures n.Some? ==> n.value !in gone && exists j ::
      i <= j < |requests| && requests[j].node == n.value && forall k :: i <= k < j ==> requests[k].node in gone
    decreases |requests| - i
  {
    if i == |requests| then None
    else if requests[i].node !in gone then Some(requests[i].node)
    else Behind(requests, i + 1, gone)
  }

  /** The walk finishes, follows a pointer to a freed request, or does not come back from a request. */
  datatype Verdict = Finishes | Frees | Sticks

  /**
   * Walk the list from place `i` on, skipping what is already given up. The walk sticks at a hopeless request that
   * is trapped or leads to a packet too short to quote. It follows a freed pointer behind one that takes the
   * first request still behind it along.
   */
  ghost function Walk(cfg: Config, s: State, i: nat, gone: set<nat>): Verdict
    requires i <= |s.requests|
    decreases |s.requests| - i
  {
    if i == |s.requests| then Finishes
    else if s.requests[i].node in gone || !Hopeless(s.requests[i], s.clock) then Walk(cfg, s, i + 1, gone)
    else
      var y, u := s.requests[i].node, Without(s, gone);
      var falls, next := Falls(cfg, u, y), Behind(s.requests, i + 1, gone);
      if Trapped(cfg, u, y) || !Legible(u, falls) then Sticks
      else if next.Some? && next.value in falls then Frees
      else Walk(cfg, s, i + 1, gone + falls)
  }

  // ----- cascades depend on the hopeless requests only

  ghost predicate SameHopeless(u: State, t: State) {
    t.entries == u.entries && t.clock == u.clock &&
    forall r :: Hopeless(r, u.clock) ==> (r in t.requests <==> r in u.requests)
  }

  lemma HopelessSame(u: State, t: State, z: nat)
    requires SameHopeless(u, t) && HopelessAt(u, z)
    ensures HopelessAt(t, z) && Req(t, z) == Req(u, z)
  {
    OnlyOne(t, Req(u, z));
  }

  lemma GoesSame(cfg: Config, u: State, t: State, a: Word32, C: set<nat>)
    requires SameHopeless(u, t) && Goes(cfg, u, a, C) && forall z :: z in C ==> HopelessAt(u, z)
    ensures Goes(cfg, t, a, C)
  {
    hide NodeIndex, Lookup, Lpm, SameHopeless;
    var z :| z in C && Pending(u, z) && Req(u, z).ip == a;
    HopelessSame(u, t, z);
    assert t.entries == u.entries by { SameEntries(u, t); }
  }

  lemma SameEntries(u: State, t: State)
    requires SameHopeless(u, t)
    ensures t.entries == u.entries
  {
  }

  lemma WaysSame(cfg: Config, u: State, t: State, y: nat, C: set<nat>)
    requires SameHopeless(u, t) && HopelessAt(u, y) && forall z :: z in C ==> HopelessAt(u, z)
    ensures HopelessAt(t, y)
    ensures SenderIn(cfg, u, Req(u, y), C) ==> SenderIn(cfg, t, Req(t, y), C)
    ensures SelfIn(cfg, u, Req(u, y), C) ==> SelfIn(cfg, t, Req(t, y), C)
  {
    hide NodeIndex, Goes, SameHopeless, HopelessAt;
    HopelessSame(u, t, y);
    if SenderIn(cfg, u, Req(u, y), C) {
      var p :| p in Req(u, y).packets && p.frame.payload.Ip? && Goes(cfg, u, p.frame.payload.h.src, C);
      GoesSame(cfg, u, t, p.frame.payload.h.src, C);
    }
    if SelfIn(cfg, u, Req(u, y), C) {
      GoesSame(cfg, u, t, OutIface(cfg, Req(u, y).ip).value.ip, C);
    }
  }

  lemma TrappedSame(cfg: Config, u: State, t: State, y: nat)
    requires SameHopeless(u, t) && Trapped(cfg, u, y)
    ensures Trapped(cfg, t, y)
  {
    hide NodeIndex, SenderIn, SelfIn, SameHopeless;
    var C :| Trap(cfg, u, C) && SenderIn(cfg, u, Req(u, y), C);
    assert forall z :: z in C ==> HopelessAt(u, z);
    WaysSame(cfg, u, t, y, C);
    forall z | z in C
      ensures Pending(t, z) && Hopeless(Req(t, z), t.clock) && (SenderIn(cfg, t, Req(t, z), C) || SelfIn(cfg, t, Req(t, z), C))
    {
      WaysSame(cfg, u, t, z, C);
    }
    assert Trap(cfg, t, C);
  }

  lemma EnclosesSame(cfg: Config, u: State, t: State, y: nat, G: set<nat>)
    requires SameHopeless(u, t) && SameHopeless(t, u) && Encloses(cfg, u, y, G)
    ensures Encloses(cfg, t, y, G)
  {
    hide NodeIndex, SenderIn, SelfIn, SameHopeless;
    forall z | Tells(cfg, t, y, z) ensures z in G {
      assert HopelessAt(t, y) && HopelessAt(t, z);
      WaysSame(cfg, t, u, y, {z});
      HopelessSame(t, u, z);
      assert Tells(cfg, u, y, z);
    }
    forall w, z | w in G && Passes(cfg, t, w, z) ensures z in G {
      WaysSame(cfg, t, u, w, {z});
      HopelessSame(t, u, z);
      assert Passes(cfg, u, w, z);
    }
  }

  lemma ReachSame(cfg: Config, u: State, t: State, y: nat)
    requires SameHopeless(u, t) && SameHopeless(t, u)
    ensures Reach(cfg, u, y) <= Reach(cfg, t, y)
  {
    hide Encloses, SameHopeless, NodeIndex;
    ReachIsHopeless(cfg, u, y);
    forall z | z in Reach(cfg, u, y) ensures z in Reach(cfg, t, y) {
      HopelessSame(u, t, z);
      HopelessIsNode(t, z);
      forall G | Encloses(cfg, t, y, G) ensures z in G {
        EnclosesSame(cfg, t, u, y, G);
      }
    }
  }

  lemma LegibleSame(u: State, t: State, G: set<nat>)
    requires SameHopeless(t, u) && Legible(u, G)
    ensures Legible(t, G)
  {
    hide NodeIndex, SameHopeless, Quotable;
    forall z, p | z in G && HopelessAt(t, z) && p in Req(t, z).packets ensures Quotable(p) {
      HopelessSame(t, u, z);
    }
  }

  lemma GentleIsSame(u: State, t: State)
    requires Gentle(u, t)
    ensures SameHopeless(u, t) && SameHopeless(t, u)
  {
    hide NodeIndex;
  }

  /** What the forecast says of the list `u` that is left holds of the real one. */
  lemma ForecastIsReal(cfg: Config, u: State, t: State, y: nat)
    requires Gentle(u, t) && HopelessAt(u, y)
    ensures HopelessAt(t, y) && Falls(cfg, t, y) == Falls(cfg, u, y)
    ensures (Trapped(cfg, t, y) <==> Trapped(cfg, u, y)) && (Legible(t, Falls(cfg, t, y)) <==> Legible(u, Falls(cfg, u, y)))
  {
    hide Gentle, Trapped, Legible, Reach, SameHopeless, HopelessAt;
    GentleIsSame(u, t);
    HopelessSame(u, t, y);
    ReachSame(cfg, u, t, y);
    ReachSame(cfg, t, u, y);
    if Trapped(cfg, u, y) {
      TrappedSame(cfg, u, t, y);
    }
    if Trapped(cfg, t, y) {
      TrappedSame(cfg, t, u, y);
    }
    if Legible(u, Falls(cfg, u, y)) {
      LegibleSame(u, t, Falls(cfg, u, y));
    }
    if Legible(t, Falls(cfg, t, y)) {
      LegibleSame(t, u, Falls(cfg, t, y));
    }
  }

  // ----- one step of the walk

  /** After a hopeless request is handled, the list is as it was but for what fell. */
  lemma CascadeLeaves(cfg: Config, s: State, gone: set<nat>, t: State, y: nat)
    requires Gentle(Without(s, gone), t) && HopelessAt(Without(s, gone), y) && DistinctAddresses(t)
    requires Handle(cfg, t, y, Unbounded(t)).Done?
    ensures Gentle(Without(s, gone + Falls(cfg, Without(s, gone), y)), Handle(cfg, t, y, Unbounded(t)).st)
    ensures DistinctAddresses(Handle(cfg, t, y, Unbounded(t)).st)
    ensures forall n :: Pending(t, n) && !HopelessAt(t, n) ==> Pending(Handle(cfg, t, y, Unbounded(t)).st, n)
  {
    hide Without, NodeIndex, Handle, Reach, DistinctAddresses, Stems, Persists, FromSelf, Falls;
    var u, F := Without(s, gone), Falls(cfg, Without(s, gone), y);
    var v, t' := Without(s, gone + F), Handle(cfg, t, y, Unbounded(t)).st;
    ForecastIsReal(cfg, u, t, y);
    CascadeRemovesReach(cfg, t, y);
    HandleDistinct(cfg, t, y, Unbounded(t));
    HandlePersists(cfg, t, y, Unbounded(t));
    HandleStems(cfg, t, y, Unbounded(t));
    FallsIsHopeless(cfg, t, y);
    PersistsFrame(t, t');
    forall n: nat | n < v.nextNode ensures Pending(t', n) <==> Pending(v, n) {
      WithoutPending(s, gone, n);
      WithoutPending(s, gone + F, n);
      if Pending(t', n) && !Pending(t, n) {
        PersistsGone(t, t', n);
      }
    }
    forall r | Hopeless(r, v.clock) ensures r in t'.requests <==> r in v.requests {
      FellOrStayed(cfg, t, t', F, r);
    }
  }

  lemma PersistsFrame(s: State, t: State)
    requires Persists(s, t)
    ensures t.entries == s.entries && t.clock == s.clock && s.nextNode <= t.nextNode
  {
  }

  lemma FallsIsHopeless(cfg: Config, s: State, y: nat)
    requires HopelessAt(s, y)
    ensures forall z :: z in Falls(cfg, s, y) ==> HopelessAt(s, z)
  {
    hide HopelessAt;
    ReachIsHopeless(cfg, s, y);
  }

  lemma FellOrStayed(cfg: Config, t: State, t': State, F: set<nat>, r: Request)
    requires Stems(cfg, t, t') && Hopeless(r, t.clock)
    requires forall z :: HopelessAt(t, z) ==> (Pending(t', z) <==> z !in F) && (Pending(t', z) ==> Req(t', z) == Req(t, z))
    ensures r in t'.requests <==> r in t.requests && r.node !in F
  {
    hide NodeIndex, FromSelf;
    if r in t'.requests {
      OnlyOne(t', r);
      assert HopelessAt(t, r.node);
    }
    if r in t.requests {
      OnlyOne(t, r);
      assert HopelessAt(t, r.node);
      if r.node !in F {
        assert Req(t', r.node) == r;
      }
    }
  }

  /** Where the walk stands: at the first request left from place `i` on, or past all that were there at the start. */
  ghost predicate At(s: State, i: nat, gone: set<nat>, t: State, cur: Option<nat>)
    requires i <= |s.requests|
  {
    var b := Behind(s.requests, i, gone);
    if b.Some? then cur == b && Pending(t, b.value) else cur.Some? ==> Pending(t, cur.value) && cur.value >= s.nextNode
  }

  /** What is pending after place `i`, and is not new, has its place in the list. */
  lemma PlaceOf(s: State, i: nat, gone: set<nat>, t: State, m: nat) returns (k: nat)
    requires i < |s.requests| && Gentle(Without(s, gone), t) && Pending(t, m) && s.requests[i].node < m < s.nextNode
    ensures i < k < |s.requests| && s.requests[k].node == m && m !in gone
  {
    hide Without;
    WithoutPending(s, gone, m);
    k := NodeIndex(s.requests, m);
  }

  lemma PlacePending(s: State, j: nat, gone: set<nat>, t: State)
    requires j < |s.requests| && s.requests[j].node !in gone && Gentle(Without(s, gone), t)
    ensures Pending(t, s.requests[j].node)
  {
    hide Without;
    NodeIndexIs(s.requests, s.nextNode, j);
    WithoutPending(s, gone, s.requests[j].node);
  }

  /** The saved successor. */
  lemma NextBehind(s: State, i: nat, gone: set<nat>, t: State)
    requires i < |s.requests| && Gentle(Without(s, gone), t) && Pending(t, s.requests[i].node)
    ensures At(s, i + 1, gone, t, Next(t, s.requests[i].node))
  {
    hide Without, Behind, Next, Gentle, NodeIndex;
    var y, b := s.requests[i].node, Behind(s.requests, i + 1, gone);
    var next := Next(t, y);
    if b.Some? {
      var j :| i < j < |s.requests| && s.requests[j].node == b.value && forall k :: i < k < j ==> s.requests[k].node in gone;
      PlacePending(s, j, gone, t);
      NextIsLeast(t, y, b.value);
      var k := PlaceOf(s, i, gone, t, next.value);
    } else if next.Some? {
      NextAfter(t, y);
      if next.value < s.nextNode {
        var k := PlaceOf(s, i, gone, t, next.value);
      }
    }
  }

  lemma BehindStays(requests: seq<Request>, i: nat, gone: set<nat>, more: set<nat>)
    requires i <= |requests| && gone <= more
    requires Behind(requests, i, gone).Some? ==> Behind(requests, i, gone).value !in more
    ensures Behind(requests, i, more) == Behind(requests, i, gone)
    decreases |requests| - i
  {
  }

  /** Past the requests that were there at the start there is nothing hopeless, and the walk ends. */
  lemma {:induction false} SweepFresh(cfg: Config, t: State, cur: Option<nat>, bound: nat)
    requires Verified(cfg) && Routed(cfg, t) && (cur.Some? ==> Pending(t, cur.value) && cur.value >= bound)
    requires forall n: nat :: HopelessAt(t, n) ==> n < bound
    ensures Sweep(cfg, t, cur).Done?
    ensures forall n :: Pending(t, n) ==> Pending(Sweep(cfg, t, cur).st, n)
    decreases |Overdue(t)|, Ahead(t, cur)
  {
    hide Verified, Routed, Handle, Overdue, NodeIndex, Gentle, Encloses, Legible;
    if cur.Some? {
      var b, next := Live(Nodes(t.requests)), Next(t, cur.value);
      assert !HopelessAt(t, cur.value);
      assert Legible(t, {}) by { LegibleNothing(t); }
      HandleReads(cfg, t, cur.value, Nodes(t.requests), {});
      HandleGentle(cfg, t, cur.value, b);
      var t' := Handle(cfg, t, cur.value, b).st;
      SweepProgress(cfg, t, cur.value);
      GentleIsSame(t, t');
      forall n: nat | HopelessAt(t', n) ensures n < bound { HopelessSame(t', t, n); }
      forall n | Pending(t, n) ensures Pending(t', n) { GentlePending(t, t', n); }
      if next.Some? {
        NextAfter(t, cur.value);
      }
      SweepFresh(cfg, t', next, bound);
    }
  }

  lemma LegibleNothing(s: State)
    ensures Legible(s, {})
  {
  }

  // ----- the theorem

  /** One hopeless request on the way. */
  lemma HopelessStep(cfg: Config, s: State, i: nat, gone: set<nat>, t: State)
    requires Verified(cfg) && Routed(cfg, t) && DistinctAddresses(t) && Gentle(Without(s, gone), t)
    requires i < |s.requests| && s.requests[i].node !in gone && Hopeless(s.requests[i], s.clock)
    ensures HopelessAt(Without(s, gone), s.requests[i].node) && Pending(t, s.requests[i].node)
    ensures var y, u := s.requests[i].node, Without(s, gone); var F := Falls(cfg, u, y); var o := Handle(cfg, t, y, Unbounded(t));
      (o.Done? <==> !Trapped(cfg, u, y) && Legible(u, F)) &&
      (o.Done? ==> Routed(cfg, o.st) && DistinctAddresses(o.st) && Gentle(Without(s, gone + F), o.st) &&
                   forall n :: Pending(t, n) && !HopelessAt(t, n) ==> Pending(o.st, n) && !HopelessAt(o.st, n))
  {
    hide Verified, Routed, DistinctAddresses, Gentle, Without, NodeIndex, Trapped, Legible, Falls, Handle, Stems;
    var y, u := s.requests[i].node, Without(s, gone);
    assert s.requests[i] in u.requests;
    OnlyOne(u, s.requests[i]);
    ForecastIsReal(cfg, u, t, y);
    CascadeEndsIff(cfg, t, y);
    if Handle(cfg, t, y, Unbounded(t)).Done? {
      CascadeLeaves(cfg, s, gone, t, y);
      var t' := Handle(cfg, t, y, Unbounded(t)).st;
      HandleStems(cfg, t, y, Unbounded(t));
      forall n | HopelessAt(t', n) ensures HopelessAt(t, n) { StemsAt(cfg, t, t', n); }
    }
  }

  /** One request on the way that is not hopeless. */
  lemma OtherStep(cfg: Config, s: State, i: nat, gone: set<nat>, t: State)
    requires Verified(cfg) && Routed(cfg, t) && DistinctAddresses(t) && Gentle(Without(s, gone), t)
    requires i < |s.requests| && s.requests[i].node !in gone && !Hopeless(s.requests[i], s.clock)
    ensures Pending(t, s.requests[i].node)
    ensures var o := Handle(cfg, t, s.requests[i].node, Unbounded(t));
      o.Done? && Routed(cfg, o.st) && DistinctAddresses(o.st) && Gentle(Without(s, gone), o.st) &&
      (forall n :: Pending(t, n) ==> Pending(o.st, n)) && (forall n :: HopelessAt(o.st, n) <==> HopelessAt(t, n))
  {
    hide Verified, Routed, DistinctAddresses, Gentle, Without, NodeIndex, Handle, Encloses, Legible, SameHopeless;
    var y, u := s.requests[i].node, Without(s, gone);
    PlacePending(s, i, gone, t);
    assert !HopelessAt(t, y) by {
      if HopelessAt(t, y) {
        GentleIsSame(u, t);
        HopelessSame(t, u, y);
        WithoutPending(s, gone, y);
        OnlyOne(s, s.requests[i]);
      }
    }
    LegibleNothing(t);
    HandleReads(cfg, t, y, Nodes(t.requests), {});
    HandleGentle(cfg, t, y, Unbounded(t));
    HandleDistinct(cfg, t, y, Unbounded(t));
    var t' := Handle(cfg, t, y, Unbounded(t)).st;
    GentleTransitive(u, t, t');
    GentleIsSame(t, t');
    forall n | Pending(t, n) ensures Pending(t', n) { GentlePending(t, t', n); }
    forall n ensures HopelessAt(t', n) <==> HopelessAt(t, n) {
      if HopelessAt(t', n) {
        HopelessSame(t', t, n);
      }
      if HopelessAt(t, n) {
        HopelessSame(t, t', n);
      }
    }
  }

  /** Nothing hopeless is new. */
  lemma HopelessIsOld(s: State, gone: set<nat>, t: State)
    requires Gentle(Without(s, gone), t)
    ensures forall n: nat :: HopelessAt(t, n) ==> n < s.nextNode
  {
    hide Without, Gentle, NodeIndex, SameHopeless;
    GentleIsSame(Without(s, gone), t);
    forall n: nat | HopelessAt(t, n) ensures n < s.nextNode {
      HopelessSame(t, Without(s, gone), n);
      PendingBound(Without(s, gone), n);
    }
  }

  /** As forecast. */
  ghost predicate TurnsOut(o: Outcome, v: Verdict) {
    (o.Done? <==> v == Finishes) && (o.Fault? && o.why == FreedRequest <==> v == Frees)
  }

  lemma {:induction false} SweepTurnsOut(cfg: Config, s: State, i: nat, gone: set<nat>, t: State, cur: Option<nat>)
    requires Verified(cfg) && Routed(cfg, t) && DistinctAddresses(t) && Gentle(Without(s, gone), t)
    requires i <= |s.requests| && At(s, i, gone, t, cur)
    ensures TurnsOut(Sweep(cfg, t, cur), Walk(cfg, s, i, gone))
    ensures Sweep(cfg, t, cur).Done? ==> forall n :: Pending(t, n) && !HopelessAt(t, n) ==> Pending(Sweep(cfg, t, cur).st, n)
    decreases |s.requests| - i
  {
    hide Verified, Routed, DistinctAddresses, Gentle, Without, NodeIndex, Trapped, Legible, Falls, Handle, HopelessAt, Overdue, Sweep;
    if cur.Some? {
      SweepUnrolls(cfg, t, cur.value);
    }
    if i == |s.requests| {
      HopelessIsOld(s, gone, t);
      SweepFresh(cfg, t, cur, s.nextNode);
    } else if s.requests[i].node in gone {
      SweepTurnsOut(cfg, s, i + 1, gone, t, cur);
    } else if !Hopeless(s.requests[i], s.clock) {
      OtherStep(cfg, s, i, gone, t);
      NextBehind(s, i, gone, t);
      var y := s.requests[i].node;
      SweepTurnsOut(cfg, s, i + 1, gone, Handle(cfg, t, y, Unbounded(t)).st, Next(t, y));
    } else {
      HopelessStep(cfg, s, i, gone, t);
      NextBehind(s, i, gone, t);
      var y, F := s.requests[i].node, Falls(cfg, Without(s, gone), s.requests[i].node);
      var o, next := Handle(cfg, t, y, Unbounded(t)), Next(t, y);
      if o.Done? {
        SuccessorStays(cfg, s, i, gone, t);
        if next.Some? {
          SweepUnrolls(cfg, o.st, next.value);
        }
        if next.Some? ==> Pending(o.st, next.value) {
          SweepTurnsOut(cfg, s, i + 1, gone + F, o.st, next);
        }
      } else {
        HandleKeepsNode(cfg, t, y, Nodes(t.requests));
      }
    }
  }

  /** The saved successor is freed exactly if it was there at the start and fell. */
  lemma SuccessorStays(cfg: Config, s: State, i: nat, gone: set<nat>, t: State)
    requires Verified(cfg) && Routed(cfg, t) && DistinctAddresses(t) && Gentle(Without(s, gone), t)
    requires i < |s.requests| && s.requests[i].node !in gone && Hopeless(s.requests[i], s.clock)
    requires Pending(t, s.requests[i].node) && Handle(cfg, t, s.requests[i].node, Unbounded(t)).Done?
    ensures var y := s.requests[i].node; var t', next := Handle(cfg, t, y, Unbounded(t)).st, Next(t, y);
      var b, F := Behind(s.requests, i + 1, gone), Falls(cfg, Without(s, gone), y);
      ((next.Some? ==> Pending(t', next.value)) <==> (b.Some? ==> b.value !in F)) &&
      ((b.Some? ==> b.value !in F) ==> At(s, i + 1, gone + F, t', next))
  {
    hide Verified, Routed, DistinctAddresses, Gentle, Without, NodeIndex, Trapped, Legible, Falls, Handle, Behind, Next;
    var y := s.requests[i].node;
    var t', next := Handle(cfg, t, y, Unbounded(t)).st, Next(t, y);
    var b, F := Behind(s.requests, i + 1, gone), Falls(cfg, Without(s, gone), y);
    NextBehind(s, i, gone, t);
    HopelessStep(cfg, s, i, gone, t);
    if b.Some? {
      var j :| i < j < |s.requests| && s.requests[j].node == b.value && forall k :: i < k < j ==> s.requests[k].node in gone;
      PendingBound(t, b.value);
      StaysIff(s, gone, F, t', b.value, j);
    } else if next.Some? {
      HopelessIsOld(s, gone, t);
    }
    if b.Some? ==> b.value !in F {
      BehindStays(s.requests, i + 1, gone, gone + F);
    }
  }

  lemma StaysIff(s: State, gone: set<nat>, F: set<nat>, t: State, n: nat, j: nat)
    requires Gentle(Without(s, gone + F), t) && j < |s.requests| && s.requests[j].node == n && n !in gone
    ensures Pending(t, n) <==> n !in F
  {
    hide Without, NodeIndex;
    OnlyOne(s, s.requests[j]);
    WithoutPending(s, gone + F, n);
    PendingBound(s, n);
  }

  lemma StartsGentle(s: State)
    ensures Gentle(Without(s, {}), s)
  {
    hide Without, NodeIndex;
    forall n: nat ensures Pending(Without(s, {}), n) <==> Pending(s, n) { WithoutPending(s, {}, n); }
  }

  lemma StartsAt(s: State)
    ensures At(s, 0, {}, s, Head(s))
  {
    if s.requests != [] {
      NodeIndexIs(s.requests, s.nextNode, 0);
    }
  }

  /**
   * What becomes of a tick, told from the state before it: it comes to its end if and only if the walk over that
   * list finishes, and it follows a pointer to a freed request if and only if the walk does.
   */
  lemma TickTurnsOut(cfg: Config, s: State)
    requires Verified(cfg) && Routed(cfg, s) && DistinctAddresses(s)
    ensures TurnsOut(Tick(cfg, s), Walk(cfg, Age(s), 0, {}))
    ensures Tick(cfg, s).Done? ==> forall n :: Pending(s, n) && !HopelessAt(s, n) ==> Pending(Tick(cfg, s).st, n)
  {
    hide Verified, NodeIndex, Sweep, Walk, At, Lpm;
    var u := Age(s);
    StartsGentle(u);
    StartsAt(u);
    SweepTurnsOut(cfg, u, 0, {}, u, Head(u));
  }

  lemma {:induction false} SweepPersists(cfg: Config, s: State, cur: Option<nat>)
    requires Sweep(cfg, s, cur).Done?
    ensures Persists(s, Sweep(cfg, s, cur).st)
    decreases |Overdue(s)|, Ahead(s, cur)
  {
    hide Handle, Overdue, NodeIndex, Persists;
    if cur.None? {
      SamePersists(s, s);
    } else {
      var s1 := Handle(cfg, s, cur.value, Unbounded(s)).st;
      SweepProgress(cfg, s, cur.value);
      HandlePersists(cfg, s, cur.value, Unbounded(s));
      SweepPersists(cfg, s1, Next(s, cur.value));
      PersistsTransitive(s, s1, Sweep(cfg, s1, Next(s, cur.value)).st);
    }
  }

  /** Whatever the order, and whatever was skipped, a tick that ends has given up exactly the hopeless requests. */
  lemma TickGivesUpHopeless(cfg: Config, s: State)
    requires Verified(cfg) && Routed(cfg, s) && DistinctAddresses(s) && Tick(cfg, s).Done?
    ensures forall n: nat :: n < s.nextNode ==> (Pending(Tick(cfg, s).st, n) <==> Pending(s, n) && !HopelessAt(s, n))
  {
    hide Verified, NodeIndex, Sweep, Routed, DistinctAddresses, Overdue;
    var t := Tick(cfg, s).st;
    TickTurnsOut(cfg, s);
    TickSettles(cfg, s);
    SweepPersists(cfg, Age(s), Head(s));
    forall n: nat | n < s.nextNode && Pending(t, n) ensures Pending(s, n) && !HopelessAt(s, n) {
      OverdueIsDue(t, n);
      assert HopelessAt(s, n) ==> Kept(Req(Age(s), n), Req(t, n));
    }
  }
}
