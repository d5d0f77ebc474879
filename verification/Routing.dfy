/** Interfaces and routes: `sr_if.c`, `sr_rt.c`, `sr_main.c` and the table scan of `sr_router.c`. */
module Routing {
  import opened Words

  type Mac = m: seq<Byte> | |m| == 6 witness [0, 0, 0, 0, 0, 0]

  /** Names are the NUL-terminated contents of the 32-byte name fields. */
  datatype Iface = Iface(name: string, mac: Mac, ip: Word32)

  datatype Route = Route(dest: Word32, gw: Word32, mask: Word32, iface: string)

  // ----- interfaces

  /** The first interface with that name. */
  function GetIface(ifaces: seq<Iface>, name: string): (r: Option<Iface>)
    ensures r.Some? ==> r.value in ifaces && r.value.name == name
    ensures r.None? ==> forall i :: 0 <= i < |ifaces| ==> ifaces[i].name != name
  {
    if ifaces == [] then None
    else if ifaces[0].name == name then Some(ifaces[0])
    else GetIface(ifaces[1..], name)
  }

  /** `sr_get_interface`. */
  method FindIface(ifaces: seq<Iface>, name: string) returns (r: Option<Iface>)
    ensures r == GetIface(ifaces, name)
  {
    var i := 0;
    while i < |ifaces|
      invariant 0 <= i <= |ifaces|
      invariant GetIface(ifaces, name) == GetIface(ifaces[i..], name)
    {
      if ifaces[i].name == name {
        return Some(ifaces[i]);
      }
      assert ifaces[i..][1..] == ifaces[i + 1..];
      i := i + 1;
    }
    return None;
  }

  /** The number of routes whose interface is missing. */
  function Unresolved(routes: seq<Route>, ifaces: seq<Iface>): nat {
    if routes == [] then 0
    else
      var missing := if GetIface(ifaces, routes[|routes| - 1].iface).None? then 1 else 0;
      Unresolved(routes[..|routes| - 1], ifaces) + missing
  }

  /** The places in the table of the routes whose interface is missing. */
  ghost function Missing(routes: seq<Route>, ifaces: seq<Iface>): set<nat> {
    set i: nat | i < |routes| && GetIface(ifaces, routes[i].iface).None?
  }

  lemma {:induction false} UnresolvedCounts(routes: seq<Route>, ifaces: seq<Iface>)
    ensures Unresolved(routes, ifaces) == |Missing(routes, ifaces)|
  {
    if routes == [] {
      assert Missing(routes, ifaces) == {};
    } else {
      var n := |routes| - 1;
      UnresolvedCounts(routes[..n], ifaces);
      var before := Missing(routes[..n], ifaces);
      assert Missing(routes, ifaces) == before + if GetIface(ifaces, routes[n].iface).None? then {n} else {};
    }
  }

  /** `sr_verify_routing_table`: 999 for an empty list, else how many routes name no interface. */
  method VerifyRoutingTable(routes: seq<Route>, ifaces: seq<Iface>) returns (ret: nat)
    ensures routes == [] || ifaces == [] ==> ret == 999
    ensures routes != [] && ifaces != [] ==> ret == |Missing(routes, ifaces)|
    ensures ret == 0 <==> routes != [] && ifaces != []
                          && forall r :: r in routes ==> GetIface(ifaces, r.iface).Some?
  {
    if ifaces == [] || routes == [] {
      return 999;
    }
    ret := 0;
    for i := 0 to |routes|
      invariant ret == Unresolved(routes[..i], ifaces)
      invariant ret == 0 <==> forall k :: 0 <= k < i ==> GetIface(ifaces, routes[k].iface).Some?
    {
      var found := FindIface(ifaces, routes[i].iface);
      assert routes[..i + 1][..i] == routes[..i];
      if found == None {
        ret := ret + 1;
      }
    }
    assert routes[..|routes|] == routes;
    UnresolvedCounts(routes, ifaces);
  }

  // ----- longest prefix match

  predicate Matches(r: Route, ip: Word32) {
    And(ip, r.mask) == And(r.dest, r.mask)
  }

  function MaskOf(r: Option<Route>): Word32 {
    if r.None? then 0 else r.value.mask
  }

  /** The scan of `sr_findLPMentry`, as the effect of its last iteration. */
  function Lpm(routes: seq<Route>, ip: Word32): Option<Route> {
    if routes == [] then None
    else
      var best := Lpm(routes[..|routes| - 1], ip);
      var r := routes[|routes| - 1];
      if Matches(r, ip) && r.mask > MaskOf(best) then Some(r) else best
  }

  /** The route at `k` is the earliest of those with the greatest non-zero matching mask. */
  ghost predicate Best(routes: seq<Route>, ip: Word32, k: nat) {
    k < |routes| && Matches(routes[k], ip) && routes[k].mask > 0 &&
    (forall j :: 0 <= j < |routes| && Matches(routes[j], ip) ==> routes[j].mask <= routes[k].mask) &&
    (forall j :: 0 <= j < k && Matches(routes[j], ip) ==> routes[j].mask < routes[k].mask)
  }

  /** `sr_findLPMentry`. */
  method FindLpmEntry(routes: seq<Route>, ip: Word32) returns (r: Option<Route>)
    ensures r == Lpm(routes, ip)
    ensures r.Some? <==> exists k :: 0 <= k < |routes| && Matches(routes[k], ip) && routes[k].mask > 0
    ensures r.Some? ==> exists k: nat :: Best(routes, ip, k) && routes[k] == r.value
  {
    r := None;
    var lpmmask := 0;
    ghost var at := 0;
    for i := 0 to |routes|
      invariant r == Lpm(routes[..i], ip) && lpmmask == MaskOf(r)
      invariant r.None? ==> forall j :: 0 <= j < i && Matches(routes[j], ip) ==> routes[j].mask == 0
      invariant r.Some? ==> at < i && routes[at] == r.value && Best(routes[..i], ip, at)
    {
      assert routes[..i + 1][..i] == routes[..i];
      if Matches(routes[i], ip) && routes[i].mask > lpmmask {
        r, lpmmask, at := Some(routes[i]), routes[i].mask, i;
      }
    }
    assert routes[..|routes|] == routes;
  }

  /** What the scan returns, as a property of the table. */
  lemma {:induction false} LpmBest(routes: seq<Route>, ip: Word32) returns (k: nat)
    ensures Lpm(routes, ip).Some? ==> Best(routes, ip, k) && Lpm(routes, ip) == Some(routes[k])
    ensures Lpm(routes, ip).None? ==> forall j :: 0 <= j < |routes| && Matches(routes[j], ip) ==> routes[j].mask == 0
  {
    if routes == [] {
      k := 0;
    } else {
      var n := |routes| - 1;
      k := LpmBest(routes[..n], ip);
      if Matches(routes[n], ip) && routes[n].mask > MaskOf(Lpm(routes[..n], ip)) {
        k := n;
      }
    }
  }

  lemma LpmInTable(routes: seq<Route>, ip: Word32)
    ensures Lpm(routes, ip).Some? ==> Lpm(routes, ip).value in routes && Matches(Lpm(routes, ip).value, ip)
  {
    var k := LpmBest(routes, ip);
  }

  /** Permuting the table can change which record is found but not the prefix it stands for. */
  lemma PermutationKeepsPrefix(a: seq<Route>, b: seq<Route>, ip: Word32)
    requires multiset(a) == multiset(b)
    ensures Lpm(a, ip).Some? <==> Lpm(b, ip).Some?
    ensures Lpm(a, ip).Some? ==>
              var r, q := Lpm(a, ip).value, Lpm(b, ip).value;
              r.mask == q.mask && And(r.dest, r.mask) == And(q.dest, q.mask)
  {
    var j := LpmBest(a, ip);
    var k := LpmBest(b, ip);
    forall r | r in multiset(a) ensures r in a && r in b {}
    if Lpm(a, ip).Some? {
      assert a[j] in multiset(a);
    }
    if Lpm(b, ip).Some? {
      assert b[k] in multiset(b);
    }
  }

  /**
   * `sr_add_rt_entry` appends. An address finds another route than before if and only if the new one matches it
   * with a mask greater than zero and than that of every route that matched; it then finds the new one.
   */
  lemma AppendedRoute(routes: seq<Route>, r: Route, ip: Word32)
    ensures Lpm(routes + [r], ip) != Lpm(routes, ip) <==>
              Matches(r, ip) && r.mask > 0 &&
              forall j :: 0 <= j < |routes| && Matches(routes[j], ip) ==> routes[j].mask < r.mask
    ensures Lpm(routes + [r], ip) != Lpm(routes, ip) ==> Lpm(routes + [r], ip) == Some(r)
  {
    hide And;
    assert (routes + [r])[..|routes|] == routes;
    var k := LpmBest(routes, ip);
  }

  // ----- contiguous masks

  /** A network mask of `n` leading ones. */
  predicate IsPrefixMask(mask: Word32, n: nat) {
    n <= 32 && mask == Mask(n, 32 - n)
  }

  /** Under a contiguous mask, matching is agreement of the leading bits. */
  lemma MatchesIffPrefixAgrees(r: Route, ip: Word32, n: nat)
    requires IsPrefixMask(r.mask, n)
    ensures Matches(r, ip) <==> ShiftRight(ip, 32 - n) == ShiftRight(r.dest, 32 - n)
  {
    hide And, Mask;
    FitsWord(ip);
    FitsWord(r.dest);
    AndMask(ip, n, 32 - n);
    AndMask(r.dest, n, 32 - n);
    if Matches(r, ip) {
      ShiftLeftInjective(ShiftRight(ip, 32 - n), ShiftRight(r.dest, 32 - n), 32 - n);
    }
  }

  lemma FitsWord(x: Word32)
    ensures ShiftRight(x, 32) == 0
  {
    assert ShiftLeft(1, 4) == 0x10 && ShiftLeft(1, 8) == 0x100 && ShiftLeft(1, 12) == 0x1000;
    assert ShiftLeft(1, 16) == 0x1_0000 && ShiftLeft(1, 20) == 0x10_0000 && ShiftLeft(1, 24) == 0x100_0000;
    assert ShiftLeft(1, 28) == 0x1000_0000 && ShiftLeft(1, 32) == 0x1_0000_0000;
    ShiftRightAll(x, 32);
  }

  lemma {:induction false} LongerMaskIsGreater(m: nat, n: nat)
    requires m < n <= 32
    ensures Mask(m, 32 - m) < Mask(n, 32 - n)
    decreases n
  {
    hide Mask;
    MaskGrows(n - 1, 33 - n);
    if m < n - 1 {
      LongerMaskIsGreater(m, n - 1);
    }
  }

  /** The route agrees with `ip` in its first `n` bits. */
  ghost predicate Covers(r: Route, n: nat, ip: Word32) {
    IsPrefixMask(r.mask, n) && ShiftRight(ip, 32 - n) == ShiftRight(r.dest, 32 - n)
  }

  /**
   * For tables of contiguous masks the scan is longest prefix match: it misses exactly when only
   * zero-length prefixes cover the address, and what it finds covers it with the greatest length.
   */
  lemma LongestPrefix(routes: seq<Route>, lengths: seq<nat>, ip: Word32) returns (k: nat)
    requires |lengths| == |routes|
    requires forall i :: 0 <= i < |routes| ==> IsPrefixMask(routes[i].mask, lengths[i])
    ensures Lpm(routes, ip).None? ==> forall i :: 0 <= i < |routes| && Covers(routes[i], lengths[i], ip) ==> lengths[i] == 0
    ensures Lpm(routes, ip).Some? ==>
              k < |routes| && Lpm(routes, ip) == Some(routes[k]) && Covers(routes[k], lengths[k], ip) && lengths[k] > 0
              && forall i :: 0 <= i < |routes| && Covers(routes[i], lengths[i], ip) ==> lengths[i] <= lengths[k]
  {
    hide And, Mask, ShiftRight, Lpm;
    k := LpmBest(routes, ip);
    forall i | 0 <= i < |routes|
      ensures Matches(routes[i], ip) <==> Covers(routes[i], lengths[i], ip)
    {
      MatchesIffPrefixAgrees(routes[i], ip, lengths[i]);
    }
    ZeroMask(32);
    if Lpm(routes, ip).None? {
      forall i | 0 <= i < |routes| && Covers(routes[i], lengths[i], ip)
        ensures lengths[i] == 0
      {
        if lengths[i] > 0 {
          LongerMaskIsGreater(0, lengths[i]);
        }
      }
    } else {
      forall i | 0 <= i < |routes| && Covers(routes[i], lengths[i], ip)
        ensures lengths[i] <= lengths[k]
      {
        if lengths[k] < lengths[i] {
          LongerMaskIsGreater(lengths[k], lengths[i]);
        }
      }
    }
  }

  lemma {:induction false} ZeroMask(j: nat)
    ensures Mask(0, j) == 0
  {
    if j > 0 {
      ZeroMask(j - 1);
    }
  }

  /** After a clean verification, every route that any address finds has an interface. */
  lemma VerifiedRoutesResolve(routes: seq<Route>, ifaces: seq<Iface>, ip: Word32)
    requires forall r :: r in routes ==> GetIface(ifaces, r.iface).Some?
    ensures Lpm(routes, ip).Some? ==> GetIface(ifaces, Lpm(routes, ip).value.iface).Some?
  {
    LpmInTable(routes, ip);
  }
}
