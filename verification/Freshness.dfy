/** How old a mapping can be when a frame is sent to it. */
module Freshness {
  import opened Words
  import opened Routing
  import opened Frames
  import opened Forwarding
  import opened Arp
  import opened Router
  import opened Actions
  import opened Safety
  import opened Runs
  import opened Lifetime

  /** Every valid entry was learned, at the time it bears. */
  ghost predicate Dated(s: State) {
    forall e :: e in s.entries && e.valid ==> Learned(e.added, e.ip, e.mac) in s.log
  }

  /** No valid entry is older than `age`. */
  ghost predicate Young(s: State, age: int) {
    forall e :: e in s.entries && e.valid ==> s.clock - e.added <= age
  }

  /** The IPv4 frame sent at place `i`, if one was, went to a MAC learned for its destination at most `age` before. */
  ghost predicate SentWithin(log: seq<Log>, i: nat, age: int)
    requires i < |log|
  {
    log[i].Sent? && log[i].frame.payload.Ip? ==>
      exists k :: 0 <= k < i && log[k].Learned? && log[k].ip == log[i].frame.payload.h.dst &&
                  log[k].mac == log[i].frame.dhost && log[i].at - log[k].at <= age
  }

  /** `t` adds to the log of `s` only such frames. */
  ghost predicate NewWithin(s: State, t: State, age: int) {
    s.log <= t.log && forall i :: |s.log| <= i < |t.log| ==> SentWithin(t.log, i, age)
  }

  lemma EntriesStayDated(cfg: Config, s: State, a: Action, age: nat)
    requires Enabled(cfg, s, a) && !a.Advance? && Dated(s) && Young(s, age)
    ensures Dated(Apply(cfg, s, a)) && Young(Apply(cfg, s, a), age)
  {
    hide Enabled, Apply;
    var t := Apply(cfg, s, a);
    LogGrows(cfg, s, a);
    ClockStays(cfg, s, a);
    forall e | e in t.entries && e.valid ensures Learned(e.added, e.ip, e.mac) in t.log && t.clock - e.added <= age {
      if e in s.entries {
        assert Learned(e.added, e.ip, e.mac) in s.log;
      } else {
        CacheGrowth(cfg, s, a, e);
        assert t.log[|s.log|] in t.log;
      }
    }
  }

  lemma ClockStays(cfg: Config, s: State, a: Action)
    requires Enabled(cfg, s, a) && !a.Advance?
    ensures Apply(cfg, s, a).clock == s.clock
  {
    hide Enabled, Sound, Lookup, IsAskFor, ProperRequest, ProperReply;
  }

  lemma DirectWithin(cfg: Config, s: State, iface: string, f: Frame, mac: Mac, age: nat)
    requires Enabled(cfg, s, Direct(iface, f, mac)) && Dated(s) && Young(s, age)
    ensures NewWithin(s, SendDirect(s, iface, f, mac), age)
  {
    hide HeaderOk, BlackListed, CleanIfaces, IfaceOf;
    var e, t := Lookup(s.entries, f.payload.h.dst).value, SendDirect(s, iface, f, mac);
    assert Learned(e.added, e.ip, e.mac) in s.log;
    var k :| 0 <= k < |s.log| && s.log[k] == Learned(e.added, e.ip, e.mac);
    assert t.log[k] == s.log[k];
  }

  lemma FlushWithin(cfg: Config, s: State, ip: Word32, mac: Mac, age: nat)
    requires WaitingSound(cfg, s)
    ensures NewWithin(s, Accept(s, ip, mac), age)
  {
    hide HeaderOk, BlackListed, CleanIfaces, SendCheck, Store;
    var t := Accept(s, ip, mac);
    assert t.log[|s.log|] == Learned(s.clock, ip, mac);
    forall i | |s.log| <= i < |t.log| ensures SentWithin(t.log, i, age) {
      if i > |s.log| {
        var n := IpIndex(s.requests, ip);
        var p := s.requests[n].packets[i - |s.log| - 1];
        assert t.log[i] == Sent(s.clock, p.iface, p.frame.(dhost := mac));
        assert Sound(cfg, ip, p.frame, p.iface);
      }
    }
  }

  lemma ActionWithin(cfg: Config, s: State, a: Action, age: nat)
    requires Enabled(cfg, s, a) && WaitingSound(cfg, s) && Dated(s) && Young(s, age)
    ensures NewWithin(s, Apply(cfg, s, a), age)
  {
    hide WaitingSound, Dated, Young, Accept, SendDirect, Sound, Lookup, NodeIndex, Aged;
    match a
    case Direct(iface, f, mac) => DirectWithin(cfg, s, iface, f, mac, age);
    case AcceptReply(ip, mac) => FlushWithin(cfg, s, ip, mac, age);
    case _ =>
  }

  lemma WithinTransitive(s: State, t: State, u: State, age: int)
    requires NewWithin(s, t, age) && NewWithin(t, u, age)
    ensures NewWithin(s, u, age)
  {
    forall i | |s.log| <= i < |u.log| ensures SentWithin(u.log, i, age) {
      if i < |t.log| {
        WithinStays(t.log, u.log, i, age);
      }
    }
  }

  lemma WithinStays(log: seq<Log>, more: seq<Log>, i: nat, age: int)
    requires i < |log| && log <= more && SentWithin(log, i, age)
    ensures SentWithin(more, i, age)
  {
    if log[i].Sent? && log[i].frame.payload.Ip? {
      var k :| 0 <= k < i && log[k].Learned? && log[k].ip == log[i].frame.payload.h.dst &&
                log[k].mac == log[i].frame.dhost && log[i].at - log[k].at <= age;
      assert more[k] == log[k];
    }
  }

  lemma {:induction false} LeadsWithin(cfg: Config, s: State, acts: seq<Action>, t: State, age: nat)
    requires Leads(cfg, s, acts, t) && forall i :: 0 <= i < |acts| ==> !acts[i].Advance?
    requires WaitingSound(cfg, s) && Dated(s) && Young(s, age)
    ensures Dated(t) && Young(t, age) && NewWithin(s, t, age)
    decreases |acts|
  {
    hide Enabled, Apply, WaitingSound, Dated, Young, NewWithin;
    if acts == [] {
      NothingNew(s, age);
    } else {
      var s1 := Apply(cfg, s, acts[0]);
      EntriesStayDated(cfg, s, acts[0], age);
      ActionWithin(cfg, s, acts[0], age);
      StepKeepsWaitingSound(cfg, s, acts[0]);
      LeadsWithin(cfg, s1, acts[1..], t, age);
      WithinTransitive(s, s1, t, age);
    }
  }

  lemma NothingNew(s: State, age: int)
    ensures NewWithin(s, s, age)
  {
  }

  lemma AgedIsYoung(s: State)
    requires Dated(s)
    ensures Dated(Age(s)) && Young(Age(s), 15)
  {
    var t := Age(s);
    forall e | e in t.entries && e.valid ensures e in s.entries && s.clock - e.added <= 15 {
      var k :| 0 <= k < |t.entries| && t.entries[k] == e;
    }
  }

  /**
   * A tick ages the cache before it does anything else: every IPv4 frame it sends, however it ends, goes to a MAC learned
   * for the destination within the last fifteen seconds.
   */
  lemma TickSendsFresh(cfg: Config, s: State, e: Event)
    requires e.Timer? && WaitingSound(cfg, s) && Dated(s)
    ensures var t := Step(cfg, s, e).st; NewWithin(s, t, 15) && Dated(t) && Young(t, 15)
  {
    hide WaitingSound, Step, Leads, Dated, Young;
    var s0, t := s.(clock := e.at), Step(cfg, s, e).st;
    var acts := EventLeads(cfg, s, e);
    LeadsFirst(cfg, s0, acts, t);
    ClockIrrelevant(cfg, s, Age(s0));
    DatedElsewhere(s, s0);
    AgedIsYoung(s0);
    LeadsWithin(cfg, Age(s0), acts[1..], t, 15);
  }

  lemma DatedElsewhere(s: State, t: State)
    requires Dated(s) && t.entries == s.entries && t.log == s.log
    ensures Dated(t)
  {
  }

  lemma ArrivalSendsFresh(cfg: Config, s: State, e: Event, age: nat)
    requires e.Arrival? && WaitingSound(cfg, s) && Dated(s) && Young(s.(clock := e.at), age)
    ensures var t := Step(cfg, s, e).st; NewWithin(s, t, age) && Dated(t) && Young(t, age) && t.clock == e.at
  {
    hide WaitingSound, Step, Leads, Dated, Young;
    var s0, t := s.(clock := e.at), Step(cfg, s, e).st;
    var acts := EventLeads(cfg, s, e);
    ClockIrrelevant(cfg, s, s0);
    DatedElsewhere(s, s0);
    LeadsWithin(cfg, s0, acts, t, age);
    LeadsKeepsClock(cfg, s0, acts, t);
  }

  // ----- runs

  /** No valid entry was stored more than fifteen seconds before the last tick. */
  ghost predicate YoungAt(s: State, tick: int) {
    forall e :: e in s.entries && e.valid ==> tick - e.added <= 15
  }

  ghost predicate AllWithin(log: seq<Log>, age: int) {
    forall i :: 0 <= i < |log| ==> SentWithin(log, i, age)
  }

  lemma WithinMore(s: State, t: State, age: int, more: int)
    requires AllWithin(s.log, more) && NewWithin(s, t, age) && age <= more
    ensures AllWithin(t.log, more)
  {
    forall i | 0 <= i < |t.log| ensures SentWithin(t.log, i, more) {
      if i < |s.log| {
        WithinStays(s.log, t.log, i, more);
      } else {
        WithinLonger(t.log, i, age, more);
      }
    }
  }

  lemma WithinLonger(log: seq<Log>, i: nat, age: int, more: int)
    requires i < |log| && SentWithin(log, i, age) && age <= more
    ensures SentWithin(log, i, more)
  {
  }

  lemma EventSendsFresh(cfg: Config, s: State, e: Event, d: nat, tick: int)
    requires WaitingSound(cfg, s) && Dated(s) && YoungAt(s, tick) && AllWithin(s.log, 15 + d) && tick <= e.at <= tick + d
    ensures var t := Step(cfg, s, e).st;
      Dated(t) && AllWithin(t.log, 15 + d) && (Step(cfg, s, e).Done? ==> YoungAt(t, if e.Timer? then e.at else tick))
  {
    hide WaitingSound, Step, Dated, NewWithin, AllWithin, Leads;
    var t := Step(cfg, s, e).st;
    if e.Timer? {
      TickSendsFresh(cfg, s, e);
      WithinMore(s, t, 15, 15 + d);
      var acts := EventLeads(cfg, s, e);
      LeadsKeepsClock(cfg, s.(clock := e.at), acts, t);
    } else {
      ArrivalSendsFresh(cfg, s, e, 15 + d);
      WithinMore(s, t, 15 + d, 15 + d);
      ArrivalKeepsYoung(cfg, s, e, tick);
    }
  }

  /** An arrival adds no entry that is older than itself. */
  lemma ArrivalKeepsYoung(cfg: Config, s: State, e: Event, tick: int)
    requires e.Arrival? && WaitingSound(cfg, s) && YoungAt(s, tick) && tick <= e.at
    ensures YoungAt(Step(cfg, s, e).st, tick)
  {
    hide WaitingSound, Step, Leads;
    var acts := EventLeads(cfg, s, e);
    LeadsKeepsYoung(cfg, s.(clock := e.at), acts, Step(cfg, s, e).st, tick);
  }

  lemma {:induction false} LeadsKeepsYoung(cfg: Config, s: State, acts: seq<Action>, t: State, tick: int)
    requires Leads(cfg, s, acts, t) && (forall i :: 0 <= i < |acts| ==> !acts[i].Advance?) && YoungAt(s, tick) && tick <= s.clock
    ensures YoungAt(t, tick)
    decreases |acts|
  {
    hide Enabled, Apply;
    if acts != [] {
      var s1 := Apply(cfg, s, acts[0]);
      ClockStays(cfg, s, acts[0]);
      forall e | e in s1.entries && e.valid ensures tick - e.added <= 15 {
        if e !in s.entries {
          CacheGrowth(cfg, s, acts[0], e);
        }
      }
      LeadsKeepsYoung(cfg, s1, acts[1..], t, tick);
    }
  }

  lemma {:induction false} RunKeepsFresh(cfg: Config, events: seq<Event>, start: nat, d: nat)
    requires Chronological(events) && Punctual(start, d, events)
    ensures var o := Run(cfg, events);
      Dated(o.st) && AllWithin(o.st.log, 15 + d) && (o.Done? ==> YoungAt(o.st, LastTick(start, events)))
  {
    hide Step, Inv;
    if events == [] {
      NothingSent(start);
    } else {
      hide Dated, AllWithin, YoungAt;
      var n := |events| - 1;
      var o := Run(cfg, events[..n]);
      assert Punctual(start, d, events[..n]) by { PunctualPrefix(start, d, events, n); }
      RunKeepsFresh(cfg, events[..n], start, d);
      if o.Done? {
        RunIsSafe(cfg, events[..n]);
        InvWaiting(cfg, o.st);
        TickNotAhead(start, d, events, n);
        EventSendsFresh(cfg, o.st, events[n], d, LastTick(start, events[..n]));
      }
    }
  }

  lemma NothingSent(start: nat)
    ensures Dated(INITIAL) && YoungAt(INITIAL, start) && INITIAL.log == []
  {
    forall e | e in INITIAL.entries ensures !e.valid {}
  }

  lemma PunctualPrefix(start: int, d: nat, events: seq<Event>, n: nat)
    requires Punctual(start, d, events) && n <= |events|
    ensures Punctual(start, d, events[..n])
  {
    hide LastTick;
    forall i | 0 <= i < n ensures start <= events[..n][i].at <= LastTick(start, events[..n][..i]) + d {
      assert events[..n][..i] == events[..i];
    }
  }

  lemma {:induction false} TickNotAhead(start: int, d: nat, events: seq<Event>, n: nat)
    requires Chronological(events) && Punctual(start, d, events) && n < |events|
    ensures LastTick(start, events[..n]) <= events[n].at <= LastTick(start, events[..n]) + d
  {
    LastTickIs(start, events[..n]);
  }

  lemma {:induction false} LastTickIs(start: int, events: seq<Event>)
    ensures var t := LastTick(start, events); t == start || exists i :: 0 <= i < |events| && events[i].at == t
  {
    if events != [] && !events[|events| - 1].Timer? {
      var n := |events| - 1;
      LastTickIs(start, events[..n]);
      if LastTick(start, events) != start {
        var i :| 0 <= i < n && events[..n][i].at == LastTick(start, events[..n]);
        assert events[i].at == LastTick(start, events);
      }
    }
  }

  /**
   * With the timer firing at most every `d` seconds, no IPv4 frame is ever sent to a MAC that was learned for its
   * destination more than 15 + d seconds before.
   */
  lemma SentWhileFresh(cfg: Config, events: seq<Event>, start: nat, d: nat, i: nat)
    requires Chronological(events) && Punctual(start, d, events)
    requires var log := Run(cfg, events).st.log; i < |log| && log[i].Sent? && log[i].frame.payload.Ip?
    ensures var log := Run(cfg, events).st.log;
      exists k :: 0 <= k < i && log[k].Learned? && log[k].ip == log[i].frame.payload.h.dst &&
                  log[k].mac == log[i].frame.dhost && log[i].at - log[k].at <= 15 + d
  {
    hide Run;
    RunKeepsFresh(cfg, events, start, d);
    assert SentWithin(Run(cfg, events).st.log, i, 15 + d);
  }
}
