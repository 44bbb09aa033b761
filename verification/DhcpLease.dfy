/** The lease timers over whole runs of the DHCP client (src/core/dhcp.c): when it renews, when
    it rebinds, and when it drops the address. */
module DhcpLease {
  import opened DhcpClient
  import opened DhcpTiming
  import opened Memory

  /** A run that goes on from some client. */
  function Steps(c: Client, steps: seq<Step>): Client
    decreases |steps|
  {
    if steps == [] then c else Apply(Steps(c, steps[..|steps| - 1]), steps[|steps| - 1])
  }

  function CoarseTicks(steps: seq<Step>): nat {
    if steps == [] then 0 else CoarseTicks(steps[..|steps| - 1]) + if steps[|steps| - 1].Coarse? then 1 else 0
  }

  function FineTicksIn(steps: seq<Step>): nat {
    if steps == [] then 0 else FineTicksIn(steps[..|steps| - 1]) + if steps[|steps| - 1].Fine? then 1 else 0
  }

  lemma {:induction false} StepsInv(c: Client, steps: seq<Step>)
    requires Inv(c)
    ensures Inv(Steps(c, steps))
    decreases |steps|
  {
    hide Inv, Apply;
    if steps != [] {
      StepsInv(c, steps[..|steps| - 1]);
      ApplyInv(Steps(c, steps[..|steps| - 1]), steps[|steps| - 1]);
    }
  }

  // ---------------------------------------------------------------- the counters

  datatype Fires = Nothing | T1 | T2

  /** The two counters of dhcp_coarse_tmr after n ticks. */
  function Counters(t1: u16, t2: u16, n: nat): (u16, u16) {
    if n == 0 then (t1, t2)
    else
      var (u1, u2) := Counters(t1, t2, n - 1);
      (if u2 == 1 then u1 else Dec16(u1), Dec16(u2))
  }

  /** What the n-th tick fires. */
  function FiresOn(t1: u16, t2: u16, n: nat): Fires
    requires n > 0
  {
    var (u1, u2) := Counters(t1, t2, n - 1);
    if u2 == 1 then T2 else if u1 == 1 then T1 else Nothing
  }

  /** The ticks until a counter gets to zero; one that is zero wraps around. */
  function Due(t: u16): nat { if t == 0 then 0x1_0000 else t }

  lemma {:induction false} CountersAt(t1: u16, t2: u16, n: nat)
    requires n <= 0x1_0000
    ensures Counters(t1, t2, n).1 == if n <= t2 then t2 - n else 0x1_0000 - (n - t2)
    ensures var k := if n >= Due(t2) then n - 1 else n;
            Counters(t1, t2, n).0 == if k <= t1 then t1 - k else 0x1_0000 - (k - t1)
  {
    if n > 0 {
      CountersAt(t1, t2, n - 1);
    }
  }

  /** t2 fires on exactly the t2-th tick; t1 on exactly the t1-th if it is the shorter one, and
      otherwise one tick late, since t2 keeps the tick on which it fires to itself. Neither
      fires again in the first 65536 ticks. */
  lemma TimersFireOnce(t1: u16, t2: u16, n: nat)
    requires 1 <= n <= 0x1_0000
    ensures FiresOn(t1, t2, n) == T2 <==> n == Due(t2)
    ensures FiresOn(t1, t2, n) == T1 <==> n == if Due(t1) < Due(t2) then Due(t1) else Due(t1) + 1
  {
    CountersAt(t1, t2, n - 1);
  }

  /** A coarse tick counts like that, whatever else it does. */
  lemma CoarseTimerCounts(c: Client, ok: bool)
    ensures var c' := CoarseTimer(c, ok);
            c'.t2 == Dec16(c.t2) && c'.t1 == (if c.t2 == 1 then c.t1 else Dec16(c.t1)) && SameLease(c', c)
    ensures c.t2 == 1 && TimersCount(c.state) ==> CoarseTimer(c, ok).state.REBINDING?
    ensures c.t2 != 1 && c.t1 == 1 && TimersCount(c.state) ==> CoarseTimer(c, ok).state.RENEWING?
    ensures (c.t2 != 1 && c.t1 != 1) || !TimersCount(c.state) ==>
            var c' := CoarseTimer(c, ok); c' == c.(t1 := c'.t1, t2 := c'.t2)
  {
    hide Power;
  }

  /** No other step touches the lease timers unless it binds the interface again. */
  lemma OnlyBindSetsTimers(c: Client, s: Step)
    requires Inv(c) && !s.Coarse? && !Binds(c, s)
    ensures Apply(c, s).t1 == c.t1 && Apply(c, s).t2 == c.t2
  {
    hide Power, Discover, Select, Check, Renew, Rebind, Release, Decline, Bind, Receive, Inv;
    match s
    case Fine(ok, ok2) =>
      var c0 := c.(requestTimeout := 0);
      KeepTimers(c0, ok);
      KeepTimers(Release(c0, ok), ok2);
    case Packet(m, ok) => PacketKeepsTimers(c, m, ok);
    case Arp(addr, ok) => KeepTimers(c, ok);
    case AppRenew(ok) => KeepTimers(c, ok);
    case AppRelease(ok) => KeepTimers(c, ok);
  }

  predicate Binds(c: Client, s: Step) { Apply(c, s).state.BOUND? && !c.state.BOUND? }

  lemma PacketKeepsTimers(c: Client, m: Reply, ok: bool)
    requires !Receive(c, m, ok).state.BOUND? || c.state.BOUND?
    ensures Receive(c, m, ok).t1 == c.t1 && Receive(c, m, ok).t2 == c.t2
  {
    hide Power, Discover, Select, Check, Renew, Rebind, Release, Decline, Bind;
    var c0 := c.(requestTimeout := 0);
    KeepTimers(HandleAck(c, m).(requestTimeout := 0, ack := Acked(m.xid, m.yiaddr)), ok);
    KeepTimers(c.(requestTimeout := 0, ack := Acked(m.xid, m.yiaddr)), ok);
    KeepTimers(SetState(c0.(up := false, ipAddr := 0, gw := 0, netmask := 0), BACKING_OFF), ok);
    if m.serverId.Some? {
      KeepTimers(c0.(server := m.serverId.value, offered := m.yiaddr), ok);
    }
  }

  lemma KeepTimers(c: Client, ok: bool)
    ensures Discover(c, ok).t1 == Select(c, ok).t1 == Check(c).t1 == Renew(c, ok).t1 == Release(c, ok).t1 ==
            Decline(c, ok).t1 == c.t1
    ensures Discover(c, ok).t2 == Select(c, ok).t2 == Check(c).t2 == Renew(c, ok).t2 == Release(c, ok).t2 ==
            Decline(c, ok).t2 == c.t2
    ensures Rebind(c, ok).t1 == c.t1 && Rebind(c, ok).t2 == c.t2 && Bind(c).state.BOUND?
  {
    hide Discover, Select, Check, Renew, Rebind, Release, Decline, LeaseTicks, FirstHost, SafeMask;
    AskingKeepsTimers(c, ok);
    HoldingKeepsTimers(c, ok);
  }

  lemma AskingKeepsTimers(c: Client, ok: bool)
    ensures Discover(c, ok).t1 == Select(c, ok).t1 == Check(c).t1 == Decline(c, ok).t1 == c.t1
    ensures Discover(c, ok).t2 == Select(c, ok).t2 == Check(c).t2 == Decline(c, ok).t2 == c.t2
  {
    hide Power;
  }

  lemma HoldingKeepsTimers(c: Client, ok: bool)
    ensures Renew(c, ok).t1 == Rebind(c, ok).t1 == Release(c, ok).t1 == c.t1
    ensures Renew(c, ok).t2 == Rebind(c, ok).t2 == Release(c, ok).t2 == c.t2
  {
    hide Power;
  }

  /** The client does not bind its interface in the run. */
  predicate NeverBinds(c: Client, steps: seq<Step>) {
    forall k :: 0 <= k < |steps| ==> !Binds(Steps(c, steps[..k]), steps[k])
  }

  /** Over every run, in whatever states, the timers count the coarse ticks since the interface
      was bound. */
  lemma {:induction false} TimersCountTicks(c: Client, steps: seq<Step>)
    requires Inv(c) && NeverBinds(c, steps)
    ensures (Steps(c, steps).t1, Steps(c, steps).t2) == Counters(c.t1, c.t2, CoarseTicks(steps))
    decreases |steps|
  {
    hide Inv, Apply, NeverBinds, CoarseTicks, Binds;
    LastTick(steps);
    if steps != [] {
      var k := |steps| - 1;
      BindsInNoPart(c, steps);
      TimersCountTicks(c, steps[..k]);
      StepsInv(c, steps[..k]);
      StepCounts(Steps(c, steps[..k]), steps[k]);
    }
  }

  lemma LastTick(steps: seq<Step>)
    ensures CoarseTicks(steps) ==
            if steps == [] then 0
            else CoarseTicks(steps[..|steps| - 1]) + if steps[|steps| - 1].Coarse? then 1 else 0
  {
  }

  lemma BindsInNoPart(c: Client, steps: seq<Step>)
    requires steps != [] && NeverBinds(c, steps)
    ensures var k := |steps| - 1; NeverBinds(c, steps[..k]) && !Binds(Steps(c, steps[..k]), steps[k])
  {
    var before := steps[..|steps| - 1];
    assert forall j :: 0 <= j < |before| ==> before[..j] == steps[..j] && before[j] == steps[j];
  }

  lemma StepCounts(c: Client, s: Step)
    requires Inv(c) && !Binds(c, s)
    ensures (Apply(c, s).t1, Apply(c, s).t2) ==
            if s.Coarse? then (if c.t2 == 1 then c.t1 else Dec16(c.t1), Dec16(c.t2)) else (c.t1, c.t2)
  {
    hide Inv, Binds;
    if s.Coarse? {
      CoarseTimerCounts(c, s.ok);
    } else {
      OnlyBindSetsTimers(c, s);
    }
  }

  // ---------------------------------------------------------------- a server that does not answer

  /** An ACK or a NAK that the client waits for. */
  predicate Answers(c: Client, m: Reply) {
    m.ours && m.xid == c.xid && (m.mtype == Some(DHCP_ACK) || m.mtype == Some(DHCP_NAK)) && !c.state.BOUND?
  }

  /** The lease is not given up, and no server answers for it. */
  predicate Unanswered(c: Client, steps: seq<Step>) {
    forall k :: 0 <= k < |steps| ==>
      !steps[k].AppRelease? && (steps[k].Packet? ==> !Answers(Steps(c, steps[..k]), steps[k].m))
  }

  /** The application does not ask for a renewal. */
  predicate LeftAlone(steps: seq<Step>) {
    forall k :: 0 <= k < |steps| ==> !steps[k].AppRenew?
  }

  predicate Holds(c: Client) { c.state.BOUND? || c.state.RENEWING? }

  lemma QuietStep(c: Client, s: Step)
    requires HasLease(c.state) && !s.Coarse? && !s.AppRelease? && (s.Packet? ==> !Answers(c, s.m))
    ensures !s.Fine? && !s.AppRenew? ==> Apply(c, s) == c
    ensures Holds(c) ==>
            var c' := Apply(c, s);
            Holds(c') && SameLease(c', c) && (c.state.RENEWING? ==> c'.state.RENEWING?) &&
            (c.state.BOUND? && !s.AppRenew? ==> c'.state.BOUND? && c'.sent == c.sent)
  {
    hide Power;
  }

  /** What has become of a bound client after n coarse ticks, the last one of t2 not among them. */
  predicate StillHolds(c: Client, n: nat, alone: bool, c': Client) {
    Inv(c') && Holds(c') && SameLease(c', c) && (c'.t1, c'.t2) == Counters(c.t1, c.t2, n) &&
    (n >= Due(c.t1) ==> c'.state.RENEWING?) &&
    (n < Due(c.t1) && alone ==> c'.state.BOUND? && c'.sent == c.sent)
  }

  /** A bound client keeps its address as long as t2 has not ended; it is RENEWING from its
      t1-th coarse tick on, and not before, unless the application asks for it. */
  lemma RenewsOnTime(c: Client, steps: seq<Step>)
    requires Inv(c) && c.state.BOUND? && Unanswered(c, steps) && CoarseTicks(steps) < Due(c.t2)
    ensures StillHolds(c, CoarseTicks(steps), LeftAlone(steps), Steps(c, steps))
  {
    HoldsFor(c, steps, true);
  }

  /** A client that is bound or renews; `alone` says that it is bound. */
  lemma {:induction false} HoldsFor(c: Client, steps: seq<Step>, alone: bool)
    requires Inv(c) && (if alone then c.state.BOUND? else c.state.RENEWING?)
    requires Unanswered(c, steps) && CoarseTicks(steps) < Due(c.t2)
    ensures StillHolds(c, CoarseTicks(steps), alone && LeftAlone(steps), Steps(c, steps))
    decreases |steps|
  {
    hide Inv, Apply, Unanswered, StillHolds, CoarseTicks, LeftAlone;
    LastTick(steps);
    LastLeftAlone(steps);
    if steps == [] {
      HoldsAtFirst(c, alone);
    } else {
      var k := |steps| - 1;
      UnansweredStep(c, steps);
      HoldsFor(c, steps[..k], alone);
      HoldsOn(c, CoarseTicks(steps[..k]), alone && LeftAlone(steps[..k]), Steps(c, steps[..k]), steps[k]);
    }
  }

  lemma HoldsAtFirst(c: Client, alone: bool)
    requires Inv(c) && (if alone then c.state.BOUND? else c.state.RENEWING?)
    ensures StillHolds(c, 0, alone, c)
  {
  }

  lemma LastLeftAlone(steps: seq<Step>)
    ensures LeftAlone(steps) <==> steps == [] || (LeftAlone(steps[..|steps| - 1]) && !steps[|steps| - 1].AppRenew?)
  {
    if steps != [] {
      assert forall j :: 0 <= j < |steps| - 1 ==> steps[..|steps| - 1][j] == steps[j];
    }
  }

  lemma UnansweredStep(c: Client, steps: seq<Step>)
    requires steps != [] && Unanswered(c, steps)
    ensures var k := |steps| - 1;
            Unanswered(c, steps[..k]) && !steps[k].AppRelease? &&
            (steps[k].Packet? ==> !Answers(Steps(c, steps[..k]), steps[k].m))
  {
    var before := steps[..|steps| - 1];
    assert forall j :: 0 <= j < |before| ==> before[..j] == steps[..j] && before[j] == steps[j];
  }

  lemma HoldsOn(c: Client, n: nat, alone: bool, c1: Client, s: Step)
    requires StillHolds(c, n, alone, c1) && !s.AppRelease? && (s.Packet? ==> !Answers(c1, s.m))
    requires s.Coarse? ==> n + 1 < Due(c.t2)
    ensures StillHolds(c, n + if s.Coarse? then 1 else 0, alone && !s.AppRenew?, Apply(c1, s))
  {
    hide Inv, Apply, Answers, Counters;
    ApplyInv(c1, s);
    if s.Coarse? {
      CoarseHolds(c, c1, n, s);
    } else {
      QuietStep(c1, s);
      StepCounts(c1, s);
    }
  }

  /** The coarse tick n + 1, which is not the last one of t2. */
  lemma CoarseHolds(c: Client, c1: Client, n: nat, s: Step)
    requires s.Coarse? && Holds(c1) && (c1.t1, c1.t2) == Counters(c.t1, c.t2, n) && n + 1 < Due(c.t2)
    ensures var c' := Apply(c1, s);
            Holds(c') && SameLease(c', c1) && (c'.t1, c'.t2) == Counters(c.t1, c.t2, n + 1) &&
            if n + 1 == Due(c.t1) then c'.state.RENEWING? else c'.state == c1.state && c'.sent == c1.sent
  {
    CountersAt(c.t1, c.t2, n);
    hide CoarseTimer;
    CoarseTimerCounts(c1, s.ok);
  }

  // ---------------------------------------------------------------- the end of the lease

  /** A rebinding client to which nothing happens but the time: its state after f fine ticks. */
  predicate StillAsks(d: Client, f: nat, d': Client) {
    Asks(d', false) && SameLease(d', d) && TicksLeft(d', false) == TicksLeft(d, false) - f
  }

  lemma {:induction false} AsksOn(d: Client, steps: seq<Step>)
    requires Asks(d, false) && Unanswered(d, steps) && LeftAlone(steps) && FineTicksIn(steps) < TicksLeft(d, false)
    ensures StillAsks(d, FineTicksIn(steps), Steps(d, steps))
    decreases |steps|
  {
    hide Apply, Unanswered, LeftAlone, TicksLeft, Asks;
    if steps != [] {
      var k := |steps| - 1;
      UnansweredStep(d, steps);
      LastLeftAlone(steps);
      AsksOn(d, steps[..k]);
      AsksStep(Steps(d, steps[..k]), steps[k]);
    }
  }

  lemma AsksStep(d: Client, s: Step)
    requires Asks(d, false) && !s.AppRelease? && !s.AppRenew? && (s.Packet? ==> !Answers(d, s.m))
    requires s.Fine? ==> TicksLeft(d, false) > 1
    ensures StillAsks(d, if s.Fine? then 1 else 0, Apply(d, s))
  {
    hide Answers, FineTimer, CoarseTimer, Waiting;
    match s
    case Fine(ok, ok2) => FineTickCounts(d, false, ok, ok2);
    case Coarse(ok) => CoarseTimerCounts(d, ok);
    case _ => QuietStep(d, s);
  }

  /** A bound client whose server is silent rebinds on its t2-th coarse tick. It keeps the
      address for 89 fine ticks from there, whatever else happens, and drops it on the 90th. */
  lemma LeaseEndsOnTime(c: Client, before: seq<Step>, last: Step, after: seq<Step>, f: Step)
    requires Inv(c) && c.state.BOUND? && Unanswered(c, before) && CoarseTicks(before) == Due(c.t2) - 1 && last.Coarse?
    requires var d := Apply(Steps(c, before), last);
             Unanswered(d, after) && LeftAlone(after) && FineTicksIn(after) < 90 && f.Fine?
    ensures var e := Steps(Apply(Steps(c, before), last), after);
            e.state.REBINDING? && e.ipAddr == c.ipAddr && e.up &&
            (FineTicksIn(after) == 89 <==> StartsOver(Apply(e, f)))
  {
    hide Unanswered, CoarseTicks, FineTicksIn, LeftAlone, Apply, Inv, TicksLeft, StillHolds;
    var c1 := Steps(c, before);
    RenewsOnTime(c, before);
    T2Ends(c, c1, LeftAlone(before), last);
    AsksOn(Apply(c1, last), after);
    LastFineTick(Steps(Apply(c1, last), after), f);
    BoundIsUp(c);
  }

  lemma T2Ends(c: Client, c1: Client, alone: bool, last: Step)
    requires StillHolds(c, Due(c.t2) - 1, alone, c1) && last.Coarse?
    ensures var d := Apply(c1, last); Asks(d, false) && SameLease(d, c) && TicksLeft(d, false) == 90 && d.t2 == 0
  {
    hide CoarseTimer, Inv, Waiting, WaitingTicks, Asks;
    CountersAt(c.t1, c.t2, Due(c.t2) - 1);
    assert c1.t2 == 1;
    CoarseTimerCounts(c1, last.ok);
    BeginsRebinding(c1, last.ok);
    WaitingTotal(false);
  }

  lemma LastFineTick(e: Client, f: Step)
    requires Asks(e, false) && f.Fine?
    ensures StartsOver(Apply(e, f)) <==> TicksLeft(e, false) == 1
  {
    hide FineTimer, TicksLeft;
    FineTickCounts(e, false, f.ok, f.ok2);
  }

  /** While it asks for a new binding it gets none. */
  lemma {:induction false} AsksWithoutBinding(d: Client, steps: seq<Step>)
    requires Asks(d, false) && Unanswered(d, steps) && LeftAlone(steps) && FineTicksIn(steps) < TicksLeft(d, false)
    ensures NeverBinds(d, steps)
    decreases |steps|
  {
    hide Apply, Unanswered, LeftAlone, TicksLeft, NeverBinds, Asks, Steps, Binds;
    if steps == [] {
      OneMoreStep(d, steps);
    } else {
      var k := |steps| - 1;
      UnansweredStep(d, steps);
      LastLeftAlone(steps);
      AsksWithoutBinding(d, steps[..k]);
      AsksOn(d, steps);
      NotBound(d, steps);
      OneMoreStep(d, steps);
    }
  }

  lemma NotBound(d: Client, steps: seq<Step>)
    requires steps != [] && Asks(Steps(d, steps), false)
    ensures !Binds(Steps(d, steps[..|steps| - 1]), steps[|steps| - 1])
  {
    hide Apply;
  }

  lemma OneMoreStep(d: Client, steps: seq<Step>)
    requires steps == [] || (NeverBinds(d, steps[..|steps| - 1]) &&
                             !Binds(Steps(d, steps[..|steps| - 1]), steps[|steps| - 1]))
    ensures NeverBinds(d, steps)
  {
    hide Binds, Steps;
    if steps != [] {
      var before := steps[..|steps| - 1];
      assert forall j :: 0 <= j < |before| ==> before[..j] == steps[..j] && before[j] == steps[j];
    }
  }

  /** Unless the application asks for a renewal in those 89 ticks: that takes the client back to
      RENEWING, where nothing drops the address before t2, which has wrapped around, ends once
      more: 65536 coarse ticks after the lease should have been given up. */
  lemma RenewalKeepsTheAddress(c: Client, before: seq<Step>, last: Step, asking: seq<Step>, renew: Step,
                               after: seq<Step>)
    requires Inv(c) && c.state.BOUND? && Unanswered(c, before) && CoarseTicks(before) == Due(c.t2) - 1 && last.Coarse?
    requires var d := Apply(Steps(c, before), last);
             Unanswered(d, asking) && LeftAlone(asking) && FineTicksIn(asking) < 90 && renew.AppRenew?
    requires Unanswered(Apply(Steps(Apply(Steps(c, before), last), asking), renew), after)
    requires CoarseTicks(asking) + CoarseTicks(after) < 0x1_0000
    ensures var e := Steps(Apply(Steps(Apply(Steps(c, before), last), asking), renew), after);
            Holds(e) && e.ipAddr == c.ipAddr && e.up
  {
    hide Unanswered, CoarseTicks, FineTicksIn, LeftAlone, Apply, Inv, TicksLeft, StillHolds, Asks;
    var c1 := Steps(c, before);
    RenewsOnTime(c, before);
    var d := Apply(c1, last);
    T2Ends(c, c1, LeftAlone(before), last);
    BoundIsUp(c);
    StepsInv(c, before);
    ApplyInv(c1, last);
    RenewedAgain(d, asking, renew);
    var e := Apply(Steps(d, asking), renew);
    HoldsFor(e, after, false);
    assert StillHolds(e, CoarseTicks(after), false, Steps(e, after));
    HoldsIsHeld(e, CoarseTicks(after), Steps(e, after));
  }

  lemma HoldsIsHeld(c: Client, n: nat, c': Client)
    requires StillHolds(c, n, false, c')
    ensures Holds(c') && SameLease(c', c)
  {
  }

  /** A call of dhcp_renew while the client rebinds. */
  lemma RenewedAgain(d: Client, asking: seq<Step>, renew: Step)
    requires Inv(d) && Asks(d, false) && d.t2 == 0 && Unanswered(d, asking) && LeftAlone(asking) && renew.AppRenew?
    requires FineTicksIn(asking) < TicksLeft(d, false) && CoarseTicks(asking) < 0x1_0000
    ensures var e := Apply(Steps(d, asking), renew);
            Inv(e) && e.state.RENEWING? && SameLease(e, d) && Due(e.t2) == 0x1_0000 - CoarseTicks(asking)
  {
    hide Unanswered, CoarseTicks, FineTicksIn, LeftAlone, TicksLeft, Counters, Asks;
    AsksOn(d, asking);
    AsksWithoutBinding(d, asking);
    StepsInv(d, asking);
    TimersCountTicks(d, asking);
    CountersAt(d.t1, d.t2, CoarseTicks(asking));
    var d' := Steps(d, asking);
    ApplyInv(d', renew);
    hide Inv, Steps;
    RenewedKeeps(d', renew);
  }

  lemma RenewedKeeps(d: Client, renew: Step)
    requires renew.AppRenew?
    ensures var e := Apply(d, renew); e.state.RENEWING? && SameLease(e, d) && e.t2 == d.t2
  {
    hide Power;
  }

  lemma BoundIsUp(c: Client)
    requires Inv(c) && c.state.BOUND?
    ensures c.up && c.ipAddr == c.offered
  {
  }

  /** A lease whose ACK gives no T2 is used beyond its end: the client rebinds only when the
      coarse ticks of the whole lease are over, and keeps the address for 89 fine ticks more. */
  lemma LeaseIsOutlived(c: Client, m: Reply, ok: bool, before: seq<Step>, last: Step, after: seq<Step>)
    requires Inv(c) && IsAckFor(c, m) && c.state.REQUESTING? && m.t2.None? && Or(m.lease, c.lease) != INFINITE
    requires Unanswered(Settled(Receive(c, m, ok), ok), before) && last.Coarse?
    requires CoarseTicks(before + [last]) == LeaseTicks(Or(m.lease, c.lease))
    requires var d := Apply(Steps(Settled(Receive(c, m, ok), ok), before), last);
             Unanswered(d, after) && LeftAlone(after) && FineTicksIn(after) < 90
    ensures var e := Steps(Apply(Steps(Settled(Receive(c, m, ok), ok), before), last), after);
            e.state.REBINDING? && e.ipAddr == m.yiaddr && e.up
  {
    hide Unanswered, CoarseTicks, FineTicksIn, LeftAlone, Apply, Inv, Receive, Settled, StartsOver, LeaseTicks;
    LastTick(before + [last]);
    assert (before + [last])[..|before|] == before;
    AckedLeaseIsBound(c, m, ok);
    SettledInv(c, m, ok);
    LeaseTicksAreNear(Or(m.lease, c.lease));
    LeaseEndsOnTime(Settled(Receive(c, m, ok), ok), before, last, after, Fine(true, true));
  }

  // ---------------------------------------------------------------- a client that renews

  /** The ticks of the waiting periods that come after the n-th request for a renewal. */
  function RenewWait(n: byte): nat
    decreases 255 - n
  {
    if n == 255 then 0 else RenewTicks(n + 1) + RenewWait(n + 1)
  }

  function RenewTicks(n: byte): nat {
    BackoffFits(n);
    Ticks(RenewMsecs(n))
  }

  predicate AsksRenewal(c: Client) { c.state.RENEWING? && c.tries >= 1 && c.requestTimeout > 0 }

  /** No timer runs that would make it ask again. */
  predicate Silent(c: Client) { c.state.RENEWING? && c.requestTimeout == 0 }

  function RenewLeft(c: Client): nat {
    if Silent(c) then 0 else c.requestTimeout + RenewWait(c.tries)
  }

  /** What has become of a client after f fine ticks. */
  predicate RenewsFor(c: Client, f: nat, c': Client) {
    if f < RenewLeft(c) then AsksRenewal(c') && RenewLeft(c') == RenewLeft(c) - f
    else Silent(c') && (Silent(c) ==> c'.sent == c.sent)
  }

  lemma RenewTick(c: Client, ok: bool, ok2: bool)
    requires AsksRenewal(c)
    ensures RenewsFor(c, 1, FineTimer(c, ok, ok2))
  {
    hide Renew, RenewTicks;
    if c.requestTimeout == 1 {
      RenewAgain(c.(requestTimeout := 0), ok);
      RenewTicksAre(Inc8(c.tries));
    }
  }

  lemma RenewAgain(c: Client, ok: bool)
    requires c.state.RENEWING?
    ensures var c' := Renew(c, ok);
            c'.state.RENEWING? && c'.tries == Inc8(c.tries) && c'.requestTimeout == RenewTicks(c'.tries)
  {
  }

  lemma RenewTicksAre(n: byte)
    ensures RenewTicks(n) == if n < 10 then 4 * n else 40
  {
  }

  lemma RenewStep(c: Client, f: nat, c1: Client, s: Step)
    requires RenewsFor(c, f, c1) && !s.AppRelease? && !s.AppRenew? && (s.Packet? ==> !Answers(c1, s.m))
    requires s.Coarse? ==> c1.t1 != 1 && c1.t2 != 1
    ensures RenewsFor(c, f + if s.Fine? then 1 else 0, Apply(c1, s))
  {
    hide RenewWait, Answers;
    match s
    case Fine(ok, ok2) =>
      if AsksRenewal(c1) {
        RenewTick(c1, ok, ok2);
      }
    case Coarse(ok) => CoarseTimerCounts(c1, ok);
    case _ => QuietStep(c1, s);
  }

  predicate TimersFar(c: Client, n: nat) { n < Due(c.t1) && n < Due(c.t2) }

  lemma {:induction false} RenewsOn(c: Client, steps: seq<Step>)
    requires Inv(c) && (AsksRenewal(c) || Silent(c)) && Unanswered(c, steps) && LeftAlone(steps)
    requires TimersFar(c, CoarseTicks(steps))
    ensures var c' := Steps(c, steps);
            Inv(c') && RenewsFor(c, FineTicksIn(steps), c') &&
            (c'.t1, c'.t2) == Counters(c.t1, c.t2, CoarseTicks(steps))
    decreases |steps|
  {
    hide Inv, Apply, Unanswered, LeftAlone, CoarseTicks, AsksRenewal, Silent, RenewsFor, Counters;
    LastTick(steps);
    if steps == [] {
      RenewsAtFirst(c);
    } else {
      var k := |steps| - 1;
      UnansweredStep(c, steps);
      LastLeftAlone(steps);
      RenewsOn(c, steps[..k]);
      RenewsNext(c, FineTicksIn(steps[..k]), CoarseTicks(steps[..k]), Steps(c, steps[..k]), steps[k]);
    }
  }

  lemma RenewsAtFirst(c: Client)
    requires AsksRenewal(c) || Silent(c)
    ensures RenewsFor(c, 0, c) && Counters(c.t1, c.t2, 0) == (c.t1, c.t2)
  {
  }

  lemma RenewsNext(c: Client, f: nat, n: nat, c1: Client, s: Step)
    requires Inv(c1) && RenewsFor(c, f, c1) && (c1.t1, c1.t2) == Counters(c.t1, c.t2, n)
    requires !s.AppRelease? && !s.AppRenew? && (s.Packet? ==> !Answers(c1, s.m))
    requires TimersFar(c, n + if s.Coarse? then 1 else 0)
    ensures var c', n' := Apply(c1, s), n + if s.Coarse? then 1 else 0;
            Inv(c') && RenewsFor(c, f + if s.Fine? then 1 else 0, c') && (c'.t1, c'.t2) == Counters(c.t1, c.t2, n')
  {
    hide Inv, Apply, RenewsFor, Answers;
    CountersAt(c.t1, c.t2, n);
    RenewStep(c, f, c1, s);
    ApplyInv(c1, s);
    IsRenewing(c, f + if s.Fine? then 1 else 0, Apply(c1, s));
    StepCounts(c1, s);
  }

  lemma IsRenewing(c: Client, f: nat, c': Client)
    requires RenewsFor(c, f, c')
    ensures c'.state.RENEWING?
  {
  }

  /** A renewing client that gets no answer asks for 10020 fine ticks. Then the 8-bit count of
      its tries wraps around to a waiting time of zero, and it asks no more until a lease
      timer ends. */
  lemma RenewalFallsSilent(c: Client, steps: seq<Step>, more: seq<Step>)
    requires Inv(c) && AsksRenewal(c) && c.tries == 1 && c.requestTimeout == RenewTicks(1)
    requires Unanswered(c, steps) && LeftAlone(steps) && TimersFar(c, CoarseTicks(steps))
    requires var c' := Steps(c, steps); Unanswered(c', more) && LeftAlone(more) && TimersFar(c', CoarseTicks(more))
    ensures var c' := Steps(c, steps);
            if FineTicksIn(steps) < 10020 then c'.state.RENEWING? && c'.requestTimeout > 0
            else Silent(c') && Silent(Steps(c', more)) && Steps(c', more).sent == c'.sent
  {
    hide Inv, Apply, Unanswered, LeftAlone, CoarseTicks, FineTicksIn, RenewWait, RenewTicks, Counters, TimersFar;
    RenewTotal();
    RenewsOn(c, steps);
    if FineTicksIn(steps) >= 10020 {
      RenewsOn(Steps(c, steps), more);
    }
  }

  /** Asking begins with the end of t1. */
  lemma BeginsRenewing(c: Client, ok: bool)
    requires c.state.BOUND? && c.t1 == 1 && c.t2 != 1
    ensures var c' := CoarseTimer(c, ok); AsksRenewal(c') && c'.tries == 1 && c'.requestTimeout == RenewTicks(1)
  {
    BackoffFits(1);
    hide Power;
  }

  lemma RenewTotal()
    ensures RenewTicks(1) + RenewWait(1) == 10020
  {
    hide RenewTicks;
    forall n: byte {
      RenewTicksAre(n);
    }
    WaitTenTimes(9);
    assert RenewWait(6) == 28 + 32 + 36 + RenewWait(9);
    assert RenewWait(3) == 16 + 20 + 24 + RenewWait(6);
  }

  lemma {:induction false} WaitTenTimes(n: byte)
    requires n >= 9
    ensures RenewWait(n) == 40 * (255 - n)
    decreases 255 - n
  {
    if n < 255 {
      RenewTicksAre(n + 1);
      WaitTenTimes(n + 1);
    }
  }

  // ---------------------------------------------------------------- a lease without an end

  /** A period without an end does not stop the timer that was running when the ACK came: with
      a silent server the client asks for a renewal when that one ends, as if the lease had
      one, and rebinds and drops the address when t2 ends. On a first start t2 is zero, and
      wraps around to end after 65536 coarse ticks. */
  lemma InfiniteLeaseEnds(c: Client, m: Reply, ok: bool, before: seq<Step>, last: Step, after: seq<Step>, f: Step)
    requires Inv(c) && IsAckFor(c, m) && Taken(c, m).rebinding == INFINITE
    requires var b := Settled(Receive(c, m, ok), ok); Unanswered(b, before) && CoarseTicks(before) == Due(c.t2) - 1
    requires var d := Apply(Steps(Settled(Receive(c, m, ok), ok), before), last);
             last.Coarse? && Unanswered(d, after) && LeftAlone(after) && FineTicksIn(after) == 89 && f.Fine?
    ensures var d := Apply(Steps(Settled(Receive(c, m, ok), ok), before), last);
            d.state.REBINDING? && d.ipAddr == Taken(c, m).addr && StartsOver(Apply(Steps(d, after), f))
  {
    hide Unanswered, CoarseTicks, FineTicksIn, LeftAlone, Apply, Inv, Receive, Settled, StartsOver;
    EmptyRun(Apply(Steps(Settled(Receive(c, m, ok), ok), before), last));
    var b := Settled(Receive(c, m, ok), ok);
    AckedLeaseIsBound(c, m, ok);
    SettledInv(c, m, ok);
    LeaseEndsOnTime(b, before, last, after, f);
    LeaseEndsOnTime(b, before, last, [], f);
  }

  lemma InfiniteLeaseRenews(c: Client, m: Reply, ok: bool, steps: seq<Step>)
    requires Inv(c) && IsAckFor(c, m) && Taken(c, m).renewal == INFINITE
    requires var b := Settled(Receive(c, m, ok), ok);
             Unanswered(b, steps) && LeftAlone(steps) && CoarseTicks(steps) < Due(b.t2)
    ensures Steps(Settled(Receive(c, m, ok), ok), steps).state.RENEWING? <==> CoarseTicks(steps) >= Due(c.t1)
  {
    hide Unanswered, CoarseTicks, LeftAlone, Inv, Receive, Settled;
    AckedLeaseIsBound(c, m, ok);
    SettledInv(c, m, ok);
    RenewsOnTime(Settled(Receive(c, m, ok), ok), steps);
  }

  lemma EmptyRun(d: Client)
    ensures Unanswered(d, []) && LeftAlone([]) && FineTicksIn([]) == 0 && Steps(d, []) == d
  {
  }

  lemma SettledInv(c: Client, m: Reply, ok: bool)
    requires Inv(c)
    ensures Inv(Settled(Receive(c, m, ok), ok))
  {
    hide Inv, Receive, FineTimer;
    ApplyInv(c, Packet(m, ok));
    var c1 := Receive(c, m, ok);
    ApplyInv(c1, Fine(ok, ok));
    ApplyInv(FineTimer(c1, ok, ok), Fine(ok, ok));
  }
}
