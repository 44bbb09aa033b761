/** When the DHCP client repeats, gives up, renews and rebinds (src/core/dhcp.c). */
module DhcpTiming {
  import opened DhcpClient
  import opened Memory

  // ---------------------------------------------------------------- repeating and giving up

  /** Fine ticks without any reply; `oks` says for each whether requests can be allocated. */
  function FineTicks(c: Client, oks: seq<bool>): Client
    decreases |oks|
  {
    if oks == [] then c
    else
      var k := |oks| - 1;
      FineTimer(FineTicks(c, oks[..k]), oks[k], oks[k])
  }

  /** A tick on which a state makes its next request, or gives up. */
  predicate Expires(c: Client) { c.requestTimeout == 1 }

  /** The ticks of the waiting periods that come after the n-th request, up to the last one. */
  function Waiting(requesting: bool, n: byte): nat
    decreases 10 - n
  {
    if n >= (if requesting then 6 else 9) then 0
    else WaitingTicks(requesting, n + 1) + Waiting(requesting, n + 1)
  }

  function WaitingTicks(requesting: bool, n: byte): nat {
    BackoffFits(n);
    if requesting then Ticks(RequestMsecs(n)) else Ticks(RebindMsecs(n))
  }

  /** The client asks for a lease (or, if not `requesting`, for a new binding) and nothing has
      gone wrong with its counters. */
  predicate Asks(c: Client, requesting: bool) {
    (if requesting then c.state.REQUESTING? && 1 <= c.tries <= 6 else c.state.REBINDING? && 1 <= c.tries <= 9) &&
    c.requestTimeout > 0
  }

  /** The ticks until it gives up. */
  function TicksLeft(c: Client, requesting: bool): nat {
    c.requestTimeout + Waiting(requesting, c.tries)
  }

  /** What it makes of a request whose time is over. */
  function Repeated(c: Client, requesting: bool, ok: bool): Client {
    if requesting then Select(c.(requestTimeout := 0), ok) else Rebind(c.(requestTimeout := 0), ok)
  }

  predicate GivesUp(c: Client, requesting: bool) {
    Asks(c, requesting) && Expires(c) && c.tries == if requesting then 6 else 9
  }

  /** The client drops its address and looks for a server from the beginning. */
  predicate StartsOver(c: Client) {
    c.state.SELECTING? && c.ipAddr == 0 && !c.up && c.offered == 0
  }

  /** The address that is in use is still the same. */
  predicate SameLease(c': Client, c: Client) {
    c'.ipAddr == c.ipAddr && c'.offered == c.offered && c'.up == c.up
  }

  lemma Repeats(c: Client, requesting: bool, ok: bool, ok2: bool)
    requires Asks(c, requesting) && Expires(c) && !GivesUp(c, requesting)
    ensures FineTimer(c, ok, ok2) == Repeated(c, requesting, ok)
    ensures var c' := Repeated(c, requesting, ok);
            SameLease(c', c) && Asks(c', requesting) && c'.tries == c.tries + 1 &&
            c'.requestTimeout == WaitingTicks(requesting, c.tries + 1) &&
            |c'.sent| == |c.sent| + (if ok then 1 else 0)
  {
    hide Select, Rebind, WaitingTicks;
    if requesting {
      SelectAgain(c.(requestTimeout := 0), ok);
    } else {
      RebindAgain(c.(requestTimeout := 0), ok);
    }
  }

  lemma SelectAgain(c: Client, ok: bool)
    requires c.state.REQUESTING? && 1 <= c.tries <= 5
    ensures var c' := Select(c, ok);
            SameLease(c', c) && Asks(c', true) && c'.tries == c.tries + 1 &&
            c'.requestTimeout == WaitingTicks(true, c.tries + 1) && |c'.sent| == |c.sent| + (if ok then 1 else 0)
  {
    BackoffFits(c.tries + 1);
    hide Power;
  }

  lemma RebindAgain(c: Client, ok: bool)
    requires c.state.REBINDING? && 1 <= c.tries <= 8
    ensures var c' := Rebind(c, ok);
            SameLease(c', c) && Asks(c', false) && c'.tries == c.tries + 1 &&
            c'.requestTimeout == WaitingTicks(false, c.tries + 1) && |c'.sent| == |c.sent| + (if ok then 1 else 0)
  {
    BackoffFits(c.tries + 1);
    hide Power;
  }

  lemma EndsOver(c: Client, requesting: bool, ok: bool, ok2: bool)
    requires GivesUp(c, requesting)
    ensures StartsOver(FineTimer(c, ok, ok2))
  {
    hide Power;
  }

  lemma WaitingStep(requesting: bool, n: byte)
    requires 1 <= n <= if requesting then 6 else 9
    ensures Waiting(requesting, n) == if n == (if requesting then 6 else 9) then 0
            else WaitingTicks(requesting, n + 1) + Waiting(requesting, n + 1)
    ensures n < (if requesting then 6 else 9) ==> Waiting(requesting, n) > 0
  {
    if n < (if requesting then 6 else 9) {
      BackoffFits(n + 1);
    }
    hide Power;
  }

  /** Each fine tick brings the end one tick nearer. */
  lemma FineTickCounts(c: Client, requesting: bool, ok: bool, ok2: bool)
    requires Asks(c, requesting)
    ensures GivesUp(c, requesting) <==> TicksLeft(c, requesting) == 1
    ensures GivesUp(c, requesting) ==> StartsOver(FineTimer(c, ok, ok2))
    ensures !GivesUp(c, requesting) ==>
            var c' := FineTimer(c, ok, ok2);
            SameLease(c', c) && Asks(c', requesting) && TicksLeft(c', requesting) == TicksLeft(c, requesting) - 1 &&
            c'.tries == c.tries + (if Expires(c) then 1 else 0) &&
            |c'.sent| == |c.sent| + (if Expires(c) && ok then 1 else 0)
  {
    hide Waiting, WaitingTicks, Select, Rebind, Repeated;
    WaitingStep(requesting, c.tries);
    if Expires(c) {
      if GivesUp(c, requesting) {
        EndsOver(c, requesting, ok, ok2);
      } else {
        Repeats(c, requesting, ok, ok2);
      }
    }
  }

  lemma {:induction false} FineTicksCount(c: Client, requesting: bool, oks: seq<bool>)
    requires Asks(c, requesting) && |oks| < TicksLeft(c, requesting)
    ensures var c' := FineTicks(c, oks);
            Asks(c', requesting) && TicksLeft(c', requesting) == TicksLeft(c, requesting) - |oks| &&
            c'.tries >= c.tries &&
            ((forall k :: 0 <= k < |oks| ==> oks[k]) ==> |c'.sent| - |c.sent| == c'.tries - c.tries)
    decreases |oks|
  {
    hide TicksLeft, FineTimer, Asks, GivesUp, Expires;
    if oks != [] {
      var k := |oks| - 1;
      FineTicksCount(c, requesting, oks[..k]);
      FineTickCounts(FineTicks(c, oks[..k]), requesting, oks[k], oks[k]);
    }
  }

  /** A client that has just made its first request for an offered lease makes five more and
      starts over on its 244th fine tick, not before; one that has just begun to rebind sends
      eight more and drops its address on the 90th. If requests can be allocated, they are
      all sent. */
  lemma GivesUpOnTime(c: Client, requesting: bool, oks: seq<bool>)
    requires Asks(c, requesting) && c.tries == 1 && c.requestTimeout == WaitingTicks(requesting, 1)
    requires |oks| == if requesting then 244 else 90
    ensures forall k :: 0 <= k < |oks| ==> Asks(FineTicks(c, oks[..k]), requesting)
    ensures StartsOver(FineTicks(c, oks))
    ensures var last := FineTicks(c, oks[..|oks| - 1]);
            last.tries == (if requesting then 6 else 9) &&
            ((forall k :: 0 <= k < |oks| ==> oks[k]) ==> |last.sent| == |c.sent| + if requesting then 5 else 8)
  {
    WaitingTotal(requesting);
    hide Asks, FineTimer, WaitingTicks, Waiting, StartsOver;
    forall k | 0 <= k < |oks| ensures Asks(FineTicks(c, oks[..k]), requesting) {
      FineTicksCount(c, requesting, oks[..k]);
    }
    var n := |oks| - 1;
    FineTicksCount(c, requesting, oks[..n]);
    FineTickCounts(FineTicks(c, oks[..n]), requesting, oks[n], oks[n]);
  }

  lemma WaitingTotal(requesting: bool)
    ensures WaitingTicks(requesting, 1) + Waiting(requesting, 1) == if requesting then 244 else 90
  {
    assert Power(1) == 2 && Power(2) == 4 && Power(3) == 8 && Power(4) == 16 && Power(5) == 32;
    if requesting {
      assert WaitingTicks(true, 1) == 4 && WaitingTicks(true, 2) == 8 && WaitingTicks(true, 3) == 16;
      assert WaitingTicks(true, 4) == 32 && WaitingTicks(true, 5) == 64 && WaitingTicks(true, 6) == 120;
      assert Waiting(true, 4) == 184;
    } else {
      assert forall n: byte :: 1 <= n <= 9 ==> WaitingTicks(false, n) == 2 * n;
      assert Waiting(false, 6) == 14 + 16 + 18;
      assert Waiting(false, 3) == 8 + 10 + 12 + Waiting(false, 6);
    }
  }

  // ---------------------------------------------------------------- looking for a server

  /** The ticks in which the first n periods of waiting for an OFFER pass. */
  function SearchTicks(n: byte): nat {
    if n == 0 then 0 else SearchTicks(n - 1) + WaitingTicks(true, n)
  }

  /** They double from four ticks on, up to a minute. */
  lemma {:induction false} SearchTicksAre(n: byte)
    ensures SearchTicks(n) == if n <= 5 then 4 * (Power(n) - 1) else 124 + 120 * (n - 5)
  {
    assert Power(1) == 2 && Power(2) == 4 && Power(3) == 8 && Power(4) == 16 && Power(5) == 32;
    if n > 0 {
      SearchTicksAre(n - 1);
    }
  }

  /** A client that has sent n DISCOVERs waits for the rest of the n-th period. */
  predicate Searches(c: Client, n: byte, ticks: nat) {
    c.state.SELECTING? && c.tries == n > 0 && c.requestTimeout > 0 && ticks + c.requestTimeout == SearchTicks(n)
  }

  /** Without an OFFER a client that has just sent its first DISCOVER sends the n-th one after
      the first n - 1 periods, over and over again (until the 8-bit count is full). */
  lemma {:induction false} DiscoversOnTime(c: Client, oks: seq<bool>) returns (n: byte)
    requires Searches(c, 1, 0) && |oks| < SearchTicks(255)
    requires forall k :: 0 <= k < |oks| ==> oks[k]
    ensures var c' := FineTicks(c, oks);
            n > 0 && SearchTicks(n - 1) <= |oks| < SearchTicks(n) && Searches(c', n, |oks|) &&
            |c'.sent| == |c.sent| + n - 1
    decreases |oks|
  {
    hide SearchTicks, FineTimer, Searches;
    if oks == [] {
      n := 1;
      FirstPeriod(c);
    } else {
      var k := |oks| - 1;
      n := DiscoversOnTime(c, oks[..k]);
      var before := FineTicks(c, oks[..k]);
      NextPeriod(before, n, k);
      if before.requestTimeout == 1 {
        n := n + 1;
      }
    }
  }

  lemma FirstPeriod(c: Client)
    requires Searches(c, 1, 0)
    ensures SearchTicks(0) == 0 < SearchTicks(1)
  {
  }

  lemma NextPeriod(c: Client, n: byte, ticks: nat)
    requires Searches(c, n, ticks) && ticks + 1 < SearchTicks(255)
    ensures if c.requestTimeout == 1 then
              n < 255 && SearchTicks(n) == ticks + 1 < SearchTicks(n + 1) &&
              Searches(FineTimer(c, true, true), n + 1, ticks + 1) && |FineTimer(c, true, true).sent| == |c.sent| + 1
            else
              ticks + 1 < SearchTicks(n) && Searches(FineTimer(c, true, true), n, ticks + 1) &&
              FineTimer(c, true, true).sent == c.sent
  {
    hide Power, Discover, WaitingTicks, SearchTicks;
    if c.requestTimeout == 1 {
      if n < 255 {
        DiscoverAgain(c.(requestTimeout := 0));
        SearchStep(n);
      }
    }
  }

  lemma SearchStep(n: byte)
    requires n < 255
    ensures SearchTicks(n + 1) == SearchTicks(n) + WaitingTicks(true, n + 1)
  {
  }

  lemma DiscoverAgain(c: Client)
    requires c.state.SELECTING? && 0 < c.tries < 255
    ensures var c' := Discover(c, true);
            c'.state.SELECTING? && c'.tries == c.tries + 1 && |c'.sent| == |c.sent| + 1 &&
            c'.requestTimeout == WaitingTicks(true, c.tries + 1) > 0
  {
    BackoffFits(c.tries + 1);
    hide Power;
  }

  lemma StartSearches(lastXid: u32)
    ensures Searches(Started(lastXid), 1, 0) && |Started(lastXid).sent| == 1
  {
    hide Discover, WaitingTicks, Power;
    DiscoverBegins(Client(CLEARED, 0, 0, lastXid, 0, 0, 0, 0, 0, 0, 0, 0, 0, 0, 0, 0, 0, 0, false, [], NoAck));
    assert SearchTicks(0) == 0;
  }

  lemma DiscoverBegins(c: Client)
    requires !c.state.SELECTING?
    ensures var c' := Discover(c, true);
            c'.state.SELECTING? && c'.tries == 1 && |c'.sent| == |c.sent| + 1 &&
            c'.requestTimeout == WaitingTicks(true, 1) > 0
  {
    BackoffFits(1);
    hide Power;
  }

  /** Both begin in that way: with an OFFER that is taken, and with the end of t2. */
  lemma BeginsRequesting(c: Client, m: Reply, ok: bool)
    requires Inv(c) && c.state.SELECTING? && m.ours && m.xid == c.xid && m.mtype == Some(DHCP_OFFER) && m.serverId.Some?
    ensures var c' := Receive(c, m, ok);
            Asks(c', true) && c'.tries == 1 && c'.requestTimeout == WaitingTicks(true, 1)
  {
    hide Select, Inv, WaitingTicks;
    SelectBegins(c.(requestTimeout := 0, server := m.serverId.value, offered := m.yiaddr), ok);
  }

  lemma SelectBegins(c: Client, ok: bool)
    requires !c.state.REQUESTING?
    ensures var c' := Select(c, ok);
            Asks(c', true) && c'.tries == 1 && c'.requestTimeout == WaitingTicks(true, 1)
  {
    BackoffFits(1);
    hide Power;
  }

  lemma BeginsRebinding(c: Client, ok: bool)
    requires Inv(c) && c.t2 == 1 && TimersCount(c.state)
    ensures var c' := CoarseTimer(c, ok);
            Asks(c', false) && c'.tries == 1 && c'.requestTimeout == WaitingTicks(false, 1)
  {
    BackoffFits(1);
    hide Power;
  }

  // ---------------------------------------------------------------- the lease timers

  /** dhcp_bind gives a period a number of coarse ticks from 1 to 65535, and stays within half
      a tick of it for exactly the periods from half a tick to half a tick over the longest
      that fits. */
  lemma LeaseTicksAreNear(period: u32)
    ensures 1 <= LeaseTicks(period) <= 0xffff
    ensures -30 <= DHCP_COARSE_TIMER_SECS * LeaseTicks(period) - period <= 30 <==>
            30 <= period <= DHCP_COARSE_TIMER_SECS * 0xffff + 30
  {
    var q := (period + 30) / 60;
    assert 60 * q <= period + 30 < 60 * q + 60;
    if period <= 0xffff_ffff - 30 {
      assert LeaseTicks(period) == if q > 0xffff then 0xffff else if q == 0 then 1 else q;
    } else {
      assert LeaseTicks(period) == 1;
    }
  }

  /** The rounding overflows for the twenty-nine longest periods that have an end (an infinite
      one is never rounded): they end after one tick. */
  lemma LongLeasesEndAtOnce(period: u32)
    requires period != INFINITE
    ensures LeaseTicks(period) == 1 <==> period < 90 || period > 0xffff_ffff - 30
    ensures LeaseTicks(period) == 0xffff <==> DHCP_COARSE_TIMER_SECS * 0xffff - 30 <= period <= 0xffff_ffff - 30
    ensures DHCP_COARSE_TIMER_SECS * 0xffff <= period <= 0xffff_ffff - 30 ==> LeaseTicks(period) == 0xffff
  {
  }

  /** An ACK without a mask gives the mask of a class A network, whatever the class of the
      address that it gives. */
  lemma DefaultMaskIsClassA(c: Client)
    ensures c.mask == 0 ==> Bind(c).netmask == 0xff00_0000
    ensures c.mask != 0 ==> Bind(c).netmask == c.mask
  {
    hide LeaseTicks, FirstHost;
  }

  // ---------------------------------------------------------------- from the ACK to the address

  /** The client without an ARP check, or two fine ticks later with one. */
  function Settled(c: Client, ok: bool): Client {
    if DHCP_DOES_ARP_CHECK then FineTimer(FineTimer(c, ok, ok), ok, ok) else c
  }

  /** A period without an end leaves the timer as it is. */
  function NewTimer(period: u32, running: u16): u16 {
    if period == INFINITE then running else LeaseTicks(period)
  }

  /** What a lease consists of: zero stands for a mask or a gateway that is not given. */
  datatype Terms = Terms(addr: u32, mask: u32, gateway: u32, renewal: u32, rebinding: u32)

  /** The terms of an ACK: a period that it does not give is half the lease, or all of it, and
      a lease that it does not give is the one before. */
  function Given(m: Reply, lease: u32): Terms {
    var t0 := Or(m.lease, lease);
    Terms(m.yiaddr, Or(m.mask, 0), Or(m.router, 0), Or(m.t1, t0 / 2), Or(m.t2, t0))
  }

  function Held(c: Client): Terms {
    Terms(c.offered, c.mask, c.gateway, c.renewal, c.rebinding)
  }

  /** What an interface and the lease timers are set to. */
  datatype Binding = Binding(addr: u32, netmask: u32, gw: u32, t1: u16, t2: u16)

  function InForce(c: Client): Binding {
    Binding(c.ipAddr, c.netmask, c.gw, c.t1, c.t2)
  }

  /** Terms on an interface with the timers t1 and t2 running; what they do not give is guessed. */
  function Configured(terms: Terms, t1: u16, t2: u16): Binding {
    var netmask: u32 := if terms.mask == 0 then 0xff00_0000 else terms.mask;
    Binding(terms.addr, netmask, if terms.gateway == 0 then FirstHost(terms.addr, netmask) else terms.gateway,
            NewTimer(terms.renewal, t1), NewTimer(terms.rebinding, t2))
  }

  predicate TakesAck(s: State) { s.REQUESTING? || s.REBOOTING? || s.REBINDING? || s.RENEWING? }

  predicate IsAckFor(c: Client, m: Reply) {
    TakesAck(c.state) && m.ours && m.xid == c.xid && m.mtype == Some(DHCP_ACK)
  }

  /** The terms that an ACK puts into force: only a client that is REQUESTING reads it. */
  function Taken(c: Client, m: Reply): Terms {
    if c.state.REQUESTING? then Given(m, c.lease) else Held(c)
  }

  /** In every state that takes an ACK it leads, after two quiet ticks of checking if that is
      configured, to BOUND. The interface and the timers are then what the ACK says exactly if
      the client was REQUESTING, or holds terms already that come to the same: an ACK that
      renews or rebinds a lease is not read. */
  lemma AckedLeaseIsBound(c: Client, m: Reply, ok: bool)
    requires IsAckFor(c, m)
    ensures var c' := Settled(Receive(c, m, ok), ok);
            c'.state.BOUND? && c'.up && c'.sent == c.sent && c'.ack == Acked(m.xid, m.yiaddr) &&
            Held(c') == Taken(c, m) && InForce(c') == Configured(Taken(c, m), c.t1, c.t2) &&
            c'.lease == if c.state.REQUESTING? then Or(m.lease, c.lease) else c.lease
    ensures InForce(Settled(Receive(c, m, ok), ok)) == Configured(Given(m, c.lease), c.t1, c.t2) <==>
            c.state.REQUESTING? || Configured(Held(c), c.t1, c.t2) == Configured(Given(m, c.lease), c.t1, c.t2)
  {
    hide FirstHost, LeaseTicks, Power;
    if c.state.REQUESTING? {
      var c1 := HandleAck(c, m).(requestTimeout := 0, ack := Acked(m.xid, m.yiaddr));
      if DHCP_DOES_ARP_CHECK {
        CheckedTwice(c1, ok);
      } else {
        BoundAs(c1, c1);
      }
    } else {
      var c1 := c.(requestTimeout := 0, ack := Acked(m.xid, m.yiaddr));
      BoundAs(c1, c1);
    }
  }

  /** Two quiet ticks of checking. */
  lemma CheckedTwice(c1: Client, ok: bool)
    requires c1.state.REQUESTING?
    ensures var c' := FineTimer(FineTimer(Check(c1), ok, ok), ok, ok);
            c'.state.BOUND? && c'.up && c'.sent == c1.sent && c'.ack == c1.ack && c'.lease == c1.lease &&
            Held(c') == Held(c1) && InForce(c') == Configured(Held(c1), c1.t1, c1.t2)
  {
    hide FirstHost, LeaseTicks, Power;
    assert Ticks(500) == 1;
    var c2 := Check(c1);
    assert c2.tries == 1 && c2.requestTimeout == 1;
    var c3 := FineTimer(c2, ok, ok);
    assert c3 == Check(c2.(requestTimeout := 0)) && c3.tries == 2;
    assert FineTimer(c3, ok, ok) == Bind(c3.(requestTimeout := 0));
    BoundAs(c1, c3.(requestTimeout := 0));
  }

  lemma BoundAs(c1: Client, c: Client)
    requires Held(c) == Held(c1) && c.t1 == c1.t1 && c.t2 == c1.t2
    ensures var c' := Bind(c);
            c'.state.BOUND? && c'.up && c'.sent == c.sent && c'.ack == c.ack && c'.lease == c.lease &&
            c'.requestTimeout == c.requestTimeout &&
            Held(c') == Held(c1) && InForce(c') == Configured(Held(c1), c1.t1, c1.t2)
  {
    hide LeaseTicks, FirstHost;
  }

  /** Unless a host answers for the address: then the client declines it and never has it. */
  lemma AddressInUseIsDeclined(c: Client, m: Reply, ok: bool)
    requires Inv(c) && c.state.REQUESTING? && m.ours && m.xid == c.xid && m.mtype == Some(DHCP_ACK)
    requires DHCP_DOES_ARP_CHECK
    ensures var c' := ArpReply(Receive(c, m, ok), m.yiaddr, true);
            c'.state.BACKING_OFF? && c'.ipAddr == 0 && c'.requestTimeout == 20 &&
            c'.sent == c.sent + [Message(DECLINE, c'.xid, BROADCAST, 0)] && c'.xid != c.xid
    ensures forall addr: u32 :: addr != m.yiaddr ==> ArpReply(Receive(c, m, ok), addr, true) == Receive(c, m, ok)
  {
  }
}
