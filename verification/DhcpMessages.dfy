/** The server that the DHCP client keeps, and the messages that it sends (src/core/dhcp.c). */
module DhcpMessages {
  import opened DhcpClient
  import opened Memory

  // ---------------------------------------------------------------- the operations

  function Succ(xid: u32): u32 { if xid == 0xffff_ffff then 0 else xid + 1 }

  /** A request that can be allocated begins a new transaction exactly if it is the first of its
      state, as the count of tries then says. */
  predicate SentBy(c: Client, c': Client, kind: Kind, to: u32, ciaddr: u32, ok: bool) {
    c'.sent == (if ok then c.sent + [Message(kind, c'.xid, to, ciaddr)] else c.sent) &&
    (if ok then c'.lastXid == c'.xid == if c'.tries == 1 then Succ(c.lastXid) else c.lastXid
     else c'.xid == c.xid && c'.lastXid == c.lastXid)
  }

  /** A message as the state calls for it: it is sent to everybody, but for a request that
      renews a lease, which goes to the server of the client with the address in use. */
  predicate Proper(c: Client, m: Message) {
    match m.kind
    case DISCOVER => c.state.SELECTING? && m.to == BROADCAST && m.ciaddr == 0
    case DECLINE => c.state.BACKING_OFF? && m.to == BROADCAST && m.ciaddr == 0
    case RELEASE => (c.state.OFF? || c.state.SELECTING?) && m.to == 0 && m.ciaddr == 0
    case REQUEST =>
      m.xid == c.xid &&
      match c.state
      case REQUESTING => m.to == BROADCAST && m.ciaddr == 0
      case RENEWING => m.to == c.server && m.ciaddr == c.ipAddr
      case REBINDING => m.to == BROADCAST && m.ciaddr == c.ipAddr
      case _ => false
  }

  /** The numbers of the messages of one step: a message that is the first of its state begins a
      new transaction, and a repeated one goes on with the last. */
  predicate Numbered(c: Client, c': Client) {
    var n := |c.sent|;
    if |c'.sent| == n then c'.xid == c.xid
    else if |c'.sent| == n + 1 then
      c'.sent[n].xid == c'.xid && c'.xid == if c'.tries == 1 then Succ(c.xid) else c.xid
    else
      |c'.sent| == n + 2 && c'.sent[n].xid == Succ(c.xid) && c'.sent[n + 1].xid == c'.xid == Succ(Succ(c.xid))
  }

  /** What is sent is proper and has its number. */
  predicate Grows(c: Client, c': Client) {
    c.sent <= c'.sent && Numbered(c, c') && forall j :: |c.sent| <= j < |c'.sent| ==> Proper(c', c'.sent[j])
  }

  /** c0 has sent what c has. */
  predicate SameSent(c: Client, c0: Client) {
    c0.sent == c.sent && c0.xid == c.xid == c0.lastXid == c.lastXid
  }

  lemma OneMessage(c: Client, c0: Client, c': Client, kind: Kind, to: u32, ciaddr: u32, ok: bool)
    requires SameSent(c, c0) && SentBy(c0, c', kind, to, ciaddr, ok) && Proper(c', Message(kind, c'.xid, to, ciaddr))
    ensures Grows(c, c')
  {
  }

  lemma NoMessage(c: Client, c': Client)
    requires c'.sent == c.sent && c'.xid == c.xid
    ensures Grows(c, c')
  {
  }

  lemma TwoMessages(c: Client, c0: Client, c1: Client, c': Client, ok: bool, ok2: bool)
    requires SameSent(c, c0) && SentBy(c0, c1, RELEASE, 0, 0, ok) && c1.tries == 1
    requires SentBy(c1, c', DISCOVER, BROADCAST, 0, ok2) && c'.tries == 1 && c'.state.SELECTING?
    ensures Grows(c, c')
  {
  }

  /** The offer and the server stay. */
  predicate SameServer(c: Client, c': Client) { c'.server == c.server && c'.offered == c.offered }

  lemma DiscoverSends(c: Client, c0: Client, ok: bool)
    ensures var c' := Discover(c0, ok);
            c'.state.SELECTING? && c'.server == c0.server && SentBy(c0, c', DISCOVER, BROADCAST, 0, ok) &&
            (!c0.state.SELECTING? ==> c'.tries == 1) && (SameSent(c, c0) ==> Grows(c, c'))
  {
    hide Power, Grows;
    if SameSent(c, c0) {
      OneMessage(c, c0, Discover(c0, ok), DISCOVER, BROADCAST, 0, ok);
    }
  }

  lemma SelectSends(c: Client, c0: Client, ok: bool)
    requires SameSent(c, c0)
    ensures var c' := Select(c0, ok); c'.state.REQUESTING? && SameServer(c0, c') && Grows(c, c')
  {
    hide Power, Grows;
    OneMessage(c, c0, Select(c0, ok), REQUEST, BROADCAST, 0, ok);
  }

  lemma DeclineSends(c: Client, c0: Client, ok: bool)
    requires SameSent(c, c0)
    ensures var c' := Decline(c0, ok); c'.state.BACKING_OFF? && SameServer(c0, c') && Grows(c, c')
  {
    hide Power, Grows;
    OneMessage(c, c0, Decline(c0, ok), DECLINE, BROADCAST, 0, ok);
  }

  lemma RenewSends(c: Client, c0: Client, ok: bool)
    requires SameSent(c, c0)
    ensures var c' := Renew(c0, ok); c'.state.RENEWING? && SameServer(c0, c') && Grows(c, c')
  {
    hide Power, Grows;
    OneMessage(c, c0, Renew(c0, ok), REQUEST, c0.server, c0.ipAddr, ok);
  }

  lemma RebindSends(c: Client, c0: Client, ok: bool)
    requires SameSent(c, c0)
    ensures var c' := Rebind(c0, ok); c'.state.REBINDING? && SameServer(c0, c') && Grows(c, c')
  {
    hide Power, Grows;
    OneMessage(c, c0, Rebind(c0, ok), REQUEST, BROADCAST, c0.ipAddr, ok);
  }

  lemma ReleaseSends(c: Client, c0: Client, ok: bool)
    requires SameSent(c, c0)
    ensures var c' := Release(c0, ok);
            c'.state.OFF? && c'.server == 0 && SentBy(c0, c', RELEASE, 0, 0, ok) &&
            (!c0.state.OFF? ==> c'.tries == 1) && Grows(c, c')
  {
    hide Power, Grows;
    OneMessage(c, c0, Release(c0, ok), RELEASE, 0, 0, ok);
  }

  lemma StartsOverSends(c: Client, c0: Client, ok: bool, ok2: bool)
    requires SameSent(c, c0) && !c0.state.OFF?
    ensures var c' := Discover(Release(c0, ok), ok2); c'.state.SELECTING? && c'.server == 0 && Grows(c, c')
  {
    hide Discover, Release, SameSent, SentBy, Grows;
    ReleaseSends(c, c0, ok);
    DiscoverSends(c, Release(c0, ok), ok2);
    TwoMessages(c, c0, Release(c0, ok), Discover(Release(c0, ok), ok2), ok, ok2);
  }

  lemma OthersSendNothing(c: Client, c0: Client)
    requires SameSent(c, c0)
    ensures var c' := Check(c0); c'.state.CHECKING? && SameServer(c0, c') && Grows(c, c')
    ensures var c' := Bind(c0); c'.state.BOUND? && SameServer(c0, c') && Grows(c, c')
  {
    hide LeaseTicks, FirstHost, SafeMask, Grows;
    NoMessage(c, Check(c0));
    NoMessage(c, Bind(c0));
  }

  // ---------------------------------------------------------------- one step

  /** An OFFER that the client acts upon. */
  predicate TakesOffer(c: Client, s: Step) {
    s.Packet? && s.m.ours && s.m.xid == c.xid && s.m.mtype == Some(DHCP_OFFER) && c.state.SELECTING? &&
    s.m.serverId.Some?
  }

  /** The client gives up what it has or asks for, and releases it. */
  predicate Releases(c: Client, s: Step) {
    s.AppRelease? ||
    (s.Fine? && c.requestTimeout == 1 && ((c.state.REQUESTING? && c.tries > 5) || (c.state.REBINDING? && c.tries > 8)))
  }

  /** What a step does to the server and the offer, and what it sends. */
  predicate Sends(c: Client, s: Step, c': Client) {
    c'.server == (if TakesOffer(c, s) then s.m.serverId.value else if Releases(c, s) then 0 else c.server) &&
    (c'.state.REQUESTING? ==>
       if TakesOffer(c, s) then c'.offered == s.m.yiaddr else c.state.REQUESTING? && c'.offered == c.offered) &&
    Grows(c, c')
  }

  lemma TimeoutSends(c: Client, ok: bool, ok2: bool)
    requires Inv(c) && c.requestTimeout == 1
    ensures Sends(c, Fine(ok, ok2), Timeout(c.(requestTimeout := 0), ok, ok2))
  {
    hide Discover, Select, Check, Bind, Renew, Rebind, Release, Decline, Grows;
    var c0 := c.(requestTimeout := 0);
    match c.state
    case BACKING_OFF => DiscoverSends(c, c0, ok);
    case SELECTING => DiscoverSends(c, c0, ok);
    case REQUESTING =>
      SelectSends(c, c0, ok);
      StartsOverSends(c, c0, ok, ok2);
    case CHECKING => OthersSendNothing(c, c0);
    case RENEWING => RenewSends(c, c0, ok);
    case REBINDING =>
      RebindSends(c, c0, ok);
      StartsOverSends(c, c0, ok, ok2);
    case _ => NoMessage(c, c0);
  }

  lemma PacketSends(c: Client, m: Reply, ok: bool)
    requires Inv(c)
    ensures Sends(c, Packet(m, ok), Receive(c, m, ok))
  {
    hide Discover, Select, Check, Bind, Renew, Rebind, Release, Decline, Grows;
    var c0 := c.(requestTimeout := 0);
    NoMessage(c, c);
    NoMessage(c, c0);
    OthersSendNothing(c, HandleAck(c, m).(requestTimeout := 0, ack := Acked(m.xid, m.yiaddr)));
    OthersSendNothing(c, c.(requestTimeout := 0, ack := Acked(m.xid, m.yiaddr)));
    DiscoverSends(c, SetState(c0.(up := false, ipAddr := 0, gw := 0, netmask := 0), BACKING_OFF), ok);
    if m.serverId.Some? {
      SelectSends(c, c0.(server := m.serverId.value, offered := m.yiaddr), ok);
    }
  }

  lemma CoarseSends(c: Client, ok: bool)
    requires Inv(c)
    ensures Sends(c, Coarse(ok), CoarseTimer(c, ok))
  {
    hide Renew, Rebind, Grows;
    var c1 := c.(t2 := Dec16(c.t2));
    var c2 := c1.(t1 := Dec16(c.t1));
    NoMessage(c, c1);
    NoMessage(c, c2);
    RebindSends(c, c1, ok);
    RenewSends(c, c2, ok);
  }

  lemma StepSends(c: Client, s: Step)
    requires Inv(c)
    ensures Sends(c, s, Apply(c, s))
  {
    hide Renew, Release, Decline, Timeout, Receive, CoarseTimer, Grows;
    NoMessage(c, c);
    match s
    case Fine(ok, ok2) =>
      if c.requestTimeout == 1 {
        TimeoutSends(c, ok, ok2);
      } else {
        NoMessage(c, FineTimer(c, ok, ok2));
      }
    case Packet(m, ok) => PacketSends(c, m, ok);
    case Coarse(ok) => CoarseSends(c, ok);
    case Arp(_, ok) => DeclineSends(c, c, ok);
    case AppRenew(ok) => RenewSends(c, c, ok);
    case AppRelease(ok) => ReleaseSends(c, c, ok);
  }

  /** A NAK that the client acts upon. */
  predicate TakesNak(c: Client, s: Step) {
    s.Packet? && s.m.ours && s.m.xid == c.xid && s.m.mtype == Some(DHCP_NAK) &&
    (c.state.REQUESTING? || c.state.REBOOTING? || c.state.RENEWING? || c.state.REBINDING?)
  }

  /** An address in use stays so, unless it is released or the server takes it back. */
  lemma AddressStaysUnless(c: Client, s: Step)
    requires Inv(c) && c.ipAddr != 0
    ensures var c' := Apply(c, s);
            if Releases(c, s) || TakesNak(c, s) then c'.ipAddr == 0 && !c'.up
            else c'.ipAddr == c.ipAddr && (c.up ==> c'.up)
  {
    hide Discover, Select, Check, Bind, Renew, Rebind, Release, Decline, Timeout;
    var c0 := c.(requestTimeout := 0);
    match s
    case Fine(ok, ok2) =>
      if c.requestTimeout == 1 {
        TimeoutKeeps(c, ok, ok2);
      }
    case Packet(m, ok) =>
      BindKeeps(c.(requestTimeout := 0, ack := Acked(m.xid, m.yiaddr)));
      DiscoverKeeps(SetState(c0.(up := false, ipAddr := 0, gw := 0, netmask := 0), BACKING_OFF), ok);
    case Coarse(ok) =>
      HoldingKeeps(c.(t2 := Dec16(c.t2)), ok);
      HoldingKeeps(c.(t2 := Dec16(c.t2), t1 := Dec16(c.t1)), ok);
    case Arp(_, ok) =>
    case AppRenew(ok) => HoldingKeeps(c, ok);
    case AppRelease(ok) => ReleaseDrops(c, ok);
  }

  lemma TimeoutKeeps(c: Client, ok: bool, ok2: bool)
    requires Inv(c) && c.ipAddr != 0 && c.requestTimeout == 1
    ensures var c' := Timeout(c.(requestTimeout := 0), ok, ok2);
            if Releases(c, Fine(ok, ok2)) then c'.ipAddr == 0 && !c'.up else c'.ipAddr == c.ipAddr && (c.up ==> c'.up)
  {
    hide Discover, Select, Check, Bind, Renew, Rebind, Release;
    var c0 := c.(requestTimeout := 0);
    HoldingKeeps(c0, ok);
    ReleaseDrops(c0, ok);
    DiscoverKeeps(Release(c0, ok), ok2);
  }

  lemma HoldingKeeps(c: Client, ok: bool)
    ensures Renew(c, ok).ipAddr == Rebind(c, ok).ipAddr == c.ipAddr && Renew(c, ok).up == Rebind(c, ok).up == c.up
  {
    hide Power;
  }

  lemma ReleaseDrops(c: Client, ok: bool)
    ensures Release(c, ok).ipAddr == 0 && !Release(c, ok).up
  {
    hide Power;
  }

  lemma DiscoverKeeps(c: Client, ok: bool)
    ensures Discover(c, ok).ipAddr == c.ipAddr && Discover(c, ok).up == c.up
  {
    hide Power;
  }

  lemma BindKeeps(c: Client)
    ensures Bind(c).ipAddr == c.offered && Bind(c).up
  {
    hide LeaseTicks, FirstHost, SafeMask;
  }

  // ---------------------------------------------------------------- whole runs

  /** The server of the last OFFER that was acted upon, if nothing was released since. */
  function LastServer(lastXid: u32, steps: seq<Step>): u32
    decreases |steps|
  {
    if steps == [] then 0
    else
      var before, s := steps[..|steps| - 1], steps[|steps| - 1];
      if TakesOffer(Run(lastXid, before), s) then s.m.serverId.value
      else if Releases(Run(lastXid, before), s) then 0
      else LastServer(lastXid, before)
  }

  lemma StartSends(lastXid: u32)
    ensures Started(lastXid).server == 0 && Started(lastXid).state.SELECTING?
    ensures Started(lastXid).sent == [Message(DISCOVER, Succ(lastXid), BROADCAST, 0)]
  {
  }

  lemma {:induction false} ServerIsOffered(lastXid: u32, steps: seq<Step>)
    ensures Run(lastXid, steps).server == LastServer(lastXid, steps)
    decreases |steps|
  {
    hide Apply, Inv, TakesOffer, Releases, Started;
    if steps == [] {
      StartSends(lastXid);
    } else {
      var n := |steps| - 1;
      RunInv(lastXid, steps[..n]);
      ServerIsOffered(lastXid, steps[..n]);
      StepSends(Run(lastXid, steps[..n]), steps[n]);
    }
  }

  predicate RequestingAt(lastXid: u32, steps: seq<Step>, j: nat) {
    j <= |steps| && Run(lastXid, steps[..j]).state.REQUESTING?
  }

  /** Over every run: a client that is REQUESTING asks for the address of the last OFFER that it
      acted upon, and has its server; it has been REQUESTING ever since. */
  lemma {:induction false} RequestsWhatIsOffered(lastXid: u32, steps: seq<Step>) returns (k: nat)
    requires Run(lastXid, steps).state.REQUESTING?
    ensures k < |steps| && TakesOffer(Run(lastXid, steps[..k]), steps[k])
    ensures forall j :: k < j <= |steps| ==> RequestingAt(lastXid, steps, j)
    ensures var c := Run(lastXid, steps);
            c.offered == steps[k].m.yiaddr && c.server == steps[k].m.serverId.value == LastServer(lastXid, steps)
    decreases |steps|
  {
    ServerIsOffered(lastXid, steps);
    assert steps != [] by {
      StartSends(lastXid);
    }
    hide Apply, Inv, Releases, Started, LastServer, Sends, TakesOffer;
    var n := |steps| - 1;
    RequestingStep(lastXid, steps);
    assert steps[..n + 1] == steps;
    if TakesOffer(Run(lastXid, steps[..n]), steps[n]) {
      k := n;
    } else {
      k := RequestsWhatIsOffered(lastXid, steps[..n]);
      AlsoInLonger(lastXid, steps, k);
    }
  }

  lemma AlsoInLonger(lastXid: u32, steps: seq<Step>, k: nat)
    requires steps != [] && k < |steps| - 1 && Run(lastXid, steps).state.REQUESTING?
    requires var before := steps[..|steps| - 1];
             forall j :: k < j <= |before| ==> RequestingAt(lastXid, before, j)
    ensures forall j :: k < j <= |steps| ==> RequestingAt(lastXid, steps, j)
    ensures steps[..|steps| - 1][..k] == steps[..k] && steps[..|steps| - 1][k] == steps[k]
  {
    hide Run;
    forall j | k < j <= |steps| ensures RequestingAt(lastXid, steps, j) {
      var before := steps[..|steps| - 1];
      assert steps[..j] == if j < |steps| then before[..j] else steps;
      assert j < |steps| ==> RequestingAt(lastXid, before, j);
    }
  }

  /** The last step of a run that ends REQUESTING. */
  lemma RequestingStep(lastXid: u32, steps: seq<Step>)
    requires steps != [] && Run(lastXid, steps).state.REQUESTING?
    ensures var before, s, c := Run(lastXid, steps[..|steps| - 1]), steps[|steps| - 1], Run(lastXid, steps);
            if TakesOffer(before, s) then c.offered == s.m.yiaddr && c.server == s.m.serverId.value
            else before.state.REQUESTING? && c.offered == before.offered && c.server == before.server
  {
    hide Apply, Inv, Releases, Started;
    var n := |steps| - 1;
    RunInv(lastXid, steps[..n]);
    StepSends(Run(lastXid, steps[..n]), steps[n]);
    if Releases(Run(lastXid, steps[..n]), steps[n]) {
      ReleasedIsElsewhere(Run(lastXid, steps[..n]), steps[n]);
    }
  }

  lemma ReleasedIsElsewhere(c: Client, s: Step)
    requires Inv(c) && Releases(c, s)
    ensures !Apply(c, s).state.REQUESTING?
  {
    hide Discover, Select, Check, Bind, Renew, Rebind, Release, Decline;
    match s
    case Fine(ok, ok2) => StartsOverSends(c, c.(requestTimeout := 0), ok, ok2);
    case AppRelease(ok) => ReleaseSends(c, c, ok);
    case _ =>
  }

  /** Over every run: each message was sent by the start or in some step k, as the state that
      led to calls for it. A renewal goes to the server of the last OFFER acted upon, with the
      address in use; what is asked of no server in particular is sent to everybody. */
  lemma {:induction false} MessagesAreProper(lastXid: u32, steps: seq<Step>, j: nat) returns (k: nat)
    requires j < |Run(lastXid, steps).sent|
    ensures k <= |steps| && j < |Run(lastXid, steps[..k]).sent|
    ensures k > 0 ==> |Run(lastXid, steps[..k - 1]).sent| <= j
    ensures var c, m := Run(lastXid, steps[..k]), Run(lastXid, steps).sent[j];
            Proper(c, m) && c.server == LastServer(lastXid, steps[..k]) &&
            (k > 0 ==> Numbered(Run(lastXid, steps[..k - 1]), c))
    decreases |steps|
  {
    hide Apply, Inv, TakesOffer, Releases, Proper, LastServer, Started, Numbered;
    if steps == [] {
      k := 0;
      FirstIsProper(lastXid);
      ServerIsOffered(lastXid, []);
    } else {
      var n := |steps| - 1;
      var before := Run(lastXid, steps[..n]);
      RunInv(lastXid, steps[..n]);
      StepSends(before, steps[n]);
      if j < |before.sent| {
        k := MessagesAreProper(lastXid, steps[..n], j);
        assert steps[..n][..k] == steps[..k];
        assert k > 0 ==> steps[..n][..k - 1] == steps[..k - 1];
      } else {
        k := n + 1;
        assert steps[..k] == steps;
        ServerIsOffered(lastXid, steps);
      }
    }
  }

  lemma FirstIsProper(lastXid: u32)
    ensures var c := Started(lastXid); |c.sent| == 1 && Proper(c, c.sent[0])
  {
    StartSends(lastXid);
  }
}
