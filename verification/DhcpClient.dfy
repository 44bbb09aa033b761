/** The DHCP client of one interface (src/core/dhcp.c), section 4.4 of RFC 2131. A step is a
    timer tick, a reply, an ARP reply or a call of the application; whether a request can be
    allocated is a parameter of the step. */
module DhcpClient {
  import opened Memory

  const DHCP_COARSE_TIMER_SECS := 60
  const DHCP_FINE_TIMER_MSECS := 500
  const DHCP_DOES_ARP_CHECK: bool
  const INFINITE: u32 := 0xffff_ffff
  const BROADCAST: u32 := 0xffff_ffff

  /** CLEARED is the zero that dhcp_start leaves before the first discovery. */
  datatype State =
    | CLEARED | REQUESTING | REBOOTING | REBINDING | RENEWING | SELECTING | CHECKING | BOUND | BACKING_OFF | OFF

  datatype Kind = DISCOVER | REQUEST | DECLINE | RELEASE

  /** A message that was sent: where to, and with which ciaddr. */
  datatype Message = Message(kind: Kind, xid: u32, to: u32, ciaddr: u32)

  /** struct dhcp, the static xid, and what it has set in the interface (0.0.0.0 is no
      address); `ack` is the xid and the address of the last ACK that was acted upon. */
  datatype Client = Client(state: State, tries: byte, xid: u32, lastXid: u32, requestTimeout: u16, t1: u16, t2: u16,
                           server: u32, offered: u32, mask: u32, gateway: u32, broadcast: u32,
                           lease: u32, renewal: u32, rebinding: u32,
                           ipAddr: u32, netmask: u32, gw: u32, up: bool,
                           sent: seq<Message>, ack: Ack)

  datatype Ack = NoAck | Acked(xid: u32, yiaddr: u32)

  datatype Option<T> = None | Some(value: T)

  /** A message to the client port. `ours`: it is a BOOTP reply to our hardware address that
      could be unfolded. */
  datatype Reply = Reply(ours: bool, xid: u32, mtype: Option<byte>, yiaddr: u32, serverId: Option<u32>,
                         lease: Option<u32>, t1: Option<u32>, t2: Option<u32>,
                         mask: Option<u32>, router: Option<u32>, broadcast: Option<u32>)

  const DHCP_OFFER: byte := 2
  const DHCP_ACK: byte := 5
  const DHCP_NAK: byte := 6

  // ---------------------------------------------------------------- messages

  function Inc8(n: byte): byte { U8(n + 1) }

  function Dec16(n: u16): u16 { if n == 0 then 0xffff else n - 1 }

  /** dhcp_set_state */
  function SetState(c: Client, s: State): Client {
    if c.state != s then c.(state := s, tries := 0) else c
  }

  predicate HasLease(s: State) { s.BOUND? || s.RENEWING? || s.REBINDING? }

  /** dhcp_create_request, if it can be allocated, and the sending of what it begins. */
  function Send(c: Client, kind: Kind, to: u32, ok: bool): Client {
    if !ok then c
    else
      var xid := if c.tries == 0 then (if c.lastXid == 0xffff_ffff then 0 else c.lastXid + 1) else c.lastXid;
      var ciaddr := if HasLease(c.state) then c.ipAddr else 0;
      c.(lastXid := xid, xid := xid, sent := c.sent + [Message(kind, xid, to, ciaddr)])
  }

  function Power(n: nat): nat { if n == 0 then 1 else 2 * Power(n - 1) }

  /** The back-off of dhcp_discover and dhcp_select, and those of renewing and rebinding. */
  function RequestMsecs(tries: byte): nat { (if tries < 6 then Power(tries) else 60) * 1000 }

  function RenewMsecs(tries: byte): nat { if tries < 10 then tries * 2000 else 20 * 1000 }

  function RebindMsecs(tries: byte): nat { if tries < 10 then tries * 1000 else 10 * 1000 }

  lemma BackoffFits(tries: byte)
    ensures 1000 <= RequestMsecs(tries) <= 60000 && RenewMsecs(tries) <= 20000 && RebindMsecs(tries) <= 10000
  {
    if tries < 6 {
      assert Power(0) == 1 && Power(1) == 2 && Power(2) == 4 && Power(3) == 8 && Power(4) == 16 && Power(5) == 32;
    }
  }

  function Ticks(msecs: nat): u16
    requires msecs <= 60000
  {
    (msecs + DHCP_FINE_TIMER_MSECS - 1) / DHCP_FINE_TIMER_MSECS
  }

  // ---------------------------------------------------------------- the operations

  function Discover(c: Client, ok: bool): Client {
    var c1 := Send(SetState(c.(offered := 0), SELECTING), DISCOVER, BROADCAST, ok);
    BackoffFits(Inc8(c1.tries));
    c1.(tries := Inc8(c1.tries), requestTimeout := Ticks(RequestMsecs(Inc8(c1.tries))))
  }

  function Select(c: Client, ok: bool): Client {
    var c1 := Send(SetState(c, REQUESTING), REQUEST, BROADCAST, ok);
    BackoffFits(Inc8(c1.tries));
    c1.(tries := Inc8(c1.tries), requestTimeout := Ticks(RequestMsecs(Inc8(c1.tries))))
  }

  /** dhcp_check: the ARP query is not one of our messages. */
  function Check(c: Client): Client {
    var c1 := SetState(c, CHECKING);
    c1.(tries := Inc8(c1.tries), requestTimeout := Ticks(500))
  }

  function Renew(c: Client, ok: bool): Client {
    var c1 := Send(SetState(c, RENEWING), REQUEST, c.server, ok);
    BackoffFits(Inc8(c1.tries));
    c1.(tries := Inc8(c1.tries), requestTimeout := Ticks(RenewMsecs(Inc8(c1.tries))))
  }

  function Rebind(c: Client, ok: bool): Client {
    var c1 := Send(SetState(c, REBINDING), REQUEST, BROADCAST, ok);
    BackoffFits(Inc8(c1.tries));
    c1.(tries := Inc8(c1.tries), requestTimeout := Ticks(RebindMsecs(Inc8(c1.tries))))
  }

  /** The address is forgotten before the message is made: it goes to 0.0.0.0. */
  function Release(c: Client, ok: bool): Client {
    var c0 := SetState(c, OFF).(server := 0, offered := 0, mask := 0, gateway := 0, broadcast := 0, lease := 0,
                                renewal := 0, rebinding := 0);
    var c1 := Send(c0, RELEASE, c0.server, ok);
    BackoffFits(Inc8(c1.tries));
    c1.(tries := Inc8(c1.tries), requestTimeout := Ticks(RebindMsecs(Inc8(c1.tries))), up := false, ipAddr := 0,
        gw := 0, netmask := 0)
  }

  function Decline(c: Client, ok: bool): Client {
    var c1 := Send(SetState(c, BACKING_OFF), DECLINE, BROADCAST, ok);
    c1.(tries := Inc8(c1.tries), requestTimeout := Ticks(10 * 1000))
  }

  /** The ticks of a lease timer for a period in seconds, in 32-bit arithmetic. */
  function LeaseTicks(period: u32): u16 {
    var timeout := ((period + DHCP_COARSE_TIMER_SECS / 2) % 0x1_0000_0000) / DHCP_COARSE_TIMER_SECS;
    if timeout > 0xffff then 0xffff else if timeout == 0 then 1 else timeout
  }

  function ClassMask(firstOctet: byte): u32 {
    if firstOctet <= 127 then 0xff00_0000 else if firstOctet >= 192 then 0xffff_ff00 else 0xffff_0000
  }

  /** The mask for an ACK without one; the class test looks at the mask itself, which is zero. */
  function SafeMask(offeredMask: u32): u32 {
    if offeredMask != 0 then offeredMask else ClassMask(offeredMask / 0x100_0000)
  }

  /** The first host of the network: a bitwise and, and an or with 1. */
  function FirstHost(addr: u32, mask: u32): u32 {
    ((addr as bv32 & mask as bv32) | 1) as int
  }

  function Bind(c: Client): Client {
    var mask := SafeMask(c.mask);
    c.(t1 := if c.renewal != INFINITE then LeaseTicks(c.renewal) else c.t1,
       t2 := if c.rebinding != INFINITE then LeaseTicks(c.rebinding) else c.t2,
       ipAddr := c.offered, netmask := mask, up := true,
       gw := if c.gateway == 0 then FirstHost(c.offered, mask) else c.gateway,
       state := BOUND, tries := if c.state.BOUND? then c.tries else 0)
  }

  function Or<T>(o: Option<T>, other: T): T { if o.Some? then o.value else other }

  function HandleAck(c: Client, m: Reply): Client {
    var lease := Or(m.lease, c.lease);
    c.(lease := lease, renewal := Or(m.t1, lease / 2), rebinding := Or(m.t2, lease),
       offered := m.yiaddr, mask := Or(m.mask, 0), gateway := Or(m.router, 0), broadcast := Or(m.broadcast, 0))
  }

  function HandleNak(c: Client, ok: bool): Client {
    Discover(SetState(c.(up := false, ipAddr := 0, gw := 0, netmask := 0), BACKING_OFF), ok)
  }

  function HandleOffer(c: Client, m: Reply, ok: bool): Client {
    if m.serverId.Some? then Select(c.(server := m.serverId.value, offered := m.yiaddr), ok) else c
  }

  /** dhcp_recv */
  function Receive(c: Client, m: Reply, ok: bool): Client {
    if !m.ours || m.xid != c.xid || m.mtype.None? then c
    else if m.mtype.value == DHCP_ACK then
      if c.state.REQUESTING? then
        var c1 := HandleAck(c, m).(requestTimeout := 0, ack := Acked(m.xid, m.yiaddr));
        if DHCP_DOES_ARP_CHECK then Check(c1) else Bind(c1)
      else if c.state.REBOOTING? || c.state.REBINDING? || c.state.RENEWING? then
        Bind(c.(requestTimeout := 0, ack := Acked(m.xid, m.yiaddr)))
      else c
    else if m.mtype.value == DHCP_NAK &&
            (c.state.REBOOTING? || c.state.REQUESTING? || c.state.REBINDING? || c.state.RENEWING?) then
      HandleNak(c.(requestTimeout := 0), ok)
    else if m.mtype.value == DHCP_OFFER && c.state.SELECTING? then
      HandleOffer(c.(requestTimeout := 0), m, ok)
    else c
  }

  /** dhcp_timeout */
  function Timeout(c: Client, ok: bool, ok2: bool): Client {
    match c.state
    case BACKING_OFF => Discover(c, ok)
    case SELECTING => Discover(c, ok)
    case REQUESTING => if c.tries <= 5 then Select(c, ok) else Discover(Release(c, ok), ok2)
    case CHECKING => if c.tries <= 1 then Check(c) else Bind(c)
    case RENEWING => Renew(c, ok)
    case REBINDING => if c.tries <= 8 then Rebind(c, ok) else Discover(Release(c, ok), ok2)
    case _ => c
  }

  /** dhcp_fine_tmr */
  function FineTimer(c: Client, ok: bool, ok2: bool): Client {
    if c.requestTimeout > 1 then c.(requestTimeout := c.requestTimeout - 1)
    else if c.requestTimeout == 1 then Timeout(c.(requestTimeout := 0), ok, ok2)
    else c
  }

  /** The states in which the lease timers have an effect. */
  predicate TimersCount(s: State) { s.REQUESTING? || s.BOUND? || s.RENEWING? }

  /** dhcp_coarse_tmr: a tick on which t2 ends is not counted by t1. */
  function CoarseTimer(c: Client, ok: bool): Client {
    var c1 := c.(t2 := Dec16(c.t2));
    if c.t2 == 1 then (if TimersCount(c.state) then Rebind(c1, ok) else c1)
    else
      var c2 := c1.(t1 := Dec16(c.t1));
      if c.t1 == 1 && TimersCount(c.state) then Renew(c2, ok) else c2
  }

  /** dhcp_arp_reply */
  function ArpReply(c: Client, addr: u32, ok: bool): Client {
    if DHCP_DOES_ARP_CHECK && c.state.CHECKING? && addr == c.offered then Decline(c, ok) else c
  }

  /** dhcp_start on an interface without an address, if the first request can be made. */
  function Started(lastXid: u32): Client {
    Discover(Client(CLEARED, 0, 0, lastXid, 0, 0, 0, 0, 0, 0, 0, 0, 0, 0, 0, 0, 0, 0, false, [], NoAck), true)
  }

  datatype Step =
    | Fine(ok: bool, ok2: bool)
    | Coarse(ok: bool)
    | Packet(m: Reply, ok: bool)
    | Arp(addr: u32, ok: bool)
    | AppRenew(ok: bool)
    | AppRelease(ok: bool)

  function Apply(c: Client, s: Step): Client {
    match s
    case Fine(ok, ok2) => FineTimer(c, ok, ok2)
    case Coarse(ok) => CoarseTimer(c, ok)
    case Packet(m, ok) => Receive(c, m, ok)
    case Arp(addr, ok) => ArpReply(c, addr, ok)
    case AppRenew(ok) => Renew(c, ok)
    case AppRelease(ok) => Release(c, ok)
  }

  function Run(lastXid: u32, steps: seq<Step>): Client
    decreases |steps|
  {
    if steps == [] then Started(lastXid) else Apply(Run(lastXid, steps[..|steps| - 1]), steps[|steps| - 1])
  }

  // ---------------------------------------------------------------- safety

  /** The interface has an address only while the client holds it, and then it is the one
      that was offered. */
  predicate AddressOk(c: Client) {
    (c.ipAddr != 0 ==> HasLease(c.state) && c.ipAddr == c.offered) && (c.state.BOUND? ==> c.ipAddr == c.offered && c.up)
  }

  /** The transaction number is that of the last message sent, and the address being checked
      or used was acknowledged under it. */
  predicate TransactionOk(c: Client) {
    c.sent != [] && c.xid == c.sent[|c.sent| - 1].xid && c.lastXid == c.xid &&
    (c.state.CHECKING? ==> c.ack == Acked(c.xid, c.offered)) &&
    (c.state.BOUND? ==> c.ack.Acked? && c.ack.xid == c.xid)
  }

  /** How often a request has been made in each state. */
  predicate TriesOk(c: Client) {
    match c.state
    case CLEARED => false
    case REBOOTING => false
    case REQUESTING => 1 <= c.tries <= 6
    case CHECKING => 1 <= c.tries <= 2
    case REBINDING => 1 <= c.tries <= 9
    case BACKING_OFF => c.tries == 1
    case _ => true
  }

  /** The states in which the client waits for an answer. */
  predicate Waits(s: State) { s.REQUESTING? || s.CHECKING? || s.REBINDING? || s.BACKING_OFF? }

  predicate Inv(c: Client) {
    AddressOk(c) && TransactionOk(c) && TriesOk(c) && (Waits(c.state) ==> c.requestTimeout > 0)
  }

  lemma StartInv(lastXid: u32)
    ensures Inv(Started(lastXid))
  {
  }

  /** What holds when a state is entered or a request repeated; the operations begin with it. */
  predicate Ready(c: Client) {
    AddressOk(c) && c.sent != [] && c.xid == c.sent[|c.sent| - 1].xid && c.lastXid == c.xid
  }

  lemma DiscoverInv(c: Client, ok: bool)
    requires Ready(c) && c.ipAddr == 0
    ensures Inv(Discover(c, ok)) && Discover(c, ok).state.SELECTING? && Discover(c, ok).requestTimeout > 0 &&
            Discover(c, ok).ipAddr == 0
  {
    BackoffFits(Inc8(Send(SetState(c.(offered := 0), SELECTING), DISCOVER, BROADCAST, ok).tries));
    hide Power;
  }

  lemma SelectInv(c: Client, ok: bool)
    requires Ready(c) && c.ipAddr == 0 && (c.state.REQUESTING? ==> c.tries <= 5)
    ensures Inv(Select(c, ok)) && Select(c, ok).state.REQUESTING?
  {
    BackoffFits(Inc8(Send(SetState(c, REQUESTING), REQUEST, BROADCAST, ok).tries));
    hide Power;
  }

  lemma CheckInv(c: Client)
    requires Ready(c) && c.ipAddr == 0 && c.ack == Acked(c.xid, c.offered) && (c.state.CHECKING? ==> c.tries <= 1)
    ensures Inv(Check(c)) && Check(c).state.CHECKING?
  {
  }

  lemma BindInv(c: Client)
    requires Ready(c) && c.ack.Acked? && c.ack.xid == c.xid
    ensures Inv(Bind(c)) && Bind(c).state.BOUND?
  {
    hide LeaseTicks, SafeMask, FirstHost;
  }

  lemma RenewInv(c: Client, ok: bool)
    requires Ready(c) && (c.ipAddr != 0 ==> c.ipAddr == c.offered)
    ensures Inv(Renew(c, ok)) && Renew(c, ok).state.RENEWING?
  {
  }

  lemma RebindInv(c: Client, ok: bool)
    requires Ready(c) && (c.state.REBINDING? ==> c.tries <= 8)
    ensures Inv(Rebind(c, ok)) && Rebind(c, ok).state.REBINDING?
  {
  }

  lemma ReleaseInv(c: Client, ok: bool)
    requires Ready(c)
    ensures Inv(Release(c, ok)) && Release(c, ok).state.OFF? && Release(c, ok).ipAddr == 0
  {
  }

  lemma DeclineInv(c: Client, ok: bool)
    requires Ready(c) && c.state.CHECKING?
    ensures Inv(Decline(c, ok)) && Decline(c, ok).state.BACKING_OFF?
  {
  }

  lemma TimeoutInv(c: Client, ok: bool, ok2: bool)
    requires Inv(c.(requestTimeout := 1))
    ensures Inv(Timeout(c, ok, ok2)) && Alive(Timeout(c, ok, ok2))
    ensures Timeout(c, ok, ok2).state.BOUND? ==> c.state.BOUND? || c.state.CHECKING?
  {
    hide Discover, Select, Check, Bind, Renew, Rebind, Release;
    match c.state
    case BACKING_OFF => DiscoverInv(c, ok);
    case SELECTING => DiscoverInv(c, ok);
    case REQUESTING =>
      if c.tries <= 5 {
        SelectInv(c, ok);
      } else {
        ReleaseInv(c, ok);
        DiscoverInv(Release(c, ok), ok2);
      }
    case CHECKING =>
      if c.tries <= 1 {
        CheckInv(c);
      } else {
        BindInv(c);
      }
    case RENEWING => RenewInv(c, ok);
    case REBINDING =>
      if c.tries <= 8 {
        RebindInv(c, ok);
      } else {
        ReleaseInv(c, ok);
        DiscoverInv(Release(c, ok), ok2);
      }
    case _ =>
  }

  /** An ACK for the current transaction, in a state that waits for one. */
  predicate AnswersUs(c: Client, m: Reply) {
    m.ours && m.xid == c.xid && m.mtype == Some(DHCP_ACK) &&
    (c.state.REQUESTING? || c.state.REBINDING? || c.state.RENEWING?)
  }

  lemma ReceiveInv(c: Client, m: Reply, ok: bool)
    requires Inv(c)
    ensures Inv(Receive(c, m, ok))
    ensures Receive(c, m, ok).state.BOUND? && !c.state.BOUND? ==> AnswersUs(c, m)
    ensures Alive(c) ==> (Alive(Receive(c, m, ok)) <==> !c.state.SELECTING? || OffersNameServers(c, Packet(m, ok)))
  {
    hide Discover, Select, Check, Bind;
    if m.ours && m.xid == c.xid && m.mtype.Some? {
      if m.mtype.value == DHCP_ACK {
        var ack := Acked(m.xid, m.yiaddr);
        if c.state.REQUESTING? {
          var c1 := HandleAck(c, m).(requestTimeout := 0, ack := ack);
          CheckInv(c1);
          BindInv(c1);
        } else if c.state.REBINDING? || c.state.RENEWING? {
          BindInv(c.(requestTimeout := 0, ack := ack));
        }
      } else if m.mtype.value == DHCP_NAK && (c.state.REQUESTING? || c.state.REBINDING? || c.state.RENEWING?) {
        DiscoverInv(SetState(c.(requestTimeout := 0, up := false, ipAddr := 0, gw := 0, netmask := 0), BACKING_OFF),
                    ok);
      } else if m.mtype.value == DHCP_OFFER && c.state.SELECTING? && m.serverId.Some? {
        SelectInv(c.(requestTimeout := 0, server := m.serverId.value, offered := m.yiaddr), ok);
      }
    }
  }

  lemma CoarseInv(c: Client, ok: bool)
    requires Inv(c)
    ensures Inv(CoarseTimer(c, ok)) && (CoarseTimer(c, ok).state.BOUND? ==> c.state.BOUND?)
  {
    hide Rebind, Renew;
    var c1 := c.(t2 := Dec16(c.t2));
    var c2 := c1.(t1 := Dec16(c.t1));
    if c.t2 == 1 {
      if TimersCount(c.state) {
        RebindInv(c1, ok);
      }
    } else if c.t1 == 1 && TimersCount(c.state) {
      RenewInv(c2, ok);
    }
  }

  lemma ApplyInv(c: Client, s: Step)
    requires Inv(c)
    ensures Inv(Apply(c, s))
  {
    hide Timeout, Receive, CoarseTimer, Renew, Release, Decline;
    match s
    case Fine(ok, ok2) =>
      if c.requestTimeout == 1 {
        assert c.(requestTimeout := 0).(requestTimeout := 1) == c;
        TimeoutInv(c.(requestTimeout := 0), ok, ok2);
      }
    case Coarse(ok) => CoarseInv(c, ok);
    case Packet(m, ok) => ReceiveInv(c, m, ok);
    case Arp(addr, ok) =>
      if c.state.CHECKING? {
        DeclineInv(c, ok);
      }
    case AppRenew(ok) => RenewInv(c, ok);
    case AppRelease(ok) => ReleaseInv(c, ok);
  }

  lemma {:induction false} RunInv(lastXid: u32, steps: seq<Step>)
    ensures Inv(Run(lastXid, steps))
    decreases |steps|
  {
    hide Inv, Apply, Started;
    if steps == [] {
      StartInv(lastXid);
    } else {
      RunInv(lastXid, steps[..|steps| - 1]);
      ApplyInv(Run(lastXid, steps[..|steps| - 1]), steps[|steps| - 1]);
    }
  }

  /** From a first start on, over all runs: an address is in use only in the states that hold a
      lease, and it is the one offered; what is being checked was acknowledged under the
      transaction number of the last request, and a bound client has had an ACK under it, too:
      BoundAddress says which address that leads to. */
  lemma AddressIsHeldSafely(lastXid: u32, steps: seq<Step>)
    ensures var c := Run(lastXid, steps);
            (c.ipAddr != 0 ==> HasLease(c.state) && c.ipAddr == c.offered) && c.sent != [] &&
            (c.state.BOUND? ==>
               c.ipAddr == c.offered && c.ack.Acked? && c.ack.xid == c.xid == c.sent[|c.sent| - 1].xid) &&
            (c.state.CHECKING? ==> c.ipAddr == 0 && c.ack == Acked(c.xid, c.offered))
  {
    RunInv(lastXid, steps);
  }

  /** BOUND is entered only by an ACK for the current transaction, or after the address that
      such an ACK gave has been checked. */
  lemma BoundOnlyAfterAck(lastXid: u32, steps: seq<Step>, s: Step)
    requires !Run(lastXid, steps).state.BOUND? && Run(lastXid, steps + [s]).state.BOUND?
    ensures var c := Run(lastXid, steps);
            (s.Packet? && AnswersUs(c, s.m)) || (s.Fine? && c.state.CHECKING? && c.ack == Acked(c.xid, c.offered))
  {
    RunInv(lastXid, steps);
    assert (steps + [s])[..|steps|] == steps;
    EntersBound(Run(lastXid, steps), s);
  }

  lemma EntersBound(c: Client, s: Step)
    requires Inv(c) && !c.state.BOUND? && Apply(c, s).state.BOUND?
    ensures (s.Packet? && AnswersUs(c, s.m)) || (s.Fine? && c.state.CHECKING? && c.ack == Acked(c.xid, c.offered))
  {
    hide Timeout, Receive, CoarseTimer, Renew, Release, Decline;
    match s
    case Fine(ok, ok2) =>
      assert c.requestTimeout == 1;
      assert c.(requestTimeout := 0).(requestTimeout := 1) == c;
      TimeoutInv(c.(requestTimeout := 0), ok, ok2);
    case Coarse(ok) => CoarseInv(c, ok);
    case Packet(m, ok) => ReceiveInv(c, m, ok);
    case Arp(addr, ok) => DeclineInv(c, ok);
    case AppRenew(ok) => RenewInv(c, ok);
    case AppRelease(ok) => ReleaseInv(c, ok);
  }

  /** Step k is the last ACK of the run that the client acted upon. */
  predicate LastAnswer(lastXid: u32, steps: seq<Step>, k: nat) {
    k < |steps| && Answered(lastXid, steps, k) && forall j :: k < j < |steps| ==> !Answered(lastXid, steps, j)
  }

  predicate Answered(lastXid: u32, steps: seq<Step>, k: nat)
    requires k < |steps|
  {
    steps[k].Packet? && AnswersUs(Run(lastXid, steps[..k]), steps[k].m)
  }

  /** The address that a client uses after this ACK: only when it is REQUESTING it takes the one
      that the ACK gives. */
  function AckedAddress(c: Client, m: Reply): u32 {
    if c.state.REQUESTING? then m.yiaddr else c.offered
  }

  /** Whether the client is CHECKING or BOUND, and then what it has been offered and the ACK. */
  datatype Tracked = Elsewhere | There(offered: u32, ack: Ack)

  function Track(c: Client): Tracked {
    if c.state.CHECKING? || c.state.BOUND? then There(c.offered, c.ack) else Elsewhere
  }

  lemma OthersLead(c: Client, ok: bool)
    ensures Track(Discover(c, ok)) == Track(Select(c, ok)) == Track(Decline(c, ok)) == Elsewhere
    ensures Track(Renew(c, ok)) == Track(Rebind(c, ok)) == Track(Release(c, ok)) == Elsewhere
  {
    hide Discover, Select, Decline, Renew, Rebind, Release;
    AskersLead(c, ok);
    HoldersLead(c, ok);
  }

  lemma AskersLead(c: Client, ok: bool)
    ensures Track(Discover(c, ok)) == Track(Select(c, ok)) == Track(Decline(c, ok)) == Elsewhere
  {
    hide Power;
  }

  lemma HoldersLead(c: Client, ok: bool)
    ensures Track(Renew(c, ok)) == Track(Rebind(c, ok)) == Track(Release(c, ok)) == Elsewhere
  {
    hide Power;
  }

  lemma ChecksAndBinds(c: Client)
    ensures Track(Check(c)) == Track(Bind(c)) == There(c.offered, c.ack)
  {
    hide LeaseTicks, FirstHost, SafeMask;
  }

  /** A step that is not such an ACK leads to CHECKING or BOUND only from there. */
  lemma AckIsKept(c: Client, s: Step)
    requires Inv(c) && !(s.Packet? && AnswersUs(c, s.m))
    ensures Track(Apply(c, s)) == Track(c) || Track(Apply(c, s)) == Elsewhere
  {
    hide Discover, Select, Check, Bind, Renew, Rebind, Release, Decline;
    var c0 := c.(requestTimeout := 0);
    match s
    case Fine(ok, ok2) =>
      OthersLead(c0, ok);
      OthersLead(Release(c0, ok), ok2);
      ChecksAndBinds(c0);
    case Coarse(ok) =>
      OthersLead(c.(t2 := Dec16(c.t2)), ok);
      OthersLead(c.(t2 := Dec16(c.t2), t1 := Dec16(c.t1)), ok);
    case Packet(m, ok) =>
      OthersLead(SetState(c0.(up := false, ipAddr := 0, gw := 0, netmask := 0), BACKING_OFF), ok);
      if m.serverId.Some? {
        OthersLead(c0.(server := m.serverId.value, offered := m.yiaddr), ok);
      }
    case Arp(_, ok) => OthersLead(c, ok);
    case AppRenew(ok) => OthersLead(c, ok);
    case AppRelease(ok) => OthersLead(c, ok);
  }

  lemma AckIsTaken(c: Client, s: Step)
    requires s.Packet? && AnswersUs(c, s.m)
    ensures Track(Apply(c, s)) == There(AckedAddress(c, s.m), Acked(s.m.xid, s.m.yiaddr))
  {
    hide Check, Bind;
    ChecksAndBinds(HandleAck(c, s.m).(requestTimeout := 0, ack := Acked(s.m.xid, s.m.yiaddr)));
    ChecksAndBinds(c.(requestTimeout := 0, ack := Acked(s.m.xid, s.m.yiaddr)));
  }

  lemma {:induction false} FollowsAnAck(lastXid: u32, steps: seq<Step>) returns (k: nat)
    requires Track(Run(lastXid, steps)).There?
    ensures LastAnswer(lastXid, steps, k)
    ensures var m := steps[k].m;
            Track(Run(lastXid, steps)) == There(AckedAddress(Run(lastXid, steps[..k]), m), Acked(m.xid, m.yiaddr))
    decreases |steps|
  {
    hide Apply, Inv, AnswersUs, AckedAddress, Track;
    var n := |steps| - 1;
    assert steps != [] by {
      NotBoundAtFirst(lastXid);
    }
    var c, s := Run(lastXid, steps[..n]), steps[n];
    RunInv(lastXid, steps[..n]);
    if s.Packet? && AnswersUs(c, s.m) {
      k := n;
      AckIsTaken(c, s);
    } else {
      AckIsKept(c, s);
      k := FollowsAnAck(lastXid, steps[..n]);
      forall j | 0 <= j < n ensures Answered(lastXid, steps[..n], j) <==> Answered(lastXid, steps, j) {
        assert steps[..n][..j] == steps[..j];
      }
      assert steps[..n][..k] == steps[..k];
    }
  }

  lemma NotBoundAtFirst(lastXid: u32)
    ensures Track(Started(lastXid)) == Elsewhere
  {
  }

  /** Over all runs: the address of a BOUND client is that of the last ACK it acted upon exactly
      if it was REQUESTING when that came, or had been offered the same address. Otherwise it is
      the one it had been offered, which is 0.0.0.0 if the application asked for a renewal of
      nothing. */
  lemma BoundAddress(lastXid: u32, steps: seq<Step>) returns (k: nat)
    requires Run(lastXid, steps).state.BOUND?
    ensures LastAnswer(lastXid, steps, k)
    ensures var c, c0, m := Run(lastXid, steps), Run(lastXid, steps[..k]), steps[k].m;
            c.ipAddr == AckedAddress(c0, m) && c.ack == Acked(m.xid, m.yiaddr) &&
            (c.ipAddr == m.yiaddr <==> c0.state.REQUESTING? || c0.offered == m.yiaddr)
  {
    k := FollowsAnAck(lastXid, steps);
    RunInv(lastXid, steps);
    hide Run, LastAnswer;
  }

  /** A renewal of nothing: the client ends up BOUND without an address. */
  lemma BoundToNothing(lastXid: u32, m: Reply)
    requires AnswersUs(Renew(Started(lastXid), true), m)
    ensures var c := Run(lastXid, [AppRenew(true), Packet(m, true)]);
            c.state.BOUND? && c.up && c.ipAddr == 0 && c.ack == Acked(m.xid, m.yiaddr)
  {
    hide Power, LeaseTicks, FirstHost, SafeMask;
    var steps := [AppRenew(true), Packet(m, true)];
    assert steps[..1] == [AppRenew(true)] && steps[..1][..0] == [];
    assert Run(lastXid, steps[..1]) == Renew(Started(lastXid), true);
    assert Run(lastXid, steps) == Receive(Renew(Started(lastXid), true), m, true);
  }

  /** A NAK for the current transaction and a release take the address away, wherever the
      client is. */
  lemma NakAndReleaseClear(c: Client, m: Reply, ok: bool)
    requires m.ours && m.xid == c.xid && m.mtype == Some(DHCP_NAK) && AddressOk(c)
    ensures var c' := Release(c, ok);
            c'.ipAddr == c'.gw == c'.netmask == 0 && !c'.up && c'.server == c'.offered == c'.mask == c'.gateway == 0 &&
            c'.broadcast == c'.lease == c'.renewal == c'.rebinding == 0
    ensures var c' := Receive(c, m, ok);
            if c.state.REQUESTING? || c.state.REBOOTING? || c.state.RENEWING? || c.state.REBINDING?
            then c'.ipAddr == c'.gw == c'.netmask == 0 && !c'.up && c'.state.SELECTING? && c'.offered == 0
            else c' == c
  {
  }

  /** A release is meant for the server that gave the lease; it is always sent to 0.0.0.0, and
      never says which address is given up. */
  lemma ReleaseMissesTheServer(c: Client)
    ensures Release(c, true).sent == c.sent + [Message(RELEASE, Release(c, true).xid, 0, 0)]
  {
  }

  // ---------------------------------------------------------------- progress of the fine timer

  /** As long as every OFFER that it takes names its server, the client is never left without
      a running timer while it waits for an answer. */
  predicate OffersNameServers(c: Client, s: Step) {
    s.Packet? && s.m.ours && s.m.xid == c.xid && s.m.mtype == Some(DHCP_OFFER) ==> s.m.serverId.Some?
  }

  predicate Alive(c: Client) {
    c.state.SELECTING? || Waits(c.state) ==> c.requestTimeout > 0
  }

  /** One step leaves a waiting client without a timer exactly if it is such an OFFER. */
  lemma StaysAlive(c: Client, s: Step)
    requires Inv(c) && Alive(c)
    ensures Alive(Apply(c, s)) <==> !c.state.SELECTING? || OffersNameServers(c, s)
  {
    hide Timeout, Receive, CoarseTimer, Renew, Release, Decline, Inv;
    match s
    case Fine(ok, ok2) =>
      if c.requestTimeout == 1 {
        assert c.(requestTimeout := 0).(requestTimeout := 1) == c;
        TimeoutInv(c.(requestTimeout := 0), ok, ok2);
      }
    case Packet(m, ok) => ReceiveInv(c, m, ok);
    case Coarse(ok) => CoarseAlive(c, ok);
    case Arp(addr, ok) => OthersAlive(c, addr, ok);
    case AppRenew(ok) => OthersAlive(c, 0, ok);
    case AppRelease(ok) => OthersAlive(c, 0, ok);
  }

  lemma CoarseAlive(c: Client, ok: bool)
    requires Inv(c) && Alive(c)
    ensures Alive(CoarseTimer(c, ok))
  {
    CoarseInv(c, ok);
  }

  lemma OthersAlive(c: Client, addr: u32, ok: bool)
    requires Inv(c) && Alive(c)
    ensures Alive(ArpReply(c, addr, ok)) && Alive(Renew(c, ok)) && Alive(Release(c, ok))
  {
    hide Renew, Release, Decline;
    RenewInv(c, ok);
    ReleaseInv(c, ok);
    if c.state.CHECKING? {
      DeclineInv(c, ok);
    }
  }

  lemma {:induction false} RunAlive(lastXid: u32, steps: seq<Step>)
    requires forall k :: 0 <= k < |steps| ==> OffersNameServers(Run(lastXid, steps[..k]), steps[k])
    ensures Inv(Run(lastXid, steps)) && Alive(Run(lastXid, steps))
    decreases |steps|
  {
    RunInv(lastXid, steps);
    if steps == [] {
      DiscoverAlive(lastXid);
    } else {
      var n := |steps| - 1;
      var before := steps[..n];
      forall k | 0 <= k < |before| ensures OffersNameServers(Run(lastXid, before[..k]), before[k]) {
        assert before[..k] == steps[..k];
      }
      RunAlive(lastXid, before);
      StaysAlive(Run(lastXid, before), steps[n]);
    }
  }

  lemma DiscoverAlive(lastXid: u32)
    ensures Alive(Started(lastXid))
  {
  }
}
