/** The functions of src/core/dhcp.c as they change struct dhcp and the interface in place.
    Each does what the function of DhcpClient for it says. */
module DhcpLayer {
  import opened DhcpClient
  import opened Memory

  class Dhcp {
    var state: State
    var tries: byte
    var xid: u32
    var lastXid: u32
    var requestTimeout: u16
    var t1Timeout: u16
    var t2Timeout: u16
    var serverIpAddr: u32
    var offeredIpAddr: u32
    var offeredSnMask: u32
    var offeredGwAddr: u32
    var offeredBcAddr: u32
    var offeredT0Lease: u32
    var offeredT1Renew: u32
    var offeredT2Rebind: u32
    /** the interface */
    var ipAddr: u32
    var netmask: u32
    var gw: u32
    var up: bool
    ghost var sent: seq<Message>
    ghost var ack: Ack

    ghost function View(): Client
      reads this
    {
      Client(state, tries, xid, lastXid, requestTimeout, t1Timeout, t2Timeout,
             serverIpAddr, offeredIpAddr, offeredSnMask, offeredGwAddr, offeredBcAddr,
             offeredT0Lease, offeredT1Renew, offeredT2Rebind, ipAddr, netmask, gw, up, sent, ack)
    }

    /** dhcp_start with a new struct dhcp. */
    constructor (lastXid: u32)
      ensures View() == Started(lastXid)
    {
      state, tries, xid, this.lastXid, requestTimeout, t1Timeout, t2Timeout := CLEARED, 0, 0, lastXid, 0, 0, 0;
      serverIpAddr, offeredIpAddr, offeredSnMask, offeredGwAddr, offeredBcAddr := 0, 0, 0, 0, 0;
      offeredT0Lease, offeredT1Renew, offeredT2Rebind := 0, 0, 0;
      ipAddr, netmask, gw, up, sent, ack := 0, 0, 0, false, [], NoAck;
      new;
      DiscoverServers(true);
    }

    method EnterState(newState: State)
      modifies this`state, this`tries
      ensures View() == SetState(old(View()), newState)
    {
      if newState != state {
        state := newState;
        tries := 0;
      }
    }

    /** dhcp_create_request, and the sending of the request. */
    method CreateAndSend(kind: Kind, to: u32, ok: bool)
      modifies this`xid, this`lastXid, this`sent
      ensures View() == Send(old(View()), kind, to, ok)
    {
      if !ok {
        return;
      }
      if tries == 0 {
        lastXid := if lastXid == 0xffff_ffff then 0 else lastXid + 1;
      }
      xid := lastXid;
      var ciaddr := 0;
      if state.BOUND? || state.RENEWING? || state.REBINDING? {
        ciaddr := ipAddr;
      }
      sent := sent + [Message(kind, xid, to, ciaddr)];
    }

    method StartTimer(msecs: nat)
      requires msecs <= 60000
      modifies this`requestTimeout
      ensures requestTimeout == Ticks(msecs)
    {
      requestTimeout := (msecs + DHCP_FINE_TIMER_MSECS - 1) / DHCP_FINE_TIMER_MSECS;
    }

    /** The end of dhcp_discover and dhcp_select. */
    method CountRequest()
      modifies this`tries, this`requestTimeout
      ensures RequestMsecs(Inc8(old(tries))) <= 60000
      ensures View() == old(View()).(tries := Inc8(old(tries)), requestTimeout := Ticks(RequestMsecs(Inc8(old(tries)))))
    {
      tries := Inc8(tries);
      BackoffFits(tries);
      StartTimer(RequestMsecs(tries));
    }

    /** The end of dhcp_renew. */
    method CountRenew()
      modifies this`tries, this`requestTimeout
      ensures RenewMsecs(Inc8(old(tries))) <= 60000
      ensures View() == old(View()).(tries := Inc8(old(tries)), requestTimeout := Ticks(RenewMsecs(Inc8(old(tries)))))
    {
      tries := Inc8(tries);
      BackoffFits(tries);
      StartTimer(RenewMsecs(tries));
    }

    /** The end of dhcp_rebind and dhcp_release. */
    method CountRebind()
      modifies this`tries, this`requestTimeout
      ensures RebindMsecs(Inc8(old(tries))) <= 60000
      ensures View() == old(View()).(tries := Inc8(old(tries)), requestTimeout := Ticks(RebindMsecs(Inc8(old(tries)))))
    {
      tries := Inc8(tries);
      BackoffFits(tries);
      StartTimer(RebindMsecs(tries));
    }

    method DiscoverServers(ok: bool)
      modifies this
      ensures View() == Discover(old(View()), ok)
    {
      hide Send, SetState, RequestMsecs;
      offeredIpAddr := 0;
      EnterState(SELECTING);
      CreateAndSend(DISCOVER, BROADCAST, ok);
      CountRequest();
    }

    method SelectOffer(ok: bool)
      modifies this
      ensures View() == Select(old(View()), ok)
    {
      hide Send, SetState, RequestMsecs;
      EnterState(REQUESTING);
      CreateAndSend(REQUEST, BROADCAST, ok);
      CountRequest();
    }

    method CheckAddress()
      modifies this
      ensures View() == Check(old(View()))
    {
      EnterState(CHECKING);
      tries := Inc8(tries);
      StartTimer(500);
    }

    method RenewLease(ok: bool)
      modifies this
      ensures View() == Renew(old(View()), ok)
    {
      hide Send, SetState, RenewMsecs;
      EnterState(RENEWING);
      CreateAndSend(REQUEST, serverIpAddr, ok);
      CountRenew();
    }

    method RebindLease(ok: bool)
      modifies this
      ensures View() == Rebind(old(View()), ok)
    {
      hide Send, SetState, RebindMsecs;
      EnterState(REBINDING);
      CreateAndSend(REQUEST, BROADCAST, ok);
      CountRebind();
    }

    /** netif_set_down, and the addresses of the interface to 0.0.0.0 */
    method TakeDown()
      modifies this`up, this`ipAddr, this`gw, this`netmask
      ensures View() == old(View()).(up := false, ipAddr := 0, gw := 0, netmask := 0)
    {
      up := false;
      ipAddr, gw, netmask := 0, 0, 0;
    }

    method ForgetAddresses()
      modifies this`serverIpAddr, this`offeredIpAddr, this`offeredSnMask, this`offeredGwAddr, this`offeredBcAddr
      ensures View() == old(View()).(server := 0, offered := 0, mask := 0, gateway := 0, broadcast := 0)
    {
      serverIpAddr := 0;
      offeredIpAddr, offeredSnMask, offeredGwAddr, offeredBcAddr := 0, 0, 0, 0;
    }

    method ForgetLease()
      modifies this`offeredT0Lease, this`offeredT1Renew, this`offeredT2Rebind
      ensures View() == old(View()).(lease := 0, renewal := 0, rebinding := 0)
    {
      offeredT0Lease, offeredT1Renew, offeredT2Rebind := 0, 0, 0;
    }

    method ReleaseLease(ok: bool)
      modifies this
      ensures View() == Release(old(View()), ok)
    {
      hide Send, SetState, RebindMsecs;
      EnterState(OFF);
      ForgetAddresses();
      ForgetLease();
      CreateAndSend(RELEASE, serverIpAddr, ok);
      CountRebind();
      TakeDown();
    }

    method DeclineLease(ok: bool)
      modifies this
      ensures View() == Decline(old(View()), ok)
    {
      EnterState(BACKING_OFF);
      CreateAndSend(DECLINE, BROADCAST, ok);
      tries := Inc8(tries);
      StartTimer(10 * 1000);
    }

    /** The rounding and clamping of dhcp_bind, in a u32_t and then a u16_t. */
    method LeaseTimer(period: u32) returns (ticks: u16)
      ensures ticks == LeaseTicks(period)
    {
      var timeout := ((period + DHCP_COARSE_TIMER_SECS / 2) % 0x1_0000_0000) / DHCP_COARSE_TIMER_SECS;
      if timeout > 0xffff {
        timeout := 0xffff;
      }
      ticks := timeout;
      if ticks == 0 {
        ticks := 1;
      }
    }

    method SetLeaseTimers()
      modifies this`t1Timeout, this`t2Timeout
      ensures View() == old(View()).(
                          t1 := if offeredT1Renew != INFINITE then LeaseTicks(offeredT1Renew) else old(t1Timeout),
                          t2 := if offeredT2Rebind != INFINITE then LeaseTicks(offeredT2Rebind) else old(t2Timeout))
    {
      hide LeaseTicks;
      if offeredT1Renew != INFINITE {
        t1Timeout := LeaseTimer(offeredT1Renew);
      }
      if offeredT2Rebind != INFINITE {
        t2Timeout := LeaseTimer(offeredT2Rebind);
      }
    }

    /** The mask and the gateway that dhcp_bind uses. */
    method NetworkOf(snMask: u32, gwAddr: u32, addr: u32) returns (mask: u32, gateway: u32)
      ensures mask == SafeMask(snMask) && gateway == if gwAddr == 0 then FirstHost(addr, mask) else gwAddr
    {
      hide FirstHost, ClassMask;
      mask, gateway := snMask, gwAddr;
      if mask == 0 {
        mask := ClassMask(snMask / 0x100_0000);
      }
      if gateway == 0 {
        gateway := FirstHost(addr, mask);
      }
    }

    method BindAddress()
      modifies this
      ensures View() == Bind(old(View()))
    {
      hide LeaseTicks, FirstHost, SafeMask;
      SetLeaseTimers();
      var mask, gateway := NetworkOf(offeredSnMask, offeredGwAddr, offeredIpAddr);
      BringUp(offeredIpAddr, mask, gateway);
      EnterState(BOUND);
    }

    method BringUp(addr: u32, mask: u32, gateway: u32)
      modifies this`up, this`ipAddr, this`gw, this`netmask
      ensures View() == old(View()).(up := true, ipAddr := addr, gw := gateway, netmask := mask)
    {
      ipAddr, netmask, gw, up := addr, mask, gateway, true;
    }

    method TakeLease(m: Reply)
      modifies this`offeredT0Lease, this`offeredT1Renew, this`offeredT2Rebind
      ensures var t0 := Or(m.lease, old(offeredT0Lease));
              View() == old(View()).(lease := t0, renewal := Or(m.t1, t0 / 2), rebinding := Or(m.t2, t0))
    {
      if m.lease.Some? {
        offeredT0Lease := m.lease.value;
      }
      offeredT1Renew := if m.t1.Some? then m.t1.value else offeredT0Lease / 2;
      offeredT2Rebind := if m.t2.Some? then m.t2.value else offeredT0Lease;
    }

    method TakeAddresses(m: Reply)
      modifies this`offeredIpAddr, this`offeredSnMask, this`offeredGwAddr, this`offeredBcAddr
      ensures View() == old(View()).(offered := m.yiaddr, mask := Or(m.mask, 0), gateway := Or(m.router, 0),
                                     broadcast := Or(m.broadcast, 0))
    {
      offeredIpAddr := m.yiaddr;
      offeredSnMask := if m.mask.Some? then m.mask.value else 0;
      offeredGwAddr := if m.router.Some? then m.router.value else 0;
      offeredBcAddr := if m.broadcast.Some? then m.broadcast.value else 0;
    }

    /** dhcp_handle_ack */
    method TakeAck(m: Reply)
      modifies this
      ensures View() == HandleAck(old(View()), m)
    {
      TakeLease(m);
      TakeAddresses(m);
    }

    method TakeNak(ok: bool)
      modifies this
      ensures View() == HandleNak(old(View()), ok)
    {
      hide Discover, SetState;
      TakeDown();
      EnterState(BACKING_OFF);
      DiscoverServers(ok);
    }

    method TakeOffer(m: Reply, ok: bool)
      modifies this
      ensures View() == HandleOffer(old(View()), m, ok)
    {
      hide Select;
      if m.serverId.Some? {
        serverIpAddr := m.serverId.value;
        offeredIpAddr := m.yiaddr;
        SelectOffer(ok);
      }
    }

    /** dhcp_recv */
    method ReceivePacket(m: Reply, ok: bool)
      modifies this
      ensures View() == Receive(old(View()), m, ok)
    {
      hide HandleAck, HandleNak, HandleOffer, Bind, Check;
      if !m.ours || m.xid != xid || m.mtype.None? {
        return;
      }
      var msgType := m.mtype.value;
      if msgType == DHCP_ACK {
        if state.REQUESTING? {
          TakeAck(m);
          requestTimeout := 0;
          ack := Acked(m.xid, m.yiaddr);
          if DHCP_DOES_ARP_CHECK {
            CheckAddress();
          } else {
            BindAddress();
          }
        } else if state.REBOOTING? || state.REBINDING? || state.RENEWING? {
          requestTimeout := 0;
          ack := Acked(m.xid, m.yiaddr);
          BindAddress();
        }
      } else if msgType == DHCP_NAK && (state.REBOOTING? || state.REQUESTING? || state.REBINDING? || state.RENEWING?) {
        requestTimeout := 0;
        TakeNak(ok);
      } else if msgType == DHCP_OFFER && state.SELECTING? {
        requestTimeout := 0;
        TakeOffer(m, ok);
      }
    }

    /** dhcp_timeout */
    method OnTimeout(ok: bool, ok2: bool)
      modifies this
      ensures View() == Timeout(old(View()), ok, ok2)
    {
      hide Discover, Select, Check, Bind, Renew, Rebind, Release;
      if state.BACKING_OFF? || state.SELECTING? {
        DiscoverServers(ok);
      } else if state.REQUESTING? {
        if tries <= 5 {
          SelectOffer(ok);
        } else {
          ReleaseLease(ok);
          DiscoverServers(ok2);
        }
      } else if state.CHECKING? {
        if tries <= 1 {
          CheckAddress();
        } else {
          BindAddress();
        }
      } else if state.RENEWING? {
        RenewLease(ok);
      } else if state.REBINDING? {
        if tries <= 8 {
          RebindLease(ok);
        } else {
          ReleaseLease(ok);
          DiscoverServers(ok2);
        }
      }
    }

    /** dhcp_fine_tmr */
    method FineTmr(ok: bool, ok2: bool)
      modifies this
      ensures View() == FineTimer(old(View()), ok, ok2)
    {
      hide Timeout;
      if requestTimeout > 1 {
        requestTimeout := requestTimeout - 1;
      } else if requestTimeout == 1 {
        requestTimeout := requestTimeout - 1;
        OnTimeout(ok, ok2);
      }
    }

    /** dhcp_t1_timeout and dhcp_t2_timeout */
    method OnT1(ok: bool)
      modifies this
      ensures View() == if TimersCount(old(state)) then Renew(old(View()), ok) else old(View())
    {
      if state.REQUESTING? || state.BOUND? || state.RENEWING? {
        RenewLease(ok);
      }
    }

    method OnT2(ok: bool)
      modifies this
      ensures View() == if TimersCount(old(state)) then Rebind(old(View()), ok) else old(View())
    {
      if state.REQUESTING? || state.BOUND? || state.RENEWING? {
        RebindLease(ok);
      }
    }

    /** dhcp_coarse_tmr */
    method CoarseTmr(ok: bool)
      modifies this
      ensures View() == CoarseTimer(old(View()), ok)
    {
      hide Renew, Rebind;
      var t2 := t2Timeout;
      t2Timeout := Dec16(t2Timeout);
      if t2 == 1 {
        OnT2(ok);
      } else {
        var t1 := t1Timeout;
        t1Timeout := Dec16(t1Timeout);
        if t1 == 1 {
          OnT1(ok);
        }
      }
    }

    /** dhcp_arp_reply */
    method ArpReplied(addr: u32, ok: bool)
      modifies this
      ensures View() == ArpReply(old(View()), addr, ok)
    {
      hide Decline;
      if DHCP_DOES_ARP_CHECK && state.CHECKING? {
        if addr == offeredIpAddr {
          DeclineLease(ok);
        }
      }
    }
  }
}
