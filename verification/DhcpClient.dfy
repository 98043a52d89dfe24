/** The DHCP client core with its fields, timers and handlers. */
module DhcpClients {
  import opened Bytes
  import opened Options
  import Spec = DhcpSpec
  import DhcpMessage

  class BDHCPClientCore {
    var state: Spec.State
    var now: int
    var timers: map<Spec.Timer, int>
    var xid: nat
    var xidReuseCounter: nat
    var requestCount: nat
    var offeredAddr: nat
    var offeredServer: nat
    var ackedLease: nat
    ghost var reports: seq<Spec.Report>
    ghost var ackAt: int
    ghost var ackAddr: nat
    ghost var draws: nat
    ghost var discovers: multiset<nat>

    ghost function View(): Spec.Client
      reads this
    {
      Spec.Client(state, now, timers, xid, xidReuseCounter, requestCount, offeredAddr, offeredServer, ackedLease,
                  reports, ackAt, ackAddr, draws, discovers)
    }

    constructor (now: int, random: nat)
      ensures View() == Spec.Started(now, random)
    {
      state, this.now, timers := Spec.Resetting, now, map[];
      xid, xidReuseCounter, requestCount, offeredAddr, offeredServer, ackedLease := 0, 0, 0, 0, 0, 0;
      reports, ackAt, ackAddr, draws, discovers := [], 0, 0, 0, multiset{};
      new;
      StartProcess(true, random);
    }

    method SetTimer(t: Spec.Timer, timeout: nat)
      modifies this`timers
      ensures timers == old(timers)[t := now + timeout]
    {
      timers := timers[t := now + timeout];
    }

    method RemoveTimer(t: Spec.Timer)
      modifies this`timers
      ensures timers == old(timers) - {t}
    {
      timers := timers - {t};
    }

    /** start_process */
    method StartProcess(forceNewXid: bool, random: nat)
      modifies this
      ensures View() == Spec.StartProcess(old(View()), forceNewXid, random)
    {
      NextXid(forceNewXid, random);
      timers := timers[Spec.Reset := now + Spec.RESET_TIMEOUT];
      state := Spec.SentDiscover;
    }

    /** The xid of the next discover: another one when forced, or when this one was used often enough. */
    method NextXid(force: bool, random: nat)
      modifies this`xid, this`xidReuseCounter, this`draws, this`discovers
      ensures var drawn := force || old(xidReuseCounter) == Spec.XID_REUSE_MAX;
              && xid == (if drawn then random else old(xid)) && draws == old(draws) + (if drawn then 1 else 0)
              && xidReuseCounter == (if drawn then 0 else old(xidReuseCounter)) + 1
      ensures discovers == old(discovers) + multiset{draws}
    {
      if force || xidReuseCounter == Spec.XID_REUSE_MAX {
        xid := random;
        xidReuseCounter := 0;
        draws := draws + 1;
      }
      xidReuseCounter := xidReuseCounter + 1;
      discovers := discovers + multiset{draws};
    }

    /** reset_timer_handler, the timer having been taken off by the reactor. */
    method ResetTimerHandler(random: nat)
      requires Spec.Reset in timers
      modifies this
      ensures View() == Spec.Fired(old(View()), Spec.Reset, random)
    {
      RemoveTimer(Spec.Reset);
      StartProcess(state.Resetting?, random);
    }

    /** request_timer_handler */
    method RequestTimerHandler(random: nat)
      requires Spec.Request in timers
      modifies this
      ensures View() == Spec.Fired(old(View()), Spec.Request, random)
    {
      RemoveTimer(Spec.Request);
      if requestCount == Spec.MAX_REQUESTS {
        StartProcess(false, random);
        return;
      }
      SetTimer(Spec.Request, Spec.REQUEST_TIMEOUT);
      requestCount := requestCount + 1;
    }

    /** renew_timer_handler */
    method RenewTimerHandler(ghost random: nat)
      requires Spec.Renew in timers
      modifies this
      ensures View() == Spec.Fired(old(View()), Spec.Renew, random)
    {
      RemoveTimer(Spec.Renew);
      SetTimer(Spec.RenewRequest, Spec.RENEW_REQUEST_TIMEOUT);
      SetTimer(Spec.Lease, Spec.LeaseTimeout(ackedLease));
      state := Spec.Renewing;
    }

    /** renew_request_timer_handler */
    method RenewRequestTimerHandler(ghost random: nat)
      requires Spec.RenewRequest in timers
      modifies this
      ensures View() == Spec.Fired(old(View()), Spec.RenewRequest, random)
    {
      RemoveTimer(Spec.RenewRequest);
      SetTimer(Spec.RenewRequest, Spec.RENEW_REQUEST_TIMEOUT);
    }

    /** lease_timer_handler; says that the address is gone. */
    method LeaseTimerHandler(random: nat) returns (report: Option<Spec.Report>)
      requires Spec.Lease in timers
      modifies this
      ensures View() == Spec.Fired(old(View()), Spec.Lease, random)
      ensures report == Some(Spec.Down)
    {
      RemoveTimer(Spec.Lease);
      RemoveTimer(Spec.RenewRequest);
      StartProcess(true, random);
      report := Report(Spec.Down);
    }

    method Report(r: Spec.Report) returns (report: Option<Spec.Report>)
      modifies this`reports
      ensures reports == old(reports) + [r] && report == Some(r)
    {
      reports := reports + [r];
      report := Some(r);
    }

    /** recv_handler_done on the bytes received. */
    method RecvHandlerDone(buf: array<Byte>, dataLen: nat, mac: seq<Byte>, ghost slack: nat)
          returns (report: Option<Spec.Report>)
      requires Spec.Inv(View(), slack) && dataLen <= buf.Length && |mac| == 6
      modifies this
      ensures var reply := old(DhcpMessage.ReplyIn(buf[..dataLen], mac));
              View() == if reply.None? then old(View()) else Spec.Received(old(View()), reply.value)
      ensures reports == old(reports) + if report.Some? then [report.value] else []
    {
      hide Spec.Inv, DhcpMessage.ReplyIn;
      report := None;
      if state.Resetting? { return; }
      var r := DhcpMessage.ReadReply(buf, dataLen, mac);
      if r.Some? { report := TakeReply(r.value, slack); }
    }

    /** What recv_handler_done does with the reply. */
    method TakeReply(r: Spec.Reply, ghost slack: nat) returns (report: Option<Spec.Report>)
      requires Spec.Inv(View(), slack)
      modifies this
      ensures View() == Spec.Received(old(View()), r)
      ensures reports == old(reports) + if report.Some? then [report.value] else []
    {
      hide Spec.XidInv, Spec.LeaseInv, Spec.Alternating;
      report := None;
      if state.Resetting? || r.xid != xid || r.server.None? { return; }
      if r.kind.Nak? {
        if state.SentDiscover? || r.server.value != offeredServer { return; }
        report := ReceiveNak();
        return;
      }
      if r.addr == 0 || r.lease.None? || r.mask.None? { return; }
      if state.SentDiscover? && r.kind.Offer? {
        offeredAddr := r.addr;
        offeredServer := r.server.value;
        RemoveTimer(Spec.Reset);
        SetTimer(Spec.Request, Spec.REQUEST_TIMEOUT);
        state := Spec.SentRequest;
        requestCount := 1;
      } else if (state.SentRequest? || state.Renewing?) && r.kind.Ack? {
        if r.addr != offeredAddr || r.server.value != offeredServer { return; }
        report := ReceiveAck(r.lease.value);
      }
    }

    method ReceiveNak() returns (report: Option<Spec.Report>)
      requires timers.Keys == Spec.TimersOf(state) && (state.SentRequest? || Spec.IsUp(state))
      modifies this
      ensures View() == Spec.GoReset(old(View()))
      ensures reports == old(reports) + if report.Some? then [report.value] else []
    {
      ghost var was := timers;
      report := None;
      var wasUp := Spec.IsUp(state);
      if state.SentRequest? {
        RemoveTimer(Spec.Request);
      } else if state.Finished? {
        RemoveTimer(Spec.Renew);
      } else {
        RemoveTimer(Spec.RenewRequest);
        RemoveTimer(Spec.Lease);
      }
      assert timers == map[];
      SetTimer(Spec.Reset, Spec.RESET_TIMEOUT);
      state := Spec.Resetting;
      if wasUp {
        reports := reports + [Spec.Down];
        report := Some(Spec.Down);
      }
    }

    method ReceiveAck(lease: nat) returns (report: Option<Spec.Report>)
      requires timers.Keys == Spec.TimersOf(state) && (state.SentRequest? || state.Renewing?)
      modifies this
      ensures var c := old(View());
              View() == c.(lease := lease, state := Spec.Finished, ackAt := c.now, ackAddr := c.addr,
                           timers := (c.timers - {Spec.Request, Spec.RenewRequest, Spec.Lease})
                                       [Spec.Renew := c.now + Spec.RenewTimeout(lease)],
                           reports := if c.state.SentRequest? then c.reports + [Spec.Up] else c.reports)
      ensures reports == old(reports) + if report.Some? then [report.value] else []
    {
      hide Spec.TimersOf, Spec.RenewTimeout;
      report := None;
      var first := state.SentRequest?;
      ackedLease := lease;
      ackAt, ackAddr := now, offeredAddr;
      StopAndRenew(Spec.RenewTimeout(lease));
      state := Spec.Finished;
      if first {
        reports := reports + [Spec.Up];
        report := Some(Spec.Up);
      }
    }

    /** Stops the timers that wait for the acknowledgement and starts the renew timer. */
    method StopAndRenew(timeout: nat)
      requires timers.Keys == Spec.TimersOf(state) && (state.SentRequest? || state.Renewing?)
      modifies this`timers
      ensures timers == (old(timers) - {Spec.Request, Spec.RenewRequest, Spec.Lease})[Spec.Renew := now + timeout]
    {
      ghost var was := timers;
      if state.SentRequest? {
        RemoveTimer(Spec.Request);
      } else {
        RemoveTimer(Spec.RenewRequest);
        RemoveTimer(Spec.Lease);
      }
      assert timers == map[] && was - {Spec.Request, Spec.RenewRequest, Spec.Lease} == map[];
      SetTimer(Spec.Renew, timeout);
    }

    /** BDHCPClientCore_GetClientIP: what it asserts of the state makes the address the acknowledged one. */
    method GetClientIP(ghost slack: nat) returns (ip: nat)
      requires Spec.Inv(View(), slack) && Spec.IsUp(state)
      ensures ip == ackAddr && now <= ackAt + 1000 * ackedLease + 2 * slack
    {
      assert state.Finished? ==> Spec.Renew in timers;
      ip := offeredAddr;
    }
  }
}
