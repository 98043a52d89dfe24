/**
 * The DHCP client as a state machine over its timers and the server's replies. Time is in milliseconds; a
 * timer fires at its time or up to `slack` later.
 */
module DhcpSpec {
  import opened Options

  const RESET_TIMEOUT: nat := 4000
  const REQUEST_TIMEOUT: nat := 3000
  const RENEW_REQUEST_TIMEOUT: nat := 20000
  const MAX_REQUESTS: nat := 4
  const XID_REUSE_MAX: nat := 8

  function RenewTimeout(lease: nat): nat { 500 * lease }
  function LeaseTimeout(lease: nat): nat { 1000 * lease - RenewTimeout(lease) }

  datatype State = Resetting | SentDiscover | SentRequest | Finished | Renewing
  datatype Timer = Reset | Request | Renew | RenewRequest | Lease
  datatype Report = Up | Down

  /**
   * The fields of the client, then what happened: the reports made, the last accepted ACK, and for each xid
   * drawn the discovers started with it.
   */
  datatype Client = Client(
    state: State, now: int, timers: map<Timer, int>, xid: nat, xidUses: nat, requestCount: nat,
    addr: nat, server: nat, lease: nat,
    reports: seq<Report>, ackAt: int, ackAddr: nat, draws: nat, discovers: multiset<nat>)

  datatype Kind = Offer | Ack | Nak

  /** A reply for this client that is well formed: which options it carried. */
  datatype Reply = Reply(kind: Kind, xid: nat, server: Option<nat>, addr: nat, lease: Option<nat>, mask: Option<nat>)

  datatype Event = Wait(ms: nat) | Fire(t: Timer, random: nat) | Receive(reply: Reply)

  /** The running timers as a function of the state. */
  function TimersOf(s: State): set<Timer> {
    match s
    case Resetting => {Reset}
    case SentDiscover => {Reset}
    case SentRequest => {Request}
    case Finished => {Renew}
    case Renewing => {RenewRequest, Lease}
  }

  predicate IsUp(s: State) { s.Finished? || s.Renewing? }

  /** start_process */
  function StartProcess(c: Client, force: bool, random: nat): Client {
    var d := if force || c.xidUses == XID_REUSE_MAX then c.(xid := random, xidUses := 0, draws := c.draws + 1) else c;
    d.(xidUses := d.xidUses + 1, discovers := d.discovers + multiset{d.draws},
       timers := d.timers[Reset := d.now + RESET_TIMEOUT], state := SentDiscover)
  }

  function Started(now: int, random: nat): Client {
    StartProcess(Client(Resetting, now, map[], 0, 0, 0, 0, 0, 0, [], 0, 0, 0, multiset{}), true, random)
  }

  function GoReset(c: Client): Client {
    c.(state := Resetting, timers := map[Reset := c.now + RESET_TIMEOUT],
       reports := if IsUp(c.state) then c.reports + [Down] else c.reports)
  }

  function Fired(c: Client, t: Timer, random: nat): Client {
    var d := c.(timers := c.timers - {t});
    match t
    case Reset => StartProcess(d, c.state.Resetting?, random)
    case Request =>
      if c.requestCount == MAX_REQUESTS then StartProcess(d, false, random)
      else d.(timers := d.timers[Request := d.now + REQUEST_TIMEOUT], requestCount := d.requestCount + 1)
    case Renew =>
      d.(timers := d.timers[RenewRequest := d.now + RENEW_REQUEST_TIMEOUT][Lease := d.now + LeaseTimeout(d.lease)],
         state := Renewing)
    case RenewRequest => d.(timers := d.timers[RenewRequest := d.now + RENEW_REQUEST_TIMEOUT])
    case Lease =>
      var e := StartProcess(d.(timers := d.timers - {RenewRequest}), true, random);
      e.(reports := e.reports + [Down])
  }

  /** recv_handler_done from the checks of the parsed reply on. */
  function Received(c: Client, r: Reply): Client {
    if c.state.Resetting? || r.xid != c.xid || r.server.None? then c
    else if r.kind.Nak? then
      if c.state.SentDiscover? || r.server.value != c.server then c else GoReset(c)
    else if r.addr == 0 || r.lease.None? || r.mask.None? then c
    else if c.state.SentDiscover? && r.kind.Offer? then
      c.(addr := r.addr, server := r.server.value, state := SentRequest, requestCount := 1,
         timers := (c.timers - {Reset})[Request := c.now + REQUEST_TIMEOUT])
    else if (c.state.SentRequest? || c.state.Renewing?) && r.kind.Ack? then
      if r.addr != c.addr || r.server.value != c.server then c
      else
        c.(lease := r.lease.value, state := Finished, ackAt := c.now, ackAddr := r.addr,
           timers := (c.timers - {Request, RenewRequest, Lease})[Renew := c.now + RenewTimeout(r.lease.value)],
           reports := if c.state.SentRequest? then c.reports + [Up] else c.reports)
    else c
  }

  predicate Enabled(c: Client, ev: Event, slack: nat) {
    match ev
    case Wait(ms) => forall t :: t in c.timers ==> c.now + ms <= c.timers[t] + slack
    case Fire(t, _) => t in c.timers && c.timers[t] <= c.now
    case Receive(_) => true
  }

  function Step(c: Client, ev: Event): Client
  {
    match ev
    case Wait(ms) => c.(now := c.now + ms)
    case Fire(t, random) => Fired(c, t, random)
    case Receive(r) => Received(c, r)
  }

  // ----- what every run keeps -----

  ghost predicate Alternating(reports: seq<Report>) {
    forall i :: 0 <= i < |reports| ==> reports[i] == if i % 2 == 0 then Up else Down
  }

  /** Every number of discovers per xid is within the limit, and the current one is the counter. */
  ghost predicate XidInv(c: Client) {
    && 1 <= c.xidUses <= XID_REUSE_MAX
    && c.discovers[c.draws] == c.xidUses
    && (forall d :: c.discovers[d] <= XID_REUSE_MAX)
    && (forall d :: d > c.draws ==> c.discovers[d] == 0)
  }

  /** While up, the address is the acknowledged one, and the timers lead to the end of its lease. */
  ghost predicate LeaseInv(c: Client, slack: nat) {
    && (IsUp(c.state) ==> c.addr == c.ackAddr)
    && (c.state.Finished? ==> Renew in c.timers && c.timers[Renew] == c.ackAt + RenewTimeout(c.lease))
    && (c.state.Renewing? ==> Lease in c.timers && c.timers[Lease] <= c.ackAt + 1000 * c.lease + slack)
  }

  ghost predicate Inv(c: Client, slack: nat) {
    && c.timers.Keys == TimersOf(c.state)
    && (forall t :: t in c.timers ==> c.now <= c.timers[t] + slack)
    && (c.state.SentRequest? ==> 1 <= c.requestCount <= MAX_REQUESTS)
    && Alternating(c.reports) && (IsUp(c.state) <==> |c.reports| % 2 == 1)
    && XidInv(c) && LeaseInv(c, slack)
  }

  lemma StartKeepsXid(c: Client, force: bool, random: nat)
    requires XidInv(c) || (force && c.discovers == multiset{})
    ensures XidInv(StartProcess(c, force, random))
  {
    var r := StartProcess(c, force, random);
    forall d ensures r.discovers[d] == c.discovers[d] + if d == r.draws then 1 else 0 { }
  }

  lemma StartedInv(now: int, random: nat, slack: nat)
    ensures Inv(Started(now, random), slack)
  {
    StartKeepsXid(Client(Resetting, now, map[], 0, 0, 0, 0, 0, 0, [], 0, 0, 0, multiset{}), true, random);
  }

  /** Starting over from a state whose timers have been stopped, with the report that it went down if it was up. */
  lemma StartKeepsInv(c: Client, force: bool, random: nat, slack: nat, down: bool)
    requires XidInv(c) && c.timers == map[] && Alternating(c.reports) && (down <==> |c.reports| % 2 == 1)
    ensures var r := StartProcess(c, force, random);
            Inv(if down then r.(reports := r.reports + [Down]) else r, slack)
  {
    StartKeepsXid(c, force, random);
    var r := StartProcess(c, force, random);
    assert XidInv(r) ==> XidInv(r.(reports := r.reports + [Down]));
    hide XidInv;
  }

  lemma FireKeepsInv(c: Client, t: Timer, random: nat, slack: nat)
    requires Inv(c, slack) && Enabled(c, Fire(t, random), slack)
    ensures Inv(Fired(c, t, random), slack)
  {
    var d := c.(timers := c.timers - {t});
    assert t in TimersOf(c.state);
    SameXids(c, d);
    match t
    case Reset =>
      assert d.timers == map[];
      StartKeepsInv(d, c.state.Resetting?, random, slack, false);
    case Request =>
      assert d.timers == map[];
      if c.requestCount == MAX_REQUESTS { StartKeepsInv(d, false, random, slack, false); }
      SameXids(c, Fired(c, t, random));
    case Renew =>
      SameXids(c, Fired(c, t, random));
      hide XidInv, Alternating;
    case RenewRequest =>
      SameXids(c, Fired(c, t, random));
      hide XidInv, Alternating;
    case Lease =>
      var e := d.(timers := d.timers - {RenewRequest});
      assert e.timers == map[];
      SameXids(c, e);
      StartKeepsInv(e, true, random, slack, true);
  }

  lemma ReceiveKeepsInv(c: Client, r: Reply, slack: nat)
    requires Inv(c, slack)
    ensures Inv(Received(c, r), slack)
  {
    hide XidInv;
    assert XidInv(c) ==> XidInv(Received(c, r)) by { SameXids(c, Received(c, r)); }
  }

  lemma SameXids(c: Client, d: Client)
    ensures c.xidUses == d.xidUses && c.draws == d.draws && c.discovers == d.discovers && XidInv(c) ==> XidInv(d)
  {
  }

  lemma StepKeepsInv(c: Client, ev: Event, slack: nat)
    requires Inv(c, slack) && Enabled(c, ev, slack)
    ensures Inv(Step(c, ev), slack)
  {
    match ev
    case Wait(ms) => SameXids(c, Step(c, ev));
    case Fire(t, random) => FireKeepsInv(c, t, random, slack);
    case Receive(r) => ReceiveKeepsInv(c, r, slack);
  }

  ghost predicate LegalRun(c: Client, evs: seq<Event>, slack: nat)
    decreases |evs|
  {
    evs != [] ==> Enabled(c, evs[0], slack) && LegalRun(Step(c, evs[0]), evs[1..], slack)
  }

  function Run(c: Client, evs: seq<Event>): Client
    decreases |evs|
  {
    if evs == [] then c else Run(Step(c, evs[0]), evs[1..])
  }

  lemma {:induction false} RunKeepsInv(c: Client, evs: seq<Event>, slack: nat)
    requires Inv(c, slack) && LegalRun(c, evs, slack)
    ensures Inv(Run(c, evs), slack)
    decreases |evs|
  {
    if evs != [] {
      StepKeepsInv(c, evs[0], slack);
      RunKeepsInv(Step(c, evs[0]), evs[1..], slack);
    }
  }

  /**
   * From its start on, whatever the server and the timers do: up and down reports alternate, up exactly while
   * an address is held; that address is the one last acknowledged, and it is given up when the lease of
   * that acknowledgement has run out, but for how late the two timers in between fired.
   */
  lemma AddressIsLeased(now: int, random: nat, evs: seq<Event>, slack: nat)
    requires LegalRun(Started(now, random), evs, slack)
    ensures var c := Run(Started(now, random), evs);
            && Alternating(c.reports)
            && (IsUp(c.state) <==> |c.reports| > 0 && c.reports[|c.reports| - 1] == Up)
            && (IsUp(c.state) ==> c.addr == c.ackAddr && c.now <= c.ackAt + 1000 * c.lease + 2 * slack)
  {
    StartedInv(now, random, slack);
    RunKeepsInv(Started(now, random), evs, slack);
    var c := Run(Started(now, random), evs);
    if c.state.Finished? { assert c.now <= c.timers[Renew] + slack; }
    if c.state.Renewing? { assert c.now <= c.timers[Lease] + slack; }
  }

  /** One xid serves at most eight discovers, and some timer always runs, so the client is never stuck. */
  lemma XidsAndTimers(now: int, random: nat, evs: seq<Event>, slack: nat)
    requires LegalRun(Started(now, random), evs, slack)
    ensures var c := Run(Started(now, random), evs);
            && (forall d :: c.discovers[d] <= XID_REUSE_MAX)
            && c.timers.Keys == TimersOf(c.state) && c.timers.Keys != {}
  {
    StartedInv(now, random, slack);
    RunKeepsInv(Started(now, random), evs, slack);
  }

  /** A reply to this client's exchange from the server that gave the address. */
  predicate FromServer(c: Client, r: Reply) {
    r.xid == c.xid && r.server == Some(c.server)
  }

  /**
   * What replies do to a client that holds an address: a refusal from its server takes it away; while
   * renewing, a whole acknowledgement of the same address from its server starts the lease over; every other
   * reply, and only those, changes nothing.
   */
  lemma RepliesWhileUp(c: Client, r: Reply, slack: nat)
    requires Inv(c, slack) && IsUp(c.state)
    ensures var d := Received(c, r);
            var renews := c.state.Renewing? && r.kind.Ack? && FromServer(c, r) &&
                          r.addr == c.ackAddr != 0 && r.lease.Some? && r.mask.Some?;
            var refuses := r.kind.Nak? && FromServer(c, r);
            && (d != c <==> renews || refuses)
            && (refuses ==> d.state.Resetting? && d.reports == c.reports + [Down])
            && (renews ==> d.state.Finished? && d.ackAt == c.now && Some(d.lease) == r.lease && d.reports == c.reports)
  {
  }
}
