/** How an address is got: the bytes of a server's replies, and the exchange in which it offers and grants one. */
module DhcpExchange {
  import opened Bytes
  import opened Options
  import opened DhcpMessage
  import opened Spec = DhcpSpec

  // ----- the bytes of a reply -----

  /** Network byte order. */
  function Word(x: nat): seq<Byte>
    requires x < 0x1_0000_0000
  {
    [x / 0x100_0000, x / 0x1_0000 % 0x100, x / 0x100 % 0x100, x % 0x100]
  }

  lemma WordReads(x: nat)
    requires x < 0x1_0000_0000
    ensures Be32(Word(x)) == x
  {
    assert x / 0x1_0000 == x / 0x100_0000 * 0x100 + x / 0x1_0000 % 0x100;
    assert x / 0x100 == x / 0x1_0000 * 0x100 + x / 0x100 % 0x100;
  }

  /** The value of the DHCP message type option. */
  function MessageType(kind: Spec.Kind): Byte {
    match kind
    case Offer => 2
    case Ack => 5
    case Nak => 6
  }

  /** The header fields of a reply to this client (section 2 of RFC 2131); the other fields may hold anything. */
  ghost predicate ReplyHeader(s: seq<Byte>, mac: seq<Byte>, xid: nat, addr: nat) {
    && |s| >= 240 && |mac| == 6 && xid < 0x1_0000_0000 && addr < 0x1_0000_0000
    && s[0] == 2 && s[1] == 1 && s[2] == 6
    && s[4..8] == Word(xid) && s[16..20] == Word(addr) && s[28..34] == mac
    && s[236] == 99 && s[237] == 130 && s[238] == 83 && s[239] == 99
  }

  /**
   * The reply a server writes is the one the client reads: with the fields where they belong in the header, and
   * message type, server identifier, lease time and subnet mask in the options.
   */
  lemma BuiltReplyReads(s: seq<Byte>, mac: seq<Byte>, kind: Spec.Kind, xid: nat, server: nat, addr: nat, lease: nat,
                        mask: nat, pads: nat)
    requires server < 0x1_0000_0000 && lease < 0x1_0000_0000 && mask < 0x1_0000_0000
    requires ReplyHeader(s, mac, xid, addr)
    requires s[240..] ==
             ([53, 1] + [MessageType(kind)]) + (([54, 4] + Word(server)) + (([51, 4] + Word(lease))
             + (([1, 4] + Word(mask)) + ([255] + seq(pads, _ => 0)))))
    ensures ReplyIn(s, mac) == Some(Reply(kind, xid, Some(server), addr, Some(lease), Some(mask)))
  {
    var cells := [Carries(Opt(53, [MessageType(kind)])), Carries(Opt(54, Word(server))), Carries(Opt(51, Word(lease))),
                  Carries(Opt(1, Word(mask)))];
    LayoutParses(cells, pads, NothingYet);
    FourCells(cells[0].o, cells[1].o, cells[2].o, cells[3].o, pads);
    assert cells == [Carries(cells[0].o), Carries(cells[1].o), Carries(cells[2].o), Carries(cells[3].o)];
    WordReads(xid);
    WordReads(addr);
    WordReads(server);
    WordReads(lease);
    WordReads(mask);
    FourTaken(cells);
    assert s[236..240] == [0x63, 0x82, 0x53, 0x63];
    hide *;
    Reads(s, mac, kind, Parse(s[240..], false, NothingYet).value);
  }

  lemma Reads(s: seq<Byte>, mac: seq<Byte>, kind: Spec.Kind, p: Parsed)
    requires |s| >= 240 && |mac| == 6 && s[0] == 2 && s[1] == 1 && s[2] == 6 && s[28..34] == mac
    requires s[236..240] == [0x63, 0x82, 0x53, 0x63] && Parse(s[240..], false, NothingYet) == Some(p)
    requires p.message == Some(MessageType(kind))
    ensures ReplyIn(s, mac) == Some(Reply(kind, Be32(s[4..8]), p.server, Be32(s[16..20]), p.lease, p.mask))
  {
    hide Parse, Be32;
  }

  lemma FourCells(a: Opt, b: Opt, c: Opt, d: Opt, pads: nat)
    requires CellOk(Carries(a)) && CellOk(Carries(b)) && CellOk(Carries(c)) && CellOk(Carries(d))
    ensures Layout([Carries(a), Carries(b), Carries(c), Carries(d)], pads) ==
            ([a.kind, |a.val|] + a.val) + (([b.kind, |b.val|] + b.val) + (([c.kind, |c.val|] + c.val)
            + (([d.kind, |d.val|] + d.val) + ([255] + seq(pads, _ => 0)))))
  {
    LayoutHead(a, [Carries(b), Carries(c), Carries(d)], pads);
    LayoutHead(b, [Carries(c), Carries(d)], pads);
    LayoutHead(c, [Carries(d)], pads);
    LayoutHead(d, [], pads);
    assert [Carries(a)] + [Carries(b), Carries(c), Carries(d)] == [Carries(a), Carries(b), Carries(c), Carries(d)];
    assert [Carries(b)] + [Carries(c), Carries(d)] == [Carries(b), Carries(c), Carries(d)];
    assert [Carries(c)] + [Carries(d)] == [Carries(c), Carries(d)];
    assert [Carries(d)] + [] == [Carries(d)];
    hide Layout;
  }

  lemma LayoutHead(o: Opt, rest: seq<Cell>, pads: nat)
    requires CellOk(Carries(o)) && forall c :: c in rest ==> CellOk(c)
    ensures Layout([Carries(o)] + rest, pads) == ([o.kind, |o.val|] + o.val) + Layout(rest, pads)
  {
    assert ([Carries(o)] + rest)[1..] == rest;
  }

  lemma FourTaken(cells: seq<Cell>)
    requires |cells| == 4 && forall c :: c in cells ==> c.Carries?
    requires cells[0].o.kind == 53 && |cells[0].o.val| == 1
    requires cells[1].o.kind == 54 && |cells[1].o.val| == 4
    requires cells[2].o.kind == 51 && |cells[2].o.val| == 4
    requires cells[3].o.kind == 1 && |cells[3].o.val| == 4
    ensures TakeAll(NothingYet, cells) ==
            Some(Parsed(Some(cells[0].o.val[0]), Some(Be32(cells[1].o.val)), Some(Be32(cells[2].o.val)),
                        Some(Be32(cells[3].o.val)), None, []))
  {
    hide Be32;
    assert cells[1..][1..] == cells[2..] && cells[2..][1..] == cells[3..] && cells[3..][1..] == [];
    var p0 := NothingYet;
    var p1 := p0.(message := Some(cells[0].o.val[0]));
    var p2 := p1.(server := Some(Be32(cells[1].o.val)));
    var p3 := p2.(lease := Some(Be32(cells[2].o.val)));
    var p4 := p3.(mask := Some(Be32(cells[3].o.val)));
    assert TakeAll(p3, cells[3..]) == TakeAll(p4, []);
    assert TakeAll(p2, cells[2..]) == TakeAll(p3, cells[3..]);
    assert TakeAll(p1, cells[1..]) == TakeAll(p2, cells[2..]);
  }

  /** The value of the last option of this type. */
  function LastOf(cells: seq<Cell>, kind: nat): Option<seq<Byte>> {
    if cells == [] then None
    else
      var n := |cells| - 1;
      if cells[n].Carries? && cells[n].o.kind == kind then Some(cells[n].o.val) else LastOf(cells[..n], kind)
  }

  /** The options the client reads have the lengths they must have. */
  ghost predicate Measured(cells: seq<Cell>) {
    forall i :: 0 <= i < |cells| && cells[i].Carries? ==>
      var (kind, len) := (cells[i].o.kind, |cells[i].o.val|);
      && (kind == 53 ==> len == 1) && (kind in {54, 51, 1, 3} ==> len == 4) && (kind == 6 ==> len % 4 == 0)
  }

  function WordOf(val: Option<seq<Byte>>): Option<nat>
    requires val.Some? ==> |val.value| == 4
  {
    if val.None? then None else Some(Be32(val.value))
  }

  lemma {:induction false} TakeAllSnoc(p: Parsed, cells: seq<Cell>, c: Cell)
    ensures var q := TakeAll(p, cells);
            TakeAll(p, cells + [c]) ==
              if q.None? then None else if c.Pad? then q else Take(q.value, c.o)
    decreases |cells|
  {
    hide Take;
    if cells == [] {
      assert (cells + [c])[1..] == [];
    } else {
      assert (cells + [c])[1..] == cells[1..] + [c];
      if cells[0].Pad? {
        TakeAllSnoc(p, cells[1..], c);
      } else if Take(p, cells[0].o).Some? {
        TakeAllSnoc(Take(p, cells[0].o).value, cells[1..], c);
      }
    }
  }

  /**
   * Whatever options a reply carries and in whatever order: it is dropped exactly if one the client reads has the
   * wrong length, and of those of one type the last counts.
   */
  lemma {:induction false} LastOptionCounts(cells: seq<Cell>)
    ensures TakeAll(NothingYet, cells).Some? <==> Measured(cells)
    ensures Measured(cells) ==>
              var (p, kind) := (TakeAll(NothingYet, cells).value, LastOf(cells, 53));
              && p.message == (if kind.Some? && |kind.value| == 1 then Some(kind.value[0] as nat) else None)
              && (forall k :: k in {54, 51, 1, 3} ==> LastOf(cells, k).Some? ==> |LastOf(cells, k).value| == 4)
              && p.server == WordOf(LastOf(cells, 54)) && p.lease == WordOf(LastOf(cells, 51))
              && p.mask == WordOf(LastOf(cells, 1)) && p.router == WordOf(LastOf(cells, 3))
    decreases |cells|
  {
    if cells != [] {
      var n := |cells| - 1;
      LastOptionCounts(cells[..n]);
      TakeAllSnoc(NothingYet, cells[..n], cells[n]);
      assert cells == cells[..n] + [cells[n]];
    }
  }

  // ----- the exchange -----

  /** A whole reply of this kind to the client's exchange: an address, a server, a lease and a mask. */
  predicate Whole(c: Client, r: Reply, kind: Spec.Kind) {
    r.kind == kind && r.xid == c.xid && r.server.Some? && r.addr != 0 && r.lease.Some? && r.mask.Some?
  }

  /**
   * What replies do to a client without an address. Before it has an offer it takes up the first whole one, asks
   * for the address and waits for REQUEST_TIMEOUT; then it comes up on the whole acknowledgement of that address
   * by that server, to renew after half the lease, and gives up on a refusal by it. All else changes nothing.
   */
  lemma RepliesWhileDown(c: Client, r: Reply, slack: nat)
    requires Inv(c, slack) && !IsUp(c.state)
    ensures var d := Received(c, r);
            var takes := c.state.SentDiscover? && Whole(c, r, Offer);
            var grants := c.state.SentRequest? && Whole(c, r, Ack) && FromServer(c, r) && r.addr == c.addr;
            var refuses := c.state.SentRequest? && r.kind.Nak? && FromServer(c, r);
            && (d != c <==> takes || grants || refuses)
            && (takes ==>
                  && d.state.SentRequest? && d.addr == r.addr && Some(d.server) == r.server && d.xid == c.xid
                  && d.requestCount == 1 && d.timers == map[Request := c.now + 3000] && d.reports == c.reports)
            && (grants ==>
                  && d.state.Finished? && d.reports == c.reports + [Up] && d.addr == d.ackAddr == r.addr
                  && Some(d.lease) == r.lease && d.ackAt == c.now && d.timers == map[Renew := c.now + 500 * d.lease])
            && (refuses ==>
                  && d.state.Resetting? && d.reports == c.reports && d.timers == map[Reset := c.now + 4000])
  {
  }

  lemma RunTwo(c: Client, e: Event, evs: seq<Event>, slack: nat)
    ensures Run(c, [e] + evs) == Run(Step(c, e), evs)
    ensures LegalRun(c, [e] + evs, slack) <==> Enabled(c, e, slack) && LegalRun(Step(c, e), evs, slack)
  {
    assert ([e] + evs)[1..] == evs;
  }

  /** A whole offer, and a whole acknowledgement of it in time, bring the address up. */
  lemma OfferAndAckBringUp(c: Client, slack: nat, offer: Reply, wait: nat, ack: Reply)
    requires Inv(c, slack) && c.state.SentDiscover? && Whole(c, offer, Offer)
    requires wait <= 3000 + slack && Whole(c, ack, Ack) && ack.addr == offer.addr && ack.server == offer.server
    ensures var evs := [Receive(offer)] + ([Wait(wait)] + ([Receive(ack)] + []));
            && LegalRun(c, evs, slack)
            && var d := Run(c, evs);
            && d.state.Finished? && d.reports == c.reports + [Up] && d.addr == d.ackAddr == offer.addr
            && d.ackAt == c.now + wait && d.timers == map[Renew := c.now + wait + 500 * d.lease]
  {
    var asked := Received(c, offer);
    var later := asked.(now := asked.now + wait);
    RepliesWhileDown(c, offer, slack);
    ReceiveKeepsInv(c, offer, slack);
    StepKeepsInv(asked, Wait(wait), slack);
    RepliesWhileDown(later, ack, slack);
    assert Enabled(asked, Wait(wait), slack);
    assert Step(asked, Wait(wait)) == later;
    hide Inv, Received, Enabled;
    RunTwo(c, Receive(offer), [Wait(wait)] + ([Receive(ack)] + []), slack);
    RunTwo(asked, Wait(wait), [Receive(ack)] + [], slack);
    RunTwo(later, Receive(ack), [], slack);
    assert Enabled(c, Receive(offer), slack) && Enabled(later, Receive(ack), slack);
  }

  /** The request timer runs out n times, on time, with nothing received in between. */
  function Silence(randoms: seq<nat>): seq<Event> {
    if randoms == [] then [] else [Wait(3000)] + ([Fire(Request, randoms[0])] + Silence(randoms[1..]))
  }

  /**
   * A server that does not answer is asked MAX_REQUESTS times in all: each time the request timer runs out, until
   * it does so for the last one; then the client starts over with a discover.
   */
  lemma {:induction false} AsksThenGivesUp(c: Client, randoms: seq<nat>, slack: nat)
    requires Inv(c, slack) && c.state.SentRequest? && c.timers == map[Request := c.now + 3000]
    requires |randoms| <= 5 - c.requestCount
    ensures LegalRun(c, Silence(randoms), slack)
    ensures var d := Run(c, Silence(randoms));
            && d.now == c.now + 3000 * |randoms| && d.reports == c.reports
            && if c.requestCount + |randoms| <= 4 then
                 && d.state.SentRequest? && d.requestCount == c.requestCount + |randoms| && d.xid == c.xid
                 && d.addr == c.addr && d.server == c.server && d.timers == map[Request := d.now + 3000]
               else d.state.SentDiscover? && d.timers == map[Reset := d.now + 4000]
    decreases |randoms|
  {
    if randoms != [] {
      var later := c.(now := c.now + 3000);
      var next := Fired(later, Request, randoms[0]);
      SilentStep(c, randoms[0], slack);
      RunTwo(c, Wait(3000), [Fire(Request, randoms[0])] + Silence(randoms[1..]), slack);
      RunTwo(later, Fire(Request, randoms[0]), Silence(randoms[1..]), slack);
      hide Inv, Fired;
      if c.requestCount < 4 { AsksThenGivesUp(next, randoms[1..], slack); }
    }
  }

  lemma SilentStep(c: Client, random: nat, slack: nat)
    requires Inv(c, slack) && c.state.SentRequest? && c.timers == map[Request := c.now + 3000]
    ensures var (later, fire) := (c.(now := c.now + 3000), Fire(Request, random));
            && Enabled(c, Wait(3000), slack) && Step(c, Wait(3000)) == later && Inv(later, slack)
            && Enabled(later, fire, slack) && Step(later, fire) == Fired(later, Request, random)
            && var next := Fired(later, Request, random);
            && Inv(next, slack) && next.now == later.now && next.reports == c.reports
            && (if c.requestCount < 4 then
                  next == later.(requestCount := c.requestCount + 1, timers := map[Request := later.now + 3000])
                else next.state.SentDiscover? && next.timers == map[Reset := later.now + 4000])
  {
    var later := c.(now := c.now + 3000);
    StepKeepsInv(c, Wait(3000), slack);
    StepKeepsInv(later, Fire(Request, random), slack);
    hide XidInv, Alternating, LeaseInv;
  }

  /**
   * What the timers do to a client without an address: after a reset it draws a new xid, an unanswered discover is
   * sent again with the old one, unless that served eight, and an unanswered request as AsksThenGivesUp says.
   */
  lemma TimersWhileDown(c: Client, t: Timer, random: nat, slack: nat)
    requires Inv(c, slack) && !IsUp(c.state) && Enabled(c, Fire(t, random), slack)
    ensures t == if c.state.SentRequest? then Request else Reset
    ensures var d := Fired(c, t, random);
            && d.now == c.now && d.reports == c.reports
            && (c.state.SentRequest? && c.requestCount < 4 ==>
                  d == c.(requestCount := c.requestCount + 1, timers := map[Request := c.now + 3000]))
            && (!c.state.SentRequest? || c.requestCount == 4 ==>
                  && d.state.SentDiscover? && d.timers == map[Reset := c.now + 4000]
                  && if c.state.Resetting? || c.xidUses == 8 then d.xid == random && d.xidUses == 1
                     else d.xid == c.xid && d.xidUses == c.xidUses + 1)
  {
    assert t in TimersOf(c.state);
    hide Alternating, LeaseInv;
  }

  /**
   * What the timers do to a client with an address: half the lease after its acknowledgement it begins to renew,
   * asking every RENEW_REQUEST_TIMEOUT, and when the other half is over it is down and starts over.
   */
  lemma TimersWhileUp(c: Client, t: Timer, random: nat, slack: nat)
    requires Inv(c, slack) && IsUp(c.state) && Enabled(c, Fire(t, random), slack)
    ensures c.state.Finished? ==> t == Renew && c.now >= c.ackAt + 500 * c.lease
    ensures var d := Fired(c, t, random);
            && d.now == c.now
            && (t == Renew ==>
                  && d.state.Renewing? && d.reports == c.reports && d.addr == c.addr && d.xid == c.xid
                  && d.timers == map[RenewRequest := c.now + 20000, Lease := c.now + 500 * c.lease])
            && (t == RenewRequest ==> d == c.(timers := c.timers[RenewRequest := c.now + 20000]))
            && (t == Lease ==>
                  && d.state.SentDiscover? && d.reports == c.reports + [Down] && d.xid == random
                  && d.timers == map[Reset := c.now + 4000])
  {
    assert t in TimersOf(c.state);
    hide XidInv, Alternating;
  }
}
