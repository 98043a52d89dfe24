/**
 * Data flows and the sinks they are attached to. A flow's buffer may be in the middle of a send when the
 * flow is detached, attached elsewhere or freed; the buffer then stays with its sink until the send ends.
 */
module DataPlaneSpec {
  import opened Options

  /** A flow of the local device to a peer, or one relayed from one peer to another. */
  datatype FlowId = Local(peer: nat) | Relayed(src: nat, dst: nat)

  /** b->flow (None once the flow was freed) and b->sink. */
  datatype Buffer = Buffer(flow: Option<FlowId>, sink: Option<nat>)

  /** sink_desired and the flow's buffer. */
  datatype Flow = Flow(desired: Option<nat>, buffer: nat)

  /** The buffer the sink's queue is sending (None when idle or sending its own keep-alive), and detaching_buffer. */
  datatype Sink = Sink(busy: Option<nat>, detaching: Option<nat>)

  datatype Plane = Plane(flows: map<FlowId, Flow>, buffers: map<nat, Buffer>, sinks: map<nat, Sink>)

  const NoPlane := Plane(map[], map[], map[])

  /** Where a buffer should be: with its flow's desired sink, or nowhere if the flow is gone. */
  function Target(p: Plane, b: nat): Option<nat>
    requires b in p.buffers
  {
    var f := p.buffers[b].flow;
    if f.Some? && f.value in p.flows then p.flows[f.value].desired else None
  }

  /** The buffer is being held by its sink for the rest of a send. */
  predicate Held(p: Plane, b: nat)
    requires b in p.buffers
  {
    var s := p.buffers[b].sink;
    s.Some? && s.value in p.sinks && p.sinks[s.value].detaching == Some(b) && p.sinks[s.value].busy == Some(b)
  }

  ghost predicate Inv(p: Plane) {
    && (forall f :: f in p.flows ==> p.flows[f].buffer in p.buffers && p.buffers[p.flows[f].buffer].flow == Some(f))
    && (forall f :: f in p.flows && p.flows[f].desired.Some? ==> p.flows[f].desired.value in p.sinks)
    && (forall b :: b in p.buffers ==> BufferInv(p, b))
    && (forall s :: s in p.sinks ==> SinkInv(p, s))
  }

  ghost predicate BufferInv(p: Plane, b: nat)
    requires b in p.buffers
  {
    var x := p.buffers[b];
    && (x.flow.Some? ==> x.flow.value in p.flows && p.flows[x.flow.value].buffer == b)
    && (x.sink.Some? ==> x.sink.value in p.sinks)
    && (x.sink != Target(p, b) ==> Held(p, b))
    && (x.flow.None? ==> Held(p, b))
  }

  ghost predicate SinkInv(p: Plane, s: nat)
    requires s in p.sinks
  {
    && (p.sinks[s].busy.Some? ==>
         p.sinks[s].busy.value in p.buffers && p.buffers[p.sinks[s].busy.value].sink == Some(s))
    && (p.sinks[s].detaching.Some? ==> p.sinks[s].busy == p.sinks[s].detaching)
  }

  datatype Event =
    | NewSink(sink: nat) | FreeSink(sink: nat)
    | NewFlow(flow: FlowId, buffer: nat) | FreeFlow(flow: FlowId)
    | Attach(flow: FlowId, sink: nat) | Detach(flow: FlowId)
    | StartSend(sink: nat, buffer: nat) | EndSend(sink: nat)

  /** What the assertions demand, and what a queue can do: send a buffer connected to it when it is not sending. */
  predicate Enabled(p: Plane, e: Event) {
    match e
    case NewSink(s) => s !in p.sinks
    case FreeSink(s) => s in p.sinks && forall f :: f in p.flows ==> p.flows[f].desired != Some(s)
    case NewFlow(f, b) => f !in p.flows && b !in p.buffers
    case FreeFlow(f) => f in p.flows && p.flows[f].desired.None?
    case Attach(f, s) => f in p.flows && p.flows[f].desired.None? && s in p.sinks
    case Detach(f) => f in p.flows && p.flows[f].desired.Some?
    case StartSend(s, b) => s in p.sinks && p.sinks[s].busy.None? && b in p.buffers && p.buffers[b].sink == Some(s)
    case EndSend(s) => s in p.sinks && p.sinks[s].busy.Some?
  }

  // ----- what the events mean: only desires, sends and holds; the place of a buffer follows from them -----

  function Desire(p: Plane, f: FlowId, s: Option<nat>): Plane
    requires f in p.flows
  {
    p.(flows := p.flows[f := p.flows[f].(desired := s)])
  }

  predicate IsBusy(p: Plane, b: nat)
    requires b in p.buffers
  {
    var s := p.buffers[b].sink;
    s.Some? && s.value in p.sinks && p.sinks[s.value].busy == Some(b)
  }

  /** Keeps a buffer with its sink until the send in progress ends. */
  function Hold(p: Plane, b: nat): Plane
    requires b in p.buffers && IsBusy(p, b)
  {
    var s := p.buffers[b].sink.value;
    p.(sinks := p.sinks[s := p.sinks[s].(detaching := Some(b))])
  }

  /** Puts a buffer that is not being sent where it belongs; one whose flow is gone is freed. */
  function Settle(p: Plane, b: nat): Plane
    requires b in p.buffers
  {
    if p.buffers[b].flow.None? then p.(buffers := p.buffers - {b})
    else p.(buffers := p.buffers[b := p.buffers[b].(sink := Target(p, b))])
  }

  /** The flow's wish or existence has changed: hold its buffer if it is being sent, else settle it at once. */
  function Move(p: Plane, b: nat): Plane
    requires b in p.buffers
  {
    if IsBusy(p, b) then Hold(p, b) else Settle(p, b)
  }

  /** A send is over: the sink is idle, and a buffer it held settles. */
  function Release(p: Plane, s: nat): Plane
    requires s in p.sinks
  {
    var q := p.(sinks := p.sinks[s := Sink(None, None)]);
    var b := p.sinks[s].detaching;
    if b.Some? && b.value in q.buffers then Settle(q, b.value) else q
  }

  function Forget(p: Plane, f: FlowId): Plane
    requires f in p.flows && p.flows[f].buffer in p.buffers
  {
    var b := p.flows[f].buffer;
    p.(flows := p.flows - {f}, buffers := p.buffers[b := p.buffers[b].(flow := None)])
  }

  function Step(p: Plane, e: Event): Plane
    requires Inv(p) && Enabled(p, e)
  {
    match e
    case NewSink(s) => p.(sinks := p.sinks[s := Sink(None, None)])
    case FreeSink(s) => var q := Release(p, s); q.(sinks := q.sinks - {s})
    case NewFlow(f, b) => p.(flows := p.flows[f := Flow(None, b)], buffers := p.buffers[b := Buffer(Some(f), None)])
    case FreeFlow(f) => Move(Forget(p, f), p.flows[f].buffer)
    case Attach(f, s) => Move(Desire(p, f, Some(s)), p.flows[f].buffer)
    case Detach(f) => Move(Desire(p, f, None), p.flows[f].buffer)
    case StartSend(s, b) => p.(sinks := p.sinks[s := p.sinks[s].(busy := Some(b))])
    case EndSend(s) => Release(p, s)
  }

  /** Only buffer b may be out of place. */
  ghost predicate InvBut(p: Plane, b: nat) {
    && b in p.buffers
    && (forall f :: f in p.flows ==> p.flows[f].buffer in p.buffers && p.buffers[p.flows[f].buffer].flow == Some(f))
    && (forall f :: f in p.flows && p.flows[f].desired.Some? ==> p.flows[f].desired.value in p.sinks)
    && (forall c :: c in p.buffers && c != b ==> BufferInv(p, c))
    && (forall s :: s in p.sinks ==> SinkInv(p, s))
    && (p.buffers[b].flow.Some? ==> p.buffers[b].flow.value in p.flows && p.flows[p.buffers[b].flow.value].buffer == b)
    && (p.buffers[b].sink.Some? ==> p.buffers[b].sink.value in p.sinks)
  }

  lemma HoldRestores(p: Plane, b: nat)
    requires InvBut(p, b) && IsBusy(p, b)
    ensures Inv(Hold(p, b))
  {
    var q := Hold(p, b);
    forall c | c in q.buffers ensures BufferInv(q, c) {
      if c != b { assert BufferInv(p, c); }
    }
    forall s | s in q.sinks ensures SinkInv(q, s) { assert SinkInv(p, s); }
  }

  lemma SettleRestores(p: Plane, b: nat)
    requires InvBut(p, b) && !IsBusy(p, b)
    ensures Inv(Settle(p, b))
  {
    var q := Settle(p, b);
    forall c | c in q.buffers ensures BufferInv(q, c) {
      if c != b { assert BufferInv(p, c); }
    }
    forall s | s in q.sinks ensures SinkInv(q, s) { assert SinkInv(p, s); }
  }

  lemma MoveRestores(p: Plane, b: nat)
    requires InvBut(p, b)
    ensures Inv(Move(p, b))
  {
    if IsBusy(p, b) { HoldRestores(p, b); } else { SettleRestores(p, b); }
  }

  lemma DesireLeaves(p: Plane, f: FlowId, s: Option<nat>)
    requires Inv(p) && f in p.flows && (s.Some? ==> s.value in p.sinks)
    ensures InvBut(Desire(p, f, s), p.flows[f].buffer)
  {
    var q, b := Desire(p, f, s), p.flows[f].buffer;
    assert BufferInv(p, b);
    forall c | c in q.buffers && c != b ensures BufferInv(q, c) { assert BufferInv(p, c); }
    forall t | t in q.sinks ensures SinkInv(q, t) { assert SinkInv(p, t); }
  }

  lemma ForgetLeaves(p: Plane, f: FlowId)
    requires Inv(p) && f in p.flows
    ensures InvBut(Forget(p, f), p.flows[f].buffer)
  {
    var b := p.flows[f].buffer;
    var q := Forget(p, f);
    assert BufferInv(p, b);
    forall c | c in q.buffers && c != b ensures BufferInv(q, c) { assert BufferInv(p, c); }
    forall t | t in q.sinks ensures SinkInv(q, t) { assert SinkInv(p, t); }
  }

  lemma ReleaseKeeps(p: Plane, s: nat)
    requires Inv(p) && s in p.sinks
    ensures Inv(Release(p, s)) && Release(p, s).sinks == p.sinks[s := Sink(None, None)]
    ensures Release(p, s).flows == p.flows
  {
    var q := p.(sinks := p.sinks[s := Sink(None, None)]);
    assert SinkInv(p, s);
    forall t | t in q.sinks ensures SinkInv(q, t) { assert SinkInv(p, t); }
    var d := p.sinks[s].detaching;
    if d.Some? {
      assert BufferInv(p, d.value);
      forall c | c in q.buffers && c != d.value ensures BufferInv(q, c) { assert BufferInv(p, c); }
      SettleRestores(q, d.value);
    } else {
      forall c | c in q.buffers ensures BufferInv(q, c) { assert BufferInv(p, c); }
    }
  }

  /** A sink nobody desires holds no buffer once its send is over, so it can go. */
  lemma SinkGone(p: Plane, s: nat)
    requires Inv(p) && Enabled(p, FreeSink(s))
    ensures var r := Release(p, s);
            && (forall b :: b in r.buffers ==> r.buffers[b].sink != Some(s) && Target(r, b) != Some(s))
            && Inv(r.(sinks := r.sinks - {s}))
  {
    ReleaseKeeps(p, s);
    var r := Release(p, s);
    forall b | b in r.buffers ensures r.buffers[b].sink != Some(s) && Target(r, b) != Some(s) {
      assert BufferInv(r, b);
    }
    var q := r.(sinks := r.sinks - {s});
    forall c | c in q.buffers ensures BufferInv(q, c) { assert BufferInv(r, c); }
    forall t | t in q.sinks ensures SinkInv(q, t) { assert SinkInv(r, t); }
  }

  lemma CreateKeeps(p: Plane, e: Event)
    requires Inv(p) && Enabled(p, e) && (e.NewSink? || e.NewFlow? || e.StartSend?)
    ensures Inv(Step(p, e))
  {
    var q := Step(p, e);
    forall c | c in q.buffers ensures BufferInv(q, c) { if c in p.buffers { assert BufferInv(p, c); } }
    forall t | t in q.sinks ensures SinkInv(q, t) { if t in p.sinks { assert SinkInv(p, t); } }
  }

  /**
   * Attach and detach are safe over all runs: whatever the flows ask for and whenever sends start and end,
   * a buffer that is not where its flow wants it, or whose flow is gone, is the detaching buffer and the
   * one being sent of the sink it is with.
   */
  lemma StepKeepsInv(p: Plane, e: Event)
    requires Inv(p) && Enabled(p, e)
    ensures Inv(Step(p, e))
  {
    hide InvBut, BufferInv, SinkInv, Move, Release;
    match e
    case NewSink(s) => CreateKeeps(p, e);
    case FreeSink(s) => SinkGone(p, s);
    case NewFlow(f, b) => CreateKeeps(p, e);
    case FreeFlow(f) => ForgetLeaves(p, f); MoveRestores(Forget(p, f), p.flows[f].buffer);
    case Attach(f, s) => DesireLeaves(p, f, Some(s)); MoveRestores(Desire(p, f, Some(s)), p.flows[f].buffer);
    case Detach(f) => DesireLeaves(p, f, None); MoveRestores(Desire(p, f, None), p.flows[f].buffer);
    case StartSend(s, b) => CreateKeeps(p, e);
    case EndSend(s) => ReleaseKeeps(p, s);
  }

  // ----- what the invariant is for -----

  /** When a send ends, its buffer is where its flow now wants it, or freed if the flow is gone. */
  lemma SendOverInPlace(p: Plane, s: nat)
    requires Inv(p) && Enabled(p, EndSend(s))
    ensures var q, b := Step(p, EndSend(s)), p.sinks[s].busy.value;
            && q.flows == p.flows && q.sinks[s] == Sink(None, None)
            && (if p.buffers[b].flow.None? then b !in q.buffers
                else b in q.buffers && q.buffers[b].sink == Target(p, b))
            && (forall c :: c in p.buffers && c != b ==> c in q.buffers && q.buffers[c] == p.buffers[c])
  {
    ReleaseKeeps(p, s);
    assert SinkInv(p, s) && BufferInv(p, p.sinks[s].busy.value);
    var d := p.sinks[s].detaching;
    var q := p.(sinks := p.sinks[s := Sink(None, None)]);
    if d.Some? { assert Target(q, d.value) == Target(p, d.value); }
  }

  /** After a sink is freed no buffer refers to it. */
  lemma FreedSinkForgotten(p: Plane, s: nat)
    requires Inv(p) && Enabled(p, FreeSink(s))
    ensures var q := Step(p, FreeSink(s));
            s !in q.sinks && forall b :: b in q.buffers ==> q.buffers[b].sink != Some(s)
  {
    SinkGone(p, s);
  }

  /** While nothing is being sent every flow's buffer is with the sink the flow desires, and no stray buffer is left. */
  lemma QuietMeansInPlace(p: Plane)
    requires Inv(p) && forall s :: s in p.sinks ==> p.sinks[s].busy.None?
    ensures forall f :: f in p.flows ==> p.buffers[p.flows[f].buffer].sink == p.flows[f].desired
    ensures forall b :: b in p.buffers ==> p.buffers[b].flow.Some?
  {
    forall b | b in p.buffers ensures p.buffers[b].flow.Some? && p.buffers[b].sink == Target(p, b) {
      assert BufferInv(p, b);
    }
  }

  /**
   * A flow that wants no sink, but whose buffer still has one, is in the middle of a send: nothing is ever moved
   * at once then.
   */
  lemma LeftoverIsBusy(p: Plane, f: FlowId)
    requires Inv(p) && f in p.flows && p.flows[f].desired.None? && p.buffers[p.flows[f].buffer].sink.Some?
    ensures IsBusy(p, p.flows[f].buffer) && Held(p, p.flows[f].buffer)
  {
    assert BufferInv(p, p.flows[f].buffer);
  }

  /** A flow that desires a sink has its buffer with some sink, as DataProtoFlow_Detach asserts. */
  lemma DesiringHasSink(p: Plane, f: FlowId)
    requires Inv(p) && f in p.flows && p.flows[f].desired.Some?
    ensures p.buffers[p.flows[f].buffer].sink.Some?
  {
    assert BufferInv(p, p.flows[f].buffer);
  }

  ghost predicate Allowed(p: Plane, evs: seq<Event>)
    requires Inv(p)
    decreases |evs|
  {
    evs == [] || (Enabled(p, evs[0]) && (StepKeepsInv(p, evs[0]); Allowed(Step(p, evs[0]), evs[1..])))
  }

  ghost function After(p: Plane, evs: seq<Event>): (q: Plane)
    requires Inv(p) && Allowed(p, evs)
    ensures Inv(q)
    decreases |evs|
  {
    if evs == [] then p
    else
      StepKeepsInv(p, evs[0]);
      After(Step(p, evs[0]), evs[1..])
  }

  /** The last wish of flow f in a run: the sink it was attached to and not detached from since. */
  ghost function LastWish(evs: seq<Event>, f: FlowId, before: Option<nat>): Option<nat> {
    if evs == [] then before
    else
      var e := evs[0];
      LastWish(evs[1..], f, if e.Attach? && e.flow == f then Some(e.sink) else if e.Detach? && e.flow == f
        then None else before)
  }

  lemma {:induction false} WishesAreKept(p: Plane, evs: seq<Event>, f: FlowId)
    requires Inv(p) && Allowed(p, evs) && f in p.flows
    requires forall e :: e in evs && e.FreeFlow? ==> e.flow != f
    ensures f in After(p, evs).flows && After(p, evs).flows[f].desired == LastWish(evs, f, p.flows[f].desired)
    decreases |evs|
  {
    if evs != [] {
      var e := evs[0];
      StepKeepsInv(p, e);
      WishStep(p, e, f);
      hide Step, Inv, Enabled;
      WishesAreKept(Step(p, e), evs[1..], f);
    }
  }

  lemma WishStep(p: Plane, e: Event, f: FlowId)
    requires Inv(p) && Enabled(p, e) && f in p.flows && !(e.FreeFlow? && e.flow == f)
    ensures f in Step(p, e).flows
    ensures Step(p, e).flows[f].desired
         == if e.Attach? && e.flow == f then Some(e.sink) else if e.Detach? && e.flow == f
           then None else p.flows[f].desired
  {
  }

  /**
   * Over any run: once nothing is being sent any more, every flow's buffer is with the sink the flow was
   * last attached to, whatever sends were in progress when it was moved.
   */
  lemma EventuallyInPlace(p: Plane, evs: seq<Event>, f: FlowId)
    requires Inv(p) && Allowed(p, evs) && f in p.flows
    requires forall e :: e in evs && e.FreeFlow? ==> e.flow != f
    requires forall s :: s in After(p, evs).sinks ==> After(p, evs).sinks[s].busy.None?
    ensures var q := After(p, evs);
            f in q.flows && q.buffers[q.flows[f].buffer].sink == LastWish(evs, f, p.flows[f].desired)
  {
    WishesAreKept(p, evs, f);
    QuietMeansInPlace(After(p, evs));
  }

  // ----- a send in progress -----

  /** Sink s is in the middle of sending buffer b. */
  predicate Sending(p: Plane, s: nat, b: nat) {
    s in p.sinks && p.sinks[s].busy == Some(b) && b in p.buffers && p.buffers[b].sink == Some(s)
  }

  lemma SendGoesOn(p: Plane, e: Event, s: nat, b: nat)
    requires Inv(p) && Enabled(p, e) && Sending(p, s, b) && e != EndSend(s) && e != FreeSink(s)
    ensures Sending(Step(p, e), s, b)
  {
    if e.EndSend? || e.FreeSink? {
      assert SinkInv(p, e.sink);
      ReleaseKeeps(p, e.sink);
    }
    hide Inv;
  }

  /**
   * A send that starts goes on until it ends or the sink is freed, whatever is attached, detached or freed
   * meanwhile: the buffer stays with its sink, no other send starts there, and the send can end at any time.
   */
  lemma {:induction false} SendHolds(p: Plane, s: nat, b: nat, evs: seq<Event>)
    requires Inv(p) && Enabled(p, StartSend(s, b)) && Inv(Step(p, StartSend(s, b)))
    requires Allowed(Step(p, StartSend(s, b)), evs) && EndSend(s) !in evs && FreeSink(s) !in evs
    ensures var q := After(Step(p, StartSend(s, b)), evs);
            && Sending(q, s, b) && Enabled(q, EndSend(s))
            && (forall c :: !Enabled(q, StartSend(s, c))) && (forall t :: !Enabled(q, StartSend(t, b)))
  {
    var started := Step(p, StartSend(s, b));
    assert Sending(started, s, b);
    GoesOn(started, evs, s, b);
    hide Inv, Step, Allowed, After;
  }

  lemma {:induction false} GoesOn(p: Plane, evs: seq<Event>, s: nat, b: nat)
    requires Inv(p) && Sending(p, s, b) && Allowed(p, evs) && EndSend(s) !in evs && FreeSink(s) !in evs
    ensures Sending(After(p, evs), s, b)
    decreases |evs|
  {
    hide Inv, Step, Enabled, Sending;
    if evs != [] {
      StepKeepsInv(p, evs[0]);
      SendGoesOn(p, evs[0], s, b);
      GoesOn(Step(p, evs[0]), evs[1..], s, b);
    }
  }

  /** How an event changes what the flows desire and which sinks there are, leaving buffers and sends aside. */
  lemma WishesAfter(p: Plane, e: Event)
    requires Inv(p) && Enabled(p, e)
    ensures var q := Step(p, e);
            && q.sinks.Keys == (match e
                                case NewSink(s) => p.sinks.Keys + {s}
                                case FreeSink(s) => p.sinks.Keys - {s}
                                case _ => p.sinks.Keys)
            && q.flows == (match e
                           case NewFlow(f, b) => p.flows[f := Flow(None, b)]
                           case FreeFlow(f) => p.flows - {f}
                           case Attach(f, s) => p.flows[f := p.flows[f].(desired := Some(s))]
                           case Detach(f) => p.flows[f := p.flows[f].(desired := None)]
                           case _ => p.flows)
  {
    match e
    case FreeSink(s) => ReleaseKeeps(p, s);
    case EndSend(s) => ReleaseKeeps(p, s);
    case _ =>
  }
}
