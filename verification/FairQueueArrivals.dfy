/**
 * What becomes of a packet handed to the fair queue: the clock its flow gets, how long it waits, and that it is
 * sent.
 */
module FairQueueArrivals {
  import opened Options
  import opened Division
  import opened FairQueueSpec
  import opened FairQueueRuns
  import opened FairQueueFairness

  // ----- the clock of a flow that queues a packet -----

  /** Flow g has the least clock of all active flows. */
  ghost predicate LeastActive(q: Queue, g: nat) {
    g in q.time && Active(q, g) && forall h: nat :: Active(q, h) ==> h in q.time && q.time[g] <= q.time[h]
  }

  /**
   * A flow that was idle gets no credit for its past and no penalty: its clock becomes the least clock of the
   * active flows, unless it is higher already or none is active. A flow that has just sent keeps its clock, and
   * so do all the others.
   */
  lemma RaisedToLeastActive(cfg: Config, q: Queue, f: nat, len: nat)
    requires Inv(cfg, q) && Enabled(cfg, q, Send(f, len))
    ensures var r := Step(cfg, q, Send(f, len));
            && r.time.Keys == q.time.Keys && (forall g :: g in q.time && g != f ==> r.time[g] == q.time[g])
            && (Active(q, f) || (forall g: nat :: !Active(q, g)) ==> r.time[f] == q.time[f])
            && (!Active(q, f) && (exists g: nat :: Active(q, g)) ==>
                  exists g: nat :: LeastActive(q, g) && r.time[f] == Max(q.time[f], q.time[g]))
  {
    SendClocks(cfg, q, f, len);
    CurrentTimeIsLeast(cfg, q);
    SentTime(cfg, q, f, len);
    hide Sorted, Distinct, Insert, CurrentTime;
    if exists g: nat :: Active(q, g) {
      var g: nat :| Active(q, g) && g in q.time && CurrentTime(q) == q.time[g];
      assert LeastActive(q, g);
    }
  }

  lemma SentTime(cfg: Config, q: Queue, f: nat, len: nat)
    requires Inv(cfg, q) && Enabled(cfg, q, Send(f, len))
    ensures Step(cfg, q, Send(f, len)).time == Raised(q, f)
  {
  }

  /** A flow that comes new begins at 0, and leaves all others as they are. */
  lemma NewFlowAtZero(cfg: Config, q: Queue, f: nat)
    requires Inv(cfg, q) && Enabled(cfg, q, AddFlow(f))
    ensures Step(cfg, q, AddFlow(f)) == q.(flows := q.flows + [f], time := q.time[f := 0]) && !Active(q, f)
  {
  }

  /** A packet goes out at once exactly when nothing is being sent and no choice is due; otherwise it waits its turn. */
  lemma SentAtOnceIffIdle(cfg: Config, q: Queue, f: nat, len: nat)
    requires Inv(cfg, q) && Enabled(cfg, q, Send(f, len))
    ensures var r := Step(cfg, q, Send(f, len));
            && r.job == q.job
            && (if q.sending.None? && !q.job then r.sending == Some(f) && r.sendingLen == len && r.tree == []
                else
                  && r.sending == q.sending && r.sendingLen == q.sendingLen
                  && f in r.tree && f in r.lens && r.lens[f] == len
                  && (forall g :: g in r.tree <==> g in q.tree || g == f)
                  && (forall g :: g in q.lens && g != f ==> g in r.lens && r.lens[g] == q.lens[g]))
  {
    EnqueueKeeps(cfg, q, f, len);
    hide Raised, CurrentTime, Sorted;
  }

  // ----- how long it waits -----

  /** The sends of flow k that end in a run. */
  ghost function SendsOf(cfg: Config, q: Queue, evs: seq<Event>, k: nat): nat
    requires Inv(cfg, q) && Allowed(cfg, q, evs)
    decreases |evs|
  {
    if evs == [] then 0
    else
      StepKeepsInv(cfg, q, evs[0]);
      (if evs[0].OutputDone? && q.sending == Some(k) then 1 else 0) + SendsOf(cfg, Step(cfg, q, evs[0]), evs[1..], k)
  }

  /** No active flow is more than d behind flow j; and flow k, having had n sends, is less so by each of them. */
  ghost predicate Within(cfg: Config, q: Queue, j: nat, d: nat, k: nat, n: nat) {
    && j in q.time
    && (forall g: nat :: Active(q, g) ==> g in q.time && q.time[j] <= q.time[g] + d)
    && (k in q.time && n > 0 ==> q.time[j] + n * cfg.weight <= q.time[k] + d)
  }

  lemma SendWithin(cfg: Config, q: Queue, f: nat, len: nat, j: nat, d: nat, k: nat, n: nat)
    requires Inv(cfg, q) && Enabled(cfg, q, Send(f, len)) && j in q.tree && Within(cfg, q, j, d, k, n)
    ensures Within(cfg, Step(cfg, q, Send(f, len)), j, d, k, n)
  {
    SendClocks(cfg, q, f, len);
    RaisedToLeastActive(cfg, q, f, len);
    AfterSend(cfg, q, f, len);
    StillWaits(cfg, q, f, j);
    assert Active(q, j);
    hide Inv, DoSend;
  }

  lemma DoneWithin(cfg: Config, q: Queue, j: nat, d: nat, k: nat, n: nat)
    requires Inv(cfg, q) && q.sending.Some? && j in q.tree && Within(cfg, q, j, d, k, n) && k != j
    ensures var m := n + if q.sending == Some(k) then 1 else 0;
            && Within(cfg, Step(cfg, q, OutputDone), j, d, k, m) && (m > n ==> n * cfg.weight <= d)
  {
    DoneClocks(cfg, q);
    AfterDone(cfg, q, ShiftFor(cfg, q, OutputDone));
    Distribute(n, 0, cfg.weight);
    hide Inv, DoDone, ShiftFor;
  }

  lemma StepWithin(cfg: Config, q: Queue, e: Event, j: nat, d: nat, k: nat, n: nat)
    requires Inv(cfg, q) && Enabled(cfg, q, e) && !e.AddFlow? && j in q.tree && j in Step(cfg, q, e).tree
    requires Within(cfg, q, j, d, k, n) && k != j
    ensures var m := n + if e.OutputDone? && q.sending == Some(k) then 1 else 0;
            && Within(cfg, Step(cfg, q, e), j, d, k, m) && (m > n ==> n * cfg.weight <= d)
  {
    hide Within, Inv, Step;
    match e
    case Send(f, len) => SendWithin(cfg, q, f, len, j, d, k, n);
    case OutputDone => DoneWithin(cfg, q, j, d, k, n);
    case RunJob => JobWithin(cfg, q, j, d, k, n);
    case FreeFlow(f) => FreeWithin(cfg, q, f, j, d, k, n);
  }

  lemma JobWithin(cfg: Config, q: Queue, j: nat, d: nat, k: nat, n: nat)
    requires Inv(cfg, q) && q.job && j in q.tree && Within(cfg, q, j, d, k, n)
    ensures Within(cfg, Step(cfg, q, RunJob), j, d, k, n)
  {
    JobClocks(cfg, q);
    AfterJob(cfg, q);
    hide Inv, DoJob;
  }

  lemma FreeWithin(cfg: Config, q: Queue, f: nat, j: nat, d: nat, k: nat, n: nat)
    requires Inv(cfg, q) && Enabled(cfg, q, FreeFlow(f)) && j in q.tree && j in Step(cfg, q, FreeFlow(f)).tree
    requires Within(cfg, q, j, d, k, n)
    ensures Within(cfg, Step(cfg, q, FreeFlow(f)), j, d, k, n)
  {
    AfterFree(cfg, q, f);
    FreedIsGone(cfg, q, f, j);
    hide Inv, DoFree;
  }

  lemma FreedIsGone(cfg: Config, q: Queue, f: nat, j: nat)
    requires Inv(cfg, q) && Enabled(cfg, q, FreeFlow(f)) && j in Step(cfg, q, FreeFlow(f)).tree
    ensures j != f
  {
  }

  lemma {:induction false} WaitsWithin(cfg: Config, q: Queue, evs: seq<Event>, j: nat, d: nat, k: nat, n: nat)
    requires Inv(cfg, q) && Allowed(cfg, q, evs) && Waits(cfg, q, evs, j) && Within(cfg, q, j, d, k, n) && k != j
    ensures SendsOf(cfg, q, evs, k) > 0 ==> (n + SendsOf(cfg, q, evs, k) - 1) * cfg.weight <= d
    decreases |evs|
  {
    hide Structure, Distinct, Step, Enabled, Within;
    if evs != [] {
      StepKeepsInv(cfg, q, evs[0]);
      var r := Step(cfg, q, evs[0]);
      assert j in r.tree;
      StepWithin(cfg, q, evs[0], j, d, k, n);
      var m := n + if evs[0].OutputDone? && q.sending == Some(k) then 1 else 0;
      WaitsWithin(cfg, r, evs[1..], j, d, k, m);
    }
  }

  /**
   * How long a newly queued flow waits: while it does, each other flow gets one send, and one more for each
   * packet_weight by which the newcomer's own clock was ahead of the least active one. A flow that was idle long
   * enough not to be ahead thus sees each other flow at most once.
   */
  lemma NewcomerWaits(cfg: Config, q: Queue, f: nat, len: nat, r: Queue, evs: seq<Event>, g: nat, k: nat)
    requires Inv(cfg, q) && Enabled(cfg, q, Send(f, len)) && !Active(q, f) && LeastActive(q, g) && k != f
    requires r == Step(cfg, q, Send(f, len)) && Inv(cfg, r) && Allowed(cfg, r, evs) && Waits(cfg, r, evs, f)
    ensures var n := SendsOf(cfg, r, evs, k);
            && (n > 0 ==> (n - 1) * cfg.weight <= Minus(q.time[f], q.time[g]))
            && (q.time[f] <= q.time[g] ==> n <= 1)
  {
    var d := Minus(q.time[f], q.time[g]);
    NewcomerWithin(cfg, q, f, len, g, k);
    hide *;
    MinusMeans(q.time[f], q.time[g]);
    OnePerWeight(cfg, r, evs, f, d, k);
  }

  lemma OnePerWeight(cfg: Config, r: Queue, evs: seq<Event>, f: nat, d: nat, k: nat)
    requires Inv(cfg, r) && Allowed(cfg, r, evs) && Waits(cfg, r, evs, f) && k != f && cfg.weight > 0
    requires Within(cfg, r, f, d, k, 0)
    ensures var n := SendsOf(cfg, r, evs, k); (n > 0 ==> (n - 1) * cfg.weight <= d) && (d == 0 ==> n <= 1)
  {
    hide *;
    WaitsWithin(cfg, r, evs, f, d, k, 0);
    AtMostOne(SendsOf(cfg, r, evs, k), cfg.weight, d);
  }

  lemma AtMostOne(n: nat, w: nat, d: nat)
    requires w > 0 && (n > 0 ==> (0 + n - 1) * w <= d)
    ensures (n > 0 ==> (n - 1) * w <= d) && (d == 0 ==> n <= 1)
  {
    if n > 1 { MulMono(1, n - 1, w); }
  }

  lemma MinusMeans(a: nat, b: nat)
    ensures a <= b ==> Minus(a, b) == 0
  {
  }

  lemma NewcomerWithin(cfg: Config, q: Queue, f: nat, len: nat, g: nat, k: nat)
    requires Inv(cfg, q) && Enabled(cfg, q, Send(f, len)) && !Active(q, f) && LeastActive(q, g)
    ensures cfg.weight > 0 && f in q.time && g in q.time
    ensures Within(cfg, Step(cfg, q, Send(f, len)), f, Minus(q.time[f], q.time[g]), k, 0)
  {
    RaisedToLeastActive(cfg, q, f, len);
    AfterSend(cfg, q, f, len);
    assert cfg.weight > 0;
    hide Inv, DoSend;
  }

  // ----- that it is sent -----

  /** The lengths of the packets flow f hands in. */
  function HandedIn(evs: seq<Event>, f: nat): seq<nat> {
    if evs == [] then []
    else (match evs[0] case Send(g, len) => if g == f then [len] else [] case _ => []) + HandedIn(evs[1..], f)
  }

  /** The lengths of the packets of flow f among those sent. */
  function SentOf(out: seq<Packet>, f: nat): seq<nat> {
    if out == [] then [] else (if out[0].flow == f then [out[0].len] else []) + SentOf(out[1..], f)
  }

  /** The packet of flow f the queue has and has not begun to send. */
  function Held(q: Queue, f: nat): seq<nat> {
    if f in q.tree && f in q.lens then [q.lens[f]] else []
  }

  lemma StepHands(cfg: Config, q: Queue, e: Event, f: nat)
    requires Inv(cfg, q) && Enabled(cfg, q, e) && e != FreeFlow(f)
    ensures var r := Step(cfg, q, e);
            Held(q, f) + HandedIn([e], f) == SentOf(Started(q, r), f) + Held(r, f)
  {
    hide Sorted, Distinct, Raised, Insert, CurrentTime;
    var r := Step(cfg, q, e);
    match e
    case Send(g, len) => SendHands(cfg, q, g, len, f);
    case RunJob => JobHands(cfg, q, f);
    case OutputDone =>
    case AddFlow(g) =>
    case FreeFlow(g) =>
  }

  lemma SendHands(cfg: Config, q: Queue, g: nat, len: nat, f: nat)
    requires Inv(cfg, q) && Enabled(cfg, q, Send(g, len))
    ensures var r := Step(cfg, q, Send(g, len));
            Held(q, f) + HandedIn([Send(g, len)], f) == SentOf(Started(q, r), f) + Held(r, f)
  {
    SentAtOnceIffIdle(cfg, q, g, len);
    SendersWait(cfg, q, g, len);
    hide Inv, Structure, Step, Enabled;
  }

  lemma SendersWait(cfg: Config, q: Queue, g: nat, len: nat)
    requires Inv(cfg, q) && Enabled(cfg, q, Send(g, len))
    ensures g !in q.tree && q.sending != Some(g) && (q.sending.None? && !q.job ==> q.tree == [])
    ensures forall f :: f in q.tree ==> f in q.lens
  {
    hide Sorted, Distinct;
  }

  lemma JobHands(cfg: Config, q: Queue, f: nat)
    requires Inv(cfg, q) && q.job
    ensures var r := Step(cfg, q, RunJob); Held(q, f) == SentOf(Started(q, r), f) + Held(r, f)
  {
    if q.tree != [] { ScheduledIsLeast(cfg, q); }
    hide Sorted, Distinct;
  }

  lemma {:induction false} HandedInMore(evs: seq<Event>, f: nat)
    requires evs != []
    ensures HandedIn(evs, f) == HandedIn([evs[0]], f) + HandedIn(evs[1..], f)
  {
    assert [evs[0]][1..] == [];
  }

  lemma SentMore(a: seq<Packet>, b: seq<Packet>, f: nat)
    requires |a| <= 1
    ensures SentOf(a + b, f) == SentOf(a, f) + SentOf(b, f)
  {
    if a == [] {
      assert a + b == b;
    } else {
      assert (a + b)[1..] == b && a[1..] == [];
    }
  }

  /**
   * Nothing is lost, doubled or reordered within a flow: over any run in which it is not freed, the packets of a
   * flow that were sent, and the one the queue may still hold, are those its source handed in, in order.
   */
  lemma {:induction false} SentAsHandedIn(cfg: Config, q: Queue, evs: seq<Event>, f: nat)
    requires Inv(cfg, q) && Allowed(cfg, q, evs) && FreeFlow(f) !in evs
    ensures Held(q, f) + HandedIn(evs, f) == SentOf(Output(cfg, q, evs), f) + Held(After(cfg, q, evs), f)
    decreases |evs|
  {
    hide Structure, Distinct, Step, Enabled, Started, Held;
    if evs != [] {
      var e := evs[0];
      StepKeepsInv(cfg, q, e);
      var r := Step(cfg, q, e);
      StepHands(cfg, q, e, f);
      SentAsHandedIn(cfg, r, evs[1..], f);
      HandedInMore(evs, f);
      OneStarted(q, r);
      SentMore(Started(q, r), Output(cfg, r, evs[1..]), f);
      Chain(Held(q, f), HandedIn([e], f), HandedIn(evs[1..], f), SentOf(Started(q, r), f), Held(r, f),
            SentOf(Output(cfg, r, evs[1..]), f), Held(After(cfg, r, evs[1..]), f));
    } else {
      assert Held(q, f) + [] == [] + Held(q, f);
    }
  }

  lemma OneStarted(q: Queue, r: Queue)
    ensures |Started(q, r)| <= 1
  {
  }

  lemma Chain(a: seq<nat>, b: seq<nat>, c: seq<nat>, d: seq<nat>, e: seq<nat>, g: seq<nat>, h: seq<nat>)
    requires a + b == d + e && e + c == g + h
    ensures a + (b + c) == (d + g) + h
  {
    assert a + (b + c) == (a + b) + c;
    assert (d + e) + c == d + (e + c);
  }
}
