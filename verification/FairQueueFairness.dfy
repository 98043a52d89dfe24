/** No starvation, and even shares. */
module FairQueueFairness {
  import opened Options
  import opened FairQueueSpec
  import opened FairQueueRuns

  // ----- no starvation -----

  /** How many sends flow k may still get before j: the distance its clock lags behind j's, and one for a tie. */
  function Lead(q: Queue, j: nat, k: nat): nat {
    if k == j || k !in q.time || j !in q.time then 0 else Minus(q.time[j] + 1, q.time[k])
  }

  function SumLeads(q: Queue, j: nat, ks: seq<nat>): nat {
    if ks == [] then 0 else Lead(q, j, ks[0]) + SumLeads(q, j, ks[1..])
  }

  /** The bound on further sends of other flows while j waits. */
  function Debt(q: Queue, j: nat): nat {
    SumLeads(q, j, q.flows)
  }

  lemma {:induction false} SumNotHigher(q: Queue, r: Queue, j: nat, ks: seq<nat>)
    requires forall k :: k in ks ==> Lead(r, j, k) <= Lead(q, j, k)
    ensures SumLeads(r, j, ks) <= SumLeads(q, j, ks)
  {
    if ks != [] { SumNotHigher(q, r, j, ks[1..]); }
  }

  lemma {:induction false} SumLower(q: Queue, r: Queue, j: nat, ks: seq<nat>, s: nat)
    requires forall k :: k in ks ==> Lead(r, j, k) <= Lead(q, j, k)
    requires s in ks && Lead(r, j, s) < Lead(q, j, s)
    ensures SumLeads(r, j, ks) < SumLeads(q, j, ks)
  {
    if ks[0] == s { SumNotHigher(q, r, j, ks[1..]); } else { SumLower(q, r, j, ks[1..], s); }
  }

  lemma {:induction false} SumWithout(q: Queue, r: Queue, j: nat, ks: seq<nat>, f: nat)
    requires forall k :: k in ks && k != f ==> Lead(r, j, k) <= Lead(q, j, k)
    ensures SumLeads(r, j, Without(ks, f)) <= SumLeads(q, j, ks)
  {
    if ks != [] {
      SumWithout(q, r, j, ks[1..], f);
      var rest := Without(ks[1..], f);
      assert [] + rest == rest && ([ks[0]] + rest)[1..] == rest;
    }
  }

  /** What an event does to the clocks. */
  lemma SendClocks(cfg: Config, q: Queue, f: nat, len: nat)
    requires Inv(cfg, q) && Enabled(cfg, q, Send(f, len))
    ensures var r := Step(cfg, q, Send(f, len));
            && r.flows == q.flows && r.time.Keys == q.time.Keys
            && (forall g :: g in q.time && g != f ==> r.time[g] == q.time[g])
            && r.time[f] >= q.time[f] && (q.previous == Some(f) ==> r.time[f] == q.time[f])
  {
    EnqueueKeeps(cfg, q, f, len);
  }

  lemma DoneClocks(cfg: Config, q: Queue)
    requires Inv(cfg, q) && q.sending.Some?
    ensures var r, s, f := Step(cfg, q, OutputDone), ShiftFor(cfg, q, OutputDone), q.sending.value;
            && r.flows == q.flows && r.time.Keys == q.time.Keys && f in q.time
            && r.time[f] == q.time[f] + cfg.weight + q.sendingLen - s
            && (forall g :: g in q.tree ==> s <= q.time[g] && r.time[g] == q.time[g] - s && q.time[f] <= q.time[g])
            && (forall g :: g in q.time && g != f ==> r.time[g] == Minus(q.time[g], s))
            && q.sendingLen <= cfg.mtu && f !in q.tree && q.previous.None?
  {
    OverflowLandsInRange(cfg, q);
  }

  lemma JobClocks(cfg: Config, q: Queue)
    requires Inv(cfg, q) && q.job
    ensures Step(cfg, q, RunJob).time == q.time && Step(cfg, q, RunJob).flows == q.flows
  {
  }

  /** One event while j waits: its debt never grows, and shrinks whenever a send ends. New flows excluded. */
  lemma DebtFalls(cfg: Config, q: Queue, e: Event, j: nat)
    requires Inv(cfg, q) && Enabled(cfg, q, e) && !e.AddFlow? && j in q.tree && j in Step(cfg, q, e).time
    ensures Debt(Step(cfg, q, e), j) <= Debt(q, j)
    ensures e.OutputDone? ==> Debt(Step(cfg, q, e), j) < Debt(q, j)
  {
    hide Structure, Distinct, Sorted, SumLeads, DoSend, DoDone, DoJob, ShiftFor;
    var r := Step(cfg, q, e);
    TreeHasTime(cfg, q, j);
    match e
    case Send(f, len) =>
      SendClocks(cfg, q, f, len);
      StillWaits(cfg, q, f, j);
      SumNotHigher(q, r, j, q.flows);
    case OutputDone =>
      DoneClocks(cfg, q);
      var s := q.sending.value;
      assert Lead(r, j, s) < Lead(q, j, s);
      SumLower(q, r, j, q.flows, s);
    case RunJob =>
      JobClocks(cfg, q);
      SumNotHigher(q, r, j, q.flows);
    case FreeFlow(f) =>
      SumWithout(q, r, j, q.flows, f);
  }

  lemma StillWaits(cfg: Config, q: Queue, f: nat, j: nat)
    requires Inv(cfg, q) && j in q.tree && f !in q.tree
    ensures f != j
  {
  }

  /** Flow j waits in the queue before every one of these events and after the last; no flow is added. */
  ghost predicate Waits(cfg: Config, q: Queue, evs: seq<Event>, j: nat)
    requires Inv(cfg, q) && Allowed(cfg, q, evs)
    decreases |evs|
  {
    && j in q.tree
    && (evs == [] ||
          (!evs[0].AddFlow? && (StepKeepsInv(cfg, q, evs[0]); Waits(cfg, Step(cfg, q, evs[0]), evs[1..], j))))
  }

  function Sends(evs: seq<Event>): nat {
    if evs == [] then 0 else (if evs[0].OutputDone? then 1 else 0) + Sends(evs[1..])
  }

  /**
   * No starvation: over any run, clocks moved back or not, a flow that stays queued sees at most as many
   * sends of others complete as its debt was when it started to wait.
   */
  lemma {:induction false} NoStarvation(cfg: Config, q: Queue, evs: seq<Event>, j: nat)
    requires Inv(cfg, q) && Allowed(cfg, q, evs) && Waits(cfg, q, evs, j)
    ensures Sends(evs) + Debt(After(cfg, q, evs), j) <= Debt(q, j)
    decreases |evs|
  {
    hide Structure, Distinct, Step, SumLeads, Enabled;
    if evs != [] {
      StepKeepsInv(cfg, q, evs[0]);
      var r := Step(cfg, q, evs[0]);
      assert j in r.tree;
      TreeHasTime(cfg, r, j);
      DebtFalls(cfg, q, evs[0], j);
      NoStarvation(cfg, r, evs[1..], j);
    }
  }

  lemma TreeHasTime(cfg: Config, q: Queue, j: nat)
    requires Inv(cfg, q) && j in q.tree
    ensures j in q.time
  {
  }

  // ----- pairwise fairness -----

  function Max(a: int, b: int): int { if a >= b then a else b }
  function Abs(a: int): nat { if a >= 0 then a else -a }

  function Gap(q: Queue, i: nat, j: nat): int
    requires i in q.time && j in q.time
  {
    q.time[i] as int - q.time[j] as int
  }

  /** Both flows are backlogged: queued, being sent, or just sent, before each event and after the last. */
  ghost predicate Backlogged(cfg: Config, q: Queue, evs: seq<Event>, i: nat, j: nat)
    requires Inv(cfg, q) && Allowed(cfg, q, evs)
    decreases |evs|
  {
    && i in q.time && j in q.time && Active(q, i) && Active(q, j)
    && (evs == [] || (StepKeepsInv(cfg, q, evs[0]); Backlogged(cfg, Step(cfg, q, evs[0]), evs[1..], i, j)))
  }

  /** Flow i is not freed, and whenever its send ends it sends again before the schedule job runs. */
  ghost predicate KeepsUp(cfg: Config, q: Queue, evs: seq<Event>, i: nat)
    requires Inv(cfg, q) && Allowed(cfg, q, evs)
    decreases |evs|
  {
    evs == [] ||
      (evs[0] != FreeFlow(i) && !(evs[0].RunJob? && q.previous == Some(i))
       && (StepKeepsInv(cfg, q, evs[0]); KeepsUp(cfg, Step(cfg, q, evs[0]), evs[1..], i)))
  }

  /** An active flow leaves only by being freed, or by not having sent again when the job runs. */
  lemma StaysActive(cfg: Config, q: Queue, e: Event, i: nat)
    requires Inv(cfg, q) && Enabled(cfg, q, e) && Active(q, i)
    ensures Active(Step(cfg, q, e), i) <==> e != FreeFlow(i) && !(e.RunJob? && q.previous == Some(i))
  {
    JustSentIsNotWaiting(cfg, q);
    hide Structure, Distinct, DoSend, DoDone, DoJob, DoFree, ShiftBy;
    match e
    case Send(f, len) => AfterSend(cfg, q, f, len);
    case OutputDone => AfterDone(cfg, q, ShiftFor(cfg, q, OutputDone));
    case RunJob => AfterJob(cfg, q);
    case AddFlow(f) =>
    case FreeFlow(f) => AfterFree(cfg, q, f);
  }

  lemma JustSentIsNotWaiting(cfg: Config, q: Queue)
    requires Inv(cfg, q)
    ensures forall f :: Active(q, f) ==> f in q.time
    ensures q.previous.Some? ==> q.sending.None? && q.previous.value !in q.tree
  {
  }

  /**
   * Two flows stay backlogged exactly as long as both keep up. (That a source which sends again from its done
   * handler does is shown on the job stack, in FairQueueJobs.)
   */
  lemma {:induction false} BackloggedIffKeepingUp(cfg: Config, q: Queue, evs: seq<Event>, i: nat, j: nat)
    requires Inv(cfg, q) && Allowed(cfg, q, evs)
    ensures Backlogged(cfg, q, evs, i, j) <==>
              Active(q, i) && Active(q, j) && KeepsUp(cfg, q, evs, i) && KeepsUp(cfg, q, evs, j)
    decreases |evs|
  {
    JustSentIsNotWaiting(cfg, q);
    hide Structure, Distinct, Step, Enabled, Active;
    if evs != [] && Active(q, i) && Active(q, j) {
      StepKeepsInv(cfg, q, evs[0]);
      StaysActive(cfg, q, evs[0], i);
      StaysActive(cfg, q, evs[0], j);
      BackloggedIffKeepingUp(cfg, Step(cfg, q, evs[0]), evs[1..], i, j);
    }
  }

  /** The weight an event charges to flow i. */
  function Charge(cfg: Config, q: Queue, e: Event, i: nat): nat {
    if e.OutputDone? && q.sending == Some(i) then cfg.weight + q.sendingLen else 0
  }

  ghost function Service(cfg: Config, q: Queue, evs: seq<Event>, i: nat): nat
    requires Inv(cfg, q) && Allowed(cfg, q, evs)
    decreases |evs|
  {
    if evs == [] then 0
    else
      StepKeepsInv(cfg, q, evs[0]);
      Charge(cfg, q, evs[0], i) + Service(cfg, Step(cfg, q, evs[0]), evs[1..], i)
  }

  lemma GapStep(cfg: Config, q: Queue, e: Event, i: nat, j: nat)
    requires Inv(cfg, q) && Enabled(cfg, q, e) && i != j
    requires i in q.time && j in q.time && Active(q, i) && Active(q, j)
    requires var r := Step(cfg, q, e); i in r.time && j in r.time && Active(r, i) && Active(r, j)
    ensures Gap(Step(cfg, q, e), i, j) == Gap(q, i, j) + Charge(cfg, q, e, i) - Charge(cfg, q, e, j)
    ensures Abs(Gap(Step(cfg, q, e), i, j)) <= Max(Abs(Gap(q, i, j)), cfg.weight + cfg.mtu)
  {
    hide Structure, Distinct, Sorted, DoSend, DoDone, DoJob, ShiftFor;
    match e
    case Send(f, len) => SendClocks(cfg, q, f, len);
    case OutputDone => DoneClocks(cfg, q);
    case RunJob => JobClocks(cfg, q);
    case AddFlow(f) =>
    case FreeFlow(f) =>
  }

  /**
   * Pairwise fairness: while two flows stay backlogged the gap between their clocks never exceeds the
   * starting gap or packet_weight + MTU, whichever is larger, and the difference in service they get is
   * exactly the change of that gap. From equal clocks, neither gets ahead by more than packet_weight + MTU.
   */
  lemma {:induction false} FairShares(cfg: Config, q: Queue, evs: seq<Event>, i: nat, j: nat)
    requires Inv(cfg, q) && Allowed(cfg, q, evs) && i != j && Backlogged(cfg, q, evs, i, j)
    ensures var r := After(cfg, q, evs);
            && i in r.time && j in r.time
            && Abs(Gap(r, i, j)) <= Max(Abs(Gap(q, i, j)), cfg.weight + cfg.mtu)
            && Service(cfg, q, evs, i) - Service(cfg, q, evs, j) == Gap(r, i, j) - Gap(q, i, j)
    ensures Gap(q, i, j) == 0 ==> Abs(Service(cfg, q, evs, i) - Service(cfg, q, evs, j)) <= cfg.weight + cfg.mtu
    decreases |evs|
  {
    hide Structure, Distinct, Step, Enabled, Active;
    if evs != [] {
      StepKeepsInv(cfg, q, evs[0]);
      GapStep(cfg, q, evs[0], i, j);
      FairShares(cfg, Step(cfg, q, evs[0]), evs[1..], i, j);
    }
  }
}
