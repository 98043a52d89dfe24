/**
 * The fair queue: each flow has a virtual clock, the queued flow with the least (clock, address) is sent,
 * and a sent flow's clock advances by the packet's weight. Clocks live in 0..maxTime; when one would
 * overflow, all are moved back together.
 */
module FairQueueSpec {
  import opened Options

  datatype Config = Config(maxTime: nat, mtu: nat, weight: nat) {
    /** What PacketPassFairQueue_Init checks or asserts. */
    predicate Valid() { weight > 0 && mtu + weight <= maxTime }
  }

  /**
   * `flows` is the list of all flows, `tree` the queued ones by (clock, address); a flow is named by its
   * address. `job` says whether the schedule job is pending.
   */
  datatype Queue = Queue(
    flows: seq<nat>, time: map<nat, nat>, tree: seq<nat>, lens: map<nat, nat>,
    sending: Option<nat>, sendingLen: nat, previous: Option<nat>, job: bool)

  const Empty := Queue([], map[], [], map[], None, 0, None, false)

  predicate Before(time: map<nat, nat>, f: nat, g: nat)
    requires f in time && g in time
  {
    time[f] < time[g] || (time[f] == time[g] && f < g)
  }

  ghost predicate Distinct(s: seq<nat>) {
    forall i, j :: 0 <= i < j < |s| ==> s[i] != s[j]
  }

  ghost predicate Sorted(time: map<nat, nat>, tree: seq<nat>) {
    && (forall f :: f in tree ==> f in time)
    && forall i, j :: 0 <= i < j < |tree| ==> Before(time, tree[i], tree[j])
  }

  /** Inserting into the tree. */
  function Insert(time: map<nat, nat>, tree: seq<nat>, f: nat): (r: seq<nat>)
    requires f in time && forall g :: g in tree ==> g in time
    ensures forall g :: g in r <==> g in tree || g == f
  {
    if tree == [] then [f]
    else if Before(time, f, tree[0]) then [f] + tree
    else
      assert tree == [tree[0]] + tree[1..];
      [tree[0]] + Insert(time, tree[1..], f)
  }

  /** The flow is waiting, being sent, or was the one sent last and may still send again at once. */
  predicate Active(q: Queue, f: nat) {
    f in q.tree || q.sending == Some(f) || q.previous == Some(f)
  }

  ghost predicate Inv(cfg: Config, q: Queue) {
    && cfg.Valid()
    && Distinct(q.flows)
    && (forall f :: f in q.flows <==> f in q.time)
    && (forall f :: f in q.time ==> q.time[f] <= cfg.maxTime)
    && Structure(cfg, q)
  }

  /** What holds of the queue whatever the size of its clocks. */
  ghost predicate Structure(cfg: Config, q: Queue) {
    && Sorted(q.time, q.tree)
    && (forall f :: f in q.tree <==> f in q.lens)
    && (forall f :: f in q.lens ==> q.lens[f] <= cfg.mtu)
    && (q.sending.Some? ==>
          && q.sending.value in q.time && q.sending.value !in q.tree && q.sendingLen <= cfg.mtu
          && !q.job && q.previous.None?
          && forall f :: f in q.tree ==> q.time[q.sending.value] <= q.time[f])
    && (q.previous.Some? ==> q.job && q.previous.value in q.time && q.previous.value !in q.tree)
    && (q.sending.None? && !q.job ==> q.tree == [])
  }

  /** get_current_time */
  function CurrentTime(q: Queue): nat
    requires forall f :: f in q.tree ==> f in q.time
    requires q.sending.Some? ==> q.sending.value in q.time
    requires q.previous.Some? ==> q.previous.value in q.time
  {
    if q.sending.Some? then q.time[q.sending.value]
    else if q.tree != [] then
      assert q.tree[0] in q.tree;
      var first := q.time[q.tree[0]];
      if q.previous.Some? && q.time[q.previous.value] < first then q.time[q.previous.value] else first
    else if q.previous.Some? then q.time[q.previous.value]
    else 0
  }

  datatype Event = Send(flow: nat, len: nat) | OutputDone | RunJob | AddFlow(flow: nat) | FreeFlow(flow: nat)

  /** The calls the queue's users may make, as its assertions demand. */
  predicate Enabled(cfg: Config, q: Queue, e: Event) {
    match e
    case Send(f, len) => f in q.time && f !in q.tree && q.sending != Some(f) && len <= cfg.mtu
    case OutputDone => q.sending.Some?
    case RunJob => q.job
    case AddFlow(f) => f !in q.time
    case FreeFlow(f) => f in q.time && q.sending != Some(f)
  }

  /** schedule: the first queued flow is sent. */
  function Schedule(q: Queue): Queue
    requires q.tree != [] && q.tree[0] in q.lens
  {
    var f := q.tree[0];
    q.(tree := q.tree[1..], lens := q.lens - {f}, sending := Some(f), sendingLen := q.lens[f])
  }

  /** A flow that just sent keeps its clock; any other is raised to the current time. */
  function Raised(q: Queue, f: nat): map<nat, nat>
    requires f in q.time && (forall g :: g in q.tree ==> g in q.time)
    requires q.sending.Some? ==> q.sending.value in q.time
    requires q.previous.Some? ==> q.previous.value in q.time
  {
    var now := CurrentTime(q);
    if q.previous == Some(f) || q.time[f] >= now then q.time else q.time[f := now]
  }

  function Enqueue(q: Queue, f: nat, len: nat): Queue
    requires f in q.time && (forall g :: g in q.tree ==> g in q.time && g in q.lens)
    requires q.sending.Some? ==> q.sending.value in q.time
    requires q.previous.Some? ==> q.previous.value in q.time
  {
    var raised := Raised(q, f);
    q.(time := raised, previous := if q.previous == Some(f) then None else q.previous,
       tree := Insert(raised, q.tree, f), lens := q.lens[f := len])
  }

  /** input_handler_send */
  function DoSend(q: Queue, f: nat, len: nat): Queue
    requires f in q.time && (forall g :: g in q.tree ==> g in q.time && g in q.lens)
    requires q.sending.Some? ==> q.sending.value in q.time
    requires q.previous.Some? ==> q.previous.value in q.time
  {
    var r := Enqueue(q, f, len);
    if q.sending.None? && !q.job && r.tree[0] in r.lens then Schedule(r) else r
  }

  /** How far all clocks are moved back when flow f, just sent, gains `amount`; 0 if it fits. */
  function ShiftBy(maxTime: nat, time: map<nat, nat>, tree: seq<nat>, f: nat, amount: nat): nat
    requires f in time && forall g :: g in tree ==> g in time
  {
    if time[f] + amount <= maxTime then 0
    else if tree == [] then time[f]
    else assert tree[0] in tree; time[tree[0]]
  }

  function Minus(a: nat, b: nat): nat { if a >= b then a - b else 0 }

  /** increment_sent_flow: the clocks afterwards. Only the sent flow's clock may pass through a negative value. */
  function Charged(time: map<nat, nat>, f: nat, amount: nat, shift: nat): map<nat, nat>
    requires f in time
  {
    map g | g in time :: if g == f then Minus(time[f] + amount, shift) else Minus(time[g], shift)
  }

  /** output_handler_done, moving the clocks back by `shift` */
  function DoDone(weight: nat, q: Queue, shift: nat): Queue
    requires q.sending.Some? && q.sending.value in q.time
  {
    var f := q.sending.value;
    q.(time := Charged(q.time, f, weight + q.sendingLen, shift), sending := None, previous := Some(f), job := true)
  }

  /** schedule_job_handler */
  function DoJob(q: Queue): Queue {
    var r := q.(previous := None, job := false);
    if r.tree != [] && r.tree[0] in r.lens then Schedule(r) else r
  }

  function Without(s: seq<nat>, f: nat): (r: seq<nat>)
    ensures forall g :: g in r <==> g in s && g != f
  {
    if s == [] then []
    else
      assert s == [s[0]] + s[1..];
      (if s[0] == f then [] else [s[0]]) + Without(s[1..], f)
  }

  /** PacketPassFairQueueFlow_Free */
  function DoFree(q: Queue, f: nat): Queue {
    q.(flows := Without(q.flows, f), time := q.time - {f}, tree := Without(q.tree, f), lens := q.lens - {f},
       sending := if q.sending == Some(f) then None else q.sending,
       previous := if q.previous == Some(f) then None else q.previous)
  }

  /** The shift the queue chooses for an event; 0 for all but an overflowing charge. */
  function ShiftFor(cfg: Config, q: Queue, e: Event): nat
    requires Structure(cfg, q) && Enabled(cfg, q, e)
  {
    if e.OutputDone? then ShiftBy(cfg.maxTime, q.time, q.tree, q.sending.value, cfg.weight + q.sendingLen) else 0
  }

  function StepShift(cfg: Config, q: Queue, e: Event, shift: nat): Queue
    requires Structure(cfg, q) && Enabled(cfg, q, e)
  {
    match e
    case Send(f, len) => DoSend(q, f, len)
    case OutputDone => DoDone(cfg.weight, q, shift)
    case RunJob => DoJob(q)
    case AddFlow(f) => q.(flows := q.flows + [f], time := q.time[f := 0])
    case FreeFlow(f) => DoFree(q, f)
  }

  /** The queue as it is. */
  function Step(cfg: Config, q: Queue, e: Event): Queue
    requires Structure(cfg, q) && Enabled(cfg, q, e)
  {
    StepShift(cfg, q, e, ShiftFor(cfg, q, e))
  }

  /** The queue with clocks that are never moved back. */
  function IdealStep(cfg: Config, q: Queue, e: Event): Queue
    requires Structure(cfg, q) && Enabled(cfg, q, e)
  {
    StepShift(cfg, q, e, 0)
  }

  // ----- the invariant -----

  lemma {:induction false} InsertKeepsSorted(time: map<nat, nat>, tree: seq<nat>, f: nat)
    requires f in time && f !in tree && Sorted(time, tree)
    ensures Sorted(time, Insert(time, tree, f))
    ensures Insert(time, tree, f)[0] == (if tree == [] || Before(time, f, tree[0]) then f else tree[0])
  {
    if tree != [] && !Before(time, f, tree[0]) {
      var rest := Insert(time, tree[1..], f);
      InsertKeepsSorted(time, tree[1..], f);
      forall j | 0 <= j < |rest| ensures Before(time, tree[0], rest[j]) {
        assert rest[j] in rest;
        if rest[j] != f { var k :| 0 <= k < |tree| - 1 && tree[1..][k] == rest[j]; }
      }
    }
  }

  lemma {:induction false} WithoutKeepsSorted(time: map<nat, nat>, tree: seq<nat>, f: nat)
    requires Sorted(time, tree)
    ensures Sorted(time - {f}, Without(tree, f))
  {
    if tree != [] {
      var rest := Without(tree[1..], f);
      WithoutKeepsSorted(time, tree[1..], f);
      forall j | 0 <= j < |rest| ensures Before(time, tree[0], rest[j]) {
        assert rest[j] in rest;
        var k :| 0 <= k < |tree| - 1 && tree[1..][k] == rest[j];
      }
    }
  }

  lemma {:induction false} WithoutDistinct(s: seq<nat>, f: nat)
    requires Distinct(s)
    ensures Distinct(Without(s, f))
  {
    if s != [] {
      WithoutDistinct(s[1..], f);
      var rest := Without(s[1..], f);
      forall j | 0 <= j < |rest| ensures rest[j] != s[0] {
        assert rest[j] in rest;
        var k :| 0 <= k < |s| - 1 && s[1..][k] == rest[j];
      }
    }
  }

  /** The shift takes no more than any queued flow has, and no more than the sent flow will have. */
  predicate SafeShift(cfg: Config, q: Queue, e: Event, shift: nat)
    requires Structure(cfg, q) && Enabled(cfg, q, e)
  {
    e.OutputDone? ==>
      && (forall f :: f in q.tree ==> shift <= q.time[f])
      && shift <= q.time[q.sending.value] + cfg.weight + q.sendingLen
  }

  lemma SortedFirst(q: Queue, f: nat)
    requires Sorted(q.time, q.tree) && f in q.tree
    ensures q.time[q.tree[0]] <= q.time[f]
  {
    var i :| 0 <= i < |q.tree| && q.tree[i] == f;
    if i > 0 { assert Before(q.time, q.tree[0], q.tree[i]); }
  }

  /** On overflow the sent flow's clock first goes below zero, and then always lands back within its range. */
  lemma OverflowLandsInRange(cfg: Config, q: Queue)
    requires Inv(cfg, q) && q.sending.Some?
    ensures var f, amount := q.sending.value, cfg.weight + q.sendingLen;
            var shift := ShiftBy(cfg.maxTime, q.time, q.tree, f, amount);
            && SafeShift(cfg, q, OutputDone, shift)
            && shift <= q.time[f] + amount && q.time[f] + amount - shift <= cfg.maxTime
            && (q.time[f] + amount > cfg.maxTime ==> q.time[f] <= shift)
  {
    if q.tree != [] { assert q.tree[0] in q.tree; }
    forall f | f in q.tree ensures q.time[q.tree[0]] <= q.time[f] { SortedFirst(q, f); }
  }

  /** A shift uses up nearly the whole range: one more packet of full size would not have fitted before it. */
  lemma ShiftIsLarge(cfg: Config, q: Queue)
    requires Inv(cfg, q) && q.sending.Some?
    ensures var s := ShiftFor(cfg, q, OutputDone);
            s == 0 || (s + cfg.weight + cfg.mtu > cfg.maxTime && s >= q.time[q.sending.value])
  {
    OverflowLandsInRange(cfg, q);
  }

  /** The flow whose packet is sent comes before every flow that stays queued. */
  lemma ScheduledIsLeast(cfg: Config, q: Queue)
    requires Structure(cfg, q) && q.tree != []
    ensures q.tree[0] in q.lens && Schedule(q).sending.Some?
    ensures var f, r := Schedule(q).sending.value, Schedule(q);
            && f in q.tree && f !in r.tree && Schedule(q).sendingLen == q.lens[f]
            && (forall g :: g in q.tree && g != f ==> g in r.tree && g in r.lens && r.lens[g] == q.lens[g])
            && (forall g :: g in q.tree && g != f ==> f in q.time && g in q.time && Before(q.time, f, g))
  {
    var f, r := q.tree[0], Schedule(q);
    assert q.tree == [f] + r.tree && f in q.tree;
    forall g | g in r.tree ensures g != f && Before(q.time, f, g) {
      var i :| 0 <= i < |r.tree| && r.tree[i] == g;
      assert Before(q.time, q.tree[0], q.tree[i + 1]);
    }
  }

  /** The current time is the least clock of the active flows, and 0 when there are none. */
  lemma CurrentTimeIsLeast(cfg: Config, q: Queue)
    requires Structure(cfg, q)
    ensures (forall f :: !Active(q, f)) ==> CurrentTime(q) == 0
    ensures forall f :: Active(q, f) ==> f in q.time && CurrentTime(q) <= q.time[f]
    ensures (exists f :: Active(q, f)) ==> exists f :: Active(q, f) && f in q.time && CurrentTime(q) == q.time[f]
  {
    if q.sending.Some? {
      assert Active(q, q.sending.value);
    } else {
      if q.tree != [] { assert q.tree[0] in q.tree && Active(q, q.tree[0]); }
      if q.previous.Some? { assert Active(q, q.previous.value); }
    }
    forall f | f in q.tree ensures q.time[q.tree[0]] <= q.time[f] { SortedFirst(q, f); }
  }

  /** Also while the queue is being torn down, when flows may be freed in the middle of a send. */
  ghost predicate Linked(q: Queue) {
    && Distinct(q.flows) && (forall f :: f in q.flows <==> f in q.time)
    && Sorted(q.time, q.tree) && (forall f :: f in q.tree <==> f in q.lens)
    && (forall f :: q.sending == Some(f) || q.previous == Some(f) ==> f in q.time && f !in q.tree)
  }

  lemma FreeKeepsLinked(q: Queue, f: nat)
    requires Linked(q) && f in q.time
    ensures Linked(DoFree(q, f))
  {
    WithoutKeepsSorted(q.time, q.tree, f);
    WithoutDistinct(q.flows, f);
  }

  lemma FirstIsIn(s: seq<nat>)
    ensures s != [] ==> s[0] in s
  {
  }

  /** Once every flow is freed nothing is queued, sent or remembered, as freeing the queue demands. */
  lemma AllFreed(q: Queue)
    requires Linked(q) && q.flows == []
    ensures q.tree == [] && q.sending.None? && q.previous.None? && q.time == map[] && q.lens == map[]
  {
    assert forall f :: f in q.time ==> f in q.flows;
    FirstIsIn(q.tree);
    assert forall f :: f in q.lens ==> f in q.tree;
  }

  lemma ScheduleKeeps(cfg: Config, q: Queue)
    requires Sorted(q.time, q.tree) && q.tree != [] && q.sending.None? && q.previous.None? && !q.job
    requires (forall f :: f in q.tree <==> f in q.lens) && (forall f :: f in q.lens ==> q.lens[f] <= cfg.mtu)
    ensures Structure(cfg, Schedule(q))
  {
    var r := Schedule(q);
    var f := q.tree[0];
    assert q.tree == [f] + r.tree;
    assert f in q.tree;
    forall i | 0 <= i < |r.tree| ensures r.tree[i] != f { assert Before(q.time, q.tree[0], q.tree[i + 1]); }
    forall g | g in r.tree ensures q.time[f] <= q.time[g] { SortedFirst(q, g); }
  }

  lemma RaiseKeepsSorted(time: map<nat, nat>, tree: seq<nat>, f: nat, now: nat)
    requires Sorted(time, tree) && f !in tree && f in time
    ensures Sorted(time[f := now], tree)
  {
    var t := time[f := now];
    forall i, j | 0 <= i < j < |tree| ensures Before(t, tree[i], tree[j]) {
      assert Before(time, tree[i], tree[j]) && tree[i] in tree && tree[j] in tree;
    }
  }

  lemma EnqueueKeeps(cfg: Config, q: Queue, f: nat, len: nat)
    requires Structure(cfg, q) && Enabled(cfg, q, Send(f, len))
    ensures var r := Enqueue(q, f, len);
            && Sorted(r.time, r.tree) && r.tree != [] && r.tree[0] in r.tree && r.time.Keys == q.time.Keys
            && (forall g :: g in r.tree <==> g in q.tree || g == f)
            && (forall g :: g in q.time && g != f ==> r.time[g] == q.time[g])
            && (q.sending.Some? ==> r.time[f] >= q.time[q.sending.value])
  {
    RaiseKeepsSorted(q.time, q.tree, f, CurrentTime(q));
    InsertKeepsSorted(Raised(q, f), q.tree, f);
  }

  lemma SendKeeps(cfg: Config, q: Queue, f: nat, len: nat)
    requires Structure(cfg, q) && Enabled(cfg, q, Send(f, len))
    ensures Structure(cfg, DoSend(q, f, len))
  {
    hide Sorted, Insert, Raised;
    EnqueueKeeps(cfg, q, f, len);
    if q.sending.None? && !q.job {
      ScheduleKeeps(cfg, Enqueue(q, f, len));
    }
  }

  lemma ChargeKeeps(cfg: Config, q: Queue, shift: nat)
    requires Structure(cfg, q) && q.sending.Some? && SafeShift(cfg, q, OutputDone, shift)
    ensures Structure(cfg, DoDone(cfg.weight, q, shift))
  {
    var r := DoDone(cfg.weight, q, shift);
    forall i, j | 0 <= i < j < |q.tree| ensures Before(r.time, q.tree[i], q.tree[j]) {
      assert Before(q.time, q.tree[i], q.tree[j]) && q.tree[i] in q.tree && q.tree[j] in q.tree;
    }
  }

  lemma JobKeeps(cfg: Config, q: Queue)
    requires Structure(cfg, q) && q.job
    ensures Structure(cfg, DoJob(q))
  {
    var r := q.(previous := None, job := false);
    if r.tree != [] {
      assert r.tree[0] in r.tree;
      ScheduleKeeps(cfg, r);
    }
  }

  lemma FreeKeeps(cfg: Config, q: Queue, f: nat)
    requires Structure(cfg, q) && Enabled(cfg, q, FreeFlow(f))
    ensures Structure(cfg, DoFree(q, f))
  {
    WithoutKeepsSorted(q.time, q.tree, f);
    if q.tree == [] { assert Without(q.tree, f) == []; }
  }

  lemma StepKeepsStructure(cfg: Config, q: Queue, e: Event, shift: nat)
    requires Structure(cfg, q) && Enabled(cfg, q, e) && SafeShift(cfg, q, e, shift)
    ensures Structure(cfg, StepShift(cfg, q, e, shift))
  {
    match e
    case Send(f, len) => SendKeeps(cfg, q, f, len);
    case OutputDone => ChargeKeeps(cfg, q, shift);
    case RunJob => JobKeeps(cfg, q);
    case AddFlow(f) => AddKeeps(cfg, q, f);
    case FreeFlow(f) => FreeKeeps(cfg, q, f);
  }

  lemma AddKeeps(cfg: Config, q: Queue, f: nat)
    requires Structure(cfg, q) && f !in q.time
    ensures Structure(cfg, q.(flows := q.flows + [f], time := q.time[f := 0]))
  {
    var t := q.time[f := 0];
    forall i, j | 0 <= i < j < |q.tree| ensures Before(t, q.tree[i], q.tree[j]) {
      assert Before(q.time, q.tree[i], q.tree[j]) && q.tree[i] in q.tree && q.tree[j] in q.tree;
    }
  }

  /**
   * Every event the users may cause keeps the queue whole: clocks within range, the tree sorted although
   * its keys are shifted under it, a send in progress or a job pending whenever a flow waits, the flow
   * being sent never behind a waiting one.
   */
  lemma StepKeepsInv(cfg: Config, q: Queue, e: Event)
    requires Inv(cfg, q) && Enabled(cfg, q, e)
    ensures Inv(cfg, Step(cfg, q, e))
  {
    hide Structure, Sorted;
    if e.OutputDone? { SentFacts(cfg, q); OverflowLandsInRange(cfg, q); }
    if !e.OutputDone? { SafeUnlessDone(cfg, q, e); }
    StepKeepsStructure(cfg, q, e, ShiftFor(cfg, q, e));
    TimesKept(cfg, q, e);
  }

  lemma TimesKept(cfg: Config, q: Queue, e: Event)
    requires Inv(cfg, q) && Enabled(cfg, q, e)
    ensures var r := Step(cfg, q, e);
            && Distinct(r.flows) && (forall f :: f in r.flows <==> f in r.time)
            && (forall f :: f in r.time ==> r.time[f] <= cfg.maxTime)
  {
    if e.OutputDone? { OverflowLandsInRange(cfg, q); }
    if e.FreeFlow? { WithoutDistinct(q.flows, e.flow); }
    if e.Send? { CurrentTimeBound(cfg, q); }
  }

  lemma SentFacts(cfg: Config, q: Queue)
    requires Structure(cfg, q) && q.sending.Some?
    ensures q.sending.value in q.time
  {
  }

  lemma CurrentTimeBound(cfg: Config, q: Queue)
    requires Inv(cfg, q)
    ensures CurrentTime(q) <= cfg.maxTime
  {
    if q.tree != [] { assert q.tree[0] in q.tree; }
  }

  lemma SafeUnlessDone(cfg: Config, q: Queue, e: Event)
    requires Structure(cfg, q) && Enabled(cfg, q, e) && !e.OutputDone?
    ensures SafeShift(cfg, q, e, ShiftFor(cfg, q, e))
  {
  }

  // ----- which flows are active after an event -----

  lemma AfterSend(cfg: Config, u: Queue, f: nat, len: nat)
    requires Structure(cfg, u) && Enabled(cfg, u, Send(f, len))
    ensures var r := DoSend(u, f, len);
            && r.time.Keys == u.time.Keys && r.time[f] >= u.time[f]
            && (forall g :: g in u.time && g != f ==> r.time[g] == u.time[g])
            && (r.previous.Some? ==> r.previous == u.previous)
            && (forall g: nat :: Active(r, g) <==> Active(u, g) || g == f)
  {
    EnqueueKeeps(cfg, u, f, len);
    hide Sorted, Insert;
    var r, w := DoSend(u, f, len), Enqueue(u, f, len);
    assert r.tree != w.tree ==> w.tree == [w.tree[0]] + r.tree;
  }

  lemma AfterJob(cfg: Config, u: Queue)
    requires Structure(cfg, u) && u.job
    ensures var r := DoJob(u);
            && r.time == u.time && r.previous.None?
            && (forall g: nat :: Active(r, g) <==> Active(u, g) && u.previous != Some(g))
  {
    hide Sorted;
    var r := DoJob(u);
    if u.tree != [] {
      assert u.tree[0] in u.tree;
      assert u.tree == [u.tree[0]] + r.tree;
    }
  }

  lemma AfterDone(cfg: Config, u: Queue, shift: nat)
    requires Structure(cfg, u) && u.sending.Some?
    ensures u.sending.value in u.time
    ensures var r := DoDone(cfg.weight, u, shift);
            && r.previous == u.sending && (forall g: nat :: Active(r, g) <==> Active(u, g))
            && (shift == 0 ==>
                  r.time == u.time[u.sending.value := u.time[u.sending.value] + cfg.weight + u.sendingLen])
  {
  }

  lemma AfterFree(cfg: Config, u: Queue, f: nat)
    requires Structure(cfg, u) && Enabled(cfg, u, FreeFlow(f))
    ensures var r := DoFree(u, f);
            && r.time == u.time - {f} && (forall g: nat :: Active(r, g) <==> Active(u, g) && g != f)
            && (r.previous.Some? ==> r.previous == u.previous && r.previous != Some(f))
  {
  }
}
