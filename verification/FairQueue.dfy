/** The fair queue as it is built, with clocks in unsigned wrap-around arithmetic. */
module FairQueues {
  import opened Options
  import opened FairQueueSpec

  /** Unsigned subtraction and addition modulo maxTime + 1. */
  function WrapSub(maxTime: nat, a: nat, b: nat): nat { (a as int - b as int) % (maxTime + 1) }
  function WrapAdd(maxTime: nat, a: nat, b: nat): nat { (a + b) % (maxTime + 1) }

  lemma ModShift(x: int, m: nat, k: int)
    requires m > 0 && 0 <= x + k * m < m
    ensures x % m == x + k * m
  {
    var q, r := x / m, x % m;
    assert x == q * m + r;
    assert (q + k) * m == q * m + k * m;
    assert q + k >= 1 ==> (q + k) * m >= m;
    assert q + k <= -1 ==> (q + k) * m + m <= 0;
  }

  /** Below zero and back: the two wraps cancel. */
  lemma UnderflowThenOverflow(maxTime: nat, t: nat, shift: nat, amount: nat)
    requires t <= maxTime && shift <= maxTime && amount <= maxTime
    requires 0 <= t + amount - shift <= maxTime
    ensures WrapAdd(maxTime, WrapSub(maxTime, t, shift), amount) == t + amount - shift
  {
    var m := maxTime + 1;
    if t >= shift {
      ModShift(t - shift, m, 0);
      ModShift(t - shift + amount, m, 0);
    } else {
      ModShift(t - shift, m, 1);
      ModShift(t - shift + m + amount, m, -1);
    }
  }

  lemma NoWrap(maxTime: nat, a: nat, b: nat)
    requires b <= a <= maxTime
    ensures WrapSub(maxTime, a, b) == a - b
  {
    ModShift(a - b, maxTime + 1, 0);
  }

  lemma SendFacts(cfg: Config, q: Queue)
    requires Inv(cfg, q)
    ensures forall f :: f in q.tree ==> f in q.time && f in q.lens
    ensures (q.sending.Some? ==> q.sending.value in q.time) && (q.previous.Some? ==> q.previous.value in q.time)
  {
  }

  lemma SendingFacts(cfg: Config, q: Queue)
    requires Inv(cfg, q) && q.sending.Some?
    ensures var s := q.sending.value;
            s in q.time && s !in q.tree && forall f :: f in q.tree ==> f in q.time && q.time[s] <= q.time[f]
  {
  }

  class FairQueue {
    const cfg: Config
    var flows: seq<nat>
    var time: map<nat, nat>
    var tree: seq<nat>
    var lens: map<nat, nat>
    var sendingFlow: Option<nat>
    var sendingLen: nat
    var previousFlow: Option<nat>
    var scheduleJob: bool
    var freeing: bool

    function Contents(): Queue
      reads this
    {
      Queue(flows, time, tree, lens, sendingFlow, sendingLen, previousFlow, scheduleJob)
    }

    ghost predicate Valid()
      reads this
    {
      if freeing then Linked(Contents()) else Inv(cfg, Contents())
    }

    constructor (cfg: Config)
      requires cfg.Valid()
      ensures Valid() && !freeing && this.cfg == cfg && Contents() == Empty
    {
      this.cfg := cfg;
      flows, time, tree, lens := [], map[], [], map[];
      sendingFlow, sendingLen, previousFlow, scheduleJob, freeing := None, 0, None, false, false;
    }

    /** get_current_time */
    method GetCurrentTime() returns (now: nat)
      requires Structure(cfg, Contents())
      ensures now == CurrentTime(Contents())
    {
      if sendingFlow.Some? {
        return time[sendingFlow.value];
      }
      now := 0;
      var have := false;
      if tree != [] {
        assert tree[0] in tree;
        now := time[tree[0]];
        have := true;
      }
      if previousFlow.Some? {
        if !have || time[previousFlow.value] < now {
          now := time[previousFlow.value];
          have := true;
        }
      }
      if !have {
        now := 0;
      }
    }

    /** increment_sent_flow */
    method IncrementSentFlow(flow: nat, amount: nat)
      requires cfg.Valid() && Distinct(flows) && (forall f :: f in flows <==> f in time)
      requires (forall f :: f in time ==> time[f] <= cfg.maxTime)
      requires flow in time && flow !in tree && amount <= cfg.maxTime
      requires forall f :: f in tree ==> f in time && time[flow] <= time[f]
      modifies this`time
      ensures time == Charged(old(time), flow, amount, ShiftBy(cfg.maxTime, old(time), tree, flow, amount))
    {
      hide WrapSub, Minus, Charged, ShiftBy, Distinct;
      ghost var before := time;
      ghost var shift := ShiftBy(cfg.maxTime, time, tree, flow, amount);
      ShiftIs(time, tree, flow, amount);
      if amount > cfg.maxTime - time[flow] {
        // the least queued clock, or this flow's own if it is alone
        var subtract := time[flow];
        if tree != [] {
          subtract := time[tree[0]];
        }
        for k := 0 to |flows|
          invariant time.Keys == before.Keys
          invariant forall j :: 0 <= j < |flows| ==>
            time[flows[j]] == if j < k then Shifted(before, flow, flows[j], shift) else before[flows[j]]
        {
          var f := flows[k];
          assert f in time && forall j :: 0 <= j < |flows| && j != k ==> flows[j] != f by { DistinctAt(flows, k); }
          ShiftedIs(before, flow, f, shift);
          if subtract > time[f] && f != flow {
            time := time[f := 0];
          } else {
            time := time[f := WrapSub(cfg.maxTime, time[f], subtract)];
          }
        }
        forall f | f in before ensures time[f] == Shifted(before, flow, f, shift) {
          assert f in flows;
        }
      }
      ChargedIs(before, time, tree, flow, amount);
      time := time[flow := WrapAdd(cfg.maxTime, time[flow], amount)];
    }

    ghost function Shifted(before: map<nat, nat>, flow: nat, f: nat, subtract: nat): nat
      requires f in before
    {
      if f == flow then WrapSub(cfg.maxTime, before[f], subtract) else Minus(before[f], subtract)
    }

    lemma ShiftIs(time: map<nat, nat>, tree: seq<nat>, flow: nat, amount: nat)
      requires flow in time && forall f :: f in tree ==> f in time
      ensures tree != [] ==> tree[0] in time
      ensures time[flow] + amount > cfg.maxTime ==>
                ShiftBy(cfg.maxTime, time, tree, flow, amount) == if tree == [] then time[flow] else time[tree[0]]
    {
      assert forall i :: 0 <= i < |tree| ==> tree[i] in tree;
    }

    lemma ShiftedIs(before: map<nat, nat>, flow: nat, f: nat, subtract: nat)
      requires f in before && before[f] <= cfg.maxTime
      ensures Shifted(before, flow, f, subtract) ==
                if subtract > before[f] && f != flow then 0 else WrapSub(cfg.maxTime, before[f], subtract)
    {
      if subtract <= before[f] { NoWrap(cfg.maxTime, before[f], subtract); }
    }

    lemma DistinctAt(s: seq<nat>, k: nat)
      requires Distinct(s) && k < |s|
      ensures s[k] in s && forall j :: 0 <= j < |s| && j != k ==> s[j] != s[k]
    {
    }

    /** Shifting, where a clock overflows, and then adding comes to the specified charge. */
    lemma ChargedIs(before: map<nat, nat>, after: map<nat, nat>, tree: seq<nat>, flow: nat, amount: nat)
      requires flow in before && after.Keys == before.Keys && amount <= cfg.maxTime
      requires forall f :: f in before ==> before[f] <= cfg.maxTime
      requires forall f :: f in tree ==> f in before && before[flow] <= before[f]
      requires var shift := ShiftBy(cfg.maxTime, before, tree, flow, amount);
               if before[flow] + amount > cfg.maxTime then forall f :: f in before ==>
                 after[f] == Shifted(before, flow, f, shift)
               else after == before
      ensures after[flow := WrapAdd(cfg.maxTime, after[flow], amount)]
                == Charged(before, flow, amount, ShiftBy(cfg.maxTime, before, tree, flow, amount))
    {
      var shift := ShiftBy(cfg.maxTime, before, tree, flow, amount);
      ShiftIs(before, tree, flow, amount);
      assert tree != [] ==> tree[0] in tree;
      if before[flow] + amount > cfg.maxTime {
        UnderflowThenOverflow(cfg.maxTime, before[flow], shift, amount);
      } else {
        ModShift(before[flow] + amount, cfg.maxTime + 1, 0);
      }
    }

    /** schedule */
    method DoSchedule()
      requires tree != [] && tree[0] in lens && sendingFlow.None?
      modifies this`tree, this`lens, this`sendingFlow, this`sendingLen
      ensures Contents() == Schedule(old(Contents()))
    {
      var qflow := tree[0];
      tree := tree[1..];
      sendingFlow := Some(qflow);
      sendingLen := lens[qflow];
      lens := lens - {qflow};
    }

    /** schedule_job_handler */
    method ScheduleJobHandler()
      requires Valid() && !freeing && scheduleJob
      modifies this
      ensures Valid() && !freeing && Contents() == Step(cfg, old(Contents()), RunJob)
    {
      StepKeepsInv(cfg, Contents(), RunJob);
      scheduleJob := false;
      previousFlow := None;
      if tree != [] {
        assert tree[0] in tree;
        DoSchedule();
      }
    }

    /** input_handler_send */
    method InputHandlerSend(flow: nat, len: nat)
      requires Valid() && !freeing && Enabled(cfg, Contents(), Send(flow, len))
      modifies this
      ensures Valid() && !freeing && Contents() == Step(cfg, old(Contents()), Send(flow, len))
    {
      hide Sorted, Distinct, Insert, CurrentTime, Structure, Linked;
      SendFacts(cfg, Contents());
      StepKeepsInv(cfg, Contents(), Send(flow, len));
      EnqueueKeeps(cfg, Contents(), flow, len);
      if previousFlow == Some(flow) {
        previousFlow := None;
      } else {
        // an idle flow gets no credit for its past
        var now := GetCurrentTime();
        if time[flow] < now {
          time := time[flow := now];
        }
      }
      assert time == Raised(old(Contents()), flow);
      tree := Insert(time, tree, flow);
      lens := lens[flow := len];
      assert Contents() == Enqueue(old(Contents()), flow, len);
      if sendingFlow.None? && !scheduleJob {
        DoSchedule();
      }
    }

    /** output_handler_done */
    method OutputHandlerDone()
      requires Valid() && !freeing && sendingFlow.Some?
      modifies this
      ensures Valid() && !freeing && Contents() == Step(cfg, old(Contents()), OutputDone)
    {
      hide Sorted, Distinct, Charged, ShiftBy;
      StepKeepsInv(cfg, Contents(), OutputDone);
      var flow := sendingFlow.value;
      sendingFlow := None;
      // it stays active until the job runs, so that it may send again at once
      previousFlow := Some(flow);
      SendingFacts(cfg, old(Contents()));
      IncrementSentFlow(flow, cfg.weight + sendingLen);
      scheduleJob := true;
    }

    /** PacketPassFairQueueFlow_Init */
    method FlowInit(flow: nat)
      requires Valid() && !freeing && flow !in time
      modifies this
      ensures Valid() && !freeing && Contents() == Step(cfg, old(Contents()), AddFlow(flow))
    {
      StepKeepsInv(cfg, Contents(), AddFlow(flow));
      time := time[flow := 0];
      flows := flows + [flow];
    }

    /** PacketPassFairQueue_PrepareFree: from now on flows may be freed in the middle of a send. */
    method PrepareFree()
      requires Valid()
      modifies this`freeing
      ensures Valid() && freeing && Contents() == old(Contents())
    {
      freeing := true;
    }

    /** PacketPassFairQueueFlow_Free */
    method FlowFree(flow: nat)
      requires Valid() && flow in time && (freeing || sendingFlow != Some(flow))
      modifies this
      ensures Valid() && freeing == old(freeing) && Contents() == DoFree(old(Contents()), flow)
    {
      hide Sorted, Distinct, Without;
      if freeing {
        FreeKeepsLinked(Contents(), flow);
      } else {
        StepKeepsInv(cfg, Contents(), FreeFlow(flow));
      }
      if sendingFlow == Some(flow) {
        sendingFlow := None;
      }
      if previousFlow == Some(flow) {
        previousFlow := None;
      }
      if flow in lens {
        tree := Without(tree, flow);
        lens := lens - {flow};
      } else {
        WithoutNone(tree, flow);
        assert lens - {flow} == lens;
      }
      flows := Without(flows, flow);
      time := time - {flow};
    }
  }

  lemma {:induction false} WithoutNone(s: seq<nat>, f: nat)
    requires f !in s
    ensures Without(s, f) == s
  {
    if s != [] {
      assert s == [s[0]] + s[1..];
      WithoutNone(s[1..], f);
    }
  }
}
