/**
 * What moving the clocks back can change. While some flow is active, nothing; but the current time of an
 * idle queue is 0, and then clocks that were clipped to 0 stand where unbounded ones would not.
 */
module FairQueueClipping {
  import opened Options
  import opened FairQueueSpec
  import opened FairQueueRuns
  import opened Division

  predicate Idle(q: Queue) {
    q.tree == [] && q.sending.None? && q.previous.None? && !q.job && q.lens == map[]
  }

  // ----- runs of unbounded clocks, and runs of the queue that overflow nowhere -----

  /** All events are allowed; if `bounded`, no clock overflows. */
  ghost predicate Goes(cfg: Config, u: Queue, evs: seq<Event>, bounded: bool)
    requires Structure(cfg, u)
    decreases |evs|
  {
    evs == [] ||
      (Enabled(cfg, u, evs[0]) && (bounded ==> ShiftFor(cfg, u, evs[0]) == 0)
       && (StepKeepsStructure(cfg, u, evs[0], 0); Goes(cfg, IdealStep(cfg, u, evs[0]), evs[1..], bounded)))
  }

  ghost function IdealAfter(cfg: Config, u: Queue, evs: seq<Event>): (r: Queue)
    requires Structure(cfg, u)
    ensures Structure(cfg, r)
    decreases |evs|
  {
    if evs == [] || !Enabled(cfg, u, evs[0]) then u
    else
      StepKeepsStructure(cfg, u, evs[0], 0);
      IdealAfter(cfg, IdealStep(cfg, u, evs[0]), evs[1..])
  }

  lemma {:induction false} GoesOn(cfg: Config, u: Queue, a: seq<Event>, b: seq<Event>, bounded: bool)
    requires Structure(cfg, u) && Goes(cfg, u, a, bounded)
    ensures Goes(cfg, u, a + b, bounded) == Goes(cfg, IdealAfter(cfg, u, a), b, bounded)
    ensures IdealAfter(cfg, u, a + b) == IdealAfter(cfg, IdealAfter(cfg, u, a), b)
    ensures IdealOutput(cfg, u, a + b) == IdealOutput(cfg, u, a) + IdealOutput(cfg, IdealAfter(cfg, u, a), b)
    decreases |a|
  {
    hide Structure, StepShift, ShiftFor, Enabled, Started;
    if a == [] {
      assert a + b == b;
    } else {
      assert (a + b)[0] == a[0] && (a + b)[1..] == a[1..] + b;
      SafeZero(cfg, u, a[0]);
      StepKeepsStructure(cfg, u, a[0], 0);
      GoesOn(cfg, IdealStep(cfg, u, a[0]), a[1..], b, bounded);
    }
  }

  /** Where no clock overflows, the queue is the one with unbounded clocks. */
  lemma {:induction false} NoOverflow(cfg: Config, q: Queue, evs: seq<Event>)
    requires Inv(cfg, q) && Goes(cfg, q, evs, true)
    ensures Allowed(cfg, q, evs) && Plain(cfg, q, evs)
    ensures After(cfg, q, evs) == IdealAfter(cfg, q, evs) && Output(cfg, q, evs) == IdealOutput(cfg, q, evs)
    decreases |evs|
  {
    hide Structure, StepShift, ShiftFor, Enabled, Started, Distinct;
    if evs != [] {
      StepKeepsInv(cfg, q, evs[0]);
      NoOverflow(cfg, Step(cfg, q, evs[0]), evs[1..]);
    }
  }

  /** From the first overflow on, whenever a flow queues a packet some flow is active. */
  ghost predicate Plain(cfg: Config, q: Queue, evs: seq<Event>)
    requires Inv(cfg, q) && Allowed(cfg, q, evs)
    decreases |evs|
  {
    evs == [] ||
      (StepKeepsInv(cfg, q, evs[0]);
       var r := Step(cfg, q, evs[0]);
       if ShiftFor(cfg, q, evs[0]) == 0 then Plain(cfg, r, evs[1..]) else Stretch(cfg, r, evs[1..]))
  }

  /** By how much a run moves the clocks back. */
  ghost function TotalShift(cfg: Config, q: Queue, evs: seq<Event>): nat
    requires Inv(cfg, q) && Allowed(cfg, q, evs)
    decreases |evs|
  {
    if evs == [] then 0
    else
      StepKeepsInv(cfg, q, evs[0]);
      ShiftFor(cfg, q, evs[0]) + TotalShift(cfg, Step(cfg, q, evs[0]), evs[1..])
  }

  /** The clocks at the end of an active stretch are the unbounded ones moved back. */
  lemma {:induction false} StretchEnds(cfg: Config, q: Queue, u: Queue, d: nat, evs: seq<Event>)
    requires Inv(cfg, q) && Structure(cfg, u) && MovedBack(q, u, d)
    requires Allowed(cfg, q, evs) && Stretch(cfg, q, evs)
    ensures MovedBack(After(cfg, q, evs), IdealAfter(cfg, u, evs), d + TotalShift(cfg, q, evs))
    decreases |evs|
  {
    hide Structure, MovedBack, Step, IdealStep, ShiftFor, Distinct;
    if evs != [] {
      var e := evs[0];
      StepMoved(cfg, q, u, d, e);
      StepKeepsInv(cfg, q, e);
      StretchEnds(cfg, Step(cfg, q, e), IdealStep(cfg, u, e), d + ShiftFor(cfg, q, e), evs[1..]);
    }
  }

  /** Up to the first time the queue is idle after an overflow, nothing is seen of the clocks being moved back. */
  lemma {:induction false} PlainAgrees(cfg: Config, q: Queue, evs: seq<Event>)
    requires Inv(cfg, q) && Allowed(cfg, q, evs) && Plain(cfg, q, evs)
    ensures Output(cfg, q, evs) == IdealOutput(cfg, q, evs)
    ensures MovedBack(After(cfg, q, evs), IdealAfter(cfg, q, evs), TotalShift(cfg, q, evs))
    decreases |evs|
  {
    hide Structure, StepShift, ShiftFor, Distinct, Started, Enabled;
    if evs != [] {
      var e := evs[0];
      StepKeepsInv(cfg, q, e);
      if ShiftFor(cfg, q, e) == 0 {
        PlainAgrees(cfg, Step(cfg, q, e), evs[1..]);
      } else {
        ShiftStep(cfg, q, e);
        ShiftsCannotBeSeen(cfg, Step(cfg, q, e), IdealStep(cfg, q, e), ShiftFor(cfg, q, e), evs[1..]);
        StretchEnds(cfg, Step(cfg, q, e), IdealStep(cfg, q, e), ShiftFor(cfg, q, e), evs[1..]);
      }
    }
  }

  lemma ShiftStep(cfg: Config, q: Queue, e: Event)
    requires Inv(cfg, q) && Enabled(cfg, q, e) && ShiftFor(cfg, q, e) != 0
    ensures Structure(cfg, IdealStep(cfg, q, e))
    ensures MovedBack(Step(cfg, q, e), IdealStep(cfg, q, e), ShiftFor(cfg, q, e))
    ensures Started(q, Step(cfg, q, e)) == Started(q, IdealStep(cfg, q, e))
  {
    StepMoved(cfg, q, q, 0, e);
    SameShape(Step(cfg, q, e), IdealStep(cfg, q, e), ShiftFor(cfg, q, e));
  }

  /** A run moves the clocks back by nothing, or by nearly the whole range. */
  lemma {:induction false} TotalIsLarge(cfg: Config, q: Queue, evs: seq<Event>)
    requires Inv(cfg, q) && Allowed(cfg, q, evs)
    ensures var d := TotalShift(cfg, q, evs); d == 0 || d + cfg.weight + cfg.mtu > cfg.maxTime
    decreases |evs|
  {
    hide Structure, Step, Distinct, ShiftFor;
    if evs != [] {
      StepKeepsInv(cfg, q, evs[0]);
      if evs[0].OutputDone? { ShiftIsLarge(cfg, q); } else { NoShift(cfg, q, evs[0]); }
      TotalIsLarge(cfg, Step(cfg, q, evs[0]), evs[1..]);
    }
  }

  lemma NoShift(cfg: Config, q: Queue, e: Event)
    requires Structure(cfg, q) && Enabled(cfg, q, e) && !e.OutputDone?
    ensures ShiftFor(cfg, q, e) == 0
  {
  }

  // ----- one event after the other -----

  lemma GoesOne(cfg: Config, u: Queue, e: Event, rest: seq<Event>, bounded: bool)
    requires Structure(cfg, u) && Enabled(cfg, u, e) && (bounded ==> ShiftFor(cfg, u, e) == 0)
    ensures Structure(cfg, IdealStep(cfg, u, e))
    ensures var r := IdealStep(cfg, u, e);
            && Goes(cfg, u, [e] + rest, bounded) == Goes(cfg, r, rest, bounded)
            && IdealAfter(cfg, u, [e] + rest) == IdealAfter(cfg, r, rest)
            && IdealOutput(cfg, u, [e] + rest) == Started(u, r) + IdealOutput(cfg, r, rest)
  {
    StepKeepsStructure(cfg, u, e, 0);
    assert ([e] + rest)[0] == e && ([e] + rest)[1..] == rest;
    hide Structure, StepShift, ShiftFor, Enabled;
  }

  lemma AllowedOne(cfg: Config, q: Queue, e: Event, rest: seq<Event>)
    requires Inv(cfg, q) && Enabled(cfg, q, e) && Inv(cfg, Step(cfg, q, e))
    requires Allowed(cfg, Step(cfg, q, e), rest)
    ensures Allowed(cfg, q, [e] + rest)
    ensures After(cfg, q, [e] + rest) == After(cfg, Step(cfg, q, e), rest)
    ensures Output(cfg, q, [e] + rest) == Started(q, Step(cfg, q, e)) + Output(cfg, Step(cfg, q, e), rest)
    ensures Stretch(cfg, Step(cfg, q, e), rest) && (e.Send? ==> exists f :: f in q.time && Active(q, f)) ==>
              Stretch(cfg, q, [e] + rest)
    ensures ShiftFor(cfg, q, e) == 0 ==> Plain(cfg, q, [e] + rest) == Plain(cfg, Step(cfg, q, e), rest)
  {
    hide Structure, StepShift, ShiftFor, Enabled, Inv;
    assert ([e] + rest)[0] == e && ([e] + rest)[1..] == rest;
  }

  lemma {:induction false} AllowedOn(cfg: Config, q: Queue, a: seq<Event>, b: seq<Event>)
    requires Inv(cfg, q) && Goes(cfg, q, a, true) && Inv(cfg, IdealAfter(cfg, q, a))
    requires Allowed(cfg, IdealAfter(cfg, q, a), b)
    ensures Allowed(cfg, q, a + b) && After(cfg, q, a + b) == After(cfg, IdealAfter(cfg, q, a), b)
    ensures Output(cfg, q, a + b) == IdealOutput(cfg, q, a) + Output(cfg, IdealAfter(cfg, q, a), b)
    ensures Plain(cfg, q, a + b) == Plain(cfg, IdealAfter(cfg, q, a), b)
    decreases |a|
  {
    hide Structure, StepShift, ShiftFor, Enabled, Distinct, Started;
    if a == [] {
      assert a + b == b;
    } else {
      assert a + b == [a[0]] + (a[1..] + b);
      StepKeepsInv(cfg, q, a[0]);
      AllowedOn(cfg, Step(cfg, q, a[0]), a[1..], b);
      AllowedOne(cfg, q, a[0], a[1..] + b);
    }
  }

  lemma {:induction false} StretchIsPlain(cfg: Config, q: Queue, evs: seq<Event>)
    requires Inv(cfg, q) && Allowed(cfg, q, evs) && Stretch(cfg, q, evs)
    ensures Plain(cfg, q, evs)
    decreases |evs|
  {
    hide Structure, StepShift, ShiftFor, Enabled, Distinct;
    if evs != [] {
      StepKeepsInv(cfg, q, evs[0]);
      StretchIsPlain(cfg, Step(cfg, q, evs[0]), evs[1..]);
    }
  }

  // ----- single steps -----

  /** Flow f is being sent, with only the flows of `tree`, all of length 0, queued behind it. */
  predicate SendingWith(q: Queue, f: nat, tree: seq<nat>) {
    && q.sending == Some(f) && q.sendingLen == 0 && q.previous.None? && !q.job
    && q.tree == tree && forall g :: g in q.lens ==> q.lens[g] == 0
  }

  /** Flow f was just sent, and the job is pending. */
  predicate SentWith(q: Queue, f: nat, tree: seq<nat>) {
    && q.sending.None? && q.previous == Some(f) && q.job
    && q.tree == tree && forall g :: g in q.lens ==> q.lens[g] == 0
  }

  lemma SendAlone(cfg: Config, q: Queue, f: nat)
    requires Structure(cfg, q) && Idle(q) && f in q.time
    ensures Enabled(cfg, q, Send(f, 0)) && ShiftFor(cfg, q, Send(f, 0)) == 0
    ensures var r := IdealStep(cfg, q, Send(f, 0));
            SendingWith(r, f, []) && r.time == q.time && r.flows == q.flows && Started(q, r) == [Packet(f, 0)]
  {
    var r := Enqueue(q, f, 0);
    assert r.tree == [f] && r.tree[1..] == [];
  }

  lemma SendBehind(cfg: Config, q: Queue, s: nat, f: nat)
    requires Structure(cfg, q) && SendingWith(q, s, []) && f in q.time && f != s
    ensures Enabled(cfg, q, Send(f, 0)) && ShiftFor(cfg, q, Send(f, 0)) == 0 && s in q.time
    ensures var r := IdealStep(cfg, q, Send(f, 0));
            && SendingWith(r, s, [f]) && r.flows == q.flows && Started(q, r) == []
            && r.time == if q.time[f] >= q.time[s] then q.time else q.time[f := q.time[s]]
  {
  }

  lemma SendThird(cfg: Config, q: Queue, s: nat, f: nat, g: nat)
    requires Structure(cfg, q) && SendingWith(q, s, [f]) && g in q.time && g != s && g != f
    requires s in q.time && q.time[g] >= q.time[s]
    ensures Enabled(cfg, q, Send(g, 0)) && ShiftFor(cfg, q, Send(g, 0)) == 0 && f in q.tree && f in q.time
    ensures var r := IdealStep(cfg, q, Send(g, 0));
            && SendingWith(r, s, if Before(q.time, f, g) then [f, g] else [g, f])
            && r.flows == q.flows && Started(q, r) == [] && r.time == q.time
  {
    assert f in q.tree;
    InsertSecond(q.time, f, g);
  }

  lemma InsertSecond(time: map<nat, nat>, f: nat, g: nat)
    requires f in time && g in time && f != g
    ensures Insert(time, [f], g) == if Before(time, f, g) then [f, g] else [g, f]
  {
    assert [f][1..] == [];
    assert Insert(time, [], g) == [g];
    assert !Before(time, g, f) ==> Insert(time, [f], g) == [f] + [g];
    assert Before(time, g, f) ==> Insert(time, [f], g) == [g] + [f];
  }

  lemma SendAgain(cfg: Config, q: Queue, s: nat, f: nat)
    requires Structure(cfg, q) && SentWith(q, s, [f]) && s != f
    ensures Enabled(cfg, q, Send(s, 0)) && ShiftFor(cfg, q, Send(s, 0)) == 0 && f in q.tree && f in q.time
    ensures s in q.time
    ensures var r := IdealStep(cfg, q, Send(s, 0));
            && r.tree == (if Before(q.time, f, s) then [f, s] else [s, f])
            && r.sending.None? && r.job && (forall g :: g in r.lens ==> r.lens[g] == 0)
            && r.flows == q.flows && Started(q, r) == [] && r.time == q.time
  {
    assert f in q.tree;
    InsertSecond(q.time, f, s);
  }

  /** The end of a send, the clocks moved back by `shift`. */
  lemma EndSend(cfg: Config, q: Queue, s: nat, tree: seq<nat>, shift: nat)
    requires Structure(cfg, q) && SendingWith(q, s, tree)
    ensures Enabled(cfg, q, OutputDone) && s in q.time
    ensures var r := StepShift(cfg, q, OutputDone, shift);
            && SentWith(r, s, tree) && r.flows == q.flows && Started(q, r) == []
            && r.time.Keys == q.time.Keys && r.time[s] == Minus(q.time[s] + cfg.weight, shift)
            && forall g :: g in q.time && g != s ==> r.time[g] == Minus(q.time[g], shift)
    ensures shift == 0 ==> StepShift(cfg, q, OutputDone, shift).time == q.time[s := q.time[s] + cfg.weight]
  {
  }

  lemma RunAlone(cfg: Config, q: Queue, s: nat)
    requires Structure(cfg, q) && SentWith(q, s, [])
    ensures Enabled(cfg, q, RunJob) && ShiftFor(cfg, q, RunJob) == 0
    ensures var r := IdealStep(cfg, q, RunJob);
            Idle(r) && r.time == q.time && r.flows == q.flows && Started(q, r) == []
  {
  }

  lemma RunFirst(cfg: Config, q: Queue)
    requires Structure(cfg, q) && q.sending.None? && q.job && q.tree != []
    requires forall g :: g in q.lens ==> q.lens[g] == 0
    ensures Enabled(cfg, q, RunJob) && ShiftFor(cfg, q, RunJob) == 0
    ensures Started(q, IdealStep(cfg, q, RunJob)) == [Packet(q.tree[0], 0)]
  {
    assert q.tree[0] in q.tree;
  }

  lemma AddIdle(cfg: Config, q: Queue, f: nat)
    requires Structure(cfg, q) && f !in q.time
    ensures Enabled(cfg, q, AddFlow(f)) && ShiftFor(cfg, q, AddFlow(f)) == 0
    ensures var r := IdealStep(cfg, q, AddFlow(f));
            (Idle(q) ==> Idle(r)) && r.time == q.time[f := 0] && r.flows == q.flows + [f] && Started(q, r) == []
  {
  }

  // ----- rounds of one flow on an idle queue -----

  const End: seq<Event> := []

  /** A flow sends a packet while no other has one. */
  function Round(f: nat, rest: seq<Event>): seq<Event> {
    [Send(f, 0)] + ([OutputDone] + ([RunJob] + rest))
  }

  function Rounds(f: nat, n: nat): seq<Event> {
    if n == 0 then [] else Round(f, Rounds(f, n - 1))
  }

  function Copies(p: Packet, n: nat): seq<Packet> {
    if n == 0 then [] else [p] + Copies(p, n - 1)
  }

  lemma RoundRuns(cfg: Config, u: Queue, f: nat, rest: seq<Event>, bounded: bool) returns (r: Queue)
    requires Structure(cfg, u) && Idle(u) && f in u.time && (bounded ==> u.time[f] + cfg.weight <= cfg.maxTime)
    ensures Structure(cfg, r) && Idle(r) && r.time == u.time[f := u.time[f] + cfg.weight] && r.flows == u.flows
    ensures Goes(cfg, u, Round(f, rest), bounded) == Goes(cfg, r, rest, bounded)
    ensures IdealAfter(cfg, u, Round(f, rest)) == IdealAfter(cfg, r, rest)
    ensures IdealOutput(cfg, u, Round(f, rest)) == [Packet(f, 0)] + IdealOutput(cfg, r, rest)
  {
    hide Structure, StepShift, Started, Enabled;
    SendAlone(cfg, u, f);
    GoesOne(cfg, u, Send(f, 0), [OutputDone] + ([RunJob] + rest), bounded);
    var a := IdealStep(cfg, u, Send(f, 0));
    EndSend(cfg, a, f, [], 0);
    GoesOne(cfg, a, OutputDone, [RunJob] + rest, bounded);
    var b := IdealStep(cfg, a, OutputDone);
    RunAlone(cfg, b, f);
    GoesOne(cfg, b, RunJob, rest, bounded);
    r := IdealStep(cfg, b, RunJob);
  }

  lemma {:induction false} RoundsRun(cfg: Config, u: Queue, f: nat, n: nat, rest: seq<Event>, bounded: bool)
      returns (r: Queue)
    requires Structure(cfg, u) && Idle(u) && f in u.time && (bounded ==> u.time[f] + n * cfg.weight <= cfg.maxTime)
    ensures Structure(cfg, r) && Idle(r) && r.time == u.time[f := u.time[f] + n * cfg.weight] && r.flows == u.flows
    ensures Goes(cfg, u, Rounds(f, n) + rest, bounded) == Goes(cfg, r, rest, bounded)
    ensures IdealAfter(cfg, u, Rounds(f, n) + rest) == IdealAfter(cfg, r, rest)
    ensures IdealOutput(cfg, u, Rounds(f, n) + rest) == Copies(Packet(f, 0), n) + IdealOutput(cfg, r, rest)
    decreases n
  {
    hide Structure, Goes, IdealAfter, IdealOutput, Idle, Rounds, Round, Copies;
    TimesAdd(u.time, f, n, cfg.weight);
    RoundsShape(f, n, rest);
    if n == 0 {
      r := u;
      CopiesShape(Packet(f, 0), n, IdealOutput(cfg, r, rest));
    } else {
      var a := RoundRuns(cfg, u, f, Rounds(f, n - 1) + rest, bounded);
      r := RoundsRun(cfg, a, f, n - 1, rest, bounded);
      CopiesShape(Packet(f, 0), n, IdealOutput(cfg, r, rest));
    }
  }

  lemma TimesAdd(time: map<nat, nat>, f: nat, n: nat, w: nat)
    requires f in time
    ensures n == 0 ==> time[f := time[f] + n * w] == time
    ensures n > 0 ==>
              && n * w == (n - 1) * w + w && (n - 1) * w >= 0
              && time[f := time[f] + w][f := time[f] + w + (n - 1) * w] == time[f := time[f] + n * w]
  {
    if n > 0 {
      Nonnegative(n - 1, w);
      assert n * w == (n - 1) * w + w;
    }
  }

  lemma RoundsShape(f: nat, n: nat, rest: seq<Event>)
    ensures Rounds(f, n) + rest == if n == 0 then rest else Round(f, Rounds(f, n - 1) + rest)
  {
  }

  lemma CopiesShape(p: Packet, n: nat, out: seq<Packet>)
    ensures Copies(p, n) + out == if n == 0 then out else [p] + (Copies(p, n - 1) + out)
  {
  }

  lemma Nonnegative(a: nat, b: nat)
    ensures a * b >= 0
  {
  }

  // ----- a clock that stands too low shows -----

  /** A newcomer and f wait behind a packet of another newcomer. */
  function Contest(f: nat, d: nat, e: nat): seq<Event> {
    [AddFlow(d)] + ([AddFlow(e)] + ([Send(e, 0)] + ([Send(f, 0)] + ([Send(d, 0)] + ([OutputDone] + [RunJob])))))
  }

  /** After the contest with unbounded clocks. */
  lemma ContestRuns(cfg: Config, u: Queue, f: nat, d: nat, e: nat, bounded: bool)
    requires cfg.Valid() && Structure(cfg, u) && Idle(u) && f in u.time && d !in u.time && e !in u.time && f < d
    requires d != e
    ensures Goes(cfg, u, Contest(f, d, e), bounded)
    ensures IdealOutput(cfg, u, Contest(f, d, e)) == [Packet(e, 0), Packet(if u.time[f] == 0 then f else d, 0)]
  {
    hide Structure, StepShift, Started, Enabled, Goes, IdealAfter, IdealOutput, ShiftFor;
    AddIdle(cfg, u, d);
    GoesOne(cfg, u, AddFlow(d),
        [AddFlow(e)] + ([Send(e, 0)] + ([Send(f, 0)] + ([Send(d, 0)] + ([OutputDone] + [RunJob])))), bounded);
    var a := IdealStep(cfg, u, AddFlow(d));
    AddIdle(cfg, a, e);
    GoesOne(cfg, a, AddFlow(e), [Send(e, 0)] + ([Send(f, 0)] + ([Send(d, 0)] + ([OutputDone] + [RunJob]))), bounded);
    var b := IdealStep(cfg, a, AddFlow(e));
    assert b.time == u.time[d := 0][e := 0];
    SendAlone(cfg, b, e);
    GoesOne(cfg, b, Send(e, 0), [Send(f, 0)] + ([Send(d, 0)] + ([OutputDone] + [RunJob])), bounded);
    var c := IdealStep(cfg, b, Send(e, 0));
    SendBehind(cfg, c, e, f);
    GoesOne(cfg, c, Send(f, 0), [Send(d, 0)] + ([OutputDone] + [RunJob]), bounded);
    var g := IdealStep(cfg, c, Send(f, 0));
    assert g.time == b.time;
    SendThird(cfg, g, e, f, d);
    GoesOne(cfg, g, Send(d, 0), [OutputDone] + [RunJob], bounded);
    ContestEnds(cfg, IdealStep(cfg, g, Send(d, 0)), f, d, e, bounded);
  }

  lemma ContestEnds(cfg: Config, q: Queue, f: nat, d: nat, e: nat, bounded: bool)
    requires cfg.Valid() && Structure(cfg, q) && f < d && d != e && f != e
    requires f in q.time && d in q.time && e in q.time && q.time[e] == 0 && q.time[d] == 0
    requires SendingWith(q, e, if Before(q.time, f, d) then [f, d] else [d, f])
    ensures Goes(cfg, q, [OutputDone] + [RunJob], bounded)
    ensures IdealOutput(cfg, q, [OutputDone] + [RunJob]) == [Packet(if q.time[f] == 0 then f else d, 0)]
  {
    EndSend(cfg, q, e, q.tree, 0);
    NoShiftIfItFits(cfg, q);
    hide Structure, StepShift, Started, Enabled, ShiftFor;
    GoesOne(cfg, q, OutputDone, [RunJob], bounded);
    var r := IdealStep(cfg, q, OutputDone);
    RunFirst(cfg, r);
    assert [RunJob] + End == [RunJob];
    GoesOne(cfg, r, RunJob, End, bounded);
  }

  lemma NoShiftIfItFits(cfg: Config, q: Queue)
    requires Structure(cfg, q) && q.sending.Some?
    ensures q.sending.value in q.time
    ensures q.time[q.sending.value] + cfg.weight + q.sendingLen <= cfg.maxTime ==> ShiftFor(cfg, q, OutputDone) == 0
  {
  }

  /** d is sent, f queues behind it, and d queues again as soon as it is done. */
  function Rematch(f: nat, d: nat): seq<Event> {
    [Send(d, 0)] + ([Send(f, 0)] + ([OutputDone] + ([Send(d, 0)] + [RunJob])))
  }

  lemma RematchRuns(cfg: Config, u: Queue, f: nat, d: nat)
    requires Structure(cfg, u) && Idle(u) && f in u.time && d in u.time && f < d && u.time[d] < u.time[f]
    ensures var next := if u.time[f] <= u.time[d] + cfg.weight then f else d;
            IdealOutput(cfg, u, Rematch(f, d)) == [Packet(d, 0), Packet(next, 0)]
  {
    hide Structure, StepShift, Started, Enabled, Goes, IdealAfter, IdealOutput, ShiftFor;
    SendAlone(cfg, u, d);
    GoesOne(cfg, u, Send(d, 0), [Send(f, 0)] + ([OutputDone] + ([Send(d, 0)] + [RunJob])), false);
    var a := IdealStep(cfg, u, Send(d, 0));
    SendBehind(cfg, a, d, f);
    GoesOne(cfg, a, Send(f, 0), [OutputDone] + ([Send(d, 0)] + [RunJob]), false);
    var b := IdealStep(cfg, a, Send(f, 0));
    EndSend(cfg, b, d, [f], 0);
    GoesOne(cfg, b, OutputDone, [Send(d, 0)] + [RunJob], false);
    var c := IdealStep(cfg, b, OutputDone);
    SendAgain(cfg, c, d, f);
    GoesOne(cfg, c, Send(d, 0), [RunJob], false);
    var g := IdealStep(cfg, c, Send(d, 0));
    RunFirst(cfg, g);
    assert [RunJob] + End == [RunJob];
    GoesOne(cfg, g, RunJob, End, false);
    NoOutput(cfg, IdealStep(cfg, g, RunJob));
  }

  lemma NoOutput(cfg: Config, u: Queue)
    requires Structure(cfg, u)
    ensures IdealOutput(cfg, u, End) == []
  {
  }

  /** The queue itself may run it too, overflow or not: from the first send on some flow is active. */
  lemma RematchAllowed(cfg: Config, q: Queue, f: nat, d: nat)
    requires Inv(cfg, q) && Idle(q) && f in q.time && d in q.time && f != d
    ensures Allowed(cfg, q, Rematch(f, d)) && Plain(cfg, q, Rematch(f, d))
  {
    hide Structure, StepShift, Started, Enabled, ShiftFor, Distinct, Allowed, Stretch, Plain;
    SendAlone(cfg, q, d);
    StepKeepsInv(cfg, q, Send(d, 0));
    var a := Step(cfg, q, Send(d, 0));
    SendBehind(cfg, a, d, f);
    StepKeepsInv(cfg, a, Send(f, 0));
    var b := Step(cfg, a, Send(f, 0));
    EndSend(cfg, b, d, [f], 0);
    EndSend(cfg, b, d, [f], ShiftFor(cfg, b, OutputDone));
    StepKeepsInv(cfg, b, OutputDone);
    var c := Step(cfg, b, OutputDone);
    SendAgain(cfg, c, d, f);
    StepKeepsInv(cfg, c, Send(d, 0));
    var g := Step(cfg, c, Send(d, 0));
    RunFirst(cfg, g);
    StepKeepsInv(cfg, g, RunJob);
    assert Active(a, d) && Active(c, d);
    NothingLeft(cfg, Step(cfg, g, RunJob));
    assert [RunJob] + End == [RunJob];
    AllowedOne(cfg, g, RunJob, End);
    AllowedOne(cfg, c, Send(d, 0), [RunJob]);
    AllowedOne(cfg, b, OutputDone, [Send(d, 0)] + [RunJob]);
    AllowedOne(cfg, a, Send(f, 0), [OutputDone] + ([Send(d, 0)] + [RunJob]));
    StretchIsPlain(cfg, a, [Send(f, 0)] + ([OutputDone] + ([Send(d, 0)] + [RunJob])));
    AllowedOne(cfg, q, Send(d, 0), [Send(f, 0)] + ([OutputDone] + ([Send(d, 0)] + [RunJob])));
  }

  lemma NothingLeft(cfg: Config, q: Queue)
    requires Inv(cfg, q)
    ensures Allowed(cfg, q, End) && Stretch(cfg, q, End) && After(cfg, q, End) == q
  {
  }

  // ----- when the future is the same -----

  /** Every run whose moves back cannot be seen for themselves sends the same packets from q and from u. */
  ghost predicate SameFuture(cfg: Config, q: Queue, u: Queue)
    requires Inv(cfg, q) && Structure(cfg, u)
  {
    forall evs :: Allowed(cfg, q, evs) && Plain(cfg, q, evs) ==> Output(cfg, q, evs) == IdealOutput(cfg, u, evs)
  }

  lemma Differs(cfg: Config, q: Queue, u: Queue, evs: seq<Event>)
    requires Inv(cfg, q) && Structure(cfg, u) && Allowed(cfg, q, evs) && Plain(cfg, q, evs)
    requires IdealOutput(cfg, q, evs) != IdealOutput(cfg, u, evs)
    ensures !SameFuture(cfg, q, u)
  {
    PlainAgrees(cfg, q, evs);
  }

  /** An address above f's and above those of all flows. */
  lemma {:induction false} Newcomer(s: seq<nat>, f: nat) returns (d: nat)
    ensures f < d && forall g :: g in s ==> g < d
  {
    if s == [] {
      d := f + 1;
    } else {
      d := Newcomer(s[1..], if s[0] > f then s[0] else f);
      assert s == [s[0]] + s[1..];
    }
  }

  lemma MultipleBelow(a: nat, n: nat) returns (k: nat)
    requires n > 0 && a > 0
    ensures k * n < a <= k * n + n
  {
    k := (a - 1) / n;
    ByDivision(a - 1, n);
  }

  lemma TwoNewcomers(cfg: Config, q: Queue, f: nat) returns (d: nat)
    requires Inv(cfg, q)
    ensures cfg.Valid() && Structure(cfg, q) && f < d && d !in q.time && d + 1 !in q.time
  {
    hide Structure, Distinct;
    d := Newcomer(q.flows, f);
  }

  /** A clock that stands too low, whether clipped to 0 or moved back, lets its flow pass a newcomer. */
  lemma TooLowShows(cfg: Config, q: Queue, u: Queue, f: nat)
    requires Inv(cfg, q) && Structure(cfg, u) && Idle(q) && Idle(u) && u.time.Keys == q.time.Keys
    requires f in q.time && q.time[f] < u.time[f] && (q.time[f] > 0 ==> q.time[f] + cfg.weight <= u.time[f])
    ensures !SameFuture(cfg, q, u)
  {
    hide Inv, Structure, Goes, Allowed, Plain, IdealOutput, IdealAfter, SameFuture, Contest;
    var d := TwoNewcomers(cfg, q, f);
    if q.time[f] == 0 {
      var evs := Contest(f, d, d + 1);
      ContestRuns(cfg, q, f, d, d + 1, true);
      ContestRuns(cfg, u, f, d, d + 1, false);
      NoOverflow(cfg, q, evs);
      assert [Packet(d + 1, 0), Packet(f, 0)][1] != [Packet(d + 1, 0), Packet(d, 0)][1];
      Differs(cfg, q, u, evs);
    } else {
      var k := MultipleBelow(q.time[f], cfg.weight);
      RematchShows(cfg, q, u, f, d, k);
    }
  }

  lemma RematchShows(cfg: Config, q: Queue, u: Queue, f: nat, d: nat, k: nat)
    requires Inv(cfg, q) && Structure(cfg, u) && Idle(q) && Idle(u) && f in q.time && f in u.time && f < d
    requires d !in q.time && d !in u.time
    requires k * cfg.weight < q.time[f] <= k * cfg.weight + cfg.weight < u.time[f]
    ensures !SameFuture(cfg, q, u)
  {
    hide Structure, Goes, Allowed, Plain, IdealOutput, IdealAfter, SameFuture, Rematch, Distinct;
    var prefix := [AddFlow(d)] + Rounds(d, k);
    var evs := prefix + Rematch(f, d);
    AddedThenRounds(cfg, q, f, d, k, true);
    AddedThenRounds(cfg, u, f, d, k, false);
    NoOverflow(cfg, q, prefix);
    RematchAllowed(cfg, IdealAfter(cfg, q, prefix), f, d);
    AllowedOn(cfg, q, prefix, Rematch(f, d));
    GoesOn(cfg, q, prefix, Rematch(f, d), true);
    GoesOn(cfg, u, prefix, Rematch(f, d), false);
    RematchRuns(cfg, IdealAfter(cfg, q, prefix), f, d);
    RematchRuns(cfg, IdealAfter(cfg, u, prefix), f, d);
    LastDiffers(Copies(Packet(d, 0), k), Packet(d, 0), Packet(f, 0), Packet(d, 0));
    Differs(cfg, q, u, evs);
  }

  lemma LastDiffers(common: seq<Packet>, a: Packet, b: Packet, c: Packet)
    requires b != c
    ensures common + [a, b] != common + [a, c]
  {
    assert (common + [a, b])[|common| + 1] != (common + [a, c])[|common| + 1];
  }

  lemma AddedThenRounds(cfg: Config, u: Queue, f: nat, d: nat, k: nat, bounded: bool)
    requires Structure(cfg, u) && Idle(u) && f in u.time && d !in u.time
    requires bounded ==> k * cfg.weight <= cfg.maxTime
    ensures var prefix := [AddFlow(d)] + Rounds(d, k);
            && Goes(cfg, u, prefix, bounded) && IdealOutput(cfg, u, prefix) == Copies(Packet(d, 0), k)
            && var r := IdealAfter(cfg, u, prefix);
            && Structure(cfg, r) && Idle(r) && f in r.time && d in r.time
            && r.time[f] == u.time[f] && r.time[d] == k * cfg.weight
  {
    hide Structure, StepShift, Started, Enabled, Goes, IdealAfter, IdealOutput, ShiftFor;
    AddIdle(cfg, u, d);
    GoesOne(cfg, u, AddFlow(d), Rounds(d, k), bounded);
    var a := IdealStep(cfg, u, AddFlow(d));
    Nonnegative(k, cfg.weight);
    var r := RoundsRun(cfg, a, d, k, End, bounded);
    assert Rounds(d, k) + End == Rounds(d, k);
    EmptyRun(cfg, r, bounded);
  }

  lemma EmptyRun(cfg: Config, u: Queue, bounded: bool)
    requires Structure(cfg, u)
    ensures Goes(cfg, u, End, bounded) && IdealAfter(cfg, u, End) == u && IdealOutput(cfg, u, End) == []
  {
  }

  /**
   * Exactly when moved-back clocks go unseen. Take an idle queue q and the same queue u with unbounded
   * clocks, q moved back by d: their outputs agree in every future whose own moves back are harmless if and
   * only if no clock differs.
   */
  lemma AgreeIffSameClocks(cfg: Config, q: Queue, u: Queue, d: nat)
    requires Inv(cfg, q) && Structure(cfg, u) && MovedBack(q, u, d) && Idle(q) && (d == 0 || d >= cfg.weight)
    ensures SameFuture(cfg, q, u) <==> q.time == u.time
  {
    SameShape(q, u, d);
    if q.time == u.time {
      MovedByNone(q, u, d);
      forall evs | Allowed(cfg, q, evs) && Plain(cfg, q, evs) ensures Output(cfg, q, evs) == IdealOutput(cfg, u, evs) {
        PlainAgrees(cfg, q, evs);
      }
    } else {
      var f := DifferentClock(q, u, d);
      TooLowShows(cfg, q, u, f);
    }
  }

  lemma MovedByNone(q: Queue, u: Queue, d: nat)
    requires MovedBack(q, u, d) && q.time == u.time
    ensures q == u
  {
    assert q == q.(time := map[]).(time := q.time) && u == u.(time := map[]).(time := u.time);
  }

  lemma DifferentClock(q: Queue, u: Queue, d: nat) returns (f: nat)
    requires MovedBack(q, u, d) && Idle(q) && q.time != u.time
    ensures f in q.time && f in u.time && q.time[f] == Minus(u.time[f], d) && q.time[f] < u.time[f]
  {
    f :| f in q.time && q.time[f] != u.time[f];
    assert !Active(q, f);
  }

  // ----- in terms of what the callers did -----

  /** The flows that have had a packet sent, of those still there. */
  ghost function Senders(cfg: Config, u: Queue, evs: seq<Event>, before: set<nat>): set<nat>
    requires Structure(cfg, u)
    decreases |evs|
  {
    if evs == [] || !Enabled(cfg, u, evs[0]) then before
    else
      StepKeepsStructure(cfg, u, evs[0], 0);
      Senders(cfg, IdealStep(cfg, u, evs[0]), evs[1..], SendersStep(u, evs[0], before))
  }

  function SendersStep(u: Queue, e: Event, before: set<nat>): set<nat> {
    if e.OutputDone? && u.sending.Some? then before + {u.sending.value}
    else if e.FreeFlow? then before - {e.flow}
    else before
  }

  /** An unbounded clock stands at 0 exactly as long as its flow has sent nothing. */
  ghost predicate SendersInv(cfg: Config, u: Queue, sent: set<nat>) {
    && (forall f :: f in sent ==> f in u.time && u.time[f] >= cfg.weight)
    && (forall f :: f in u.time && f !in sent && !Active(u, f) ==> u.time[f] == 0)
    && (u.previous.Some? ==> u.previous.value in sent)
  }

  lemma SendersStepKeeps(cfg: Config, u: Queue, e: Event, sent: set<nat>)
    requires Structure(cfg, u) && Enabled(cfg, u, e) && SendersInv(cfg, u, sent)
    ensures SendersInv(cfg, IdealStep(cfg, u, e), SendersStep(u, e, sent))
  {
    hide Sorted, DoSend, DoJob, DoFree, DoDone;
    match e
    case Send(f, len) => AfterSend(cfg, u, f, len);
    case RunJob => AfterJob(cfg, u);
    case OutputDone => AfterDone(cfg, u, 0);
    case AddFlow(f) =>
    case FreeFlow(f) => AfterFree(cfg, u, f);
  }

  lemma {:induction false} SendersKept(cfg: Config, u: Queue, evs: seq<Event>, sent: set<nat>)
    requires Structure(cfg, u) && SendersInv(cfg, u, sent)
    ensures SendersInv(cfg, IdealAfter(cfg, u, evs), Senders(cfg, u, evs, sent))
    decreases |evs|
  {
    hide Structure, StepShift, Enabled, SendersStep, SendersInv;
    if evs != [] && Enabled(cfg, u, evs[0]) {
      SafeZero(cfg, u, evs[0]);
      StepKeepsStructure(cfg, u, evs[0], 0);
      SendersStepKeeps(cfg, u, evs[0], sent);
      SendersKept(cfg, IdealStep(cfg, u, evs[0]), evs[1..], SendersStep(u, evs[0], sent));
    }
  }

  lemma EmptyInv(cfg: Config)
    ensures Inv(cfg, Empty) <==> cfg.Valid()
    ensures Idle(Empty) && SendersInv(cfg, Empty, {})
  {
  }

  lemma SameClocksIff(cfg: Config, q: Queue, u: Queue, d: nat, sent: set<nat>)
    requires cfg.weight > 0 && MovedBack(q, u, d) && Idle(q) && SendersInv(cfg, u, sent)
    ensures q.time == u.time <==> d == 0 || sent == {}
  {
    SameShape(q, u, d);
    if q.time == u.time && d > 0 {
      forall f ensures f !in sent {
        assert f in sent ==> u.time[f] > 0 && !Active(q, f) && q.time[f] == Minus(u.time[f], d);
      }
    }
    if d == 0 || sent == {} {
      forall f | f in q.time ensures q.time[f] == u.time[f] { assert !Active(q, f) && !Active(u, f); }
    }
  }

  /**
   * From an empty queue to any idle moment, by a run whose moves back were harmless so far: they stay unseen
   * in every such future if and only if the clocks were never moved back, or every flow that ever had a
   * packet sent is gone.
   */
  lemma UnseenIffNothingClipped(cfg: Config, evs: seq<Event>)
    requires Inv(cfg, Empty) && 2 * cfg.weight + cfg.mtu <= cfg.maxTime + 1
    requires Allowed(cfg, Empty, evs) && Plain(cfg, Empty, evs) && Idle(After(cfg, Empty, evs))
    ensures SameFuture(cfg, After(cfg, Empty, evs), IdealAfter(cfg, Empty, evs)) <==>
              TotalShift(cfg, Empty, evs) == 0 || Senders(cfg, Empty, evs, {}) == {}
  {
    hide Structure, Allowed, Plain, After, IdealAfter, SameFuture, Idle, MovedBack, Distinct, SendersInv, TotalShift;
    var q, u, d := After(cfg, Empty, evs), IdealAfter(cfg, Empty, evs), TotalShift(cfg, Empty, evs);
    PlainAgrees(cfg, Empty, evs);
    TotalIsLarge(cfg, Empty, evs);
    AgreeIffSameClocks(cfg, q, u, d);
    EmptyInv(cfg);
    SendersKept(cfg, Empty, evs, {});
    SameClocksIff(cfg, q, u, d, Senders(cfg, Empty, evs, {}));
  }

  // ----- it happens from an empty queue, in every configuration -----

  lemma OverflowAlone(cfg: Config, q: Queue, f: nat, rest: seq<Event>) returns (r: Queue)
    requires Inv(cfg, q) && Idle(q) && f in q.time && q.time[f] + cfg.weight > cfg.maxTime
    ensures Inv(cfg, r) && Idle(r) && r.time.Keys == q.time.Keys && r.time[f] == cfg.weight
    ensures forall g :: g in q.time && g != f ==> r.time[g] == Minus(q.time[g], q.time[f])
    ensures Allowed(cfg, r, rest) ==>
              && Allowed(cfg, q, Round(f, rest))
              && Output(cfg, q, Round(f, rest)) == [Packet(f, 0)] + Output(cfg, r, rest)
  {
    hide Structure, StepShift, Started, Enabled, ShiftFor, Distinct, Allowed, Output;
    SendAlone(cfg, q, f);
    StepKeepsInv(cfg, q, Send(f, 0));
    var a := Step(cfg, q, Send(f, 0));
    EndSend(cfg, a, f, [], 0);
    AloneShift(cfg, a, f);
    EndSend(cfg, a, f, [], ShiftFor(cfg, a, OutputDone));
    StepKeepsInv(cfg, a, OutputDone);
    var b := Step(cfg, a, OutputDone);
    RunAlone(cfg, b, f);
    StepKeepsInv(cfg, b, RunJob);
    r := Step(cfg, b, RunJob);
    if Allowed(cfg, r, rest) {
      AllowedOne(cfg, b, RunJob, rest);
      AllowedOne(cfg, a, OutputDone, [RunJob] + rest);
      AllowedOne(cfg, q, Send(f, 0), [OutputDone] + ([RunJob] + rest));
    }
  }

  lemma AloneShift(cfg: Config, q: Queue, f: nat)
    requires Structure(cfg, q) && SendingWith(q, f, []) && f in q.time && q.time[f] + cfg.weight > cfg.maxTime
    ensures Enabled(cfg, q, OutputDone) && ShiftFor(cfg, q, OutputDone) == q.time[f]
  {
  }

  /** One packet of flow 1, then packets of flow 2 alone until its clock is about to overflow. */
  function UpToOverflow(cfg: Config): seq<Event>
    requires cfg.Valid()
  {
    [AddFlow(1)] + ([AddFlow(2)] + Round(1, Rounds(2, cfg.maxTime / cfg.weight)))
  }

  /** One more packet of flow 2; then newcomers 3 and 4, and flows 1 and 3 waiting behind 4. */
  function ClippedRun(cfg: Config): seq<Event>
    requires cfg.Valid()
  {
    UpToOverflow(cfg) + Round(2, Contest(1, 3, 4))
  }

  lemma UpToOverflowRuns(cfg: Config) returns (r: Queue)
    requires cfg.Valid() && Inv(cfg, Empty)
    ensures Goes(cfg, Empty, UpToOverflow(cfg), true) && IdealAfter(cfg, Empty, UpToOverflow(cfg)) == r
    ensures Idle(r) && r.time == map[1 := cfg.weight, 2 := cfg.maxTime / cfg.weight * cfg.weight]
    ensures IdealOutput(cfg, Empty, UpToOverflow(cfg)) ==
              [Packet(1, 0)] + Copies(Packet(2, 0), cfg.maxTime / cfg.weight)
  {
    hide Structure, StepShift, Started, Enabled, Goes, IdealAfter, IdealOutput, ShiftFor, Distinct;
    var n := cfg.maxTime / cfg.weight;
    ByDivision(cfg.maxTime, cfg.weight);
    EmptyInv(cfg);
    AddIdle(cfg, Empty, 1);
    GoesOne(cfg, Empty, AddFlow(1), [AddFlow(2)] + Round(1, Rounds(2, n)), true);
    var a := IdealStep(cfg, Empty, AddFlow(1));
    AddIdle(cfg, a, 2);
    GoesOne(cfg, a, AddFlow(2), Round(1, Rounds(2, n)), true);
    var b := IdealStep(cfg, a, AddFlow(2));
    var c := RoundRuns(cfg, b, 1, Rounds(2, n), true);
    r := RoundsRun(cfg, c, 2, n, End, true);
    assert Rounds(2, n) + End == Rounds(2, n);
    EmptyRun(cfg, r, true);
    assert r.time == map[1 := cfg.weight, 2 := n * cfg.weight];
  }

  /**
   * Every configuration has a run from the empty queue whose last packet would, with unbounded clocks, be one
   * of flow 3, which has sent nothing yet; the queue sends another one of flow 1.
   */
  lemma ClippingIsSeen(cfg: Config)
    requires Inv(cfg, Empty) && cfg.Valid()
    ensures var evs, n := ClippedRun(cfg), cfg.maxTime / cfg.weight;
            var both := [Packet(1, 0)] + Copies(Packet(2, 0), n) + [Packet(2, 0), Packet(4, 0)];
            && Allowed(cfg, Empty, evs)
            && Output(cfg, Empty, evs) == both + [Packet(1, 0)]
            && IdealOutput(cfg, Empty, evs) == both + [Packet(3, 0)]
  {
    hide Structure, Goes, Allowed, IdealOutput, IdealAfter, Contest, Distinct, Output, After, UpToOverflow, Round,
        Copies;
    var n := cfg.maxTime / cfg.weight;
    ByDivision(cfg.maxTime, cfg.weight);
    MulMono(n, 0, cfg.weight);
    MulMono(1, n, cfg.weight);
    var r := UpToOverflowRuns(cfg);
    NoOverflow(cfg, Empty, UpToOverflow(cfg));
    var last := Contest(1, 3, 4);
    var q := OverflowAlone(cfg, r, 2, last);
    ContestRuns(cfg, q, 1, 3, 4, true);
    NoOverflow(cfg, q, last);
    AllowedOn(cfg, Empty, UpToOverflow(cfg), Round(2, last));
    var u := RoundRuns(cfg, r, 2, last, false);
    ContestRuns(cfg, u, 1, 3, 4, false);
    GoesOn(cfg, Empty, UpToOverflow(cfg), Round(2, last), true);
    Regroup([Packet(1, 0)] + Copies(Packet(2, 0), n), Packet(2, 0), Packet(4, 0), Packet(1, 0));
    Regroup([Packet(1, 0)] + Copies(Packet(2, 0), n), Packet(2, 0), Packet(4, 0), Packet(3, 0));
  }

  lemma Regroup(s: seq<Packet>, a: Packet, b: Packet, c: Packet)
    ensures s + ([a] + [b, c]) == s + [a, b] + [c]
  {
  }
}
