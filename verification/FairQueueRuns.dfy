/** Fairness over whole runs of the queue: moved-back clocks cannot be seen, nobody starves, shares stay even. */
module FairQueueRuns {
  import opened Options
  import opened FairQueueSpec

  // ----- overflow handling refines clocks without bound -----

  /**
   * q is u with its clocks moved back by d. Clocks of active flows differ by exactly d; an idle flow whose
   * clock is below d has been clipped to 0.
   */
  ghost predicate MovedBack(q: Queue, u: Queue, d: nat) {
    && q.(time := map[]) == u.(time := map[]) && q.time.Keys == u.time.Keys
    && forall f :: f in q.time ==> if Active(q, f) then u.time[f] == q.time[f] + d else q.time[f] == Minus(u.time[f], d)
  }

  lemma {:induction false} InsertSame(t: map<nat, nat>, u: map<nat, nat>, tree: seq<nat>, f: nat, d: nat)
    requires f in t && f in u && u[f] == t[f] + d
    requires forall g :: g in tree ==> g in t && g in u && u[g] == t[g] + d
    ensures Insert(t, tree, f) == Insert(u, tree, f)
  {
    if tree != [] {
      assert tree[0] in tree;
      InsertSame(t, u, tree[1..], f, d);
    }
  }

  lemma CurrentTimeMoved(cfg: Config, q: Queue, u: Queue, d: nat)
    requires Structure(cfg, q) && Structure(cfg, u) && MovedBack(q, u, d)
    requires exists f :: f in q.time && Active(q, f)
    ensures CurrentTime(u) == CurrentTime(q) + d
  {
    if q.tree != [] { assert q.tree[0] in q.tree; }
  }

  lemma RaisedMoved(cfg: Config, q: Queue, u: Queue, d: nat, f: nat)
    requires Structure(cfg, q) && Structure(cfg, u) && MovedBack(q, u, d) && f in q.time && f !in q.tree
    requires exists g :: g in q.time && Active(q, g)
    ensures var t, v := Raised(q, f), Raised(u, f);
            && t.Keys == q.time.Keys && v.Keys == q.time.Keys && v[f] == t[f] + d
            && (forall g :: g in q.time && g != f ==> t[g] == q.time[g] && v[g] == u.time[g])
  {
    CurrentTimeMoved(cfg, q, u, d);
  }

  lemma EnqueueMoved(cfg: Config, q: Queue, u: Queue, d: nat, f: nat, len: nat)
    requires Structure(cfg, q) && Structure(cfg, u) && MovedBack(q, u, d) && Enabled(cfg, q, Send(f, len))
    requires exists g :: g in q.time && Active(q, g)
    ensures MovedBack(Enqueue(q, f, len), Enqueue(u, f, len), d)
  {
    RaisedMoved(cfg, q, u, d, f);
    SameShape(q, u, d);
    var t, v := Raised(q, f), Raised(u, f);
    hide Insert, Raised, Structure;
    InsertSame(t, v, q.tree, f, d);
    var r, w := Enqueue(q, f, len), Enqueue(u, f, len);
    assert r.(time := map[]) == w.(time := map[]);
    forall g | g in t ensures if Active(r, g) then v[g] == t[g] + d else t[g] == Minus(v[g], d) {
    }
  }

  lemma ScheduleMoved(q: Queue, u: Queue, d: nat)
    requires MovedBack(q, u, d) && q.tree != [] && q.tree[0] in q.lens && q.sending.None?
    requires forall f :: f in q.tree <==> f in q.lens
    ensures MovedBack(Schedule(q), Schedule(u), d)
  {
    var r := Schedule(q);
    assert q.tree == [q.tree[0]] + r.tree;
    forall f ensures Active(r, f) == Active(q, f) { }
  }

  lemma DoneMoved(cfg: Config, q: Queue, u: Queue, d: nat)
    requires Inv(cfg, q) && Structure(cfg, u) && MovedBack(q, u, d) && q.sending.Some?
    ensures var s := ShiftFor(cfg, q, OutputDone);
            MovedBack(DoDone(cfg.weight, q, s), DoDone(cfg.weight, u, 0), d + s)
  {
    OverflowLandsInRange(cfg, q);
  }

  lemma IdleMoved(q: Queue, u: Queue, d: nat)
    requires MovedBack(q, u, d)
    ensures MovedBack(q.(previous := None, job := false), u.(previous := None, job := false), d)
  {
  }

  lemma SendMoved(cfg: Config, q: Queue, u: Queue, d: nat, f: nat, len: nat)
    requires Structure(cfg, q) && Structure(cfg, u) && MovedBack(q, u, d) && Enabled(cfg, q, Send(f, len))
    requires exists g :: g in q.time && Active(q, g)
    ensures MovedBack(DoSend(q, f, len), DoSend(u, f, len), d)
  {
    EnqueueMoved(cfg, q, u, d, f, len);
    EnqueueKeeps(cfg, q, f, len);
    SameShape(q, u, d);
    hide MovedBack, Raised, Insert, Sorted;
    var r, v := Enqueue(q, f, len), Enqueue(u, f, len);
    SameShape(r, v, d);
    if q.sending.None? && !q.job { ScheduleMoved(r, v, d); }
  }

  lemma SameShape(q: Queue, u: Queue, d: nat)
    requires MovedBack(q, u, d)
    ensures q.flows == u.flows && q.tree == u.tree && q.lens == u.lens && q.sending == u.sending
    ensures q.sendingLen == u.sendingLen
    ensures q.previous == u.previous && q.job == u.job && q.time.Keys == u.time.Keys
  {
    assert q.(time := map[]).flows == u.(time := map[]).flows;
  }

  lemma JobMoved(cfg: Config, q: Queue, u: Queue, d: nat)
    requires Structure(cfg, q) && MovedBack(q, u, d) && q.job
    ensures MovedBack(DoJob(q), DoJob(u), d)
  {
    IdleMoved(q, u, d);
    SameShape(q, u, d);
    if q.tree != [] {
      assert q.tree[0] in q.tree;
      ScheduleMoved(q.(previous := None, job := false), u.(previous := None, job := false), d);
    }
  }

  lemma AddMoved(cfg: Config, q: Queue, u: Queue, d: nat, f: nat)
    requires Structure(cfg, q) && MovedBack(q, u, d) && f !in q.time
    ensures MovedBack(q.(flows := q.flows + [f], time := q.time[f := 0]),
              u.(flows := u.flows + [f], time := u.time[f := 0]), d)
  {
    SameShape(q, u, d);
    assert !Active(q, f);
  }

  lemma FreeMoved(q: Queue, u: Queue, d: nat, f: nat)
    requires MovedBack(q, u, d)
    ensures MovedBack(DoFree(q, f), DoFree(u, f), d)
  {
    SameShape(q, u, d);
  }

  lemma StepMoved(cfg: Config, q: Queue, u: Queue, d: nat, e: Event)
    requires Inv(cfg, q) && Structure(cfg, u) && MovedBack(q, u, d) && Enabled(cfg, q, e)
    requires e.Send? ==> exists f :: f in q.time && Active(q, f)
    ensures Enabled(cfg, u, e) && Structure(cfg, IdealStep(cfg, u, e))
    ensures MovedBack(Step(cfg, q, e), IdealStep(cfg, u, e), d + ShiftFor(cfg, q, e))
  {
    EnabledMoved(cfg, q, u, d, e);
    if e.OutputDone? { DoneMoved(cfg, q, u, d); } else { UnshiftedMoved(cfg, q, u, d, e); }
    hide MovedBack, Structure, DoDone, ShiftBy, Distinct, Active;
  }

  lemma UnshiftedMoved(cfg: Config, q: Queue, u: Queue, d: nat, e: Event)
    requires Structure(cfg, q) && Structure(cfg, u) && MovedBack(q, u, d)
    requires Enabled(cfg, q, e) && Enabled(cfg, u, e) && !e.OutputDone?
    requires e.Send? ==> exists f :: f in q.time && Active(q, f)
    ensures ShiftFor(cfg, q, e) == 0 && MovedBack(Step(cfg, q, e), IdealStep(cfg, u, e), d)
  {
    hide MovedBack, Structure, DoSend, DoJob, DoFree, Distinct, Active;
    match e
    case Send(f, len) => SendMoved(cfg, q, u, d, f, len);
    case RunJob => JobMoved(cfg, q, u, d);
    case AddFlow(f) => AddMoved(cfg, q, u, d, f);
    case FreeFlow(f) => FreeMoved(q, u, d, f);
  }

  lemma EnabledMoved(cfg: Config, q: Queue, u: Queue, d: nat, e: Event)
    requires Structure(cfg, u) && MovedBack(q, u, d) && Enabled(cfg, q, e)
    ensures Enabled(cfg, u, e) && Structure(cfg, IdealStep(cfg, u, e))
  {
    SameShape(q, u, d);
    hide MovedBack, Structure, IdealStep;
    SafeZero(cfg, u, e);
    StepKeepsStructure(cfg, u, e, 0);
    UnshiftedStep(cfg, u, e);
  }

  lemma UnshiftedStep(cfg: Config, u: Queue, e: Event)
    requires Structure(cfg, u) && Enabled(cfg, u, e)
    ensures IdealStep(cfg, u, e) == StepShift(cfg, u, e, 0)
  {
  }

  // ----- runs -----

  /** All events are allowed when they come. */
  ghost predicate Allowed(cfg: Config, q: Queue, evs: seq<Event>)
    requires Inv(cfg, q)
    decreases |evs|
  {
    evs == [] ||
      (Enabled(cfg, q, evs[0]) && (StepKeepsInv(cfg, q, evs[0]); Allowed(cfg, Step(cfg, q, evs[0]), evs[1..])))
  }

  ghost function After(cfg: Config, q: Queue, evs: seq<Event>): (r: Queue)
    requires Inv(cfg, q) && Allowed(cfg, q, evs)
    ensures Inv(cfg, r)
    decreases |evs|
  {
    if evs == [] then q
    else
      StepKeepsInv(cfg, q, evs[0]);
      After(cfg, Step(cfg, q, evs[0]), evs[1..])
  }

  datatype Packet = Packet(flow: nat, len: nat)

  /** The packet an event hands to the output, if any. */
  function Started(before: Queue, after: Queue): seq<Packet> {
    if before.sending.None? && after.sending.Some? then [Packet(after.sending.value, after.sendingLen)] else []
  }

  /** Everything sent, in order. */
  ghost function Output(cfg: Config, q: Queue, evs: seq<Event>): seq<Packet>
    requires Inv(cfg, q) && Allowed(cfg, q, evs)
    decreases |evs|
  {
    if evs == [] then []
    else
      StepKeepsInv(cfg, q, evs[0]);
      var r := Step(cfg, q, evs[0]);
      Started(q, r) + Output(cfg, r, evs[1..])
  }

  /** Everything sent by a queue whose clocks are never moved back; it stops at an event that is not allowed. */
  ghost function IdealOutput(cfg: Config, u: Queue, evs: seq<Event>): seq<Packet>
    requires Structure(cfg, u)
    decreases |evs|
  {
    if evs == [] || !Enabled(cfg, u, evs[0]) then []
    else
      SafeZero(cfg, u, evs[0]);
      StepKeepsStructure(cfg, u, evs[0], 0);
      var r := IdealStep(cfg, u, evs[0]);
      Started(u, r) + IdealOutput(cfg, r, evs[1..])
  }

  lemma SafeZero(cfg: Config, u: Queue, e: Event)
    requires Structure(cfg, u) && Enabled(cfg, u, e)
    ensures SafeShift(cfg, u, e, 0)
  {
  }

  /** Whenever a flow queues a packet, some flow is queued, being sent, or the previous one. */
  ghost predicate Stretch(cfg: Config, q: Queue, evs: seq<Event>)
    requires Inv(cfg, q) && Allowed(cfg, q, evs)
    decreases |evs|
  {
    evs == [] ||
      ((evs[0].Send? ==> exists f :: f in q.time && Active(q, f))
       && (StepKeepsInv(cfg, q, evs[0]); Stretch(cfg, Step(cfg, q, evs[0]), evs[1..])))
  }

  /**
   * In any stretch in which some flow is always active, however long and however often the clocks are
   * moved back, the queue sends exactly the packets, in exactly the order, that unbounded clocks would.
   */
  lemma {:induction false} ShiftsCannotBeSeen(cfg: Config, q: Queue, u: Queue, d: nat, evs: seq<Event>)
    requires Inv(cfg, q) && Structure(cfg, u) && MovedBack(q, u, d)
    requires Allowed(cfg, q, evs) && Stretch(cfg, q, evs)
    ensures Output(cfg, q, evs) == IdealOutput(cfg, u, evs)
    decreases |evs|
  {
    hide Structure, MovedBack, Step, IdealStep, Distinct;
    if evs != [] {
      var e := evs[0];
      StepMoved(cfg, q, u, d, e);
      StepKeepsInv(cfg, q, e);
      SameShape(q, u, d);
      SameShape(Step(cfg, q, e), IdealStep(cfg, u, e), d + ShiftFor(cfg, q, e));
      ShiftsCannotBeSeen(cfg, Step(cfg, q, e), IdealStep(cfg, u, e), d + ShiftFor(cfg, q, e), evs[1..]);
    }
  }
}
