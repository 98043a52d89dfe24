/**
 * The fair queue on the job stack: its flows' inputs are PacketPassInterfaces, its schedule job is a job like
 * any other. A source that sends again from its done handler is never found without a packet when the
 * schedule job runs.
 */
module FairQueueJobs {
  import opened Options
  import opened JobStack
  import P = PacketPass
  import Q = FairQueueSpec
  import R = FairQueueRuns
  import F = FairQueueFairness

  /** `lens` holds the length of the packet each source last sent; a flow and its input have the same number. */
  datatype System = System(queue: Q.Queue, world: P.World, lens: map<nat, nat>)

  /** What surrounds the queue may do. `again` is the packet a done handler sends from within. */
  datatype Act =
    | SourceSend(f: nat, len: nat) | OutputDone | RunJob(again: Option<nat>)
    | AddFlow(f: nat) | FreeFlow(f: nat) | Elsewhere(ev: P.Event)

  /** An event that is about neither the flows nor the schedule job, and lets no job run. */
  predicate Foreign(n: nat, s: System, ev: P.Event) {
    match ev
    case SetOther(m) => m != n
    case UnsetOther(m) => m != n
    case RunJob => false
    case InitInterface(_, _) => true
    case _ => ev.i !in s.queue.time
  }

  predicate Enabled(cfg: Q.Config, n: nat, s: System, act: Act) {
    match act
    case SourceSend(f, len) => f in s.queue.time && f in s.world.ifs && s.world.ifs[f].state.Idle? && len <= cfg.mtu
    case OutputDone => s.queue.sending.Some?
    case RunJob(again) =>
      s.world.jobs != [] &&
        (again.Some? ==> again.value <= cfg.mtu && s.world.jobs[0].Finished? && s.world.jobs[0].i in s.queue.time)
    case AddFlow(f) => f !in s.queue.time && f !in s.world.ifs
    case FreeFlow(f) => f in s.queue.time && s.queue.sending != Some(f)
    case Elsewhere(ev) => P.Enabled(s.world, ev) && Foreign(n, s, ev)
  }

  /** A flow's input is busy exactly while the queue has its packet. */
  ghost predicate InputInv(cfg: Q.Config, s: System, f: nat) {
    && f in s.world.ifs && !s.world.ifs[f].hasCancel && f in s.lens && s.lens[f] <= cfg.mtu
    && (s.world.ifs[f].state.Busy? <==> f in s.queue.tree || s.queue.sending == Some(f))
  }

  ghost predicate Inv(cfg: Q.Config, n: nat, s: System) {
    && Q.Inv(cfg, s.queue) && P.Inv(s.world)
    && (s.queue.job <==> Other(n) in s.world.jobs)
    && forall f :: f in s.queue.time ==> InputInv(cfg, s, f)
  }

  /** What the queue is called for. */
  function Calls(n: nat, s: System, act: Act): seq<Q.Event> {
    match act
    case SourceSend(_, _) => []
    case OutputDone => [Q.OutputDone]
    case RunJob(_) =>
      if s.world.jobs == [] then []
      else
        var j := s.world.jobs[0];
        if j == Other(n) then [Q.RunJob]
        else if j.Operation? && j.i in s.queue.time && j.i in s.lens then [Q.Send(j.i, s.lens[j.i])]
        else []
    case AddFlow(f) => [Q.AddFlow(f)]
    case FreeFlow(f) => [Q.FreeFlow(f)]
    case Elsewhere(_) => []
  }

  /** What happens on the interfaces and the stack, in order. */
  function Moves(n: nat, s: System, act: Act): seq<P.Event> {
    match act
    case SourceSend(f, _) => [P.Send(f)]
    case OutputDone => if s.queue.sending.Some? then [P.SetOther(n), P.Done(s.queue.sending.value)] else []
    case RunJob(again) =>
      if again.Some? && s.world.jobs != [] && s.world.jobs[0].Finished? then [P.RunJob, P.Send(s.world.jobs[0].i)]
      else [P.RunJob]
    case AddFlow(f) => [P.InitInterface(f, false)]
    case FreeFlow(f) => [P.FreeInterface(f)]
    case Elsewhere(ev) => [ev]
  }

  function LensAfter(s: System, act: Act): map<nat, nat> {
    match act
    case SourceSend(f, len) => s.lens[f := len]
    case RunJob(again) =>
      if again.Some? && s.world.jobs != [] && s.world.jobs[0].Finished? then s.lens[s.world.jobs[0].i := again.value]
      else s.lens
    case AddFlow(f) => s.lens[f := 0]
    case _ => s.lens
  }

  ghost function QueueAfter(cfg: Q.Config, q: Q.Queue, evs: seq<Q.Event>): Q.Queue
    requires Q.Inv(cfg, q) && |evs| <= 1 && forall e :: e in evs ==> Q.Enabled(cfg, q, e)
  {
    if evs == [] then q else Q.Step(cfg, q, evs[0])
  }

  // ----- the interfaces after one or two moves -----

  lemma PlayOne(w: P.World, a: P.Event)
    requires P.Enabled(w, a)
    ensures P.LegalRun(w, [a]) && P.Play(w, [a]) == P.Step(w, a)
  {
    assert [a][1..] == [];
  }

  lemma PlayTwo(w: P.World, a: P.Event, b: P.Event)
    requires P.Enabled(w, a) && P.Enabled(P.Step(w, a), b)
    ensures P.LegalRun(w, [a, b]) && P.Play(w, [a, b]) == P.Step(P.Step(w, a), b)
  {
    assert [a, b][1..] == [b];
    PlayOne(P.Step(w, a), b);
  }

  ghost function Step(cfg: Q.Config, n: nat, s: System, act: Act): System
    requires Q.Inv(cfg, s.queue) && forall e :: e in Calls(n, s, act) ==> Q.Enabled(cfg, s.queue, e)
    requires P.LegalRun(s.world, Moves(n, s, act))
  {
    System(QueueAfter(cfg, s.queue, Calls(n, s, act)), P.Play(s.world, Moves(n, s, act)), LensAfter(s, act))
  }

  // ----- what every step keeps -----

  ghost predicate Waiting(q: Q.Queue, f: nat) {
    f in q.tree || q.sending == Some(f)
  }

  /** Which packets the queue has after a call, and whether its job is set. */
  lemma QueueMoves(cfg: Q.Config, q: Q.Queue, e: Q.Event)
    requires Q.Inv(cfg, q) && Q.Enabled(cfg, q, e)
    ensures var r := Q.Step(cfg, q, e);
            && Q.Inv(cfg, r)
            && r.job == (if e.OutputDone? then true else if e.RunJob? then false else q.job)
            && (forall g: nat :: g in r.time <==> if e.AddFlow? || e.FreeFlow? then
                  (if g == e.flow then e.AddFlow? else g in q.time) else g in q.time)
            && (forall g: nat :: Waiting(r, g) <==>
                  match e
                  case Send(f, _) => Waiting(q, g) || g == f
                  case OutputDone => Waiting(q, g) && q.sending != Some(g)
                  case RunJob => Waiting(q, g)
                  case AddFlow(f) => Waiting(q, g)
                  case FreeFlow(f) => Waiting(q, g) && g != f)
  {
    Q.StepKeepsInv(cfg, q, e);
    match e
    case Send(f, len) => SendMoves(cfg, q, f, len);
    case OutputDone => F.DoneClocks(cfg, q);
    case RunJob => JobMoves(cfg, q);
    case AddFlow(f) =>
    case FreeFlow(f) =>
  }

  lemma SendMoves(cfg: Q.Config, q: Q.Queue, f: nat, len: nat)
    requires Q.Inv(cfg, q) && Q.Enabled(cfg, q, Q.Send(f, len))
    ensures var r := Q.Step(cfg, q, Q.Send(f, len));
            && r.job == q.job && (forall g: nat :: g in r.time <==> g in q.time)
            && (forall g: nat :: Waiting(r, g) <==> Waiting(q, g) || g == f)
  {
    F.SendClocks(cfg, q, f, len);
    Q.EnqueueKeeps(cfg, q, f, len);
    hide Q.Sorted, Q.Insert, Q.Distinct;
    var r, w := Q.Step(cfg, q, Q.Send(f, len)), Q.Enqueue(q, f, len);
    assert r.tree != w.tree ==> w.tree == [w.tree[0]] + r.tree;
  }

  lemma JobMoves(cfg: Q.Config, q: Q.Queue)
    requires Q.Inv(cfg, q) && q.job
    ensures var r := Q.Step(cfg, q, Q.RunJob);
            && !r.job && r.time == q.time && forall g: nat :: Waiting(r, g) <==> Waiting(q, g)
  {
    hide Q.Sorted, Q.Distinct;
    var r := Q.Step(cfg, q, Q.RunJob);
    if q.tree != [] {
      assert q.tree[0] in q.tree;
      assert q.tree == [q.tree[0]] + r.tree;
    }
  }

  /** The front job finds what it asserts, so the queue may be called as it asks. */
  lemma Callable(cfg: Q.Config, n: nat, s: System, act: Act)
    requires Inv(cfg, n, s) && Enabled(cfg, n, s, act)
    ensures forall e :: e in Calls(n, s, act) ==> Q.Enabled(cfg, s.queue, e)
  {
    if act.RunJob? {
      P.JobsMeetTheirAssertions(s.world);
      var j := s.world.jobs[0];
      if j.Operation? && j.i in s.queue.time { assert InputInv(cfg, s, j.i); }
    }
    hide Q.Inv, P.Inv;
  }

  lemma Movable(cfg: Q.Config, n: nat, s: System, act: Act)
    requires Inv(cfg, n, s) && Enabled(cfg, n, s, act)
    ensures P.LegalRun(s.world, Moves(n, s, act)) && P.Inv(P.Play(s.world, Moves(n, s, act)))
  {
    var w := s.world;
    var moves := Moves(n, s, act);
    if act.OutputDone? {
      SendingIsBusy(cfg, n, s);
      PlayTwo(w, moves[0], moves[1]);
    } else if |moves| == 2 {
      P.JobsMeetTheirAssertions(w);
      PlayTwo(w, moves[0], moves[1]);
    } else {
      PlayOne(w, moves[0]);
    }
    hide P.Inv;
    P.PlayKeepsInv(w, moves);
  }

  lemma SendingIsBusy(cfg: Q.Config, n: nat, s: System)
    requires Inv(cfg, n, s) && s.queue.sending.Some?
    ensures var f := s.queue.sending.value; f in s.queue.time && f in s.world.ifs && s.world.ifs[f].state.Busy?
  {
    hide P.Inv;
    assert s.queue.sending.value in s.queue.time;
    assert InputInv(cfg, s, s.queue.sending.value);
  }

  /** Whether the schedule job is set after the moves. */
  lemma JobAfterMoves(cfg: Q.Config, n: nat, s: System, act: Act)
    requires Inv(cfg, n, s) && Enabled(cfg, n, s, act) && P.LegalRun(s.world, Moves(n, s, act))
    ensures Other(n) in P.Play(s.world, Moves(n, s, act)).jobs <==>
              act.OutputDone? ||
              (Other(n) in s.world.jobs && !(act.RunJob? && s.world.jobs[0] == Other(n)))
  {
    var w, moves := s.world, Moves(n, s, act);
    P.JobsAfter(w, moves[0]);
    hide P.Inv, Q.Inv, P.Changed, JobStack.Run, P.Ops, InputInv;
    if |moves| == 2 {
      assert moves == [moves[0], moves[1]];
      PlayTwo(w, moves[0], moves[1]);
      P.JobsAfter(P.Step(w, moves[0]), moves[1]);
    } else {
      assert moves == [moves[0]];
      PlayOne(w, moves[0]);
    }
  }

  /** What the moves do to the input of flow f. */
  lemma InputAfterMoves(cfg: Q.Config, n: nat, s: System, act: Act, f: nat)
    requires Inv(cfg, n, s) && Enabled(cfg, n, s, act) && P.LegalRun(s.world, Moves(n, s, act))
    requires f in s.queue.time && act != FreeFlow(f)
    ensures var ifs := P.Play(s.world, Moves(n, s, act)).ifs;
            && f in s.world.ifs && f in ifs && ifs[f].hasCancel == s.world.ifs[f].hasCancel
            && (ifs[f].state.Busy? <==>
                  if act.OutputDone? && s.queue.sending == Some(f) then false
                  else if act.RunJob? && s.world.jobs[0] == Operation(f) then true
                  else s.world.ifs[f].state.Busy?)
  {
    var w, moves := s.world, Moves(n, s, act);
    assert InputInv(cfg, s, f);
    if act.RunJob? { P.JobsMeetTheirAssertions(w); }
    hide P.Inv, Q.Inv, JobStack.Run, P.Ops, InputInv;
    if |moves| == 2 {
      assert moves == [moves[0], moves[1]];
      PlayTwo(w, moves[0], moves[1]);
    } else {
      assert moves == [moves[0]];
      PlayOne(w, moves[0]);
    }
  }

  lemma StepKeepsInv(cfg: Q.Config, n: nat, s: System, act: Act)
    requires Inv(cfg, n, s) && Enabled(cfg, n, s, act)
    ensures (forall e :: e in Calls(n, s, act) ==> Q.Enabled(cfg, s.queue, e)) && P.LegalRun(s.world, Moves(n, s, act))
    ensures Inv(cfg, n, Step(cfg, n, s, act))
  {
    hide P.Inv, Q.Inv, P.Play, Q.Step, P.LegalRun, Q.Enabled, Enabled, Calls, Moves, QueueAfter, InputInv, LensAfter;
    Callable(cfg, n, s, act);
    Movable(cfg, n, s, act);
    JobAfterMoves(cfg, n, s, act);
    JobAfterCalls(cfg, n, s, act);
    var t := Step(cfg, n, s, act);
    forall f | f in t.queue.time ensures InputInv(cfg, t, f) {
      InputKeeps(cfg, n, s, act, f);
    }
  }

  /** Whether the queue takes its job for set after the calls. */
  lemma JobAfterCalls(cfg: Q.Config, n: nat, s: System, act: Act)
    requires Inv(cfg, n, s) && Enabled(cfg, n, s, act)
    requires forall e :: e in Calls(n, s, act) ==> Q.Enabled(cfg, s.queue, e)
    ensures var r := QueueAfter(cfg, s.queue, Calls(n, s, act));
            Q.Inv(cfg, r)
            && (r.job <==> act.OutputDone? || (s.queue.job && !(act.RunJob? && s.world.jobs[0] == Other(n))))
  {
    var calls := Calls(n, s, act);
    if calls != [] { QueueMoves(cfg, s.queue, calls[0]); }
    hide P.Inv, Q.Inv, Q.Step, InputInv;
  }

  /** Which packets the queue has after the calls. */
  lemma WaitingAfterCalls(cfg: Q.Config, n: nat, s: System, act: Act, f: nat)
    requires Inv(cfg, n, s) && Enabled(cfg, n, s, act) && f in s.queue.time && act != FreeFlow(f)
    requires (forall e :: e in Calls(n, s, act) ==> Q.Enabled(cfg, s.queue, e))
    ensures Waiting(QueueAfter(cfg, s.queue, Calls(n, s, act)), f) <==>
              if act.OutputDone? && s.queue.sending == Some(f) then false
              else if act.RunJob? && s.world.jobs[0] == Operation(f) then true
              else Waiting(s.queue, f)
  {
    var calls := Calls(n, s, act);
    if calls != [] { QueueMoves(cfg, s.queue, calls[0]); }
    assert InputInv(cfg, s, f);
    hide P.Inv, Q.Inv, Q.Step, Waiting, InputInv;
  }

  lemma LensKept(cfg: Q.Config, n: nat, s: System, act: Act, f: nat)
    requires Enabled(cfg, n, s, act) && f in s.lens && s.lens[f] <= cfg.mtu
    ensures f in LensAfter(s, act) && LensAfter(s, act)[f] <= cfg.mtu
  {
  }

  lemma InputKeeps(cfg: Q.Config, n: nat, s: System, act: Act, f: nat)
    requires Inv(cfg, n, s) && Enabled(cfg, n, s, act)
    requires (forall e :: e in Calls(n, s, act) ==> Q.Enabled(cfg, s.queue, e)) && P.LegalRun(s.world, Moves(n, s, act))
    requires f in Step(cfg, n, s, act).queue.time
    ensures InputInv(cfg, Step(cfg, n, s, act), f)
  {
    if act == AddFlow(f) {
      NewInput(cfg, n, s, f);
    } else {
      WasThere(cfg, n, s, act, f);
      InputIs(cfg, s, f);
      InputAfterMoves(cfg, n, s, act, f);
      WaitingAfterCalls(cfg, n, s, act, f);
      LensKept(cfg, n, s, act, f);
      hide P.Inv, Q.Inv, P.Play, Q.Step, P.LegalRun, Inv, Enabled, LensAfter, Calls, Moves, QueueAfter, InputInv;
      InputIs(cfg, Step(cfg, n, s, act), f);
    }
  }

  lemma InputIs(cfg: Q.Config, s: System, f: nat)
    ensures InputInv(cfg, s, f) <==>
              && f in s.world.ifs && !s.world.ifs[f].hasCancel && f in s.lens && s.lens[f] <= cfg.mtu
              && (s.world.ifs[f].state.Busy? <==> Waiting(s.queue, f))
  {
  }

  lemma WasThere(cfg: Q.Config, n: nat, s: System, act: Act, f: nat)
    requires Inv(cfg, n, s) && Enabled(cfg, n, s, act) && act != AddFlow(f)
    requires (forall e :: e in Calls(n, s, act) ==> Q.Enabled(cfg, s.queue, e)) && P.LegalRun(s.world, Moves(n, s, act))
    requires f in Step(cfg, n, s, act).queue.time
    ensures f in s.queue.time && act != FreeFlow(f) && InputInv(cfg, s, f)
  {
    var calls := Calls(n, s, act);
    if calls != [] { QueueMoves(cfg, s.queue, calls[0]); }
    hide P.Inv, Q.Inv, Q.Step, P.Play, Waiting;
  }

  lemma NewInput(cfg: Q.Config, n: nat, s: System, f: nat)
    requires Inv(cfg, n, s) && Enabled(cfg, n, s, AddFlow(f))
    requires (forall e :: e in Calls(n, s, AddFlow(f)) ==> Q.Enabled(cfg, s.queue, e))
    requires P.LegalRun(s.world, Moves(n, s, AddFlow(f)))
    ensures InputInv(cfg, Step(cfg, n, s, AddFlow(f)), f)
  {
    PlayOne(s.world, P.InitInterface(f, false));
    NotYetThere(cfg, s.queue, f);
    hide P.Inv, Q.Inv, Q.Sorted;
  }

  lemma NotYetThere(cfg: Q.Config, q: Q.Queue, f: nat)
    requires Q.Inv(cfg, q) && f !in q.time
    ensures !Waiting(q, f)
  {
  }

  // ----- a source that resends is never missed -----

  /** Job x will run before the schedule job. */
  ghost predicate Ahead(jobs: seq<Job>, n: nat, x: Job) {
    x in jobs && x !in Below(jobs, Other(n))
  }

  /** If flow i was the one just sent, its source is still to be told, or has sent again and the queue is to hear. */
  ghost predicate Coming(n: nat, s: System, i: nat) {
    s.queue.previous == Some(i) ==> Ahead(s.world.jobs, n, Finished(i)) || Ahead(s.world.jobs, n, Operation(i))
  }

  /** Flow i is not freed, and when its done handler runs it sends again. */
  predicate Resends(s: System, act: Act, i: nat) {
    && act != FreeFlow(i)
    && (act.RunJob? && s.world.jobs != [] && s.world.jobs[0] == Finished(i) ==> act.again.Some?)
  }

  lemma PreviousAfter(cfg: Q.Config, q: Q.Queue, e: Q.Event)
    requires Q.Inv(cfg, q) && Q.Enabled(cfg, q, e)
    ensures Q.Step(cfg, q, e).previous ==
              match e
              case OutputDone => q.sending
              case RunJob => None
              case AddFlow(_) => q.previous
              case _ => if q.previous == Some(e.flow) then None else q.previous
  {
    hide Q.Sorted, Q.Insert, Q.Distinct, Q.Without;
  }

  lemma StaysAhead(w: P.World, ev: P.Event, n: nat, x: Job)
    requires P.Inv(w) && P.Enabled(w, ev) && Other(n) in w.jobs && x !in Below(w.jobs, Other(n))
    requires Other(n) in P.Step(w, ev).jobs && forall op :: op in P.Ops(w, ev) ==> !Mentions(op, Other(n))
    ensures x !in Below(P.Step(w, ev).jobs, Other(n))
    ensures x in P.Step(w, ev).jobs ==> Ahead(P.Step(w, ev).jobs, n, x)
  {
    P.StepBelow(w, ev, Other(n));
  }

  /** After its packet was sent, the flow's done job is ahead of the schedule job. */
  lemma DoneIsAhead(w: P.World, n: nat, i: nat)
    requires P.Inv(w) && i in w.ifs && w.ifs[i].state.Busy?
    requires P.Enabled(w, P.SetOther(n)) && P.Enabled(P.Step(w, P.SetOther(n)), P.Done(i))
    ensures Ahead(P.Step(P.Step(w, P.SetOther(n)), P.Done(i)).jobs, n, Finished(i))
  {
    var a := P.Step(w, P.SetOther(n));
    P.StepKeepsInv(w, P.SetOther(n));
    P.JobsAfter(w, P.SetOther(n));
    P.JobsAfter(a, P.Done(i));
    assert P.InterfaceInv(w, i);
    BelowMembers(a.jobs, Other(n));
    hide P.Inv, P.InterfaceInv, P.Step, Below;
    StaysAhead(a, P.Done(i), n, Finished(i));
  }

  /** The done job runs, and the handler sends again. */
  lemma ResentIsAhead(w: P.World, n: nat, i: nat)
    requires P.Inv(w) && w.jobs != [] && w.jobs[0] == Finished(i) && Other(n) in w.jobs
    requires P.Enabled(P.Step(w, P.RunJob), P.Send(i))
    ensures Ahead(P.Step(P.Step(w, P.RunJob), P.Send(i)).jobs, n, Operation(i))
  {
    var a := P.Step(w, P.RunJob);
    P.JobsMeetTheirAssertions(w);
    P.StepKeepsInv(w, P.RunJob);
    P.JobsAfter(w, P.RunJob);
    P.JobsAfter(a, P.Send(i));
    assert P.InterfaceInv(w, i);
    BelowMembers(w.jobs, Other(n));
    hide P.Inv, P.InterfaceInv, P.Step, Below;
    StaysAhead(w, P.RunJob, n, Operation(i));
    StaysAhead(a, P.Send(i), n, Operation(i));
  }

  /** A move that is not about flow i or the schedule job leaves what is ahead ahead. */
  lemma MoveKeepsAhead(w: P.World, ev: P.Event, n: nat, x: Job)
    requires P.Inv(w) && P.Enabled(w, ev) && Other(n) in w.jobs && Ahead(w.jobs, n, x) && !x.Other?
    requires match ev
             case SetOther(m) => m != n
             case UnsetOther(m) => m != n
             case RunJob => w.jobs[0] != x && w.jobs[0] != Other(n)
             case Send(_) => true
             case InitInterface(_, _) => true
             case _ => ev.i != x.i
    ensures Ahead(P.Step(w, ev).jobs, n, x) && Other(n) in P.Step(w, ev).jobs && P.Inv(P.Step(w, ev))
  {
    P.JobsAfter(w, ev);
    P.StepKeepsInv(w, ev);
    hide P.Inv, P.Step, Below;
    StaysAhead(w, ev, n, x);
  }

  /** When the schedule job comes up, no flow that keeps resending is the one just sent. */
  lemma NotMissed(cfg: Q.Config, n: nat, s: System, i: nat)
    requires Coming(n, s, i) && s.world.jobs != [] && s.world.jobs[0] == Other(n)
    ensures s.queue.previous != Some(i)
  {
    P.OnTop(s.world.jobs);
  }

  /** In a step that leaves flow i the one just sent, its next job stays ahead, or is put there. */
  lemma AheadAfterMoves(cfg: Q.Config, n: nat, s: System, act: Act, i: nat, x: Job)
    requires Inv(cfg, n, s) && Enabled(cfg, n, s, act) && Resends(s, act, i) && !act.OutputDone? && i in s.queue.time
    requires Ahead(s.world.jobs, n, x) && (x == Finished(i) || x == Operation(i)) && Other(n) in s.world.jobs
    requires P.LegalRun(s.world, Moves(n, s, act))
    requires act.RunJob? ==> s.world.jobs[0] != Other(n) && s.world.jobs[0] != Operation(i)
    ensures var jobs := P.Play(s.world, Moves(n, s, act)).jobs;
            Ahead(jobs, n, Finished(i)) || Ahead(jobs, n, Operation(i))
  {
    var w, moves := s.world, Moves(n, s, act);
    if |moves| == 1 {
      assert moves == [moves[0]];
      PlayOne(w, moves[0]);
      hide P.Inv, Q.Inv, Ahead, InputInv;
      if act.RunJob? && w.jobs[0] == Finished(i) {
        assert false;
      }
      MoveKeepsAhead(w, moves[0], n, x);
    } else {
      assert moves == [moves[0], moves[1]];
      PlayTwo(w, moves[0], moves[1]);
      hide P.Inv, Q.Inv, Ahead, InputInv;
      if w.jobs[0] == Finished(i) {
        ResentIsAhead(w, n, i);
      } else {
        MoveKeepsAhead(w, moves[0], n, x);
        MoveKeepsAhead(P.Step(w, moves[0]), moves[1], n, x);
      }
    }
  }

  lemma ComingKept(cfg: Q.Config, n: nat, s: System, act: Act, i: nat)
    requires Inv(cfg, n, s) && Enabled(cfg, n, s, act) && Coming(n, s, i) && Resends(s, act, i)
    requires (forall e :: e in Calls(n, s, act) ==> Q.Enabled(cfg, s.queue, e)) && P.LegalRun(s.world, Moves(n, s, act))
    ensures Coming(n, Step(cfg, n, s, act), i)
  {
    var t := Step(cfg, n, s, act);
    var calls := Calls(n, s, act);
    if calls != [] { PreviousAfter(cfg, s.queue, calls[0]); }
    if t.queue.previous == Some(i) {
      if act.OutputDone? {
        SendingIsBusy(cfg, n, s);
        PlayTwo(s.world, P.SetOther(n), P.Done(i));
        DoneIsAhead(s.world, n, i);
      } else {
        PreviousIsFlow(cfg, n, s, i);
        if act.RunJob? { FrontIsOther(cfg, n, s, act, i); }
        hide P.Inv, Q.Inv, Q.Step, P.Play, Ahead;
        var x := if Ahead(s.world.jobs, n, Finished(i)) then Finished(i) else Operation(i);
        AheadAfterMoves(cfg, n, s, act, i, x);
      }
    }
  }

  lemma PreviousIsFlow(cfg: Q.Config, n: nat, s: System, i: nat)
    requires Inv(cfg, n, s) && s.queue.previous == Some(i)
    ensures i in s.queue.time && Other(n) in s.world.jobs && i in s.lens
  {
    assert i in s.queue.time;
    assert InputInv(cfg, s, i);
  }

  lemma FrontIsOther(cfg: Q.Config, n: nat, s: System, act: Act, i: nat)
    requires Inv(cfg, n, s) && Enabled(cfg, n, s, act) && i in s.queue.time && i in s.lens
    requires forall e :: e in Calls(n, s, act) ==> Q.Enabled(cfg, s.queue, e)
    requires act.RunJob? && QueueAfter(cfg, s.queue, Calls(n, s, act)).previous == Some(i)
    ensures s.world.jobs[0] != Other(n) && s.world.jobs[0] != Operation(i)
  {
    var calls := Calls(n, s, act);
    if calls != [] { PreviousAfter(cfg, s.queue, calls[0]); }
    hide P.Inv, Q.Inv, Q.Step;
  }

  // ----- whole runs -----

  ghost predicate LegalRun(cfg: Q.Config, n: nat, s: System, acts: seq<Act>)
    requires Inv(cfg, n, s)
    decreases |acts|
  {
    acts != [] ==>
      && Enabled(cfg, n, s, acts[0])
      && (StepKeepsInv(cfg, n, s, acts[0]); LegalRun(cfg, n, Step(cfg, n, s, acts[0]), acts[1..]))
  }

  /** The calls the queue gets over a run. */
  ghost function Trace(cfg: Q.Config, n: nat, s: System, acts: seq<Act>): seq<Q.Event>
    requires Inv(cfg, n, s) && LegalRun(cfg, n, s, acts)
    decreases |acts|
  {
    if acts == [] then []
    else
      StepKeepsInv(cfg, n, s, acts[0]);
      Calls(n, s, acts[0]) + Trace(cfg, n, Step(cfg, n, s, acts[0]), acts[1..])
  }

  /** Through the run flow i is not freed, and its done handler sends again each time it runs. */
  ghost predicate AlwaysResends(cfg: Q.Config, n: nat, s: System, acts: seq<Act>, i: nat)
    requires Inv(cfg, n, s) && LegalRun(cfg, n, s, acts)
    decreases |acts|
  {
    acts != [] ==>
      && Resends(s, acts[0], i)
      && (StepKeepsInv(cfg, n, s, acts[0]); AlwaysResends(cfg, n, Step(cfg, n, s, acts[0]), acts[1..], i))
  }

  lemma OneCall(cfg: Q.Config, q: Q.Queue, e: Q.Event, rest: seq<Q.Event>, i: nat)
    requires Q.Inv(cfg, q) && Q.Enabled(cfg, q, e) && Q.Inv(cfg, Q.Step(cfg, q, e))
    requires R.Allowed(cfg, Q.Step(cfg, q, e), rest)
    ensures R.Allowed(cfg, q, [e] + rest)
    ensures var t := Q.Step(cfg, q, e);
            e != Q.FreeFlow(i) && (e.RunJob? ==> q.previous != Some(i)) && F.KeepsUp(cfg, t, rest, i) ==>
              F.KeepsUp(cfg, q, [e] + rest, i)
  {
    assert ([e] + rest)[0] == e && ([e] + rest)[1..] == rest;
    hide Q.Inv, Q.Step, Q.Enabled;
  }

  /**
   * A source that sends again from its done handler keeps up: whatever the other flows, sources and jobs on the
   * stack do, the schedule job never runs while its flow is the one just sent.
   */
  lemma {:induction false} ResendingKeepsUp(cfg: Q.Config, n: nat, s: System, acts: seq<Act>, i: nat)
    requires Inv(cfg, n, s) && LegalRun(cfg, n, s, acts) && Coming(n, s, i) && AlwaysResends(cfg, n, s, acts, i)
    ensures R.Allowed(cfg, s.queue, Trace(cfg, n, s, acts))
    ensures F.KeepsUp(cfg, s.queue, Trace(cfg, n, s, acts), i)
    decreases |acts|
  {
    if acts != [] {
      var act := acts[0];
      StepKeepsInv(cfg, n, s, act);
      ComingKept(cfg, n, s, act, i);
      var t := Step(cfg, n, s, act);
      var rest := Trace(cfg, n, t, acts[1..]);
      ResendingKeepsUp(cfg, n, t, acts[1..], i);
      var calls := Calls(n, s, act);
      if calls == [] {
        assert calls + rest == rest;
      } else {
        if calls[0].RunJob? { NotMissed(cfg, n, s, i); }
        assert calls == [calls[0]];
        hide P.Inv, P.LegalRun, P.Play, Q.Step, Q.Enabled, Coming;
        OneCall(cfg, s.queue, calls[0], rest, i);
      }
    }
  }

  /**
   * So two such sources, once both have a packet under way, stay backlogged, and their flows get even shares:
   * the difference in service is at most packet_weight + MTU beyond what their clocks differed by before.
   */
  lemma ResendersShareEvenly(cfg: Q.Config, n: nat, s: System, acts: seq<Act>, i: nat, j: nat)
    requires Inv(cfg, n, s) && LegalRun(cfg, n, s, acts) && i != j
    requires Q.Active(s.queue, i) && Coming(n, s, i) && AlwaysResends(cfg, n, s, acts, i)
    requires Q.Active(s.queue, j) && Coming(n, s, j) && AlwaysResends(cfg, n, s, acts, j)
    ensures var (q, evs) := (s.queue, Trace(cfg, n, s, acts));
            && R.Allowed(cfg, q, evs) && i in q.time && j in q.time
            && var gap, bound := F.Gap(q, i, j), cfg.weight + cfg.mtu;
            F.Abs(F.Service(cfg, q, evs, i) - F.Service(cfg, q, evs, j) + gap) <= F.Max(F.Abs(gap), bound)
  {
    hide Q.Inv, P.Inv, P.LegalRun, Q.Active, F.Service, R.Allowed, R.After, F.Backlogged, F.KeepsUp, AlwaysResends,
      Coming, Trace, LegalRun, InputInv;
    ResendingKeepsUp(cfg, n, s, acts, i);
    ResendingKeepsUp(cfg, n, s, acts, j);
    var q, evs := s.queue, Trace(cfg, n, s, acts);
    F.JustSentIsNotWaiting(cfg, q);
    F.BackloggedIffKeepingUp(cfg, q, evs, i, j);
    F.FairShares(cfg, q, evs, i, j);
  }
}
