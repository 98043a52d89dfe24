/**
 * PacketPassInterface: a sender hands over a packet, the provider works on it and says when it is done, the
 * sender may ask to cancel. All calls go through the job stack.
 */
module PacketPass {
  import opened JobStack

  datatype State = Idle | OperationPending | Busy | DonePending

  /**
   * An interface with what has happened on it: Sends, those withdrawn before the provider heard of them, and
   * the callbacks made.
   */
  datatype Interface = Interface(state: State, cancelRequested: bool, hasCancel: bool,
                                 sends: nat, withdrawn: nat, operations: nat, cancels: nat, dones: nat)

  datatype World = World(jobs: seq<Job>, ifs: map<nat, Interface>)

  function NewInterface(hasCancel: bool): Interface {
    Interface(Idle, false, hasCancel, 0, 0, 0, 0, 0)
  }

  /**
   * What senders, providers and the event loop may do. Interfaces come and go. Other(n) stands for anybody
   * else's job.
   */
  datatype Event =
    | Send(i: nat) | Cancel(i: nat) | Done(i: nat)
    | InitInterface(i: nat, hasCancel: bool) | FreeInterface(i: nat)
    | SetOther(n: nat) | UnsetOther(n: nat) | RunJob

  /** The assertions on the caller. */
  predicate Enabled(w: World, ev: Event) {
    match ev
    case Send(i) => i in w.ifs && w.ifs[i].state.Idle?
    case Cancel(i) => i in w.ifs && !w.ifs[i].state.Idle? && w.ifs[i].hasCancel
    case Done(i) => i in w.ifs && w.ifs[i].state.Busy?
    case InitInterface(i, _) => i !in w.ifs
    case FreeInterface(i) => i in w.ifs
    case SetOther(_) => true
    case UnsetOther(_) => true
    case RunJob => w.jobs != []
  }

  /** What the job bodies assert when they run. */
  predicate JobOk(w: World, j: Job) {
    match j
    case Operation(i) => i in w.ifs && w.ifs[i].state.OperationPending?
    case RequestCancel(i) => i in w.ifs && w.ifs[i].state.Busy? && w.ifs[i].cancelRequested && w.ifs[i].hasCancel
    case Finished(i) => i in w.ifs && w.ifs[i].state.DonePending?
    case Other(_) => true
  }

  function Ops(w: World, ev: Event): seq<Op> {
    match ev
    case Send(i) => [Set(Operation(i))]
    case Cancel(i) =>
      if i !in w.ifs || w.ifs[i].cancelRequested then []
      else if w.ifs[i].state.OperationPending? then [Unset(Operation(i)), Set(Finished(i))]
      else if w.ifs[i].state.Busy? then [Set(RequestCancel(i))]
      else []
    case Done(i) => [Unset(RequestCancel(i)), Set(Finished(i))]
    case InitInterface(_, _) => []
    case FreeInterface(i) => [Unset(Finished(i)), Unset(RequestCancel(i)), Unset(Operation(i))]
    case SetOther(n) => [Set(Other(n))]
    case UnsetOther(n) => [Unset(Other(n))]
    case RunJob => [Execute]
  }

  function Sent(p: Interface): Interface {
    p.(state := OperationPending, cancelRequested := false, sends := p.sends + 1)
  }

  function Cancelled(p: Interface): Interface {
    if p.cancelRequested then p
    else if p.state.OperationPending?
      then p.(cancelRequested := true, state := DonePending, withdrawn := p.withdrawn + 1)
    else p.(cancelRequested := true)
  }

  function Ran(p: Interface, j: Job): Interface {
    match j
    case Operation(_) => p.(state := Busy, operations := p.operations + 1)
    case RequestCancel(_) => p.(cancels := p.cancels + 1)
    case Finished(_) => p.(state := Idle, dones := p.dones + 1)
    case Other(_) => p
  }

  function Changed(w: World, ev: Event): map<nat, Interface>
    requires Enabled(w, ev)
  {
    match ev
    case Send(i) => w.ifs[i := Sent(w.ifs[i])]
    case Cancel(i) => w.ifs[i := Cancelled(w.ifs[i])]
    case Done(i) => w.ifs[i := w.ifs[i].(state := DonePending)]
    case InitInterface(i, hasCancel) => w.ifs[i := NewInterface(hasCancel)]
    case FreeInterface(i) => w.ifs - {i}
    case SetOther(_) => w.ifs
    case UnsetOther(_) => w.ifs
    case RunJob =>
      var j := w.jobs[0];
      if !j.Other? && j.i in w.ifs then w.ifs[j.i := Ran(w.ifs[j.i], j)] else w.ifs
  }

  function Step(w: World, ev: Event): World
    requires Enabled(w, ev)
  {
    World(Run(w.jobs, Ops(w, ev)), Changed(w, ev))
  }

  ghost predicate LegalRun(w: World, evs: seq<Event>)
    decreases |evs|
  {
    evs != [] ==> Enabled(w, evs[0]) && LegalRun(Step(w, evs[0]), evs[1..])
  }

  function Play(w: World, evs: seq<Event>): World
    requires LegalRun(w, evs)
    decreases |evs|
  {
    if evs == [] then w else Play(Step(w, evs[0]), evs[1..])
  }

  // ----- what every run keeps -----

  /** Interface i and its jobs: a job is set exactly in the state that waits for it, and the counts tell a history. */
  ghost predicate InterfaceInv(w: World, i: nat)
    requires i in w.ifs
  {
    var p := w.ifs[i];
    && (Operation(i) in w.jobs <==> p.state.OperationPending?)
    && (Finished(i) in w.jobs <==> p.state.DonePending?)
    && (RequestCancel(i) in w.jobs ==> p.state.Busy? && p.cancelRequested && p.hasCancel)
    && (p.cancelRequested ==> p.hasCancel)
    && p.sends == p.dones + (if p.state.Idle? then 0 else 1)
    && p.sends == p.operations + p.withdrawn + (if p.state.OperationPending? then 1 else 0)
    && p.cancels + (if RequestCancel(i) in w.jobs || (!p.state.Idle? && !p.cancelRequested) then 1 else 0) <= p.sends
    && (p.state.OperationPending? ==> !p.cancelRequested)
  }

  ghost predicate Inv(w: World) {
    && Distinct(w.jobs)
    && (forall i :: i in w.ifs ==> InterfaceInv(w, i))
    && (forall j :: j in w.jobs && !j.Other? ==> j.i in w.ifs)
  }

  /** Whether job j is set after an event. */
  ghost predicate SetAfter(w: World, ev: Event, j: Job)
    requires Enabled(w, ev)
  {
    match ev
    case Send(i) => j in w.jobs || j == Operation(i)
    case Cancel(i) =>
      var p := w.ifs[i];
      if p.cancelRequested || p.state.DonePending? then j in w.jobs
      else if p.state.OperationPending? then (j in w.jobs && j != Operation(i)) || j == Finished(i)
      else j in w.jobs || j == RequestCancel(i)
    case Done(i) => (j in w.jobs && j != RequestCancel(i)) || j == Finished(i)
    case InitInterface(_, _) => j in w.jobs
    case FreeInterface(i) => j in w.jobs && (j.Other? || j.i != i)
    case SetOther(n) => j in w.jobs || j == Other(n)
    case UnsetOther(n) => j in w.jobs && j != Other(n)
    case RunJob => j in w.jobs && j != w.jobs[0]
  }

  lemma RunOne(jobs: seq<Job>, op: Op)
    ensures Run(jobs, [op]) == Apply(jobs, op)
  {
    assert [op][1..] == [];
  }

  lemma RunTwo(jobs: seq<Job>, a: Op, b: Op)
    ensures Run(jobs, [a, b]) == Apply(Apply(jobs, a), b)
  {
    assert [a, b][1..] == [b];
    RunOne(Apply(jobs, a), b);
  }

  lemma RunThree(jobs: seq<Job>, a: Op, b: Op, c: Op)
    ensures Run(jobs, [a, b, c]) == Apply(Apply(Apply(jobs, a), b), c)
  {
    assert [a, b, c][1..] == [b, c];
    RunTwo(Apply(jobs, a), b, c);
  }

  lemma OpMembers(jobs: seq<Job>, op: Op)
    requires Distinct(jobs)
    ensures Distinct(Apply(jobs, op))
    ensures forall j :: j in Apply(jobs, op) <==>
              match op
              case Set(k) => j in jobs || j == k
              case Unset(k) => j in jobs && j != k
              case Execute => jobs != [] && j in jobs && j != jobs[0]
  {
    ApplyKeepsDistinct(jobs, op);
    if op.Execute? && jobs != [] {
      assert jobs == [jobs[0]] + jobs[1..];
    }
  }

  lemma JobsAfter(w: World, ev: Event)
    requires Distinct(w.jobs) && Enabled(w, ev)
    ensures Distinct(Step(w, ev).jobs)
    ensures forall j :: j in Step(w, ev).jobs <==> SetAfter(w, ev, j)
  {
    var ops := Ops(w, ev);
    hide Apply, Distinct, Changed;
    if |ops| == 1 {
      assert ops == [ops[0]];
      RunOne(w.jobs, ops[0]);
      OpMembers(w.jobs, ops[0]);
    } else if |ops| == 2 {
      assert ops == [ops[0], ops[1]];
      RunTwo(w.jobs, ops[0], ops[1]);
      OpMembers(w.jobs, ops[0]);
      OpMembers(Apply(w.jobs, ops[0]), ops[1]);
    } else if ev.FreeInterface? {
      assert ops == [ops[0], ops[1], ops[2]];
      RunThree(w.jobs, ops[0], ops[1], ops[2]);
      OpMembers(w.jobs, ops[0]);
      OpMembers(Apply(w.jobs, ops[0]), ops[1]);
      OpMembers(Apply(Apply(w.jobs, ops[0]), ops[1]), ops[2]);
    }
  }

  /** When a job is run, what its body asserts holds. */
  lemma JobsMeetTheirAssertions(w: World)
    requires Inv(w) && w.jobs != []
    ensures JobOk(w, w.jobs[0])
  {
    var j := w.jobs[0];
    assert j in w.jobs;
    if !j.Other? { assert InterfaceInv(w, j.i); }
  }

  lemma InterfaceKeeps(w: World, ev: Event, k: nat)
    requires Inv(w) && Enabled(w, ev) && k in Step(w, ev).ifs
    ensures InterfaceInv(Step(w, ev), k)
  {
    hide Run, Ops, Distinct;
    JobsAfter(w, ev);
    assert k in w.ifs ==> InterfaceInv(w, k);
    if ev.RunJob? { JobsMeetTheirAssertions(w); }
  }

  lemma StepKeepsInv(w: World, ev: Event)
    requires Inv(w) && Enabled(w, ev)
    ensures Inv(Step(w, ev))
  {
    JobsAfter(w, ev);
    forall k | k in Step(w, ev).ifs ensures InterfaceInv(Step(w, ev), k) { InterfaceKeeps(w, ev, k); }
    hide Run, Ops, Distinct, InterfaceInv;
  }

  lemma {:induction false} PlayKeepsInv(w: World, evs: seq<Event>)
    requires Inv(w) && LegalRun(w, evs)
    ensures Inv(Play(w, evs))
    decreases |evs|
  {
    if evs != [] {
      StepKeepsInv(w, evs[0]);
      PlayKeepsInv(Step(w, evs[0]), evs[1..]);
    }
  }

  /**
   * Each Send on an interface gets exactly one done callback, however and whenever it is cancelled: none is made
   * before the next Send is possible, and there is at most one cancel callback for it. When the event loop has no job
   * left, whoever has not had it waits for the provider, who has been called.
   */
  lemma OneDonePerSend(w: World, evs: seq<Event>, i: nat)
    requires Inv(w) && LegalRun(w, evs) && i in Play(w, evs).ifs
    ensures var r := Play(w, evs);
            var p := r.ifs[i];
            && p.dones == p.sends - (if p.state.Idle? then 0 else 1)
            && p.operations + p.withdrawn == p.sends - (if p.state.OperationPending? then 1 else 0)
            && p.cancels <= p.sends
            && (r.jobs == [] ==> p.state.Idle? || p.state.Busy?)
  {
    PlayKeepsInv(w, evs);
    assert InterfaceInv(Play(w, evs), i);
  }

  // ----- cancelling -----

  /**
   * What a request to cancel does: a packet the provider has not heard of is withdrawn, and done at once; a
   * provider at work is to be told; and one that was told, or has finished, is left alone.
   */
  lemma CancelMeans(w: World, i: nat)
    requires Inv(w) && Enabled(w, Cancel(i))
    ensures var (r, p, q) := (Step(w, Cancel(i)), w.ifs[i], Step(w, Cancel(i)).ifs[i]);
            && (p.state.OperationPending? ==>
                  && q == p.(state := DonePending, cancelRequested := true, withdrawn := p.withdrawn + 1)
                  && Operation(i) !in r.jobs && Finished(i) in r.jobs && RequestCancel(i) !in r.jobs)
            && (p.state.Busy? && !p.cancelRequested ==>
                  q == p.(cancelRequested := true) && RequestCancel(i) in r.jobs)
            && (p.cancelRequested || p.state.DonePending? ==>
                  q == p.(cancelRequested := true) && r.jobs == w.jobs)
  {
    JobsAfter(w, Cancel(i));
    assert InterfaceInv(w, i);
    hide Apply;
  }

  /** The provider working for interface i has been told to stop since it had c cancel callbacks, or is to be. */
  ghost predicate ToBeTold(w: World, i: nat, c: nat) {
    && i in w.ifs && w.ifs[i].state.Busy? && w.ifs[i].cancelRequested
    && w.ifs[i].cancels + (if RequestCancel(i) in w.jobs then 1 else 0) == c + 1
  }

  lemma StillToBeTold(w: World, ev: Event, i: nat, c: nat)
    requires Inv(w) && Enabled(w, ev) && ToBeTold(w, i, c) && ev != Done(i) && ev != FreeInterface(i)
    ensures ToBeTold(Step(w, ev), i, c)
  {
    JobsAfter(w, ev);
    assert InterfaceInv(w, i);
    if ev.RunJob? { JobsMeetTheirAssertions(w); }
    hide Run, Ops, Distinct, InterfaceInv;
  }

  lemma {:induction false} RunToBeTold(w: World, evs: seq<Event>, i: nat, c: nat)
    requires Inv(w) && LegalRun(w, evs) && ToBeTold(w, i, c) && Done(i) !in evs && FreeInterface(i) !in evs
    ensures ToBeTold(Play(w, evs), i, c)
    decreases |evs|
  {
    hide InterfaceInv, Distinct, Step, Enabled, ToBeTold;
    if evs != [] {
      StepKeepsInv(w, evs[0]);
      StillToBeTold(w, evs[0], i, c);
      RunToBeTold(Step(w, evs[0]), evs[1..], i, c);
    }
  }

  /**
   * A provider at work hears of a cancel request exactly once: as long as it is not done, the callback was made or
   * its job is set, and when the event loop has no job left it was made.
   */
  lemma CancelIsHeard(w: World, evs: seq<Event>, i: nat)
    requires Inv(w) && Enabled(w, Cancel(i)) && w.ifs[i].state.Busy? && !w.ifs[i].cancelRequested
    requires LegalRun(Step(w, Cancel(i)), evs) && Done(i) !in evs && FreeInterface(i) !in evs
    ensures var r := Play(Step(w, Cancel(i)), evs);
            && i in r.ifs && r.ifs[i].state.Busy?
            && r.ifs[i].cancels == w.ifs[i].cancels + (if RequestCancel(i) in r.jobs then 0 else 1)
            && (r.jobs == [] ==> r.ifs[i].cancels == w.ifs[i].cancels + 1)
  {
    CancelMeans(w, i);
    StepKeepsInv(w, Cancel(i));
    hide Inv, Step, Play, LegalRun;
    RunToBeTold(Step(w, Cancel(i)), evs, i, w.ifs[i].cancels);
  }

  // ----- sending -----

  /** Interface i has had more than n operation callbacks, or is to have one. */
  ghost predicate ToBeOperated(w: World, i: nat, n: nat) {
    i in w.ifs && w.ifs[i].operations + (if Operation(i) in w.jobs then 1 else 0) > n
  }

  lemma StillToBeOperated(w: World, ev: Event, i: nat, n: nat)
    requires Inv(w) && Enabled(w, ev) && ToBeOperated(w, i, n) && ev != Cancel(i) && ev != FreeInterface(i)
    ensures ToBeOperated(Step(w, ev), i, n)
  {
    JobsAfter(w, ev);
    hide Run, Ops, Distinct, InterfaceInv;
  }

  lemma {:induction false} RunToBeOperated(w: World, evs: seq<Event>, i: nat, n: nat)
    requires Inv(w) && LegalRun(w, evs) && ToBeOperated(w, i, n) && Cancel(i) !in evs && FreeInterface(i) !in evs
    ensures Inv(Play(w, evs)) && ToBeOperated(Play(w, evs), i, n)
    decreases |evs|
  {
    hide InterfaceInv, Distinct, Step, Enabled, ToBeOperated;
    if evs != [] {
      StepKeepsInv(w, evs[0]);
      StillToBeOperated(w, evs[0], i, n);
      RunToBeOperated(Step(w, evs[0]), evs[1..], i, n);
    }
  }

  /** A Send that is not cancelled reaches the provider, at the latest when the event loop has no job left. */
  lemma SendIsHeard(w: World, evs: seq<Event>, i: nat)
    requires Inv(w) && Enabled(w, Send(i))
    requires LegalRun(Step(w, Send(i)), evs) && Cancel(i) !in evs && FreeInterface(i) !in evs
    ensures var r := Play(Step(w, Send(i)), evs);
            && i in r.ifs && (r.ifs[i].operations > w.ifs[i].operations || Operation(i) in r.jobs)
            && (r.jobs == [] ==> r.ifs[i].operations > w.ifs[i].operations)
  {
    JobsAfter(w, Send(i));
    StepKeepsInv(w, Send(i));
    assert ToBeOperated(Step(w, Send(i)), i, w.ifs[i].operations);
    hide Inv, Step, Play, LegalRun;
    RunToBeOperated(Step(w, Send(i)), evs, i, w.ifs[i].operations);
  }

  // ----- what a job may count on -----

  ghost predicate NoJobBelow(w: World, j: Job, i: nat) {
    && Operation(i) !in Below(w.jobs, j) && RequestCancel(i) !in Below(w.jobs, j) && Finished(i) !in Below(w.jobs, j)
  }

  /** j stays set and is not set or unset again through the run. */
  ghost predicate Undisturbed(w: World, evs: seq<Event>, j: Job)
    requires LegalRun(w, evs)
    decreases |evs|
  {
    && j in w.jobs
    && (evs != [] ==>
          && (forall op :: op in Ops(w, evs[0]) ==> !Mentions(op, j))
          && Undisturbed(Step(w, evs[0]), evs[1..], j))
  }

  lemma StepBelow(w: World, ev: Event, j: Job)
    requires Distinct(w.jobs) && Enabled(w, ev) && j in w.jobs && j in Step(w, ev).jobs
    requires forall op :: op in Ops(w, ev) ==> !Mentions(op, j)
    ensures forall x :: x in Below(Step(w, ev).jobs, j) ==> x in Below(w.jobs, j)
  {
    var ops := Ops(w, ev);
    hide Apply, Distinct, Below, Changed;
    if |ops| == 1 {
      assert ops == [ops[0]];
      RunOne(w.jobs, ops[0]);
      BelowShrinks(w.jobs, ops[0], j);
    } else if |ops| == 2 {
      assert ops == [ops[0], ops[1]];
      RunTwo(w.jobs, ops[0], ops[1]);
      OpMembers(w.jobs, ops[0]);
      BelowShrinks(Apply(w.jobs, ops[0]), ops[1], j);
      BelowShrinks(w.jobs, ops[0], j);
    } else if ev.FreeInterface? {
      var a := Apply(w.jobs, ops[0]);
      assert ops == [ops[0], ops[1], ops[2]];
      RunThree(w.jobs, ops[0], ops[1], ops[2]);
      OpMembers(w.jobs, ops[0]);
      OpMembers(a, ops[1]);
      BelowShrinks(Apply(a, ops[1]), ops[2], j);
      BelowShrinks(a, ops[1], j);
      BelowShrinks(w.jobs, ops[0], j);
    }
  }

  lemma {:induction false} UndisturbedBelow(w: World, evs: seq<Event>, j: Job)
    requires Inv(w) && LegalRun(w, evs) && Undisturbed(w, evs, j)
    ensures Inv(Play(w, evs)) && j in Play(w, evs).jobs
    ensures forall x :: x in Below(Play(w, evs).jobs, j) ==> x in Below(w.jobs, j)
    decreases |evs|
  {
    hide InterfaceInv, Below, Step, SetAfter;
    if evs != [] {
      StepKeepsInv(w, evs[0]);
      StepBelow(w, evs[0], j);
      UndisturbedBelow(Step(w, evs[0]), evs[1..], j);
    }
  }

  /** The done callback for the d-th Send was made, or its job is still to run. */
  predicate DoneComes(p: Interface, d: nat) {
    p.dones > d || (p.state.DonePending? && p.dones == d)
  }

  lemma {:induction false} DoneNotForgotten(w: World, evs: seq<Event>, i: nat, d: nat)
    requires Inv(w) && LegalRun(w, evs) && i in w.ifs && DoneComes(w.ifs[i], d) && FreeInterface(i) !in evs
    ensures i in Play(w, evs).ifs && DoneComes(Play(w, evs).ifs[i], d)
    decreases |evs|
  {
    if evs != [] {
      StepKeepsInv(w, evs[0]);
      if evs[0].RunJob? { JobsMeetTheirAssertions(w); }
      assert DoneComes(Step(w, evs[0]).ifs[i], d);
      hide InterfaceInv, Distinct, Step, Enabled;
      DoneNotForgotten(Step(w, evs[0]), evs[1..], i, d);
    }
  }

  /**
   * The fair queue sets its schedule job and then calls Done for the flow that was sent. When the schedule
   * job comes up, that flow has had its done callback, and each Send made since, from there or later, has
   * reached the provider (the queue) or was withdrawn: nothing of the flow is pending.
   */
  lemma ResendComesFirst(w: World, evs: seq<Event>, n: nat, i: nat)
    requires Inv(w) && i in w.ifs && w.ifs[i].state.Busy? && Other(n) !in w.jobs
    requires LegalRun(Step(Step(w, SetOther(n)), Done(i)), evs) && FreeInterface(i) !in evs
    requires Undisturbed(Step(Step(w, SetOther(n)), Done(i)), evs, Other(n))
    ensures var r := Play(Step(Step(w, SetOther(n)), Done(i)), evs);
            i in r.ifs && (r.jobs != [] && r.jobs[0] == Other(n) ==>
              var p, q := w.ifs[i], r.ifs[i];
              && q.dones > p.dones && (q.state.Idle? || q.state.Busy?)
              && q.sends - p.sends == (q.operations - p.operations) + (q.withdrawn - p.withdrawn))
  {
    AfterDone(w, n, i);
    hide Run, Ops, Distinct, Step, Play, LegalRun, Undisturbed, Inv, InterfaceInv, Below;
    var before := Step(Step(w, SetOther(n)), Done(i));
    UndisturbedBelow(before, evs, Other(n));
    DoneNotForgotten(before, evs, i, w.ifs[i].dones);
    var r := Play(before, evs);
    Counts(w, i);
    Counts(r, i);
    if r.jobs != [] && r.jobs[0] == Other(n) { OnTop(r.jobs); }
  }

  lemma Counts(w: World, i: nat)
    requires Inv(w) && i in w.ifs
    ensures var p := w.ifs[i];
            && p.sends == p.operations + p.withdrawn + (if p.state.OperationPending? then 1 else 0)
            && (p.state.OperationPending? ==> Operation(i) in w.jobs)
            && (p.state.DonePending? ==> Finished(i) in w.jobs)
  {
    assert InterfaceInv(w, i);
  }

  lemma OnTop(jobs: seq<Job>)
    requires jobs != []
    ensures forall j :: j in jobs ==> j == jobs[0] || j in Below(jobs, jobs[0])
  {
    assert jobs == [jobs[0]] + jobs[1..];
    assert Below(jobs, jobs[0]) == jobs[1..];
  }

  lemma AfterDone(w: World, n: nat, i: nat)
    requires Inv(w) && i in w.ifs && w.ifs[i].state.Busy? && Other(n) !in w.jobs
    ensures Enabled(w, SetOther(n)) && Enabled(Step(w, SetOther(n)), Done(i))
    ensures var before := Step(Step(w, SetOther(n)), Done(i));
            && Inv(before) && Other(n) in before.jobs && NoJobBelow(before, Other(n), i)
            && i in before.ifs && DoneComes(before.ifs[i], w.ifs[i].dones)
  {
    var a := Step(w, SetOther(n));
    StepKeepsInv(w, SetOther(n));
    StepKeepsInv(a, Done(i));
    JobsAfter(w, SetOther(n));
    JobsAfter(a, Done(i));
    SetOnTop(w, n);
    StepBelow(a, Done(i), Other(n));
    BelowMembers(Step(a, Done(i)).jobs, Other(n));
    assert InterfaceInv(w, i);
    hide Below, Run, Apply, Distinct, InterfaceInv;
  }

  lemma SetOnTop(w: World, n: nat)
    requires Inv(w) && Other(n) !in w.jobs
    ensures forall x :: x in Below(Step(w, SetOther(n)).jobs, Other(n)) ==> x in w.jobs
  {
    RunOne(w.jobs, Set(Other(n)));
    var jobs := Apply(w.jobs, Set(Other(n)));
    assert jobs[1..] == Without(w.jobs, Other(n));
    WithoutMembers(w.jobs, Other(n));
  }
}
