/** Flows, buffers and sinks updated in place, branch by branch as the handlers do it. */
module DataPlanes {
  import opened Options
  import opened DataPlaneSpec

  class DataPlane {
    var flows: map<FlowId, Flow>
    var buffers: map<nat, Buffer>
    var sinks: map<nat, Sink>

    function Contents(): Plane
      reads this
    {
      Plane(flows, buffers, sinks)
    }

    ghost predicate Valid()
      reads this
    {
      Inv(Contents())
    }

    constructor ()
      ensures Valid() && Contents() == NoPlane
    {
      flows, buffers, sinks := map[], map[], map[];
    }

    /** flow_buffer_attach */
    method BufferAttach(b: nat, sink: nat)
      requires b in buffers && buffers[b].sink.None?
      modifies this`buffers
      ensures buffers == old(buffers)[b := old(buffers)[b].(sink := Some(sink))]
    {
      buffers := buffers[b := buffers[b].(sink := Some(sink))];
    }

    /**
     * flow_buffer_detach: the buffer's queue flow is freed, which it may be when it is not busy or the queue is
     * going away.
     */
    method BufferDetach(b: nat)
      requires b in buffers && buffers[b].sink.Some? && buffers[b].sink.value in sinks
      modifies this`buffers, this`sinks
      ensures buffers == old(buffers)[b := old(buffers)[b].(sink := None)]
      ensures var s := old(buffers)[b].sink.value;
              sinks == if old(sinks)[s].detaching == Some(b)
                then old(sinks)[s := old(sinks)[s].(detaching := None)] else old(sinks)
    {
      var s := buffers[b].sink.value;
      if sinks[s].detaching == Some(b) {
        sinks := sinks[s := sinks[s].(detaching := None)];
      }
      buffers := buffers[b := buffers[b].(sink := None)];
    }

    /** flow_buffer_schedule_detach */
    method BufferScheduleDetach(b: nat)
      requires b in buffers && IsBusy(Contents(), b)
      requires var s := sinks[buffers[b].sink.value]; s.detaching.None? || s.detaching == Some(b)
      modifies this`sinks
      ensures Contents() == Hold(old(Contents()), b)
    {
      var s := buffers[b].sink.value;
      if sinks[s].detaching == Some(b) {
        assert sinks == sinks[s := sinks[s].(detaching := Some(b))];
        return;
      }
      // the send in progress goes on; its end will find the buffer here
      sinks := sinks[s := sinks[s].(detaching := Some(b))];
    }

    /** flow_buffer_free */
    method BufferFree(b: nat)
      requires b in buffers && buffers[b].sink.None?
      modifies this`buffers
      ensures buffers == old(buffers) - {b}
    {
      buffers := buffers - {b};
    }

    /** flow_buffer_finish_detach, on a sink whose queue no longer sends */
    method BufferFinishDetach(b: nat)
      requires b in buffers && buffers[b].sink.Some? && buffers[b].sink.value in sinks
      requires sinks[buffers[b].sink.value] == Sink(None, Some(b))
      requires buffers[b].flow.Some? ==> buffers[b].flow.value in flows
      modifies this`buffers, this`sinks
      ensures var s := old(buffers)[b].sink.value;
              Contents() == Settle(old(Contents()).(sinks := old(sinks)[s := Sink(None, None)]), b)
    {
      ghost var before := buffers;
      BufferDetach(b);
      if buffers[b].flow.None? {
        BufferFree(b);
        assert buffers == before - {b};
      } else if flows[buffers[b].flow.value].desired.Some? {
        BufferAttach(b, flows[buffers[b].flow.value].desired.value);
      }
    }

    /** DataProtoSink_Init */
    method SinkInit(s: nat)
      requires Valid() && Enabled(Contents(), NewSink(s))
      modifies this
      ensures Valid() && Contents() == Step(old(Contents()), NewSink(s))
    {
      StepKeepsInv(Contents(), NewSink(s));
      sinks := sinks[s := Sink(None, None)];
    }

    /** DataProtoSink_Free: its queue stops, and the buffer it held moves on. */
    method SinkFree(s: nat)
      requires Valid() && Enabled(Contents(), FreeSink(s))
      modifies this
      ensures Valid() && Contents() == Step(old(Contents()), FreeSink(s))
    {
      hide Inv;
      ghost var start := Contents();
      StepKeepsInv(start, FreeSink(s));
      HeldFacts(start, s);
      // from here on a flow may go although its buffer is being sent
      sinks := sinks[s := sinks[s].(busy := None)];
      if sinks[s].detaching.Some? {
        BufferFinishDetach(sinks[s].detaching.value);
      }
      sinks := sinks - {s};
      assert Contents() == Step(start, FreeSink(s));
    }

    /** DataProtoFlow_Init */
    method FlowInit(f: FlowId, b: nat)
      requires Valid() && Enabled(Contents(), NewFlow(f, b))
      modifies this
      ensures Valid() && Contents() == Step(old(Contents()), NewFlow(f, b))
    {
      StepKeepsInv(Contents(), NewFlow(f, b));
      flows := flows[f := Flow(None, b)];
      buffers := buffers[b := Buffer(Some(f), None)];
    }

    /** DataProtoFlow_Free */
    method FlowFree(f: FlowId)
      requires Valid() && Enabled(Contents(), FreeFlow(f))
      modifies this
      ensures Valid() && Contents() == Step(old(Contents()), FreeFlow(f))
    {
      ghost var start := Contents();
      hide Inv;
      StepKeepsInv(start, FreeFlow(f));
      var b := flows[f].buffer;
      FlowFacts(start, f);
      flows := flows - {f};
      if buffers[b].sink.Some? {
        if sinks[buffers[b].sink.value].busy == Some(b) {
          // a send in progress outlives the flow
          BufferScheduleDetach(b);
          buffers := buffers[b := buffers[b].(flow := None)];
        } else {
          BufferDetach(b);
          BufferFree(b);
        }
      } else {
        BufferFree(b);
      }
      assert Contents().buffers == Step(start, FreeFlow(f)).buffers;
    }

    /** DataProtoFlow_Attach */
    method Attach(f: FlowId, s: nat)
      requires Valid() && Enabled(Contents(), DataPlaneSpec.Attach(f, s))
      modifies this
      ensures Valid() && Contents() == Step(old(Contents()), DataPlaneSpec.Attach(f, s))
    {
      ghost var start := Contents();
      hide Inv;
      StepKeepsInv(start, DataPlaneSpec.Attach(f, s));
      var b := flows[f].buffer;
      FlowFacts(start, f);
      if buffers[b].sink.Some? {
        if sinks[buffers[b].sink.value].busy == Some(b) {
          // the buffer follows the wish once the old sink lets go
          BufferScheduleDetach(b);
        } else {
          BufferDetach(b);
          BufferAttach(b, s);
        }
      } else {
        BufferAttach(b, s);
      }
      flows := flows[f := flows[f].(desired := Some(s))];
      assert Contents() == Step(start, DataPlaneSpec.Attach(f, s));
    }

    /** DataProtoFlow_Detach */
    method Detach(f: FlowId)
      requires Valid() && Enabled(Contents(), DataPlaneSpec.Detach(f))
      modifies this
      ensures Valid() && Contents() == Step(old(Contents()), DataPlaneSpec.Detach(f))
    {
      ghost var start := Contents();
      hide Inv;
      StepKeepsInv(start, DataPlaneSpec.Detach(f));
      var b := flows[f].buffer;
      FlowFacts(start, f);
      if sinks[buffers[b].sink.value].busy == Some(b) {
        BufferScheduleDetach(b);
      } else {
        BufferDetach(b);
      }
      flows := flows[f := flows[f].(desired := None)];
    }

    /** The sink's queue picks a packet of a connected buffer. */
    method SendStarted(s: nat, b: nat)
      requires Valid() && Enabled(Contents(), StartSend(s, b))
      modifies this
      ensures Valid() && Contents() == Step(old(Contents()), StartSend(s, b))
      ensures Sending(Contents(), s, b) && sinks[s].detaching == old(sinks[s].detaching)
      ensures flows == old(flows) && buffers == old(buffers) && sinks - {s} == old(sinks) - {s}
    {
      StepKeepsInv(Contents(), StartSend(s, b));
      sinks := sinks[s := sinks[s].(busy := Some(b))];
    }

    /** The queue's send is done; flow_buffer_qflow_handler_busy runs if a detach was scheduled. */
    method SendEnded(s: nat)
      requires Valid() && Enabled(Contents(), EndSend(s))
      modifies this
      ensures Valid() && Contents() == Step(old(Contents()), EndSend(s))
    {
      hide Inv;
      ghost var start := Contents();
      StepKeepsInv(start, EndSend(s));
      HeldFacts(start, s);
      sinks := sinks[s := sinks[s].(busy := None)];
      if sinks[s].detaching.Some? {
        BufferFinishDetach(sinks[s].detaching.value);
      }
      assert Contents() == Step(start, EndSend(s));
    }
  }

  lemma HeldFacts(p: Plane, s: nat)
    requires Inv(p) && s in p.sinks
    ensures var d := p.sinks[s].detaching;
            d.Some? ==> d.value in p.buffers && p.buffers[d.value].sink == Some(s)
                        && (p.buffers[d.value].flow.Some? ==> p.buffers[d.value].flow.value in p.flows)
  {
    assert SinkInv(p, s);
    if p.sinks[s].detaching.Some? { assert BufferInv(p, p.sinks[s].detaching.value); }
  }

  lemma FlowFacts(p: Plane, f: FlowId)
    requires Inv(p) && f in p.flows
    ensures var b := p.flows[f].buffer;
            && b in p.buffers && p.buffers[b].flow == Some(f)
            && (p.buffers[b].sink.Some? ==>
                  && p.buffers[b].sink.value in p.sinks
                  && (var s := p.sinks[p.buffers[b].sink.value];
                      (s.busy == Some(b) ==> s.detaching.None? || s.detaching == Some(b))
                      && (s.busy != Some(b) ==> s.detaching != Some(b))))
            && (p.flows[f].desired.Some? ==> p.buffers[b].sink.Some?)
  {
    var b := p.flows[f].buffer;
    assert BufferInv(p, b);
    if p.buffers[b].sink.Some? { assert SinkInv(p, p.buffers[b].sink.value); }
  }
}
