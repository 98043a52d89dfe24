/** PacketPassInterface with its fields, calling into the job stack. */
module PacketPassInterfaces {
  import opened JobStack
  import PacketPass

  class PacketPassInterface {
    const id: nat
    const group: BPendingGroup
    const hasCancel: bool
    var state: PacketPass.State
    var cancelRequested: bool
    ghost var sends: nat
    ghost var withdrawn: nat
    ghost var operations: nat
    ghost var cancels: nat
    ghost var dones: nat

    ghost function View(): PacketPass.World
      reads this, group
    {
      var p := PacketPass.Interface(state, cancelRequested, hasCancel, sends, withdrawn, operations, cancels, dones);
      PacketPass.World(group.jobs, map[id := p])
    }

    constructor (id: nat, group: BPendingGroup, hasCancel: bool)
      ensures this.id == id && this.group == group
      ensures View() == PacketPass.World(group.jobs, map[id := PacketPass.NewInterface(hasCancel)])
    {
      this.id, this.group, this.hasCancel := id, group, hasCancel;
      state, cancelRequested := PacketPass.Idle, false;
      sends, withdrawn, operations, cancels, dones := 0, 0, 0, 0, 0;
    }

    /** PacketPassInterface_Sender_Send */
    method Send()
      requires PacketPass.Enabled(View(), PacketPass.Send(id))
      modifies this, group
      ensures View() == PacketPass.Step(old(View()), PacketPass.Send(id))
    {
      PacketPass.RunOne(group.jobs, Set(Operation(id)));
      group.Set(Operation(id));
      state := PacketPass.OperationPending;
      cancelRequested := false;
      sends := sends + 1;
    }

    /** PacketPassInterface_Sender_RequestCancel */
    method RequestCancel()
      requires PacketPass.Enabled(View(), PacketPass.Cancel(id))
      modifies this, group
      ensures View() == PacketPass.Step(old(View()), PacketPass.Cancel(id))
    {
      if cancelRequested { return; }
      cancelRequested := true;
      if state.OperationPending? {
        PacketPass.RunTwo(group.jobs, Unset(Operation(id)), Set(Finished(id)));
        group.Unset(Operation(id));
        group.Set(Finished(id));
        state := PacketPass.DonePending;
        withdrawn := withdrawn + 1;
      } else if state.Busy? {
        PacketPass.RunOne(group.jobs, Set(Job.RequestCancel(id)));
        group.Set(Job.RequestCancel(id));
      }
    }

    /** PacketPassInterface_Done */
    method Done()
      requires PacketPass.Enabled(View(), PacketPass.Done(id))
      modifies this, group
      ensures View() == PacketPass.Step(old(View()), PacketPass.Done(id))
    {
      PacketPass.RunTwo(group.jobs, Unset(Job.RequestCancel(id)), Set(Finished(id)));
      group.Unset(Job.RequestCancel(id));
      group.Set(Finished(id));
      state := PacketPass.DonePending;
    }

    /** PacketPassInterface_Free: none of its jobs is left. */
    method Free()
      modifies group
      ensures group.jobs == PacketPass.Step(old(View()), PacketPass.FreeInterface(id)).jobs
      ensures Distinct(old(group.jobs)) ==>
                forall j :: j in group.jobs <==> j in old(group.jobs) && (j.Other? || j.i != id)
    {
      if Distinct(group.jobs) { PacketPass.JobsAfter(View(), PacketPass.FreeInterface(id)); }
      PacketPass.RunThree(group.jobs, Unset(Finished(id)), Unset(Job.RequestCancel(id)), Unset(Operation(id)));
      group.Unset(Finished(id));
      group.Unset(Job.RequestCancel(id));
      group.Unset(Operation(id));
    }

    /** BPendingGroup_ExecuteJob for one of this interface's jobs, up to the call of the user's handler. */
    method RunJob() returns (j: Job)
      requires group.jobs != [] && !group.jobs[0].Other? && group.jobs[0].i == id
      requires PacketPass.JobOk(View(), group.jobs[0])
      modifies this, group
      ensures j == old(group.jobs)[0]
      ensures View() == PacketPass.Step(old(View()), PacketPass.RunJob)
    {
      PacketPass.RunOne(group.jobs, Execute);
      j := group.TakeJob();
      match j
      case Operation(_) =>
        state := PacketPass.Busy;
        operations := operations + 1;
      case RequestCancel(_) =>
        cancels := cancels + 1;
      case Finished(_) =>
        state := PacketPass.Idle;
        dones := dones + 1;
    }
  }
}
