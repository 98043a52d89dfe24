/**
 * The client's peers on top of the data plane. Every handler calls attach, detach, sink and flow functions
 * whose assertions are preconditions here, so that the handlers verify says none of those assertions fails.
 */
module Clients {
  import opened Options
  import opened DataPlaneSpec
  import opened DataPlanes
  import R = RelaySpec

  /** The desired sink of a flow is the one the relay state names. */
  predicate FlowWired(w: R.Net, f: FlowId, desired: Option<nat>) {
    match f
    case Local(q) => q in w.peers && desired == R.Wanted(w, q)
    case Relayed(src, dst) =>
      src in w.peers && dst in w.peers && desired == if w.peers[dst].haveLink then Some(dst) else None
  }

  /** Sinks are exactly the links; every peer has its local flow; every flow is wired as the state says. */
  ghost predicate Wired(w: R.Net, p: Plane) {
    && (forall s :: s in p.sinks <==> s in w.peers && w.peers[s].haveLink)
    && (forall q :: q in w.peers ==> Local(q) in p.flows)
    && (forall f :: f in p.flows ==> FlowWired(w, f, p.flows[f].desired))
  }

  /** Each relayed flow is on the list of its sink and on the list of its source, once. */
  ghost predicate Listed(peers: set<nat>, toSink: map<nat, seq<nat>>, fromSource: map<nat, seq<nat>>,
        flows: set<FlowId>) {
    && toSink.Keys == peers && fromSource.Keys == peers
    && (forall q :: q in peers ==> R.Distinct(toSink[q]) && R.Distinct(fromSource[q]))
    && (forall src, dst :: dst in peers ==> (src in toSink[dst] <==> Relayed(src, dst) in flows))
    && (forall src, dst :: src in peers ==> (dst in fromSource[src] <==> Relayed(src, dst) in flows))
  }

  class Client {
    var peers: map<nat, R.Peer>
    var waiting: seq<nat>
    var relays: seq<nat>
    var toSink: map<nat, seq<nat>>
    var fromSource: map<nat, seq<nat>>
    const plane: DataPlane

    function Net(): R.Net
      reads this
    {
      R.Net(peers, waiting, relays)
    }

    /** Holds even in the middle of a handler. */
    ghost predicate Mid()
      reads this, plane
    {
      && plane.Valid() && R.Consistent(Net()) && Wired(Net(), plane.Contents())
      && Listed(peers.Keys, toSink, fromSource, plane.flows.Keys)
    }

    ghost predicate Valid()
      reads this, plane
    {
      Mid() && R.Inv(Net())
    }

    constructor ()
      ensures Valid() && Net() == R.NoNet && fresh(plane)
    {
      peers, waiting, relays := map[], [], [];
      toSink, fromSource := map[], map[];
      plane := new DataPlane();
    }

    method AttachFlow(f: FlowId, s: nat)
      requires plane.Valid() && Enabled(plane.Contents(), Attach(f, s))
      modifies plane
      ensures plane.Valid() && plane.sinks.Keys == old(plane.sinks.Keys) && plane.flows.Keys == old(plane.flows.Keys)
      ensures plane.flows == old(plane.flows)[f := old(plane.flows)[f].(desired := Some(s))]
    {
      WishesAfter(plane.Contents(), Attach(f, s));
      plane.Attach(f, s);
    }

    method DetachFlow(f: FlowId)
      requires plane.Valid() && Enabled(plane.Contents(), Detach(f))
      modifies plane
      ensures plane.Valid() && plane.sinks.Keys == old(plane.sinks.Keys) && plane.flows.Keys == old(plane.flows.Keys)
      ensures plane.flows == old(plane.flows)[f := old(plane.flows)[f].(desired := None)]
    {
      WishesAfter(plane.Contents(), Detach(f));
      plane.Detach(f);
    }

    method InitFlow(f: FlowId, buffer: nat)
      requires plane.Valid() && f !in plane.flows && buffer !in plane.buffers
      modifies plane
      ensures plane.Valid() && plane.sinks.Keys == old(plane.sinks.Keys)
      ensures plane.flows.Keys == old(plane.flows.Keys) + {f}
      ensures plane.flows == old(plane.flows)[f := Flow(None, buffer)]
    {
      WishesAfter(plane.Contents(), NewFlow(f, buffer));
      plane.FlowInit(f, buffer);
    }

    method FreeFlow(f: FlowId)
      requires plane.Valid() && f in plane.flows && plane.flows[f].desired.None?
      modifies plane
      ensures plane.Valid() && plane.sinks.Keys == old(plane.sinks.Keys)
      ensures plane.flows.Keys == old(plane.flows.Keys) - {f}
      ensures plane.flows == old(plane.flows) - {f}
    {
      WishesAfter(plane.Contents(), DataPlaneSpec.FreeFlow(f));
      plane.FlowFree(f);
    }

    /** DPRelaySink_Attach */
    method AttachRelayFlows(p: nat)
      requires plane.Valid() && p in plane.sinks && p in peers
      requires Listed(peers.Keys, toSink, fromSource, plane.flows.Keys)
      requires forall f :: f in plane.flows && f.Relayed? && f.dst == p ==> plane.flows[f].desired.None?
      modifies plane
      ensures plane.Valid() && plane.sinks.Keys == old(plane.sinks.Keys) && plane.flows.Keys == old(plane.flows.Keys)
      ensures forall f :: f in plane.flows ==>
                plane.flows[f].desired == if f.Relayed? && f.dst == p then Some(p) else old(plane.flows)[f].desired
    {
      hide Inv, Step;
      var list := toSink[p];
      for k := 0 to |list|
        invariant plane.Valid() && plane.sinks.Keys == old(plane.sinks.Keys)
        invariant plane.flows.Keys == old(plane.flows.Keys)
        invariant forall f :: f in plane.flows ==>
          plane.flows[f].desired == if f.Relayed? && f.dst == p && f.src in list[..k]
            then Some(p) else old(plane.flows)[f].desired
      {
        assert list[k] in list && list[k] !in list[..k];
        AttachFlow(Relayed(list[k], p), p);
        assert list[..k + 1] == list[..k] + [list[k]];
      }
      assert list[..|list|] == list;
    }

    /** DPRelaySink_Detach */
    method DetachRelayFlows(p: nat)
      requires plane.Valid() && p in peers
      requires Listed(peers.Keys, toSink, fromSource, plane.flows.Keys)
      requires forall f :: f in plane.flows && f.Relayed? && f.dst == p ==> plane.flows[f].desired.Some?
      modifies plane
      ensures plane.Valid() && plane.sinks.Keys == old(plane.sinks.Keys) && plane.flows.Keys == old(plane.flows.Keys)
      ensures forall f :: f in plane.flows ==>
                plane.flows[f].desired == if f.Relayed? && f.dst == p then None else old(plane.flows)[f].desired
    {
      hide Inv, Step;
      var list := toSink[p];
      for k := 0 to |list|
        invariant plane.Valid() && plane.sinks.Keys == old(plane.sinks.Keys)
        invariant plane.flows.Keys == old(plane.flows.Keys)
        invariant forall f :: f in plane.flows ==>
          plane.flows[f].desired == if f.Relayed? && f.dst == p && f.src in list[..k]
            then None else old(plane.flows)[f].desired
      {
        assert list[k] in list && list[k] !in list[..k];
        DetachFlow(Relayed(list[k], p));
        assert list[..k + 1] == list[..k] + [list[k]];
      }
      assert list[..|list|] == list;
    }

    /** peer_init_link, when its transport objects can be made */
    method InitLink(p: nat)
      requires Mid() && p in peers && !peers[p].haveLink && peers[p].relaying.None? && !peers[p].waiting
      modifies this`peers, plane
      ensures Mid() && Net() == R.InitLink(old(Net()), p)
    {
      hide Inv, Step, R.Consistent, Wired, Listed;
      ghost var start := plane.Contents();
      R.InitLinkKeeps(Net(), p);
      NoLinkFacts(Net(), start, p);
      WishesAfter(start, NewSink(p));
      plane.SinkInit(p);
      AttachFlow(Local(p), p);
      AttachRelayFlows(p);
      LinkUpWired(Net(), p, start, plane.Contents());
      peers := peers[p := peers[p].(haveLink := true)];
      assert peers.Keys == old(peers.Keys);
    }

    /** peer_free_link */
    method FreeLink(p: nat)
      requires Mid() && p in peers && peers[p].haveLink && !peers[p].isRelay
      modifies this`peers, plane
      ensures Mid() && Net() == R.FreeLink(old(Net()), p)
    {
      hide Inv, Step, R.Consistent, Wired, Listed;
      ghost var start := plane.Contents();
      R.FreeLinkKeeps(Net(), p);
      NobodyElse(Net(), p);
      LinkFacts(Net(), start, p);
      DetachRelayFlows(p);
      DetachFlow(Local(p));
      WishesAfter(plane.Contents(), FreeSink(p));
      plane.SinkFree(p);
      LinkDownWired(Net(), p, start, plane.Contents());
      peers := peers[p := peers[p].(haveLink := false)];
      assert peers.Keys == old(peers.Keys);
    }

    /** peer_register_need_relay */
    method RegisterNeedRelay(p: nat)
      requires Mid() && p in peers && !peers[p].haveLink && peers[p].relaying.None? && !peers[p].waiting
      modifies this`peers, this`waiting
      ensures Mid() && Net() == R.Register(old(Net()), p)
    {
      hide Inv, R.Consistent, Wired, Listed;
      R.RegisterKeeps(Net(), p);
      SameWiring(Net(), R.Register(Net(), p), plane.Contents());
      waiting := waiting + [p];
      peers := peers[p := peers[p].(waiting := true)];
      assert peers.Keys == old(peers.Keys);
    }

    /** peer_unregister_need_relay */
    method UnregisterNeedRelay(p: nat)
      requires Mid() && p in peers && peers[p].waiting
      modifies this`peers, this`waiting
      ensures Mid() && Net() == R.Unregister(old(Net()), p)
    {
      hide Inv, R.Consistent, Wired, Listed;
      R.UnregisterKeeps(Net(), p);
      SameWiring(Net(), R.Unregister(Net(), p), plane.Contents());
      waiting := R.Without(waiting, p);
      peers := peers[p := peers[p].(waiting := false)];
      assert peers.Keys == old(peers.Keys);
    }

    /** peer_install_relaying */
    method InstallRelaying(p: nat, r: nat)
      requires Mid() && p in peers && r in relays && r in peers && p != r
      requires !peers[p].haveLink && peers[p].relaying.None? && !peers[p].waiting
      modifies this`peers, plane
      ensures Mid() && Net() == R.Install(old(Net()), p, r)
    {
      hide Inv, Step, R.Consistent, Wired, Listed;
      ghost var start := plane.Contents();
      R.InstallKeeps(Net(), p, r);
      RelayFacts(Net(), start, p, r);
      peers := peers[r := peers[r].(users := peers[r].users + [p])];
      AttachFlow(Local(p), r);
      InstallWired(old(Net()), p, r, start, plane.Contents());
      peers := peers[p := peers[p].(relaying := Some(r))];
      assert peers.Keys == old(peers.Keys);
    }

    /** peer_free_relaying */
    method FreeRelaying(p: nat)
      requires Mid() && p in peers && peers[p].relaying.Some? && peers[p].relaying.value in peers
      requires peers[p].relaying != Some(p)
      modifies this`peers, plane
      ensures Mid() && Net() == R.FreeRelaying(old(Net()), p)
    {
      hide Inv, Step, R.Consistent, Wired, Listed;
      ghost var start := plane.Contents();
      R.FreeRelayingKeeps(Net(), p);
      RelayedFacts(Net(), start, p);
      var r := peers[p].relaying.value;
      DetachFlow(Local(p));
      peers := peers[r := peers[r].(users := R.Without(peers[r].users, p))];
      FreeRelayingWired(old(Net()), p, start, plane.Contents());
      peers := peers[p := peers[p].(relaying := None)];
      assert peers.Keys == old(peers.Keys);
    }

    /** assign_relays */
    method AssignRelays()
      requires Mid()
      modifies this`peers, this`waiting, plane
      ensures Mid() && R.Inv(Net()) && Net() == R.Assign(old(Net()))
    {
      hide Inv, Step, R.Consistent, R.PeerInv, Wired, Listed;
      while waiting != []
        invariant Mid() && R.Assign(Net()) == R.Assign(old(Net()))
        decreases |waiting|
      {
        var p := waiting[0];
        if relays == [] {
          return;
        }
        var relay := relays[0];
        R.AssignOneKeeps(Net());
        HeadFacts(Net());
        UnregisterNeedRelay(p);
        InstallRelaying(p, relay);
      }
    }

    /** peer_enable_relay_provider */
    method EnableRelayProvider(p: nat)
      requires Mid() && p in peers && peers[p].haveLink && peers[p].canRelay && !peers[p].isRelay
      modifies this`peers, this`waiting, this`relays, plane
      ensures Valid() && Net() == R.EnableRelay(old(Net()), p)
    {
      hide Inv, R.Consistent, Wired, Listed;
      R.MakeRelayKeeps(Net(), p);
      SameWiring(Net(), R.MakeRelay(Net(), p), plane.Contents());
      relays := relays + [p];
      peers := peers[p := peers[p].(isRelay := true, users := [])];
      assert peers.Keys == old(peers.Keys);
      AssignRelays();
    }

    /** The loop of peer_disable_relay_provider over the peers it relays. */
    method EvictUsers(p: nat)
      requires Mid() && p in peers && peers[p].isRelay
      modifies this`peers, this`waiting, plane
      ensures Mid() && p in peers && Net() == R.EvictAll(old(Net()), p)
    {
      hide Inv, Step, R.Consistent, R.PeerInv, Wired, Listed, R.EvictOne;
      while peers[p].users != []
        invariant Mid() && p in peers && R.EvictAll(Net(), p) == R.EvictAll(old(Net()), p)
        decreases |peers[p].users|
      {
        var user := peers[p].users[0];
        R.EvictOneKeeps(Net(), p);
        UserFacts(Net(), user);
        EvictIs(Net(), p);
        FreeRelaying(user);
        RegisterNeedRelay(user);
      }
    }

    lemma EvictIs(w: R.Net, p: nat)
      requires p in w.peers && w.peers[p].users != []
      requires var u := w.peers[p].users[0]; u in w.peers && w.peers[u].relaying == Some(p) && u != p
      ensures R.EvictOne(w, p) == R.Register(R.FreeRelaying(w, w.peers[p].users[0]), w.peers[p].users[0])
      ensures w.peers[p].users[0] in R.FreeRelaying(w, w.peers[p].users[0]).peers
    {
    }

    /** peer_disable_relay_provider */
    method DisableRelayProvider(p: nat)
      requires Mid() && p in peers && peers[p].isRelay
      modifies this`peers, this`waiting, this`relays, plane
      ensures Valid() && Net() == R.DisableRelay(old(Net()), p)
    {
      hide Inv, Step, R.Consistent, Wired, Listed, R.Assign, R.EvictAll, R.DisableRelay;
      EvictUsers(p);
      R.NoRelayKeeps(Net(), p);
      R.DisableIs(old(Net()), p);
      SameWiring(Net(), R.NoRelay(Net(), p), plane.Contents());
      DropRelay(p);
      AssignRelays();
    }

    method DropRelay(p: nat)
      requires p in peers
      modifies this`peers, this`relays
      ensures peers.Keys == old(peers.Keys) && Net() == R.NoRelay(old(Net()), p)
    {
      relays := R.Without(relays, p);
      peers := peers[p := peers[p].(isRelay := false)];
    }

    /** peer_need_relay */
    method NeedRelay(p: nat)
      requires Valid() && p in peers && !peers[p].isRelay
      modifies this`peers, this`waiting, plane
      ensures Valid() && Net() == R.NeedRelay(old(Net()), p)
      ensures R.NeedsRelay(Net(), p) && !peers[p].haveLink && (peers[p].relaying.Some? <==> relays != [])
    {
      R.NeedRelayOwn(Net(), p);
      if peers[p].waiting {
        return;
      }
      R.PeerFacts(Net(), p);
      hide Inv, R.Consistent, Wired, Listed;
      if peers[p].haveLink {
        FreeLink(p);
      } else if peers[p].relaying.Some? {
        FreeRelaying(p);
      }
      RegisterNeedRelay(p);
      AssignRelays();
    }

    /** peer_cleanup_connections */
    method CleanupConnections(p: nat)
      requires Valid() && p in peers
      modifies this`peers, this`waiting, this`relays, plane
      ensures Valid() && Net() == R.Cleanup(old(Net()), p)
    {
      hide Inv, R.Consistent, Wired, Listed;
      R.PeerFacts(Net(), p);
      if peers[p].haveLink {
        if peers[p].isRelay {
          R.DisabledPeer(Net(), p);
          DisableRelayProvider(p);
        }
        FreeLink(p);
      } else if peers[p].relaying.Some? {
        FreeRelaying(p);
      } else if peers[p].waiting {
        UnregisterNeedRelay(p);
      }
    }

    /** peer_connect; linkOk says whether the transport objects could be made. */
    method Connect(p: nat, linkOk: bool)
      requires Valid() && p in peers
      modifies this`peers, this`waiting, this`relays, plane
      ensures Valid() && Net() == R.Step(old(Net()), R.Connect(p, linkOk))
    {
      R.StepKeepsInv(Net(), R.Connect(p, linkOk));
      hide Inv, R.Consistent, Wired, Listed;
      CleanupConnections(p);
      if linkOk {
        InitLink(p);
      } else {
        // cannot get link: peer_reset cleans up again, which finds nothing
        CleanupConnections(p);
      }
    }

    /** peer_reset */
    method Reset(p: nat)
      requires Valid() && p in peers
      modifies this`peers, this`waiting, this`relays, plane
      ensures Valid() && Net() == R.Step(old(Net()), R.Reset(p))
    {
      hide Inv, R.Consistent, Wired, Listed;
      CleanupConnections(p);
    }

    /** The end of peer_bind, or a peer's cannotbind message: set up relaying unless the peer is itself a relay. */
    method BindFailed(p: nat)
      requires Valid() && p in peers
      modifies this`peers, this`waiting, plane
      ensures Valid() && Net() == R.Step(old(Net()), R.BindFailed(p))
    {
      hide Inv, R.Consistent, Wired, Listed;
      if !peers[p].isRelay {
        NeedRelay(p);
      }
    }

    /** peer_dataproto_handler */
    method DataProtoHandler(p: nat, up: bool)
      requires Valid() && p in peers && peers[p].haveLink
      modifies this`peers, this`waiting, this`relays, plane
      ensures Valid() && Net() == R.Step(old(Net()), R.Report(p, up))
    {
      hide Inv, R.Consistent, R.Step, Wired, Listed;
      if up {
        LinkUp(p);
      } else {
        LinkDown(p);
      }
    }

    method LinkUp(p: nat)
      requires Valid() && p in peers && peers[p].haveLink
      modifies this`peers, this`waiting, this`relays, plane
      ensures Valid() && Net() == R.Step(old(Net()), R.Up(p))
    {
      hide Inv, R.Consistent, Wired, Listed, R.EnableRelay;
      if peers[p].canRelay && !peers[p].isRelay {
        EnableRelayProvider(p);
      }
    }

    method LinkDown(p: nat)
      requires Valid() && p in peers && peers[p].haveLink
      modifies this`peers, this`waiting, this`relays, plane
      ensures Valid() && Net() == R.Step(old(Net()), R.Down(p))
    {
      hide Inv, R.Consistent, Wired, Listed, R.DisableRelay;
      if peers[p].isRelay {
        DisableRelayProvider(p);
      }
    }

    /** peer_add: a flow for the peer's frames, no way to send them yet. */
    method PeerAdd(p: nat, canRelay: bool, buffer: nat)
      requires Valid() && p !in peers && buffer !in plane.buffers
      modifies this`peers, this`toSink, this`fromSource, plane
      ensures Valid() && Net() == R.Step(old(Net()), R.NewPeer(p, canRelay))
    {
      hide Inv, Step, R.Consistent, Wired, Listed;
      ghost var start := plane.Contents();
      R.StepKeepsInv(Net(), R.NewPeer(p, canRelay));
      NewPeerFacts(Net(), start, toSink, fromSource, p);
      InitFlow(Local(p), buffer);
      AddWired(Net(), p, canRelay, start, plane.Contents(), buffer);
      AddListed(peers.Keys, toSink, fromSource, start.flows.Keys, p);
      peers := peers[p := R.Peer(canRelay, false, None, false, false, [])];
      toSink := toSink[p := []];
      fromSource := fromSource[p := []];
      assert peers.Keys == old(peers.Keys) + {p} && plane.flows.Keys == start.flows.Keys + {Local(p)};
    }

    /** DPRelayRouter_SubmitFrame, when the flow does not exist yet: create_flow. */
    method CreateRelayFlow(src: nat, dst: nat, buffer: nat)
      requires Valid() && src in peers && dst in peers && Relayed(src, dst) !in plane.flows && buffer !in plane.buffers
      modifies this`toSink, this`fromSource, plane
      ensures Valid() && Net() == old(Net())
      ensures plane.flows.Keys == old(plane.flows.Keys) + {Relayed(src, dst)}
    {
      hide Inv, Step, R.Inv, R.Consistent, Wired, Listed;
      ghost var start := plane.Contents();
      var f := Relayed(src, dst);
      RelayFlowFacts(Net(), start, dst);
      ListKeys(peers.Keys, toSink, fromSource, start.flows.Keys);
      InitFlow(f, buffer);
      LinkListed(peers.Keys, toSink, fromSource, start.flows.Keys, src, dst);
      fromSource := fromSource[src := fromSource[src] + [dst]];
      toSink := toSink[dst := toSink[dst] + [src]];
      if peers[dst].haveLink {
        AttachFlow(f, dst);
      }
      AddFlowWired(Net(), src, dst, start, plane.Contents());
      assert plane.flows.Keys == start.flows.Keys + {f};
    }

    /** free_flow of DPRelay.c, also on inactivity */
    method FreeRelayFlow(src: nat, dst: nat)
      requires Mid() && Relayed(src, dst) in plane.flows && src in peers && dst in peers
      modifies this`toSink, this`fromSource, plane
      ensures Mid() && Net() == old(Net())
      ensures plane.flows.Keys == old(plane.flows.Keys) - {Relayed(src, dst)}
      ensures toSink == old(toSink)[dst := R.Without(old(toSink)[dst], src)]
      ensures fromSource == old(fromSource)[src := R.Without(old(fromSource)[src], dst)]
    {
      hide Inv, Step, R.Consistent, Wired, Listed;
      ghost var start := plane.Contents();
      var f := Relayed(src, dst);
      FlowDesires(Net(), start, f);
      ListKeys(peers.Keys, toSink, fromSource, start.flows.Keys);
      UnlinkListed(peers.Keys, toSink, fromSource, start.flows.Keys, src, dst);
      if peers[dst].haveLink {
        DetachFlow(f);
      }
      toSink := toSink[dst := R.Without(toSink[dst], src)];
      fromSource := fromSource[src := R.Without(fromSource[src], dst)];
      FreeFlow(f);
      RemoveFlowWired(Net(), f, start, plane.Contents());
      assert plane.flows.Keys == start.flows.Keys - {f};
    }

    /** DPRelaySink_Free, DPRelaySource_Free */
    method FreeRelayFlowsOf(p: nat)
      requires Mid() && p in peers
      modifies this`toSink, this`fromSource, plane
      ensures Mid() && Net() == old(Net()) && p in toSink && p in fromSource && toSink[p] == [] && fromSource[p] == []
    {
      hide Inv, R.Consistent, Wired, Listed;
      ListKeys(peers.Keys, toSink, fromSource, plane.flows.Keys);
      while toSink[p] != []
        invariant Mid() && Net() == old(Net()) && p in toSink && p in fromSource
        decreases |toSink[p]|
      {
        ListedFlow(Net(), plane.Contents(), toSink, fromSource, toSink[p][0], p);
        FreeRelayFlow(toSink[p][0], p);
        ListKeys(peers.Keys, toSink, fromSource, plane.flows.Keys);
      }
      while fromSource[p] != []
        invariant Mid() && Net() == old(Net()) && p in toSink && p in fromSource && toSink[p] == []
        decreases |fromSource[p]|
      {
        ListedFlow(Net(), plane.Contents(), toSink, fromSource, p, fromSource[p][0]);
        FreeRelayFlow(p, fromSource[p][0]);
        ListKeys(peers.Keys, toSink, fromSource, plane.flows.Keys);
      }
    }

    /** peer_remove */
    method PeerRemove(p: nat)
      requires Valid() && p in peers
      modifies this, plane
      ensures Valid() && Net() == R.Step(old(Net()), R.EndPeer(p))
    {
      hide Inv, R.Consistent, Wired, WiredBut, Listed;
      R.StepKeepsInv(Net(), R.EndPeer(p));
      CleanupConnections(p);
      FreeRelayFlowsOf(p);
      ghost var start := plane.Contents();
      LocalFacts(Net(), start, p);
      RemoveWired(Net(), start, toSink, fromSource, p);
      FreeFlow(Local(p));
      peers := peers - {p};
      toSink := toSink - {p};
      fromSource := fromSource - {p};
      FewerFlowsWired(Net(), start, plane.Contents(), p);
    }
  }

  lemma NewPeerFacts(w: R.Net, a: Plane, toSink: map<nat, seq<nat>>, fromSource: map<nat, seq<nat>>, p: nat)
    requires Wired(w, a) && p !in w.peers
    ensures Local(p) !in a.flows && forall f :: f in a.flows && f.Relayed? ==> f.src != p && f.dst != p
  {
    forall f | f in a.flows ensures FlowWired(w, f, a.flows[f].desired) { }
  }

  lemma AddWired(w: R.Net, p: nat, canRelay: bool, a: Plane, b: Plane, buffer: nat)
    requires Wired(w, a) && p !in w.peers
    requires b.sinks.Keys == a.sinks.Keys && b.flows == a.flows[Local(p) := Flow(None, buffer)]
    ensures Wired(R.Set(w, p, R.Peer(canRelay, false, None, false, false, [])), b)
  {
    var v := R.Set(w, p, R.Peer(canRelay, false, None, false, false, []));
    forall f | f in b.flows ensures FlowWired(v, f, b.flows[f].desired) {
      if f != Local(p) { assert FlowWired(w, f, a.flows[f].desired); }
    }
  }

  lemma AddListed(peers: set<nat>, toSink: map<nat, seq<nat>>, fromSource: map<nat, seq<nat>>, flows: set<FlowId>,
        p: nat)
    requires Listed(peers, toSink, fromSource, flows)
    requires p !in peers && forall f :: f in flows && f.Relayed? ==> f.src != p && f.dst != p
    ensures Listed(peers + {p}, toSink[p := []], fromSource[p := []], flows + {Local(p)})
  {
  }

  lemma ListKeys(peers: set<nat>, toSink: map<nat, seq<nat>>, fromSource: map<nat, seq<nat>>, flows: set<FlowId>)
    requires Listed(peers, toSink, fromSource, flows)
    ensures toSink.Keys == peers && fromSource.Keys == peers
  {
  }

  lemma RelayFlowFacts(w: R.Net, a: Plane, dst: nat)
    requires Wired(w, a) && dst in w.peers
    ensures dst in a.sinks <==> w.peers[dst].haveLink
  {
  }

  lemma FlowDesires(w: R.Net, a: Plane, f: FlowId)
    requires Wired(w, a) && f in a.flows && f.Relayed?
    ensures f.dst in w.peers && (a.flows[f].desired.Some? <==> w.peers[f.dst].haveLink)
  {
    assert FlowWired(w, f, a.flows[f].desired);
  }

  lemma AddFlowWired(w: R.Net, src: nat, dst: nat, a: Plane, b: Plane)
    requires Wired(w, a) && src in w.peers && dst in w.peers
    requires b.sinks.Keys == a.sinks.Keys && b.flows.Keys == a.flows.Keys + {Relayed(src, dst)}
    requires forall f :: f in b.flows ==>
      b.flows[f].desired == if f == Relayed(src, dst)
        then (if w.peers[dst].haveLink then Some(dst) else None) else a.flows[f].desired
    ensures Wired(w, b)
  {
    forall f | f in b.flows ensures FlowWired(w, f, b.flows[f].desired) {
      if f != Relayed(src, dst) { assert FlowWired(w, f, a.flows[f].desired); }
    }
  }

  lemma RemoveFlowWired(w: R.Net, g: FlowId, a: Plane, b: Plane)
    requires Wired(w, a) && g.Relayed? && b.sinks.Keys == a.sinks.Keys && b.flows.Keys == a.flows.Keys - {g}
    requires forall f :: f in b.flows ==> b.flows[f].desired == a.flows[f].desired
    ensures Wired(w, b)
  {
    forall f | f in b.flows ensures FlowWired(w, f, b.flows[f].desired) { assert FlowWired(w, f, a.flows[f].desired); }
  }

  lemma LinkListed(peers: set<nat>, toSink: map<nat, seq<nat>>, fromSource: map<nat, seq<nat>>, flows: set<FlowId>,
        src: nat, dst: nat)
    requires Listed(peers, toSink, fromSource, flows) && src in peers && dst in peers && Relayed(src, dst) !in flows
    ensures Listed(peers, toSink[dst := toSink[dst] + [src]], fromSource[src := fromSource[src] + [dst]],
              flows + {Relayed(src, dst)})
  {
  }

  lemma UnlinkListed(peers: set<nat>, toSink: map<nat, seq<nat>>, fromSource: map<nat, seq<nat>>, flows: set<FlowId>,
        src: nat, dst: nat)
    requires Listed(peers, toSink, fromSource, flows) && src in peers && dst in peers
    ensures Listed(peers, toSink[dst := R.Without(toSink[dst], src)],
              fromSource[src := R.Without(fromSource[src], dst)],
                   flows - {Relayed(src, dst)})
  {
    R.WithoutMembers(toSink[dst], src);
    R.WithoutMembers(fromSource[src], dst);
  }

  lemma ListedFlow(w: R.Net, a: Plane, toSink: map<nat, seq<nat>>, fromSource: map<nat, seq<nat>>, src: nat, dst: nat)
    requires Wired(w, a) && Listed(w.peers.Keys, toSink, fromSource, a.flows.Keys)
    requires (dst in w.peers && src in toSink[dst]) || (src in w.peers && dst in fromSource[src])
    ensures Relayed(src, dst) in a.flows && src in w.peers && dst in w.peers
    ensures src in toSink[dst] && dst in fromSource[src]
    ensures |R.Without(toSink[dst], src)| < |toSink[dst]| && |R.Without(fromSource[src], dst)| < |fromSource[src]|
    ensures toSink[dst] != [] && fromSource[src] != []
    ensures R.Without([], src) == [] && R.Without([], dst) == []
  {
    assert Relayed(src, dst) in a.flows;
    assert FlowWired(w, Relayed(src, dst), a.flows[Relayed(src, dst)].desired);
    R.WithoutMembers(toSink[dst], src);
    R.WithoutMembers(fromSource[src], dst);
  }

  lemma LocalFacts(w: R.Net, a: Plane, p: nat)
    requires Wired(w, a) && p in w.peers && !w.peers[p].haveLink && w.peers[p].relaying.None?
    ensures Local(p) in a.flows && a.flows[Local(p)].desired.None?
  {
    assert FlowWired(w, Local(p), a.flows[Local(p)].desired);
  }

  /** All flows but the local one of p, who is gone, are wired. */
  ghost predicate WiredBut(v: R.Net, a: Plane, p: nat) {
    && p !in v.peers
    && (forall s :: s in a.sinks <==> s in v.peers && v.peers[s].haveLink)
    && (forall q :: q in v.peers ==> Local(q) in a.flows)
    && (forall f :: f in a.flows && f != Local(p) ==> FlowWired(v, f, a.flows[f].desired))
  }

  lemma RemoveWired(w: R.Net, a: Plane, toSink: map<nat, seq<nat>>, fromSource: map<nat, seq<nat>>, p: nat)
    requires Wired(w, a) && Listed(w.peers.Keys, toSink, fromSource, a.flows.Keys) && p in w.peers
    requires !w.peers[p].haveLink && toSink[p] == [] && fromSource[p] == []
    ensures WiredBut(R.Remove(w, p), a, p)
    ensures Listed(w.peers.Keys - {p}, toSink - {p}, fromSource - {p}, a.flows.Keys - {Local(p)})
  {
    forall f | f in a.flows && f != Local(p) ensures FlowWired(R.Remove(w, p), f, a.flows[f].desired) {
      assert FlowWired(w, f, a.flows[f].desired);
      if f.Relayed? { assert f.src in toSink[f.dst] && f.dst in fromSource[f.src]; }
    }
  }

  lemma FewerFlowsWired(v: R.Net, a: Plane, b: Plane, p: nat)
    requires WiredBut(v, a, p) && b.flows == a.flows - {Local(p)} && b.sinks.Keys == a.sinks.Keys
    ensures Wired(v, b)
  {
  }

  lemma SameWiring(w: R.Net, v: R.Net, a: Plane)
    requires Wired(w, a) && v.peers.Keys == w.peers.Keys
    requires forall q :: q in w.peers ==>
               v.peers[q].haveLink == w.peers[q].haveLink && v.peers[q].relaying == w.peers[q].relaying
    ensures Wired(v, a)
  {
    forall f | f in a.flows ensures FlowWired(v, f, a.flows[f].desired) { assert FlowWired(w, f, a.flows[f].desired); }
  }

  lemma RelayFacts(w: R.Net, a: Plane, p: nat, r: nat)
    requires R.Consistent(w) && Wired(w, a) && p in w.peers && r in w.relays && r in w.peers
    requires !w.peers[p].haveLink && w.peers[p].relaying.None?
    ensures r in a.sinks && Local(p) in a.flows && a.flows[Local(p)].desired.None?
  {
    assert R.PeerInv(w, r);
    assert FlowWired(w, Local(p), a.flows[Local(p)].desired);
  }

  lemma RelayedFacts(w: R.Net, a: Plane, p: nat)
    requires R.Consistent(w) && Wired(w, a) && p in w.peers && w.peers[p].relaying.Some?
    ensures Local(p) in a.flows && a.flows[Local(p)].desired.Some?
  {
    assert FlowWired(w, Local(p), a.flows[Local(p)].desired);
    assert R.PeerInv(w, p);
  }

  lemma InstallWired(w: R.Net, p: nat, r: nat, a: Plane, b: Plane)
    requires Wired(w, a) && p in w.peers && r in w.peers && p != r && !w.peers[p].haveLink && Local(p) in a.flows
    requires b.sinks.Keys == a.sinks.Keys && b.flows == a.flows[Local(p) := a.flows[Local(p)].(desired := Some(r))]
    ensures Wired(R.Install(w, p, r), b)
  {
    var v := R.Install(w, p, r);
    forall f | f in b.flows ensures FlowWired(v, f, b.flows[f].desired) { assert FlowWired(w, f, a.flows[f].desired); }
  }

  lemma FreeRelayingWired(w: R.Net, p: nat, a: Plane, b: Plane)
    requires R.Consistent(w) && Wired(w, a) && p in w.peers && w.peers[p].relaying.Some? && Local(p) in a.flows
    requires w.peers[p].relaying.value in w.peers && w.peers[p].relaying != Some(p)
    requires b.sinks.Keys == a.sinks.Keys && b.flows == a.flows[Local(p) := a.flows[Local(p)].(desired := None)]
    ensures Wired(R.FreeRelaying(w, p), b)
  {
    assert R.PeerInv(w, p);
    var v := R.FreeRelaying(w, p);
    forall f | f in b.flows ensures FlowWired(v, f, b.flows[f].desired) { assert FlowWired(w, f, a.flows[f].desired); }
  }

  lemma HeadFacts(w: R.Net)
    requires R.Consistent(w) && w.waiting != []
    ensures w.waiting[0] in w.peers
    ensures var x := w.peers[w.waiting[0]]; x.waiting && !x.haveLink && x.relaying.None?
  {
    assert w.waiting[0] in w.waiting;
    assert R.PeerInv(w, w.waiting[0]);
  }

  lemma UserFacts(w: R.Net, u: nat)
    requires R.Consistent(w) && u in w.peers && w.peers[u].relaying.Some?
    ensures var x := w.peers[u]; !x.waiting && !x.haveLink && x.relaying.value in w.peers && x.relaying != Some(u)
  {
    R.PeerFacts(w, u);
  }

  predicate UsesLink(f: FlowId, p: nat) {
    f == Local(p) || (f.Relayed? && f.dst == p)
  }

  lemma NoLinkFacts(w: R.Net, a: Plane, p: nat)
    requires Wired(w, a) && p in w.peers && !w.peers[p].haveLink && w.peers[p].relaying.None?
    ensures p !in a.sinks && Local(p) in a.flows
    ensures forall f :: f in a.flows && UsesLink(f, p) ==> a.flows[f].desired.None?
  {
  }

  lemma LinkFacts(w: R.Net, a: Plane, p: nat)
    requires Wired(w, a) && p in w.peers && w.peers[p].haveLink
    requires forall q :: q in w.peers && q != p ==> R.Wanted(w, q) != Some(p)
    ensures p in a.sinks && Local(p) in a.flows
    ensures forall f :: f in a.flows ==> (UsesLink(f, p) <==> a.flows[f].desired == Some(p))
  {
    forall f | f in a.flows ensures UsesLink(f, p) <==> a.flows[f].desired == Some(p) {
      assert FlowWired(w, f, a.flows[f].desired);
    }
  }

  lemma LinkUpWired(w: R.Net, p: nat, a: Plane, b: Plane)
    requires Wired(w, a) && p in w.peers && !w.peers[p].haveLink && w.peers[p].relaying.None?
    requires b.sinks.Keys == a.sinks.Keys + {p} && b.flows.Keys == a.flows.Keys
    requires forall f :: f in a.flows ==> b.flows[f].desired == if UsesLink(f, p) then Some(p) else a.flows[f].desired
    ensures Wired(R.InitLink(w, p), b)
  {
    var v := R.InitLink(w, p);
    forall f | f in b.flows ensures FlowWired(v, f, b.flows[f].desired) { assert FlowWired(w, f, a.flows[f].desired); }
  }

  lemma LinkDownWired(w: R.Net, p: nat, a: Plane, b: Plane)
    requires Wired(w, a) && p in w.peers && w.peers[p].haveLink && w.peers[p].relaying.None?
    requires b.sinks.Keys == a.sinks.Keys - {p} && b.flows.Keys == a.flows.Keys
    requires forall f :: f in a.flows ==> b.flows[f].desired == if UsesLink(f, p) then None else a.flows[f].desired
    ensures Wired(R.FreeLink(w, p), b)
  {
    var v := R.FreeLink(w, p);
    forall f | f in b.flows ensures FlowWired(v, f, b.flows[f].desired) { assert FlowWired(w, f, a.flows[f].desired); }
  }

  /** No other peer's frames go over the link of a peer that is not a relay. */
  lemma NobodyElse(w: R.Net, p: nat)
    requires R.Consistent(w) && p in w.peers && !w.peers[p].isRelay
    ensures forall q :: q in w.peers && q != p ==> R.Wanted(w, q) != Some(p)
    ensures w.peers[p].haveLink ==> w.peers[p].relaying.None?
  {
    forall q | q in w.peers && q != p ensures R.Wanted(w, q) != Some(p) { assert R.PeerInv(w, q); }
    assert R.PeerInv(w, p);
  }

  /** Sends starting and ending on the sinks do not disturb the wiring. */
  lemma SendsKeepWiring(w: R.Net, p: Plane, e: Event)
    requires Inv(p) && Enabled(p, e) && (e.StartSend? || e.EndSend?) && Wired(w, p)
    ensures Wired(w, Step(p, e))
  {
    hide Inv, Step, FlowWired;
    WishesAfter(p, e);
  }
}
