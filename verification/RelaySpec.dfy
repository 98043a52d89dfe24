/**
 * How frames reach each peer: over its own link, through another peer that relays, or not at all while
 * it waits for a relay.
 */
module RelaySpec {
  import opened Options

  /**
   * The fields of struct peer_data this is about; `users` is relay_users, `canRelay` the server's RELAY_SERVER
   * flag.
   */
  datatype Peer = Peer(canRelay: bool, haveLink: bool, relaying: Option<nat>, waiting: bool, isRelay: bool,
    users: seq<nat>)

  /** All peers, and the lists waiting_relay_peers and relays. */
  datatype Net = Net(peers: map<nat, Peer>, waiting: seq<nat>, relays: seq<nat>)

  const NoNet := Net(map[], [], [])

  function Set(w: Net, p: nat, x: Peer): Net {
    w.(peers := w.peers[p := x])
  }

  /** LinkedList1_Remove */
  function Without(s: seq<nat>, x: nat): seq<nat> {
    if s == [] then [] else if s[0] == x then s[1..] else [s[0]] + Without(s[1..], x)
  }

  ghost predicate Distinct(s: seq<nat>) {
    forall i, j :: 0 <= i < j < |s| ==> s[i] != s[j]
  }

  /** The sink the state names for frames to p: its own, its relay's, or none. */
  function Wanted(w: Net, p: nat): Option<nat>
    requires p in w.peers
  {
    if w.peers[p].haveLink then Some(p) else w.peers[p].relaying
  }

  ghost predicate PeerInv(w: Net, p: nat)
    requires p in w.peers
  {
    var x := w.peers[p];
    && !(x.haveLink && x.relaying.Some?) && !(x.haveLink && x.waiting) && !(x.relaying.Some? && x.waiting)
    && (x.isRelay ==> x.haveLink && x.canRelay)
    && (x.isRelay <==> p in w.relays)
    && (x.waiting <==> p in w.waiting)
    && (x.relaying.Some? ==>
          && x.relaying.value in w.peers && w.peers[x.relaying.value].isRelay
          && p in w.peers[x.relaying.value].users)
    && (forall u :: u in x.users ==> u in w.peers && w.peers[u].relaying == Some(p))
    && Distinct(x.users)
    && (!x.isRelay ==> x.users == [])
  }

  /** Holds even in the middle of a handler. */
  ghost predicate Consistent(w: Net) {
    && (forall p :: p in w.peers ==> PeerInv(w, p))
    && (forall p :: p in w.waiting ==> p in w.peers)
    && (forall p :: p in w.relays ==> p in w.peers)
    && Distinct(w.waiting) && Distinct(w.relays)
  }

  /** Between events nobody waits while there is a relay. */
  ghost predicate Inv(w: Net) {
    Consistent(w) && (w.waiting == [] || w.relays == [])
  }

  // ----- the pieces handlers are made of -----

  /** peer_init_link */
  function InitLink(w: Net, p: nat): Net
    requires p in w.peers
  {
    Set(w, p, w.peers[p].(haveLink := true))
  }

  /** peer_free_link */
  function FreeLink(w: Net, p: nat): Net
    requires p in w.peers
  {
    Set(w, p, w.peers[p].(haveLink := false))
  }

  /** peer_register_need_relay */
  function Register(w: Net, p: nat): Net
    requires p in w.peers
  {
    Set(w, p, w.peers[p].(waiting := true)).(waiting := w.waiting + [p])
  }

  /** peer_unregister_need_relay */
  function Unregister(w: Net, p: nat): Net
    requires p in w.peers
  {
    Set(w, p, w.peers[p].(waiting := false)).(waiting := Without(w.waiting, p))
  }

  /** peer_install_relaying */
  function Install(w: Net, p: nat, r: nat): Net
    requires p in w.peers && r in w.peers && p != r
  {
    Set(Set(w, r, w.peers[r].(users := w.peers[r].users + [p])), p, w.peers[p].(relaying := Some(r)))
  }

  /** peer_free_relaying */
  function FreeRelaying(w: Net, p: nat): Net
    requires p in w.peers && w.peers[p].relaying.Some? && w.peers[p].relaying.value in w.peers
    requires w.peers[p].relaying != Some(p)
  {
    var r := w.peers[p].relaying.value;
    Set(Set(w, r, w.peers[r].(users := Without(w.peers[r].users, p))), p, w.peers[p].(relaying := None))
  }

  lemma {:induction false} WithoutMembers(s: seq<nat>, x: nat)
    requires Distinct(s)
    ensures Distinct(Without(s, x)) && forall y :: y in Without(s, x) <==> y in s && y != x
    ensures x in s ==> |Without(s, x)| == |s| - 1
  {
    if s != [] {
      WithoutMembers(s[1..], x);
      assert s == [s[0]] + s[1..];
      assert forall i :: 0 < i < |s| ==> s[i] != s[0];
      var r := Without(s[1..], x);
      forall i | 0 <= i < |r| ensures r[i] != s[0] { assert r[i] in r; }
    }
  }

  lemma PeerFacts(w: Net, p: nat)
    requires Consistent(w) && p in w.peers
    ensures PeerInv(w, p)
    ensures w.peers[p].relaying != Some(p)
    ensures w.peers[p].relaying.Some? ==> PeerInv(w, w.peers[p].relaying.value)
  {
    assert PeerInv(w, p);
    if w.peers[p].relaying.Some? { assert PeerInv(w, w.peers[p].relaying.value); }
  }

  lemma InitLinkKeeps(w: Net, p: nat)
    requires Consistent(w) && p in w.peers
    requires var x := w.peers[p]; !x.haveLink && x.relaying.None? && !x.waiting
    ensures Consistent(InitLink(w, p))
  {
    var v := InitLink(w, p);
    forall q | q in v.peers ensures PeerInv(v, q) { assert PeerInv(w, q); }
  }

  lemma FreeLinkKeeps(w: Net, p: nat)
    requires Consistent(w) && p in w.peers && w.peers[p].haveLink && !w.peers[p].isRelay
    ensures Consistent(FreeLink(w, p))
  {
    var v := FreeLink(w, p);
    forall q | q in v.peers ensures PeerInv(v, q) { assert PeerInv(w, q); }
  }

  lemma RegisterKeeps(w: Net, p: nat)
    requires Consistent(w) && p in w.peers
    requires var x := w.peers[p]; !x.haveLink && x.relaying.None? && !x.waiting
    ensures Consistent(Register(w, p))
  {
    var v := Register(w, p);
    forall q | q in v.peers ensures PeerInv(v, q) { assert PeerInv(w, q); }
    assert PeerInv(w, p);
  }

  lemma UnregisterKeeps(w: Net, p: nat)
    requires Consistent(w) && p in w.peers && w.peers[p].waiting
    ensures Consistent(Unregister(w, p))
  {
    var v := Unregister(w, p);
    WithoutMembers(w.waiting, p);
    forall q | q in v.peers ensures PeerInv(v, q) { assert PeerInv(w, q); }
  }

  lemma InstallKeeps(w: Net, p: nat, r: nat)
    requires Consistent(w) && p in w.peers && r in w.relays
    requires var x := w.peers[p]; !x.haveLink && x.relaying.None? && !x.waiting
    ensures r in w.peers && p != r && Consistent(Install(w, p, r))
  {
    assert PeerInv(w, r) && PeerInv(w, p);
    var v := Install(w, p, r);
    forall q | q in v.peers ensures PeerInv(v, q) { assert PeerInv(w, q); }
  }

  lemma FreeRelayingKeeps(w: Net, p: nat)
    requires Consistent(w) && p in w.peers && w.peers[p].relaying.Some?
    ensures w.peers[p].relaying.value in w.peers && w.peers[p].relaying != Some(p) && Consistent(FreeRelaying(w, p))
  {
    PeerFacts(w, p);
    var r := w.peers[p].relaying.value;
    var v := FreeRelaying(w, p);
    WithoutMembers(w.peers[r].users, p);
    forall q | q in v.peers ensures PeerInv(v, q) { assert PeerInv(w, q); }
  }

  // ----- whole handlers -----

  /** The head of the waiting list gets the first relay. */
  function AssignOne(w: Net): Net
    requires w.waiting != [] && w.waiting[0] in w.peers && w.relays != [] && w.relays[0] in w.peers
    requires w.waiting[0] != w.relays[0]
  {
    Install(Unregister(w, w.waiting[0]), w.waiting[0], w.relays[0])
  }

  lemma AssignOneKeeps(w: Net)
    requires Consistent(w) && w.waiting != [] && w.relays != []
    ensures w.waiting[0] in w.peers && w.relays[0] in w.peers && w.waiting[0] != w.relays[0]
    ensures Consistent(AssignOne(w)) && AssignOne(w).waiting == w.waiting[1..] && AssignOne(w).relays == w.relays
  {
    var p, r := w.waiting[0], w.relays[0];
    assert p in w.waiting && r in w.relays;
    assert PeerInv(w, p) && PeerInv(w, r);
    UnregisterKeeps(w, p);
    InstallKeeps(Unregister(w, p), p, r);
  }

  /** assign_relays */
  ghost function Assign(w: Net): (v: Net)
    requires Consistent(w)
    ensures Inv(v)
    decreases |w.waiting|
  {
    if w.waiting == [] || w.relays == [] then w
    else
      AssignOneKeeps(w);
      Assign(AssignOne(w))
  }

  /** peer_enable_relay_provider */
  function MakeRelay(w: Net, p: nat): Net
    requires p in w.peers
  {
    Set(w, p, w.peers[p].(isRelay := true, users := [])).(relays := w.relays + [p])
  }

  lemma MakeRelayKeeps(w: Net, p: nat)
    requires Consistent(w) && p in w.peers && w.peers[p].haveLink && w.peers[p].canRelay && !w.peers[p].isRelay
    ensures Consistent(MakeRelay(w, p))
  {
    var v := MakeRelay(w, p);
    assert PeerInv(w, p);
    forall q | q in v.peers ensures PeerInv(v, q) { assert PeerInv(w, q); }
  }

  ghost function EnableRelay(w: Net, p: nat): (v: Net)
    requires Consistent(w) && p in w.peers && w.peers[p].haveLink && w.peers[p].canRelay && !w.peers[p].isRelay
    ensures Inv(v)
  {
    MakeRelayKeeps(w, p);
    Assign(MakeRelay(w, p))
  }

  /** The first user of relay p is sent back to the waiting list. */
  function EvictOne(w: Net, p: nat): Net
    requires p in w.peers && w.peers[p].users != []
    requires var u := w.peers[p].users[0]; u in w.peers && w.peers[u].relaying == Some(p) && u != p
  {
    Register(FreeRelaying(w, w.peers[p].users[0]), w.peers[p].users[0])
  }

  lemma EvictOneKeeps(w: Net, p: nat)
    requires Consistent(w) && p in w.peers && w.peers[p].users != []
    ensures var u := w.peers[p].users[0];
            && u in w.peers && w.peers[u].relaying == Some(p) && u != p
            && Consistent(EvictOne(w, p)) && EvictOne(w, p).peers[p] == w.peers[p].(users := w.peers[p].users[1..])
            && EvictOne(w, p).relays == w.relays && EvictOne(w, p).peers.Keys == w.peers.Keys
            && EvictOne(w, p).waiting == w.waiting + [u]
  {
    var u := w.peers[p].users[0];
    assert u in w.peers[p].users;
    assert PeerInv(w, p);
    PeerFacts(w, u);
    FreeRelayingKeeps(w, u);
    RegisterKeeps(FreeRelaying(w, u), u);
  }

  lemma EvictedList(w: Net, p: nat)
    requires p in w.peers && w.peers[p].users != []
    ensures var us := w.peers[p].users; (w.waiting + [us[0]]) + us[1..] == w.waiting + us
  {
  }

  /** The loop of peer_disable_relay_provider. */
  ghost function EvictAll(w: Net, p: nat): (v: Net)
    requires Consistent(w) && p in w.peers
    ensures Consistent(v) && v.peers.Keys == w.peers.Keys && v.relays == w.relays
    ensures v.peers[p] == w.peers[p].(users := []) && v.waiting == w.waiting + w.peers[p].users
    decreases |w.peers[p].users|
  {
    if w.peers[p].users == [] then w
    else
      EvictOneKeeps(w, p);
      EvictedList(w, p);
      EvictAll(EvictOne(w, p), p)
  }

  function NoRelay(w: Net, p: nat): Net
    requires p in w.peers
  {
    Set(w, p, w.peers[p].(isRelay := false)).(relays := Without(w.relays, p))
  }

  lemma NoRelayKeeps(w: Net, p: nat)
    requires Consistent(w) && p in w.peers && w.peers[p].users == [] && w.peers[p].isRelay
    ensures Consistent(NoRelay(w, p))
  {
    var v := NoRelay(w, p);
    WithoutMembers(w.relays, p);
    forall q | q in v.peers ensures PeerInv(v, q) {
      assert PeerInv(w, q);
    }
  }

  /** peer_disable_relay_provider */
  ghost function DisableRelay(w: Net, p: nat): (v: Net)
    requires Consistent(w) && p in w.peers && w.peers[p].isRelay
    ensures Inv(v)
  {
    var e := EvictAll(w, p);
    NoRelayKeeps(e, p);
    Assign(NoRelay(e, p))
  }

  /**
   * What assign_relays comes to: if there is a relay, everybody waiting is relayed by the first one; nothing
   * else changes.
   */
  lemma {:induction false} AssignMeans(w: Net, q: nat)
    requires Consistent(w) && q in w.peers
    ensures var v := Assign(w);
            && v.peers.Keys == w.peers.Keys && v.relays == w.relays
            && v.waiting == (if w.relays == [] then w.waiting else [])
            && v.peers[q].canRelay == w.peers[q].canRelay
            && v.peers[q].haveLink == w.peers[q].haveLink && v.peers[q].isRelay == w.peers[q].isRelay
            && v.peers[q].relaying ==
                 (if w.relays != [] && q in w.waiting then Some(w.relays[0]) else w.peers[q].relaying)
            && v.peers[q].waiting == (w.peers[q].waiting && w.relays == [])
    decreases |w.waiting|
  {
    WaitingFact(w, q);
    hide Consistent, PeerInv, AssignOne;
    if w.waiting != [] && w.relays != [] {
      AssignOneKeeps(w);
      assert w.waiting == [w.waiting[0]] + w.waiting[1..];
      AssignedHead(w, q);
      AssignMeans(AssignOne(w), q);
    }
  }

  lemma WaitingFact(w: Net, q: nat)
    requires Consistent(w) && q in w.peers
    ensures w.peers[q].waiting <==> q in w.waiting
  {
    assert PeerInv(w, q);
  }

  lemma AssignedHead(w: Net, q: nat)
    requires Consistent(w) && q in w.peers && w.waiting != [] && w.relays != []
    requires w.waiting[0] in w.peers && w.relays[0] in w.peers && w.waiting[0] != w.relays[0]
    ensures var v := AssignOne(w);
            && v.peers.Keys == w.peers.Keys && v.peers[q].canRelay == w.peers[q].canRelay
            && v.peers[q].haveLink == w.peers[q].haveLink && v.peers[q].isRelay == w.peers[q].isRelay
            && v.peers[q].relaying == (if q == w.waiting[0] then Some(w.relays[0]) else w.peers[q].relaying)
            && v.peers[q].waiting == (w.peers[q].waiting && q != w.waiting[0])
            && (q == w.waiting[0] ==> q !in w.waiting[1..] && w.peers[q].waiting)
            && (q in w.waiting <==> w.peers[q].waiting)
  {
    assert PeerInv(w, q);
    assert w.waiting[0] in w.waiting;
    forall i | 0 <= i < |w.waiting[1..]| ensures w.waiting[1..][i] != w.waiting[0] { }
  }

  /** peer_need_relay */
  ghost function NeedRelay(w: Net, p: nat): (v: Net)
    requires Inv(w) && p in w.peers && !w.peers[p].isRelay
    ensures Inv(v)
  {
    if w.peers[p].waiting then w
    else
      var a :=
        if w.peers[p].haveLink then (FreeLinkKeeps(w, p); FreeLink(w, p))
        else if w.peers[p].relaying.Some? then (FreeRelayingKeeps(w, p); FreeRelaying(w, p))
        else w;
      assert PeerInv(w, p);
      RegisterKeeps(a, p);
      Assign(Register(a, p))
  }

  ghost predicate Cut(w: Net, p: nat) {
    p in w.peers && !w.peers[p].haveLink && w.peers[p].relaying.None? && !w.peers[p].waiting && !w.peers[p].isRelay
  }

  lemma CutLink(w: Net, p: nat)
    requires Inv(w) && p in w.peers && w.peers[p].haveLink && !w.peers[p].isRelay
    ensures Inv(FreeLink(w, p)) && Cut(FreeLink(w, p), p)
  {
    FreeLinkKeeps(w, p);
    assert PeerInv(w, p);
  }

  lemma CutRelaying(w: Net, p: nat)
    requires Inv(w) && p in w.peers && w.peers[p].relaying.Some?
    ensures w.peers[p].relaying.value in w.peers && w.peers[p].relaying != Some(p)
    ensures Inv(FreeRelaying(w, p)) && Cut(FreeRelaying(w, p), p)
  {
    FreeRelayingKeeps(w, p);
    assert PeerInv(w, p);
  }

  lemma CutWaiting(w: Net, p: nat)
    requires Inv(w) && p in w.peers && w.peers[p].waiting
    ensures Inv(Unregister(w, p)) && Cut(Unregister(w, p), p)
  {
    UnregisterKeeps(w, p);
    assert PeerInv(w, p);
  }

  lemma NothingToCut(w: Net, p: nat)
    requires Inv(w) && p in w.peers && !w.peers[p].haveLink
    ensures w.peers[p].isRelay == false
  {
    assert PeerInv(w, p);
  }

  /** peer_cleanup_connections */
  ghost function Cleanup(w: Net, p: nat): (v: Net)
    requires Inv(w) && p in w.peers
    ensures Inv(v) && v.peers.Keys == w.peers.Keys && Cut(v, p)
  {
    hide Consistent;
    if w.peers[p].haveLink then
      var a := if w.peers[p].isRelay then DisabledPeer(w, p); DisableRelay(w, p) else w;
      CutLink(a, p);
      FreeLink(a, p)
    else
      NothingToCut(w, p);
      if w.peers[p].relaying.Some? then CutRelaying(w, p); FreeRelaying(w, p)
      else if w.peers[p].waiting then CutWaiting(w, p); Unregister(w, p)
      else w
  }

  lemma DisabledPeer(w: Net, p: nat)
    requires Consistent(w) && p in w.peers && w.peers[p].isRelay
    ensures var v := DisableRelay(w, p);
            && v.peers.Keys == w.peers.Keys
            && v.peers[p].haveLink == w.peers[p].haveLink && !v.peers[p].isRelay
            && v.peers[p].canRelay == w.peers[p].canRelay
            && v.relays == Without(w.relays, p)
  {
    var e := EvictAll(w, p);
    NoRelayKeeps(e, p);
    NoRelayFacts(e, p);
    DisableIs(w, p);
    hide Consistent, EvictAll, Assign, NoRelay, DisableRelay;
    AssignMeans(NoRelay(e, p), p);
  }

  lemma NoRelayFacts(w: Net, p: nat)
    requires p in w.peers
    ensures var v := NoRelay(w, p);
            && v.peers.Keys == w.peers.Keys && v.relays == Without(w.relays, p)
            && v.peers[p] == w.peers[p].(isRelay := false)
  {
  }

  lemma DisableIs(w: Net, p: nat)
    requires Consistent(w) && p in w.peers && w.peers[p].isRelay && Consistent(NoRelay(EvictAll(w, p), p))
    ensures DisableRelay(w, p) == Assign(NoRelay(EvictAll(w, p), p))
  {
  }

  function Remove(w: Net, p: nat): Net {
    w.(peers := w.peers - {p})
  }

  lemma RemoveKeeps(w: Net, p: nat)
    requires Inv(w) && p in w.peers
    requires var x := w.peers[p]; !x.haveLink && x.relaying.None? && !x.waiting && !x.isRelay
    ensures Inv(Remove(w, p))
  {
    var v := Remove(w, p);
    assert PeerInv(w, p);
    forall q | q in v.peers ensures PeerInv(v, q) { assert PeerInv(w, q); }
  }

  datatype Event =
    | NewPeer(peer: nat, canRelay: bool) | EndPeer(peer: nat)
    | Connect(peer: nat, linkOk: bool) | Reset(peer: nat) | BindFailed(peer: nat)
    | Up(peer: nat) | Down(peer: nat)

  function Report(p: nat, up: bool): Event { if up then Up(p) else Down(p) }

  /** What the assertions demand: a data handler only reports on a link there is. */
  predicate Enabled(w: Net, e: Event) {
    match e
    case NewPeer(p, _) => p !in w.peers
    case Up(p) => p in w.peers && w.peers[p].haveLink
    case Down(p) => p in w.peers && w.peers[p].haveLink
    case _ => e.peer in w.peers
  }

  ghost function Step(w: Net, e: Event): (v: Net)
    requires Inv(w) && Enabled(w, e)
  {
    match e
    case NewPeer(p, canRelay) => Set(w, p, Peer(canRelay, false, None, false, false, []))
    case EndPeer(p) => Remove(Cleanup(w, p), p)
    case Connect(p, linkOk) => if linkOk then InitLink(Cleanup(w, p), p) else Cleanup(w, p)
    case Reset(p) => Cleanup(w, p)
    case BindFailed(p) => if w.peers[p].isRelay then w else NeedRelay(w, p)
    case Up(p) => if w.peers[p].canRelay && !w.peers[p].isRelay then EnableRelay(w, p) else w
    case Down(p) => if w.peers[p].isRelay then DisableRelay(w, p) else w
  }

  /**
   * After every event each peer is in at most one of the three ways, only linked peers relay, relay_users
   * of a relay is exactly the peers relayed through it, and nobody waits while there is a relay.
   */
  lemma StepKeepsInv(w: Net, e: Event)
    requires Inv(w) && Enabled(w, e)
    ensures Inv(Step(w, e))
  {
    match e
    case NewPeer(p, canRelay) =>
      var v := Step(w, e);
      forall q | q in v.peers ensures PeerInv(v, q) { if q != p { assert PeerInv(w, q); } }
    case EndPeer(p) => RemoveKeeps(Cleanup(w, p), p);
    case Connect(p, linkOk) => InitLinkKeeps(Cleanup(w, p), p);
    case Reset(p) =>
    case BindFailed(p) =>
    case Up(p) =>
    case Down(p) =>
  }

  /** The peer is reached through a relay or should be. */
  predicate NeedsRelay(w: Net, p: nat) {
    p in w.peers && (w.peers[p].relaying.Some? || w.peers[p].waiting)
  }

  /** In every state between events, a peer that needs a relay has one exactly if there is any. */
  lemma RelayedIffPossible(w: Net, p: nat)
    requires Inv(w) && NeedsRelay(w, p)
    ensures w.peers[p].relaying.Some? <==> w.relays != []
  {
    assert PeerInv(w, p);
    if w.peers[p].relaying.Some? { assert PeerInv(w, w.peers[p].relaying.value); }
  }

  lemma {:induction false} EvictMeans(w: Net, p: nat, q: nat)
    requires Consistent(w) && p in w.peers && q in w.peers
    ensures var v := EvictAll(w, p);
            && v.peers.Keys == w.peers.Keys
            && v.peers[q].haveLink == w.peers[q].haveLink
            && v.peers[q].isRelay == w.peers[q].isRelay && v.peers[q].canRelay == w.peers[q].canRelay
            && v.peers[q].relaying == (if w.peers[q].relaying == Some(p) then None else w.peers[q].relaying)
            && v.peers[q].waiting == (w.peers[q].waiting || w.peers[q].relaying == Some(p))
    decreases |w.peers[p].users|
  {
    if w.peers[p].users == [] {
      assert PeerInv(w, q);
    } else {
      EvictOneKeeps(w, p);
      EvictedHead(w, p, q);
      hide Consistent, PeerInv, EvictOne;
      EvictMeans(EvictOne(w, p), p, q);
    }
  }

  lemma EvictedHead(w: Net, p: nat, q: nat)
    requires Consistent(w) && p in w.peers && w.peers[p].users != [] && q in w.peers
    requires var u := w.peers[p].users[0]; u in w.peers && w.peers[u].relaying == Some(p) && u != p
    ensures var v, u := EvictOne(w, p), w.peers[p].users[0];
            && q in v.peers && v.peers[q].haveLink == w.peers[q].haveLink
            && v.peers[q].isRelay == w.peers[q].isRelay && v.peers[q].canRelay == w.peers[q].canRelay
            && v.peers[q].relaying == (if q == u then None else w.peers[q].relaying)
            && v.peers[q].waiting == (w.peers[q].waiting || q == u)
  {
  }

  /**
   * Nobody is forgotten. Unless an event is about the peer itself, a peer that needs a relay still needs
   * one afterwards, and one that does not still does not; relays coming and going only decide which.
   */
  lemma NobodyForgotten(w: Net, e: Event, q: nat)
    requires Inv(w) && Enabled(w, e) && q in w.peers && q != e.peer
    ensures q in Step(w, e).peers && (NeedsRelay(Step(w, e), q) <==> NeedsRelay(w, q))
    ensures Step(w, e).peers[q].haveLink == w.peers[q].haveLink && Step(w, e).peers[q].isRelay == w.peers[q].isRelay
  {
    hide PeerInv;
    match e
    case NewPeer(p, canRelay) =>
    case EndPeer(p) => CleanupOthers(w, p, q);
    case Connect(p, linkOk) => CleanupOthers(w, p, q);
    case Reset(p) => CleanupOthers(w, p, q);
    case BindFailed(p) => if !w.peers[p].isRelay { NeedRelayOthers(w, p, q); }
    case Up(p) =>
      if w.peers[p].canRelay && !w.peers[p].isRelay {
        MakeRelayKeeps(w, p);
        AssignOthers(MakeRelay(w, p), q);
      }
    case Down(p) => if w.peers[p].isRelay { DisableOthers(w, p, q); }
  }

  lemma AssignOthers(w: Net, q: nat)
    requires Consistent(w) && q in w.peers
    ensures var v := Assign(w);
            q in v.peers && (NeedsRelay(v, q) <==> NeedsRelay(w, q))
            && v.peers[q].haveLink == w.peers[q].haveLink && v.peers[q].isRelay == w.peers[q].isRelay
  {
    AssignMeans(w, q);
    assert PeerInv(w, q);
  }

  lemma DisableOthers(w: Net, p: nat, q: nat)
    requires Consistent(w) && p in w.peers && w.peers[p].isRelay && q in w.peers && q != p
    ensures var v := DisableRelay(w, p);
            q in v.peers && (NeedsRelay(v, q) <==> NeedsRelay(w, q))
            && v.peers[q].haveLink == w.peers[q].haveLink && v.peers[q].isRelay == w.peers[q].isRelay
  {
    EvictMeans(w, p, q);
    NoRelayKeeps(EvictAll(w, p), p);
    AssignOthers(NoRelay(EvictAll(w, p), p), q);
  }

  lemma CleanupOthers(w: Net, p: nat, q: nat)
    requires Inv(w) && p in w.peers && q in w.peers && q != p
    ensures var v := Cleanup(w, p);
            q in v.peers && (NeedsRelay(v, q) <==> NeedsRelay(w, q))
            && v.peers[q].haveLink == w.peers[q].haveLink && v.peers[q].isRelay == w.peers[q].isRelay
  {
    if w.peers[p].haveLink && w.peers[p].isRelay { DisableOthers(w, p, q); }
  }

  lemma NeedRelayOthers(w: Net, p: nat, q: nat)
    requires Inv(w) && p in w.peers && !w.peers[p].isRelay && q in w.peers && q != p
    ensures var v := NeedRelay(w, p);
            q in v.peers && (NeedsRelay(v, q) <==> NeedsRelay(w, q))
            && v.peers[q].haveLink == w.peers[q].haveLink && v.peers[q].isRelay == w.peers[q].isRelay
  {
    assert PeerInv(w, p);
    if !w.peers[p].waiting {
      if w.peers[p].haveLink { FreeLinkKeeps(w, p); } else if w.peers[p].relaying.Some? { FreeRelayingKeeps(w, p); }
      var a :=
        if w.peers[p].haveLink then FreeLink(w, p)
        else if w.peers[p].relaying.Some? then FreeRelaying(w, p)
        else w;
      RegisterKeeps(a, p);
      AssignOthers(Register(a, p), q);
    }
  }

  /** The list t is s without its only x, the rest in the same order. */
  ghost predicate CutOut(s: seq<nat>, x: nat, t: seq<nat>) {
    if x in s then exists k :: 0 <= k < |s| && s[k] == x && t == s[..k] + s[k + 1..] else t == s
  }

  lemma WithoutCuts(s: seq<nat>, x: nat)
    requires Distinct(s)
    ensures CutOut(s, x, Without(s, x))
  {
    if x in s {
      var k :| 0 <= k < |s| && s[k] == x;
      WithoutAt(s, k);
    } else {
      WithoutNone(s, x);
    }
  }

  lemma {:induction false} WithoutAt(s: seq<nat>, k: nat)
    requires Distinct(s) && k < |s|
    ensures Without(s, s[k]) == s[..k] + s[k + 1..]
  {
    if k > 0 {
      WithoutAt(s[1..], k - 1);
      assert s[0] != s[k];
      assert s[..k] + s[k + 1..] == [s[0]] + (s[1..][..k - 1] + s[1..][k..]);
    }
  }

  lemma {:induction false} WithoutNone(s: seq<nat>, x: nat)
    requires x !in s
    ensures Without(s, x) == s
  {
    if s != [] {
      assert s == [s[0]] + s[1..];
      WithoutNone(s[1..], x);
    }
  }

  /** What an event leaves the peer it is about with, and the list of relays. */
  ghost predicate OwnPeer(w: Net, e: Event, v: Net)
    requires Enabled(w, e)
  {
    var p := e.peer;
    if e.EndPeer? then p !in v.peers && CutOut(w.relays, p, v.relays)
    else
      p in v.peers &&
        var x := v.peers[p];
        && (e.NewPeer? || x.canRelay == w.peers[p].canRelay)
        && match e
           case NewPeer(_, canRelay) => x == Peer(canRelay, false, None, false, false, []) && v.relays == w.relays
           case Connect(_, linkOk) =>
             && x.haveLink == linkOk && x.relaying.None? && !x.waiting && !x.isRelay
             && CutOut(w.relays, p, v.relays)
           case Reset(_) =>
             !x.haveLink && x.relaying.None? && !x.waiting && !x.isRelay && CutOut(w.relays, p, v.relays)
           case BindFailed(_) =>
             if w.peers[p].isRelay then v == w
             else
               && !x.haveLink && !x.isRelay && NeedsRelay(v, p) && v.relays == w.relays
               && x.relaying == if w.relays == [] then None else Some(w.relays[0])
           case Up(_) =>
             && x.haveLink && x.isRelay == x.canRelay
             && v.relays == if x.canRelay && p !in w.relays then w.relays + [p] else w.relays
           case Down(_) => x.haveLink && !x.isRelay && CutOut(w.relays, p, v.relays)
  }

  /**
   * An event does to its own peer what it is for: a peer that cannot be bound to loses its link, is relayed by
   * the first relay if there is one and waits otherwise; one that connects has a link of its own, or nothing;
   * one whose link is up relays exactly if the server lets it, and one whose link is down does not.
   */
  lemma OwnPeerAfter(w: Net, e: Event)
    requires Inv(w) && Enabled(w, e)
    ensures OwnPeer(w, e, Step(w, e))
  {
    if e.peer in w.peers { assert PeerInv(w, e.peer); }
    WithoutCuts(w.relays, e.peer);
    match e
    case NewPeer(p, canRelay) =>
    case EndPeer(p) => CleanupRelays(w, p);
    case Connect(p, linkOk) => CleanupRelays(w, p);
    case Reset(p) => CleanupRelays(w, p);
    case BindFailed(p) => if !w.peers[p].isRelay { NeedRelayOwn(w, p); }
    case Up(p) =>
      if w.peers[p].canRelay && !w.peers[p].isRelay {
        MakeRelayKeeps(w, p);
        AssignMeans(MakeRelay(w, p), p);
      }
    case Down(p) => if w.peers[p].isRelay { DisabledPeer(w, p); }
  }

  lemma CleanupRelays(w: Net, p: nat)
    requires Inv(w) && p in w.peers
    ensures Cleanup(w, p).relays == Without(w.relays, p)
    ensures Cleanup(w, p).peers[p].canRelay == w.peers[p].canRelay
  {
    assert PeerInv(w, p);
    if w.peers[p].isRelay { DisabledPeer(w, p); } else { WithoutCuts(w.relays, p); }
  }

  lemma NeedRelayOwn(w: Net, p: nat)
    requires Inv(w) && p in w.peers && !w.peers[p].isRelay
    ensures var v := NeedRelay(w, p);
            && p in v.peers && !v.peers[p].haveLink && !v.peers[p].isRelay && NeedsRelay(v, p)
            && v.peers[p].canRelay == w.peers[p].canRelay && v.relays == w.relays
            && v.peers[p].relaying == if w.relays == [] then None else Some(w.relays[0])
  {
    assert PeerInv(w, p);
    if !w.peers[p].waiting {
      if w.peers[p].haveLink { FreeLinkKeeps(w, p); } else if w.peers[p].relaying.Some? { FreeRelayingKeeps(w, p); }
      var a :=
        if w.peers[p].haveLink then FreeLink(w, p)
        else if w.peers[p].relaying.Some? then FreeRelaying(w, p)
        else w;
      RegisterKeeps(a, p);
      AssignMeans(Register(a, p), p);
    }
  }

  /**
   * Through which relay a peer is reached: the one it had, while that is still a relay, and otherwise the first
   * there is.
   */
  ghost predicate Follows(w: Net, v: Net, q: nat)
    requires q in w.peers
  {
    var r := w.peers[q].relaying;
    && q in v.peers && v.peers[q].canRelay == w.peers[q].canRelay
    && v.peers[q].relaying ==
         if !NeedsRelay(w, q) then None
         else if r.Some? && r.value in v.relays then r
         else if v.relays != [] then Some(v.relays[0])
         else None
  }

  ghost predicate SameWay(w: Net, v: Net, q: nat) {
    && q in w.peers && q in v.peers && v.peers[q].canRelay == w.peers[q].canRelay
    && v.peers[q].relaying == w.peers[q].relaying && v.peers[q].waiting == w.peers[q].waiting
  }

  lemma FollowsOn(w: Net, a: Net, b: Net, v: Net, q: nat)
    requires SameWay(w, a, q) && Follows(a, b, q) && SameWay(b, v, q) && v.relays == b.relays
    ensures Follows(w, v, q)
  {
  }

  /** An event moves the other peers to another relay only when theirs goes or they had none. */
  lemma OthersFollow(w: Net, e: Event, q: nat)
    requires Inv(w) && Enabled(w, e) && q in w.peers && q != e.peer
    ensures Follows(w, Step(w, e), q)
  {
    SameFollows(w, q);
    if e.EndPeer? || e.Connect? || e.Reset? {
      CleanupFollows(w, e.peer, q);
      AfterCleanup(w, e, q);
      hide *;
      FollowsOn(w, w, Cleanup(w, e.peer), Step(w, e), q);
    } else if e.BindFailed? {
      if !w.peers[e.peer].isRelay { NeedRelayFollows(w, e.peer, q); }
      hide Inv, NeedRelay, Follows;
    } else if e.Up? {
      if w.peers[e.peer].canRelay && !w.peers[e.peer].isRelay { EnableFollows(w, e.peer, q); }
      hide Inv, EnableRelay, Follows;
    } else if e.Down? {
      if w.peers[e.peer].isRelay { DisableFollows(w, e.peer, q); }
      hide Inv, DisableRelay, Follows;
    } else {
      hide Inv;
      FollowsOn(w, w, w, Step(w, e), q);
    }
  }

  lemma AfterCleanup(w: Net, e: Event, q: nat)
    requires Inv(w) && Enabled(w, e) && q in w.peers && q != e.peer && (e.EndPeer? || e.Connect? || e.Reset?)
    ensures var v := Cleanup(w, e.peer);
            SameWay(w, w, q) && (q in v.peers ==> SameWay(v, Step(w, e), q) && Step(w, e).relays == v.relays)
  {
    hide Inv, Consistent, Cleanup;
  }

  lemma SameFollows(w: Net, q: nat)
    requires Inv(w) && q in w.peers
    ensures Follows(w, w, q) && (w.peers[q].relaying.Some? ==> w.peers[q].relaying.value in w.relays)
    ensures SameWay(w, w, q)
  {
    PeerFacts(w, q);
    hide Consistent;
  }

  lemma AssignFollows(w: Net, q: nat)
    requires Consistent(w) && q in w.peers
    ensures Follows(w, Assign(w), q) && SameWay(Assign(w), Assign(w), q)
  {
    AssignMeans(w, q);
    PeerFacts(w, q);
    hide Consistent, Assign;
  }

  lemma EnableFollows(w: Net, p: nat, q: nat)
    requires Inv(w) && p in w.peers && w.peers[p].haveLink && w.peers[p].canRelay && !w.peers[p].isRelay
    requires q in w.peers && q != p
    ensures Follows(w, EnableRelay(w, p), q)
  {
    MakeRelayKeeps(w, p);
    AssignFollows(MakeRelay(w, p), q);
    assert SameWay(w, MakeRelay(w, p), q);
    assert EnableRelay(w, p) == Assign(MakeRelay(w, p));
    hide *;
    FollowsOn(w, MakeRelay(w, p), Assign(MakeRelay(w, p)), EnableRelay(w, p), q);
  }

  lemma DisableFollows(w: Net, p: nat, q: nat)
    requires Inv(w) && p in w.peers && w.peers[p].isRelay && q in w.peers && q != p
    ensures Follows(w, DisableRelay(w, p), q) && q in DisableRelay(w, p).peers
  {
    var e := EvictAll(w, p);
    EvictMeans(w, p, q);
    NoRelayKeeps(e, p);
    SameFollows(w, q);
    WithoutMembers(w.relays, p);
    AssignMeans(NoRelay(e, p), q);
    PeerFacts(NoRelay(e, p), q);
    hide Consistent, EvictAll, Assign;
  }

  lemma CleanupFollows(w: Net, p: nat, q: nat)
    requires Inv(w) && p in w.peers && q in w.peers && q != p
    ensures Follows(w, Cleanup(w, p), q) && q in Cleanup(w, p).peers
  {
    SameFollows(w, q);
    PeerFacts(w, p);
    if w.peers[p].haveLink && w.peers[p].isRelay {
      DisableFollows(w, p, q);
      DisabledPeer(w, p);
      hide Consistent, DisableRelay;
      FollowsOn(w, w, DisableRelay(w, p), Cleanup(w, p), q);
    } else {
      hide Consistent, PeerInv, Without, DisableRelay;
      FollowsOn(w, w, w, Cleanup(w, p), q);
    }
  }

  lemma NeedRelayFollows(w: Net, p: nat, q: nat)
    requires Inv(w) && p in w.peers && !w.peers[p].isRelay && q in w.peers && q != p
    ensures Follows(w, NeedRelay(w, p), q)
  {
    SameFollows(w, q);
    if !w.peers[p].waiting {
      var a := NeedsAssigning(w, p, q);
      AssignFollows(a, q);
      hide *;
      FollowsOn(w, a, Assign(a), NeedRelay(w, p), q);
    }
  }

  lemma NeedsAssigning(w: Net, p: nat, q: nat) returns (b: Net)
    requires Inv(w) && p in w.peers && !w.peers[p].isRelay && q in w.peers && q != p && !w.peers[p].waiting
    ensures Consistent(b) && SameWay(w, b, q) && NeedRelay(w, p) == Assign(b)
  {
    assert PeerInv(w, p);
    if w.peers[p].haveLink { FreeLinkKeeps(w, p); } else if w.peers[p].relaying.Some? { FreeRelayingKeeps(w, p); }
    var a :=
      if w.peers[p].haveLink then FreeLink(w, p)
      else if w.peers[p].relaying.Some? then FreeRelaying(w, p)
      else w;
    RegisterKeeps(a, p);
    b := Register(a, p);
  }
}
