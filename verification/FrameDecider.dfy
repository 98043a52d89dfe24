/**
 * The frame decider: per-peer tables of learned addresses and joined groups, the search trees over them,
 * and the choice of the peers a frame goes to.
 */
module FrameDeciders {
  import opened Options
  import opened MulticastIndex

  type Mac = seq<nat>

  const BROADCAST: Mac := [0xff, 0xff, 0xff, 0xff, 0xff, 0xff]

  // ----- learned addresses: the least recently seen goes first, and each belongs to one peer -----

  /** Peer p's addresses after it sent from `mac`, oldest first. */
  function Seen<T(==)>(used: seq<T>, x: T, max: nat): seq<T> {
    if x in used then Without(used, x) + [x]
    else (if |used| >= max && |used| > 0 then used[1..] else used) + [x]
  }

  /** All peers' addresses after p sent from `mac`: any other peer that had it loses it. */
  function Learn(macs: map<nat, seq<Mac>>, p: nat, mac: Mac, max: nat): map<nat, seq<Mac>>
    requires p in macs
  {
    map q | q in macs :: if q == p then Seen(macs[p], mac, max) else Without(macs[q], mac)
  }

  /** Bounded lists without repetition, no address with two peers, and the tree says who has which. */
  ghost predicate MacInv(macs: map<nat, seq<Mac>>, tree: map<Mac, nat>, max: nat) {
    && max > 0
    && (forall q :: q in macs ==> Distinct(macs[q]) && |macs[q]| <= max)
    && (forall m :: m in tree ==> tree[m] in macs && m in macs[tree[m]])
    && (forall q, m :: q in macs && m in macs[q] ==> m in tree && tree[m] == q)
  }

  lemma SeenKeeps<T>(used: seq<T>, x: T, max: nat)
    requires Distinct(used) && |used| <= max && max > 0
    ensures var r := Seen(used, x, max);
            && Distinct(r) && |r| <= max && r[|r| - 1] == x
            && (forall y :: y in r ==> y in used || y == x)
            && (forall y :: y in used && y !in r ==> x !in used && |used| == max && y == used[0])
  {
    WithoutDistinct(used, x);
    if x !in used && |used| >= max {
      assert used == [used[0]] + used[1..];
    }
  }

  /**
   * Learning an address keeps the table: it becomes the peer's newest, no other peer has it any more, and
   * the only address anybody else loses is this one; the peer itself loses at most its oldest, and only
   * when its table was full.
   */
  lemma LearnKeeps(macs: map<nat, seq<Mac>>, tree: map<Mac, nat>, p: nat, mac: Mac, max: nat)
    requires MacInv(macs, tree, max) && p in macs
    ensures var r := Learn(macs, p, mac, max);
            && (forall q :: q in r ==> Distinct(r[q]) && |r[q]| <= max)
            && (forall q, m :: q in r && m in r[q] && q != p ==> m in macs[q] && m != mac)
            && (forall q, m :: q in r && q != p && m in macs[q] && m !in r[q] ==> m == mac)
            && r[p][|r[p]| - 1] == mac
            && (forall m :: m in macs[p] && m !in r[p] ==> mac !in macs[p] && |macs[p]| == max && m == macs[p][0])
  {
    SeenKeeps(macs[p], mac, max);
    forall q | q in macs && q != p
      ensures Distinct(Without(macs[q], mac)) && |Without(macs[q], mac)| <= max && mac !in Without(macs[q], mac)
    {
      WithoutDistinct(macs[q], mac);
    }
  }

  function Evicted(macs: map<nat, seq<Mac>>, p: nat, mac: Mac, max: nat): set<Mac>
    requires p in macs
  {
    if mac !in macs[p] && |macs[p]| >= max && |macs[p]| > 0 then {macs[p][0]} else {}
  }

  function LearnTree(macs: map<nat, seq<Mac>>, tree: map<Mac, nat>, p: nat, mac: Mac, max: nat): map<Mac, nat>
    requires p in macs
  {
    (tree - Evicted(macs, p, mac, max))[mac := p]
  }

  lemma SeenMembers<T>(used: seq<T>, x: T, max: nat, y: T)
    requires Distinct(used) && |used| <= max && max > 0
    ensures y in Seen(used, x, max) <==> y == x || (y in used && !(x !in used && |used| == max && y == used[0]))
  {
    WithoutDistinct(used, x);
    if |used| > 0 {
      assert used == [used[0]] + used[1..];
      forall i | 0 <= i < |used[1..]| ensures used[1..][i] != used[0] { assert used[1..][i] == used[i + 1]; }
    }
  }

  lemma Owner(macs: map<nat, seq<Mac>>, tree: map<Mac, nat>, max: nat, q: nat, m: Mac)
    requires MacInv(macs, tree, max) && q in macs
    ensures m in macs[q] <==> m in tree && tree[m] == q
    ensures Distinct(macs[q]) && |macs[q]| <= max && max > 0
    ensures |macs[q]| > 0 ==> macs[q][0] in tree && tree[macs[q][0]] == q
  {
    if |macs[q]| > 0 { assert macs[q][0] in macs[q]; }
  }

  lemma LearnAt(macs: map<nat, seq<Mac>>, tree: map<Mac, nat>, p: nat, mac: Mac, max: nat, q: nat, m: Mac)
    requires MacInv(macs, tree, max) && p in macs && q in macs
    ensures var r, t := Learn(macs, p, mac, max), LearnTree(macs, tree, p, mac, max);
            m in r[q] <==> m in t && t[m] == q
  {
    hide MacInv, Distinct, Seen, Without;
    Owner(macs, tree, max, q, m);
    Owner(macs, tree, max, p, m);
    if q == p {
      SeenMembers(macs[p], mac, max, m);
    } else {
      WithoutDistinct(macs[q], mac);
    }
  }

  lemma LearnTreeFollows(macs: map<nat, seq<Mac>>, tree: map<Mac, nat>, p: nat, mac: Mac, max: nat)
    requires MacInv(macs, tree, max) && p in macs
    ensures MacInv(Learn(macs, p, mac, max), LearnTree(macs, tree, p, mac, max), max)
  {
    var r, t := Learn(macs, p, mac, max), LearnTree(macs, tree, p, mac, max);
    LearnKeeps(macs, tree, p, mac, max);
    forall q, m | q in r && m in r[q] ensures m in t && t[m] == q { LearnAt(macs, tree, p, mac, max, q, m); }
    forall m | m in t ensures t[m] in r && m in r[t[m]] { LearnAt(macs, tree, p, mac, max, t[m], m); }
  }

  // ----- joined groups -----

  ghost predicate GroupInv(groups: map<nat, seq<nat>>, ix: Index, max: nat) {
    && max > 0
    && MulticastIndex.Inv(ix)
    && (forall q :: q in groups ==> Distinct(groups[q]) && |groups[q]| <= max)
    && (forall e :: Known(ix, e) <==> e.peer in groups && e.group in groups[e.peer])
  }

  /** The plain relation: the peers that joined some group with these low 23 bits. */
  ghost predicate Member(groups: map<nat, seq<nat>>, sig: nat, p: nat) {
    p in groups && exists g :: g in groups[p] && SigOf(g) == sig
  }

  function PeersOf(list: seq<Entry>): (r: seq<nat>)
    ensures |r| == |list| && forall i :: 0 <= i < |r| ==> r[i] == list[i].peer
  {
    seq(|list|, i requires 0 <= i < |list| => list[i].peer)
  }

  /** The entries a multicast frame is sent for. */
  function Matching(ix: Index, sig: nat): seq<Entry> {
    if sig in ix.lists then ix.lists[sig] else []
  }

  /**
   * The index gives what a scan of all joined groups by their low 23 bits gives: one entry, once, for each
   * matching membership, hence exactly the member peers.
   */
  lemma IndexIsScan(groups: map<nat, seq<nat>>, ix: Index, max: nat, sig: nat)
    requires GroupInv(groups, ix, max)
    ensures Distinct(Matching(ix, sig))
    ensures forall e :: e in Matching(ix, sig) <==>
              e.peer in groups && e.group in groups[e.peer] && SigOf(e.group) == sig
    ensures forall p :: p in PeersOf(Matching(ix, sig)) <==> Member(groups, sig, p)
  {
    var list := Matching(ix, sig);
    if sig in ix.lists { assert ClassInv(ix, sig); }
    forall e ensures e in list <==> e.peer in groups && e.group in groups[e.peer] && SigOf(e.group) == sig {
      assert Known(ix, e) <==> e.peer in groups && e.group in groups[e.peer];
    }
    forall p | Member(groups, sig, p) ensures p in PeersOf(list) {
      var g :| g in groups[p] && SigOf(g) == sig;
      assert Entry(p, g) in list;
      var i :| 0 <= i < |list| && list[i] == Entry(p, g);
      assert PeersOf(list)[i] == p;
    }
    forall p | p in PeersOf(list) ensures Member(groups, sig, p) {
      var i :| 0 <= i < |list| && PeersOf(list)[i] == p;
      assert list[i] in list;
      assert list[i].group in groups[p] && SigOf(list[i].group) == sig;
    }
  }

  /** No peer joined two groups with these low 23 bits. */
  ghost predicate OneGroupEach(groups: map<nat, seq<nat>>, sig: nat) {
    forall p, g, h :: p in groups && g in groups[p] && h in groups[p] && SigOf(g) == sig && SigOf(h) == sig ==> g == h
  }

  /**
   * A peer stands in the list once for each of its groups of the class, so each is sent a frame at most once
   * exactly if none joined a second group with the same low 23 bits.
   */
  lemma OncePerPeer(groups: map<nat, seq<nat>>, ix: Index, max: nat, sig: nat)
    requires GroupInv(groups, ix, max)
    ensures Distinct(PeersOf(Matching(ix, sig))) <==> OneGroupEach(groups, sig)
  {
    IndexIsScan(groups, ix, max, sig);
    hide GroupInv, MulticastIndex.Inv, Known, Matching, PeersOf;
    var list := Matching(ix, sig);
    if Distinct(PeersOf(list)) {
      forall p, g, h | p in groups && g in groups[p] && h in groups[p] && SigOf(g) == sig && SigOf(h) == sig
        ensures g == h
      {
        SamePlace(list, Entry(p, g), Entry(p, h));
      }
    }
    if OneGroupEach(groups, sig) {
      forall a, b | 0 <= a < b < |list| ensures PeersOf(list)[a] != PeersOf(list)[b] {
        assert list[a] in list && list[b] in list && list[a] != list[b];
        assert list[a] == Entry(list[a].peer, list[a].group) && list[b] == Entry(list[b].peer, list[b].group);
      }
    }
  }

  lemma SamePlace(list: seq<Entry>, d: Entry, e: Entry)
    requires Distinct(PeersOf(list)) && d in list && e in list && d.peer == e.peer
    ensures d == e
  {
    var a :| 0 <= a < |list| && list[a] == d;
    var b :| 0 <= b < |list| && list[b] == e;
    assert PeersOf(list)[a] == PeersOf(list)[b];
  }

  /** Joining a group in the plain relation. */
  function Join(groups: map<nat, seq<nat>>, p: nat, g: nat, max: nat): map<nat, seq<nat>>
    requires p in groups
  {
    groups[p := Seen(groups[p], g, max)]
  }

  function Leave(groups: map<nat, seq<nat>>, e: Entry): map<nat, seq<nat>>
    requires e.peer in groups
  {
    groups[e.peer := Without(groups[e.peer], e.group)]
  }

  lemma Regrouped(groups: map<nat, seq<nat>>, ix: Index, p: nat, r: seq<nat>, ix': Index, max: nat)
    requires GroupInv(groups, ix, max) && p in groups && MulticastIndex.Inv(ix')
    requires Distinct(r) && |r| <= max
    requires forall e :: Known(ix', e) <==> if e.peer == p then e.group in r else Known(ix, e)
    ensures GroupInv(groups[p := r], ix', max)
  {
  }

  lemma JoinAgain(groups: map<nat, seq<nat>>, ix: Index, p: nat, g: nat, max: nat)
    requires GroupInv(groups, ix, max) && p in groups && g in groups[p]
    ensures GroupInv(Join(groups, p, g, max), ix, max)
  {
    var used := groups[p];
    SeenKeeps(used, g, max);
    WithoutDistinct(used, g);
    assert forall x :: x in Seen(used, g, max) <==> x in used;
    hide MulticastIndex.Inv, Known, Seen;
    Regrouped(groups, ix, p, Seen(used, g, max), ix, max);
  }

  lemma JoinFree(groups: map<nat, seq<nat>>, ix: Index, p: nat, g: nat, max: nat)
    requires GroupInv(groups, ix, max) && p in groups && g !in groups[p] && |groups[p]| < max
    ensures !Known(ix, Entry(p, g)) && GroupInv(Join(groups, p, g, max), Add(ix, Entry(p, g)), max)
  {
    hide MulticastIndex.Inv, Known, Add;
    var used := groups[p];
    SeenKeeps(used, g, max);
    AddKeeps(ix, Entry(p, g));
    Regrouped(groups, ix, p, Seen(used, g, max), Add(ix, Entry(p, g)), max);
  }

  lemma JoinFull(groups: map<nat, seq<nat>>, ix: Index, p: nat, g: nat, max: nat)
    requires GroupInv(groups, ix, max) && p in groups && g !in groups[p] && |groups[p]| >= max
    ensures var o := Entry(p, groups[p][0]);
            && Known(ix, o) && MulticastIndex.Inv(Remove(ix, o)) && !Known(Remove(ix, o), Entry(p, g))
            && GroupInv(Join(groups, p, g, max), Add(Remove(ix, o), Entry(p, g)), max)
  {
    hide MulticastIndex.Inv, Known, Add, Remove;
    var used := groups[p];
    var o := Entry(p, used[0]);
    assert used == [used[0]] + used[1..];
    SeenKeeps(used, g, max);
    RemoveKeeps(ix, o);
    AddKeeps(Remove(ix, o), Entry(p, g));
    assert forall x :: x in Seen(used, g, max) <==> (x in used && x != used[0]) || x == g;
    Regrouped(groups, ix, p, Seen(used, g, max), Add(Remove(ix, o), Entry(p, g)), max);
  }

  lemma LeaveKeeps(groups: map<nat, seq<nat>>, ix: Index, e: Entry, max: nat)
    requires GroupInv(groups, ix, max) && e.peer in groups && e.group in groups[e.peer]
    ensures Known(ix, e) && GroupInv(Leave(groups, e), Remove(ix, e), max)
  {
    WithoutDistinct(groups[e.peer], e.group);
    RemoveKeeps(ix, e);
  }

  // ----- deciding -----

  /**
   * What the headers of a frame from the device say: too short for Ethernet, or a destination, whether it is
   * IGMP, and the group of a group-specific query.
   */
  datatype Frame = TooShort | Frame(dest: Mac, igmp: bool, query: Option<nat>)

  /** decide_state with its cursor: what NextDestination has still to return. */
  datatype Decision = NoDecision | Unicast(peer: nat) | Flood(rest: seq<nat>) | Multicast(left: seq<Entry>)

  predicate IsMulticast(dest: Mac) {
    |dest| == 6 && dest[..3] == [0x01, 0x00, 0x5e]
  }

  /** The peers a frame should go to, in the terms of the plain tables. */
  function Destinations(peers: seq<nat>, macTree: map<Mac, nat>, ix: Index, f: Frame): seq<nat> {
    if f.TooShort? then []
    else if f.igmp || f.dest == BROADCAST then peers
    else if IsMulticast(f.dest) then PeersOf(Matching(ix, SigOfMac(f.dest)))
    else if f.dest in macTree then [macTree[f.dest]]
    else peers
  }

  /**
   * A frame to a group's own Ethernet address goes to exactly the peers that joined a group with the same low
   * 23 bits, so to every peer that joined the group itself.
   */
  lemma GroupFrameReachesMembers(groups: map<nat, seq<nat>>, ix: Index, max: nat, peers: seq<nat>,
                                 macTree: map<Mac, nat>, g: nat, p: nat)
    requires GroupInv(groups, ix, max)
    ensures p in Destinations(peers, macTree, ix, Frame(MacForGroup(g), false, None)) <==> Member(groups, SigOf(g), p)
    ensures p in groups && g in groups[p] ==> p in Destinations(peers, macTree, ix, Frame(MacForGroup(g), false, None))
  {
    FrameForGroupHasItsSig(g);
    IndexIsScan(groups, ix, max, SigOf(g));
    assert MacForGroup(g)[0] != BROADCAST[0];
    assert MacForGroup(g)[..3] == [0x01, 0x00, 0x5e];
  }

  function Pending(d: Decision): seq<nat> {
    match d
    case NoDecision => []
    case Unicast(p) => [p]
    case Flood(rest) => rest
    case Multicast(left) => PeersOf(left)
  }

  /** The state a frame leaves: an unfinished multicast decision stays, and the frame is not looked at. */
  function Decided(d: Decision, peers: seq<nat>, macTree: map<Mac, nat>, ix: Index, f: Frame): Decision {
    if d.Multicast? then d
    else if f.TooShort? then NoDecision
    else if f.igmp || f.dest == BROADCAST then Flood(peers)
    else if IsMulticast(f.dest) then
      var sig := SigOfMac(f.dest);
      if sig in ix.lists then Multicast(ix.lists[sig]) else NoDecision
    else if f.dest in macTree then Unicast(macTree[f.dest])
    else Flood(peers)
  }

  /**
   * Every frame goes where the tables say if and only if the decision before it was not an unfinished multicast one
   * (with no peers at all there is nothing to tell apart).
   */
  lemma DecidesRightIffDrained(d: Decision, peers: seq<nat>, macTree: map<Mac, nat>, ix: Index)
    requires peers != []
    ensures (forall f :: Pending(Decided(d, peers, macTree, ix, f)) == Destinations(peers, macTree, ix, f)) <==>
              !d.Multicast?
  {
    if d.Multicast? {
      var broadcast := Frame(BROADCAST, false, None);
      assert Destinations(peers, macTree, ix, broadcast) == peers;
      assert Destinations(peers, macTree, ix, TooShort) == [];
      assert Pending(Decided(d, peers, macTree, ix, broadcast)) == Pending(Decided(d, peers, macTree, ix, TooShort));
    } else {
      forall f ensures Pending(Decided(d, peers, macTree, ix, f)) == Destinations(peers, macTree, ix, f) { }
    }
  }

  /** lower_group_timers_to_lmqt in terms of all timers. */
  function Lowered(timers: map<Entry, int>, group: nat, limit: int): map<Entry, int> {
    map e | e in timers :: if e.group == group && timers[e] > limit then limit else timers[e]
  }

  /** What an IGMP report says about each group record. */
  datatype Mode = Include | Exclude | OtherMode
  datatype Record = Record(mode: Mode, sources: nat, group: nat)
  datatype Report = NoReport | V2(group: nat) | V3(records: seq<Record>)

  /** The groups a report joins, in order: an include record with no sources is not a join. */
  function Joins(r: Report): seq<nat> {
    match r
    case NoReport => []
    case V2(g) => [g]
    case V3(records) => RecordJoins(records)
  }

  function RecordJoins(records: seq<Record>): seq<nat> {
    if records == [] then []
    else
      var last := records[|records| - 1];
      RecordJoins(records[..|records| - 1])
      + if last.mode.Exclude? || (last.mode.Include? && last.sources != 0) then [last.group] else []
  }

  function JoinAll(groups: map<nat, seq<nat>>, p: nat, joins: seq<nat>, max: nat): (r: map<nat, seq<nat>>)
    requires p in groups
    ensures p in r
  {
    if joins == [] then groups
    else Join(JoinAll(groups, p, joins[..|joins| - 1], max), p, joins[|joins| - 1], max)
  }

  // ----- the cursor of an unfinished decision -----

  /** It refers to no freed peer or entry, and to none twice. */
  ghost predicate CursorInv(d: Decision, peers: seq<nat>, ix: Index) {
    match d
    case NoDecision => true
    case Unicast(p) => p in peers
    case Flood(rest) => Distinct(rest) && forall p :: p in rest ==> p in peers
    case Multicast(left) => Distinct(left) && forall e :: e in left ==> Known(ix, e)
  }

  /** An entry linked in right behind the master is met if the master is still to come. */
  function CursorAdd(d: Decision, ix: Index, e: Entry): Decision {
    var s := SigOf(e.group);
    if d.Multicast? && s in ix.tree && ix.tree[s] in d.left then Multicast(InsertAfter(d.left, ix.tree[s], e)) else d
  }

  function CursorRemove(d: Decision, e: Entry): Decision {
    if d.Multicast? then Multicast(Without(d.left, e)) else d
  }

  lemma CursorAddKeeps(d: Decision, peers: seq<nat>, ix: Index, e: Entry)
    requires MulticastIndex.Inv(ix) && !Known(ix, e) && CursorInv(d, peers, ix)
    ensures CursorInv(CursorAdd(d, ix, e), peers, Add(ix, e))
  {
    AddKeeps(ix, e);
    var s := SigOf(e.group);
    hide MulticastIndex.Inv, Known, Add;
    if d.Multicast? && s in ix.tree && ix.tree[s] in d.left { InsertDistinct(d.left, ix.tree[s], e); }
  }

  lemma CursorRemoveKeeps(d: Decision, peers: seq<nat>, ix: Index, e: Entry)
    requires MulticastIndex.Inv(ix) && Known(ix, e) && CursorInv(d, peers, ix)
    ensures CursorInv(CursorRemove(d, e), peers, Remove(ix, e))
  {
    RemoveKeeps(ix, e);
    hide MulticastIndex.Inv, Known, Remove;
    if d.Multicast? { WithoutDistinct(d.left, e); }
  }

  class FrameDecider {
    const maxMacs: nat
    const maxGroups: nat
    const membershipInterval: int
    const lastMemberTime: int
    var peers: seq<nat>
    var macs: map<nat, seq<Mac>>
    var macTree: map<Mac, nat>
    var groups: map<nat, seq<nat>>
    var lists: map<nat, seq<Entry>>
    var masters: set<Entry>
    var tree: map<nat, Entry>
    var timers: map<Entry, int>
    var decision: Decision

    function Ix(): Index
      reads this`lists, this`masters, this`tree
    {
      Index(lists, masters, tree)
    }

    ghost predicate PeersOk()
      reads this`peers, this`macs, this`groups
    {
      && Distinct(peers)
      && (forall p :: p in peers <==> p in macs) && groups.Keys == macs.Keys
    }

    ghost predicate GroupsOk()
      reads this`groups, this`lists, this`masters, this`tree
    {
      GroupInv(groups, Ix(), maxGroups)
    }

    /** A timer runs for an entry exactly while it is in use. */
    ghost predicate TimersOk()
      reads this`timers, this`lists, this`masters, this`tree
    {
      forall e :: e in timers <==> Known(Ix(), e)
    }

    ghost predicate Valid()
      reads this
    {
      && PeersOk()
      && MacInv(macs, macTree, maxMacs)
      && GroupsOk()
      && TimersOk()
      && CursorInv(decision, peers, Ix())
    }

    constructor (maxMacs: nat, maxGroups: nat, membershipInterval: int, lastMemberTime: int)
      requires maxMacs > 0 && maxGroups > 0
      ensures Valid() && peers == [] && macs == map[] && groups == map[] && decision == NoDecision
      ensures this.maxMacs == maxMacs && this.maxGroups == maxGroups
    {
      this.maxMacs, this.maxGroups := maxMacs, maxGroups;
      this.membershipInterval, this.lastMemberTime := membershipInterval, lastMemberTime;
      peers, macs, macTree, groups := [], map[], map[], map[];
      lists, masters, tree := map[], {}, map[];
      timers, decision := map[], NoDecision;
    }

    /** add_mac_to_peer */
    method AddMac(p: nat, mac: Mac)
      requires Valid() && p in peers
      modifies this`macs, this`macTree
      ensures Valid() && macs == Learn(old(macs), p, mac, maxMacs)
    {
      hide GroupsOk, TimersOk, CursorInv, MacInv, Learn;
      PeerHasTables(p);
      LearnTreeFollows(macs, macTree, p, mac, maxMacs);
      LearnFacts(macs, macTree, mac, maxMacs);
      LearnIsShape(macs, macTree, p, mac, maxMacs);
      LearnTreeShape(macs, macTree, p, mac, maxMacs);
      UpdateTables(p, mac);
    }

    method UpdateTables(p: nat, mac: Mac)
      requires p in macs && (mac in macTree ==> macTree[mac] in macs)
      requires maxMacs > 0
      modifies this`macs, this`macTree
      ensures macs == Shape(old(macs), old(macTree), p, mac, maxMacs)
      ensures mac in old(macTree) && old(macTree)[mac] == p ==> macTree == old(macTree)
      ensures !(mac in old(macTree) && old(macTree)[mac] == p) ==>
                macTree == (old(macTree) - (if |old(macs)[p]| >= maxMacs then {old(macs)[p][0]} else {}))[mac := p]
    {
      if mac in macTree {
        if macTree[mac] == p {
          // known here already, it becomes the newest
          macs := macs[p := Without(macs[p], mac) + [mac]];
          return;
        }
        // the host has moved here from another peer
        var other := macTree[mac];
        macTree := macTree - {mac};
        macs := macs[other := Without(macs[other], mac)];
      }
      // a full table forgets its oldest
      if |macs[p]| >= maxMacs {
        macTree := macTree - {macs[p][0]};
        macs := macs[p := macs[p][1..]];
      }
      macs := macs[p := macs[p] + [mac]];
      macTree := macTree[mac := p];
    }

    lemma PeerHasTables(p: nat)
      requires PeersOk() && p in peers
      ensures p in macs && p in groups
    {
    }

    /** add_to_multicast */
    method AddToMulticast(e: Entry)
      requires MulticastIndex.Inv(Ix()) && !Known(Ix(), e)
      modifies this`lists, this`masters, this`tree, this`decision
      ensures Ix() == Add(old(Ix()), e)
      ensures decision == CursorAdd(old(decision), old(Ix()), e)
      ensures !old(decision).Multicast? ==> decision == old(decision)
    {
      var sig := SigOf(e.group);
      if sig in tree {
        var master := tree[sig];
        assert ClassInv(Ix(), sig);
        lists := lists[sig := InsertAfter(lists[sig], master, e)];
        if decision.Multicast? && master in decision.left {
          decision := Multicast(InsertAfter(decision.left, master, e));
        }
      } else {
        // the first of its class
        masters := masters + {e};
        tree := tree[sig := e];
        lists := lists[sig := [e]];
      }
    }

    /** remove_from_multicast */
    method RemoveFromMulticast(e: Entry)
      requires MulticastIndex.Inv(Ix()) && Known(Ix(), e)
      modifies this`lists, this`masters, this`tree, this`decision
      ensures Ix() == Remove(old(Ix()), e)
      ensures decision == CursorRemove(old(decision), e)
      ensures !old(decision).Multicast? ==> decision == old(decision)
    {
      var sig := SigOf(e.group);
      RemoveShape(Ix(), e);
      if e in masters {
        tree := tree - {sig};
        masters := masters - {e};
        if |lists[sig]| > 1 {
          // a neighbour takes over the class
          var newMaster := NextOrPrev(lists[sig], e);
          masters := masters + {newMaster};
          tree := tree[sig := newMaster];
        }
      }
      var rest := Without(lists[sig], e);
      lists := if rest == [] then lists - {sig} else lists[sig := rest];
      if decision.Multicast? { decision := Multicast(Without(decision.left, e)); }
    }

    /** add_group_to_peer up to setting the timer */
    method UseGroup(p: nat, g: nat)
      requires Valid() && p in peers
      modifies this`groups, this`lists, this`masters, this`tree, this`timers, this`decision
      ensures groups == Join(old(groups), p, g, maxGroups) && GroupsOk()
      ensures CursorInv(decision, peers, Ix())
      ensures forall e :: Known(Ix(), e) <==> e in timers || e == Entry(p, g)
      ensures timers == old(timers) - Expelled(old(groups), p, g, maxGroups)
      ensures !old(decision).Multicast? ==> decision == old(decision)
    {
      hide MacInv, GroupInv, CursorInv, Known, MulticastIndex.Inv, Add, Remove, Join, CursorAdd, CursorRemove;
      PeerHasTables(p);
      GroupFacts(groups, Ix(), maxGroups, p);
      var e := Entry(p, g);
      if g in groups[p] {
        // joined already, it becomes the newest
        JoinAgain(groups, Ix(), p, g, maxGroups);
        JoinShape(groups, p, g, maxGroups);
        groups := groups[p := Without(groups[p], g) + [g]];
        return;
      }
      JoinShape(groups, p, g, maxGroups);
      if |groups[p]| >= maxGroups {
        // a full table forgets its oldest
        JoinFull(groups, Ix(), p, g, maxGroups);
        var oldest := Entry(p, groups[p][0]);
        RemoveKeeps(Ix(), oldest);
        CursorRemoveKeeps(decision, peers, Ix(), oldest);
        RemoveFromMulticast(oldest);
        timers := timers - {oldest};
        groups := groups[p := groups[p][1..]];
      } else {
        JoinFree(groups, Ix(), p, g, maxGroups);
      }
      groups := groups[p := groups[p] + [g]];
      AddKeeps(Ix(), e);
      CursorAddKeeps(decision, peers, Ix(), e);
      AddToMulticast(e);
    }

    /** add_group_to_peer */
    method AddGroup(p: nat, g: nat, now: int)
      requires Valid() && p in peers
      modifies this`groups, this`lists, this`masters, this`tree, this`timers, this`decision
      ensures Valid() && groups == Join(old(groups), p, g, maxGroups)
      ensures timers == (old(timers) - Expelled(old(groups), p, g, maxGroups))[Entry(p, g) := now + membershipInterval]
      ensures !old(decision).Multicast? ==> decision == old(decision)
    {
      hide MacInv, GroupInv, CursorInv, Known, Join;
      UseGroup(p, g);
      timers := timers[Entry(p, g) := now + membershipInterval];
      assert PeersOk() by { JoinKeys(old(groups), p, g, maxGroups); }
    }

    /** remove_group_entry, and the timer handler that calls it */
    method RemoveGroupEntry(e: Entry)
      requires Valid() && e in timers
      modifies this`groups, this`lists, this`masters, this`tree, this`timers, this`decision
      ensures Valid() && e.peer in old(groups) && groups == Leave(old(groups), e)
      ensures timers == old(timers) - {e}
    {
      hide MacInv, GroupInv, CursorInv, Known, MulticastIndex.Inv, Remove, CursorRemove;
      KnownMember(groups, Ix(), maxGroups, e);
      LeaveKeeps(groups, Ix(), e, maxGroups);
      RemoveKeeps(Ix(), e);
      CursorRemoveKeeps(decision, peers, Ix(), e);
      RemoveFromMulticast(e);
      groups := groups[e.peer := Without(groups[e.peer], e.group)];
      timers := timers - {e};
    }

    /** lower_group_timers_to_lmqt */
    method LowerTimers(group: nat, now: int)
      requires Valid()
      modifies this`timers
      ensures Valid() && timers == Lowered(old(timers), group, now + lastMemberTime)
    {
      hide MacInv, GroupInv, CursorInv, MulticastIndex.Inv, ClassInv;
      var sig := SigOf(group);
      SigFacts(groups, Ix(), maxGroups, sig);
      if sig !in tree { return; }
      var limit := now + lastMemberTime;
      var list := lists[sig];
      var i := 0;
      while i < |list|
        invariant 0 <= i <= |list|
        invariant timers.Keys == old(timers).Keys
        invariant forall e :: e in timers ==>
          timers[e] == if e in list[..i] && e.group == group && old(timers)[e] > limit then limit else old(timers)[e]
      {
        var e := list[i];
        assert e in list && Known(Ix(), e);
        assert list[..i + 1] == list[..i] + [e];
        // another group may share the low bits
        if e.group == group && timers[e] > limit {
          timers := timers[e := limit];
        }
        i := i + 1;
      }
      assert list[..i] == list;
    }

    /** FrameDecider_AnalyzeAndDecide */
    method AnalyzeAndDecide(f: Frame, now: int)
      requires Valid()
      modifies this`timers, this`decision
      ensures Valid()
      ensures decision == Decided(old(decision), peers, macTree, Ix(), f)
      ensures old(decision).Multicast? ==> timers == old(timers)
      ensures !old(decision).Multicast? ==> Pending(decision) == Destinations(peers, macTree, Ix(), f)
      ensures !old(decision).Multicast? ==>
                timers == if f.Frame? && f.igmp && f.query.Some?
                  then Lowered(old(timers), f.query.value, now + lastMemberTime)
                          else old(timers)
    {
      hide MacInv, GroupInv, MulticastIndex.Inv, ClassInv, Known, Destinations, Lowered, SigOfMac;
      if decision.Multicast? { return; }
      decision := NoDecision;
      DestinationCases(peers, macTree, Ix(), f);
      if f.TooShort? { return; }
      if f.igmp && f.query.Some? { LowerTimers(f.query.value, now); }
      if f.igmp || f.dest == BROADCAST {
        decision := Flood(peers);
        return;
      }
      if IsMulticast(f.dest) {
        var sig := SigOfMac(f.dest);
        SigFacts(groups, Ix(), maxGroups, sig);
        if sig in tree { decision := Multicast(lists[sig]); }
        return;
      }
      if f.dest in macTree {
        OwnerIsPeer(macs, macTree, maxMacs, f.dest);
        decision := Unicast(macTree[f.dest]);
        return;
      }
      // nobody has been heard with this address
      decision := Flood(peers);
    }

    /** FrameDecider_NextDestination */
    method NextDestination() returns (next: Option<nat>)
      requires Valid()
      modifies this`decision
      ensures Valid()
      ensures Pending(old(decision)) == [] ==> next == None && decision == NoDecision
      ensures Pending(old(decision)) != [] ==>
                && next == Some(Pending(old(decision))[0]) && Pending(decision) == Pending(old(decision))[1..]
                && next.value in peers && (old(decision).Multicast? ==> decision.Multicast?)
    {
      hide MacInv, GroupInv, MulticastIndex.Inv, ClassInv;
      match decision
      case NoDecision =>
        return None;
      case Unicast(p) =>
        decision := NoDecision;
        return Some(p);
      case Flood(rest) =>
        if rest == [] {
          decision := NoDecision;
          return None;
        }
        decision := Flood(rest[1..]);
        return Some(rest[0]);
      case Multicast(left) =>
        if left == [] {
          decision := NoDecision;
          return None;
        }
        assert left[0] in left && Known(Ix(), left[0]);
        KnownMember(groups, Ix(), maxGroups, left[0]);
        decision := Multicast(left[1..]);
        return Some(left[0].peer);
    }

    /** device_dpsource_handler: the peers a device frame is given to, each with whether more will follow. */
    method RouteFrame(f: Frame, now: int) returns (routed: seq<(nat, bool)>)
      requires Valid() && decision == NoDecision
      modifies this`timers, this`decision
      ensures Valid() && decision == NoDecision
      ensures |routed| == |Destinations(peers, macTree, Ix(), f)|
      ensures forall i :: 0 <= i < |routed| ==>
                routed[i] == (Destinations(peers, macTree, Ix(), f)[i], i < |routed| - 1)
    {
      hide Valid, Destinations, Pending;
      AnalyzeAndDecide(f, now);
      ghost var all := Destinations(peers, macTree, Ix(), f);
      var current := NextDestination();
      routed := [];
      while current.Some?
        invariant Valid()
        invariant peers == old(peers) && macTree == old(macTree) && Ix() == old(Ix())
        invariant current.Some? ==>
                    |routed| < |all| && current.value == all[|routed|] && Pending(decision) == all[|routed| + 1..]
        invariant current.None? ==> |routed| == |all| && decision == NoDecision
        invariant forall i :: 0 <= i < |routed| ==> routed[i] == (all[i], i < |all| - 1)
        decreases |all| - |routed|
      {
        var next := NextDestination();
        routed := routed + [(current.value, next.Some?)];
        current := next;
      }
    }

    /** FrameDeciderPeer_Init */
    method PeerInit(p: nat)
      requires Valid() && p !in peers
      modifies this`peers, this`macs, this`groups, this`decision
      ensures Valid()
      ensures peers == old(peers) + [p] && macs == old(macs)[p := []] && groups == old(groups)[p := []]
      ensures !old(decision).Flood? ==> decision == old(decision)
    {
      hide MacInv, GroupInv, CursorInv, MulticastIndex.Inv, Known;
      NewPeerMacs(macs, macTree, maxMacs, p);
      NewPeerGroups(groups, Ix(), maxGroups, p);
      NewPeerCursor(decision, peers, Ix(), p);
      peers := peers + [p];
      macs := macs[p := []];
      groups := groups[p := []];
      // a flood that has not reached the end of the list will reach the new peer
      if decision.Flood? && decision.rest != [] { decision := Flood(decision.rest + [p]); }
    }

    /** FrameDeciderPeer_Free */
    method PeerFree(p: nat)
      requires Valid() && p in peers
      modifies this
      ensures Valid() && peers == Without(old(peers), p)
      ensures macs == old(macs) - {p} && groups == old(groups) - {p}
      ensures timers == old(timers) - EntriesOf(p, old(groups)[p])
    {
      hide GroupsOk, TimersOk, MacInv, CursorInv, Distinct, EntriesOf, Without;
      PeerHasTables(p);
      IdleCursor(peers, Ix());
      if decision == Unicast(p) { decision := NoDecision; }
      FreeGroups(p);
      FreeMacs(p);
      Unlist(p);
    }

    /** The peer leaves the list, and with it a flood in progress. */
    method Unlist(p: nat)
      requires CursorInv(decision, peers, Ix()) && Distinct(peers) && p in peers && decision != Unicast(p)
      modifies this`peers, this`decision
      ensures CursorInv(decision, peers, Ix()) && peers == Without(old(peers), p)
      ensures Distinct(peers) && forall q :: q in peers <==> q in old(peers) && q != p
    {
      hide CursorInv, Distinct;
      FreedCursor(decision, peers, Ix(), p);
      PeersWithout(p);
      if decision.Flood? { decision := Flood(Without(decision.rest, p)); }
      peers := Without(peers, p);
    }

    lemma PeersWithout(p: nat)
      requires Distinct(peers)
      ensures Distinct(Without(peers, p)) && forall q :: q in Without(peers, p) <==> q in peers && q != p
    {
      WithoutDistinct(peers, p);
    }

    method FreeGroups(p: nat)
      requires GroupsOk() && TimersOk() && CursorInv(decision, peers, Ix()) && p in groups
      modifies this`groups, this`lists, this`masters, this`tree, this`timers, this`decision
      ensures GroupsOk() && TimersOk() && CursorInv(decision, peers, Ix())
      ensures groups == old(groups) - {p} && timers == old(timers) - EntriesOf(p, old(groups)[p])
      ensures forall e :: Known(Ix(), e) ==> e.peer != p
      ensures old(decision).Multicast? == decision.Multicast? && (!decision.Multicast? ==> decision == old(decision))
    {
      hide GroupInv, MulticastIndex.Inv, Known, CursorInv, EntriesOf, Remove;
      var used := groups[p];
      var i := 0;
      assert groups[p := used[i..]] == groups;
      NoEntries(p, used);
      while i < |used|
        invariant 0 <= i <= |used|
        invariant groups == old(groups)
        invariant GroupInv(groups[p := used[i..]], Ix(), maxGroups) && CursorInv(decision, peers, Ix())
        invariant TimersOk() && timers == old(timers) - EntriesOf(p, used[..i])
        invariant old(decision).Multicast? == decision.Multicast?
        invariant !decision.Multicast? ==> decision == old(decision)
      {
        var e := Entry(p, used[i]);
        FreeOne(groups, used, i, Ix(), maxGroups, p);
        CursorRemoveKeeps(decision, peers, Ix(), e);
        RemoveKeeps(Ix(), e);
        RemoveFromMulticast(e);
        timers := timers - {e};
        MoreEntries(p, used, i);
        i := i + 1;
      }
      assert used[..i] == used && used[i..] == [];
      GroupsGone(groups, Ix(), maxGroups, p);
      groups := groups - {p};
    }

    method FreeMacs(p: nat)
      requires MacInv(macs, macTree, maxMacs) && p in macs
      modifies this`macs, this`macTree
      ensures MacInv(macs, macTree, maxMacs) && macs == old(macs) - {p}
    {
      hide MacInv, Distinct;
      var used := macs[p];
      var i := 0;
      while i < |used|
        invariant 0 <= i <= |used|
        invariant macs == old(macs) && macTree == old(macTree) - (set m | m in used[..i])
      {
        assert used[..i + 1] == used[..i] + [used[i]];
        macTree := macTree - {used[i]};
        i := i + 1;
      }
      assert used[..i] == used;
      MacsGone(macs, macTree, old(macTree), maxMacs, p);
      macs := macs - {p};
    }

    /** FrameDeciderPeer_Analyze on the source address and the IGMP report of a frame from the peer. */
    method PeerAnalyze(p: nat, source: Mac, report: Report, now: int)
      requires Valid() && p in peers
      modifies this
      ensures Valid() && peers == old(peers)
      ensures macs == Learn(old(macs), p, source, maxMacs)
      ensures groups == JoinAll(old(groups), p, Joins(report), maxGroups)
    {
      hide MacInv, GroupInv, MulticastIndex.Inv, Known, CursorInv, Learn, Join;
      PeerHasTables(p);
      AddMac(p, source);
      match report
      case NoReport =>
      case V2(g) =>
        AddGroup(p, g, now);
        assert [g][..0] == [];
      case V3(records) =>
        AddRecords(p, records, now);
    }

    method AddRecords(p: nat, records: seq<Record>, now: int)
      requires Valid() && p in peers
      modifies this`groups, this`lists, this`masters, this`tree, this`timers, this`decision
      ensures Valid()
      ensures p in old(groups) && groups == JoinAll(old(groups), p, RecordJoins(records), maxGroups)
    {
      hide MacInv, GroupInv, MulticastIndex.Inv, Known, CursorInv, Join;
      PeerHasTables(p);
      var i := 0;
      while i < |records|
        invariant 0 <= i <= |records|
        invariant Valid()
        invariant groups == JoinAll(old(groups), p, RecordJoins(records[..i]), maxGroups)
      {
        var r := records[i];
        ghost var before := RecordJoins(records[..i]);
        assert before + [] == before;
        assert records[..i + 1][..i] == records[..i];
        assert RecordJoins(records[..i + 1]) ==
               before + if r.mode.Exclude? || (r.mode.Include? && r.sources != 0) then [r.group] else [];
        if r.mode.Exclude? || (r.mode.Include? && r.sources != 0) {
          JoinAllMore(old(groups), p, before, r.group, maxGroups);
          AddGroup(p, r.group, now);
        }
        i := i + 1;
      }
      assert records[..i] == records;
    }
  }

  const Broadcast := Frame(BROADCAST, false, None)

  /**
   * Two peers join a group, a frame to the group is decided, and only one of its two destinations is taken:
   * the next frame, a broadcast, is then not sent to both peers but to one.
   */
  method UndrainedSwallowsFrame(maxMacs: nat, maxGroups: nat, interval: int, lastMemberTime: int, group: nat, now: int)
      returns (d: FrameDecider)
    requires maxMacs > 0 && maxGroups > 0
    ensures fresh(d) && d.Valid() && d.peers == [1, 2]
    ensures |Pending(d.decision)| == 1 && Destinations(d.peers, d.macTree, d.Ix(), Broadcast) == [1, 2]
  {
    hide Join, GroupInv, MacInv, Destinations, CursorInv, Known, MulticastIndex.Inv, FrameDecider.PeersOk,
      FrameDecider.TimersOk, Expelled, Lowered;
    d := new FrameDecider(maxMacs, maxGroups, interval, lastMemberTime);
    d.PeerInit(1);
    d.PeerInit(2);
    assert d.groups == map[1 := [], 2 := []] && d.peers == [1, 2];
    d.AddGroup(1, group, now);
    d.AddGroup(2, group, now);
    JoinBoth(maxGroups, group);
    BothJoined(d.groups, d.Ix(), maxGroups, d.peers, d.macTree, group);
    BroadcastFloods(d.peers, d.macTree, d.Ix());
    d.AnalyzeAndDecide(Frame(MacForGroup(group), false, None), now);
    var first := d.NextDestination();
    d.AnalyzeAndDecide(Broadcast, now);
  }

  /** A list without repetition that holds exactly two entries has length 2. */
  lemma TwoOf(s: seq<Entry>, a: Entry, b: Entry)
    requires Distinct(s) && a != b && forall e :: e in s <==> e == a || e == b
    ensures |s| == 2
  {
    assert a in s && b in s;
    if |s| > 2 {
      TwoAlike(s, a, b);
      assert false;
    }
  }

  lemma TwoAlike(s: seq<Entry>, a: Entry, b: Entry)
    requires |s| > 2 && forall e :: e in s ==> e == a || e == b
    ensures s[0] == s[1] || s[0] == s[2] || s[1] == s[2]
  {
    assert s[0] in s && s[1] in s && s[2] in s;
  }

  lemma JoinBoth(max: nat, group: nat)
    requires max > 0
    ensures Join(Join(map[1 := [], 2 := []], 1, group, max), 2, group, max) == map[1 := [group], 2 := [group]]
  {
    FirstJoin(map[1 := [], 2 := []], 1, group, max);
    FirstJoin(map[1 := [group], 2 := []], 2, group, max);
    hide Join;
    assert map[1 := [], 2 := []][1 := [group]] == map[1 := [group], 2 := []];
    assert map[1 := [group], 2 := []][2 := [group]] == map[1 := [group], 2 := [group]];
  }

  lemma FirstJoin(groups: map<nat, seq<nat>>, p: nat, group: nat, max: nat)
    requires p in groups && groups[p] == []
    ensures Join(groups, p, group, max) == groups[p := [group]]
  {
    assert Seen(groups[p], group, max) == groups[p] + [group];
    assert groups[p] + [group] == [group];
  }

  lemma BroadcastFloods(peers: seq<nat>, macTree: map<Mac, nat>, ix: Index)
    ensures Destinations(peers, macTree, ix, Broadcast) == peers
  {
  }

  lemma BothJoined(groups: map<nat, seq<nat>>, ix: Index, max: nat, peers: seq<nat>, macTree: map<Mac, nat>, group: nat)
    requires GroupInv(groups, ix, max) && groups == map[1 := [group], 2 := [group]]
    ensures |Destinations(peers, macTree, ix, Frame(MacForGroup(group), false, None))| == 2
    ensures Decided(NoDecision, peers, macTree, ix, Frame(MacForGroup(group), false, None)).Multicast?
  {
    IndexIsScan(groups, ix, max, SigOf(group));
    FrameForGroupHasItsSig(group);
    assert MacForGroup(group)[0] != BROADCAST[0];
    assert MacForGroup(group)[..3] == [0x01, 0x00, 0x5e];
    TwoOf(Matching(ix, SigOf(group)), Entry(1, group), Entry(2, group));
  }

  function Expelled(groups: map<nat, seq<nat>>, p: nat, g: nat, max: nat): set<Entry>
    requires p in groups
  {
    if g !in groups[p] && |groups[p]| >= max && |groups[p]| > 0 then {Entry(p, groups[p][0])} else {}
  }

  lemma GroupFacts(groups: map<nat, seq<nat>>, ix: Index, max: nat, p: nat)
    requires GroupInv(groups, ix, max) && p in groups
    ensures max > 0 && MulticastIndex.Inv(ix)
    ensures forall g :: g in groups[p] <==> Known(ix, Entry(p, g))
  {
    forall g ensures g in groups[p] <==> Known(ix, Entry(p, g)) {
      assert Entry(p, g).peer == p;
    }
  }

  lemma KnownMember(groups: map<nat, seq<nat>>, ix: Index, max: nat, e: Entry)
    requires GroupInv(groups, ix, max) && Known(ix, e)
    ensures MulticastIndex.Inv(ix) && e.peer in groups && e.group in groups[e.peer]
  {
  }

  lemma JoinShape(groups: map<nat, seq<nat>>, p: nat, g: nat, max: nat)
    requires p in groups && max > 0
    ensures var used := groups[p];
            Join(groups, p, g, max) ==
              groups[p := (if g in used then Without(used, g) else if |used| >= max then used[1..] else used) + [g]]
  {
  }

  lemma JoinKeys(groups: map<nat, seq<nat>>, p: nat, g: nat, max: nat)
    requires p in groups
    ensures Join(groups, p, g, max).Keys == groups.Keys
  {
  }

  function EntriesOf(p: nat, groups: seq<nat>): set<Entry> {
    set g | g in groups :: Entry(p, g)
  }

  lemma NoEntries(p: nat, used: seq<nat>)
    ensures EntriesOf(p, used[..0]) == {}
  {
  }

  lemma MoreEntries(p: nat, used: seq<nat>, i: nat)
    requires i < |used|
    ensures EntriesOf(p, used[..i + 1]) == EntriesOf(p, used[..i]) + {Entry(p, used[i])}
  {
    assert used[..i + 1] == used[..i] + [used[i]];
  }

  lemma FreeOne(groups: map<nat, seq<nat>>, used: seq<nat>, i: nat, ix: Index, max: nat, p: nat)
    requires p in groups && i < |used| && GroupInv(groups[p := used[i..]], ix, max)
    ensures MulticastIndex.Inv(ix) && Known(ix, Entry(p, used[i]))
    ensures GroupInv(groups[p := used[i + 1..]], Remove(ix, Entry(p, used[i])), max)
  {
    var g, e := groups[p := used[i..]], Entry(p, used[i]);
    assert used[i..][0] == used[i];
    KnownFor(g, ix, max, e);
    LeaveKeeps(g, ix, e, max);
    hide GroupInv, MulticastIndex.Inv, Known, Remove;
    assert Without(used[i..], used[i]) == used[i + 1..];
    assert Leave(g, e) == groups[p := used[i + 1..]];
  }

  lemma KnownFor(groups: map<nat, seq<nat>>, ix: Index, max: nat, e: Entry)
    requires GroupInv(groups, ix, max) && e.peer in groups && e.group in groups[e.peer]
    ensures MulticastIndex.Inv(ix) && Known(ix, e)
  {
  }

  lemma GroupsGone(groups: map<nat, seq<nat>>, ix: Index, max: nat, p: nat)
    requires p in groups && GroupInv(groups[p := []], ix, max)
    ensures GroupInv(groups - {p}, ix, max)
    ensures forall e :: Known(ix, e) ==> e.peer != p
  {
    hide MulticastIndex.Inv, Known;
    var g := groups[p := []];
    var left := groups - {p};
    assert forall q :: q in left ==> q in g && left[q] == g[q];
    assert forall q :: q in g && q != p ==> q in left;
    forall e ensures Known(ix, e) <==> e.peer in left && e.group in left[e.peer] {
      assert Known(ix, e) <==> e.peer in g && e.group in g[e.peer];
    }
  }

  lemma MacsGone(macs: map<nat, seq<Mac>>, left: map<Mac, nat>, tree: map<Mac, nat>, max: nat, p: nat)
    requires MacInv(macs, tree, max) && p in macs && left == tree - (set m | m in macs[p])
    ensures MacInv(macs - {p}, left, max)
  {
    hide Distinct;
    var r := macs - {p};
    assert forall q :: q in r ==> q in macs && r[q] == macs[q];
    assert forall m :: m in left <==> m in tree && m !in macs[p];
    assert forall m :: m in left ==> left[m] == tree[m];
    forall m | m in left ensures left[m] in r && m in r[left[m]] { assert m in macs[tree[m]]; }
    forall q, m | q in r && m in r[q] ensures m in left && left[m] == q { assert tree[m] == q; }
  }

  lemma NewPeerMacs(macs: map<nat, seq<Mac>>, tree: map<Mac, nat>, max: nat, p: nat)
    requires MacInv(macs, tree, max) && p !in macs
    ensures MacInv(macs[p := []], tree, max)
  {
  }

  lemma NewPeerGroups(groups: map<nat, seq<nat>>, ix: Index, max: nat, p: nat)
    requires GroupInv(groups, ix, max) && p !in groups
    ensures GroupInv(groups[p := []], ix, max)
  {
    hide MulticastIndex.Inv, Known;
  }

  lemma NewPeerCursor(d: Decision, peers: seq<nat>, ix: Index, p: nat)
    requires CursorInv(d, peers, ix) && p !in peers
    ensures CursorInv(if d.Flood? && d.rest != [] then Flood(d.rest + [p]) else d, peers + [p], ix)
  {
    hide Known;
  }

  lemma IdleCursor(peers: seq<nat>, ix: Index)
    ensures CursorInv(NoDecision, peers, ix)
  {
  }

  lemma JoinAllMore(groups: map<nat, seq<nat>>, p: nat, joins: seq<nat>, g: nat, max: nat)
    requires p in groups
    ensures JoinAll(groups, p, joins + [g], max) == Join(JoinAll(groups, p, joins, max), p, g, max)
  {
    assert (joins + [g])[..|joins|] == joins;
  }

  lemma FreedCursor(d: Decision, peers: seq<nat>, ix: Index, p: nat)
    requires CursorInv(d, peers, ix) && d != Unicast(p)
    ensures CursorInv(if d.Flood? then Flood(Without(d.rest, p)) else d, Without(peers, p), ix)
  {
    hide Known;
    if d.Flood? { WithoutDistinct(d.rest, p); }
  }

  lemma SigFacts(groups: map<nat, seq<nat>>, ix: Index, max: nat, sig: nat)
    requires GroupInv(groups, ix, max)
    ensures sig in ix.lists <==> sig in ix.tree
    ensures sig in ix.lists ==> Distinct(ix.lists[sig]) && forall e :: e in ix.lists[sig] ==> Known(ix, e)
    ensures forall e :: Known(ix, e) && SigOf(e.group) == sig ==> sig in ix.lists && e in ix.lists[sig]
  {
    if sig in ix.lists { assert ClassInv(ix, sig); }
  }

  lemma OwnerIsPeer(macs: map<nat, seq<Mac>>, tree: map<Mac, nat>, max: nat, m: Mac)
    requires MacInv(macs, tree, max) && m in tree
    ensures tree[m] in macs
  {
  }

  lemma DestinationCases(peers: seq<nat>, macTree: map<Mac, nat>, ix: Index, f: Frame)
    ensures f.TooShort? ==> Destinations(peers, macTree, ix, f) == []
    ensures f.Frame? && (f.igmp || f.dest == BROADCAST) ==> Destinations(peers, macTree, ix, f) == peers
    ensures f.Frame? && !f.igmp && f.dest != BROADCAST && IsMulticast(f.dest) ==>
              Destinations(peers, macTree, ix, f) == PeersOf(Matching(ix, SigOfMac(f.dest)))
    ensures f.Frame? && !f.igmp && f.dest != BROADCAST && !IsMulticast(f.dest) ==>
              Destinations(peers, macTree, ix, f) == if f.dest in macTree then [macTree[f.dest]] else peers
  {
  }

  /** Only a master can be alone in its class, and a class is gone exactly when its only entry was. */
  lemma RemoveShape(ix: Index, e: Entry)
    requires MulticastIndex.Inv(ix) && Known(ix, e)
    ensures var s := SigOf(e.group);
            var list := ix.lists[s];
            && |list| > 0 && (Without(list, e) == [] <==> |list| == 1)
            && (|list| == 1 ==> e in ix.masters)
  {
    var s := SigOf(e.group);
    assert ClassInv(ix, s);
    WithoutDistinct(ix.lists[s], e);
  }

  /** What UpdateTables leaves in the lists when p already had the address, and when it did not. */
  function Shape(macs: map<nat, seq<Mac>>, tree: map<Mac, nat>, p: nat, mac: Mac, max: nat): map<nat, seq<Mac>>
    requires p in macs && (mac in tree ==> tree[mac] in macs) && max > 0
  {
    if mac in tree && tree[mac] == p then macs[p := Without(macs[p], mac) + [mac]]
    else
      var freed := if mac in tree then macs[tree[mac] := Without(macs[tree[mac]], mac)] else macs;
      freed[p := (if |macs[p]| >= max then macs[p][1..] else macs[p]) + [mac]]
  }

  lemma ShapeAt(macs: map<nat, seq<Mac>>, tree: map<Mac, nat>, p: nat, mac: Mac, max: nat, q: nat)
    requires MacInv(macs, tree, max) && p in macs && q in macs && (mac in tree ==> tree[mac] in macs) && max > 0
    ensures Learn(macs, p, mac, max)[q] == Shape(macs, tree, p, mac, max)[q]
  {
    hide MacInv, Distinct, Without;
    Owner(macs, tree, max, q, mac);
    Owner(macs, tree, max, p, mac);
    WithoutDistinct(macs[q], mac);
  }

  lemma LearnIsShape(macs: map<nat, seq<Mac>>, tree: map<Mac, nat>, p: nat, mac: Mac, max: nat)
    requires MacInv(macs, tree, max) && p in macs && (mac in tree ==> tree[mac] in macs) && max > 0
    ensures Learn(macs, p, mac, max) == Shape(macs, tree, p, mac, max)
  {
    var l, r := Learn(macs, p, mac, max), Shape(macs, tree, p, mac, max);
    assert l.Keys == macs.Keys;
    assert r.Keys == macs.Keys;
    forall q | q in macs ensures l[q] == r[q] { ShapeAt(macs, tree, p, mac, max, q); }
  }

  lemma LearnTreeShape(macs: map<nat, seq<Mac>>, tree: map<Mac, nat>, p: nat, mac: Mac, max: nat)
    requires MacInv(macs, tree, max) && p in macs
    ensures mac in tree && tree[mac] == p ==> LearnTree(macs, tree, p, mac, max) == tree
    ensures !(mac in tree && tree[mac] == p) ==>
              LearnTree(macs, tree, p, mac, max) == (tree - (if |macs[p]| >= max then {macs[p][0]} else {}))[mac := p]
  {
    hide MacInv, Distinct;
    Owner(macs, tree, max, p, mac);
  }

  lemma LearnFacts(macs: map<nat, seq<Mac>>, tree: map<Mac, nat>, mac: Mac, max: nat)
    requires MacInv(macs, tree, max)
    ensures max > 0 && (mac in tree ==> tree[mac] in macs)
  {
  }
}
