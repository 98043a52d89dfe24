/** Where frames go, said of their bytes and of who was heard from where, and in which order tables forget. */
module FrameRouting {
  import opened MulticastIndex
  import opened FrameDeciders

  // ----- destinations -----

  ghost predicate IsMac(mac: Mac) {
    |mac| == 6 && forall i :: 0 <= i < 6 ==> mac[i] < 256
  }

  /** The low 23 bits of a group address, and those of an Ethernet address. */
  ghost predicate SameLow23(group: nat, mac: Mac)
    requires |mac| == 6
  {
    group % 0x80_0000 == mac[3] % 128 * 0x1_0000 + mac[4] * 0x100 + mac[5]
  }

  lemma SigOfBytes(mac: Mac)
    requires IsMac(mac)
    ensures SigOfMac(mac) == mac[3] % 128 * 0x1_0000 + mac[4] * 0x100 + mac[5]
  {
    var low := mac[3] % 128 * 0x1_0000 + mac[4] * 0x100 + mac[5];
    var high := mac[2] * 2 + mac[3] / 128;
    assert mac[3] == mac[3] / 128 * 128 + mac[3] % 128;
    assert (((mac[2] * 256 + mac[3]) * 256 + mac[4]) * 256 + mac[5]) == high * LOW23 + low;
    ModSum(high, low);
  }

  /**
   * Where a frame of the device goes. IGMP and broadcast frames, and those to an address nobody has been heard
   * with, go to all peers; those to 01:00:5e addresses to exactly the peers that joined a group with the same low
   * 23 bits; all others to the one peer heard with the address.
   */
  lemma GoesWhere(peers: seq<nat>, macs: map<nat, seq<Mac>>, tree: map<Mac, nat>, maxMacs: nat,
                  groups: map<nat, seq<nat>>, ix: Index, maxGroups: nat, f: Frame)
    requires MacInv(macs, tree, maxMacs) && GroupInv(groups, ix, maxGroups) && (f.Frame? ==> IsMac(f.dest))
    ensures var to := Destinations(peers, tree, ix, f);
            match f
            case TooShort => to == []
            case Frame(dest, igmp, _) =>
              var broadcast := forall i :: 0 <= i < 6 ==> dest[i] == 255;
              var multicast := dest[0] == 1 && dest[1] == 0 && dest[2] == 0x5e;
              && (igmp || broadcast ==> to == peers)
              && (!igmp && multicast ==>
                    forall p :: p in to <==> p in groups && exists g :: g in groups[p] && SameLow23(g, dest))
              && (!igmp && !broadcast && !multicast ==>
                    && (forall p :: p in macs && dest in macs[p] ==> to == [p])
                    && ((forall p :: p in macs ==> dest !in macs[p]) ==> to == peers))
  {
    if f.Frame? {
      SigOfBytes(f.dest);
      IndexIsScan(groups, ix, maxGroups, SigOfMac(f.dest));
      assert (forall i :: 0 <= i < 6 ==> f.dest[i] == 255) <==> f.dest == BROADCAST;
      MulticastBytes(f.dest);
      hide GroupInv, IsMulticast, SigOfMac, Matching, PeersOf;
    }
  }

  lemma MulticastBytes(dest: Mac)
    requires |dest| == 6
    ensures IsMulticast(dest) <==> dest[0] == 1 && dest[1] == 0 && dest[2] == 0x5e
  {
    assert dest[..3] == [dest[0], dest[1], dest[2]];
  }

  /**
   * A multicast decision in progress when memberships change: the peers still to come are those there were, less
   * the entry removed, and the order is kept.
   */
  lemma CursorFollows(d: Decision, e: Entry)
    requires d.Multicast? && Distinct(d.left)
    ensures var left := CursorRemove(d, e).left;
            if e in d.left then exists k :: 0 <= k < |d.left| && d.left[k] == e && left == d.left[..k] + d.left[k + 1..]
            else left == d.left
  {
    if e in d.left {
      var k :| 0 <= k < |d.left| && d.left[k] == e;
      WithoutAt(d.left, k);
    } else {
      WithoutDistinct(d.left, e);
    }
  }

  /** A group-specific query leaves each timer of the group at the earlier of its time and the limit, no other. */
  lemma QueryLowers(timers: map<Entry, int>, group: nat, limit: int)
    ensures var r := Lowered(timers, group, limit);
            && r.Keys == timers.Keys
            && (forall e :: e in timers && e.group == group ==>
                  r[e] <= limit && r[e] <= timers[e] && (r[e] == limit || r[e] == timers[e]))
            && (forall e :: e in timers && e.group != group ==> r[e] == timers[e])
  {
  }

  // ----- reports -----

  lemma {:induction false} RecordsAppend(a: seq<Record>, b: seq<Record>)
    ensures Joins(V3(a + b)) == Joins(V3(a)) + Joins(V3(b))
    decreases |b|
  {
    if b == [] {
      assert a + b == a;
    } else {
      var n := |b| - 1;
      assert (a + b)[..|a + b| - 1] == a + b[..n];
      RecordsAppend(a, b[..n]);
    }
  }

  /**
   * Which records of an IGMPv3 report join: those that exclude sources, and those that include some. Each joins
   * its own group, in the order of the report.
   */
  lemma RecordsJoin(before: seq<Record>, r: Record, after: seq<Record>)
    ensures var joins := r.mode.Exclude? || (r.mode.Include? && r.sources > 0);
            Joins(V3(before + [r] + after))
            == Joins(V3(before)) + (if joins then [r.group] else []) + Joins(V3(after))
  {
    RecordsAppend(before + [r], after);
    RecordsAppend(before, [r]);
    assert [r][..0] == [];
  }

  // ----- what a table forgets -----

  lemma {:induction false} WithoutAt<T>(s: seq<T>, k: nat)
    requires Distinct(s) && k < |s|
    ensures Without(s, s[k]) == s[..k] + s[k + 1..]
  {
    if k > 0 {
      WithoutAt(s[1..], k - 1);
      assert s[0] != s[k];
      assert s[..k] + s[k + 1..] == [s[0]] + (s[1..][..k - 1] + s[1..][k..]);
    }
  }

  /** A frame from this address came from peer p. */
  datatype Sighting = Sighting(peer: nat, mac: Mac)

  /** The time peer p was last heard with this address, counted in sightings; -1 if never. */
  function LastSeen(seen: seq<Sighting>, p: nat, mac: Mac): int {
    if seen == [] then -1
    else
      var n := |seen| - 1;
      if seen[n] == Sighting(p, mac) then n else LastSeen(seen[..n], p, mac)
  }

  /** The tables of some peers, empty at first, after these sightings. */
  function TablesAfter(peers: set<nat>, seen: seq<Sighting>, max: nat): (macs: map<nat, seq<Mac>>)
    requires forall s :: s in seen ==> s.peer in peers
    ensures macs.Keys == peers
  {
    if seen == [] then map p | p in peers :: []
    else
      var n := |seen| - 1;
      Learn(TablesAfter(peers, seen[..n], max), seen[n].peer, seen[n].mac, max)
  }

  /** The addresses in a list were last heard one after the other. */
  ghost predicate InOrderOfSighting(seen: seq<Sighting>, p: nat, macs: seq<Mac>) {
    && (forall i :: 0 <= i < |macs| ==> 0 <= LastSeen(seen, p, macs[i]) < |seen|)
    && (forall i, j :: 0 <= i < j < |macs| ==> LastSeen(seen, p, macs[i]) < LastSeen(seen, p, macs[j]))
  }

  lemma SightingsDistinct(seen: seq<Sighting>, p: nat, macs: seq<Mac>)
    requires InOrderOfSighting(seen, p, macs)
    ensures Distinct(macs)
  {
  }

  lemma LastSeenSnoc(seen: seq<Sighting>, s: Sighting, p: nat, mac: Mac)
    ensures LastSeen(seen + [s], p, mac) == if s == Sighting(p, mac) then |seen| else LastSeen(seen, p, mac)
  {
    assert (seen + [s])[..|seen|] == seen;
  }

  lemma WithoutInOrder(seen: seq<Sighting>, p: nat, macs: seq<Mac>, mac: Mac)
    requires InOrderOfSighting(seen, p, macs)
    ensures InOrderOfSighting(seen, p, Without(macs, mac)) && mac !in Without(macs, mac)
  {
    SightingsDistinct(seen, p, macs);
    WithoutDistinct(macs, mac);
    if mac in macs {
      var k :| 0 <= k < |macs| && macs[k] == mac;
      WithoutAt(macs, k);
      hide LastSeen, Without, Distinct, InOrderOfSighting;
      CutInOrder(seen, p, macs, k);
    }
  }

  lemma CutInOrder(seen: seq<Sighting>, p: nat, macs: seq<Mac>, k: nat)
    requires InOrderOfSighting(seen, p, macs) && k < |macs|
    ensures InOrderOfSighting(seen, p, macs[..k] + macs[k + 1..])
  {
    hide LastSeen;
    var r := macs[..k] + macs[k + 1..];
    assert forall i :: 0 <= i < |r| ==> r[i] == macs[if i < k then i else i + 1];
  }

  /** A sighting moves an address to the end; everything else keeps its time. */
  lemma SeenInOrder(seen: seq<Sighting>, s: Sighting, p: nat, rest: seq<Mac>)
    requires InOrderOfSighting(seen, p, rest) && (s.peer == p ==> s.mac !in rest)
    ensures InOrderOfSighting(seen + [s], p, if s.peer == p then rest + [s.mac] else rest)
  {
    forall i | 0 <= i < |rest| ensures LastSeen(seen + [s], p, rest[i]) == LastSeen(seen, p, rest[i]) {
      LastSeenSnoc(seen, s, p, rest[i]);
    }
    LastSeenSnoc(seen, s, p, s.mac);
    hide LastSeen;
  }

  lemma FullInOrder(seen: seq<Sighting>, p: nat, macs: seq<Mac>)
    requires InOrderOfSighting(seen, p, macs) && macs != []
    ensures InOrderOfSighting(seen, p, macs[1..])
  {
    hide LastSeen;
  }

  /**
   * Whatever frames came, every peer's addresses stand in the order they were last heard. So the one a full
   * table gives up, its first, is the one not heard for longest.
   */
  lemma {:induction false} TablesInOrderOfSighting(peers: set<nat>, seen: seq<Sighting>, max: nat, p: nat)
    requires (forall s :: s in seen ==> s.peer in peers) && p in peers
    ensures InOrderOfSighting(seen, p, TablesAfter(peers, seen, max)[p])
    decreases |seen|
  {
    if seen != [] {
      var n := |seen| - 1;
      var front, s := seen[..n], seen[n];
      TablesInOrderOfSighting(peers, front, max, p);
      assert seen == front + [s];
      hide InOrderOfSighting, LastSeen, Without, Distinct;
      LearnInOrder(front, s, p, TablesAfter(peers, front, max), max);
    }
  }

  lemma LearnInOrder(seen: seq<Sighting>, s: Sighting, p: nat, macs: map<nat, seq<Mac>>, max: nat)
    requires p in macs && s.peer in macs && InOrderOfSighting(seen, p, macs[p])
    ensures InOrderOfSighting(seen + [s], p, Learn(macs, s.peer, s.mac, max)[p])
  {
    WithoutInOrder(seen, p, macs[p], s.mac);
    if macs[p] != [] { FullInOrder(seen, p, macs[p]); }
    hide LastSeen, Without, InOrderOfSighting, Distinct;
    var rest :=
      if s.peer != p || s.mac in macs[p] then Without(macs[p], s.mac)
      else if |macs[p]| >= max && |macs[p]| > 0 then macs[p][1..]
      else macs[p];
    SeenInOrder(seen, s, p, rest);
  }

  // ----- which groups stay joined -----

  /** The place of the last join of group g; -1 if there is none. */
  function LastJoin(joins: seq<nat>, g: nat): (k: int)
    ensures -1 <= k < |joins| && (k >= 0 <==> g in joins)
  {
    if joins == [] then -1
    else
      var n := |joins| - 1;
      assert joins == joins[..n] + [joins[n]];
      if joins[n] == g then n else LastJoin(joins[..n], g)
  }

  /**
   * The list holds what was joined last: in the order of the last joins, and a group is missing from it only if the
   * list is full of groups joined since.
   */
  ghost predicate Latest(start: seq<nat>, joins: seq<nat>, list: seq<nat>, max: nat) {
    && Distinct(list) && |list| <= max
    && (forall i :: 0 <= i < |list| ==> list[i] in start || list[i] in joins)
    && (forall i, j :: 0 <= i < j < |list| ==> LastJoin(joins, list[i]) <= LastJoin(joins, list[j]))
    && (forall g :: g in joins && g !in list ==>
          |list| == max && forall i :: 0 <= i < |list| ==> LastJoin(joins, list[i]) > LastJoin(joins, g))
    && (forall g :: g in start && g !in list ==> |list| == max)
  }

  lemma LastJoinSnoc(joins: seq<nat>, g: nat, x: nat)
    ensures LastJoin(joins + [x], g) == if g == x then |joins| else LastJoin(joins, g)
  {
    assert (joins + [x])[..|joins|] == joins;
  }

  lemma AllSnoc(joins: seq<nat>, x: nat)
    ensures forall g :: LastJoin(joins + [x], g) == if g == x then |joins| else LastJoin(joins, g)
    ensures forall g :: g in joins + [x] <==> g in joins || g == x
  {
    forall g ensures LastJoin(joins + [x], g) == if g == x then |joins| else LastJoin(joins, g) {
      LastJoinSnoc(joins, g, x);
    }
  }

  /** The same of a list with room for one less, and with `gone` taken out of it. */
  ghost predicate LatestBut(start: seq<nat>, joins: seq<nat>, list: seq<nat>, max: nat, gone: set<nat>) {
    && Distinct(list) && |list| < max
    && (forall i :: 0 <= i < |list| ==> list[i] in start || list[i] in joins)
    && (forall i, j :: 0 <= i < j < |list| ==> LastJoin(joins, list[i]) <= LastJoin(joins, list[j]))
    && (forall g :: g in joins && g !in list && g !in gone ==> Older(joins, list, max, g))
    && (forall g :: g in start && g !in list && g !in gone ==> |list| == max - 1)
  }

  ghost predicate Older(joins: seq<nat>, list: seq<nat>, max: nat, g: nat) {
    |list| == max - 1 && forall i :: 0 <= i < |list| ==> LastJoin(joins, list[i]) > LastJoin(joins, g)
  }

  /** A join moves its group to the end, in place of the first when the list is full. */
  lemma JoinKeepsLatest(start: seq<nat>, joins: seq<nat>, list: seq<nat>, x: nat, max: nat)
    requires Latest(start, joins, list, max) && max > 0
    ensures Latest(start, joins + [x], Seen(list, x, max), max)
  {
    hide LastJoin, Latest, LatestBut;
    if x in list {
      var k :| 0 <= k < |list| && list[k] == x;
      WithoutAt(list, k) by { assert Distinct(list) by { LatestIs(start, joins, list, max); } }
      TakenOut(start, joins, list, k, max);
      Appended(start, joins, list[..k] + list[k + 1..], x, max, {x});
    } else if |list| >= max {
      FirstOut(start, joins, list, x, max);
      Appended(start, joins, list[1..], x, max, {list[0]});
    } else {
      RoomLeft(start, joins, list, max);
      Appended(start, joins, list, x, max, {});
    }
  }

  lemma LatestIs(start: seq<nat>, joins: seq<nat>, list: seq<nat>, max: nat)
    requires Latest(start, joins, list, max)
    ensures Distinct(list) && |list| <= max
  {
  }

  lemma RoomLeft(start: seq<nat>, joins: seq<nat>, list: seq<nat>, max: nat)
    requires Latest(start, joins, list, max) && |list| < max
    ensures LatestBut(start, joins, list, max, {})
  {
    hide LastJoin, Distinct;
  }

  lemma FirstOut(start: seq<nat>, joins: seq<nat>, list: seq<nat>, x: nat, max: nat)
    requires Latest(start, joins, list, max) && |list| >= max > 0 && x !in list
    ensures LatestBut(start, joins, list[1..], max, {list[0]}) && x !in list[1..]
    ensures |list[1..]| == max - 1 && (list[0] in joins ==> Older(joins, list[1..], max, list[0]))
  {
    TakenOut(start, joins, list, 0, max);
    assert list[..0] + list[1..] == list[1..];
    Strictly(joins, list);
    hide LastJoin, LatestBut;
  }

  lemma TakenOut(start: seq<nat>, joins: seq<nat>, list: seq<nat>, k: nat, max: nat)
    requires Latest(start, joins, list, max) && k < |list|
    ensures var r := list[..k] + list[k + 1..]; LatestBut(start, joins, r, max, {list[k]}) && list[k] !in r
  {
    var r := list[..k] + list[k + 1..];
    CutMembers(list, k);
    hide LastJoin;
    forall g | g in joins && g !in r && g != list[k] ensures Older(joins, r, max, g) { assert g !in list; }
  }

  lemma CutMembers(list: seq<nat>, k: nat)
    requires Distinct(list) && k < |list|
    ensures var r := list[..k] + list[k + 1..];
            && Distinct(r) && list[k] !in r && |r| == |list| - 1
            && (forall i :: 0 <= i < |r| ==> r[i] == list[if i < k then i else i + 1])
            && (forall g :: g in list && g != list[k] ==> g in r)
  {
    var r := list[..k] + list[k + 1..];
    forall g | g in list && g != list[k] ensures g in r {
      var i :| 0 <= i < |list| && list[i] == g;
      assert r[if i < k then i else i - 1] == g;
    }
  }

  lemma Appended(start: seq<nat>, joins: seq<nat>, list: seq<nat>, x: nat, max: nat, gone: set<nat>)
    requires LatestBut(start, joins, list, max, gone) && x !in list
    requires forall g :: g in gone && g != x ==> |list| == max - 1 && (g in joins ==> Older(joins, list, max, g))
    ensures Latest(start, joins + [x], list + [x], max)
  {
    AllSnoc(joins, x);
    var r := list + [x];
    assert r[|list|] == x;
    hide LastJoin;
    forall g | g in joins + [x] && g !in r
      ensures |r| == max && forall i :: 0 <= i < |r| ==> LastJoin(joins + [x], r[i]) > LastJoin(joins + [x], g)
    {
      assert Older(joins, list, max, g);
      forall i | 0 <= i < |r| ensures LastJoin(joins + [x], r[i]) > LastJoin(joins + [x], g) {
        assert r[i] == if i < |list| then list[i] else x;
      }
    }
    forall i, j | 0 <= i < j < |r| ensures LastJoin(joins + [x], r[i]) <= LastJoin(joins + [x], r[j]) { }
    forall i | 0 <= i < |r| ensures r[i] in start || r[i] in joins + [x] { }
  }

  lemma Strictly(joins: seq<nat>, list: seq<nat>)
    requires Distinct(list)
    ensures forall i, j :: 0 <= i < j < |list| && LastJoin(joins, list[i]) >= 0 ==>
              LastJoin(joins, list[i]) != LastJoin(joins, list[j])
  {
    forall i, j | 0 <= i < j < |list| && LastJoin(joins, list[i]) >= 0
      ensures LastJoin(joins, list[i]) != LastJoin(joins, list[j])
    {
      JoinedThere(joins, list[i]);
      if LastJoin(joins, list[j]) >= 0 { JoinedThere(joins, list[j]); }
    }
  }

  lemma {:induction false} JoinedThere(joins: seq<nat>, g: nat)
    requires g in joins
    ensures joins[LastJoin(joins, g)] == g
  {
    var n := |joins| - 1;
    if joins[n] != g {
      assert joins == joins[..n] + [joins[n]];
      JoinedThere(joins[..n], g);
    }
  }

  /**
   * What a report comes to: the peer is in the groups it joined last, as many as it may be in; no other peer
   * changes.
   */
  lemma {:induction false} JoinsTheLatest(groups: map<nat, seq<nat>>, p: nat, joins: seq<nat>, max: nat)
    requires p in groups && Distinct(groups[p]) && |groups[p]| <= max && max > 0
    ensures var r := JoinAll(groups, p, joins, max);
            r == groups[p := r[p]] && Latest(groups[p], joins, r[p], max)
    decreases |joins|
  {
    if joins == [] {
      assert forall g :: LastJoin(joins, g) == -1;
    } else {
      var n := |joins| - 1;
      JoinsTheLatest(groups, p, joins[..n], max);
      assert joins == joins[..n] + [joins[n]];
      hide Latest, Seen, LastJoin;
      JoinKeepsLatest(groups[p], joins[..n], JoinAll(groups, p, joins[..n], max)[p], joins[n], max);
    }
  }
}
