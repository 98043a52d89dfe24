/**
 * The index from a frame's multicast destination to the peers that joined a group with that address. Group
 * addresses are only told apart by their low 23 bits; each such class of entries is a linked list, one of
 * whose members, the master, is in a search tree.
 */
module MulticastIndex {

  /** A group entry in use: a peer's membership of a group (the address as a number). */
  datatype Entry = Entry(peer: nat, group: nat)

  const LOW23: nat := 0x80_0000

  /** compute_sig_for_group */
  function SigOf(group: nat): nat { group % LOW23 }

  /** compute_sig_for_mac: the low 23 bits of the last four bytes. */
  function SigOfMac(mac: seq<nat>): nat
    requires |mac| == 6
  {
    (((mac[2] * 256 + mac[3]) * 256 + mac[4]) * 256 + mac[5]) % LOW23
  }

  /** The Ethernet address a host uses for a group (section 6.4 of RFC 1112). */
  function MacForGroup(group: nat): seq<nat> {
    var low := group % LOW23;
    [0x01, 0x00, 0x5e, low / 0x1_0000, low / 0x100 % 0x100, low % 0x100]
  }

  lemma FrameForGroupHasItsSig(group: nat)
    ensures var mac := MacForGroup(group);
            && (forall i :: 0 <= i < 6 ==> mac[i] < 256)
            && SigOfMac(mac) == SigOf(group)
  {
    var low := group % LOW23;
    var a, b, c := low / 0x1_0000, low / 0x100 % 0x100, low % 0x100;
    assert low == (a * 256 + b) * 256 + c by {
      assert low / 0x100 == a * 256 + b;
    }
    assert (((0x5e * 256 + a) * 256 + b) * 256 + c) == 0xBC * LOW23 + low;
    ModSum(0xBC, low);
  }

  lemma ModSum(k: nat, x: nat)
    requires x < LOW23
    ensures (k * LOW23 + x) % LOW23 == x
  {
  }

  /** The lists, the master flags and the tree. */
  datatype Index = Index(lists: map<nat, seq<Entry>>, masters: set<Entry>, tree: map<nat, Entry>)

  ghost predicate Distinct<T>(s: seq<T>) {
    forall i, j :: 0 <= i < j < |s| ==> s[i] != s[j]
  }

  /** The entries the index knows. */
  ghost predicate Known(ix: Index, e: Entry) {
    SigOf(e.group) in ix.lists && e in ix.lists[SigOf(e.group)]
  }

  /** Every class has one list without repetition, and exactly one master, which is its entry in the tree. */
  ghost predicate Inv(ix: Index) {
    && ix.tree.Keys == ix.lists.Keys
    && (forall s :: s in ix.lists ==> ClassInv(ix, s))
    && (forall e :: e in ix.masters ==> Known(ix, e))
  }

  ghost predicate ClassInv(ix: Index, s: nat)
    requires s in ix.lists && s in ix.tree
  {
    var list := ix.lists[s];
    && Distinct(list)
    && (forall e :: e in list ==> SigOf(e.group) == s)
    && ix.tree[s] in list
    && (forall e :: e in list ==> (e in ix.masters <==> e == ix.tree[s]))
  }

  function InsertAfter(list: seq<Entry>, m: Entry, e: Entry): (r: seq<Entry>)
    requires m in list
    ensures forall x :: x in r <==> x in list || x == e
  {
    if list[0] == m then
      assert list == [m] + list[1..];
      [m, e] + list[1..]
    else
      assert list == [list[0]] + list[1..];
      [list[0]] + InsertAfter(list[1..], m, e)
  }

  function Without<T(==)>(list: seq<T>, e: T): (r: seq<T>)
    ensures forall x :: x in r ==> x in list
    ensures forall x :: x in list && x != e ==> x in r
  {
    if list == [] then []
    else
      assert list == [list[0]] + list[1..];
      if list[0] == e then list[1..] else [list[0]] + Without(list[1..], e)
  }

  /** LinkedList3Node_NextOrPrev */
  function NextOrPrev(list: seq<Entry>, e: Entry): (n: Entry)
    requires e in list && |list| > 1
    ensures n in list
  {
    if list[0] == e then list[1]
    else if list[1] == e then (if |list| > 2 then list[2] else list[0])
    else NextOrPrev(list[1..], e)
  }

  /** add_to_multicast */
  function Add(ix: Index, e: Entry): Index
    requires Inv(ix)
  {
    var s := SigOf(e.group);
    if s in ix.tree then
      assert ClassInv(ix, s);
      ix.(lists := ix.lists[s := InsertAfter(ix.lists[s], ix.tree[s], e)])
    else Index(ix.lists[s := [e]], ix.masters + {e}, ix.tree[s := e])
  }

  /** remove_from_multicast */
  function Remove(ix: Index, e: Entry): Index
    requires Inv(ix) && Known(ix, e)
  {
    var s := SigOf(e.group);
    var list := ix.lists[s];
    var rest := Without(list, e);
    if rest == [] then Index(ix.lists - {s}, ix.masters - {e}, ix.tree - {s})
    else
      var lists := ix.lists[s := rest];
      if e in ix.masters && |list| > 1 then
        var n := NextOrPrev(list, e);
        Index(lists, ix.masters - {e} + {n}, ix.tree[s := n])
      else ix.(lists := lists)
  }

  lemma {:induction false} InsertDistinct(list: seq<Entry>, m: Entry, e: Entry)
    requires Distinct(list) && m in list && e !in list
    ensures Distinct(InsertAfter(list, m, e)) && |InsertAfter(list, m, e)| == |list| + 1
  {
    assert list == [list[0]] + list[1..];
    if list[0] == m {
      assert forall i :: 0 < i < |list| ==> list[i] != e && list[i] != m;
    } else {
      InsertDistinct(list[1..], m, e);
      var r := InsertAfter(list[1..], m, e);
      forall i | 0 <= i < |r| ensures r[i] != list[0] { assert r[i] in r; }
    }
  }

  lemma {:induction false} WithoutDistinct<T>(list: seq<T>, e: T)
    requires Distinct(list)
    ensures Distinct(Without(list, e)) && e !in Without(list, e)
    ensures e in list ==> |Without(list, e)| == |list| - 1
    ensures e !in list ==> Without(list, e) == list
  {
    if list != [] {
      assert list == [list[0]] + list[1..];
      assert forall i :: 0 < i < |list| ==> list[i] != list[0];
      WithoutDistinct(list[1..], e);
      var r := Without(list[1..], e);
      forall i | 0 <= i < |r| ensures r[i] != list[0] { assert r[i] in r; }
    }
  }

  lemma {:induction false} NeighbourIsOther(list: seq<Entry>, e: Entry)
    requires Distinct(list) && e in list && |list| > 1
    ensures NextOrPrev(list, e) != e
  {
    if list[0] != e && list[1] != e {
      assert list == [list[0]] + list[1..];
      NeighbourIsOther(list[1..], e);
    }
  }

  /** A class other than the one touched keeps its list, its tree entry and its masters. */
  lemma OtherClass(ix: Index, r: Index, s: nat, t: nat)
    requires t in ix.lists && t in ix.tree && ClassInv(ix, t) && t != s
    requires t in r.lists && t in r.tree && r.lists[t] == ix.lists[t] && r.tree[t] == ix.tree[t]
    requires forall x: Entry :: SigOf(x.group) != s ==> (x in r.masters <==> x in ix.masters)
    ensures ClassInv(r, t)
  {
  }

  lemma AddedClass(ix: Index, e: Entry)
    requires Inv(ix) && !Known(ix, e)
    ensures var s, r := SigOf(e.group), Add(ix, e);
            s in r.lists && s in r.tree && ClassInv(r, s)
  {
    var s := SigOf(e.group);
    if s in ix.tree {
      assert ClassInv(ix, s);
      InsertDistinct(ix.lists[s], ix.tree[s], e);
    }
  }

  /** Joining: the class gets the entry, and still has exactly one master. */
  lemma AddKeeps(ix: Index, e: Entry)
    requires Inv(ix) && !Known(ix, e)
    ensures Inv(Add(ix, e))
    ensures forall x :: Known(Add(ix, e), x) <==> Known(ix, x) || x == e
  {
    var s, r := SigOf(e.group), Add(ix, e);
    AddedClass(ix, e);
    AddedKeys(ix, e);
    forall x ensures (Known(r, x) <==> Known(ix, x) || x == e) && (x in r.masters ==> Known(r, x)) {
      AddedKnown(ix, e, x);
    }
    hide ClassInv, Known, Add, SigOf;
    forall t | t in r.lists ensures t in r.tree && ClassInv(r, t) {
      if t != s { OtherClass(ix, r, s, t); }
    }
  }

  lemma AddedKnown(ix: Index, e: Entry, x: Entry)
    requires Inv(ix) && !Known(ix, e)
    ensures Known(Add(ix, e), x) <==> Known(ix, x) || x == e
    ensures x in Add(ix, e).masters ==> Known(Add(ix, e), x)
  {
    var s := SigOf(e.group);
    if s in ix.tree { assert ClassInv(ix, s); }
    hide ClassInv, SigOf;
  }

  lemma AddedKeys(ix: Index, e: Entry)
    requires Inv(ix) && !Known(ix, e)
    ensures var s, r := SigOf(e.group), Add(ix, e);
            && r.tree.Keys == r.lists.Keys
            && (forall t :: t in r.lists && t != s ==>
                  t in ix.lists && t in ix.tree && r.lists[t] == ix.lists[t] && r.tree[t] == ix.tree[t])
            && (forall x: Entry :: SigOf(x.group) != s ==> (x in r.masters <==> x in ix.masters))
  {
    if SigOf(e.group) in ix.tree { assert ClassInv(ix, SigOf(e.group)); }
    hide ClassInv;
  }

  lemma RemovedClass(ix: Index, e: Entry)
    requires Inv(ix) && Known(ix, e)
    ensures var s, r := SigOf(e.group), Remove(ix, e);
            && (s in r.lists <==> s in r.tree) && (s in r.lists ==> ClassInv(r, s))
            && (s !in r.lists ==> forall x :: Known(ix, x) && SigOf(x.group) == s ==> x == e)
            && (forall x :: x in r.masters && SigOf(x.group) == s ==> s in r.lists && x in r.lists[s])
            && (forall x: Entry :: SigOf(x.group) != s ==> (x in r.masters <==> x in ix.masters))
            && (s in r.lists ==> forall x :: x in r.lists[s] <==> x in ix.lists[s] && x != e)
  {
    var s := SigOf(e.group);
    var list := ix.lists[s];
    assert ClassInv(ix, s);
    WithoutDistinct(list, e);
    if |list| > 1 { NeighbourIsOther(list, e); }
  }

  lemma RemovedKnown(ix: Index, e: Entry, x: Entry)
    requires Inv(ix) && Known(ix, e)
    ensures Known(Remove(ix, e), x) <==> Known(ix, x) && x != e
    ensures x in Remove(ix, e).masters ==> Known(Remove(ix, e), x)
  {
    RemovedClass(ix, e);
    hide ClassInv, SigOf, Without, NextOrPrev;
  }

  /** Leaving: another entry of the class, if there is one, takes over as master. */
  lemma RemoveKeeps(ix: Index, e: Entry)
    requires Inv(ix) && Known(ix, e)
    ensures Inv(Remove(ix, e))
    ensures forall x :: Known(Remove(ix, e), x) <==> Known(ix, x) && x != e
  {
    var s, r := SigOf(e.group), Remove(ix, e);
    RemovedClass(ix, e);
    RemovedKeys(ix, e);
    forall x ensures (Known(r, x) <==> Known(ix, x) && x != e) && (x in r.masters ==> Known(r, x)) {
      RemovedKnown(ix, e, x);
    }
    hide ClassInv, Known, Remove, SigOf;
    forall t | t in r.lists ensures t in r.tree && ClassInv(r, t) {
      if t != s { OtherClass(ix, r, s, t); }
    }
  }

  lemma RemovedKeys(ix: Index, e: Entry)
    requires Inv(ix) && Known(ix, e)
    ensures var s, r := SigOf(e.group), Remove(ix, e);
            && r.tree.Keys == r.lists.Keys
            && (forall t :: t in r.lists && t != s ==>
                  t in ix.lists && t in ix.tree && r.lists[t] == ix.lists[t] && r.tree[t] == ix.tree[t])
  {
  }
}
