/**
 * Which frame the assembler gives up when its pool is full: the one whose first chunk came earliest. Over any
 * arrivals the frames held are the latest begun of those that were neither finished, refused nor timed out.
 */
module PoolOrder {
  import opened Bytes
  import opened Chunks
  import opened Options
  import opened AssemblerSpec

  /** The frames in use other than that of this id, in their order. */
  function Others(used: seq<Frame>, id: nat): seq<Frame> {
    if used == [] then [] else (if used[0].id == id then [] else [used[0]]) + Others(used[1..], id)
  }

  lemma {:induction false} OthersAre(used: seq<Frame>, id: nat)
    ensures forall f :: f in Others(used, id) <==> f in used && f.id != id
    ensures forall i :: 0 <= i < |Others(used, id)| ==> Others(used, id)[i].id != id
  {
    if used != [] {
      OthersAre(used[1..], id);
      assert used == [used[0]] + used[1..];
    }
  }

  lemma {:induction false} OthersDrop(used: seq<Frame>, k: nat)
    requires DistinctIds(used) && k < |used|
    ensures Others(used, used[k].id) == Drop(used, k)
  {
    if k == 0 {
      NoOthers(used[1..], used[0].id);
      assert Drop(used, 0) == used[1..];
    } else {
      DistinctTail(used);
      OthersDrop(used[1..], k - 1);
      assert used[1..][k - 1] == used[k];
      assert Drop(used, k) == [used[0]] + Drop(used[1..], k - 1);
    }
  }

  lemma DistinctTail(used: seq<Frame>)
    requires DistinctIds(used) && used != []
    ensures DistinctIds(used[1..])
  {
  }

  lemma {:induction false} NoOthers(used: seq<Frame>, id: nat)
    requires forall i :: 0 <= i < |used| ==> used[i].id != id
    ensures Others(used, id) == used
  {
    if used != [] { NoOthers(used[1..], id); }
  }

  /** Whether a chunk begins a frame: there is none of its id that is still remembered. */
  predicate Begins(cfg: Config, a: Asm, id: nat) {
    forall f :: f in a.used && f.id == id ==> a.time - f.time > cfg.numFrames
  }

  /** Whether the frame made of these chunks is waiting for more. */
  ghost predicate Waits(cfg: Config, cs: seq<Chunk>) {
    Consistent(cs) && !Complete(cs) && |cs| != cfg.numChunks
  }

  lemma AdmitWhere(cfg: Config, a: Asm, id: nat)
    requires Inv(cfg, a)
    ensures var others, b := Others(a.used, id), Admit(cfg, a, id);
            && b.time == a.time
            && if Begins(cfg, a, id) then
                 b.used == (if |others| >= cfg.numFrames then others[1..] else others) + [Frame(id, a.time, [])]
               else b == a
  {
    var k := Find(a.used, id);
    if k == |a.used| {
      NoOthers(a.used, id);
    } else {
      assert a.used[k] in a.used;
      forall f | f in a.used && f.id == id ensures f == a.used[k] { }
      OthersDrop(a.used, k);
    }
    hide Others, DistinctIds, FrameInv;
    assert forall s: seq<Frame> :: s != [] ==> Drop(s, 0) == s[1..];
  }

  /**
   * What a chunk does to the pool: nothing when it reaches out of bounds. A frame begun while num_frames others
   * are in use pushes out the first of them, and only that; every other frame stays in its place with its chunks
   * and its time. The frame the chunk belongs to goes behind them if it is new, stays where it is if not, and is
   * gone if it is finished, refused or out of chunks.
   */
  lemma ReceiveMeans(cfg: Config, a: Asm, id: nat, c: Chunk)
    requires Inv(cfg, a)
    ensures c.End() > cfg.mtu ==> Receive(cfg, a, id, c) == (a, None)
    ensures c.End() <= cfg.mtu ==>
            var (others, b) := (Others(a.used, id), Receive(cfg, a, id, c).0);
            b.time == a.time &&
            if Begins(cfg, a, id) then
              b.used == (if |others| >= cfg.numFrames then others[1..] else others)
                        + (if Waits(cfg, [c]) then [Frame(id, a.time, [c])] else [])
            else
              exists k :: 0 <= k < |a.used| && a.used[k].id == id &&
                var cs := a.used[k].chunks + [c];
                b.used == if Waits(cfg, cs) then a.used[k := Frame(id, a.time, cs)] else others
  {
    if c.End() <= cfg.mtu {
      AdmitWhere(cfg, a, id);
      var m := Admit(cfg, a, id);
      ReceivePlaces(cfg, a, id, c);
      if Begins(cfg, a, id) {
        var front := m.used[..|m.used| - 1];
        hide Consistent, Complete, Content, Admit, Inv, Receive, Begins, Others;
        assert m.used == front + [Frame(id, a.time, [])];
        PlaceLast(cfg, m, front, id, c);
      } else {
        var k := Find(a.used, id);
        OldFound(cfg, a, id);
        hide Consistent, Complete, Content, Admit, Inv, Receive, Begins, Find;
        PlaceAt(cfg, a, k, id, c);
      }
    }
  }

  lemma ReceivePlaces(cfg: Config, a: Asm, id: nat, c: Chunk)
    requires Inv(cfg, a) && c.End() <= cfg.mtu
    ensures Receive(cfg, a, id, c) == Place(cfg, Admit(cfg, a, id), id, c)
    ensures DistinctIds(Admit(cfg, a, id).used)
  {
    AdmitFinds(cfg, a, id);
    hide FrameInv, Place, Admit;
  }

  lemma OldFound(cfg: Config, a: Asm, id: nat)
    requires Inv(cfg, a) && !Begins(cfg, a, id)
    ensures var k := Find(a.used, id); k < |a.used| && Others(a.used, id) == Drop(a.used, k)
  {
    hide FrameInv, DistinctIds;
    assert Find(a.used, id) < |a.used|;
    OthersDrop(a.used, Find(a.used, id));
  }

  lemma PlaceAt(cfg: Config, b: Asm, k: nat, id: nat, c: Chunk)
    requires k < |b.used| && k == Find(b.used, id)
    ensures var cs := b.used[k].chunks + [c];
            Place(cfg, b, id, c).0
            == b.(used := if Waits(cfg, cs) then b.used[k := Frame(id, b.time, cs)] else Drop(b.used, k))
  {
    hide Consistent, Complete, Content, Find;
  }

  lemma PlaceLast(cfg: Config, b: Asm, front: seq<Frame>, id: nat, c: Chunk)
    requires b.used == front + [Frame(id, b.time, [])] && DistinctIds(b.used)
    ensures Place(cfg, b, id, c).0 == b.(used := front + if Waits(cfg, [c]) then [Frame(id, b.time, [c])] else [])
  {
    var n := |front|;
    NewAtEnd(b.used, Frame(id, b.time, []));
    PlaceAt(cfg, b, n, id, c);
    hide *;
    assert [] + [c] == [c] && b.used[..n] == front && front + [] == front;
    assert b.used[n := Frame(id, b.time, [c])] == front + [Frame(id, b.time, [c])];
  }

  lemma NewAtEnd(used: seq<Frame>, f: Frame)
    requires used != [] && used[|used| - 1] == f && DistinctIds(used)
    ensures var n := |used| - 1;
            Find(used, f.id) == n && Drop(used, n) == used[..n]
  {
    FindIs(used, |used| - 1);
  }

  // ----- over runs -----

  /** A chunk as it comes out of a packet, whoever sent it; or the end of a packet. */
  datatype Input = Arrive(id: nat, chunk: Chunk) | PacketEnd

  ghost function Step(cfg: Config, a: Asm, x: Input): Asm
    requires cfg.Valid()
  {
    match x
    case Arrive(id, c) => Receive(cfg, a, id, c).0
    case PacketEnd => Tick(cfg, a)
  }

  ghost function After(cfg: Config, xs: seq<Input>): Asm
    requires cfg.Valid()
  {
    if xs == [] then Fresh else Step(cfg, After(cfg, xs[..|xs| - 1]), xs[|xs| - 1])
  }

  function Ids(used: seq<Frame>): (r: seq<nat>)
    ensures |r| == |used| && forall i :: 0 <= i < |r| ==> r[i] == used[i].id
  {
    seq(|used|, i requires 0 <= i < |used| => used[i].id)
  }

  /** The list without the last element that is x. */
  function WithoutLast(s: seq<nat>, x: nat): seq<nat> {
    if s == [] then []
    else
      var n := |s| - 1;
      if s[n] == x then s[..n] else WithoutLast(s[..n], x) + [s[n]]
  }

  function Filter(s: seq<nat>, keep: set<nat>): seq<nat> {
    if s == [] then []
    else
      var n := |s| - 1;
      Filter(s[..n], keep) + if s[n] in keep then [s[n]] else []
  }

  /**
   * The ids of the frames begun and not over since, in the order they were begun. A frame is over when a chunk of
   * its id finishes it, is refused, or finds it timed out, or when it goes at the end of a packet; that another
   * frame pushed it out does not count.
   */
  ghost function Open(cfg: Config, xs: seq<Input>): seq<nat>
    requires cfg.Valid()
  {
    if xs == [] then []
    else
      var front, x := xs[..|xs| - 1], xs[|xs| - 1];
      OpenStep(cfg, After(cfg, front), Open(cfg, front), x)
  }

  ghost function OpenStep(cfg: Config, a: Asm, open: seq<nat>, x: Input): seq<nat>
    requires cfg.Valid()
  {
    match x
    case Arrive(id, c) =>
      if c.End() > cfg.mtu then open
      else
        var before := if id in Ids(a.used) && Begins(cfg, a, id) then WithoutLast(open, id) else open;
        var begun := if Begins(cfg, a, id) then before + [id] else before;
        if id in Ids(Step(cfg, a, x).used) then begun else WithoutLast(begun, id)
    case PacketEnd =>
      var held := if |a.used| <= |open| then |open| - |a.used| else 0;
      open[..held] + Filter(open[held..], set f | f in Tick(cfg, a).used :: f.id)
  }

  ghost predicate Suffix(s: seq<nat>, t: seq<nat>) {
    |s| <= |t| && t[|t| - |s|..] == s
  }

  lemma {:induction false} WithoutLastOf(p: seq<nat>, used: seq<Frame>, k: nat)
    requires DistinctIds(used) && k < |used|
    ensures WithoutLast(p + Ids(used), used[k].id) == p + Ids(Drop(used, k))
    decreases |used|
  {
    var n := |used| - 1;
    var s := p + Ids(used);
    assert s[|s| - 1] == used[n].id && s[..|s| - 1] == p + Ids(used[..n]);
    if k == n {
      assert Drop(used, k) == used[..n];
    } else {
      WithoutLastOf(p, used[..n], k);
      assert Drop(used, k) == Drop(used[..n], k) + [used[n]];
      assert p + Ids(Drop(used, k)) == p + Ids(Drop(used[..n], k)) + [used[n].id];
    }
  }

  lemma SnocIds(used: seq<Frame>, f: Frame)
    ensures Ids(used + [f]) == Ids(used) + [f.id]
  {
  }

  /** How many frames were pushed out. */
  function Lost(open: seq<nat>, a: Asm): int { |open| - |a.used| }

  /** Whether the input begins a frame while the pool is full of others. */
  ghost predicate PushesOut(cfg: Config, a: Asm, x: Input) {
    x.Arrive? && x.chunk.End() <= cfg.mtu && Begins(cfg, a, x.id) && |Others(a.used, x.id)| >= cfg.numFrames
  }

  lemma KeptSuffix(p: seq<nat>, others: seq<Frame>, k: nat)
    requires k <= 1 && k <= |others|
    ensures Suffix(Ids(others[k..]), p + Ids(others)) && |Ids(others[k..])| == |others| - k
  {
    var s := p + Ids(others);
    assert s[|p| + k..] == Ids(others[k..]);
  }

  lemma SuffixSnoc(s: seq<nat>, t: seq<nat>, x: nat)
    requires Suffix(s, t)
    ensures Suffix(s + [x], t + [x])
  {
    assert (t + [x])[|t| - |s|..] == t[|t| - |s|..] + [x];
  }

  /** The list of open frames after a frame is begun, by whether it waits for more. */
  lemma BeginOpens(cfg: Config, a: Asm, p: seq<nat>, id: nat, c: Chunk)
    requires Inv(cfg, a) && c.End() <= cfg.mtu && Begins(cfg, a, id)
    ensures var open, held := OpenStep(cfg, a, p + Ids(a.used), Arrive(id, c)), Ids(Receive(cfg, a, id, c).0.used);
            open == p + Ids(Others(a.used, id)) + if id in held then [id] else []
  {
    OthersIds(a.used, p, id);
    WithoutAdded(p + Ids(Others(a.used, id)), id);
    hide Others, Receive, Begins, WithoutLast, Inv;
  }

  lemma BeginHeld(cfg: Config, a: Asm, id: nat, c: Chunk)
    requires Inv(cfg, a) && c.End() <= cfg.mtu && Begins(cfg, a, id)
    ensures var others := Others(a.used, id);
            var k := if |others| >= cfg.numFrames then 1 else 0;
            && k <= |others|
            && Ids(Receive(cfg, a, id, c).0.used) == Ids(others[k..]) + if Waits(cfg, [c]) then [id] else []
    ensures id in Ids(Receive(cfg, a, id, c).0.used) <==> Waits(cfg, [c])
  {
    ReceiveMeans(cfg, a, id, c);
    var others := Others(a.used, id);
    var k := if |others| >= cfg.numFrames then 1 else 0;
    assert cfg.numFrames > 0;
    OthersAre(a.used, id);
    assert others[0..] == others;
    hide *;
    IdsOfBegun(others, k, Frame(id, a.time, [c]), Waits(cfg, [c]), Receive(cfg, a, id, c).0.used);
  }

  lemma IdsOfBegun(others: seq<Frame>, k: nat, f: Frame, waits: bool, after: seq<Frame>)
    requires k <= |others| && after == others[k..] + if waits then [f] else []
    requires forall i :: 0 <= i < |others| ==> others[i].id != f.id
    ensures Ids(after) == Ids(others[k..]) + if waits then [f.id] else []
    ensures f.id in Ids(after) <==> waits
  {
    if waits { assert Ids(after)[|others| - k] == f.id; }
  }

  lemma BeginStep(cfg: Config, a: Asm, p: seq<nat>, id: nat, c: Chunk)
    requires Inv(cfg, a) && c.End() <= cfg.mtu && Begins(cfg, a, id)
    ensures var (b, open) := (Receive(cfg, a, id, c).0, OpenStep(cfg, a, p + Ids(a.used), Arrive(id, c)));
            && Suffix(Ids(b.used), open)
            && Lost(open, b) == |p| + if PushesOut(cfg, a, Arrive(id, c)) then 1 else 0
  {
    var others, b := Others(a.used, id), Receive(cfg, a, id, c).0;
    var k := if |others| >= cfg.numFrames then 1 else 0;
    BeginOpens(cfg, a, p, id, c);
    BeginHeld(cfg, a, id, c);
    var open := OpenStep(cfg, a, p + Ids(a.used), Arrive(id, c));
    hide Others, Receive, Begins, OpenStep, Waits, Inv, Suffix, Ids;
    KeptThen(p, others, k, id in Ids(b.used), id, Ids(b.used), open);
  }

  lemma KeptThen(p: seq<nat>, others: seq<Frame>, k: nat, waits: bool, id: nat, held: seq<nat>, open: seq<nat>)
    requires k <= 1 && k <= |others| && held == Ids(others[k..]) + if waits then [id] else []
    requires open == p + Ids(others) + if waits then [id] else []
    ensures Suffix(held, open) && |open| - |held| == |p| + k
  {
    KeptSuffix(p, others, k);
    SuffixSnoc(Ids(others[k..]), p + Ids(others), id);
    assert Ids(others[k..]) + [] == Ids(others[k..]) && p + Ids(others) + [] == p + Ids(others);
  }

  lemma WithoutAdded(s: seq<nat>, x: nat)
    ensures WithoutLast(s + [x], x) == s
  {
  }

  lemma OthersIds(used: seq<Frame>, p: seq<nat>, id: nat)
    requires DistinctIds(used)
    ensures id in Ids(used) ==> WithoutLast(p + Ids(used), id) == p + Ids(Others(used, id))
    ensures id !in Ids(used) ==> Others(used, id) == used
  {
    if id in Ids(used) {
      var k :| 0 <= k < |used| && Ids(used)[k] == id;
      WithoutLastOf(p, used, k);
      OthersDrop(used, k);
    } else {
      forall f | f in used ensures f.id != id {
        var i :| 0 <= i < |used| && used[i] == f;
        assert Ids(used)[i] == f.id;
      }
      NoOthers(used, id);
    }
  }

  lemma ContinueHeld(cfg: Config, a: Asm, id: nat, c: Chunk)
    requires Inv(cfg, a) && c.End() <= cfg.mtu && !Begins(cfg, a, id)
    ensures var held := Ids(Receive(cfg, a, id, c).0.used);
            && id in Ids(a.used) && held == if id in held then Ids(a.used) else Ids(Others(a.used, id))
  {
    ReceiveMeans(cfg, a, id, c);
    var b := Receive(cfg, a, id, c).0;
    var k :| 0 <= k < |a.used| && a.used[k].id == id &&
             var cs := a.used[k].chunks + [c];
             b.used == if Waits(cfg, cs) then a.used[k := Frame(id, a.time, cs)] else Others(a.used, id);
    hide *;
    IdsAfter(a.used, k, b.used, id, Frame(id, a.time, a.used[k].chunks + [c]), Waits(cfg, a.used[k].chunks + [c]));
  }

  lemma IdsAfter(used: seq<Frame>, k: nat, after: seq<Frame>, id: nat, f: Frame, waits: bool)
    requires k < |used| && used[k].id == id && f.id == id && after == if waits then used[k := f] else Others(used, id)
    ensures id in Ids(used) && Ids(after) == if id in Ids(after) then Ids(used) else Ids(Others(used, id))
  {
    assert Ids(used)[k] == id;
    if waits {
      assert Ids(after) == Ids(used);
    } else {
      OthersAre(used, id);
      assert id !in Ids(after);
    }
  }

  lemma ContinueStep(cfg: Config, a: Asm, p: seq<nat>, id: nat, c: Chunk)
    requires Inv(cfg, a) && c.End() <= cfg.mtu && !Begins(cfg, a, id)
    ensures var (b, open) := (Receive(cfg, a, id, c).0, OpenStep(cfg, a, p + Ids(a.used), Arrive(id, c)));
            Suffix(Ids(b.used), open) && Lost(open, b) == |p|
  {
    OthersIds(a.used, p, id);
    ContinueHeld(cfg, a, id, c);
    KeptSuffix(p, a.used, 0);
    KeptSuffix(p, Others(a.used, id), 0);
    hide Others, Receive, Begins, WithoutLast, Inv, Suffix;
    assert a.used[0..] == a.used && Others(a.used, id)[0..] == Others(a.used, id);
  }

  lemma {:induction false} FilterLive(cfg: Config, now: nat, used: seq<Frame>, keep: set<nat>)
    requires forall i :: 0 <= i < |used| ==> (used[i].id in keep <==> now - used[i].time <= cfg.Tolerance())
    ensures Filter(Ids(used), keep) == Ids(Live(cfg, now, used))
    decreases |used|
  {
    if used != [] {
      var front, last := used[..|used| - 1], used[|used| - 1];
      FilterLive(cfg, now, front, keep);
      LiveLast(cfg, now, used);
      assert last.id in keep <==> now - last.time <= cfg.Tolerance();
      hide *;
      IdsLast(used);
      FilterLast(Ids(used), keep);
      SnocIds(Live(cfg, now, front), last);
    }
  }

  lemma IdsLast(used: seq<Frame>)
    requires used != []
    ensures var n := |used| - 1; Ids(used) != [] && Ids(used)[..n] == Ids(used[..n]) && Ids(used)[n] == used[n].id
  {
  }

  lemma FilterLast(s: seq<nat>, keep: set<nat>)
    requires s != []
    ensures var n := |s| - 1;
            Filter(s, keep) == if s[n] in keep then Filter(s[..n], keep) + [s[n]] else Filter(s[..n], keep)
  {
  }

  lemma LiveLast(cfg: Config, now: nat, used: seq<Frame>)
    requires used != []
    ensures var n := |used| - 1;
            Live(cfg, now, used) ==
              if now - used[n].time <= cfg.Tolerance() then Live(cfg, now, used[..n]) + [used[n]]
              else Live(cfg, now, used[..n])
  {
  }

  lemma {:induction false} FilterAll(s: seq<nat>, keep: set<nat>)
    requires forall x :: x in s ==> x in keep
    ensures Filter(s, keep) == s
  {
    if s != [] {
      var n := |s| - 1;
      assert s == s[..n] + [s[n]] && s[n] in s;
      FilterAll(s[..n], keep);
    }
  }

  lemma EndStep(cfg: Config, a: Asm, p: seq<nat>)
    requires Inv(cfg, a)
    ensures var (b, open) := (Tick(cfg, a), OpenStep(cfg, a, p + Ids(a.used), PacketEnd));
            Suffix(Ids(b.used), open) && Lost(open, b) == |p|
  {
    var b := Tick(cfg, a);
    var keep := set f | f in b.used :: f.id;
    var s := p + Ids(a.used);
    assert s[..|p|] == p && s[|p|..] == Ids(a.used);
    if a.time < MAX_TIME {
      forall x | x in Ids(a.used) ensures x in keep {
        var i :| 0 <= i < |a.used| && Ids(a.used)[i] == x;
        assert a.used[i] in b.used;
      }
      FilterAll(Ids(a.used), keep);
    } else {
      EndsLive(cfg, a, keep);
    }
  }

  lemma EndsLive(cfg: Config, a: Asm, keep: set<nat>)
    requires Inv(cfg, a) && a.time == MAX_TIME && keep == set f | f in Tick(cfg, a).used :: f.id
    ensures Filter(Ids(a.used), keep) == Ids(Tick(cfg, a).used)
  {
    var live := Live(cfg, a.time, a.used);
    LiveTimesAtMost(cfg, a);
    LiveMembers(cfg, a.time, a.used);
    var b := Tick(cfg, a);
    assert Ids(b.used) == Ids(live);
    forall f | f in a.used ensures f.id in keep <==> a.time - f.time <= cfg.Tolerance() {
      LiveKept(a.used, live, b.used, f);
    }
    forall i | 0 <= i < |a.used| ensures a.used[i].id in keep <==> a.time - a.used[i].time <= cfg.Tolerance() {
      assert a.used[i] in a.used;
    }
    hide *;
    FilterLive(cfg, a.time, a.used, keep);
  }

  lemma LiveTimesAtMost(cfg: Config, a: Asm)
    requires Inv(cfg, a)
    ensures var live := Live(cfg, a.time, a.used);
            live != [] ==> (forall f :: f in live ==> MinTime(live) <= f.time)
  {
    var live := Live(cfg, a.time, a.used);
    if live != [] { MinTimeIsLeast(live); }
  }

  lemma LiveKept(used: seq<Frame>, live: seq<Frame>, after: seq<Frame>, f: Frame)
    requires DistinctIds(used) && f in used && Ids(after) == Ids(live) && forall g :: g in live ==> g in used
    ensures f.id in (set g | g in after :: g.id) <==> f in live
  {
    if f in live {
      var i :| 0 <= i < |live| && live[i] == f;
      assert Ids(live)[i] == f.id && Ids(after)[i] == after[i].id && after[i] in after;
    }
    if f.id in (set g | g in after :: g.id) {
      var g :| g in after && g.id == f.id;
      var i :| 0 <= i < |after| && after[i] == g;
      assert Ids(after)[i] == Ids(live)[i] == live[i].id;
      assert live[i] in live && live[i] in used;
      var j :| 0 <= j < |used| && used[j] == live[i];
      var k :| 0 <= k < |used| && used[k] == f;
      assert j == k;
    }
  }

  lemma StepKeepsOrder(cfg: Config, a: Asm, open: seq<nat>, x: Input)
    requires Inv(cfg, a) && Suffix(Ids(a.used), open)
    ensures var (b, next) := (Step(cfg, a, x), OpenStep(cfg, a, open, x));
            && Inv(cfg, b) && Suffix(Ids(b.used), next)
            && Lost(next, b) == Lost(open, a) + if PushesOut(cfg, a, x) then 1 else 0
  {
    var p := open[..|open| - |a.used|];
    assert open == p + Ids(a.used);
    hide Inv, Receive, Tick, Begins, Suffix, Others;
    match x
    case Arrive(id, c) =>
      ReceiveKeepsInv(cfg, a, id, c);
      if c.End() > cfg.mtu { ReceiveMeans(cfg, a, id, c); }
      else if Begins(cfg, a, id) { BeginStep(cfg, a, p, id, c); }
      else { ContinueStep(cfg, a, p, id, c); }
    case PacketEnd =>
      TickKeepsInv(cfg, a);
      EndStep(cfg, a, p);
  }

  /**
   * Over any run: the frames held are the latest begun among those not over, and the number of those not held
   * grows, by one, exactly when a frame begins while num_frames others are in use.
   */
  lemma {:induction false} HeldAreLatestBegun(cfg: Config, xs: seq<Input>)
    requires cfg.Valid()
    ensures Inv(cfg, After(cfg, xs)) && Suffix(Ids(After(cfg, xs).used), Open(cfg, xs))
    ensures xs != [] ==>
              var front, x := xs[..|xs| - 1], xs[|xs| - 1];
              Lost(Open(cfg, xs), After(cfg, xs)) ==
                Lost(Open(cfg, front), After(cfg, front)) + if PushesOut(cfg, After(cfg, front), x) then 1 else 0
  {
    if xs != [] {
      var front, x := xs[..|xs| - 1], xs[|xs| - 1];
      HeldAreLatestBegun(cfg, front);
      StepKeepsOrder(cfg, After(cfg, front), Open(cfg, front), x);
      hide Inv, Step, OpenStep, Suffix, PushesOut;
    }
  }
}
