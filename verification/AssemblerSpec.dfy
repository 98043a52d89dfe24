/**
 * What the fragment assembler promises, stated on the chunks it has accepted: no offsets, running sums
 * or slots. A frame entry is a list of chunks; whether a chunk is acceptable and whether a frame is
 * finished are questions about which bytes the chunks cover.
 */
module AssemblerSpec {
  import opened Bytes
  import opened Chunks
  import opened Options

  /** FPA_MAX_TIME, the largest 32-bit packet time. */
  const MAX_TIME: nat := 0xFFFF_FFFF

  datatype Config = Config(mtu: nat, numFrames: nat, numChunks: nat) {
    predicate Valid() { 0 < numFrames < MAX_TIME && 0 < numChunks }
    /** time_tolerance is set to num_frames. */
    function Tolerance(): nat { numFrames }
  }

  datatype Frame = Frame(id: nat, time: nat, chunks: seq<Chunk>)

  /** The packet time and the frames in use, in the order they were allocated. */
  datatype Asm = Asm(time: nat, used: seq<Frame>)

  const Fresh := Asm(0, [])

  /** The index of the frame with this id, or |used|. */
  function Find(used: seq<Frame>, id: nat): (k: nat)
    ensures k <= |used|
    ensures k < |used| ==> used[k].id == id
    ensures forall j :: 0 <= j < k ==> used[j].id != id
  {
    if used == [] then 0
    else if used[0].id == id then 0
    else 1 + Find(used[1..], id)
  }

  /** A list without its k-th node. */
  function Drop<T>(s: seq<T>, k: nat): (r: seq<T>)
    requires k < |s|
    ensures |r| == |s| - 1
    ensures forall i :: 0 <= i < |r| ==> r[i] == s[if i < k then i else i + 1]
  {
    s[..k] + s[k + 1..]
  }

  function Allocate(cfg: Config, a: Asm, id: nat): Asm
    requires cfg.Valid()
  {
    var kept := if |a.used| >= cfg.numFrames then Drop(a.used, 0) else a.used;
    a.(used := kept + [Frame(id, a.time, [])])
  }

  predicate TimedOut(cfg: Config, a: Asm, f: Frame) {
    a.time - f.time > cfg.Tolerance()
  }

  /** The state in which `id` has a live entry: the one it has, or a new one. */
  function Admit(cfg: Config, a: Asm, id: nat): Asm
    requires cfg.Valid()
  {
    var k := Find(a.used, id);
    if k == |a.used| then Allocate(cfg, a, id)
    else if TimedOut(cfg, a, a.used[k]) then Allocate(cfg, a.(used := Drop(a.used, k)), id)
    else a
  }

  /** One chunk arrives. The second component is the frame it completed, if any. */
  ghost function Receive(cfg: Config, a: Asm, id: nat, c: Chunk): (Asm, Option<seq<Byte>>)
    requires cfg.Valid()
  {
    if c.End() > cfg.mtu then (a, None)
    else Place(cfg, Admit(cfg, a, id), id, c)
  }

  ghost function Place(cfg: Config, b: Asm, id: nat, c: Chunk): (Asm, Option<seq<Byte>>)
  {
    var k := Find(b.used, id);
    if k == |b.used| then (b, None)
    else
      var cs := b.used[k].chunks + [c];
      if !Consistent(cs) then (b.(used := Drop(b.used, k)), None)
      else if Complete(cs) then (b.(used := Drop(b.used, k)), Some(Content(cs)))
      else if |cs| == cfg.numChunks then (b.(used := Drop(b.used, k)), None)
      else (b.(used := b.used[k := Frame(id, b.time, cs)]), None)
  }

  /** The frames among `used` that have not timed out, in order. */
  function Live(cfg: Config, now: nat, used: seq<Frame>): (r: seq<Frame>)
    ensures |r| <= |used|
  {
    if used == [] then []
    else
      var n := |used| - 1;
      Live(cfg, now, used[..n]) + (if now - used[n].time > cfg.Tolerance() then [] else [used[n]])
  }

  function MinTime(used: seq<Frame>): (m: nat)
    requires used != []
  {
    var n := |used| - 1;
    if n == 0 then used[0].time
    else
      var m := MinTime(used[..n]);
      if used[n].time < m then used[n].time else m
  }

  lemma {:induction false} MinTimeIsLeast(used: seq<Frame>)
    requires used != []
    ensures forall f :: f in used ==> MinTime(used) <= f.time
    ensures exists f :: f in used && f.time == MinTime(used)
    decreases |used|
  {
    var n := |used| - 1;
    var front, last := used[..n], used[n];
    assert forall f :: f in used <==> f in front || f == last by { assert used == front + [last]; }
    MinTimeLast(used);
    hide MinTime;
    if n > 0 {
      MinTimeIsLeast(front);
      var f :| f in front && f.time == MinTime(front);
      assert f in used;
    }
    assert last in used;
  }

  lemma MinTimeLast(used: seq<Frame>)
    requires used != []
    ensures var n := |used| - 1;
            MinTime(used) ==
              if n == 0 || used[n].time < MinTime(used[..n]) then used[n].time else MinTime(used[..n])
  {
  }

  function Shift(used: seq<Frame>, back: nat): (r: seq<Frame>)
    requires forall f :: f in used ==> back <= f.time
    ensures |r| == |used|
    ensures forall k :: 0 <= k < |r| ==> r[k] == used[k].(time := used[k].time - back)
  {
    seq(|used|, k requires 0 <= k < |used| => assert used[k] in used; used[k].(time := used[k].time - back))
  }

  /** reduce_times: drop timed-out frames, then subtract the smallest time from every clock. */
  function Reduce(cfg: Config, a: Asm): Asm {
    var live := Live(cfg, a.time, a.used);
    if live == [] then Asm(0, [])
    else
      var m := MinTime(live);
      MinTimeIsLeast(live);
      Asm(if m <= a.time then a.time - m else 0, Shift(live, m))
  }

  /** A packet has been read to its end. */
  function Tick(cfg: Config, a: Asm): Asm {
    if a.time >= MAX_TIME then
      var b := Reduce(cfg, a);
      if b.used == [] then b else b.(time := b.time + 1)
    else a.(time := a.time + 1)
  }

  ghost predicate FrameInv(cfg: Config, now: nat, f: Frame) {
    f.time <= now && Consistent(f.chunks) && !Complete(f.chunks) && 0 < |f.chunks| < cfg.numChunks
    && Reach(f.chunks) <= cfg.mtu
  }

  ghost predicate DistinctIds(used: seq<Frame>) {
    forall i, j :: 0 <= i < j < |used| ==> used[i].id != used[j].id
  }

  ghost predicate Inv(cfg: Config, a: Asm) {
    && cfg.Valid()
    && a.time <= MAX_TIME
    && |a.used| <= cfg.numFrames
    && DistinctIds(a.used)
    && forall f :: f in a.used ==> FrameInv(cfg, a.time, f)
  }

  // ----- the invariant is kept by every step -----

  lemma DropKeeps(used: seq<Frame>, k: nat)
    requires k < |used| && DistinctIds(used)
    ensures DistinctIds(Drop(used, k))
    ensures forall f :: f in Drop(used, k) <==> f in used && f.id != used[k].id
  {
    var d := Drop(used, k);
    forall f | f in used && f.id != used[k].id ensures f in d {
      var i :| 0 <= i < |used| && used[i] == f;
      if i < k { assert d[i] == f; } else { assert d[i - 1] == f; }
    }
  }

  lemma FindIs(used: seq<Frame>, k: nat)
    requires k < |used| && forall j :: 0 <= j < k ==> used[j].id != used[k].id
    ensures Find(used, used[k].id) == k
  {
  }

  lemma StillNotFound(used: seq<Frame>, k: nat, id: nat)
    requires k < |used| && Find(used, id) == |used|
    ensures Find(Drop(used, k), id) == |used| - 1
  {
  }

  lemma AllocateFinds(cfg: Config, a: Asm, id: nat)
    requires cfg.Valid() && DistinctIds(a.used) && |a.used| <= cfg.numFrames
    requires Find(a.used, id) == |a.used|
    ensures var b := Allocate(cfg, a, id);
            && |b.used| <= cfg.numFrames && DistinctIds(b.used)
            && Find(b.used, id) == |b.used| - 1 && b.used[|b.used| - 1] == Frame(id, a.time, [])
            && (forall i :: 0 <= i < |b.used| - 1 ==> b.used[i] in a.used)
  {
    var kept := if |a.used| >= cfg.numFrames then Drop(a.used, 0) else a.used;
    var b := Allocate(cfg, a, id);
    assert b.used == kept + [Frame(id, a.time, [])];
    FindIs(b.used, |b.used| - 1);
  }

  /** After admission `id` has a live entry: a new one without chunks, or the one it already had. */
  ghost predicate Admitted(cfg: Config, a: Asm, id: nat, b: Asm) {
    var k := Find(b.used, id);
    && b.time == a.time && |b.used| <= cfg.numFrames && DistinctIds(b.used)
    && k < |b.used| && b.used[k].time <= a.time && !TimedOut(cfg, a, b.used[k])
    && (b.used[k].chunks == [] || b.used[k] in a.used)
    && forall i :: 0 <= i < |b.used| && i != k ==> b.used[i] in a.used
  }

  lemma AdmitFinds(cfg: Config, a: Asm, id: nat)
    requires Inv(cfg, a)
    ensures Admitted(cfg, a, id, Admit(cfg, a, id))
  {
    var k := Find(a.used, id);
    if k == |a.used| {
      AllocateFinds(cfg, a, id);
    } else if TimedOut(cfg, a, a.used[k]) {
      DropKeeps(a.used, k);
      var mid := a.(used := Drop(a.used, k));
      assert Find(mid.used, id) == |mid.used|;
      AllocateFinds(cfg, mid, id);
      assert forall i :: 0 <= i < |mid.used| ==> mid.used[i] in a.used;
    } else {
      assert FrameInv(cfg, a.time, a.used[k]);
    }
  }

  lemma PlaceKeepsInv(cfg: Config, b: Asm, id: nat, c: Chunk)
    requires cfg.Valid() && b.time <= MAX_TIME && |b.used| <= cfg.numFrames && DistinctIds(b.used)
    requires c.End() <= cfg.mtu && Find(b.used, id) < |b.used|
    requires forall i :: 0 <= i < |b.used| && b.used[i].id != id ==> FrameInv(cfg, b.time, b.used[i])
    requires var f := b.used[Find(b.used, id)]; f.chunks == [] || FrameInv(cfg, b.time, f)
    ensures Inv(cfg, Place(cfg, b, id, c).0)
  {
    hide Consistent, Complete, Find;
    var k := Find(b.used, id);
    var cs := b.used[k].chunks + [c];
    var b' := Place(cfg, b, id, c).0;
    if b'.used == Drop(b.used, k) {
      DropKeeps(b.used, k);
    } else {
      ReachBound(b.used[k].chunks, c, cfg.mtu);
      assert FrameInv(cfg, b.time, b'.used[k]);
      forall i | 0 <= i < |b'.used| ensures FrameInv(cfg, b.time, b'.used[i]) {
      }
    }
  }

  lemma ReachBound(cs: seq<Chunk>, c: Chunk, bound: nat)
    requires Reach(cs) <= bound && c.End() <= bound
    ensures Reach(cs + [c]) <= bound
  {
    assert (cs + [c])[..|cs|] == cs;
  }

  lemma CompletionEmits(cs: seq<Chunk>, c: Chunk, mtu: nat)
    requires Consistent(cs + [c]) && Complete(cs + [c]) && Reach(cs) <= mtu && c.End() <= mtu
    ensures Emits(cs + [c], c, Content(cs + [c])) && |Content(cs + [c])| <= mtu
  {
    SumDecidesCompleteness(cs + [c]);
    ReachBound(cs, c, mtu);
    assert (cs + [c])[|cs|] == c;
  }

  lemma PlaceEmits(cfg: Config, b: Asm, id: nat, c: Chunk)
    requires c.End() <= cfg.mtu && Find(b.used, id) < |b.used|
    requires Reach(b.used[Find(b.used, id)].chunks) <= cfg.mtu
    ensures var out := Place(cfg, b, id, c).1;
            out.Some? ==> |out.value| <= cfg.mtu && Emits(b.used[Find(b.used, id)].chunks + [c], c, out.value)
  {
    hide Consistent, Complete, Emits, Content, Find, Drop, Reach;
    var cs := b.used[Find(b.used, id)].chunks;
    if Consistent(cs + [c]) && Complete(cs + [c]) {
      CompletionEmits(cs, c, cfg.mtu);
    }
  }

  /**
   * Every chunk, whatever it claims, leaves the frames in use distinct, within the pool, consistent and
   * unfinished; a frame is emitted only when the chunks stored under the id and this one cover it exactly.
   */
  lemma ReceiveKeepsInv(cfg: Config, a: Asm, id: nat, c: Chunk)
    requires Inv(cfg, a)
    ensures Inv(cfg, Receive(cfg, a, id, c).0)
    ensures var out := Receive(cfg, a, id, c).1;
            out.Some? ==> |out.value| <= cfg.mtu && Emits(Stored(cfg, a, id) + [c], c, out.value)
  {
    hide Consistent, Complete;
    if c.End() <= cfg.mtu {
      AdmitFinds(cfg, a, id);
      AdmitStored(cfg, a, id);
      var b := Admit(cfg, a, id);
      var k := Find(b.used, id);
      assert b.used[k].chunks == [] || FrameInv(cfg, a.time, b.used[k]);
      PlaceKeepsInv(cfg, b, id, c);
      PlaceEmits(cfg, b, id, c);
    }
  }

  /** The chunks already stored under an id, if its frame has not timed out. */
  function Stored(cfg: Config, a: Asm, id: nat): seq<Chunk> {
    var f := Lookup(a.used, id);
    if f.Some? && !TimedOut(cfg, a, f.value) then f.value.chunks else []
  }

  lemma AdmitStored(cfg: Config, a: Asm, id: nat)
    requires Inv(cfg, a)
    ensures var b := Admit(cfg, a, id);
            Find(b.used, id) < |b.used| && b.used[Find(b.used, id)].chunks == Stored(cfg, a, id)
  {
    var k := Find(a.used, id);
    if k == |a.used| {
      AllocateFinds(cfg, a, id);
    } else if TimedOut(cfg, a, a.used[k]) {
      DropKeeps(a.used, k);
      var mid := a.(used := Drop(a.used, k));
      assert Find(mid.used, id) == |mid.used|;
      AllocateFinds(cfg, mid, id);
    }
  }

  /** `out` is spelled out by chunks that were all accepted, ending in c, and no two of which wrote the same byte. */
  ghost predicate Emits(cs: seq<Chunk>, c: Chunk, out: seq<Byte>) {
    && c in cs && Consistent(cs) && Complete(cs) && out == Content(cs) && TotalLen(cs) == |out|
  }

  /** Exactly the timed-out frames go. */
  lemma {:induction false} LiveMembers(cfg: Config, now: nat, used: seq<Frame>)
    ensures forall f :: f in Live(cfg, now, used) <==> f in used && now - f.time <= cfg.Tolerance()
  {
    if used != [] {
      var n := |used| - 1;
      LiveMembers(cfg, now, used[..n]);
      assert used == used[..n] + [used[n]];
    }
  }

  lemma {:induction false} LiveDistinct(cfg: Config, now: nat, used: seq<Frame>)
    requires DistinctIds(used)
    ensures DistinctIds(Live(cfg, now, used))
  {
    if used != [] {
      var n := |used| - 1;
      LiveDistinct(cfg, now, used[..n]);
      LiveMembers(cfg, now, used[..n]);
      var r := Live(cfg, now, used[..n]);
      forall i | 0 <= i < |r| ensures r[i].id != used[n].id {
        assert r[i] in r;
        var j :| 0 <= j < n && used[..n][j] == r[i];
        assert used[j] == r[i];
      }
    }
  }

  lemma ShiftKeeps(cfg: Config, now: nat, used: seq<Frame>, back: nat)
    requires back <= now && forall f :: f in used ==> back <= f.time && FrameInv(cfg, now, f)
    requires DistinctIds(used)
    ensures DistinctIds(Shift(used, back))
    ensures forall f :: f in Shift(used, back) ==> FrameInv(cfg, now - back, f)
  {
    var r := Shift(used, back);
    forall i | 0 <= i < |r| ensures FrameInv(cfg, now - back, r[i]) {
      assert used[i] in used && FrameInv(cfg, now, used[i]);
    }
  }

  lemma ReduceKeepsInv(cfg: Config, a: Asm)
    requires Inv(cfg, a) && a.time == MAX_TIME
    ensures Inv(cfg, Reduce(cfg, a)) && Reduce(cfg, a).time < MAX_TIME
    ensures var live := Live(cfg, a.time, a.used);
            live != [] ==> 0 < MinTime(live) <= a.time && Reduce(cfg, a).time == a.time - MinTime(live)
  {
    var live := Live(cfg, a.time, a.used);
    LiveDistinct(cfg, a.time, a.used);
    LiveMembers(cfg, a.time, a.used);
    if live != [] {
      var m := MinTime(live);
      MinTimeIsLeast(live);
      var f :| f in live && f.time == m;
      assert FrameInv(cfg, a.time, f);
      ShiftKeeps(cfg, a.time, live, m);
    }
  }

  /**
   * The clock never passes its limit and no frame is ever dated in its future. At the limit the clock
   * really drops, so it never wraps.
   */
  lemma TickKeepsInv(cfg: Config, a: Asm)
    requires Inv(cfg, a)
    ensures Inv(cfg, Tick(cfg, a))
    ensures a.time == MAX_TIME ==> Reduce(cfg, a).time < MAX_TIME
  {
    var b := if a.time == MAX_TIME then Reduce(cfg, a) else a;
    if a.time == MAX_TIME { ReduceKeepsInv(cfg, a); }
    forall f | f in b.used ensures FrameInv(cfg, b.time + 1, f) { assert FrameInv(cfg, b.time, f); }
  }

  // ----- looking a frame up by id -----

  function Lookup(used: seq<Frame>, id: nat): (r: Option<Frame>)
    ensures r.Some? ==> r.value in used && r.value.id == id
    ensures r.None? ==> forall f :: f in used ==> f.id != id
  {
    var k := Find(used, id);
    if k < |used| then Some(used[k]) else None
  }

  lemma LookupIn(used: seq<Frame>, f: Frame)
    requires DistinctIds(used) && f in used
    ensures Lookup(used, f.id) == Some(f)
  {
  }

  /** A frame's age: how far the packet clock has moved since its last chunk. */
  ghost function Age(a: Asm, id: nat): int
    requires Lookup(a.used, id).Some?
  {
    a.time - Lookup(a.used, id).value.time
  }

  /**
   * Renormalising the clocks cannot be seen: whether or not the packet time was at its limit, every frame
   * that has not timed out is still there with the same chunks and is exactly one packet older, and no
   * frame appears.
   */
  lemma TickAgesByOne(cfg: Config, a: Asm, id: nat)
    requires Inv(cfg, a)
    ensures var b := Tick(cfg, a);
            var before, after := Lookup(a.used, id), Lookup(b.used, id);
            && (after.Some? ==>
                 before.Some? && after.value.chunks == before.value.chunks && Age(b, id) == Age(a, id) + 1)
            && (before.Some? && Age(a, id) <= cfg.Tolerance() ==> after.Some?)
            && (before.Some? && Age(a, id) > cfg.Tolerance() && a.time == MAX_TIME ==> after.None?)
  {
    if a.time == MAX_TIME {
      ReduceKeepsInv(cfg, a);
      LiveLookup(cfg, a, id);
      var live := Live(cfg, a.time, a.used);
      if live != [] {
        MinTimeIsLeast(live);
        ShiftLookup(live, MinTime(live), id);
      }
    }
  }

  lemma LiveLookup(cfg: Config, a: Asm, id: nat)
    requires Inv(cfg, a)
    ensures var live := Live(cfg, a.time, a.used);
            var f := Lookup(a.used, id);
            Lookup(live, id) == if f.Some? && a.time - f.value.time <= cfg.Tolerance() then f else None
  {
    hide FrameInv;
    var live := Live(cfg, a.time, a.used);
    LiveDistinct(cfg, a.time, a.used);
    LiveMembers(cfg, a.time, a.used);
    var f := Lookup(live, id);
    if f.Some? { LookupIn(a.used, f.value); }
    var g := Lookup(a.used, id);
    if g.Some? && g.value in live { LookupIn(live, g.value); }
  }

  lemma ShiftLookup(used: seq<Frame>, back: nat, id: nat)
    requires forall f :: f in used ==> back <= f.time
    ensures var f := Lookup(used, id);
            Lookup(Shift(used, back), id) == if f.Some? then Some(f.value.(time := f.value.time - back)) else None
  {
    var r := Shift(used, back);
    var k := Find(used, id);
    if k < |used| { assert r[k].id == id; FindIs(r, k); }
    var j := Find(r, id);
    if j < |r| { assert used[j].id == id; FindIs(used, j); }
  }
}
