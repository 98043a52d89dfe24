/**
 * The assembler as it is built: a fixed pool of frame slots with in-place chunk tables and buffers, a
 * free list, a used list, an index by frame id, and running sums. Every handler is proved to do exactly
 * what AssemblerSpec says.
 */
module FragmentAssemblers {
  import opened Bytes
  import opened Chunks
  import opened Options
  import opened AssemblerSpec
  import opened PacketParse

  datatype Span = Span(start: nat, len: nat)

  /** The scalar fields of struct FragmentProtoAssembler_frame. */
  datatype Entry = Entry(id: nat, time: nat, numChunks: nat, sum: nat, length: int, lengthSoFar: nat)

  /** The bytes given to PacketPassInterface_Sender_Send, as a place in the buffers. */
  datatype Outgoing = Outgoing(slot: nat, len: nat)

  function SpanOf(c: Chunk): Span { Span(c.start, |c.data|) }

  /** A slot's fields, chunk table and buffer stand for the frame f. */
  ghost predicate Holds(cfg: Config, e: Entry, table: seq<Span>, buf: seq<Byte>, f: Frame) {
    && e.id == f.id && e.time == f.time
    && |table| == cfg.numChunks && |buf| == cfg.mtu
    && e.numChunks == |f.chunks| <= cfg.numChunks
    && (forall k :: 0 <= k < |f.chunks| ==> table[k] == SpanOf(f.chunks[k]))
    && e.sum == TotalLen(f.chunks)
    && e.length == (if HasLast(f.chunks) then Reach(f.chunks) else -1)
    && (e.length < 0 ==> e.lengthSoFar == Reach(f.chunks))
    && (forall p :: p in Covered(f.chunks) ==> p < cfg.mtu && buf[p] == ByteAt(f.chunks, p))
  }

  predicate SpansOverlap(a: Span, b: Span) {
    a.start + a.len > b.start && b.start + b.len > a.start
  }

  /** The checks process_chunk makes, in terms of what the slot's scalars stand for. */
  ghost predicate Passes(cs: seq<Chunk>, c: Chunk) {
    && (forall i :: 0 <= i < |cs| ==> !Overlap(cs[i], c))
    && (if c.last then !HasLast(cs) && Reach(cs) <= c.End() else HasLast(cs) ==> c.End() <= Reach(cs))
  }

  lemma LastReaches(cs: seq<Chunk>, i: nat)
    requires Consistent(cs) && i < |cs| && cs[i].last
    ensures cs[i].End() == Reach(cs)
  {
    var k :| 0 <= k < |cs| && cs[k].End() == Reach(cs);
  }

  lemma ConsistentPasses(cs: seq<Chunk>, c: Chunk)
    requires Consistent(cs) && Consistent(cs + [c])
    ensures Passes(cs, c)
  {
    var ds := cs + [c];
    assert ds[|cs|] == c;
    forall i | 0 <= i < |cs| ensures !Overlap(cs[i], c) { assert !Overlap(ds[i], ds[|cs|]); }
    if c.last {
      forall i | 0 <= i < |cs| ensures !cs[i].last { assert ds[i] == cs[i]; }
      if cs != [] { var k :| 0 <= k < |cs| && cs[k].End() == Reach(cs); assert ds[k].End() <= c.End(); }
    } else if HasLast(cs) {
      var i :| 0 <= i < |cs| && cs[i].last;
      LastReaches(cs, i);
      assert ds[i].last;
    }
  }

  lemma PassesConsistent(cs: seq<Chunk>, c: Chunk)
    requires Consistent(cs) && Passes(cs, c)
    ensures Consistent(cs + [c])
  {
    hide Reach;
    var ds := cs + [c];
    var n := |cs|;
    assert ds[n] == c && forall i :: 0 <= i < n ==> ds[i] == cs[i];
    assert Apart(ds);
    forall i, j | 0 <= i < |ds| && 0 <= j < |ds| && ds[i].last ensures ds[j].End() <= ds[i].End() {
      if i < n { LastReaches(cs, i); }
    }
  }

  /** They decide consistency exactly. */
  lemma ChecksDecideConsistency(cs: seq<Chunk>, c: Chunk)
    requires Consistent(cs)
    ensures Consistent(cs + [c]) <==> Passes(cs, c)
  {
    hide Consistent, Passes;
    if Consistent(cs + [c]) { ConsistentPasses(cs, c); }
    if Passes(cs, c) { PassesConsistent(cs, c); }
  }

  function Splice(buf: seq<Byte>, at: nat, data: seq<Byte>): (r: seq<Byte>)
    requires at + |data| <= |buf|
    ensures |r| == |buf|
    ensures forall p :: 0 <= p < |r| ==> r[p] == if at <= p < at + |data| then data[p - at] else buf[p]
  {
    buf[..at] + data + buf[at + |data|..]
  }

  lemma NewSlotHolds(cfg: Config, e: Entry, table: seq<Span>, buf: seq<Byte>, id: nat, time: nat)
    requires |table| == cfg.numChunks && |buf| == cfg.mtu
    requires e == Entry(id, time, 0, 0, -1, 0)
    ensures Holds(cfg, e, table, buf, Frame(id, time, []))
  {
  }

  lemma StepLengths(cs: seq<Chunk>, c: Chunk)
    ensures HasLast(cs + [c]) <==> HasLast(cs) || c.last
    ensures Reach(cs + [c]) == if c.End() > Reach(cs) then c.End() else Reach(cs)
  {
    var ds := cs + [c];
    assert ds[..|cs|] == cs && ds[|cs|] == c;
    if HasLast(cs) { var i :| 0 <= i < |cs| && cs[i].last; assert ds[i].last; }
  }

  lemma StepBuffer(cs: seq<Chunk>, c: Chunk, buf: seq<Byte>)
    requires c.End() <= |buf|
    requires forall p :: p in Covered(cs) ==> p < |buf| && buf[p] == ByteAt(cs, p)
    ensures forall p :: p in Covered(cs + [c]) ==> p < |buf| && Splice(buf, c.start, c.data)[p] == ByteAt(cs + [c], p)
  {
    var ds := cs + [c];
    assert ds[..|cs|] == cs && ds[|cs|] == c;
    CoveredStep(cs, c);
  }

  /** Recording a chunk in a slot: the table entry, the sums, the lengths and the bytes. */
  lemma AddedChunkHolds(cfg: Config, e: Entry, table: seq<Span>, buf: seq<Byte>, f: Frame, c: Chunk, now: nat)
    requires Holds(cfg, e, table, buf, f) && Passes(f.chunks, c)
    requires |f.chunks| < cfg.numChunks && c.End() <= cfg.mtu
    ensures Holds(cfg, WithChunk(e, c.start, |c.data|, c.last, now), table[|f.chunks| := SpanOf(c)],
                  Splice(buf, c.start, c.data), Frame(f.id, now, f.chunks + [c]))
  {
    hide Covered, ByteAt, Reach, HasLast, Overlap;
    StepLengths(f.chunks, c);
    CoveredStep(f.chunks, c);
    var n, e', t' := |f.chunks|, WithChunk(e, c.start, |c.data|, c.last, now), table[|f.chunks| := SpanOf(c)];
    var ds := f.chunks + [c];
    assert |t'| == cfg.numChunks && e'.numChunks == |ds| && e'.sum == TotalLen(ds);
    assert forall k :: 0 <= k < |ds| ==> t'[k] == SpanOf(ds[k]);
    assert e'.length == if HasLast(ds) then Reach(ds) else -1;
    assert e'.length < 0 ==> e'.lengthSoFar == Reach(ds);
    StepBuffer(f.chunks, c, buf);
  }

  function WithChunk(e: Entry, start: nat, len: nat, last: bool, now: nat): Entry {
    var end := start + len;
    e.(time := now, numChunks := e.numChunks + 1, sum := e.sum + len,
       length := if last then end else e.length,
       lengthSoFar := if !last && e.length < 0 && e.lengthSoFar < end then end else e.lengthSoFar)
  }

  lemma CoversItsReach(cs: seq<Chunk>)
    requires Complete(cs)
    ensures HasLast(cs) && forall p :: 0 <= p < Reach(cs) ==> p in Covered(cs)
  {
    hide Covered, Reach, HasLast;
  }

  lemma SlotContent(cfg: Config, e: Entry, table: seq<Span>, buf: seq<Byte>, f: Frame)
    requires Holds(cfg, e, table, buf, f) && Complete(f.chunks)
    ensures 0 <= e.length <= |buf| && buf[..e.length] == Content(f.chunks)
  {
    hide Complete, Covered, Reach, HasLast, ByteAt, Content;
    CoversItsReach(f.chunks);
    var r := Reach(f.chunks);
    if r > 0 { assert r - 1 in Covered(f.chunks); }
    var content := Content(f.chunks);
    assert |content| == r && e.length == r <= |buf|;
    assert forall p :: 0 <= p < r ==> buf[..r][p] == content[p];
  }

  // ----- lists of slots -----

  lemma DropAt<T>(s: seq<T>, k: nat, j: nat)
    requires k < |s| && j < |Drop(s, k)|
    ensures |Drop(s, k)| == |s| - 1 && Drop(s, k)[j] == s[if j < k then j else j + 1]
  {
  }

  ghost predicate Distinct(s: seq<nat>) {
    forall i, j :: 0 <= i < j < |s| ==> s[i] != s[j]
  }

  function IndexOf(s: seq<nat>, x: nat): (k: nat)
    requires x in s
    ensures k < |s| && s[k] == x
  {
    if s[0] == x then 0 else 1 + IndexOf(s[1..], x)
  }

  /** Every one of the n slots is on exactly one of the two lists. */
  ghost predicate Pool(n: nat, used: seq<nat>, free: seq<nat>) {
    && |used| + |free| == n
    && Distinct(used + free)
    && forall k :: 0 <= k < n ==> (used + free)[k] < n
  }

  lemma PoolFree(n: nat, used: seq<nat>, free: seq<nat>, k: nat)
    requires Pool(n, used, free) && k < |used|
    ensures Pool(n, Drop(used, k), free + [used[k]])
  {
    var all, all' := used + free, Drop(used, k) + (free + [used[k]]);
    assert |all'| == n;
    forall i | 0 <= i < n ensures all'[i] == all[if i < k then i else if i < n - 1 then i + 1 else k] {
    }
  }

  lemma PoolTake(n: nat, used: seq<nat>, free: seq<nat>)
    requires Pool(n, used, free) && free != []
    ensures Pool(n, used + [free[0]], free[1..])
  {
    assert used + [free[0]] + free[1..] == used + free;
  }

  /** frames_used_tree maps exactly the ids in use to their slots. */
  ghost predicate Indexed(frames: seq<Frame>, slots: seq<nat>, tree: map<nat, nat>)
    requires |frames| == |slots|
  {
    && (forall k :: 0 <= k < |slots| ==> frames[k].id in tree && tree[frames[k].id] == slots[k])
    && (forall id :: id in tree ==> exists k :: 0 <= k < |slots| && frames[k].id == id)
  }

  lemma IndexDrop(frames: seq<Frame>, slots: seq<nat>, tree: map<nat, nat>, k: nat)
    requires |frames| == |slots| && Indexed(frames, slots, tree) && k < |slots| && DistinctIds(frames)
    ensures Indexed(Drop(frames, k), Drop(slots, k), tree - {frames[k].id})
  {
    var fs, ss, t := Drop(frames, k), Drop(slots, k), tree - {frames[k].id};
    forall id | id in t ensures exists i :: 0 <= i < |ss| && fs[i].id == id {
      var i :| 0 <= i < |slots| && frames[i].id == id;
      if i < k { assert fs[i].id == id; } else { assert fs[i - 1].id == id; }
    }
  }

  lemma IndexAppend(frames: seq<Frame>, slots: seq<nat>, tree: map<nat, nat>, f: Frame, slot: nat)
    requires |frames| == |slots| && Indexed(frames, slots, tree) && f.id !in tree
    ensures Indexed(frames + [f], slots + [slot], tree[f.id := slot])
  {
    var fs, ss, t := frames + [f], slots + [slot], tree[f.id := slot];
    forall id | id in t ensures exists i :: 0 <= i < |ss| && fs[i].id == id {
      if id == f.id {
        assert fs[|slots|].id == id;
      } else {
        var i :| 0 <= i < |slots| && frames[i].id == id;
        assert fs[i].id == id;
      }
    }
  }

  lemma IndexFinds(frames: seq<Frame>, slots: seq<nat>, tree: map<nat, nat>, id: nat)
    requires |frames| == |slots| && Indexed(frames, slots, tree) && DistinctIds(frames)
    ensures id in tree <==> Find(frames, id) < |frames|
    ensures id in tree ==> tree[id] == slots[Find(frames, id)]
  {
  }

  ghost predicate Linked(n: nat, frames: seq<Frame>, used: seq<nat>, free: seq<nat>, tree: map<nat, nat>) {
    && |frames| == |used|
    && DistinctIds(frames)
    && Pool(n, used, free)
    && Indexed(frames, used, tree)
  }

  lemma LinkedDrop(n: nat, frames: seq<Frame>, used: seq<nat>, free: seq<nat>, tree: map<nat, nat>, k: nat)
    requires Linked(n, frames, used, free, tree) && k < |used|
    ensures Linked(n, Drop(frames, k), Drop(used, k), free + [used[k]], tree - {frames[k].id})
    ensures |frames| == |used| && IndexOf(used, used[k]) == k
  {
    hide Pool;
    PoolFree(n, used, free, k);
    IndexDrop(frames, used, tree, k);
    DropKeeps(frames, k);
    UsedDistinct(n, used, free);
  }

  lemma LinkedAppend(n: nat, frames: seq<Frame>, used: seq<nat>, free: seq<nat>, tree: map<nat, nat>, f: Frame)
    requires Linked(n, frames, used, free, tree) && free != [] && f.id !in tree
    ensures Linked(n, frames + [f], used + [free[0]], free[1..], tree[f.id := free[0]])
    ensures free[0] !in used && free[0] < n
  {
    PoolTake(n, used, free);
    IndexAppend(frames, used, tree, f, free[0]);
    forall k | 0 <= k < |used| ensures used[k] != free[0] {
      assert (used + free)[k] != (used + free)[|used|];
    }
    assert (used + free)[|used|] < n;
  }

  class FragmentAssembler {
    const cfg: Config
    var time: nat
    const entries: array<Entry>
    const spans: array2<Span>
    const buffers: array2<Byte>
    var free: seq<nat>
    var used: seq<nat>
    var tree: map<nat, nat>
    var inLen: int
    var input: seq<Byte>
    var inPos: nat
    /** The frame being sent, whose slot is already free again; and its bytes when the send began. */
    var sending: Option<Outgoing>
    ghost var sent: seq<Byte>
    /** The frames in use as lists of chunks, in the order of `used`. */
    ghost var model: Asm

    ghost function Table(s: nat): (r: seq<Span>)
      requires s < spans.Length0
      reads spans
      ensures |r| == spans.Length1
      ensures forall k :: 0 <= k < |r| ==> r[k] == spans[s, k]
    {
      seq(spans.Length1, k requires 0 <= k < spans.Length1 reads spans => spans[s, k])
    }

    ghost function Buffer(s: nat): (r: seq<Byte>)
      requires s < buffers.Length0
      reads buffers
      ensures |r| == buffers.Length1
      ensures forall p :: 0 <= p < |r| ==> r[p] == buffers[s, p]
    {
      seq(buffers.Length1, p requires 0 <= p < buffers.Length1 reads buffers => buffers[s, p])
    }

    ghost predicate Sized() {
      && cfg.Valid()
      && entries.Length == spans.Length0 == buffers.Length0 == cfg.numFrames
      && spans.Length1 == cfg.numChunks && buffers.Length1 == cfg.mtu
    }

    ghost predicate SlotHolds(slot: nat, f: Frame)
      reads entries, spans, buffers
    {
      && slot < entries.Length && slot < spans.Length0 && slot < buffers.Length0
      && Holds(cfg, entries[slot], Table(slot), Buffer(slot), f)
    }

    /** The lists, the tree, the tables and the buffers all describe the frames of the model. */
    ghost predicate Structure()
      reads this, entries, spans, buffers
    {
      && Sized()
      && model.time == time
      && Linked(cfg.numFrames, model.used, used, free, tree)
      && forall k :: 0 <= k < |used| ==> SlotHolds(used[k], model.used[k])
    }

    /** The bytes the receiver of the frame sees, at any time before it says that it is done. */
    ghost function InFlight(): seq<Byte>
      requires sending.Some? && sending.value.slot < buffers.Length0 && sending.value.len <= buffers.Length1
      reads this, buffers
    {
      Buffer(sending.value.slot)[..sending.value.len]
    }

    /** Between packets, or in the middle of one while a frame that it completed is being sent. */
    ghost predicate Valid()
      reads this, entries, spans, buffers
    {
      && Structure()
      && Inv(cfg, model)
      && if inLen == -1 then sending.None? else inLen == |input| && inPos <= |input| && IsSending()
    }

    /** The frame in flight is untouched although its slot may be taken again. */
    ghost predicate IsSending()
      reads this, buffers
    {
      && sending.Some? && sending.value.slot < buffers.Length0 && sending.value.len <= buffers.Length1
      && InFlight() == sent
    }

    /** In the middle of a packet, with nothing being sent. */
    ghost predicate Reading()
      reads this, entries, spans, buffers
    {
      && Structure()
      && Inv(cfg, model)
      && inLen == |input| && inPos <= |input| && sending.None?
    }

    constructor (cfg: Config)
      requires cfg.Valid()
      ensures Valid() && this.cfg == cfg && model == Fresh && inLen == -1
      ensures fresh(entries) && fresh(spans) && fresh(buffers)
    {
      this.cfg := cfg;
      time := 0;
      entries := new Entry[cfg.numFrames];
      spans := new Span[cfg.numFrames, cfg.numChunks];
      buffers := new Byte[cfg.numFrames, cfg.mtu];
      free := seq(cfg.numFrames, i => i);
      used := [];
      tree := map[];
      inLen := -1;
      input := [];
      inPos := 0;
      sending := None;
      sent := [];
      model := Fresh;
    }

    lemma SlotId(k: nat)
      requires Structure() && k < |used|
      ensures used[k] < entries.Length && used[k] < cfg.numFrames
      ensures entries[used[k]].id == model.used[k].id && entries[used[k]].time == model.used[k].time
    {
      assert SlotHolds(used[k], model.used[k]);
    }

    lemma StructureFacts()
      requires Structure()
      ensures Sized() && model.time == time && |used| == |model.used|
      ensures Linked(cfg.numFrames, model.used, used, free, tree)
      ensures forall k :: 0 <= k < |used| ==> SlotHolds(used[k], model.used[k])
    {
    }

    lemma StructureFrom()
      requires Sized() && model.time == time && |used| == |model.used|
      requires Linked(cfg.numFrames, model.used, used, free, tree)
      requires forall k :: 0 <= k < |used| ==> SlotHolds(used[k], model.used[k])
      ensures Structure()
    {
    }

    /** free_frame */
    method FreeFrame(slot: nat, ghost k: nat)
      requires Structure() && k < |used| && used[k] == slot
      modifies this`free, this`used, this`tree, this`model
      ensures Structure()
      ensures model == old(model).(used := Drop(old(model).used, k))
      ensures used == Drop(old(used), k) && free == old(free) + [slot]
    {
      hide *;
      StructureFacts();
      SlotId(k);
      LinkedDrop(cfg.numFrames, model.used, used, free, tree, k);
      tree := tree - {entries[slot].id};
      used := Drop(used, IndexOf(used, slot));
      free := free + [slot];
      model := model.(used := Drop(model.used, k));
      forall j | 0 <= j < |used| ensures |used| == |model.used| && SlotHolds(used[j], model.used[j]) {
        DropAt(old(used), k, j);
        DropAt(old(model).used, k, j);
      }
      StructureFrom();
    }

    /** allocate_new_frame */
    method AllocateNewFrame(id: nat) returns (slot: nat)
      requires Structure() && Find(model.used, id) == |model.used|
      modifies this`free, this`used, this`tree, this`model, entries
      ensures Structure() && model == Allocate(cfg, old(model), id)
      ensures model.used == (if |old(model).used| >= cfg.numFrames then old(model).used[1..] else old(model).used)
                            + [Frame(id, old(time), [])]
      ensures used != [] && slot == used[|used| - 1]
    {
      hide SlotHolds, Linked, Drop, Find;
      LinkedFacts(cfg.numFrames, model.used, used, free, tree);
      if free == [] {
        // the longest in use makes room
        FreeFrame(used[0], 0);
        StillNotFound(old(model).used, 0, id);
        LinkedFacts(cfg.numFrames, model.used, used, free, tree);
      }
      slot := TakeFreeSlot(id);
    }

    method TakeFreeSlot(id: nat) returns (slot: nat)
      requires Structure() && Find(model.used, id) == |model.used| && free != []
      modifies this`free, this`used, this`tree, this`model, entries
      ensures Structure() && model == old(model).(used := old(model).used + [Frame(id, old(time), [])])
      ensures used != [] && slot == used[|used| - 1]
    {
      hide Linked, Find, Holds;
      slot := free[0];
      ghost var f := Frame(id, time, []);
      LinkedFacts(cfg.numFrames, model.used, used, free, tree);
      IndexFinds(model.used, used, tree, id);
      LinkedAppend(cfg.numFrames, model.used, used, free, tree, f);
      free := free[1..];
      entries[slot] := Entry(id, time, 0, 0, -1, 0);
      used := used + [slot];
      tree := tree[id := slot];
      model := model.(used := model.used + [f]);
      NewSlotHolds(cfg, entries[slot], Table(slot), Buffer(slot), id, time);
      forall k | 0 <= k < |used| ensures SlotHolds(used[k], model.used[k]) {
        if k < |used| - 1 {
          assert old(SlotHolds(used[k], model.used[k]));
        }
      }
    }

    /** The first walk of reduce_times: remove timed-out frames and find the smallest time of the rest. */
    method RemoveTimedOut() returns (minTime: nat)
      requires Structure()
      modifies this`free, this`used, this`tree, this`model
      ensures Structure()
      ensures model == old(model).(used := Live(cfg, time, old(model).used))
      ensures model.used != [] ==> minTime == MinTime(model.used)
    {
      hide SlotHolds, Linked, Drop, Live, MinTime, Joined;
      minTime := 0;
      var k := 0;
      ghost var all := model.used;
      ghost var i := 0;
      ghost var live := [];
      LinkedFacts(cfg.numFrames, model.used, used, free, tree);
      LiveWalk(cfg, time, all, 0);
      JoinedFacts(live, all, 0);
      while k < |used|
        invariant k <= i <= |all| && k == |live| && |model.used| == k + |all| - i
        invariant Structure() && |used| == |model.used|
        invariant live == Live(cfg, time, all[..i])
        invariant model == old(model).(used := Joined(live, all, i))
        invariant k > 0 ==> minTime == MinTime(live)
      {
        var slot := used[k];
        SlotId(k);
        JoinedFacts(live, all, i);
        LiveWalk(cfg, time, all, i);
        if time - entries[slot].time > cfg.Tolerance() {
          FreeFrame(slot, k);
          LinkedFacts(cfg.numFrames, model.used, used, free, tree);
        } else {
          MinTimeStep(live, all[i]);
          if k == 0 || entries[slot].time < minTime {
            minTime := entries[slot].time;
          }
          live := live + [all[i]];
          k := k + 1;
        }
        i := i + 1;
      }
      JoinedFacts(live, all, i);
      assert all[..i] == all;
    }

    /** The second walk of reduce_times: subtract the smallest time from every frame. */
    method SubtractTime(minTime: nat)
      requires Structure()
      requires forall f :: f in model.used ==> minTime <= f.time
      modifies this`model, entries
      ensures Structure() && model == old(model).(used := Shift(old(model).used, minTime))
    {
      hide Linked, SlotHolds, Shift;
      ghost var live := model.used;
      ghost var shifted := Shift(live, minTime);
      LinkedFacts(cfg.numFrames, model.used, used, free, tree);
      for k := 0 to |used|
        invariant |used| == |live| == |model.used| && model.time == old(model).time
        invariant forall j :: 0 <= j < |used| ==> model.used[j] == if j < k then shifted[j] else live[j]
        invariant Structure()
      {
        assert live[k] in live;
        SlotId(k);
        Retime(k, entries[used[k]].time - minTime);
      }
      assert model.used == shifted;
    }

    method Retime(k: nat, t: nat)
      requires Structure() && k < |used|
      modifies this`model, entries
      ensures Structure() && k < |old(model).used|
      ensures model == old(model).(used := old(model).used[k := old(model).used[k].(time := t)])
    {
      hide Linked, Holds;
      SlotId(k);
      LinkedFacts(cfg.numFrames, model.used, used, free, tree);
      LinkedReplace(cfg.numFrames, model.used, used, free, tree, k, model.used[k].(time := t));
      RetimedHolds(cfg, entries[used[k]], Table(used[k]), Buffer(used[k]), model.used[k], t);
      entries[used[k]] := entries[used[k]].(time := t);
      model := model.(used := model.used[k := model.used[k].(time := t)]);
      forall j | 0 <= j < |used| ensures SlotHolds(used[j], model.used[j]) {
        assert old(SlotHolds(used[j], model.used[j])) || j == k;
      }
    }

    /** reduce_times */
    method ReduceTimes()
      requires Structure() && Inv(cfg, model)
      modifies this`free, this`used, this`tree, this`model, this`time, entries
      ensures Structure() && model == Reduce(cfg, old(model))
    {
      hide SlotHolds, Linked, Live, MinTime, Shift, Inv;
      LiveTimes(cfg, model);
      var minTime := RemoveTimedOut();
      LinkedFacts(cfg.numFrames, model.used, used, free, tree);
      if used == [] {
        time := 0;
        model := Fresh;
        return;
      }
      SubtractTime(minTime);
      time := time - minTime;
      model := model.(time := time);
    }

    /** The lookup of process_chunk: the live frame with this id, or a new one. */
    method FindOrAllocate(id: nat) returns (slot: nat)
      requires Structure() && Inv(cfg, model)
      modifies this`free, this`used, this`tree, this`model, entries
      ensures Structure() && model == Admit(cfg, old(model), id)
      ensures |used| == |model.used| && Find(model.used, id) < |used| && slot == used[Find(model.used, id)]
    {
      hide SlotHolds, Linked, Drop, Inv;
      ghost var k := Find(model.used, id);
      LinkedFacts(cfg.numFrames, model.used, used, free, tree);
      IndexFinds(model.used, used, tree, id);
      AdmitFindsIt(cfg, model, id);
      if id !in tree {
        slot := AllocateNewFrame(id);
      } else {
        slot := tree[id];
        SlotId(k);
        if time - entries[slot].time > cfg.Tolerance() {
          FreeFrame(slot, k);
          slot := AllocateNewFrame(id);
        }
      }
      LinkedFacts(cfg.numFrames, model.used, used, free, tree);
    }

    /** The overlap scan of process_chunk. */
    method AnyOverlap(slot: nat, start: nat, len: nat, ghost f: Frame, ghost c: Chunk) returns (found: bool)
      requires Sized() && SlotHolds(slot, f) && c.start == start && |c.data| == len
      ensures found <==> exists i :: 0 <= i < |f.chunks| && Overlap(f.chunks[i], c)
    {
      for i := 0 to entries[slot].numChunks
        invariant forall j :: 0 <= j < i ==> !Overlap(f.chunks[j], c)
      {
        assert Table(slot)[i] == SpanOf(f.chunks[i]);
        if SpansOverlap(spans[slot, i], Span(start, len)) {
          assert Overlap(f.chunks[i], c);
          return true;
        }
      }
      return false;
    }

    /** The three checks of process_chunk on an existing frame. */
    method Acceptable(slot: nat, start: nat, len: nat, last: bool, ghost f: Frame, ghost c: Chunk) returns (ok: bool)
      requires Sized() && SlotHolds(slot, f) && c.start == start && |c.data| == len && c.last == last
      ensures ok <==> Passes(f.chunks, c)
    {
      var overlap := AnyOverlap(slot, start, len, f, c);
      if overlap {
        return false;
      }
      var e := entries[slot];
      if last {
        if e.length >= 0 {
          return false;
        }
        return e.lengthSoFar <= start + len;
      } else if e.length >= 0 {
        return start + len <= e.length;
      }
      return true;
    }

    /** Adding a good chunk: table entry, sums, lengths, and the payload copied into the buffer. */
    method AddChunk(slot: nat, start: nat, len: nat, last: bool, payload: seq<Byte>, ghost k: nat, ghost c: Chunk)
      requires Structure() && k < |used| && slot == used[k]
      requires c == Chunk(start, payload, last) && |payload| == len && c.End() <= cfg.mtu
      requires |used| == |model.used| && Passes(model.used[k].chunks, c) && |model.used[k].chunks| < cfg.numChunks
      modifies this`model, entries, spans, buffers
      ensures Structure() && k < |old(model).used|
      ensures var f := old(model).used[k];
              model == old(model).(used := old(model).used[k := Frame(f.id, old(model).time, f.chunks + [c])])
    {
      hide Linked, Holds, Passes, Splice;
      SlotId(k);
      LinkedFacts(cfg.numFrames, model.used, used, free, tree);
      ghost var f := model.used[k];
      assert SlotHolds(slot, f);
      SlotCount(slot, f);
      AddedChunkHolds(cfg, entries[slot], Table(slot), Buffer(slot), f, c, time);
      ghost var g := Frame(f.id, time, f.chunks + [c]);
      LinkedReplace(cfg.numFrames, model.used, used, free, tree, k, g);
      WriteSlot(slot, start, len, last, payload);
      model := model.(used := model.used[k := g]);
      forall j | 0 <= j < |used| ensures SlotHolds(used[j], model.used[j]) {
        assert old(SlotHolds(used[j], model.used[j]));
      }
    }

    method WriteSlot(slot: nat, start: nat, len: nat, last: bool, payload: seq<Byte>)
      requires Sized() && slot < cfg.numFrames && entries[slot].numChunks < cfg.numChunks
      requires |payload| == len && start + len <= cfg.mtu
      modifies entries, spans, buffers
      ensures entries[slot] == WithChunk(old(entries[slot]), start, len, last, time)
      ensures Table(slot) == old(Table(slot))[old(entries[slot]).numChunks := Span(start, len)]
      ensures Buffer(slot) == Splice(old(Buffer(slot)), start, payload)
      ensures forall t :: 0 <= t < cfg.numFrames && t != slot ==>
                            entries[t] == old(entries[t]) && Table(t) == old(Table(t)) && Buffer(t) == old(Buffer(t))
    {
      hide Splice;
      ghost var buf := Buffer(slot);
      var e := entries[slot];
      spans[slot, e.numChunks] := Span(start, len);
      entries[slot] := WithChunk(e, start, len, last, time);
      forall p | 0 <= p < len {
        buffers[slot, start + p] := payload[p];
      }
      forall p | 0 <= p < cfg.mtu ensures buffers[slot, p] == Splice(buf, start, payload)[p] {
        if start <= p < start + len { assert buffers[slot, start + (p - start)] == payload[p - start]; }
      }
    }

    lemma SlotCount(slot: nat, f: Frame)
      requires Sized() && SlotHolds(slot, f)
      ensures entries[slot].numChunks == |f.chunks|
    {
    }

    /** process_chunk; true where it calls PacketPassInterface_Sender_Send. */
    method ProcessChunk(id: nat, start: nat, len: nat, last: bool, payload: seq<Byte>) returns (res: bool)
      requires Structure() && Inv(cfg, model) && |payload| == len && sending.None?
      modifies this`free, this`used, this`tree, this`model, this`sending, this`sent, entries, spans, buffers
      ensures Structure() && Inv(cfg, model) && (if res then IsSending() else sending.None?)
      ensures (model, if res then Some(InFlight()) else None) ==
                Receive(cfg, old(model), id, Chunk(start, payload, last))
    {
      hide SlotHolds, Linked, Inv, Find, Consistent, Admit, Place;
      ghost var c := Chunk(start, payload, last);
      ReceiveKeepsInv(cfg, model, id, c);
      if start > cfg.mtu || len > cfg.mtu - start {
        return false;
      }
      var slot := FindOrAllocate(id);
      AdmittedFrame(cfg, old(model), id);
      res := PlaceChunk(slot, start, len, last, payload, id, c);
    }

    /** The part of process_chunk after the frame has been found. */
    method PlaceChunk(slot: nat, start: nat, len: nat, last: bool, payload: seq<Byte>, ghost id: nat, ghost c: Chunk)
      returns (res: bool)
      requires sending.None? && Structure() && c == Chunk(start, payload, last) && |payload| == len
      requires c.End() <= cfg.mtu
      requires |used| == |model.used| && Find(model.used, id) < |used| && slot == used[Find(model.used, id)]
      requires var f := model.used[Find(model.used, id)];
               Consistent(f.chunks) && |f.chunks| < cfg.numChunks
      modifies this`free, this`used, this`tree, this`model, this`sending, this`sent, entries, spans, buffers
      ensures Structure() && (if res then IsSending() else sending.None?)
      ensures (model, if res then Some(InFlight()) else None) == Place(cfg, old(model), id, c)
    {
      hide SlotHolds, Linked, Drop, Find, Consistent, Passes, Complete;
      ghost var k := Find(model.used, id);
      ghost var f := model.used[k];
      ChecksDecideConsistency(f.chunks, c);
      var ok := Acceptable(slot, start, len, last, f, c);
      if !ok {
        FreeFrame(slot, k);
        return false;
      }
      AddChunk(slot, start, len, last, payload, k, c);
      ghost var g := Frame(f.id, time, f.chunks + [c]);
      LinkedFacts(cfg.numFrames, model.used, used, free, tree);
      assert SlotHolds(slot, g);
      SlotCount(slot, g);
      SumDecides(slot, g);
      ReplaceDrop(old(model).used, k, g);
      var e := entries[slot];
      if e.length < 0 || e.sum < e.length {
        // an incomplete frame with no room for another chunk is given up
        if e.numChunks == cfg.numChunks {
          FreeFrame(slot, k);
        }
        return false;
      }
      SendFrame(slot, k, g);
      return true;
    }

    /** The end of process_chunk for a complete frame: its slot is freed, and then its buffer is sent. */
    method SendFrame(slot: nat, ghost k: nat, ghost g: Frame)
      requires sending.None? && Structure() && k < |used| && used[k] == slot && |used| == |model.used|
      requires SlotHolds(slot, g) && Complete(g.chunks)
      modifies this`free, this`used, this`tree, this`model, this`sending, this`sent
      ensures Structure() && IsSending() && sent == Content(g.chunks)
      ensures model == old(model).(used := Drop(old(model).used, k))
    {
      hide SlotHolds, Linked, Drop, Complete;
      SlotData(slot, g);
      FreeFrame(slot, k);
      sending := Some(Outgoing(slot, entries[slot].length));
      sent := InFlight();
    }

    /** What the receiver does before it is done with the frame. */
    method ReadInFlight() returns (data: seq<Byte>)
      requires IsSending()
      ensures data == sent
    {
      data := [];
      for i := 0 to sending.value.len
        invariant data == InFlight()[..i]
      {
        data := data + [buffers[sending.value.slot, i]];
      }
    }

    /** The incompleteness test of process_chunk, on the slot's sums, is exact. */
    lemma SumDecides(slot: nat, f: Frame)
      requires Sized() && SlotHolds(slot, f) && Consistent(f.chunks)
      ensures Complete(f.chunks) <==> !(entries[slot].length < 0 || entries[slot].sum < entries[slot].length)
    {
      hide Consistent;
      if HasLast(f.chunks) { SumDecidesCompleteness(f.chunks); }
    }

    lemma SlotData(slot: nat, f: Frame)
      requires Sized() && SlotHolds(slot, f) && Complete(f.chunks)
      ensures slot < entries.Length && 0 <= entries[slot].length <= cfg.mtu
      ensures Buffer(slot)[..entries[slot].length] == Content(f.chunks)
    {
      SlotContent(cfg, entries[slot], Table(slot), Buffer(slot), f);
    }

    /** What the rest of the packet being read will do: its remaining chunks, then a step of the clock. */
    ghost function Remaining(): Outcome
      requires cfg.Valid() && inPos <= |input|
      reads this
    {
      var r := Deliver(cfg, model, Parse(input, inPos));
      r.(asm := Tick(cfg, r.asm))
    }

    /**
     * process_input: reads chunks until one completes a frame, which is sent, or the packet is used up.
     * Then the clock is stepped and the packet is done.
     */
    method ProcessInput()
      requires Reading()
      modifies this`free, this`used, this`tree, this`model, this`time, this`inLen, this`inPos, this`sending, this`sent
      modifies entries, spans, buffers
      ensures Valid()
      ensures inLen >= 0 ==> inPos > old(inPos)
                             && Remaining().asm == old(Remaining()).asm
                             && [sent] + Remaining().frames == old(Remaining()).frames
      ensures inLen < 0 ==> model == old(Remaining()).asm && old(Remaining()).frames == []
    {
      hide SlotHolds, Linked, Inv, Receive, Tick;
      while true
        invariant Reading() && inPos >= old(inPos)
        invariant Remaining() == old(Remaining())
        decreases |input| - inPos
      {
        // a short header, a bad last flag or too few bytes for the chunk end the packet
        var at := ChunkAt(input, inPos);
        if at.None? {
          break;
        }
        inPos := inPos + HEADER;
        var c := at.value.chunk;
        var len := |c.data|;
        var res := ProcessChunk(at.value.id, c.start, len, c.last, c.data);
        inPos := inPos + len;
        if res {
          return;
        }
      }
      StepClock();
      inLen := -1;
    }

    /** The end of process_input: increment the packet time, renormalising at the limit. */
    method StepClock()
      requires Structure() && Inv(cfg, model)
      modifies this`free, this`used, this`tree, this`model, this`time, entries
      ensures Structure() && Inv(cfg, model) && model == Tick(cfg, old(model))
    {
      hide SlotHolds, Linked, Inv, Reduce;
      TickKeepsInv(cfg, model);
      TimeBound(cfg, model);
      if time == MAX_TIME {
        ReduceTimes();
        LinkedFacts(cfg.numFrames, model.used, used, free, tree);
        if used != [] {
          time := time + 1;
        }
      } else {
        time := time + 1;
      }
      model := model.(time := time);
    }

    /** input_handler_send */
    method InputHandlerSend(data: seq<Byte>)
      requires Valid() && inLen == -1
      modifies this, entries, spans, buffers
      ensures Valid()
      ensures var whole := ReadPacket(cfg, old(model), data);
              && (inLen >= 0 ==> Remaining().asm == whole.asm && [sent] + Remaining().frames == whole.frames)
              && (inLen < 0 ==> model == whole.asm && whole.frames == [])
    {
      inLen := |data|;
      input := data;
      inPos := 0;
      ProcessInput();
    }

    /** output_handler_done: the frame has been sent, go on with the packet it was in. */
    method OutputHandlerDone()
      requires Valid() && inLen >= 0
      modifies this`free, this`used, this`tree, this`model, this`time, this`inLen, this`inPos, this`sending, this`sent
      modifies entries, spans, buffers
      ensures Valid()
      ensures inLen >= 0 ==> inPos > old(inPos)
                             && Remaining().asm == old(Remaining()).asm
                             && [sent] + Remaining().frames == old(Remaining()).frames
      ensures inLen < 0 ==> model == old(Remaining()).asm && old(Remaining()).frames == []
    {
      sending := None;
      ProcessInput();
    }
  }

  lemma TimeBound(cfg: Config, a: Asm)
    requires Inv(cfg, a)
    ensures a.time <= MAX_TIME
  {
  }

  /**
   * One packet taken to its end: its frames come out in order, one send at a time, each read from its slot
   * only at the end of its send.
   */
  method ReceivePacket(o: FragmentAssembler, data: seq<Byte>) returns (frames: seq<seq<Byte>>)
    requires o.Valid() && o.inLen == -1
    modifies o, o.entries, o.spans, o.buffers
    ensures o.Valid() && o.inLen == -1
    ensures Outcome(o.model, frames) == ReadPacket(o.cfg, old(o.model), data)
  {
    hide ReadPacket, Deliver, Parse, FragmentAssembler.Structure, FrameInv;
    ghost var whole := ReadPacket(o.cfg, o.model, data);
    frames := [];
    o.InputHandlerSend(data);
    while o.inLen >= 0
      invariant o.Valid()
      invariant o.inLen < 0 ==> o.model == whole.asm && frames == whole.frames
      invariant o.inLen >= 0 ==>
                  o.Remaining().asm == whole.asm && frames + [o.sent] + o.Remaining().frames == whole.frames
      decreases o.inLen >= 0, |o.input| - o.inPos
    {
      var frame := o.ReadInFlight();
      frames := frames + [frame];
      o.OutputHandlerDone();
    }
  }

  lemma AdmitFindsIt(cfg: Config, a: Asm, id: nat)
    requires Inv(cfg, a)
    ensures Find(Admit(cfg, a, id).used, id) < |Admit(cfg, a, id).used|
    ensures var k := Find(a.used, id);
            k < |a.used| ==> Find(Drop(a.used, k), id) == |a.used| - 1
    ensures var k := Find(a.used, id);
            k == |a.used| || TimedOut(cfg, a, a.used[k]) ==>
              Find(Admit(cfg, a, id).used, id) == |Admit(cfg, a, id).used| - 1
  {
    AdmitFinds(cfg, a, id);
    var k := Find(a.used, id);
    if k < |a.used| {
      DropKeeps(a.used, k);
      var d := Drop(a.used, k);
      assert forall i :: 0 <= i < |d| ==> d[i] in d;
      if TimedOut(cfg, a, a.used[k]) {
        AllocateFinds(cfg, a.(used := d), id);
      }
    } else {
      AllocateFinds(cfg, a, id);
    }
  }

  lemma LinkedReplace(n: nat, frames: seq<Frame>, used: seq<nat>, free: seq<nat>, tree: map<nat, nat>, k: nat, f: Frame)
    requires Linked(n, frames, used, free, tree) && k < |used| && f.id == frames[k].id
    ensures Linked(n, frames[k := f], used, free, tree)
  {
    var fs := frames[k := f];
    assert forall i :: 0 <= i < |fs| ==> fs[i].id == frames[i].id;
  }

  lemma AdmittedFrame(cfg: Config, a: Asm, id: nat)
    requires Inv(cfg, a)
    ensures var b := Admit(cfg, a, id);
            var k := Find(b.used, id);
            b.time == a.time && k < |b.used| && b.used[k].id == id && Consistent(b.used[k].chunks) &&
              |b.used[k].chunks| < cfg.numChunks
  {
    AdmitFinds(cfg, a, id);
    var b := Admit(cfg, a, id);
    var f := b.used[Find(b.used, id)];
    if f.chunks != [] { assert FrameInv(cfg, a.time, f); }
  }

  lemma ReplaceDrop(used: seq<Frame>, k: nat, f: Frame)
    requires k < |used|
    ensures Drop(used[k := f], k) == Drop(used, k)
  {
  }

  lemma LiveTimes(cfg: Config, a: Asm)
    requires Inv(cfg, a)
    ensures var live := Live(cfg, a.time, a.used);
            live != [] ==> MinTime(live) <= a.time && forall f :: f in live ==> MinTime(live) <= f.time
  {
    var live := Live(cfg, a.time, a.used);
    LiveMembers(cfg, a.time, a.used);
    if live != [] {
      var m := MinTime(live);
      MinTimeIsLeast(live);
      var f :| f in live && f.time == m;
      assert FrameInv(cfg, a.time, f);
    }
  }

  lemma LiveWalk(cfg: Config, now: nat, all: seq<Frame>, i: nat)
    requires i <= |all|
    ensures Live(cfg, now, all[..0]) == []
    ensures i < |all| ==>
              Live(cfg, now, all[..i + 1])
              == Live(cfg, now, all[..i]) + (if now - all[i].time > cfg.Tolerance() then [] else [all[i]])
  {
    if i < |all| { assert all[..i + 1][..i] == all[..i]; }
  }

  lemma MinTimeStep(used: seq<Frame>, f: Frame)
    ensures MinTime(used + [f]) == if used == [] || f.time < MinTime(used) then f.time else MinTime(used)
  {
    assert (used + [f])[..|used|] == used;
  }

  /** The used list while reduce_times walks it: what was kept so far, then what is still to be visited. */
  function Joined(kept: seq<Frame>, all: seq<Frame>, i: nat): seq<Frame>
    requires i <= |all|
  {
    kept + all[i..]
  }

  lemma JoinedFacts(kept: seq<Frame>, all: seq<Frame>, i: nat)
    requires i <= |all|
    ensures |Joined(kept, all, i)| == |kept| + |all| - i
    ensures kept == [] && i == 0 ==> Joined(kept, all, i) == all
    ensures i == |all| ==> Joined(kept, all, i) == kept
    ensures i < |all| ==> Joined(kept, all, i)[|kept|] == all[i]
    ensures i < |all| ==> Drop(Joined(kept, all, i), |kept|) == Joined(kept, all, i + 1)
    ensures i < |all| ==> Joined(kept, all, i) == Joined(kept + [all[i]], all, i + 1)
  {
  }

  lemma RetimedHolds(cfg: Config, e: Entry, table: seq<Span>, buf: seq<Byte>, f: Frame, t: nat)
    requires Holds(cfg, e, table, buf, f)
    ensures Holds(cfg, e.(time := t), table, buf, f.(time := t))
  {
  }

  lemma LinkedFacts(n: nat, frames: seq<Frame>, used: seq<nat>, free: seq<nat>, tree: map<nat, nat>)
    requires Linked(n, frames, used, free, tree)
    ensures |frames| == |used| && |used| + |free| == n
    ensures DistinctIds(frames) && Indexed(frames, used, tree)
    ensures forall i, j :: 0 <= i < j < |used| ==> used[i] != used[j]
    ensures forall i :: 0 <= i < |used| ==> used[i] < n
  {
    UsedDistinct(n, used, free);
    forall i | 0 <= i < |used| ensures used[i] < n { assert (used + free)[i] == used[i]; }
  }

  lemma UsedDistinct(n: nat, used: seq<nat>, free: seq<nat>)
    requires Pool(n, used, free)
    ensures Distinct(used)
  {
    forall i, j | 0 <= i < j < |used| ensures used[i] != used[j] {
      assert (used + free)[i] == used[i] && (used + free)[j] == used[j];
    }
  }
}
