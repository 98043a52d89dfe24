/**
 * Reassembly of interleaved frames. An ideal receiver remembers every piece for ever and in any number
 * of frames; the assembler, with its pool, its clock and its chunk tables, is shown to emit the same
 * frames for every delivery that stays within its bounds.
 */
module Reassembly {
  import opened Bytes
  import opened Chunks
  import opened Options
  import opened AssemblerSpec
  import opened PacketParse

  /** What a delivery is made of: pieces of the senders' frames, and the ends of carrier packets. */
  datatype Event = Piece(id: nat, frame: seq<Byte>, start: nat, len: nat) | PacketEnd

  predicate IsCut(e: Event) {
    e.Piece? && e.start + e.len <= |e.frame| && (e.len == 0 ==> |e.frame| == 0)
  }

  function ChunkOf(e: Event): Chunk
    requires IsCut(e)
  {
    Chunk(e.start, e.frame[e.start..e.start + e.len], e.start + e.len == |e.frame|)
  }

  /** A frame of which some but not all pieces have come; age counts the packets since the last of them. */
  datatype Progress = Progress(frame: seq<Byte>, got: seq<Chunk>, age: nat)

  type Pending = map<nat, Progress>

  datatype Emission = Emission(id: nat, frame: seq<Byte>)

  ghost predicate Whole(got: seq<Chunk>, frame: seq<Byte>) {
    got != [] && Covered(got) == Range(0, |frame|)
  }

  ghost function GotSoFar(p: Pending, id: nat): seq<Chunk> {
    if id in p then p[id].got else []
  }

  /** The ideal receiver. */
  ghost function Advance(p: Pending, e: Event): (Pending, Option<Emission>)
    requires e.Piece? ==> IsCut(e)
  {
    if e.PacketEnd? then (map id | id in p :: p[id].(age := p[id].age + 1), None)
    else
      var got := GotSoFar(p, e.id) + [ChunkOf(e)];
      if Whole(got, e.frame) then (p - {e.id}, Some(Emission(e.id, e.frame)))
      else (p[e.id := Progress(e.frame, got, 0)], None)
  }

  /** The piece belongs with those already pending under its id: same frame, no byte twice. */
  ghost predicate Fits(p: Pending, e: Event) {
    e.Piece? ==>
      && IsCut(e)
      && (e.id in p ==>
            && p[e.id].frame == e.frame
            && forall i :: 0 <= i < |p[e.id].got| ==> !Overlap(p[e.id].got[i], ChunkOf(e)))
  }

  /** The assembler has room and time for the piece. */
  ghost predicate InBounds(cfg: Config, p: Pending, e: Event)
    requires e.Piece? ==> IsCut(e)
  {
    e.Piece? ==>
      && |e.frame| <= cfg.mtu
      && (if e.id in p then p[e.id].age <= cfg.Tolerance() else |p| < cfg.numFrames)
      && (|GotSoFar(p, e.id)| + 1 < cfg.numChunks
          || (|GotSoFar(p, e.id)| + 1 == cfg.numChunks && Advance(p, e).1.Some?))
  }

  ghost predicate PendingInv(p: Pending) {
    forall id :: id in p ==>
      p[id].got != [] && CutFrom(p[id].got, p[id].frame) && Apart(p[id].got) && !Whole(p[id].got, p[id].frame)
  }

  lemma PieceIsCut(e: Event)
    requires IsCut(e)
    ensures CutOf(ChunkOf(e), e.frame)
  {
  }

  /** An empty frame is whole with its first piece, so it is never pending. */
  lemma EmptyIsWhole(got: seq<Chunk>)
    requires got != [] && CutFrom(got, [])
    ensures Whole(got, [])
  {
    assert forall i :: 0 <= i < |got| ==> CutOf(got[i], []);
    InCovered(got);
    assert Covered(got) == Range(0, 0);
  }

  lemma ExtendCuts(old': seq<Chunk>, c: Chunk, frame: seq<Byte>)
    requires CutFrom(old', frame) && Apart(old') && CutOf(c, frame)
    requires forall i :: 0 <= i < |old'| ==> !Overlap(old'[i], c)
    ensures CutFrom(old' + [c], frame) && Apart(old' + [c])
  {
    hide CutOf, Overlap;
    var got := old' + [c];
    assert forall i :: 0 <= i < |old'| ==> got[i] == old'[i];
    forall i | 0 <= i < |got| ensures CutOf(got[i], frame) {
      if i < |old'| { assert CutOf(old'[i], frame); }
    }
  }

  lemma PieceExtends(p: Pending, e: Event)
    requires PendingInv(p) && e.Piece? && Fits(p, e)
    ensures var got := GotSoFar(p, e.id) + [ChunkOf(e)];
            CutFrom(got, e.frame) && Apart(got) && (|e.frame| > 0 || |got| == 1)
  {
    hide Whole, Apart, CutFrom;
    PieceIsCut(e);
    var old' := GotSoFar(p, e.id);
    if e.id in p && e.frame == [] { EmptyIsWhole(old'); }
    NoCuts(e.frame);
    ExtendCuts(old', ChunkOf(e), e.frame);
  }

  lemma NoCuts(frame: seq<Byte>)
    ensures CutFrom([], frame) && Apart([])
  {
  }

  lemma AdvanceKeepsInv(p: Pending, e: Event)
    requires PendingInv(p) && Fits(p, e)
    ensures PendingInv(Advance(p, e).0)
  {
    hide Whole, Apart, CutFrom;
    if e.Piece? { PieceExtends(p, e); }
  }

  /**
   * The assembler's frames are the pending ones, with the same chunks and ages; only frames past the tolerance
   * may be missing.
   */
  ghost predicate Mirrors(cfg: Config, a: Asm, p: Pending) {
    && (forall f :: f in a.used ==> f.id in p && f.chunks == p[f.id].got && a.time - f.time == p[f.id].age)
    && (forall id :: id in p && p[id].age <= cfg.Tolerance() ==> Lookup(a.used, id).Some?)
  }

  lemma {:induction false} DistinctBound(used: seq<Frame>, ids: set<nat>)
    requires DistinctIds(used) && forall f :: f in used ==> f.id in ids
    ensures |used| <= |ids|
    decreases |used|
  {
    if used != [] {
      var n := |used| - 1;
      assert used[n] in used;
      forall f | f in used[..n] ensures f.id in ids - {used[n].id} {
        var i :| 0 <= i < n && used[i] == f;
      }
      DistinctBound(used[..n], ids - {used[n].id});
    }
  }

  lemma TickMirrors(cfg: Config, a: Asm, p: Pending)
    requires Inv(cfg, a) && Mirrors(cfg, a, p)
    ensures Mirrors(cfg, Tick(cfg, a), Advance(p, PacketEnd).0)
  {
    hide Tick, FrameInv, Find;
    var b := Tick(cfg, a);
    TickKeepsInv(cfg, a);
    var q := Advance(p, PacketEnd).0;
    forall f | f in b.used ensures f.id in q && f.chunks == q[f.id].got && b.time - f.time == q[f.id].age {
      TickAgesByOne(cfg, a, f.id);
      LookupIn(b.used, f);
      var g := Lookup(a.used, f.id).value;
      assert g in a.used;
    }
    forall id | id in q && q[id].age <= cfg.Tolerance() ensures Lookup(b.used, id).Some? {
      TickAgesByOne(cfg, a, id);
      var g := Lookup(a.used, id).value;
      assert g in a.used && g.id == id;
    }
  }

  /** Admission when the ideal receiver has the id pending in time, or not pending at all. */
  lemma AdmitMirrors(cfg: Config, a: Asm, p: Pending, id: nat)
    requires Inv(cfg, a) && Mirrors(cfg, a, p)
    requires if id in p then p[id].age <= cfg.Tolerance() else |p| < cfg.numFrames
    ensures var b := Admit(cfg, a, id);
            var k := Find(b.used, id);
            && b.time == a.time && DistinctIds(b.used) && k < |b.used|
            && b.used[k].id == id && b.used[k].chunks == GotSoFar(p, id)
            && (forall f :: f in b.used && f.id != id ==> f in a.used)
            && (forall f :: f in a.used && f.id != id ==> f in b.used)
  {
    var k := Find(a.used, id);
    if id in p {
      assert Lookup(a.used, id).Some?;
      assert a.used[k] in a.used;
    } else {
      assert forall i :: 0 <= i < |a.used| ==> a.used[i] in a.used;
      DistinctBound(a.used, p.Keys);
      AllocateFinds(cfg, a, id);
      var b := Admit(cfg, a, id);
      assert b.used == a.used + [Frame(id, a.time, [])];
    }
  }

  lemma PlaceDropMirrors(cfg: Config, a: Asm, b: Asm, p: Pending, id: nat)
    requires Mirrors(cfg, a, p) && b.time == a.time && DistinctIds(b.used) && Find(b.used, id) < |b.used|
    requires forall f :: f in b.used && f.id != id ==> f in a.used
    requires forall f :: f in a.used && f.id != id ==> f in b.used
    ensures Mirrors(cfg, b.(used := Drop(b.used, Find(b.used, id))), p - {id})
  {
    var k := Find(b.used, id);
    DropKeeps(b.used, k);
    var d := Drop(b.used, k);
    forall i | i in p - {id} && (p - {id})[i].age <= cfg.Tolerance() ensures Lookup(d, i).Some? {
      var f := Lookup(a.used, i).value;
      assert f in d;
    }
  }

  lemma PlaceUpdateMirrors(cfg: Config, a: Asm, b: Asm, p: Pending, id: nat, q: Progress)
    requires Mirrors(cfg, a, p) && b.time == a.time && DistinctIds(b.used) && Find(b.used, id) < |b.used| && q.age == 0
    requires forall f :: f in b.used && f.id != id ==> f in a.used
    requires forall f :: f in a.used && f.id != id ==> f in b.used
    ensures Mirrors(cfg, b.(used := b.used[Find(b.used, id) := Frame(id, b.time, q.got)]), p[id := q])
  {
    var k := Find(b.used, id);
    var u := b.used[k := Frame(id, b.time, q.got)];
    assert u[k] in u;
    assert forall i :: 0 <= i < |u| && i != k ==> u[i] == b.used[i] && u[i].id != id;
    forall i | i in p[id := q] && p[id := q][i].age <= cfg.Tolerance() ensures Lookup(u, i).Some? {
      if i != id {
        var f := Lookup(a.used, i).value;
        var j :| 0 <= j < |b.used| && b.used[j] == f;
        assert u[j] in u;
      }
    }
  }

  /** One piece: the assembler and the ideal receiver stay in step and complete the same frame. */
  lemma PieceMirrors(cfg: Config, a: Asm, p: Pending, e: Event)
    requires Inv(cfg, a) && PendingInv(p) && Mirrors(cfg, a, p)
    requires e.Piece? && Fits(p, e) && InBounds(cfg, p, e)
    ensures var (a', out) := Receive(cfg, a, e.id, ChunkOf(e));
            var (p', emitted) := Advance(p, e);
            && Mirrors(cfg, a', p')
            && out == if emitted.Some? then Some(emitted.value.frame) else None
  {
    hide Mirrors, Apart, Consistent, CutFrom, Admit, Whole, Complete, Find, Drop, FrameInv, PendingInv;
    var c := ChunkOf(e);
    AdmitMirrors(cfg, a, p, e.id);
    var b := Admit(cfg, a, e.id);
    var got := GotSoFar(p, e.id) + [c];
    PieceCompletes(p, e);
    if Whole(got, e.frame) {
      PlaceDropMirrors(cfg, a, b, p, e.id);
    } else {
      PlaceUpdateMirrors(cfg, a, b, p, e.id, Progress(e.frame, got, 0));
    }
  }

  lemma PieceCompletes(p: Pending, e: Event)
    requires PendingInv(p) && e.Piece? && Fits(p, e)
    ensures var got := GotSoFar(p, e.id) + [ChunkOf(e)];
            && Consistent(got) && (Complete(got) <==> Whole(got, e.frame))
            && (Complete(got) ==> Content(got) == e.frame)
  {
    hide Apart, Consistent, CutFrom, Complete, PendingInv;
    PieceExtends(p, e);
    var got := GotSoFar(p, e.id) + [ChunkOf(e)];
    CutsAreConsistent(got, e.frame);
    CutsComplete(got, e.frame);
  }

  /** One event at the assembler: a chunk, or the end of a packet. */
  ghost function Step(cfg: Config, a: Asm, e: Event): (Asm, Option<seq<Byte>>)
    requires cfg.Valid() && (e.Piece? ==> IsCut(e))
  {
    if e.PacketEnd? then (Tick(cfg, a), None) else Receive(cfg, a, e.id, ChunkOf(e))
  }

  lemma StepMirrors(cfg: Config, a: Asm, p: Pending, e: Event)
    requires Inv(cfg, a) && PendingInv(p) && Mirrors(cfg, a, p)
    requires Fits(p, e) && InBounds(cfg, p, e)
    ensures var (a', out) := Step(cfg, a, e);
            var (p', emitted) := Advance(p, e);
            && Inv(cfg, a') && PendingInv(p') && Mirrors(cfg, a', p')
            && out == if emitted.Some? then Some(emitted.value.frame) else None
  {
    hide Mirrors, FrameInv, PendingInv, Receive, Tick, InBounds, ChunkOf;
    AdvanceKeepsInv(p, e);
    if e.PacketEnd? {
      TickMirrors(cfg, a, p);
      TickKeepsInv(cfg, a);
    } else {
      hide Advance;
      PieceMirrors(cfg, a, p, e);
      ReceiveKeepsInv(cfg, a, e.id, ChunkOf(e));
    }
  }

  // ----- whole deliveries -----

  ghost predicate WellFormed(evs: seq<Event>) {
    forall e :: e in evs && e.Piece? ==> IsCut(e)
  }

  /** The delivery through the assembler. */
  ghost function Run(cfg: Config, a: Asm, evs: seq<Event>): Outcome
    requires cfg.Valid() && WellFormed(evs)
    decreases |evs|
  {
    if evs == [] then Outcome(a, [])
    else
      var (b, out) := Step(cfg, a, evs[0]);
      var r := Run(cfg, b, evs[1..]);
      r.(frames := (if out.Some? then [out.value] else []) + r.frames)
  }

  datatype IdealOutcome = IdealOutcome(pending: Pending, emitted: seq<Emission>)

  ghost function Ideal(p: Pending, evs: seq<Event>): IdealOutcome
    requires WellFormed(evs)
    decreases |evs|
  {
    if evs == [] then IdealOutcome(p, [])
    else
      var (q, out) := Advance(p, evs[0]);
      var r := Ideal(q, evs[1..]);
      r.(emitted := (if out.Some? then [out.value] else []) + r.emitted)
  }

  ghost predicate FitsAll(p: Pending, evs: seq<Event>)
    requires WellFormed(evs)
    decreases |evs|
  {
    evs == [] || (Fits(p, evs[0]) && FitsAll(Advance(p, evs[0]).0, evs[1..]))
  }

  ghost predicate InBoundsAll(cfg: Config, p: Pending, evs: seq<Event>)
    requires WellFormed(evs)
    decreases |evs|
  {
    evs == [] || (InBounds(cfg, p, evs[0]) && InBoundsAll(cfg, Advance(p, evs[0]).0, evs[1..]))
  }

  function Payloads(es: seq<Emission>): (r: seq<seq<Byte>>)
    ensures |r| == |es| && forall i :: 0 <= i < |r| ==> r[i] == es[i].frame
  {
    seq(|es|, i requires 0 <= i < |es| => es[i].frame)
  }

  /**
   * The assembler refines the ideal receiver. For any delivery of pieces that fit and stay in bounds,
   * with packet ends anywhere, over any number of packets, clock renormalisations included, it emits
   * the frames the ideal receiver emits, in the same order, byte for byte.
   */
  lemma {:induction false} AssemblerIsIdeal(cfg: Config, a: Asm, p: Pending, evs: seq<Event>)
    requires Inv(cfg, a) && PendingInv(p) && Mirrors(cfg, a, p)
    requires WellFormed(evs) && FitsAll(p, evs) && InBoundsAll(cfg, p, evs)
    ensures Run(cfg, a, evs).frames == Payloads(Ideal(p, evs).emitted)
    ensures Mirrors(cfg, Run(cfg, a, evs).asm, Ideal(p, evs).pending)
    decreases |evs|
  {
    hide Mirrors, FrameInv, DistinctIds, PendingInv, Advance, Step, Fits, InBounds;
    if evs != [] {
      StepMirrors(cfg, a, p, evs[0]);
      AssemblerIsIdeal(cfg, Step(cfg, a, evs[0]).0, Advance(p, evs[0]).0, evs[1..]);
    }
  }
}
