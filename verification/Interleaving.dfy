/** Frames sent in any interleaving: each comes out exactly once. */
module Interleaving {
  import opened Bytes
  import opened Chunks
  import opened Options
  import opened AssemblerSpec
  import opened PacketParse
  import opened Reassembly

  /** The chunks of frame `id` in a delivery, in the order they come. */
  ghost function PiecesOf(evs: seq<Event>, id: nat): seq<Chunk>
    requires WellFormed(evs)
  {
    if evs == [] then []
    else
      var n := |evs| - 1;
      PiecesOf(evs[..n], id) +
        (if evs[n].Piece? && evs[n].id == id then assert evs[n] in evs; [ChunkOf(evs[n])] else [])
  }

  /** Every piece is a piece of the frame its id stands for. */
  ghost predicate Genuine(frames: map<nat, seq<Byte>>, evs: seq<Event>) {
    forall e :: e in evs && e.Piece? ==> IsCut(e) && e.id in frames && frames[e.id] == e.frame
  }

  /** Every byte of every frame is delivered exactly once, and an empty frame in a single piece. */
  ghost predicate OnceEach(frames: map<nat, seq<Byte>>, evs: seq<Event>)
    requires WellFormed(evs)
  {
    forall id :: id in frames ==> OnceWhole(PiecesOf(evs, id), frames[id])
  }

  ghost predicate OnceWhole(got: seq<Chunk>, frame: seq<Byte>) {
    Apart(got) && Whole(got, frame) && (frame == [] ==> |got| == 1)
  }

  lemma PiecesStep(evs: seq<Event>, i: nat, id: nat)
    requires WellFormed(evs) && i < |evs|
    ensures WellFormed(evs[..i]) && WellFormed(evs[..i + 1]) && evs[i] in evs
    ensures PiecesOf(evs[..i + 1], id)
         == PiecesOf(evs[..i], id) + (if evs[i].Piece? && evs[i].id == id then [ChunkOf(evs[i])] else [])
  {
    assert evs[..i + 1][..i] == evs[..i];
  }

  lemma {:induction false} PiecesPrefix(evs: seq<Event>, i: nat, id: nat)
    requires WellFormed(evs) && i <= |evs|
    ensures WellFormed(evs[..i]) && PiecesOf(evs[..i], id) <= PiecesOf(evs, id)
    decreases |evs| - i
  {
    if i == |evs| {
      assert evs[..i] == evs;
    } else {
      PiecesStep(evs, i, id);
      PiecesPrefix(evs, i + 1, id);
    }
  }

  lemma {:induction false} PiecesAreCuts(frames: map<nat, seq<Byte>>, evs: seq<Event>, id: nat)
    requires WellFormed(evs) && Genuine(frames, evs) && id in frames
    ensures CutFrom(PiecesOf(evs, id), frames[id])
  {
    if evs != [] {
      var n := |evs| - 1;
      assert evs[n] in evs;
      PiecesAreCuts(frames, evs[..n], id);
    }
  }

  /** What is pending is exactly the frames begun and not yet whole, with the pieces that have come. */
  ghost predicate Tracks(frames: map<nat, seq<Byte>>, pre: seq<Event>, p: Pending)
    requires WellFormed(pre)
  {
    forall id :: TracksOne(frames, PiecesOf(pre, id), p, id)
  }

  ghost predicate TracksOne(frames: map<nat, seq<Byte>>, got: seq<Chunk>, p: Pending, id: nat) {
    && (id in p ==> id in frames && p[id].frame == frames[id] && p[id].got == got)
    && (id in frames ==> (id in p <==> got != [] && !Whole(got, frames[id])))
  }

  /** A frame that is already whole cannot get another piece without some byte coming twice. */
  lemma NothingAfterWhole(got: seq<Chunk>, c: Chunk, frame: seq<Byte>)
    requires Whole(got, frame) && CutOf(c, frame) && Apart(got + [c])
    ensures frame == []
  {
    forall i | 0 <= i < |got| ensures !Overlap(got[i], c) {
      assert (got + [c])[i] == got[i] && (got + [c])[|got|] == c;
    }
    InCovered(got);
    assert frame != [] ==> c.start in Covered(got);
  }

  lemma PieceIsNew(frames: map<nat, seq<Byte>>, evs: seq<Event>, i: nat, p: Pending)
    requires WellFormed(evs) && Genuine(frames, evs) && OnceEach(frames, evs)
    requires i < |evs| && evs[i].Piece? && WellFormed(evs[..i]) && Tracks(frames, evs[..i], p)
    ensures Fits(p, evs[i]) && IsCut(evs[i]) && evs[i].id in frames && frames[evs[i].id] == evs[i].frame
    ensures var got := PiecesOf(evs[..i], evs[i].id);
            && !Whole(got, evs[i].frame) && GotSoFar(p, evs[i].id) == got
  {
    hide Whole;
    var e := evs[i];
    assert e in evs;
    assert TracksOne(frames, PiecesOf(evs[..i], e.id), p, e.id);
    PiecesStep(evs, i, e.id);
    PiecesPrefix(evs, i + 1, e.id);
    var got, c, all := PiecesOf(evs[..i], e.id), ChunkOf(e), PiecesOf(evs, e.id);
    assert OnceWhole(all, e.frame);
    assert Apart(got + [c]) by {
      assert forall k :: 0 <= k < |got + [c]| ==> (got + [c])[k] == all[k];
    }
    PieceIsCut(e);
    if Whole(got, e.frame) {
      NothingAfterWhole(got, c, e.frame);
      assert |got + [c]| <= |all|;
      WholeNonEmpty(got, e.frame);
    }
    if e.id in p {
      forall k | 0 <= k < |got| ensures !Overlap(got[k], c) {
        assert (got + [c])[k] == got[k] && (got + [c])[|got|] == c;
      }
    }
  }

  lemma WholeNonEmpty(got: seq<Chunk>, frame: seq<Byte>)
    requires Whole(got, frame)
    ensures got != []
  {
  }

  lemma TracksOneStep(frames: map<nat, seq<Byte>>, got: seq<Chunk>, p: Pending, e: Event, id: nat)
    requires TracksOne(frames, got, p, id)
    requires e.Piece? ==> IsCut(e) && e.id in frames && frames[e.id] == e.frame
    requires e.Piece? && e.id == id ==> GotSoFar(p, id) == got
    ensures TracksOne(frames, got + (if e.Piece? && e.id == id then [ChunkOf(e)] else []), Advance(p, e).0, id)
  {
    hide Whole, ChunkOf, IsCut;
    if e.PacketEnd? || e.id != id { assert got + [] == got; }
  }

  lemma TracksStep(frames: map<nat, seq<Byte>>, evs: seq<Event>, i: nat, p: Pending)
    requires WellFormed(evs) && Genuine(frames, evs) && OnceEach(frames, evs)
    requires i < |evs| && WellFormed(evs[..i]) && Tracks(frames, evs[..i], p)
    ensures WellFormed(evs[..i + 1]) && (evs[i].Piece? ==> IsCut(evs[i]))
    ensures Tracks(frames, evs[..i + 1], Advance(p, evs[i]).0)
  {
    var e := evs[i];
    if e.Piece? { PieceIsNew(frames, evs, i, p); }
    PiecesStep(evs, i, 0);
    var pre', q := evs[..i + 1], Advance(p, e).0;
    forall id ensures TracksOne(frames, PiecesOf(pre', id), q, id) {
      assert TracksOne(frames, PiecesOf(evs[..i], id), p, id);
      PiecesStep(evs, i, id);
      TracksOneStep(frames, PiecesOf(evs[..i], id), p, e, id);
    }
  }

  /** The frames of which some piece is still to come. */
  ghost function Unfinished(frames: map<nat, seq<Byte>>, pre: seq<Event>): set<nat>
    requires WellFormed(pre)
  {
    set id | id in frames && !Whole(PiecesOf(pre, id), frames[id])
  }

  /** The emissions are those frames of `todo`, each exactly once. */
  ghost predicate Lists(frames: map<nat, seq<Byte>>, todo: set<nat>, es: seq<Emission>) {
    && (forall j :: 0 <= j < |es| ==> es[j].id in todo && es[j].id in frames && es[j].frame == frames[es[j].id])
    && (forall j, k :: 0 <= j < k < |es| ==> es[j].id != es[k].id)
    && (forall id :: id in todo ==> exists j :: 0 <= j < |es| && es[j].id == id)
  }

  lemma WellFormedRest(evs: seq<Event>, i: nat)
    requires WellFormed(evs) && i <= |evs|
    ensures WellFormed(evs[i..]) && WellFormed(evs[..i])
  {
  }

  lemma ListsCons(frames: map<nat, seq<Byte>>, todo: set<nat>, es: seq<Emission>, m: Emission)
    requires Lists(frames, todo, es) && m.id !in todo && m.id in frames && m.frame == frames[m.id]
    ensures Lists(frames, todo + {m.id}, [m] + es)
  {
    var all := [m] + es;
    forall id | id in todo + {m.id} ensures exists j :: 0 <= j < |all| && all[j].id == id {
      if id == m.id {
        assert all[0].id == id;
      } else {
        var j :| 0 <= j < |es| && es[j].id == id;
        assert all[j + 1].id == id;
      }
    }
  }

  /** An event finishes the frame it emits, and no other. */
  lemma UnfinishedStep(frames: map<nat, seq<Byte>>, evs: seq<Event>, i: nat, p: Pending)
    requires WellFormed(evs) && Genuine(frames, evs) && OnceEach(frames, evs)
    requires i < |evs| && WellFormed(evs[..i]) && WellFormed(evs[..i + 1]) && Tracks(frames, evs[..i], p)
    requires evs[i].Piece? ==> IsCut(evs[i])
    ensures var out := Advance(p, evs[i]).1;
            var before, after := Unfinished(frames, evs[..i]), Unfinished(frames, evs[..i + 1]);
            if out.None? then before == after
            else before == after + {out.value.id} && out.value.id !in after
                 && out.value.id in frames && out.value.frame == frames[out.value.id]
  {
    hide Whole, Genuine, OnceEach, ChunkOf, IsCut, PiecesOf, Tracks;
    var e := evs[i];
    if e.Piece? { PieceIsNew(frames, evs, i, p); }
    forall id
      ensures PiecesOf(evs[..i + 1], id)
           == if e.Piece? && e.id == id then PiecesOf(evs[..i], id) + [ChunkOf(e)] else PiecesOf(evs[..i], id)
    {
      PiecesStep(evs, i, id);
    }
  }

  lemma {:induction false} IdealEmitsRest(frames: map<nat, seq<Byte>>, evs: seq<Event>, i: nat, p: Pending)
    requires WellFormed(evs) && Genuine(frames, evs) && OnceEach(frames, evs)
    requires i <= |evs| && WellFormed(evs[..i]) && Tracks(frames, evs[..i], p)
    ensures WellFormed(evs[i..]) && FitsAll(p, evs[i..])
    ensures Lists(frames, Unfinished(frames, evs[..i]), Ideal(p, evs[i..]).emitted)
    decreases |evs| - i
  {
    WellFormedRest(evs, i);
    if i == |evs| {
      assert evs[..i] == evs;
    } else {
      hide WellFormed, Tracks, Genuine, OnceEach, Lists, Unfinished, Advance, Ideal, FitsAll, IsCut;
      TracksStep(frames, evs, i, p);
      IdealEmitsRest(frames, evs, i + 1, Advance(p, evs[i]).0);
      RestStep(frames, evs, i, p);
    }
  }

  lemma RestStep(frames: map<nat, seq<Byte>>, evs: seq<Event>, i: nat, p: Pending)
    requires WellFormed(evs) && Genuine(frames, evs) && OnceEach(frames, evs)
    requires i < |evs| && WellFormed(evs[..i]) && WellFormed(evs[..i + 1]) && Tracks(frames, evs[..i], p)
    requires WellFormed(evs[i..]) && WellFormed(evs[i + 1..]) && (evs[i].Piece? ==> IsCut(evs[i]))
    requires var q := Advance(p, evs[i]).0;
             FitsAll(q, evs[i + 1..]) && Lists(frames, Unfinished(frames, evs[..i + 1]), Ideal(q, evs[i + 1..]).emitted)
    ensures FitsAll(p, evs[i..]) && Lists(frames, Unfinished(frames, evs[..i]), Ideal(p, evs[i..]).emitted)
  {
    hide WellFormed, Tracks, Genuine, OnceEach, Lists, Unfinished, Advance, Fits, Ideal, FitsAll, IsCut;
    IdealUnfold(evs, i, p);
    StepFits(frames, evs, i, p);
    UnfinishedStep(frames, evs, i, p);
    var (q, out) := Advance(p, evs[i]);
    var rest := Ideal(q, evs[i + 1..]).emitted;
    if out.Some? {
      ListsCons(frames, Unfinished(frames, evs[..i + 1]), rest, out.value);
    } else {
      assert [] + rest == rest;
    }
  }

  lemma IdealUnfold(evs: seq<Event>, i: nat, p: Pending)
    requires i < |evs| && WellFormed(evs[i..]) && WellFormed(evs[i + 1..])
    ensures evs[i].Piece? ==> IsCut(evs[i])
    ensures Ideal(p, evs[i..]).emitted
         == (if Advance(p, evs[i]).1.Some? then [Advance(p, evs[i]).1.value] else [])
            + Ideal(Advance(p, evs[i]).0, evs[i + 1..]).emitted
    ensures FitsAll(p, evs[i..]) <==> Fits(p, evs[i]) && FitsAll(Advance(p, evs[i]).0, evs[i + 1..])
  {
    assert evs[i..][0] == evs[i] && evs[i] in evs[i..] && evs[i..][1..] == evs[i + 1..];
  }

  lemma StepFits(frames: map<nat, seq<Byte>>, evs: seq<Event>, i: nat, p: Pending)
    requires WellFormed(evs) && Genuine(frames, evs) && OnceEach(frames, evs)
    requires i < |evs| && WellFormed(evs[..i]) && Tracks(frames, evs[..i], p)
    ensures Fits(p, evs[i])
  {
    if evs[i].Piece? { PieceIsNew(frames, evs, i, p); }
  }

  /** `out` lists every frame exactly once, in the order of `ids`. */
  ghost predicate EachOnce(frames: map<nat, seq<Byte>>, ids: seq<nat>, out: seq<seq<Byte>>) {
    && |ids| == |out|
    && (forall j, k :: 0 <= j < k < |ids| ==> ids[j] != ids[k])
    && (forall id :: id in frames <==> id in ids)
    && (forall j :: 0 <= j < |ids| && ids[j] in frames ==> out[j] == frames[ids[j]])
  }

  /**
   * Fragment round trip under interleaving. Cut any frames with distinct ids into pieces, so that every
   * byte is delivered once, shuffle the pieces in any way and put packet ends anywhere. As long as the
   * delivery stays in bounds (never more than num_frames frames begun and unfinished, no frame left
   * waiting for more than time_tolerance packets, no more than num_chunks pieces a frame), a fresh
   * assembler emits every frame exactly once, byte for byte, and nothing else.
   */
  lemma InterleavedRoundTrip(cfg: Config, frames: map<nat, seq<Byte>>, evs: seq<Event>)
    requires cfg.Valid() && WellFormed(evs)
    requires Genuine(frames, evs) && OnceEach(frames, evs) && InBoundsAll(cfg, map[], evs)
    ensures exists ids :: EachOnce(frames, ids, Run(cfg, Fresh, evs).frames)
  {
    var none: Pending := map[];
    assert evs[0..] == evs && evs[..0] == [];
    assert Tracks(frames, evs[..0], none);
    IdealEmitsRest(frames, evs, 0, none);
    AssemblerIsIdeal(cfg, Fresh, none, evs);
    IdsOf(frames, evs[..0], Ideal(none, evs).emitted);
  }

  lemma IdsOf(frames: map<nat, seq<Byte>>, pre: seq<Event>, es: seq<Emission>)
    requires pre == [] && Lists(frames, Unfinished(frames, pre), es)
    ensures exists ids :: EachOnce(frames, ids, Payloads(es))
  {
    hide Whole;
    NothingIsNotWhole(frames);
    var ids := seq(|es|, i requires 0 <= i < |es| => es[i].id);
    forall id | id in frames ensures id in ids {
      assert PiecesOf(pre, id) == [] && id in Unfinished(frames, pre);
      var j :| 0 <= j < |es| && es[j].id == id;
      assert ids[j] == id;
    }
    assert EachOnce(frames, ids, Payloads(es));
  }

  lemma NothingIsNotWhole(frames: map<nat, seq<Byte>>)
    ensures forall id :: id in frames ==> !Whole([], frames[id])
  {
  }
}
