/**
 * Cancelling a half-written frame does not advance the frame id, so the next frame goes out under an id
 * the receiver may still hold pieces for. Exactly then it is lost.
 */
module CancelLoss {
  import opened Bytes
  import opened Chunks
  import opened Options
  import opened AssemblerSpec
  import opened PacketParse
  import opened Reassembly
  import opened SenderSpec

  // ----- what an entry can still become, when the bytes of `frame` from `used` on are still to come -----

  /** It holds the beginning of the frame. */
  ghost predicate Front(cs: seq<Chunk>, frame: seq<Byte>, used: nat) {
    && 0 < used < |frame| && cs != []
    && CutFrom(cs, frame) && Covered(cs) == Range(0, used)
  }

  /**
   * It can never be completed: its first byte is missing for good, or some byte still to come is already there,
   * or what comes is refused.
   */
  ghost predicate Doomed(cfg: Config, cs: seq<Chunk>, used: nat) {
    && !HasLast(cs) && Covered(cs) != {}
    && (0 !in Covered(cs) || (exists p :: p in Covered(cs) && p >= used) || used > cfg.mtu)
  }

  ghost predicate Good(cs: seq<Chunk>, frame: seq<Byte>, used: nat) {
    (cs == [] && used == 0) || Front(cs, frame, used)
  }

  ghost predicate Bad(cfg: Config, cs: seq<Chunk>, used: nat) {
    (cs == [] && used > 0) || Doomed(cfg, cs, used)
  }

  lemma FrontStep(cs: seq<Chunk>, e: Event)
    requires IsCut(e) && Apart(cs) && Good(cs, e.frame, e.start)
    ensures var got := cs + [ChunkOf(e)];
            && Consistent(got)
            && (Complete(got) <==> e.start + e.len == |e.frame|)
            && (Complete(got) ==> Content(got) == e.frame)
            && (!Complete(got) ==> Front(got, e.frame, e.start + e.len))
  {
    var got := cs + [ChunkOf(e)];
    GrownFront(cs, e);
    CutLength(e);
    hide Apart, Consistent, Complete, CutFrom, Covered, Range, Good, IsCut;
    CutsAreConsistent(got, e.frame);
    CutsComplete(got, e.frame);
    RangeInjective(e.start + e.len, |e.frame|);
  }

  lemma CutLength(e: Event)
    requires IsCut(e)
    ensures e.start + e.len <= |e.frame| && (|e.frame| > 0 ==> e.start + e.len > 0)
  {
  }

  lemma GrownFront(cs: seq<Chunk>, e: Event)
    requires IsCut(e) && Apart(cs) && Good(cs, e.frame, e.start)
    ensures var got := cs + [ChunkOf(e)];
            && CutFrom(got, e.frame) && Apart(got) && Covered(got) == Range(0, e.start + e.len)
            && (|e.frame| > 0 || |got| <= 1)
  {
    hide Apart, CutFrom, Covered, Range;
    var c := ChunkOf(e);
    FrontApart(cs, e);
    PieceIsCut(e);
    NoCuts(e.frame);
    ExtendCuts(cs, c, e.frame);
    CoveredStep(cs, c);
    ChunkSpan(e);
    NothingCovered();
    NoRange();
    RangeUnion(e.start, e.start + e.len);
  }

  lemma NoRange()
    ensures Range(0, 0) == {}
  {
  }

  lemma NothingCovered()
    ensures Covered([]) == {}
  {
  }

  lemma FrontApart(cs: seq<Chunk>, e: Event)
    requires IsCut(e) && Good(cs, e.frame, e.start)
    ensures forall i :: 0 <= i < |cs| ==> !Overlap(cs[i], ChunkOf(e))
  {
    InCovered(cs);
    forall i | 0 <= i < |cs| ensures !Overlap(cs[i], ChunkOf(e)) {
      assert CutOf(cs[i], e.frame);
      if |cs[i].data| > 0 {
        assert cs[i].Writes(cs[i].End() - 1);
        assert cs[i].End() - 1 in Covered(cs);
      }
    }
  }

  lemma DoomedStep(cfg: Config, cs: seq<Chunk>, e: Event)
    requires IsCut(e) && Doomed(cfg, cs, e.start) && e.start + e.len <= cfg.mtu
    ensures var got := cs + [ChunkOf(e)];
            Consistent(got) ==> !Complete(got) && (!ChunkOf(e).last ==> Doomed(cfg, got, e.start + e.len))
  {
    var c := ChunkOf(e);
    var got := cs + [c];
    CoveredStep(cs, c);
    InCovered(cs);
    if Consistent(got) {
      if exists p :: p in Covered(cs) && p >= e.start {
        var p :| p in Covered(cs) && p >= e.start;
        var i :| 0 <= i < |cs| && cs[i].Writes(p);
        assert got[i] == cs[i] && got[|cs|] == c;
        assert !Overlap(got[i], got[|cs|]);
        assert p >= c.End() && !c.last;
        NoLastAppend(cs, c);
        assert p in Covered(got);
      } else {
        HeadlessStep(cfg, cs, c);
      }
    }
  }

  lemma NoLastAppend(cs: seq<Chunk>, c: Chunk)
    requires !HasLast(cs) && !c.last
    ensures !HasLast(cs + [c])
  {
  }

  lemma HeadlessStep(cfg: Config, cs: seq<Chunk>, c: Chunk)
    requires !HasLast(cs) && 0 !in Covered(cs) && c.start > 0 && (Covered(cs) != {} || |c.data| > 0)
    ensures var got := cs + [c]; !Complete(got) && (!c.last ==> Doomed(cfg, got, c.End()))
  {
    var got := cs + [c];
    CoveredStep(cs, c);
    assert c.start in Range(c.start, c.End()) || Covered(cs) != {};
    SomethingCovered(got);
    if !c.last { NoLastAppend(cs, c); }
  }

  lemma SomethingCovered(cs: seq<Chunk>)
    ensures Covered(cs) != {} ==> Reach(cs) > 0
  {
    InCovered(cs);
    if Covered(cs) != {} {
      var p :| p in Covered(cs);
      var i :| 0 <= i < |cs| && cs[i].Writes(p);
    }
  }

  // ----- one piece at the receiver, as far as its own id goes -----

  lemma ReceiveStored(cfg: Config, a: Asm, id: nat, c: Chunk)
    requires Inv(cfg, a) && c.End() <= cfg.mtu
    ensures var (b, out) := Receive(cfg, a, id, c);
            var cs := Stored(cfg, a, id) + [c];
            && out == (if Consistent(cs) && Complete(cs) then Some(Content(cs)) else None)
            && Lookup(b.used, id) ==
                 (if Consistent(cs) && !Complete(cs) && |cs| != cfg.numChunks
                   then Some(Frame(id, a.time, cs)) else None)
            && b.time == a.time
  {
    hide Consistent, Complete, Content, FrameInv;
    AdmitFinds(cfg, a, id);
    AdmitStored(cfg, a, id);
    var m := Admit(cfg, a, id);
    var k := Find(m.used, id);
    DropKeeps(m.used, k);
    var b := Receive(cfg, a, id, c).0;
    if b.used != Drop(m.used, k) { FindIs(b.used, k); }
  }

  lemma StoredFacts(cfg: Config, a: Asm, id: nat)
    requires Inv(cfg, a)
    ensures Apart(Stored(cfg, a, id)) && |Stored(cfg, a, id)| < cfg.numChunks
    ensures Lookup(a.used, id).None? ==> Stored(cfg, a, id) == []
  {
    var f := Lookup(a.used, id);
    if f.Some? { assert FrameInv(cfg, a.time, f.value); }
  }

  /** What one piece of a frame does to the entry of its id, the receiver holding a good or a bad entry. */
  lemma OwnStep(cfg: Config, a: Asm, e: Event)
    requires Inv(cfg, a) && IsCut(e)
    requires var cs := Stored(cfg, a, e.id); Good(cs, e.frame, e.start) || Bad(cfg, cs, e.start)
    ensures var (b, out) := Receive(cfg, a, e.id, ChunkOf(e));
            var (cs, ds) := (Stored(cfg, a, e.id), Stored(cfg, b, e.id));
            var next := e.start + e.len;
            && (out.Some? ==> next == |e.frame| && out.value == e.frame && Good(cs, e.frame, e.start))
            && (next < |e.frame| ==> Good(ds, e.frame, next) || Bad(cfg, ds, next))
            && (Bad(cfg, cs, e.start) ==> out == None && (next < |e.frame| ==> Bad(cfg, ds, next)))
            && (Good(cs, e.frame, e.start) && |e.frame| <= cfg.mtu ==>
                  if next == |e.frame| then out == Some(e.frame)
                  else |cs| + 1 < cfg.numChunks ==>
                    ds == cs + [ChunkOf(e)] && Lookup(b.used, e.id) == Some(Frame(e.id, a.time, ds)))
  {
    hide Consistent, Complete, Front, Doomed, Apart, FrameInv, Covered;
    var c := ChunkOf(e);
    var cs := Stored(cfg, a, e.id);
    StoredFacts(cfg, a, e.id);
    ChunkSpan(e);
    if c.End() > cfg.mtu {
      TooLong(cfg, cs, e);
    } else {
      ReceiveStored(cfg, a, e.id, c);
      if Good(cs, e.frame, e.start) { FrontStep(cs, e); }
      if Bad(cfg, cs, e.start) { BadStep(cfg, cs, e); }
    }
  }

  lemma TooLong(cfg: Config, cs: seq<Chunk>, e: Event)
    requires IsCut(e) && (Good(cs, e.frame, e.start) || Bad(cfg, cs, e.start)) && e.start + e.len > cfg.mtu
    ensures e.start + e.len < |e.frame| ==> Bad(cfg, cs, e.start + e.len)
  {
    if Front(cs, e.frame, e.start) {
      CutsLastReach(cs, e.frame, e.start);
      assert 0 in Covered(cs);
    }
  }

  /** A part of a frame that stops short of its end has no chunk flagged last. */
  lemma CutsLastReach(cs: seq<Chunk>, frame: seq<Byte>, used: nat)
    requires Front(cs, frame, used)
    ensures !HasLast(cs)
  {
    InCovered(cs);
    forall i | 0 <= i < |cs| ensures !cs[i].last {
      assert CutOf(cs[i], frame);
      assert |cs[i].data| > 0 ==> cs[i].Writes(cs[i].End() - 1);
      assert |cs[i].data| > 0 ==> cs[i].End() - 1 in Covered(cs);
    }
  }

  lemma BadStep(cfg: Config, cs: seq<Chunk>, e: Event)
    requires IsCut(e) && Bad(cfg, cs, e.start) && e.start + e.len <= cfg.mtu
    ensures var got := cs + [ChunkOf(e)];
            && (|e.frame| > 0 ==> e.start + e.len > 0)
            && (Consistent(got) ==> !Complete(got) && (!ChunkOf(e).last ==> Doomed(cfg, got, e.start + e.len)))
  {
    ChunkSpan(e);
    if cs == [] {
      NothingCovered();
      HeadlessStep(cfg, cs, ChunkOf(e));
    } else {
      DoomedStep(cfg, cs, e);
    }
  }

  // ----- the frame that comes next under an id -----

  /**
   * A delivery of one frame from offset `used` to its end: its pieces in order, and packet ends anywhere between
   * them.
   */
  ghost predicate Tiling(id: nat, g: seq<Byte>, used: nat, evs: seq<Event>)
    decreases |evs|
  {
    && evs != []
    && if evs[0].PacketEnd? then Tiling(id, g, used, evs[1..])
       else
         && evs[0] == Piece(id, g, used, evs[0].len) && IsCut(evs[0])
         && if used + evs[0].len == |g| then evs[1..] == [] else Tiling(id, g, used + evs[0].len, evs[1..])
  }

  /** The receiver has chunks and time for it: `pieces` came already, `age` packets ended since the last of them. */
  ghost predicate Timely(cfg: Config, pieces: nat, age: nat, evs: seq<Event>)
    decreases |evs|
  {
    evs != [] ==>
      if evs[0].PacketEnd? then (pieces > 0 ==> age < cfg.Tolerance()) && Timely(cfg, pieces, age + 1, evs[1..])
      else (evs[1..] != [] ==> pieces + 1 < cfg.numChunks) && Timely(cfg, pieces + 1, 0, evs[1..])
  }

  lemma {:induction false} TilingWellFormed(id: nat, g: seq<Byte>, used: nat, evs: seq<Event>)
    requires Tiling(id, g, used, evs)
    ensures WellFormed(evs)
    decreases |evs|
  {
    assert evs == [evs[0]] + evs[1..];
    if evs[0].PacketEnd? { TilingWellFormed(id, g, used, evs[1..]); }
    else if used + evs[0].len != |g| { TilingWellFormed(id, g, used + evs[0].len, evs[1..]); }
  }

  /** Under an entry that can never be completed the frame is lost, chunk by chunk. */
  lemma {:induction false} LostRun(cfg: Config, a: Asm, id: nat, g: seq<Byte>, used: nat, evs: seq<Event>)
    requires Inv(cfg, a) && Tiling(id, g, used, evs) && Bad(cfg, Stored(cfg, a, id), used)
    requires used == 0 ==> evs[0].Piece?
    ensures WellFormed(evs) && Run(cfg, a, evs).frames == []
    decreases |evs|
  {
    hide *;
    TilingWellFormed(id, g, used, evs);
    TilingNext(id, g, used, evs);
    ValidConfig(cfg, a);
    StepKeepsInv(cfg, a, evs[0]);
    RunUnfold(cfg, a, evs);
    var b := Step(cfg, a, evs[0]).0;
    if evs[0].PacketEnd? {
      LostTick(cfg, a, id, used);
      LostRun(cfg, b, id, g, used, evs[1..]);
    } else {
      RunNothing(cfg, b);
      LostStep(cfg, a, evs[0]);
      if used + evs[0].len != |g| { LostRun(cfg, b, id, g, used + evs[0].len, evs[1..]); }
    }
  }

  lemma LostTick(cfg: Config, a: Asm, id: nat, used: nat)
    requires Inv(cfg, a) && Bad(cfg, Stored(cfg, a, id), used) && used > 0
    ensures cfg.Valid() && Step(cfg, a, PacketEnd).1 == None
    ensures Bad(cfg, Stored(cfg, Step(cfg, a, PacketEnd).0, id), used)
  {
    ValidConfig(cfg, a);
    hide Bad, Stored, Tick, Inv;
    TickStored(cfg, a, id);
    StaysBad(cfg, Stored(cfg, a, id), used);
  }

  lemma LostStep(cfg: Config, a: Asm, e: Event)
    requires Inv(cfg, a) && IsCut(e) && Bad(cfg, Stored(cfg, a, e.id), e.start)
    ensures cfg.Valid() && Step(cfg, a, e).1 == None
    ensures e.start + e.len < |e.frame| ==> Bad(cfg, Stored(cfg, Step(cfg, a, e).0, e.id), e.start + e.len)
  {
    ValidConfig(cfg, a);
    hide Bad, Good, Stored, Receive, Inv;
    OwnStep(cfg, a, e);
  }

  lemma StaysBad(cfg: Config, cs: seq<Chunk>, used: nat)
    requires Bad(cfg, cs, used) && used > 0
    ensures Bad(cfg, [], used)
  {
  }

  lemma RunNothing(cfg: Config, a: Asm)
    requires cfg.Valid()
    ensures Run(cfg, a, []) == Outcome(a, [])
  {
  }

  lemma StepKeepsInv(cfg: Config, a: Asm, e: Event)
    requires Inv(cfg, a) && (e.Piece? ==> IsCut(e))
    ensures Inv(cfg, Step(cfg, a, e).0)
  {
    if e.PacketEnd? { TickKeepsInv(cfg, a); } else { ReceiveKeepsInv(cfg, a, e.id, ChunkOf(e)); }
  }

  /** Under no entry, or one that is the beginning of this frame, it arrives. */
  lemma {:induction false} ArriveRun(cfg: Config, a: Asm, id: nat, g: seq<Byte>, used: nat, age: nat, evs: seq<Event>)
    requires Inv(cfg, a) && Tiling(id, g, used, evs) && Good(Stored(cfg, a, id), g, used) && |g| <= cfg.mtu
    requires Timely(cfg, |Stored(cfg, a, id)|, age, evs)
    requires used > 0 ==> Lookup(a.used, id).Some? && Age(a, id) <= age
    ensures WellFormed(evs) && Run(cfg, a, evs).frames == [g]
    decreases |evs|
  {
    hide *;
    TilingWellFormed(id, g, used, evs);
    TilingNext(id, g, used, evs);
    TimelyNext(cfg, |Stored(cfg, a, id)|, age, evs);
    ValidConfig(cfg, a);
    StepKeepsInv(cfg, a, evs[0]);
    RunUnfold(cfg, a, evs);
    GoodEmpty(Stored(cfg, a, id), g, used);
    var b := Step(cfg, a, evs[0]).0;
    if evs[0].PacketEnd? {
      ArriveTick(cfg, a, id, g, used);
      ArriveRun(cfg, b, id, g, used, age + 1, evs[1..]);
    } else {
      RunNothing(cfg, b);
      ArriveStep(cfg, a, evs[0]);
      if used + evs[0].len != |g| { ArriveRun(cfg, b, id, g, used + evs[0].len, 0, evs[1..]); }
    }
  }

  lemma TilingNext(id: nat, g: seq<Byte>, used: nat, evs: seq<Event>)
    requires Tiling(id, g, used, evs)
    ensures evs != [] && WellFormed([evs[0]])
    ensures if evs[0].PacketEnd? then Tiling(id, g, used, evs[1..])
            else
              && evs[0] == Piece(id, g, used, evs[0].len) && IsCut(evs[0]) && used + evs[0].len <= |g|
              && if used + evs[0].len == |g| then evs[1..] == []
                 else evs[1..] != [] && Tiling(id, g, used + evs[0].len, evs[1..])
  {
  }

  lemma TimelyNext(cfg: Config, pieces: nat, age: nat, evs: seq<Event>)
    requires Timely(cfg, pieces, age, evs) && evs != []
    ensures if evs[0].PacketEnd? then (pieces > 0 ==> age < cfg.Tolerance()) && Timely(cfg, pieces, age + 1, evs[1..])
            else (evs[1..] != [] ==> pieces + 1 < cfg.numChunks) && Timely(cfg, pieces + 1, 0, evs[1..])
  {
  }

  lemma ValidConfig(cfg: Config, a: Asm)
    requires Inv(cfg, a)
    ensures cfg.Valid()
  {
  }

  lemma ArriveTick(cfg: Config, a: Asm, id: nat, g: seq<Byte>, used: nat)
    requires Inv(cfg, a) && Good(Stored(cfg, a, id), g, used)
    requires used > 0 ==> Lookup(a.used, id).Some? && Age(a, id) < cfg.Tolerance()
    ensures var b := Step(cfg, a, PacketEnd).0;
            && Step(cfg, a, PacketEnd).1 == None && Stored(cfg, b, id) == Stored(cfg, a, id)
            && (used > 0 ==> Lookup(b.used, id).Some? && Age(b, id) == Age(a, id) + 1)
  {
    GoodEmpty(Stored(cfg, a, id), g, used);
    TickStored(cfg, a, id);
    hide Good, Stored, Tick, Inv, Lookup;
  }

  lemma ArriveStep(cfg: Config, a: Asm, e: Event)
    requires Inv(cfg, a) && e.Piece? && IsCut(e) && Good(Stored(cfg, a, e.id), e.frame, e.start) && |e.frame| <= cfg.mtu
    ensures var (b, out) := Step(cfg, a, e);
            var (cs, ds) := (Stored(cfg, a, e.id), Stored(cfg, b, e.id));
            && (e.start + e.len == |e.frame| ==> out == Some(e.frame))
            && (e.start + e.len < |e.frame| && |cs| + 1 < cfg.numChunks ==>
                  && out == None && |ds| == |cs| + 1 && Good(ds, e.frame, e.start + e.len)
                  && Lookup(b.used, e.id).Some? && Age(b, e.id) == 0)
  {
    OwnStep(cfg, a, e);
    ReceiveTime(cfg, a, e.id, ChunkOf(e));
    hide Inv, Receive, Stored, Front, Doomed;
    GoodNext(cfg, a, e);
  }

  lemma GoodNext(cfg: Config, a: Asm, e: Event)
    requires Inv(cfg, a) && e.Piece? && IsCut(e) && Good(Stored(cfg, a, e.id), e.frame, e.start)
    ensures e.start + e.len < |e.frame| ==> Front(Stored(cfg, a, e.id) + [ChunkOf(e)], e.frame, e.start + e.len)
  {
    StoredFacts(cfg, a, e.id);
    FrontStep(Stored(cfg, a, e.id), e);
  }

  lemma GoodEmpty(cs: seq<Chunk>, g: seq<Byte>, used: nat)
    requires Good(cs, g, used)
    ensures cs == [] <==> used == 0
    ensures |cs| == 0 <==> used == 0
  {
  }

  lemma ReceiveTime(cfg: Config, a: Asm, id: nat, c: Chunk)
    requires cfg.Valid()
    ensures Receive(cfg, a, id, c).0.time == a.time
  {
  }

  /**
   * What decides whether the next frame under an id arrives, whatever the receiver went through before and
   * however the frame is cut and packed: it arrives if and only if the receiver holds nothing under that id.
   * (What it may hold is chunks of unfinished frames, so some bytes and no chunk flagged last.)
   */
  lemma ArrivesIffNothingHeld(cfg: Config, a: Asm, id: nat, g: seq<Byte>, evs: seq<Event>)
    requires Inv(cfg, a) && Tiling(id, g, 0, evs) && evs[0].Piece? && Timely(cfg, 0, 0, evs) && |g| <= cfg.mtu
    requires var cs := Stored(cfg, a, id); cs == [] || (!HasLast(cs) && Covered(cs) != {})
    ensures WellFormed(evs) && Run(cfg, a, evs).frames == if Stored(cfg, a, id) == [] then [g] else []
  {
    var cs := Stored(cfg, a, id);
    if cs == [] {
      ArriveRun(cfg, a, id, g, 0, 0, evs);
    } else {
      var p :| p in Covered(cs);
      assert p >= 0;
      LostRun(cfg, a, id, g, 0, evs);
    }
  }

  /**
   * The frame after a cancelled one, cut and packed in any way, arrives if and only if nothing of the
   * cancelled one had been written, given that no frame before it was cancelled half written.
   */
  lemma HarmlessIffNothingWritten(cfg: Config, s: Sender, g: seq<Byte>, evs: seq<Event>)
    requires SenderInv(s) && Holds(cfg, s) && s.cur.Busy?
    requires Tiling(s.Id(), g, 0, evs) && evs[0].Piece? && Timely(cfg, 0, 0, evs) && |g| <= cfg.mtu
    ensures WellFormed(Log(s) + evs)
    ensures Run(cfg, Fresh, Log(s) + evs).frames == s.done + if s.cur.pieces == 0 then [g] else []
  {
    InStep(s);
    HoldsValid(cfg, s);
    FreshMirrors(cfg);
    hide Tiling, Timely, SenderInv, Holds, Stored, Mirrors, FrameInv, Step, PendingIsCurrent, Run, Log, Ideal,
        FitsAll, InBoundsAll, Emissions;
    AssemblerIsIdeal(cfg, Fresh, map[], Log(s));
    EmissionsPayloads(s.done);
    var a := Run(cfg, Fresh, Log(s)).asm;
    RunKeepsInv(cfg, Fresh, Log(s));
    HeldAfter(cfg, s, a, Ideal(map[], Log(s)).pending);
    ArrivesIffNothingHeld(cfg, a, s.Id(), g, evs);
    RunAppend(cfg, Fresh, Log(s), evs);
  }

  lemma HeldAfter(cfg: Config, s: Sender, a: Asm, p: Pending)
    requires Inv(cfg, a) && Mirrors(cfg, a, p) && s.Room() > 0 && CurInv(s) && s.cur.Busy? && PendingIsCurrent(s, p)
    ensures var cs := Stored(cfg, a, s.Id());
            && (cs == [] <==> s.cur.pieces == 0)
            && (cs != [] ==> !HasLast(cs) && Covered(cs) != {})
  {
    var f := Lookup(a.used, s.Id());
    if s.cur.pieces > 0 {
      assert p[s.Id()].age <= cfg.Tolerance();
      assert f.value in a.used;
      CutsLastReach(f.value.chunks, s.cur.frame, s.cur.used);
      assert 0 in Covered(f.value.chunks);
    }
  }

  lemma {:induction false} RunKeepsInv(cfg: Config, a: Asm, evs: seq<Event>)
    requires Inv(cfg, a) && WellFormed(evs)
    ensures Inv(cfg, Run(cfg, a, evs).asm)
    decreases |evs|
  {
    hide FrameInv, Receive, Tick, ChunkOf;
    if evs != [] {
      StepKeepsInv(cfg, a, evs[0]);
      RunKeepsInv(cfg, Step(cfg, a, evs[0]).0, evs[1..]);
    }
  }

  /** A packet end only ever makes an entry time out. */
  lemma TickStored(cfg: Config, a: Asm, id: nat)
    requires Inv(cfg, a)
    ensures var b := Tick(cfg, a);
            && (Stored(cfg, b, id) == Stored(cfg, a, id) || Stored(cfg, b, id) == [])
            && (Lookup(a.used, id).Some? && Age(a, id) < cfg.Tolerance() ==>
                  Lookup(b.used, id).Some? && Age(b, id) == Age(a, id) + 1 && Stored(cfg, b, id) == Stored(cfg, a, id))
  {
    TickAgesByOne(cfg, a, id);
    hide Tick, FrameInv;
  }
}
