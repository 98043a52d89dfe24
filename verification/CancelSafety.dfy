/**
 * Whatever is cancelled and whenever, the receiver only ever loses frames: what it emits are frames the
 * sender finished, in order and byte for byte. The one thing this needs is that a frame id rests for longer
 * than the receiver remembers before it is used again, which it does as long as the packets of that time
 * cannot carry one chunk for each of the 65535 other ids.
 */
module CancelSafety {
  import opened Bytes
  import opened Chunks
  import opened Division
  import opened Options
  import opened AssemblerSpec
  import opened PacketParse
  import opened Reassembly
  import opened SenderSpec
  import opened SenderRuns
  import opened CancelLoss

  /** s is t with some elements left out. */
  ghost predicate Subsequence<T>(s: seq<T>, t: seq<T>)
    decreases |t|
  {
    if t == [] then s == []
    else
      var n := |t| - 1;
      Subsequence(s, t[..n]) || (s != [] && s[|s| - 1] == t[n] && Subsequence(s[..|s| - 1], t[..n]))
  }

  lemma SubsequenceSnoc<T>(s: seq<T>, t: seq<T>, x: T)
    requires Subsequence(s, t)
    ensures Subsequence(s, t + [x]) && Subsequence(s + [x], t + [x])
  {
    assert (t + [x])[..|t|] == t && (s + [x])[..|s|] == s;
  }

  /** How many packets ended since the last piece with this id that carried any bytes. */
  function Since(evs: seq<Event>, id: nat): Option<nat> {
    if evs == [] then None
    else
      var n := |evs| - 1;
      var s := Since(evs[..n], id);
      if evs[n].PacketEnd? then (if s.Some? then Some(s.value + 1) else None)
      else if CarriesBytes(evs[n], id) then Some(0)
      else s
  }

  /** Only such a piece can leave an entry behind it: one without bytes completes its frame or is refused. */
  predicate CarriesBytes(e: Event, id: nat) {
    e.Piece? && e.id == id && e.len > 0
  }

  /**
   * When a piece begins the use of an id for a new frame number, the last piece with that id that carried any
   * bytes lies further back than the receiver remembers. (One that takes frames of one chunk only never holds
   * anything.)
   */
  ghost predicate Rested(cfg: Config, evs: seq<Event>, e: Event) {
    cfg.numChunks > 1 && e.Piece? && Follow(evs).Some? && Follow(evs).value.pieces == 0 ==>
      Since(evs, e.id).None? || Since(evs, e.id).value > cfg.Tolerance()
  }

  ghost predicate IdsRest(cfg: Config, evs: seq<Event>) {
    evs == [] || (IdsRest(cfg, evs[..|evs| - 1]) && Rested(cfg, evs[..|evs| - 1], evs[|evs| - 1]))
  }

  /**
   * What the receiver holds under the current id can still become the current frame, or nothing at all; entries
   * hold bytes, and are no younger than the last piece that carried some under their id.
   */
  ghost predicate Truth(cfg: Config, a: Asm, evs: seq<Event>) {
    && Inv(cfg, a) && Follow(evs).Some?
    && Current(cfg, a, Follow(evs).value)
    && Aged(a, evs)
  }

  ghost predicate Current(cfg: Config, a: Asm, c: Progression) {
    c.pieces > 0 ==>
      var cs := Stored(cfg, a, |c.done| % U16);
      Good(cs, c.frame, c.used) || Bad(cfg, cs, c.used)
  }

  ghost predicate Aged(a: Asm, evs: seq<Event>) {
    forall f :: f in a.used ==>
      Covered(f.chunks) != {} && Since(evs, f.id).Some? && a.time - f.time >= Since(evs, f.id).value
  }

  lemma SinceSnoc(evs: seq<Event>, e: Event, id: nat)
    ensures var s := Since(evs, id);
            Since(evs + [e], id) ==
              if e.PacketEnd? then (if s.Some? then Some(s.value + 1) else None)
              else if CarriesBytes(e, id) then Some(0)
              else s
  {
    assert (evs + [e])[..|evs|] == evs;
  }

  lemma ReceiveOthers(cfg: Config, a: Asm, id: nat, c: Chunk)
    requires Inv(cfg, a)
    ensures var b := Receive(cfg, a, id, c).0;
            b.time == a.time && forall f :: f in b.used && f.id != id ==> f in a.used
  {
    hide Consistent, Complete, Content, FrameInv, Admit, Drop, Find;
    if c.End() <= cfg.mtu {
      AdmitOthers(cfg, a, id);
      var m := Admit(cfg, a, id);
      var k := Find(m.used, id);
      DropKeeps(m.used, k);
      var b := Receive(cfg, a, id, c).0;
      forall f | f in b.used && f.id != id ensures f in a.used {
        if b.used != Drop(m.used, k) {
          var i :| 0 <= i < |b.used| && b.used[i] == f;
          assert m.used[i] == f;
        }
      }
    }
  }

  lemma AdmitOthers(cfg: Config, a: Asm, id: nat)
    requires Inv(cfg, a)
    ensures var m := Admit(cfg, a, id);
            && m.time == a.time && Find(m.used, id) < |m.used| && DistinctIds(m.used)
            && forall f :: f in m.used && f.id != id ==> f in a.used
  {
    AdmitFinds(cfg, a, id);
    hide Admit, Find, FrameInv;
  }

  lemma TickAged(cfg: Config, a: Asm, evs: seq<Event>)
    requires Inv(cfg, a) && Aged(a, evs)
    ensures Aged(Tick(cfg, a), evs + [PacketEnd])
  {
    var b := Tick(cfg, a);
    TickKeepsInv(cfg, a);
    hide Tick, FrameInv, Find, Covered;
    forall f | f in b.used
      ensures Covered(f.chunks) != {} && Since(evs + [PacketEnd], f.id).Some?
      ensures b.time - f.time >= Since(evs + [PacketEnd], f.id).value
    {
      SinceSnoc(evs, PacketEnd, f.id);
      TickAgesByOne(cfg, a, f.id);
      LookupIn(b.used, f);
      assert Lookup(a.used, f.id).value in a.used;
    }
  }

  /** A piece without bytes leaves nothing under its id. */
  lemma NoBytesNoEntry(cfg: Config, a: Asm, e: Event)
    requires Inv(cfg, a) && IsCut(e) && e.len == 0
    requires forall f :: f in a.used ==> Covered(f.chunks) != {}
    ensures Lookup(Receive(cfg, a, e.id, ChunkOf(e)).0.used, e.id).None?
  {
    var cs := Stored(cfg, a, e.id);
    var c := ChunkOf(e);
    ChunkSpan(e);
    ReceiveStored(cfg, a, e.id, c);
    hide Receive, FrameInv;
    if cs == [] {
      NothingCovered();
      hide Consistent, Complete, Content, Covered;
      FrontStep(cs, e);
    } else {
      SomethingCovered(cs);
      PastTheEnd(cs, c);
    }
  }

  lemma PastTheEnd(cs: seq<Chunk>, c: Chunk)
    requires c.last && c.End() < Reach(cs)
    ensures !Consistent(cs + [c])
  {
    var got := cs + [c];
    assert got[|cs|] == c;
    if cs != [] {
      var k :| 0 <= k < |cs| && cs[k].End() == Reach(cs);
      assert got[k] == cs[k];
    }
  }

  lemma PieceAged(cfg: Config, a: Asm, evs: seq<Event>, e: Event)
    requires Inv(cfg, a) && Aged(a, evs) && IsCut(e)
    ensures Aged(Receive(cfg, a, e.id, ChunkOf(e)).0, evs + [e])
  {
    var b := Receive(cfg, a, e.id, ChunkOf(e)).0;
    ReceiveKeepsInv(cfg, a, e.id, ChunkOf(e));
    ReceiveOthers(cfg, a, e.id, ChunkOf(e));
    if e.len == 0 { NoBytesNoEntry(cfg, a, e); }
    hide Receive, Covered, FrameInv;
    forall f | f in b.used
      ensures Covered(f.chunks) != {} && Since(evs + [e], f.id).Some?
      ensures b.time - f.time >= Since(evs + [e], f.id).value
    {
      SinceSnoc(evs, e, f.id);
      LookupIn(b.used, f);
      if f.id == e.id { OwnEntry(cfg, a, e, f); }
      NotAhead(cfg, b, f);
    }
  }

  lemma NotAhead(cfg: Config, a: Asm, f: Frame)
    requires Inv(cfg, a) && f in a.used
    ensures f.time <= a.time
  {
    assert FrameInv(cfg, a.time, f);
  }

  /** The entry a piece with bytes leaves under its id holds bytes. */
  lemma OwnEntry(cfg: Config, a: Asm, e: Event, f: Frame)
    requires Inv(cfg, a) && IsCut(e) && e.len > 0 && (forall g :: g in a.used ==> Covered(g.chunks) != {})
    requires Lookup(Receive(cfg, a, e.id, ChunkOf(e)).0.used, e.id) == Some(f)
    ensures Covered(f.chunks) != {}
  {
    var c := ChunkOf(e);
    ChunkSpan(e);
    if c.End() <= cfg.mtu {
      ReceiveStored(cfg, a, e.id, c);
      var cs := Stored(cfg, a, e.id);
      CoveredStep(cs, c);
      hide Receive, Covered, FrameInv, Consistent, Complete;
      assert c.start in Range(c.start, c.End());
    } else {
      assert f in a.used;
    }
  }

  /** What is stored when a piece comes fits the piece, or can never be completed. */
  lemma ReadyForPiece(cfg: Config, a: Asm, evs: seq<Event>, e: Event)
    requires Truth(cfg, a, evs) && e.Piece? && IsCut(e) && FollowPiece(Follow(evs).value, e).Some?
    requires Rested(cfg, evs, e)
    ensures var cs := Stored(cfg, a, e.id); Good(cs, e.frame, e.start) || Bad(cfg, cs, e.start)
    ensures e.id == |Follow(evs).value.done| % U16
  {
    var c := Follow(evs).value;
    var cs := Stored(cfg, a, e.id);
    FollowFacts(evs);
    StoredFacts(cfg, a, e.id);
    if c.pieces == 0 && cfg.numChunks > 1 {
      var f := Lookup(a.used, e.id);
      assert f.Some? ==> f.value in a.used;
    } else if e.start == 0 && Front(cs, c.frame, c.used) {
      CutsLastReach(cs, c.frame, c.used);
      assert 0 in Covered(cs);
    } else if e.start == 0 && Doomed(cfg, cs, c.used) {
      var p :| p in Covered(cs);
      assert p >= 0;
    }
  }

  /** At most one frame is finished, and only that one may be emitted. */
  ghost predicate Grows(before: seq<seq<Byte>>, after: seq<seq<Byte>>, out: Option<seq<Byte>>) {
    if after == before then out == None
    else after != [] && after == before + [after[|after| - 1]] && (out.Some? ==> out.value == after[|after| - 1])
  }

  lemma TruthIs(cfg: Config, a: Asm, evs: seq<Event>)
    requires Follow(evs).Some?
    ensures Truth(cfg, a, evs) <==> Inv(cfg, a) && Current(cfg, a, Follow(evs).value) && Aged(a, evs)
  {
  }

  lemma CurrentIs(cfg: Config, a: Asm, c: Progression)
    ensures Current(cfg, a, c) <==>
              c.pieces == 0 ||
                (var cs := Stored(cfg, a, |c.done| % U16); Good(cs, c.frame, c.used) || Bad(cfg, cs, c.used))
  {
  }

  lemma TruthAtEnd(cfg: Config, a: Asm, evs: seq<Event>)
    requires Truth(cfg, a, evs) && Follow(evs).Some?
    ensures Truth(cfg, Tick(cfg, a), evs + [PacketEnd])
  {
    hide Follow, Inv, Good, Bad, Stored, Tick, Aged, Truth, Current;
    var c := Follow(evs).value;
    FollowSnoc(evs, PacketEnd);
    TruthIs(cfg, a, evs);
    TruthIs(cfg, Tick(cfg, a), evs + [PacketEnd]);
    TickAged(cfg, a, evs);
    TickKeepsInv(cfg, a);
    CurrentIs(cfg, a, c);
    CurrentIs(cfg, Tick(cfg, a), c);
    FollowFacts(evs);
    if c.pieces > 0 {
      TickStored(cfg, a, |c.done| % U16);
      ForgottenIsBad(cfg, c.used);
    }
  }

  /** How a piece that can follow moves the reading on. */
  lemma PieceProgress(c: Progression, e: Event)
    requires e.Piece? && FollowPiece(c, e).Some?
    ensures IsCut(e) && e.id == |c.done| % U16 && e.start + e.len <= |e.frame|
    ensures var d := FollowPiece(c, e).value;
            if e.start + e.len == |e.frame| then d.done == c.done + [e.frame] && d.pieces == 0
            else d.done == c.done && d.frame == e.frame && d.used == e.start + e.len
  {
    ChunkSpan(e);
  }

  lemma TruthAtPiece(cfg: Config, a: Asm, evs: seq<Event>, e: Event)
    requires Truth(cfg, a, evs) && e.Piece? && Follow(evs).Some? && Follow(evs + [e]).Some? && Rested(cfg, evs, e)
    ensures IsCut(e)
    ensures var (b, out) := Receive(cfg, a, e.id, ChunkOf(e));
            && Truth(cfg, b, evs + [e])
            && Grows(Follow(evs).value.done, Follow(evs + [e]).value.done, out)
  {
    hide *;
    FollowSnoc(evs, e);
    PieceProgress(Follow(evs).value, e);
    TruthIs(cfg, a, evs);
    ValidConfig(cfg, a);
    var (c, d) := (Follow(evs).value, Follow(evs + [e]).value);
    var (b, out) := Receive(cfg, a, e.id, ChunkOf(e));
    TruthIs(cfg, b, evs + [e]);
    ReadyForPiece(cfg, a, evs, e);
    OwnStep(cfg, a, e);
    PieceAged(cfg, a, evs, e);
    ReceiveKeepsInv(cfg, a, e.id, ChunkOf(e));
    CurrentIs(cfg, b, d);
    GrowsIf(c.done, e.frame, out);
  }

  lemma GrowsIf(done: seq<seq<Byte>>, frame: seq<Byte>, out: Option<seq<Byte>>)
    ensures out == None ==> Grows(done, done, out)
    ensures out == None || out == Some(frame) ==> Grows(done, done + [frame], out)
  {
    assert done + [frame] != done by { assert |done + [frame]| > |done|; }
  }

  lemma TruthStep(cfg: Config, a: Asm, evs: seq<Event>, e: Event)
    requires Truth(cfg, a, evs) && (e.Piece? ==> IsCut(e)) && Follow(evs + [e]).Some? && Rested(cfg, evs, e)
    ensures var (b, out) := Step(cfg, a, e);
            && Truth(cfg, b, evs + [e]) && Follow(evs).Some?
            && Grows(Follow(evs).value.done, Follow(evs + [e]).value.done, out)
  {
    hide Follow, Inv, Truth, Receive, Tick, Rested;
    FollowSnoc(evs, e);
    if e.PacketEnd? {
      TruthAtEnd(cfg, a, evs);
    } else {
      TruthAtPiece(cfg, a, evs, e);
    }
  }

  lemma ForgottenIsBad(cfg: Config, used: nat)
    requires used > 0
    ensures Bad(cfg, [], used)
  {
  }

  lemma LastEvent(cfg: Config, evs: seq<Event>)
    requires WellFormed(evs) && Follow(evs).Some? && IdsRest(cfg, evs) && evs != []
    ensures var n := |evs| - 1;
            var (front, e) := (evs[..n], evs[n]);
            && evs == front + [e] && WellFormed(front) && WellFormed(front + [e]) && (e.Piece? ==> IsCut(e))
            && Follow(front).Some? && IdsRest(cfg, front) && Rested(cfg, front, e)
  {
    var n := |evs| - 1;
    var (front, e) := (evs[..n], evs[n]);
    LastWellFormed(evs);
    hide WellFormed, IsCut, Rested;
    FollowSnoc(front, e);
    hide Follow;
  }

  lemma LastWellFormed(evs: seq<Event>)
    requires WellFormed(evs) && evs != []
    ensures var n := |evs| - 1;
            var (front, e) := (evs[..n], evs[n]);
            evs == front + [e] && WellFormed(front) && (e.Piece? ==> IsCut(e))
  {
    var n := |evs| - 1;
    assert evs == evs[..n] + [evs[n]] && evs[n] in evs;
    assert forall x :: x in evs[..n] ==> x in evs;
    hide IsCut;
  }

  lemma NothingYet(cfg: Config)
    requires cfg.Valid()
    ensures Run(cfg, Fresh, []) == Outcome(Fresh, []) && Follow([]).Some? && Truth(cfg, Fresh, [])
    ensures Subsequence([], Follow([]).value.done)
  {
  }

  /** The frames emitted, with the one just emitted. */
  lemma OneMore(frames: seq<seq<Byte>>, before: seq<seq<Byte>>, after: seq<seq<Byte>>, out: Option<seq<Byte>>)
    requires Subsequence(frames, before) && Grows(before, after, out)
    ensures Subsequence(if out.Some? then frames + [out.value] else frames, after)
  {
    if after != before { SubsequenceSnoc(frames, before, after[|after| - 1]); }
  }

  /** Over any delivery of chunks cut front to back, with any frames given up at any point and any packet ends. */
  lemma {:induction false} NeverMixes(cfg: Config, evs: seq<Event>)
    requires cfg.Valid() && WellFormed(evs) && Follow(evs).Some? && IdsRest(cfg, evs)
    ensures Truth(cfg, Run(cfg, Fresh, evs).asm, evs)
    ensures Subsequence(Run(cfg, Fresh, evs).frames, Follow(evs).value.done)
  {
    hide Truth, Run, Follow, Step, Subsequence, IdsRest, Rested, WellFormed, IsCut, Grows;
    if evs == [] {
      NothingYet(cfg);
    } else {
      var n := |evs| - 1;
      var (front, e) := (evs[..n], evs[n]);
      LastEvent(cfg, evs);
      NeverMixes(cfg, front);
      var r := Run(cfg, Fresh, front);
      RunSnoc(cfg, Fresh, front, e);
      TruthStep(cfg, r.asm, front, e);
      OneMore(r.frames, Follow(front).value.done, Follow(evs).value.done, Step(cfg, r.asm, e).1);
    }
  }

  lemma RunSnoc(cfg: Config, a: Asm, evs: seq<Event>, e: Event)
    requires cfg.Valid() && WellFormed(evs) && WellFormed(evs + [e])
    ensures e.Piece? ==> IsCut(e)
    ensures var r := Run(cfg, a, evs);
            var (b, out) := Step(cfg, r.asm, e);
            Run(cfg, a, evs + [e]) == Outcome(b, if out.Some? then r.frames + [out.value] else r.frames)
  {
    hide Step;
    assert e in evs + [e];
    RunAppend(cfg, a, evs, [e]);
    assert [e][1..] == [];
    assert Run(cfg, a, evs).frames + [] == Run(cfg, a, evs).frames;
  }

  // ----- how large packets may be for the ids to rest -----

  /** Which use of an id its last piece with bytes belonged to: how many frames had been finished before it. */
  function LastUse(evs: seq<Event>, id: nat): Option<nat> {
    if evs == [] then None
    else
      var n := |evs| - 1;
      if CarriesBytes(evs[n], id) && Follow(evs[..n]).Some? then Some(|Follow(evs[..n]).value.done|)
      else LastUse(evs[..n], id)
  }

  function PiecesSince(evs: seq<Event>, id: nat): nat {
    if evs == [] then 0
    else
      var n := |evs| - 1;
      if evs[n].PacketEnd? then PiecesSince(evs[..n], id)
      else if CarriesBytes(evs[n], id) then 0
      else PiecesSince(evs[..n], id) + 1
  }

  function InPacket(evs: seq<Event>): nat {
    if evs == [] || evs[|evs| - 1].PacketEnd? then 0 else InPacket(evs[..|evs| - 1]) + 1
  }

  /** The most chunks a packet carries, and the most behind one with a byte. */
  function PerPacket(mtu: nat): nat { if mtu == 0 then 0 else (mtu - 1) / HEADER }
  function Behind(mtu: nat): nat { if mtu < 9 then 0 else (mtu - 9) / HEADER }

  lemma AnotherFits(k: nat, mtu: nat)
    ensures k * HEADER + HEADER < mtu ==> k + 1 <= PerPacket(mtu)
    ensures k * HEADER + HEADER + 1 + HEADER < mtu ==> k + 1 <= Behind(mtu)
  {
  }

  /** What fits behind the last piece with bytes under an id, in its own packet and in those after it. */
  lemma {:induction false} PiecesFit(evs: seq<Event>, mtu: nat, id: nat)
    requires Roomy(evs, mtu)
    ensures InPacket(evs) <= PerPacket(mtu) && InPacket(evs) * HEADER <= OpenBytes(evs)
    ensures var (since, pieces) := (Since(evs, id), PiecesSince(evs, id));
            && (since == Some(0) ==> pieces <= Behind(mtu) && pieces * HEADER + HEADER + 1 <= OpenBytes(evs))
            && (since.Some? && since.value > 0 ==>
                  pieces <= Behind(mtu) + (since.value - 1) * PerPacket(mtu) + InPacket(evs))
  {
    if evs != [] {
      var front, e := evs[..|evs| - 1], evs[|evs| - 1];
      PiecesFit(front, mtu, id);
      if e.Piece? {
        AnotherFits(InPacket(front), mtu);
        AnotherFits(PiecesSince(front, id), mtu);
      } else if Since(front, id).Some? {
        Distribute(Since(front, id).value - 1, 0, PerPacket(mtu));
      }
    }
  }

  /** Every later frame number took a piece. */
  lemma {:induction false} PiecesPerUse(evs: seq<Event>, id: nat)
    requires Follow(evs).Some?
    ensures Since(evs, id).Some? <==> LastUse(evs, id).Some?
    ensures var (c, u) := (Follow(evs).value, LastUse(evs, id));
            u.Some? ==>
              && u.value % U16 == id && u.value <= |c.done| <= u.value + PiecesSince(evs, id) + 1
              && (u.value == |c.done| ==> c.pieces > 0)
              && (c.pieces > 0 && u.value != |c.done| ==> |c.done| <= u.value + PiecesSince(evs, id))
  {
    if evs != [] {
      var n := |evs| - 1;
      PiecesPerUse(evs[..n], id);
    }
  }

  lemma SameRemainder(a: nat, b: nat, n: nat)
    requires n > 0 && a < b && a % n == b % n
    ensures b - a >= n
  {
    ByDivision(a, n);
    ByDivision(b, n);
    MulMono(b / n, a / n, n);
    MulMono(a / n + 1, b / n, n);
    Distribute(a / n, 0, n);
  }

  /**
   * Behind one byte in its packet, and in as many full packets as the receiver remembers, there is no room for
   * a chunk of each other id and one more; or there is nothing to remember.
   */
  predicate IdsOutlast(cfg: Config, mtu: nat) {
    cfg.numChunks == 1 || Behind(mtu) + cfg.numFrames * PerPacket(mtu) < U16
  }

  lemma BeyondMemory(since: nat, tolerance: nat, behind: nat, perPacket: nat)
    requires behind + tolerance * perPacket < U16 <= behind + since * perPacket
    ensures since > tolerance
  {
    MulMono(since, tolerance, perPacket);
  }

  lemma OutlastRests(cfg: Config, evs: seq<Event>, e: Event, mtu: nat)
    requires Roomy(evs, mtu) && (e.Piece? ==> OpenBytes(evs) + HEADER < mtu) && IdsOutlast(cfg, mtu)
    requires Follow(evs + [e]).Some?
    ensures Rested(cfg, evs, e)
  {
    FollowSnoc(evs, e);
    if cfg.numChunks > 1 && e.Piece? && Follow(evs).Some? && Follow(evs).value.pieces == 0 && Since(evs, e.id).Some? {
      var since, pieces := Since(evs, e.id).value, PiecesSince(evs, e.id);
      PiecesFit(evs, mtu, e.id);
      AnotherFits(InPacket(evs), mtu);
      AnotherFits(pieces, mtu);
      PiecesPerUse(evs, e.id);
      SameRemainder(LastUse(evs, e.id).value, |Follow(evs).value.done|, U16);
      if since > 0 { Distribute(since - 1, 0, PerPacket(mtu)); }
      hide Follow, Since, PiecesSince, LastUse, PerPacket, Behind, InPacket, OpenBytes;
      assert U16 <= Behind(mtu) + since * PerPacket(mtu);
      BeyondMemory(since, cfg.numFrames, Behind(mtu), PerPacket(mtu));
    }
  }

  lemma {:induction false} OutlastRestsAll(cfg: Config, evs: seq<Event>, mtu: nat)
    requires Roomy(evs, mtu) && IdsOutlast(cfg, mtu) && Follow(evs).Some?
    ensures IdsRest(cfg, evs)
  {
    if evs != [] {
      var n := |evs| - 1;
      assert evs == evs[..n] + [evs[n]];
      FollowSnoc(evs[..n], evs[n]);
      OutlastRestsAll(cfg, evs[..n], mtu);
      OutlastRests(cfg, evs[..n], evs[n], mtu);
    }
  }

  lemma StoryFollows(s: Sender)
    requires Story(s)
    ensures WellFormed(Log(s)) && Follow(Log(s)).Some? && Follow(Log(s)).value.done == s.done
  {
    hide Follow, CurInv;
  }

  /**
   * The disassembler with any cancels at any time, its packets given to a fresh receiver: the frames that
   * come out are a subsequence of the frames it finished.
   */
  lemma SenderNeverMixes(cfg: Config, s: Sender)
    requires cfg.Valid() && Reached(s) && s.open == [] && IdsOutlast(cfg, s.mtu)
    ensures Story(s) && Subsequence(ReadPackets(cfg, Fresh, Packets(s.closed)).frames, s.done)
  {
    ReachedStory(s);
    StoryFollows(s);
    OutlastRestsAll(cfg, Log(s), s.mtu);
    NeverMixes(cfg, Log(s));
    assert Log(s) == LogOf(s.closed);
    PacketsAreLog(cfg, Fresh, s.closed);
  }

  /**
   * And after any such history the frame that comes next, in any cut and packing, arrives if and only if
   * the receiver holds nothing under its id.
   */
  lemma NextAfterAnyHistory(cfg: Config, s: Sender, g: seq<Byte>, evs: seq<Event>)
    requires cfg.Valid() && Reached(s) && Avail(s) > 0 && IdsOutlast(cfg, s.mtu)
    requires Tiling(s.Id(), g, 0, evs) && evs[0].Piece? && Timely(cfg, 0, 0, evs) && |g| <= cfg.mtu
    ensures WellFormed(Log(s)) && WellFormed(Log(s) + evs)
    ensures var before := Run(cfg, Fresh, Log(s));
            Run(cfg, Fresh, Log(s) + evs).frames ==
              before.frames + if Stored(cfg, before.asm, s.Id()) == [] then [g] else []
  {
    ReachedStory(s);
    StoryFollows(s);
    OutlastRestsAll(cfg, Log(s), s.mtu);
    NeverMixes(cfg, Log(s));
    var a := Run(cfg, Fresh, Log(s)).asm;
    NextHeld(cfg, s, a, g, evs[0]);
    hide Story, Truth, Stored, Run, Tiling, Timely, Log, Reached, Roomy;
    ArrivesIffNothingHeld(cfg, a, s.Id(), g, evs);
    RunAppend(cfg, Fresh, Log(s), evs);
  }

  lemma NextHeld(cfg: Config, s: Sender, a: Asm, g: seq<Byte>, e: Event)
    requires Story(s) && Truth(cfg, a, Log(s)) && Roomy(Log(s), s.mtu) && Avail(s) > 0 && IdsOutlast(cfg, s.mtu)
    requires e.Piece? && e == Piece(s.Id(), g, 0, e.len) && IsCut(e)
    ensures var cs := Stored(cfg, a, s.Id()); cs == [] || (!HasLast(cs) && Covered(cs) != {})
  {
    StoryFollows(s);
    OpenPieces(s);
    OpenIsFilled(s);
    hide Story, Truth, Follow, Stored, Log, Roomy;
    FollowFacts(Log(s));
    FromStart(Follow(Log(s)).value, e);
    FollowSnoc(Log(s), e);
    OutlastRests(cfg, Log(s), e, s.mtu);
    ReadyForPiece(cfg, a, Log(s), e);
  }

  /** A piece from offset 0 with the current id always continues the reading. */
  lemma FromStart(c: Progression, e: Event)
    requires e.Piece? && IsCut(e) && e.start == 0 && e.id == |c.done| % U16 && (c.pieces == 0 ==> c.used == 0)
    ensures FollowPiece(c, e).Some?
  {
  }
}
