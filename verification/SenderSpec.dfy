/**
 * What the disassembler has done so far: the frames it finished, the one it is cutting, and the chunks
 * it wrote, grouped into carrier packets. The wire format and the assembler on the other end are tied in
 * here: whatever was finished comes out again.
 */
module SenderSpec {
  import opened Bytes
  import opened Chunks
  import opened Division
  import opened Options
  import opened AssemblerSpec
  import opened PacketParse
  import opened Reassembly

  datatype Current = Idle | Busy(frame: seq<Byte>, used: nat, pieces: nat)

  /** `closed` are the packets handed to the carrier, `open` the chunks in the one being filled. */
  datatype Sender = Sender(mtu: nat, chunkMtu: int, done: seq<seq<Byte>>, cur: Current, closed: seq<seq<Event>>,
    open: seq<Event>)
  {
    /** frame_id, a 16-bit counter. */
    function Id(): nat { |done| % U16 }
    /** Payload room in an empty packet. */
    function Room(): int { mtu - HEADER }
  }

  function Start(mtu: nat, chunkMtu: int): Sender {
    Sender(mtu, chunkMtu, [], Idle, [], [])
  }

  function Accept(s: Sender, frame: seq<Byte>): Sender {
    s.(cur := Busy(frame, 0, 0))
  }

  function NextPiece(s: Sender, len: nat): Event
    requires s.cur.Busy?
  {
    Piece(s.Id(), s.cur.frame, s.cur.used, len)
  }

  /** One chunk of the current frame goes into the open packet; the frame may thereby be finished. */
  function Put(s: Sender, len: nat): Sender
    requires s.cur.Busy?
  {
    var t := s.(open := s.open + [NextPiece(s, len)]);
    if s.cur.used + len >= |s.cur.frame| then t.(done := s.done + [s.cur.frame], cur := Idle)
    else t.(cur := Busy(s.cur.frame, s.cur.used + len, s.cur.pieces + 1))
  }

  function Close(s: Sender): Sender {
    s.(closed := s.closed + [s.open], open := [])
  }

  function LogOf(closed: seq<seq<Event>>): seq<Event> {
    if closed == [] then [] else LogOf(closed[..|closed| - 1]) + closed[|closed| - 1] + [PacketEnd]
  }

  function Log(s: Sender): seq<Event> {
    LogOf(s.closed) + s.open
  }

  /** The length write_chunks chooses for a chunk, `avail` bytes being free behind a header. */
  function ChunkLen(chunkMtu: int, avail: nat, left: nat): (len: nat)
    ensures len <= avail && len <= left && (chunkMtu > 0 ==> len <= chunkMtu)
    ensures len == avail || len == left || len == chunkMtu
    ensures avail > 0 && left > 0 ==> len > 0
  {
    var len := if left < avail then left else avail;
    if 0 < chunkMtu < len then chunkMtu else len
  }

  /** How many chunks the last `left` bytes of a frame become; a packet without room gives way to an empty one. */
  function Rest(room: nat, chunkMtu: int, avail: int, left: nat): nat
    requires room > 0
    decreases left
  {
    if left == 0 then 0
    else
      var x := if avail <= 0 then room else avail;
      var len := ChunkLen(chunkMtu, x, left);
      1 + Rest(room, chunkMtu, x - len - HEADER, left - len)
  }

  /** The most chunks, over every amount up to `x` that may be free when the first one is written. */
  function MostFrom(room: nat, chunkMtu: int, x: nat, left: nat): (m: nat)
    requires 0 < x && 0 < room
    ensures forall y :: 0 < y <= x ==> Rest(room, chunkMtu, y, left) <= m
    ensures exists y :: 0 < y <= x && Rest(room, chunkMtu, y, left) == m
  {
    var here := Rest(room, chunkMtu, x, left);
    if x == 1 then here
    else
      var m := MostFrom(room, chunkMtu, x - 1, left);
      if m < here then here else m
  }

  /** The most chunks a frame of this length is cut into, whatever was in the packet before it. */
  function MaxPieces(s: Sender, len: nat): nat
    requires s.Room() > 0
  {
    if len == 0 then 1 else MostFrom(s.Room(), s.chunkMtu, s.Room(), len)
  }

  /** The frames of which something was sent. */
  function Begun(s: Sender): seq<seq<Byte>> {
    s.done + (if s.cur.Busy? && s.cur.pieces > 0 then [s.cur.frame] else [])
  }

  predicate FrameFits(cfg: Config, s: Sender, f: seq<Byte>)
    requires s.Room() > 0
  {
    |f| <= cfg.mtu && MaxPieces(s, |f|) <= cfg.numChunks
  }

  /** The receiver can hold these frames. */
  ghost predicate Holds(cfg: Config, s: Sender)
    requires s.Room() > 0
  {
    cfg.Valid() && forall f :: f in Begun(s) ==> FrameFits(cfg, s, f)
  }

  function Emissions(done: seq<seq<Byte>>): seq<Emission> {
    seq(|done|, i requires 0 <= i < |done| => Emission(i % U16, done[i]))
  }

  /** The bytes of some chunks in a packet. */
  function Filled(es: seq<Event>): nat {
    if es == [] then 0 else Filled(es[..|es| - 1]) + HEADER + (if es[|es| - 1].Piece? then es[|es| - 1].len else 0)
  }

  /** OUT_AVAIL */
  function Avail(s: Sender): int {
    s.mtu - Filled(s.open) - HEADER
  }

  /** The frame being cut, and that the chunks still to come stay within the bound. */
  ghost predicate CurInv(s: Sender)
    requires s.Room() > 0
  {
    s.cur.Busy? ==>
      && |s.cur.frame| < U16
      && (s.cur.pieces == 0 <==> s.cur.used == 0)
      && (s.cur.pieces > 0 ==>
            && s.cur.used < |s.cur.frame|
            && s.cur.pieces + Rest(s.Room(), s.chunkMtu, Avail(s), |s.cur.frame| - s.cur.used)
               <= MaxPieces(s, |s.cur.frame|))
  }

  /** The one frame the receiver has begun is the one being cut, received up to `used`. */
  ghost predicate PendingIsCurrent(s: Sender, p: Pending) {
    if s.cur.Busy? && s.cur.pieces > 0 then
      && p.Keys == {s.Id()}
      && p[s.Id()].frame == s.cur.frame
      && |p[s.Id()].got| == s.cur.pieces
      && CutFrom(p[s.Id()].got, s.cur.frame)
      && Covered(p[s.Id()].got) == Range(0, s.cur.used)
      && p[s.Id()].age <= (if s.open == [] then 1 else 0)
    else p == map[]
  }

  /**
   * How far a delivery has got when read as frames cut in order: the finished ones with their chunk counts,
   * the rest of one, and how many were begun and given up.
   */
  datatype Progression = Progression(done: seq<seq<Byte>>, counts: seq<nat>, frame: seq<Byte>, used: nat,
    pieces: nat, abandoned: nat)

  /**
   * Reads a delivery as frames cut front to back. None as soon as a chunk has the wrong id or continues
   * nothing. A chunk from offset 0 may come in the middle of a frame: then that one was cancelled.
   */
  function Follow(evs: seq<Event>): Option<Progression> {
    if evs == [] then Some(Progression([], [], [], 0, 0, 0))
    else
      var n := |evs| - 1;
      var (c, e) := (Follow(evs[..n]), evs[n]);
      if c.None? || e.PacketEnd? then c
      else FollowPiece(c.value, e)
  }

  function GivenUp(c: Progression): Progression {
    if c.pieces == 0 then c else c.(frame := [], used := 0, pieces := 0, abandoned := c.abandoned + 1)
  }

  function FollowPiece(c: Progression, e: Event): Option<Progression>
    requires e.Piece?
  {
    var d := if e.start == 0 then GivenUp(c) else c;
    if !(IsCut(e) && e.id == |d.done| % U16 && e.start == d.used && (d.pieces > 0 ==> e.frame == d.frame)) then None
    else if ChunkOf(e).last then Some(Progression(d.done + [e.frame], d.counts + [d.pieces + 1], [], 0, 0, d.abandoned))
    else Some(Progression(d.done, d.counts, e.frame, d.used + e.len, d.pieces + 1, d.abandoned))
  }

  /**
   * The chunks tile the frames: in order, without gaps or overlaps, the last of each and only that one
   * flagged last, and no more of them than the bound allows.
   */
  ghost predicate Tiled(s: Sender)
    requires s.Room() > 0
  {
    var c := Follow(Log(s));
    && c.Some? && c.value.done == s.done
    && |c.value.counts| == |s.done|
    && (forall i :: 0 <= i < |s.done| ==> c.value.counts[i] <= MaxPieces(s, |s.done[i]|))
    && (s.cur.Busy? && s.cur.pieces > 0 ==>
          c.value.frame == s.cur.frame && c.value.used == s.cur.used && c.value.pieces == s.cur.pieces)
  }

  /** What holds whatever was cancelled: the packets are the wire form of chunks that tile the frames. */
  ghost predicate Story(s: Sender) {
    && s.Room() > 0
    && CurInv(s)
    && Tiled(s)
    && (forall e :: e in Log(s) && e.Piece? ==> IsCut(e) && e.id < U16 && |e.frame| < U16)
    && (forall i :: 0 <= i < |s.closed| ==> PiecesOnly(s.closed[i]) && |WireAll(s.closed[i])| <= s.mtu)
    && PiecesOnly(s.open) && |WireAll(s.open)| <= s.mtu
  }

  /** What holds as long as no frame was cancelled with a part of it written: the receiver follows. */
  ghost predicate Intact(s: Sender)
    requires Story(s)
  {
    && WellFormed(Log(s))
    && FitsAll(map[], Log(s))
    && PendingIsCurrent(s, Ideal(map[], Log(s)).pending)
    && Ideal(map[], Log(s)).emitted == Emissions(s.done)
    && (forall cfg :: Holds(cfg, s) ==> InBoundsAll(cfg, map[], Log(s)))
    && (!(s.cur.Busy? && s.cur.pieces > 0) ==> Follow(Log(s)).value.pieces == 0)
    && Follow(Log(s)).value.abandoned == 0
  }

  ghost predicate SenderInv(s: Sender) {
    Story(s) && Intact(s)
  }

  ghost predicate PiecesOnly(es: seq<Event>) {
    forall e :: e in es ==> e.Piece? && IsCut(e) && e.id < U16 && |e.frame| < U16
  }

  // ----- the wire format -----

  function Wire(e: Event): (r: seq<Byte>)
    requires e.Piece? && IsCut(e) && e.id < U16 && |e.frame| < U16
    ensures |r| == HEADER + e.len
  {
    WireHeader(e.id, e.start, e.len, e.start + e.len == |e.frame|) + e.frame[e.start..e.start + e.len]
  }

  function WireHeader(id: nat, start: nat, len: nat, last: bool): (r: seq<Byte>)
    requires id < U16 && start < U16 && len < U16
    ensures |r| == HEADER
  {
    Le16(id) + Le16(start) + Le16(len) + [if last then 1 else 0]
  }

  ghost function WireAll(es: seq<Event>): seq<Byte>
    requires PiecesOnly(es)
  {
    if es == [] then [] else Wire(es[0]) + WireAll(es[1..])
  }

  // ----- extending a delivery by one event -----

  lemma {:induction false} IdealSnoc(p: Pending, evs: seq<Event>, e: Event)
    requires WellFormed(evs) && (e.Piece? ==> IsCut(e))
    ensures WellFormed(evs + [e])
    ensures var r := Ideal(p, evs);
            var (q, out) := Advance(r.pending, e);
            Ideal(p, evs + [e]) == IdealOutcome(q, r.emitted + (if out.Some? then [out.value] else []))
    ensures FitsAll(p, evs + [e]) <==> FitsAll(p, evs) && Fits(Ideal(p, evs).pending, e)
    decreases |evs|
  {
    hide Advance, Fits;
    var all := evs + [e];
    assert forall x :: x in all ==> x in evs || x == e;
    if evs == [] {
      assert all[1..] == [];
      assert all[0] == e;
    } else {
      assert all[0] == evs[0] && all[1..] == evs[1..] + [e];
      IdealSnoc(Advance(p, evs[0]).0, evs[1..], e);
    }
  }

  lemma {:induction false} InBoundsSnoc(cfg: Config, p: Pending, evs: seq<Event>, e: Event)
    requires WellFormed(evs) && (e.Piece? ==> IsCut(e))
    ensures WellFormed(evs + [e])
    ensures InBoundsAll(cfg, p, evs + [e]) <==> InBoundsAll(cfg, p, evs) && InBounds(cfg, Ideal(p, evs).pending, e)
    decreases |evs|
  {
    hide Advance, InBounds;
    var all := evs + [e];
    assert forall x :: x in all ==> x in evs || x == e;
    if evs == [] {
      assert all[1..] == [];
      assert all[0] == e;
    } else {
      assert all[0] == evs[0] && all[1..] == evs[1..] + [e];
      InBoundsSnoc(cfg, Advance(p, evs[0]).0, evs[1..], e);
    }
  }

  // ----- one chunk -----

  /** The next chunk has the length write_chunks chooses. */
  predicate GoodLen(s: Sender, len: nat) {
    && s.cur.Busy? && s.Room() > 0 && Avail(s) > 0
    && s.cur.used <= |s.cur.frame|
    && len == ChunkLen(s.chunkMtu, Avail(s), |s.cur.frame| - s.cur.used)
    && (len == 0 ==> |s.cur.frame| == 0)
  }

  lemma FilledSnoc(es: seq<Event>, e: Event)
    requires e.Piece?
    ensures Filled(es + [e]) == Filled(es) + HEADER + e.len
  {
    assert (es + [e])[..|es|] == es;
  }

  /** Each chunk written leaves room for those still to come, so a frame never takes more than MaxPieces. */
  lemma PieceCount(s: Sender, len: nat)
    requires GoodLen(s, len) && CurInv(s) && Filled(s.open) >= 0
    ensures s.cur.pieces + 1 <= MaxPieces(s, |s.cur.frame|)
    ensures s.cur.used + len < |s.cur.frame| ==> s.cur.pieces + 1 < MaxPieces(s, |s.cur.frame|)
    ensures CurInv(Put(s, len))
  {
    hide MaxPieces, Filled, Rest, ChunkLen, Avail, Put, NextPiece, Log;
    var t := Put(s, len);
    PutIs(s, len);
    EmptyFrame(s);
    if |s.cur.frame| > 0 { Budget(s, len); }
    RestStep(s.Room(), s.chunkMtu, Avail(s), |s.cur.frame| - s.cur.used);
    AvailAfter(s, len);
    SameMax(s, t);
  }

  /** The chunks written and those still to come, before the next one is written. */
  lemma Budget(s: Sender, len: nat)
    requires GoodLen(s, len) && CurInv(s) && |s.cur.frame| > 0
    ensures s.cur.pieces + Rest(s.Room(), s.chunkMtu, Avail(s), |s.cur.frame| - s.cur.used)
              <= MaxPieces(s, |s.cur.frame|)
  {
    if s.cur.pieces == 0 { FirstOfFrame(s); }
    hide MaxPieces, Rest, ChunkLen, Avail;
  }

  lemma AvailAfter(s: Sender, len: nat)
    requires s.cur.Busy?
    ensures Avail(Put(s, len)) == Avail(s) - len - HEADER
  {
    FilledSnoc(s.open, NextPiece(s, len));
  }

  lemma RestStep(room: nat, chunkMtu: int, avail: int, left: nat)
    requires room > 0 && avail > 0
    ensures var len := ChunkLen(chunkMtu, avail, left);
            left > 0 ==> Rest(room, chunkMtu, avail, left) == 1 + Rest(room, chunkMtu, avail - len - HEADER, left - len)
    ensures left > 0 ==> Rest(room, chunkMtu, avail, left) > 0
    ensures var len := ChunkLen(chunkMtu, avail, left);
            left > len ==> Rest(room, chunkMtu, avail - len - HEADER, left - len) > 0
  {
  }

  lemma FirstOfFrame(s: Sender)
    requires s.Room() > 0 && Avail(s) > 0 && s.cur.Busy? && |s.cur.frame| > 0
    ensures Rest(s.Room(), s.chunkMtu, Avail(s), |s.cur.frame|) <= MaxPieces(s, |s.cur.frame|)
  {
    assert Avail(s) <= s.Room();
  }

  lemma EmptyFrame(s: Sender)
    requires s.Room() > 0
    ensures MaxPieces(s, 0) == 1
  {
  }

  // ----- how many chunks that is -----

  /**
   * Without a limit on the chunk length, at most one chunk more than the frame fills packets: the bound of the
   * protocol header.
   */
  lemma UnlimitedBound(s: Sender, len: nat)
    requires s.Room() > 0 && s.chunkMtu < 0
    ensures MaxPieces(s, len) <= CeilDiv(len, s.Room()) + 1
  {
    if len > 0 {
      var y :| 0 < y <= s.Room() && Rest(s.Room(), s.chunkMtu, y, len) == MaxPieces(s, len);
      RestUnlimited(s.Room(), s.chunkMtu, y, len);
    }
  }

  lemma {:induction false} RestUnlimited(room: nat, chunkMtu: int, avail: int, left: nat)
    requires room > 0 && chunkMtu < 0 && avail <= room
    ensures Rest(room, chunkMtu, avail, left) <= CeilDiv(left, room) + 1
    ensures avail <= 0 || avail == room ==> Rest(room, chunkMtu, avail, left) <= CeilDiv(left, room)
    decreases left
  {
    if left > 0 {
      var x := if avail <= 0 then room else avail;
      var len := ChunkLen(chunkMtu, x, left);
      RestUnlimited(room, chunkMtu, x - len - HEADER, left - len);
      RestUnfold(room, chunkMtu, avail, left);
      CeilDivStep(left, room);
      hide Rest, CeilDiv;
    }
  }

  /**
   * With a limit, a chunk shorter than the limit ends its packet, so at least every other chunk is as long as
   * limit and room allow.
   */
  lemma LimitedBound(s: Sender, len: nat)
    requires s.Room() > 0 && s.chunkMtu > 0
    ensures MaxPieces(s, len) <= 2 * CeilDiv(len, if s.chunkMtu < s.Room() then s.chunkMtu else s.Room()) + 1
  {
    if len > 0 {
      var y :| 0 < y <= s.Room() && Rest(s.Room(), s.chunkMtu, y, len) == MaxPieces(s, len);
      RestLimited(s.Room(), s.chunkMtu, y, len);
    }
  }

  lemma {:induction false} RestLimited(room: nat, chunkMtu: int, avail: int, left: nat)
    requires room > 0 && chunkMtu > 0 && avail <= room
    ensures var m := if chunkMtu < room then chunkMtu else room;
            && Rest(room, chunkMtu, avail, left) <= 2 * CeilDiv(left, m) + 1
            && (avail <= 0 || avail >= m ==> Rest(room, chunkMtu, avail, left) <= 2 * CeilDiv(left, m))
    decreases left
  {
    hide Rest, CeilDiv, ChunkLen;
    RestStart(room, chunkMtu, avail, left);
    if left > 0 {
      var m := if chunkMtu < room then chunkMtu else room;
      var x := if avail <= 0 then room else avail;
      var len := ChunkLen(chunkMtu, x, left);
      LimitedLen(chunkMtu, x, left);
      RestLimited(room, chunkMtu, x - len - HEADER, left - len);
      RestUnfold(room, chunkMtu, avail, left);
      CeilDivStep(left, m);
    }
  }

  lemma RestStart(room: nat, chunkMtu: int, avail: int, left: nat)
    requires room > 0
    ensures left == 0 ==> Rest(room, chunkMtu, avail, left) == 0
  {
  }

  lemma LimitedLen(chunkMtu: int, x: nat, left: nat)
    requires chunkMtu > 0 && x > 0 && left > 0
    ensures var len := ChunkLen(chunkMtu, x, left);
            0 < len <= left && len <= x && len <= chunkMtu && (len == left || len == x || len == chunkMtu)
  {
  }

  lemma RestUnfold(room: nat, chunkMtu: int, avail: int, left: nat)
    requires room > 0 && left > 0
    ensures var x := if avail <= 0 then room else avail;
            var len := ChunkLen(chunkMtu, x, left);
            Rest(room, chunkMtu, avail, left) == 1 + Rest(room, chunkMtu, x - len - HEADER, left - len)
  {
  }

  lemma NextIsNew(s: Sender, p: Pending, len: nat)
    requires GoodLen(s, len) && CurInv(s) && PendingIsCurrent(s, p)
    ensures var e := NextPiece(s, len);
            && Fits(p, e) && GotSoFar(p, e.id) == (if s.cur.pieces > 0 then p[s.Id()].got else [])
            && |GotSoFar(p, e.id)| == s.cur.pieces
            && Covered(GotSoFar(p, e.id)) == Range(0, s.cur.used)
            && CutFrom(GotSoFar(p, e.id), s.cur.frame)
  {
    var e := NextPiece(s, len);
    var got := GotSoFar(p, e.id);
    assert s.cur.pieces > 0 ==> s.Id() in p.Keys;
    InCovered(got);
    forall i | 0 <= i < |got| ensures !Overlap(got[i], ChunkOf(e)) {
      assert CutOf(got[i], s.cur.frame);
      if |got[i].data| > 0 {
        assert got[i].Writes(got[i].End() - 1);
        assert got[i].End() - 1 in Covered(got);
      }
    }
  }

  lemma NextExtends(s: Sender, p: Pending, len: nat)
    requires GoodLen(s, len) && CurInv(s) && PendingIsCurrent(s, p)
    ensures var e := NextPiece(s, len);
            var got := GotSoFar(p, e.id) + [ChunkOf(e)];
            && |got| == s.cur.pieces + 1
            && Covered(got) == Range(0, s.cur.used + len)
            && CutFrom(got, s.cur.frame)
            && (Whole(got, s.cur.frame) <==> s.cur.used + len == |s.cur.frame|)
  {
    hide PendingIsCurrent, CutOf, CutFrom, ChunkOf, Covered, CurInv, Range, TotalLen;
    var e := NextPiece(s, len);
    NextIsNew(s, p, len);
    PieceIsCut(e);
    ChunkSpan(e);
    CoveredStep(GotSoFar(p, e.id), ChunkOf(e));
    CutsSnoc(GotSoFar(p, e.id), ChunkOf(e), s.cur.frame);
    RangeInjective(s.cur.used + len, |s.cur.frame|);
    RangeUnion(s.cur.used, s.cur.used + len);
  }

  lemma ChunkSpan(e: Event)
    requires IsCut(e)
    ensures ChunkOf(e).start == e.start && ChunkOf(e).End() == e.start + e.len
  {
  }

  lemma RangeUnion(a: nat, b: nat)
    requires a <= b
    ensures Range(0, a) + Range(a, b) == Range(0, b)
  {
  }

  lemma CutsSnoc(got: seq<Chunk>, c: Chunk, frame: seq<Byte>)
    requires CutFrom(got, frame) && CutOf(c, frame)
    ensures CutFrom(got + [c], frame)
  {
    hide CutOf;
    forall i | 0 <= i < |got| + 1 ensures CutOf((got + [c])[i], frame) {
      if i < |got| { assert CutOf(got[i], frame); }
    }
  }

  lemma RangeInjective(a: nat, b: nat)
    ensures Range(0, a) == Range(0, b) <==> a == b
  {
    if Range(0, a) == Range(0, b) { assert |Range(0, a)| == |Range(0, b)|; }
  }

  /** The receiver has room and time for the next chunk. */
  lemma NextInBounds(s: Sender, p: Pending, len: nat, cfg: Config)
    requires GoodLen(s, len) && CurInv(s) && PendingIsCurrent(s, p) && cfg.Valid() && FrameFits(cfg, s, s.cur.frame)
    ensures Fits(p, NextPiece(s, len)) && InBounds(cfg, p, NextPiece(s, len))
  {
    hide Whole, CutFrom, Covered, Range, MaxPieces, Rest, Filled, ChunkLen, ChunkOf, Put;
    var e := NextPiece(s, len);
    NextIsNew(s, p, len);
    NextExtends(s, p, len);
    PieceCount(s, len);
    assert s.cur.pieces > 0 ==> p.Keys == {s.Id()};
  }

  lemma AdvanceNext(s: Sender, p: Pending, len: nat)
    requires GoodLen(s, len) && CurInv(s) && PendingIsCurrent(s, p)
    ensures var t := Put(s, len);
            var (q, out) := Advance(p, NextPiece(s, len));
            && PendingIsCurrent(t, q)
            && out == (if t.cur.Idle? then Some(Emission(s.Id(), s.cur.frame)) else None)
  {
    hide Whole, CutFrom, ChunkOf, Covered, Range;
    var e := NextPiece(s, len);
    NextIsNew(s, p, len);
    NextExtends(s, p, len);
    assert p.Keys - {s.Id()} == {};
    var q := Advance(p, e).0;
    if s.cur.used + len == |s.cur.frame| {
      assert q.Keys == {};
    } else {
      assert q.Keys == {s.Id()};
    }
  }

  lemma EmissionsSnoc(done: seq<seq<Byte>>, f: seq<Byte>)
    ensures Emissions(done + [f]) == Emissions(done) + [Emission(|done| % U16, f)]
  {
  }

  lemma {:induction false} WireSnoc(es: seq<Event>, e: Event)
    requires PiecesOnly(es) && PiecesOnly([e])
    ensures PiecesOnly(es + [e]) && WireAll(es + [e]) == WireAll(es) + Wire(e)
    decreases |es|
  {
    hide Wire, IsCut;
    assert e in [e];
    var all := es + [e];
    assert forall x :: x in all ==> x in es || x == e;
    if es == [] {
      assert all[0] == e && all[1..] == [];
      assert WireAll(all[1..]) == [];
      assert Wire(e) + [] == Wire(e);
    } else {
      assert all[0] == es[0] && all[1..] == es[1..] + [e];
      WireSnoc(es[1..], e);
    }
  }

  lemma HoldsBefore(s: Sender, len: nat, cfg: Config)
    requires s.cur.Busy? && s.Room() > 0 && Holds(cfg, Put(s, len))
    ensures Holds(cfg, s) && FrameFits(cfg, s, s.cur.frame)
  {
    var t := Put(s, len);
    assert Begun(t) == s.done + [s.cur.frame] && Begun(t)[|s.done|] == s.cur.frame;
    forall f | f in Begun(s) ensures FrameFits(cfg, s, f) {
      assert f in Begun(t) && FrameFits(cfg, t, f);
    }
    assert FrameFits(cfg, t, s.cur.frame);
  }

  /** A frame that was begun is never read to its end without being finished. */
  lemma {:induction false} FollowFacts(evs: seq<Event>)
    requires Follow(evs).Some?
    ensures var c := Follow(evs).value;
            && |c.counts| == |c.done| && (c.pieces == 0 <==> c.used == 0) && (c.pieces > 0 ==> c.used < |c.frame|)
  {
    if evs != [] { FollowFacts(evs[..|evs| - 1]); }
  }

  lemma PutTiles(s: Sender, len: nat)
    requires GoodLen(s, len) && CurInv(s) && Tiled(s)
    ensures Tiled(Put(s, len))
    ensures var c := Follow(Log(s)).value;
            Follow(Log(Put(s, len))).value.abandoned ==
              c.abandoned + (if s.cur.pieces == 0 && c.pieces > 0 then 1 else 0)
    ensures Put(s, len).cur.Idle? ==> Follow(Log(Put(s, len))).value.pieces == 0
  {
    hide MaxPieces, Rest, Follow, FollowPiece, Log, CurInv, Filled, Put, NextPiece, ChunkLen;
    var e, t := NextPiece(s, len), Put(s, len);
    PutIs(s, len);
    FollowSnoc(Log(s), e);
    FollowFacts(Log(s));
    PieceCount(s, len);
    SameMax(s, t);
    PieceReaches(s, len);
  }

  lemma PutIs(s: Sender, len: nat)
    requires GoodLen(s, len)
    ensures var t, used := Put(s, len), s.cur.used + len;
            && NextPiece(s, len).Piece? && Log(t) == Log(s) + [NextPiece(s, len)]
            && t.mtu == s.mtu && t.chunkMtu == s.chunkMtu && s.Room() > 0 && used <= |s.cur.frame|
            && if used == |s.cur.frame| then t.done == s.done + [s.cur.frame] && t.cur == Idle
               else t.done == s.done && t.cur == Busy(s.cur.frame, used, s.cur.pieces + 1)
  {
  }

  lemma FollowSnoc(evs: seq<Event>, e: Event)
    ensures Follow(evs + [e]) == var c := Follow(evs); if c.None? || e.PacketEnd? then c else FollowPiece(c.value, e)
  {
    assert (evs + [e])[..|evs|] == evs;
  }

  /** What the next chunk is to a reader who has followed so far. */
  lemma PieceReaches(s: Sender, len: nat)
    requires GoodLen(s, len) && CurInv(s) && Tiled(s)
    ensures var c := Follow(Log(s)).value;
            var given := s.cur.pieces == 0 && c.pieces > 0;
            var abandoned := c.abandoned + (if given then 1 else 0);
            FollowPiece(c, NextPiece(s, len)) == Some(
              if s.cur.used + len == |s.cur.frame|
                then Progression(c.done + [s.cur.frame], c.counts + [s.cur.pieces + 1], [], 0, 0, abandoned)
              else Progression(c.done, c.counts, s.cur.frame, s.cur.used + len, s.cur.pieces + 1, abandoned))
  {
    FollowFacts(Log(s));
    hide Follow, MaxPieces, Rest, Log, Filled;
  }

  lemma CloseTiles(s: Sender)
    requires s.Room() > 0 && Tiled(s)
    ensures Tiled(Close(s))
  {
    hide MaxPieces;
    var t := Close(s);
    assert t.closed[..|s.closed|] == s.closed;
    assert Log(t) == Log(s) + [PacketEnd];
    assert Log(t)[..|Log(s)|] == Log(s);
    SameMax(s, t);
  }

  lemma {:induction false} WireFilled(es: seq<Event>)
    requires PiecesOnly(es)
    ensures |WireAll(es)| == Filled(es)
  {
    hide Wire;
    if es != [] {
      var n := |es| - 1;
      WireFilled(es[..n]);
      assert es == es[..n] + [es[n]];
      assert es[n] in es;
      WireSnoc(es[..n], es[n]);
    }
  }

  /** Writing a chunk goes on with the story, whatever was cancelled before. */
  lemma PutStory(s: Sender, len: nat)
    requires Story(s) && GoodLen(s, len)
    ensures Story(Put(s, len)) && Log(Put(s, len)) == Log(s) + [NextPiece(s, len)]
    ensures WireAll(Put(s, len).open) == WireAll(s.open) + Wire(NextPiece(s, len))
  {
    hide Tiled, CurInv, Wire, WireAll, LogOf, MaxPieces, Filled, Follow;
    var e, t := NextPiece(s, len), Put(s, len);
    CurFacts(s);
    assert PiecesOnly([e]);
    WireSnoc(s.open, e);
    WireFilled(s.open);
    assert Log(t) == Log(s) + [e];
    PieceCount(s, len);
    PutTiles(s, len);
  }

  /** Writing a chunk keeps the receiver in step. */
  lemma PutKeeps(s: Sender, len: nat)
    requires SenderInv(s) && GoodLen(s, len)
    ensures SenderInv(Put(s, len))
  {
    PutStory(s, len);
    PutFollows(s, len);
    InStep(s);
    hide *;
    var e, t := NextPiece(s, len), Put(s, len);
    var p := Ideal(map[], Log(s)).pending;
    NextIsNew(s, p, len);
    PieceCut(s, len);
    IdealSnoc(map[], Log(s), e);
    AdvanceNext(s, p, len);
    PutEmits(s, len);
    forall cfg | Holds(cfg, t) ensures InBoundsAll(cfg, map[], Log(t)) {
      HoldsBefore(s, len, cfg);
      HoldsValid(cfg, s);
      NextInBounds(s, p, len, cfg);
      InBoundsSnoc(cfg, map[], Log(s), e);
    }
    StaysInStep(t);
  }

  lemma PieceCut(s: Sender, len: nat)
    requires GoodLen(s, len)
    ensures NextPiece(s, len).Piece? && IsCut(NextPiece(s, len))
  {
  }

  lemma HoldsValid(cfg: Config, s: Sender)
    requires s.Room() > 0 && Holds(cfg, s)
    ensures cfg.Valid()
  {
  }

  lemma PutEmits(s: Sender, len: nat)
    requires s.cur.Busy?
    ensures Emissions(Put(s, len).done) ==
            Emissions(s.done) + (if Put(s, len).cur.Idle? then [Emission(s.Id(), s.cur.frame)] else [])
  {
    EmissionsSnoc(s.done, s.cur.frame);
  }

  /** Taking SenderInv apart, and putting it together. */
  lemma InStep(s: Sender)
    requires SenderInv(s)
    ensures s.Room() > 0 && CurInv(s) && WellFormed(Log(s)) && FitsAll(map[], Log(s))
    ensures PendingIsCurrent(s, Ideal(map[], Log(s)).pending) && Ideal(map[], Log(s)).emitted == Emissions(s.done)
    ensures forall cfg :: Holds(cfg, s) ==> InBoundsAll(cfg, map[], Log(s))
  {
  }

  lemma StaysInStep(s: Sender)
    requires Story(s) && s.Room() > 0 && WellFormed(Log(s)) && FitsAll(map[], Log(s))
    requires PendingIsCurrent(s, Ideal(map[], Log(s)).pending) && Ideal(map[], Log(s)).emitted == Emissions(s.done)
    requires forall cfg :: Holds(cfg, s) ==> InBoundsAll(cfg, map[], Log(s))
    requires Follow(Log(s)).Some? && Follow(Log(s)).value.abandoned == 0
    requires !(s.cur.Busy? && s.cur.pieces > 0) ==> Follow(Log(s)).value.pieces == 0
    ensures SenderInv(s)
  {
  }

  lemma PutFollows(s: Sender, len: nat)
    requires SenderInv(s) && GoodLen(s, len) && Story(Put(s, len))
    ensures var t := Put(s, len);
            && Follow(Log(t)).Some?
            && (!(t.cur.Busy? && t.cur.pieces > 0) ==> Follow(Log(t)).value.pieces == 0)
            && Follow(Log(t)).value.abandoned == 0
  {
    hide Follow, MaxPieces, Rest, CurInv, FitsAll, InBoundsAll, PendingIsCurrent, Ideal, WireAll, Emissions, LogOf;
    PutTiles(s, len);
  }

  lemma CurFacts(s: Sender)
    requires s.Room() > 0 && CurInv(s) && s.cur.Busy?
    ensures |s.cur.frame| < U16
  {
  }

  lemma SameMax(s: Sender, t: Sender)
    requires s.mtu == t.mtu && s.chunkMtu == t.chunkMtu && s.Room() > 0
    ensures forall n :: MaxPieces(s, n) == MaxPieces(t, n)
  {
  }

  lemma StartKeeps(mtu: nat, chunkMtu: int)
    requires mtu > HEADER
    ensures SenderInv(Start(mtu, chunkMtu))
  {
    assert Log(Start(mtu, chunkMtu)) == [];
  }

  lemma AcceptStory(s: Sender, frame: seq<Byte>)
    requires Story(s) && s.cur.Idle? && |frame| < U16
    ensures Story(Accept(s, frame)) && Log(Accept(s, frame)) == Log(s)
  {
    SameMax(s, Accept(s, frame));
    hide WireAll, LogOf, MaxPieces, Follow, Filled;
  }

  lemma AcceptKeeps(s: Sender, frame: seq<Byte>)
    requires SenderInv(s) && s.cur.Idle? && |frame| < U16
    ensures SenderInv(Accept(s, frame))
  {
    AcceptStory(s, frame);
    SameFrames(s, Accept(s, frame));
  }

  /** A change that neither writes nor finishes anything leaves the receiver in step. */
  lemma SameFrames(s: Sender, t: Sender)
    requires SenderInv(s) && Story(t) && Log(t) == Log(s) && t.done == s.done && t.mtu == s.mtu
    requires t.chunkMtu == s.chunkMtu
    requires !(s.cur.Busy? && s.cur.pieces > 0) && !(t.cur.Busy? && t.cur.pieces > 0)
    ensures SenderInv(t)
  {
    SameMax(s, t);
    hide FitsAll, InBoundsAll, Ideal, WireAll, LogOf, Emissions, MaxPieces, Follow, Filled, Tiled, CurInv;
    forall cfg | Holds(cfg, t) ensures InBoundsAll(cfg, map[], Log(t)) {
      assert Begun(t) == Begun(s);
      assert Holds(cfg, s);
    }
  }

  /** The age of the pending frame when the packet carrying its last chunk ends. */
  lemma CloseAges(s: Sender, p: Pending)
    requires PendingIsCurrent(s, p) && s.open != []
    ensures PendingIsCurrent(Close(s), Advance(p, PacketEnd).0)
  {
    hide CutFrom, Covered, Range;
    var q := Advance(p, PacketEnd).0;
    assert q.Keys == p.Keys;
    assert p == map[] ==> q == map[];
  }

  /** A packet ends with its frame, or when it is full. */
  lemma CloseStory(s: Sender)
    requires Story(s) && (s.cur.Busy? && s.cur.pieces > 0 ==> Avail(s) <= 0)
    ensures Story(Close(s)) && Log(Close(s)) == Log(s) + [PacketEnd]
  {
    hide Tiled, CurInv, WireAll, MaxPieces, Follow, Filled;
    CloseTiles(s);
    CloseCur(s);
    var t := Close(s);
    assert t.closed[..|s.closed|] == s.closed;
    assert Log(t) == Log(s) + [PacketEnd];
    NoWire();
  }

  lemma CloseKeeps(s: Sender)
    requires SenderInv(s) && s.open != [] && (s.cur.Busy? && s.cur.pieces > 0 ==> Avail(s) <= 0)
    ensures SenderInv(Close(s))
  {
    CloseStory(s);
    CloseFollows(s);
    InStep(s);
    hide *;
    var t := Close(s);
    var p := Ideal(map[], Log(s)).pending;
    IdealSnoc(map[], Log(s), PacketEnd);
    PacketEndEmits(p);
    CloseAges(s, p);
    CloseSame(s);
    forall cfg | Holds(cfg, t) ensures InBoundsAll(cfg, map[], Log(t)) {
      InBoundsSnoc(cfg, map[], Log(s), PacketEnd);
    }
    StaysInStep(t);
  }

  lemma CloseSame(s: Sender)
    requires SenderInv(s)
    ensures var t := Close(s);
            && t.Room() == s.Room() > 0 && t.done == s.done && t.cur == s.cur
            && (forall cfg :: Holds(cfg, t) ==> Holds(cfg, s))
            && Follow(Log(s)).Some? && Follow(Log(s)).value.abandoned == 0
            && (!(s.cur.Busy? && s.cur.pieces > 0) ==> Follow(Log(s)).value.pieces == 0)
  {
    hide FitsAll, InBoundsAll, PendingIsCurrent, Ideal, WireAll, Emissions, MaxPieces, Follow, Filled, LogOf, CurInv;
    SameMax(s, Close(s));
    assert Begun(Close(s)) == Begun(s);
  }

  lemma CloseFollows(s: Sender)
    requires Follow(Log(s)).Some?
    ensures Log(Close(s)) == Log(s) + [PacketEnd] ==> Follow(Log(Close(s))) == Follow(Log(s))
  {
    assert (Log(s) + [PacketEnd])[..|Log(s)|] == Log(s);
  }

  /** The story goes on after any cancel; only the receiver may then be out of step. */
  lemma CancelStory(s: Sender)
    requires Story(s) && s.cur.Busy?
    ensures Story(s.(cur := Idle)) && Log(s.(cur := Idle)) == Log(s)
  {
    SameMax(s, s.(cur := Idle));
    hide WireAll, LogOf, MaxPieces, Follow, Filled;
  }

  /** Taking back a frame of which nothing was written is as if it had never come. */
  lemma CancelKeeps(s: Sender)
    requires SenderInv(s) && s.cur.Busy? && s.cur.used == 0
    ensures SenderInv(s.(cur := Idle))
  {
    CancelStory(s);
    SameFrames(s, s.(cur := Idle));
  }

  lemma CloseCur(s: Sender)
    requires s.Room() > 0 && CurInv(s) && (s.cur.Busy? && s.cur.pieces > 0 ==> Avail(s) <= 0)
    ensures CurInv(Close(s))
  {
    SameMax(s, Close(s));
    hide MaxPieces;
  }

  lemma NoWire()
    ensures PiecesOnly([]) && WireAll([]) == []
  {
  }

  lemma PacketEndEmits(p: Pending)
    ensures Advance(p, PacketEnd).1 == None && Fits(p, PacketEnd)
    ensures forall cfg :: InBounds(cfg, p, PacketEnd)
  {
  }

  // ----- the carrier packets at the other end -----

  ghost function Arrivals(es: seq<Event>): seq<Arrival>
    requires PiecesOnly(es)
  {
    if es == [] then [] else [Arrival(es[0].id, ChunkOf(es[0]))] + Arrivals(es[1..])
  }

  lemma WireReads(pre: seq<Byte>, e: Event, post: seq<Byte>)
    requires e.Piece? && IsCut(e) && e.id < U16 && |e.frame| < U16
    ensures ChunkAt(pre + Wire(e) + post, |pre|) == Some(Arrival(e.id, ChunkOf(e))) && |ChunkOf(e).data| == e.len
  {
    var w := Wire(e);
    var s := pre + w + post;
    var at := |pre|;
    assert forall k :: 0 <= k < |w| ==> s[at + k] == w[k];
    assert w[0..2] == Le16(e.id) && w[2..4] == Le16(e.start) && w[4..6] == Le16(e.len);
    assert s[at] == w[0] && s[at + 1] == w[1] && s[at + 2] == w[2] && s[at + 3] == w[3] && s[at + 4] == w[4] &&
        s[at + 5] == w[5];
    assert FromLe16(s, at) == e.id && FromLe16(s, at + 2) == e.start && FromLe16(s, at + 4) == e.len;
    assert s[at + 6] == w[6];
    assert s[at + HEADER..at + HEADER + e.len] == e.frame[e.start..e.start + e.len];
  }

  /** A packet of chunks parses back into exactly those chunks. */
  lemma {:induction false} PacketReads(pre: seq<Byte>, es: seq<Event>)
    requires PiecesOnly(es)
    ensures Parse(pre + WireAll(es), |pre|) == Arrivals(es)
    decreases |es|
  {
    hide Parse, Wire, ChunkAt, FromLe16, ChunkOf, IsCut;
    if es == [] {
      assert pre + WireAll(es) == pre;
      ParseEnd(pre);
    } else {
      var s := pre + WireAll(es);
      WireFront(es);
      Regroup(pre, Wire(es[0]), WireAll(es[1..]));
      FirstReads(pre, es[0], WireAll(es[1..]));
      PacketReads(pre + Wire(es[0]), es[1..]);
    }
  }

  lemma FirstReads(pre: seq<Byte>, e: Event, post: seq<Byte>)
    requires e.Piece? && IsCut(e) && e.id < U16 && |e.frame| < U16
    ensures var s := pre + Wire(e) + post;
            Parse(s, |pre|) == [Arrival(e.id, ChunkOf(e))] + Parse(s, |pre + Wire(e)|)
  {
    hide *;
    WireReads(pre, e, post);
    ParseUnfold(pre + Wire(e) + post, |pre|);
  }

  lemma WireFront(es: seq<Event>)
    requires PiecesOnly(es) && es != []
    ensures PiecesOnly(es[1..]) && WireAll(es) == Wire(es[0]) + WireAll(es[1..])
    ensures es[0].Piece? && IsCut(es[0]) && es[0].id < U16 && |es[0].frame| < U16
  {
  }

  lemma Regroup(a: seq<Byte>, b: seq<Byte>, c: seq<Byte>)
    ensures a + (b + c) == a + b + c
  {
  }

  lemma ParseEnd(s: seq<Byte>)
    ensures Parse(s, |s|) == []
  {
  }

  lemma ParseUnfold(s: seq<Byte>, pos: nat)
    requires pos <= |s|
    ensures var c := ChunkAt(s, pos);
            Parse(s, pos) == if c.None? then [] else [c.value] + Parse(s, pos + HEADER + |c.value.chunk.data|)
  {
  }

  lemma {:induction false} DeliverIsRun(cfg: Config, a: Asm, es: seq<Event>, rest: seq<Event>)
    requires cfg.Valid() && PiecesOnly(es) && WellFormed(rest) && WellFormed(es + rest)
    ensures var d := Deliver(cfg, a, Arrivals(es));
            var r := Run(cfg, d.asm, rest);
            Run(cfg, a, es + rest) == Outcome(r.asm, d.frames + r.frames)
    decreases |es|
  {
    hide Receive, Tick, ChunkOf, IsCut;
    if es == [] {
      assert es + rest == rest;
    } else {
      RunUnfold(cfg, a, es + rest);
      hide Run;
      var all := es + rest;
      assert all[0] == es[0] && all[1..] == es[1..] + rest;
      assert Arrivals(es)[1..] == Arrivals(es[1..]);
      DeliverIsRun(cfg, Step(cfg, a, es[0]).0, es[1..], rest);
    }
  }

  lemma RunUnfold(cfg: Config, a: Asm, evs: seq<Event>)
    requires cfg.Valid() && WellFormed(evs) && evs != []
    ensures var (b, out) := Step(cfg, a, evs[0]);
            var r := Run(cfg, b, evs[1..]);
            Run(cfg, a, evs) == r.(frames := (if out.Some? then [out.value] else []) + r.frames)
  {
  }

  lemma {:induction false} RunAppend(cfg: Config, a: Asm, front: seq<Event>, back: seq<Event>)
    requires cfg.Valid() && WellFormed(front) && WellFormed(back) && WellFormed(front + back)
    ensures var d := Run(cfg, a, front);
            var r := Run(cfg, d.asm, back);
            Run(cfg, a, front + back) == Outcome(r.asm, d.frames + r.frames)
    decreases |front|
  {
    hide Step;
    if front == [] {
      assert front + back == back;
    } else {
      assert (front + back)[0] == front[0] && (front + back)[1..] == front[1..] + back;
      RunAppend(cfg, Step(cfg, a, front[0]).0, front[1..], back);
    }
  }

  ghost function Packets(closed: seq<seq<Event>>): (r: seq<seq<Byte>>)
    requires forall i :: 0 <= i < |closed| ==> PiecesOnly(closed[i])
    ensures |r| == |closed| && forall i :: 0 <= i < |r| ==> r[i] == WireAll(closed[i])
  {
    seq(|closed|, i requires 0 <= i < |closed| => WireAll(closed[i]))
  }

  lemma {:induction false} ReadAppend(cfg: Config, a: Asm, front: seq<seq<Byte>>, last: seq<Byte>)
    requires cfg.Valid()
    ensures var d := ReadPackets(cfg, a, front);
            var r := ReadPacket(cfg, d.asm, last);
            ReadPackets(cfg, a, front + [last]) == Outcome(r.asm, d.frames + r.frames)
    decreases |front|
  {
    hide ReadPacket;
    var all := front + [last];
    if front == [] {
      assert all[0] == last && all[1..] == [];
    } else {
      assert all[0] == front[0] && all[1..] == front[1..] + [last];
      ReadAppend(cfg, ReadPacket(cfg, a, front[0]).asm, front[1..], last);
    }
  }

  /** Reading the packets' bytes does to the assembler what the chunks written into them say. */
  lemma {:induction false} PacketsAreLog(cfg: Config, a: Asm, closed: seq<seq<Event>>)
    requires cfg.Valid() && forall i :: 0 <= i < |closed| ==> PiecesOnly(closed[i])
    ensures WellFormed(LogOf(closed)) && ReadPackets(cfg, a, Packets(closed)) == Run(cfg, a, LogOf(closed))
    decreases |closed|
  {
    if closed != [] {
      hide Run, ReadPackets, ReadPacket, WireAll;
      var n := |closed| - 1;
      var es := closed[n];
      PacketsAreLog(cfg, a, closed[..n]);
      assert Packets(closed) == Packets(closed[..n]) + [WireAll(es)];
      ReadAppend(cfg, a, Packets(closed[..n]), WireAll(es));
      OnePacket(cfg, Run(cfg, a, LogOf(closed[..n])).asm, es);
      assert LogOf(closed) == LogOf(closed[..n]) + (es + [PacketEnd]);
      RunAppend(cfg, a, LogOf(closed[..n]), es + [PacketEnd]);
    }
  }

  lemma OnePacket(cfg: Config, a: Asm, es: seq<Event>)
    requires cfg.Valid() && PiecesOnly(es)
    ensures WellFormed(es + [PacketEnd]) && ReadPacket(cfg, a, WireAll(es)) == Run(cfg, a, es + [PacketEnd])
  {
    hide Receive, Tick;
    PacketReads([], es);
    assert [] + WireAll(es) == WireAll(es);
    DeliverIsRun(cfg, a, es, [PacketEnd]);
    EndOnly(cfg, Deliver(cfg, a, Arrivals(es)).asm);
  }

  lemma EndOnly(cfg: Config, a: Asm)
    requires cfg.Valid()
    ensures Run(cfg, a, [PacketEnd]) == Outcome(Tick(cfg, a), [])
  {
    hide Tick;
    assert [PacketEnd][1..] == [];
  }

  /**
   * In-order round trip, over any number of frames, so also when the 16-bit frame ids wrap. Whenever no
   * packet is half filled, a receiver that can hold the frames and is given the carrier packets emits
   * exactly the finished frames, in order, byte for byte.
   */
  lemma InOrderRoundTrip(cfg: Config, s: Sender)
    requires SenderInv(s) && s.open == [] && Holds(cfg, s)
    ensures ReadPackets(cfg, Fresh, Packets(s.closed)).frames == s.done
  {
    hide CurInv, PendingIsCurrent, FitsAll, InBoundsAll, Ideal, Run, ReadPackets, Emissions, LogOf, WireAll;
    PacketsAreLog(cfg, Fresh, s.closed);
    assert Log(s) == LogOf(s.closed);
    FreshMirrors(cfg);
    AssemblerIsIdeal(cfg, Fresh, map[], Log(s));
    EmissionsPayloads(s.done);
  }

  lemma FreshMirrors(cfg: Config)
    requires cfg.Valid()
    ensures Inv(cfg, Fresh) && PendingInv(map[]) && Mirrors(cfg, Fresh, map[])
  {
  }

  lemma EmissionsPayloads(done: seq<seq<Byte>>)
    ensures Payloads(Emissions(done)) == done
  {
  }

  /** Every packet fits the carrier. */
  lemma PacketsFit(s: Sender)
    requires Story(s)
    ensures forall i :: 0 <= i < |s.closed| ==> |Packets(s.closed)[i]| <= s.mtu
  {
  }
}
