/**
 * Where the ids do come back too soon, two frames are mixed: a frame cancelled half written, frames without
 * bytes for one round of the ids, and another frame, and the receiver emits bytes of two frames as one. With
 * this, exactly the configurations in which cancelling is safe are known.
 */
module CancelMixing {
  import opened Bytes
  import opened Chunks
  import opened Division
  import opened Options
  import opened AssemblerSpec
  import opened PacketParse
  import opened Reassembly
  import opened SenderSpec
  import opened SenderRuns
  import opened CancelLoss
  import opened CancelSafety

  /** The receiver takes frames a little longer than a packet, and the chunk length has no limit of its own. */
  predicate Roomier(cfg: Config, mtu: nat, chunkMtu: int) {
    && cfg.Valid() && mtu + 1 <= cfg.mtu
    && HEADER < mtu && mtu + 1 < U16 && (chunkMtu < 0 || mtu - HEADER <= chunkMtu)
  }

  // ----- sender and receiver side by side -----

  /** The receiver, after everything the disassembler wrote, holds the entries `used`. */
  ghost predicate Joint(cfg: Config, s: Sender, used: seq<Frame>) {
    && cfg.Valid() && Reached(s) && WellFormed(Log(s))
    && Run(cfg, Fresh, Log(s)).asm == Asm(|s.closed|, used)
  }

  ghost function Emitted(cfg: Config, s: Sender): seq<seq<Byte>>
    requires cfg.Valid() && WellFormed(Log(s))
  {
    Run(cfg, Fresh, Log(s)).frames
  }

  lemma JointStart(cfg: Config, mtu: nat, chunkMtu: int)
    requires cfg.Valid() && mtu > HEADER && chunkMtu != 0
    ensures Joint(cfg, Start(mtu, chunkMtu), [])
  {
    StartReached(mtu, chunkMtu);
    hide Reached;
    assert Log(Start(mtu, chunkMtu)) == [];
  }

  /** Taking or giving up a frame is nothing to the receiver. */
  lemma JointQuiet(cfg: Config, s: Sender, used: seq<Frame>, act: Act)
    requires Joint(cfg, s, used) && Allowed(s, act) && (act.Take? || act.GiveUp?)
    ensures Joint(cfg, Did(s, act), used) && Emitted(cfg, Did(s, act)) == Emitted(cfg, s)
  {
    ReachedStep(s, act);
    hide Reached, Run;
    assert Log(Did(s, act)) == Log(s);
  }

  lemma JointEnd(cfg: Config, s: Sender, used: seq<Frame>)
    requires Joint(cfg, s, used) && Allowed(s, Act.EndPacket) && |s.closed| < MAX_TIME
    ensures Joint(cfg, Close(s), used) && Emitted(cfg, Close(s)) == Emitted(cfg, s)
  {
    ReachedStep(s, Act.EndPacket);
    CloseLogs(s);
    hide Reached, Run, LogOf, Tick;
    RunSnoc(cfg, Fresh, Log(s), Event.PacketEnd);
    TickUp(cfg, |s.closed|, used);
  }

  lemma CloseLogs(s: Sender)
    ensures Log(Close(s)) == Log(s) + [Event.PacketEnd] && |Close(s).closed| == |s.closed| + 1
    ensures WellFormed(Log(s)) ==> WellFormed(Log(Close(s)))
  {
    var t := Close(s);
    assert t.closed[..|s.closed|] == s.closed;
    assert Log(t) == Log(s) + [Event.PacketEnd];
  }

  lemma TickUp(cfg: Config, t: nat, used: seq<Frame>)
    requires t < MAX_TIME
    ensures Tick(cfg, Asm(t, used)) == Asm(t + 1, used)
  {
  }

  /** A chunk that the receiver takes as given. */
  lemma JointWrite(cfg: Config, s: Sender, used: seq<Frame>, next: seq<Frame>, out: Option<seq<Byte>>)
    requires Joint(cfg, s, used) && Allowed(s, Write)
    requires IsCut(NextPiece(s, NextLen(s)))
    requires var e := NextPiece(s, NextLen(s));
             Receive(cfg, Asm(|s.closed|, used), e.id, ChunkOf(e)) == (Asm(|s.closed|, next), out)
    ensures var t := Put(s, NextLen(s));
            Joint(cfg, t, next) && Emitted(cfg, t) == Emitted(cfg, s) + if out.Some? then [out.value] else []
  {
    var e := NextPiece(s, NextLen(s));
    ReachedStep(s, Write);
    PutLogs(s, NextLen(s));
    hide Reached, Run, LogOf, Receive, NextLen;
    RunSnoc(cfg, Fresh, Log(s), e);
  }

  lemma PutLogs(s: Sender, len: nat)
    requires s.cur.Busy?
    ensures Log(Put(s, len)) == Log(s) + [NextPiece(s, len)] && Put(s, len).closed == s.closed
    ensures WellFormed(Log(s)) && IsCut(NextPiece(s, len)) ==> WellFormed(Log(Put(s, len)))
  {
    assert Log(Put(s, len)) == Log(s) + [NextPiece(s, len)];
  }

  // ----- what the receiver does with one chunk when it holds at most one entry -----

  /** A chunk for an id not in use, the pool having room: the entry it makes, or the frame it is. */
  lemma NewEntry(cfg: Config, t: nat, used: seq<Frame>, id: nat, c: Chunk)
    requires cfg.Valid() && cfg.numChunks >= 2 && |used| < cfg.numFrames && Find(used, id) == |used|
    requires c.End() <= cfg.mtu
    ensures Receive(cfg, Asm(t, used), id, c) ==
            if Complete([c]) then (Asm(t, used), Some(Content([c]))) else (Asm(t, used + [Frame(id, t, [c])]), None)
  {
    hide Complete, Content, Place, Find;
    assert Admit(cfg, Asm(t, used), id) == Asm(t, used + [Frame(id, t, [])]);
    Placed(cfg, t, used, id, c);
  }

  lemma Placed(cfg: Config, t: nat, used: seq<Frame>, id: nat, c: Chunk)
    requires cfg.numChunks >= 2 && Find(used, id) == |used|
    ensures Place(cfg, Asm(t, used + [Frame(id, t, [])]), id, c) ==
            if Complete([c]) then (Asm(t, used), Some(Content([c]))) else (Asm(t, used + [Frame(id, t, [c])]), None)
  {
    hide Complete, Content, Find;
    var m := used + [Frame(id, t, [])];
    FindLast(used, Frame(id, t, []));
    assert [] + [c] == [c];
    assert Consistent([c]);
    hide Consistent;
    assert Drop(m, |used|) == used;
    assert m[|used| := Frame(id, t, [c])] == used + [Frame(id, t, [c])];
  }

  lemma {:induction false} FindLast(used: seq<Frame>, f: Frame)
    requires Find(used, f.id) == |used|
    ensures Find(used + [f], f.id) == |used|
  {
    if used != [] {
      assert (used + [f])[1..] == used[1..] + [f];
      FindLast(used[1..], f);
    }
  }

  /** A chunk for the id of the only entry, which is still remembered. */
  lemma OwnChunk(cfg: Config, t: nat, f: Frame, c: Chunk)
    requires cfg.Valid() && t - f.time <= cfg.numFrames && c.End() <= cfg.mtu
    ensures var cs := f.chunks + [c];
            Receive(cfg, Asm(t, [f]), f.id, c) ==
              if !Consistent(cs) then (Asm(t, []), None)
              else if Complete(cs) then (Asm(t, []), Some(Content(cs)))
              else if |cs| == cfg.numChunks then (Asm(t, []), None)
              else (Asm(t, [Frame(f.id, t, cs)]), None)
  {
    hide Consistent, Complete, Content;
    assert Find([f], f.id) == 0;
    assert Drop([f], 0) == [];
    assert [f][0 := Frame(f.id, t, f.chunks + [c])] == [Frame(f.id, t, f.chunks + [c])];
  }

  lemma EmptyIsWhole()
    ensures var c := Chunk(0, [], true); Complete([c]) && Content([c]) == []
  {
    var c := Chunk(0, [], true);
    NothingCovered();
    CoveredStep([], c);
    assert [] + [c] == [c];
    assert [c][0].last && Covered([c]) == {};
    assert Reach([c]) == 0;
  }

  lemma EmptyFrameSeen(cfg: Config, t: nat, f: Frame, id: nat)
    requires cfg.Valid() && cfg.numChunks >= 2 && cfg.numFrames >= 2 && id != f.id
    ensures Receive(cfg, Asm(t, [f]), id, Chunk(0, [], true)) == (Asm(t, [f]), Some([]))
  {
    EmptyIsWhole();
    hide Complete, Content, Receive;
    assert Find([f], id) == 1;
    NewEntry(cfg, t, [f], id, Chunk(0, [], true));
  }

  // ----- frames without bytes, one for each id -----

  ghost predicate AllZero(frames: seq<seq<Byte>>) {
    forall f, k :: f in frames && 0 <= k < |f| ==> f[k] == 0
  }

  lemma AllZeroSnoc(frames: seq<seq<Byte>>, f: seq<Byte>)
    requires AllZero(frames) && forall k :: 0 <= k < |f| ==> f[k] == 0
    ensures AllZero(frames + [f])
  {
  }

  /** Between frames, the only entry at the receiver being f. */
  ghost predicate Between(cfg: Config, s: Sender, f: Frame) {
    Joint(cfg, s, [f]) && s.cur.Idle? && AllZero(s.done) && s.mtu > HEADER
  }

  ghost predicate SameKind(s: Sender, t: Sender) {
    t.mtu == s.mtu && t.chunkMtu == s.chunkMtu
  }

  lemma Filler(cfg: Config, s: Sender, f: Frame) returns (t: Sender)
    requires Between(cfg, s, f) && cfg.numChunks >= 2 && cfg.numFrames >= 2 && Avail(s) > 0 && s.Id() != f.id
    ensures Between(cfg, t, f) && SameKind(s, t) && |t.done| == |s.done| + 1 && t.closed == s.closed
    ensures t.open != [] && Filled(t.open) == Filled(s.open) + HEADER
  {
    var busy := Accept(s, []);
    FillerPut(s);
    hide Joint, AllZero;
    JointQuiet(cfg, s, [f], Take([]));
    EmptyFrameSeen(cfg, |s.closed|, f, s.Id());
    t := Put(busy, NextLen(busy));
    JointStep(cfg, busy, [f], [f], Some([]));
    AllZeroSnoc(s.done, []);
  }

  /** JointWrite with its hypothesis about the chunk spelt out. */
  lemma JointStep(cfg: Config, s: Sender, used: seq<Frame>, next: seq<Frame>, out: Option<seq<Byte>>)
    requires Joint(cfg, s, used) && Allowed(s, Write) && cfg.Valid() && IsCut(NextPiece(s, NextLen(s)))
    requires Receive(cfg, Asm(|s.closed|, used), s.Id(), ChunkOf(NextPiece(s, NextLen(s)))) ==
               (Asm(|s.closed|, next), out)
    ensures Joint(cfg, Put(s, NextLen(s)), next)
    ensures out.Some? ==> out.value in Emitted(cfg, Put(s, NextLen(s)))
  {
    hide Receive;
    JointWrite(cfg, s, used, next, out);
  }

  lemma FillerPut(s: Sender)
    requires s.cur.Idle? && Avail(s) > 0
    ensures var busy := Accept(s, []);
            && Allowed(s, Take([])) && Did(s, Take([])) == busy && busy.closed == s.closed && busy.Id() == s.Id()
            && Allowed(busy, Write) && IsCut(NextPiece(busy, NextLen(busy)))
            && ChunkOf(NextPiece(busy, NextLen(busy))) == Chunk(0, [], true)
            && var t := Put(busy, NextLen(busy));
            && t.cur.Idle? && t.done == s.done + [[]] && t.closed == s.closed && SameKind(s, t)
            && t.open != [] && Filled(t.open) == Filled(s.open) + HEADER
  {
    var busy := Accept(s, []);
    FilledSnoc(s.open, NextPiece(busy, 0));
  }

  lemma ModBase(base: nat, j: nat)
    requires base % U16 == 0 && j < U16
    ensures (base + j) % U16 == j
  {
  }

  /** k frames without bytes into the open packet. */
  lemma {:induction false} FillOpen(cfg: Config, s: Sender, f: Frame, base: nat, j: nat, k: nat) returns (t: Sender)
    requires Between(cfg, s, f) && cfg.numChunks >= 2 && cfg.numFrames >= 2 && f.id == 0
    requires base % U16 == 0 && |s.done| == base + j && 0 < j && j + k <= U16
    requires k > 0 ==> Filled(s.open) + k * HEADER < s.mtu
    ensures Between(cfg, t, f) && SameKind(s, t) && |t.done| == base + j + k && t.closed == s.closed
    ensures Filled(t.open) == Filled(s.open) + k * HEADER && (k > 0 ==> t.open != []) && (k == 0 ==> t == s)
    decreases k
  {
    hide Between, Filled;
    if k == 0 {
      t := s;
    } else {
      var u := FillOpen(cfg, s, f, base, j, k - 1);
      ModBase(base, j + k - 1);
      t := Filler(cfg, u, f);
    }
  }

  lemma EndFull(cfg: Config, s: Sender, f: Frame) returns (t: Sender)
    requires Between(cfg, s, f) && s.open != [] && |s.closed| < MAX_TIME
    ensures Between(cfg, t, f) && SameKind(s, t) && t.done == s.done && t.open == [] && |t.closed| == |s.closed| + 1
    ensures Filled(t.open) == 0
  {
    hide Joint;
    t := Close(s);
    JointEnd(cfg, s, [f]);
  }

  lemma PacketHolds(mtu: nat)
    requires mtu > HEADER
    ensures PerPacket(mtu) > 0 && PerPacket(mtu) * HEADER < mtu <= PerPacket(mtu) * HEADER + HEADER
    ensures Behind(mtu) > 0 ==> HEADER + 1 + Behind(mtu) * HEADER < mtu
    ensures Behind(mtu) == PerPacket(mtu) - 1 || (Behind(mtu) + 2 == PerPacket(mtu))
  {
  }

  /** m packets full of them. */
  lemma {:induction false} FillPackets(cfg: Config, s: Sender, f: Frame, base: nat, j: nat, m: nat) returns (t: Sender)
    requires Between(cfg, s, f) && cfg.numChunks >= 2 && cfg.numFrames >= 2 && f.id == 0
    requires base % U16 == 0 && |s.done| == base + j && 0 < j && j + m * PerPacket(s.mtu) <= U16
    requires s.open == [] && |s.closed| + m < MAX_TIME
    ensures Between(cfg, t, f) && SameKind(s, t) && |t.done| == base + j + m * PerPacket(s.mtu)
    ensures t.open == [] && |t.closed| == |s.closed| + m
    decreases m
  {
    var n := PerPacket(s.mtu);
    if m == 0 {
      t := s;
    } else {
      MulStep(m, n);
      PacketHolds(s.mtu);
      hide Between, PerPacket;
      var u := FillPackets(cfg, s, f, base, j, m - 1);
      NoneFilled();
      var v := FillOpen(cfg, u, f, base, j + (m - 1) * n, n);
      t := EndFull(cfg, v, f);
    }
  }

  lemma MulStep(m: nat, n: nat)
    requires m > 0
    ensures m * n == (m - 1) * n + n && (m - 1) * n >= 0
  {
  }

  lemma NoneFilled()
    ensures Filled([]) == 0
  {
  }

  /** The bytes free for the first chunk after such a round. */
  function Landing(mtu: nat): nat
    requires mtu > HEADER
  {
    var n := PerPacket(mtu);
    if n > 0 && U16 % n <= Behind(mtu) then mtu - HEADER - (n - 1) * HEADER else mtu - HEADER
  }

  lemma LandingRange(mtu: nat)
    requires mtu > HEADER
    ensures 0 < Landing(mtu) <= mtu - HEADER && (Landing(mtu) == mtu - HEADER || Landing(mtu) <= HEADER)
  {
    PacketHolds(mtu);
    var n := PerPacket(mtu);
    assert mtu - HEADER - (n - 1) * HEADER == mtu - n * HEADER;
  }

  /** The packets of a round are no more than the receiver remembers. */
  lemma RoundCounts(cfg: Config, mtu: nat)
    requires HEADER < mtu < U16 && !IdsOutlast(cfg, mtu)
    ensures var n := PerPacket(mtu);
            var (q, rest) := (U16 / n, U16 % n);
            && n > 0 && q > 0 && U16 == (q - 1) * n + n + rest && U16 == q * n + rest && q <= U16
            && if rest <= Behind(mtu) then q <= cfg.numFrames
               else q + 1 <= cfg.numFrames && Behind(mtu) + 2 == n && rest == n - 1
  {
    var n := PerPacket(mtu);
    PacketHolds(mtu);
    var q, rest := U16 / n, U16 % n;
    ByDivision(U16, n);
    MultipleWithin(U16, n, 1);
    MulStep(q, n);
    MulMono(1, n, q);
    if rest <= Behind(mtu) {
      MulMono(cfg.numFrames, q - 1, n);
    } else {
      MulMono(cfg.numFrames, q, n);
    }
  }

  /** The round when what is over fits behind the last piece: it ends in a packet with room for one chunk more. */
  lemma RoundInto(cfg: Config, s: Sender, f: Frame, base: nat, q: nat, rest: nat) returns (t: Sender)
    requires Between(cfg, s, f) && cfg.numChunks >= 2 && cfg.numFrames >= 2 && f.id == 0 && s.mtu > HEADER
    requires base % U16 == 0 && |s.done| == base + 1 && s.open != [] && Filled(s.open) == HEADER + 1
    requires q > 0 && (q - 1) * PerPacket(s.mtu) + PerPacket(s.mtu) + rest == U16 && rest <= Behind(s.mtu)
    requires |s.closed| + q < MAX_TIME
    ensures Between(cfg, t, f) && SameKind(s, t) && |t.done| == base + U16 && |t.closed| == |s.closed| + q
    ensures Filled(t.open) == (PerPacket(s.mtu) - 1) * HEADER
  {
    hide *;
    PacketHolds(s.mtu);
    MulStep(q, PerPacket(s.mtu));
    IdRange((q - 1) * PerPacket(s.mtu), PerPacket(s.mtu), rest);
    var v := BehindThenEnd(cfg, s, f, base, rest);
    SameFields(s, v);
    var w := FillPackets(cfg, v, f, base, 1 + rest, q - 1);
    SameFields(v, w);
    t := LastPacket(cfg, w, f, base, q, rest);
    SameFields(w, t);
    KindOf(s, t);
  }

  lemma IdRange(full: int, n: nat, rest: nat)
    requires full >= 0 && n > 0 && full + n + rest == U16
    ensures rest < U16
  {
  }

  lemma LastPacket(cfg: Config, w: Sender, f: Frame, base: nat, q: nat, rest: nat) returns (t: Sender)
    requires Between(cfg, w, f) && cfg.numChunks >= 2 && cfg.numFrames >= 2 && f.id == 0 && w.mtu > HEADER
    requires base % U16 == 0 && w.open == [] && q > 0
    requires (q - 1) * PerPacket(w.mtu) + PerPacket(w.mtu) + rest == U16
    requires |w.done| == base + (1 + rest) + (q - 1) * PerPacket(w.mtu)
    ensures Between(cfg, t, f) && SameKind(w, t) && |t.done| == base + U16 && |t.closed| == |w.closed|
    ensures Filled(t.open) == (PerPacket(w.mtu) - 1) * HEADER
  {
    PacketHolds(w.mtu);
    NoneFilled();
    MulStep(q, PerPacket(w.mtu));
    hide Between, PerPacket, Behind, Filled;
    var n := PerPacket(w.mtu);
    var j := 1 + rest + (q - 1) * n;
    t := FillOpen(cfg, w, f, base, j, n - 1);
  }

  lemma BehindThenEnd(cfg: Config, s: Sender, f: Frame, base: nat, k: nat) returns (t: Sender)
    requires Between(cfg, s, f) && cfg.numChunks >= 2 && cfg.numFrames >= 2 && f.id == 0
    requires base % U16 == 0 && |s.done| == base + 1 && s.open != [] && Filled(s.open) == HEADER + 1
    requires HEADER < s.mtu && k <= Behind(s.mtu) && k < U16 && |s.closed| < MAX_TIME
    ensures Between(cfg, t, f) && SameKind(s, t) && |t.done| == base + 1 + k && |t.closed| == |s.closed| + 1
    ensures t.open == []
  {
    PacketHolds(s.mtu);
    hide Between, PerPacket, Behind, Filled;
    var u := FillOpen(cfg, s, f, base, 1, k);
    t := EndFull(cfg, u, f);
  }

  /** The round otherwise: it ends before an empty packet. */
  lemma RoundUpTo(cfg: Config, s: Sender, f: Frame, base: nat, q: nat) returns (t: Sender)
    requires Between(cfg, s, f) && cfg.numChunks >= 2 && cfg.numFrames >= 2 && f.id == 0 && s.mtu > HEADER
    requires base % U16 == 0 && |s.done| == base + 1 && s.open != [] && Filled(s.open) == HEADER + 1
    requires q * PerPacket(s.mtu) + Behind(s.mtu) + 1 == U16 && |s.closed| + q + 1 < MAX_TIME
    ensures Between(cfg, t, f) && SameKind(s, t) && |t.done| == base + U16 && |t.closed| == |s.closed| + q + 1
    ensures Filled(t.open) == 0
  {
    NoneFilled();
    hide Between, PerPacket, Behind, Filled;
    var v := BehindThenEnd(cfg, s, f, base, Behind(s.mtu));
    t := FillPackets(cfg, v, f, base, 1 + Behind(s.mtu), q);
  }

  /** From just behind the last piece of a frame to the same id again, as fast as that goes. */
  lemma Round(cfg: Config, s: Sender, f: Frame, base: nat) returns (t: Sender)
    requires Between(cfg, s, f) && cfg.numChunks >= 2 && cfg.numFrames >= 2 && f.id == 0 && HEADER < s.mtu < U16
    requires base % U16 == 0 && |s.done| == base + 1 && s.open != [] && Filled(s.open) == HEADER + 1
    requires !IdsOutlast(cfg, s.mtu) && |s.closed| + U16 + 1 < MAX_TIME
    ensures Between(cfg, t, f) && SameKind(s, t) && |t.done| == base + U16 && Avail(t) == Landing(s.mtu)
    ensures |s.closed| <= |t.closed| <= |s.closed| + cfg.numFrames && |t.closed| <= |s.closed| + U16 + 1
  {
    var n := PerPacket(s.mtu);
    RoundCounts(cfg, s.mtu);
    var (q, rest) := (U16 / n, U16 % n);
    hide Between, PerPacket, Behind, Filled, IdsOutlast;
    if rest <= Behind(s.mtu) {
      t := RoundInto(cfg, s, f, base, q, rest);
    } else {
      t := RoundUpTo(cfg, s, f, base, q);
    }
  }

  // ----- the frames that leave and meet a remnant -----

  function Zeros(n: nat): (r: seq<Byte>)
    ensures |r| == n && forall k :: 0 <= k < n ==> r[k] == 0
  {
    seq(n, _ => 0)
  }

  function Ones(n: nat): (r: seq<Byte>)
    ensures |r| == n && forall k :: 0 <= k < n ==> r[k] == 1
  {
    seq(n, _ => 1)
  }

  /** The last byte of a frame, alone. */
  function Tail(b: nat): Chunk { Chunk(b, [0], true) }

  /** The first bytes of a frame, and those between, with more to come. */
  function Part(from: nat, to: nat, x: Byte): Chunk
    requires from <= to
  {
    Chunk(from, seq(to - from, _ => x), false)
  }

  lemma TailAlone(b: nat)
    requires b > 0
    ensures !Complete([Tail(b)]) && Consistent([Tail(b)])
  {
    TailIsCut(b);
    CoveredOne(Tail(b));
    TailSpan(b);
    hide Covered, Complete, Consistent, CutFrom, Tail, Zeros;
    CutsComplete([Tail(b)], Zeros(b + 1));
    assert 0 !in Range(b, b + 1) && 0 in Range(0, b + 1);
  }

  lemma TailIsCut(b: nat)
    ensures CutFrom([Tail(b)], Zeros(b + 1)) && Consistent([Tail(b)])
  {
    assert Zeros(b + 1)[b..b + 1] == [0];
  }

  lemma PartAlone(to: nat, x: Byte)
    ensures !Complete([Part(0, to, x)]) && Consistent([Part(0, to, x)])
  {
  }

  /** A second beginning of the same frame does not fit. */
  lemma Clash(cs: seq<Chunk>, k: nat, c: Chunk)
    requires k < |cs| && Overlap(cs[k], c)
    ensures !Consistent(cs + [c])
  {
    var got := cs + [c];
    assert got[k] == cs[k] && got[|cs|] == c;
  }

  /** The bytes of one frame and the last byte of another. */
  function Mixed(b: nat, x: Byte): (r: seq<Byte>)
    ensures |r| == b + 1 && (b > 0 ==> r[0] == x)
  {
    seq(b, _ => x) + [0]
  }

  lemma TailAndPart(b: nat, a: nat, x: Byte)
    requires 0 < a < b
    ensures var cs := [Tail(b), Part(0, a, x)]; Consistent(cs) && !Complete(cs)
  {
    var cs := [Tail(b), Part(0, a, x)];
    MixedCuts(b, a, x);
    InCovered(cs);
    hide Consistent, Apart, Content, CutFrom, Covered, Complete;
    CutsAreConsistent(cs, Mixed(b, x));
    CutsComplete(cs, Mixed(b, x));
    assert !cs[0].Writes(a) && !cs[1].Writes(a);
    assert a !in Covered(cs);
    assert a in Range(0, b + 1);
  }

  lemma TailAndParts(b: nat, a: nat)
    requires 0 < a < b
    ensures var cs := [Tail(b), Part(0, a, 1), Part(a, b, 1)];
            Consistent(cs) && Complete(cs) && Content(cs) == Mixed(b, 1)
  {
    var cs := [Tail(b), Part(0, a, 1), Part(a, b, 1)];
    MixedCuts(b, a, 1);
    PartsCover(b, a);
    hide Consistent, Apart, Content, CutFrom, Covered, Complete, Range;
    CutsAreConsistent(cs, Mixed(b, 1));
    CutsComplete(cs, Mixed(b, 1));
  }

  lemma CoveredOne(x: Chunk)
    ensures Covered([x]) == Range(x.start, x.End())
  {
    hide Range;
    assert [x][..0] == [];
    NothingCovered();
  }

  lemma CoveredTwo(x: Chunk, y: Chunk)
    ensures Covered([x, y]) == Range(x.start, x.End()) + Range(y.start, y.End())
  {
    hide Covered, Range;
    CoveredOne(x);
    CoveredStep([x], y);
    TwoChunks(x, y);
  }

  lemma TwoChunks(x: Chunk, y: Chunk)
    ensures [x] + [y] == [x, y]
  {
  }

  lemma CoveredThree(x: Chunk, y: Chunk, z: Chunk)
    ensures Covered([x, y, z]) == Range(x.start, x.End()) + Range(y.start, y.End()) + Range(z.start, z.End())
  {
    hide Covered, Range;
    CoveredTwo(x, y);
    CoveredStep([x, y], z);
    assert [x, y] + [z] == [x, y, z];
  }

  lemma PartsCover(b: nat, a: nat)
    requires 0 < a < b
    ensures Covered([Tail(b), Part(0, a, 1), Part(a, b, 1)]) == Range(0, b + 1)
  {
    hide Covered, Part, Tail, Range;
    CoveredThree(Tail(b), Part(0, a, 1), Part(a, b, 1));
    PartSpan(0, a);
    PartSpan(a, b);
    TailSpan(b);
    ThreeRanges(b, a);
  }

  lemma ThreeRanges(b: nat, a: nat)
    requires 0 < a < b
    ensures Range(b, b + 1) + Range(0, a) + Range(a, b) == Range(0, b + 1)
  {
    hide Range;
  }

  lemma PartSpan(from: nat, to: nat)
    requires from <= to
    ensures Part(from, to, 1).start == from && Part(from, to, 1).End() == to
  {
  }

  lemma TailSpan(b: nat)
    ensures Tail(b).start == b && Tail(b).End() == b + 1
  {
  }

  lemma MixedCuts(b: nat, a: nat, x: Byte)
    requires 0 < a < b
    ensures var cs := [Tail(b), Part(0, a, x), Part(a, b, x)];
            CutFrom(cs, Mixed(b, x)) && Apart(cs) && CutFrom(cs[..2], Mixed(b, x)) && Apart(cs[..2])
            && cs[..2] == [Tail(b), Part(0, a, x)]
  {
    var m := Mixed(b, x);
    assert m[0..a] == Part(0, a, x).data && m[a..b] == Part(a, b, x).data && m[b..b + 1] == [0];
  }

  lemma TailAndFirst(b: nat)
    requires b > 0
    ensures var cs := [Tail(b), Part(0, b, 1)]; Consistent(cs) && Complete(cs) && Content(cs) == Mixed(b, 1)
  {
    var cs := [Tail(b), Part(0, b, 1)];
    FirstCuts(b);
    FirstCovers(b);
    hide Consistent, Apart, Content, CutFrom, Covered, Complete, Range;
    CutsAreConsistent(cs, Mixed(b, 1));
    CutsComplete(cs, Mixed(b, 1));
  }

  lemma FirstCuts(b: nat)
    requires b > 0
    ensures CutFrom([Tail(b), Part(0, b, 1)], Mixed(b, 1)) && Apart([Tail(b), Part(0, b, 1)])
  {
    var m := Mixed(b, 1);
    assert m[0..b] == Part(0, b, 1).data && m[b..b + 1] == [0];
  }

  lemma FirstCovers(b: nat)
    requires b > 0
    ensures Covered([Tail(b), Part(0, b, 1)]) == Range(0, b + 1)
  {
    hide Covered, Part, Tail;
    CoveredTwo(Tail(b), Part(0, b, 1));
    PartSpan(0, b);
    TailSpan(b);
    assert Range(b, b + 1) + Range(0, b) == Range(0, b + 1);
  }

  // ----- the course of events -----

  /** What writing does when the packet's room is the only limit. */
  lemma WriteShape(s: Sender, len: nat)
    requires s.cur.Busy? && s.cur.used < |s.cur.frame| && 0 < len <= Avail(s)
    requires len == Avail(s) || (len < Avail(s) && s.cur.used + len == |s.cur.frame|)
    requires s.cur.used + len <= |s.cur.frame| && (s.chunkMtu < 0 || s.mtu - HEADER <= s.chunkMtu)
    ensures Allowed(s, Write) && NextLen(s) == len && IsCut(NextPiece(s, len))
    ensures ChunkOf(NextPiece(s, len)) ==
            Chunk(s.cur.used, s.cur.frame[s.cur.used..s.cur.used + len], s.cur.used + len == |s.cur.frame|)
    ensures var t, to := Put(s, len), s.cur.used + len;
            && t.closed == s.closed && SameKind(s, t) && t.open != [] && Avail(t) == Avail(s) - len - HEADER
            && Filled(t.open) == Filled(s.open) + HEADER + len
            && if to == |s.cur.frame| then t.cur == Idle && t.done == s.done + [s.cur.frame]
               else t.done == s.done && t.cur.Busy? && t.cur.frame == s.cur.frame && t.cur.used == to
  {
    FilledSnoc(s.open, NextPiece(s, len));
  }

  /** A whole packet of a frame whose bytes clash with the entry, and then its last byte, which stays alone. */
  lemma ClashThenTail(cfg: Config, s: Sender, f: Frame, from: nat, to: nat, k: nat) returns (t: Sender)
    requires cfg.numChunks >= 2 && Roomier(cfg, s.mtu, s.chunkMtu) && Joint(cfg, s, [f]) && AllZero(s.done)
    requires f.id == s.Id()
    requires s.open == [] && s.cur.Busy? && s.cur.frame == Zeros(to + 1) && s.cur.used == from
    requires to - from == s.mtu - HEADER && to + 1 <= cfg.mtu && k < |f.chunks|
    requires Overlap(f.chunks[k], Part(from, to, 0))
    requires |s.closed| - f.time <= cfg.numFrames && |s.closed| < MAX_TIME
    ensures Between(cfg, t, Frame(f.id, |t.closed|, [Tail(to)])) && SameKind(s, t)
    ensures |t.closed| == |s.closed| + 1 && |t.done| == |s.done| + 1 && t.open != [] && Filled(t.open) == HEADER + 1
  {
    NoneFilled();
    hide Joint, AllZero, Filled;
    WriteShape(s, to - from);
    assert Zeros(to + 1)[from..to] == Part(from, to, 0).data;
    Clash(f.chunks, k, Part(from, to, 0));
    OwnChunk(cfg, |s.closed|, f, Part(from, to, 0));
    JointStep(cfg, s, [f], [], None);
    var u := Put(s, to - from);
    JointEnd(cfg, u, []);
    t := TailWritten(cfg, Close(u), to);
  }

  lemma TailWritten(cfg: Config, s: Sender, to: nat) returns (t: Sender)
    requires cfg.numChunks >= 2 && Roomier(cfg, s.mtu, s.chunkMtu) && Joint(cfg, s, []) && AllZero(s.done) && to > 0
    requires to + 1 <= cfg.mtu
    requires s.open == [] && s.cur.Busy? && s.cur.frame == Zeros(to + 1) && s.cur.used == to
    ensures Between(cfg, t, Frame(s.Id(), |t.closed|, [Tail(to)])) && SameKind(s, t)
    ensures t.closed == s.closed && |t.done| == |s.done| + 1 && t.open != [] && Filled(t.open) == HEADER + 1
  {
    NoneFilled();
    hide Joint, AllZero, Filled;
    WriteShape(s, 1);
    assert Zeros(to + 1)[to..to + 1] == [0];
    TailAlone(to);
    assert Find([], s.Id()) == 0;
    NewEntry(cfg, |s.closed|, [], s.Id(), Tail(to));
    var none: seq<Frame> := [];
    assert none + [Frame(s.Id(), |s.closed|, [Tail(to)])] == [Frame(s.Id(), |s.closed|, [Tail(to)])];
    JointStep(cfg, s, [], [Frame(s.Id(), |s.closed|, [Tail(to)])], None);
    t := Put(s, 1);
    AllZeroSnoc(s.done, s.cur.frame);
  }

  /** A frame is taken, a packet of it written and sent, and the rest of it cancelled. */
  lemma FirstPacket(cfg: Config, mtu: nat, chunkMtu: int, frame: seq<Byte>) returns (d: Sender)
    requires Roomier(cfg, mtu, chunkMtu) && chunkMtu != 0 && cfg.numFrames >= 2 && cfg.numChunks >= 2
    requires frame == Zeros(mtu - HEADER + 1)
    ensures Between(cfg, d, Frame(0, 0, [Part(0, mtu - HEADER, 0)])) && d.mtu == mtu && d.chunkMtu == chunkMtu
    ensures d.open == [] && |d.closed| == 1 && d.done == [] && d.Id() == 0 && Avail(d) == mtu - HEADER
  {
    var room := mtu - HEADER;
    var s := Start(mtu, chunkMtu);
    NoneFilled();
    JointStart(cfg, mtu, chunkMtu);
    hide Joint, Filled;
    JointQuiet(cfg, s, [], Take(frame));
    var a := Accept(s, frame);
    WriteShape(a, room);
    assert frame[0..room] == Part(0, room, 0).data;
    PartAlone(room, 0);
    assert Find([], 0) == 0;
    NewEntry(cfg, 0, [], 0, Part(0, room, 0));
    var f := Frame(0, 0, [Part(0, room, 0)]);
    var none: seq<Frame> := [];
    assert none + [f] == [f];
    JointStep(cfg, a, [], [f], None);
    var b := Put(a, room);
    JointEnd(cfg, b, [f]);
    JointQuiet(cfg, Close(b), [f], GiveUp);
    d := Close(b).(cur := Idle);
  }

  /** A frame is cancelled with a packet of it written; of the next one only the last byte stays. */
  lemma FirstRemnant(cfg: Config, mtu: nat, chunkMtu: int) returns (t: Sender)
    requires Roomier(cfg, mtu, chunkMtu) && chunkMtu != 0 && cfg.numFrames >= 2 && cfg.numChunks >= 2
    ensures Between(cfg, t, Frame(0, |t.closed|, [Tail(mtu - HEADER)])) && t.mtu == mtu && t.chunkMtu == chunkMtu
    ensures |t.closed| == 2 && |t.done| == 1 && t.open != [] && Filled(t.open) == HEADER + 1
  {
    var room := mtu - HEADER;
    var frame := Zeros(room + 1);
    var d := FirstPacket(cfg, mtu, chunkMtu, frame);
    var f := Frame(0, 0, [Part(0, room, 0)]);
    TakenFrame(cfg, d, f, frame);
    SameFields(d, Accept(d, frame));
    assert Overlap(Part(0, room, 0), Part(0, room, 0));
    hide Joint, Filled, AllZero, Accept, Avail, Overlap, Zeros;
    t := ClashThenTail(cfg, Accept(d, frame), f, 0, room, 0);
    SameFields(Accept(d, frame), t);
  }

  /** A chunk that fills the packet and is kept beside the tail; the packet ends. */
  lemma KeptBesideTail(cfg: Config, s: Sender, f: Frame, b: nat, a: nat, x: Byte) returns (t: Sender)
    requires cfg.numChunks >= 3 && Roomier(cfg, s.mtu, s.chunkMtu) && Joint(cfg, s, [f]) && f.id == s.Id()
    requires f.chunks == [Tail(b)]
    requires s.cur.Busy? && s.cur.used == 0 && a < |s.cur.frame| && s.cur.frame[..a] == Part(0, a, x).data
    requires 0 < a < b <= cfg.mtu && Avail(s) == a
    requires |s.closed| - f.time <= cfg.numFrames && |s.closed| < MAX_TIME
    ensures Joint(cfg, t, [Frame(f.id, |s.closed|, [Tail(b), Part(0, a, x)])]) && SameKind(s, t) && t.open == []
    ensures t.done == s.done && |t.closed| == |s.closed| + 1
    ensures t.cur.Busy? && t.cur.frame == s.cur.frame && t.cur.used == a
  {
    hide Joint, Filled;
    WriteShape(s, a);
    assert s.cur.frame[0..a] == s.cur.frame[..a];
    TailAndPart(b, a, x);
    hide Consistent, Complete, Content;
    OwnChunk(cfg, |s.closed|, f, Part(0, a, x));
    var g := Frame(f.id, |s.closed|, [Tail(b), Part(0, a, x)]);
    assert [Tail(b)] + [Part(0, a, x)] == [Tail(b), Part(0, a, x)];
    JointStep(cfg, s, [f], [g], None);
    var u := Put(s, a);
    JointEnd(cfg, u, [g]);
    t := Close(u);
  }

  /** Between frames, a frame is taken whose first bytes fill the packet and are kept beside the tail. */
  lemma TakenBesideTail(cfg: Config, s: Sender, f: Frame, b: nat, a: nat, x: Byte, frame: seq<Byte>) returns (t: Sender)
    requires cfg.numChunks >= 3 && Roomier(cfg, s.mtu, s.chunkMtu) && Between(cfg, s, f) && f.id == s.Id()
    requires f.chunks == [Tail(b)]
    requires a < |frame| < U16 && frame[..a] == Part(0, a, x).data && 0 < a < b <= cfg.mtu && Avail(s) == a
    requires |s.closed| - f.time <= cfg.numFrames && |s.closed| < MAX_TIME
    ensures Joint(cfg, t, [Frame(f.id, |s.closed|, [Tail(b), Part(0, a, x)])]) && SameKind(s, t) && t.open == []
    ensures t.done == s.done && |t.closed| == |s.closed| + 1 && AllZero(t.done)
    ensures t.cur.Busy? && t.cur.frame == frame && t.cur.used == a
  {
    hide Joint, Filled, AllZero, Part, Tail, Avail;
    TakenFrame(cfg, s, f, frame);
    t := KeptBesideTail(cfg, Accept(s, frame), f, b, a, x);
  }

  /** A frame that begins in a packet with little room: its first bytes clash with nothing, the next ones do. */
  lemma SecondRemnant(cfg: Config, s: Sender, f: Frame, b: nat, a: nat) returns (t: Sender)
    requires cfg.numChunks >= 3 && Roomier(cfg, s.mtu, s.chunkMtu) && Between(cfg, s, f) && f.id == s.Id()
    requires f.chunks == [Tail(b)]
    requires b == s.mtu - HEADER && Avail(s) == a && 0 < a < b && a <= HEADER
    requires |s.closed| - f.time <= cfg.numFrames && |s.closed| + 1 < MAX_TIME
    ensures Between(cfg, t, Frame(f.id, |t.closed|, [Tail(a + b)])) && SameKind(s, t)
    ensures |t.closed| == |s.closed| + 2 && |t.done| == |s.done| + 1 && t.open != [] && Filled(t.open) == HEADER + 1
  {
    hide *;
    ZeroParts(a, b);
    Sizes(cfg, s.mtu, s.chunkMtu, a);
    var u := TakenBesideTail(cfg, s, f, b, a, 0, Zeros(a + b + 1));
    SameFields(s, u);
    t := ClashThenTail(cfg, u, Frame(f.id, |s.closed|, [Tail(b), Part(0, a, 0)]), a, a + b, 0);
    SameFields(u, t);
    KindOf(s, t);
  }

  lemma SameFields(s: Sender, t: Sender)
    requires SameKind(s, t)
    ensures t.mtu == s.mtu && t.chunkMtu == s.chunkMtu && (t.done == s.done ==> t.Id() == s.Id())
  {
  }

  lemma KindOf(s: Sender, t: Sender)
    requires t.mtu == s.mtu && t.chunkMtu == s.chunkMtu
    ensures SameKind(s, t)
  {
  }

  /** A frame with a short beginning, a full packet and one byte is within every bound. */
  lemma Sizes(cfg: Config, mtu: nat, chunkMtu: int, a: nat)
    requires Roomier(cfg, mtu, chunkMtu) && a <= HEADER
    ensures a + (mtu - HEADER) + 1 <= cfg.mtu && a + (mtu - HEADER) + 1 < U16
    ensures |Zeros(a + (mtu - HEADER) + 1)| == |Ones(a + (mtu - HEADER) + 1)| == a + (mtu - HEADER) + 1
    ensures cfg.Valid() && cfg.numFrames > 0 && (chunkMtu < 0 || mtu - HEADER <= chunkMtu)
  {
  }

  lemma ZeroParts(a: nat, b: nat)
    requires 0 < a < b
    ensures Zeros(a + b + 1)[..a] == Part(0, a, 0).data && Overlap(Tail(b), Part(a, a + b, 0))
  {
  }

  /** A frame is taken between frames. */
  lemma TakenFrame(cfg: Config, s: Sender, f: Frame, frame: seq<Byte>)
    requires Between(cfg, s, f) && |frame| < U16 && Avail(s) > 0
    ensures var t := Accept(s, frame);
            && Joint(cfg, t, [f]) && t.cur == Busy(frame, 0, 0) && t.open == s.open && t.closed == s.closed
            && t.done == s.done && AllZero(t.done) && SameKind(s, t) && t.Id() == s.Id() && Avail(t) == Avail(s)
  {
    hide Joint;
    JointQuiet(cfg, s, [f], Take(frame));
  }

  /**
   * Where the receiver takes two chunks only, the first bytes do not clash with the tail, but there are then too
   * many chunks: the entry goes, and the last byte of the frame stays alone.
   */
  lemma ShortRemnant(cfg: Config, s: Sender, f: Frame, b: nat, a: nat) returns (t: Sender)
    requires cfg.numChunks == 2 && Roomier(cfg, s.mtu, s.chunkMtu) && Between(cfg, s, f) && f.id == s.Id()
    requires f.chunks == [Tail(b)] && b == s.mtu - HEADER && Avail(s) == a && 0 < a < b
    requires |s.closed| - f.time <= cfg.numFrames && |s.closed| < MAX_TIME
    ensures Between(cfg, t, Frame(f.id, |t.closed|, [Tail(a)])) && SameKind(s, t)
    ensures |t.closed| == |s.closed| + 1 && |t.done| == |s.done| + 1 && t.open != [] && Filled(t.open) == HEADER + 1
  {
    hide *;
    ShortSizes(cfg, s.mtu, s.chunkMtu, a);
    TakenFrame(cfg, s, f, Zeros(a + 1));
    var u := Accept(s, Zeros(a + 1));
    SameFields(s, u);
    var v := LostBesideTail(cfg, u, f, b, a);
    SameFields(u, v);
    t := TailWritten(cfg, v, a);
    SameFields(v, t);
    KindOf(s, t);
  }

  lemma ShortSizes(cfg: Config, mtu: nat, chunkMtu: int, a: nat)
    requires Roomier(cfg, mtu, chunkMtu) && a < mtu - HEADER
    ensures a + 1 <= cfg.mtu && a + 1 < U16 && |Zeros(a + 1)| == a + 1
  {
  }

  lemma LostBesideTail(cfg: Config, s: Sender, f: Frame, b: nat, a: nat) returns (t: Sender)
    requires cfg.numChunks == 2 && Roomier(cfg, s.mtu, s.chunkMtu) && Joint(cfg, s, [f]) && f.id == s.Id()
    requires f.chunks == [Tail(b)] && 0 < a < b == s.mtu - HEADER && Avail(s) == a
    requires s.cur == Busy(Zeros(a + 1), 0, 0) && |s.closed| - f.time <= cfg.numFrames && |s.closed| < MAX_TIME
    ensures Joint(cfg, t, []) && SameKind(s, t) && t.open == [] && t.done == s.done && |t.closed| == |s.closed| + 1
    ensures t.cur.Busy? && t.cur.frame == Zeros(a + 1) && t.cur.used == a
  {
    hide Joint, Filled, Avail;
    WriteShape(s, a);
    assert Zeros(a + 1)[0..a] == Part(0, a, 0).data;
    TailAndPart(b, a, 0);
    hide Consistent, Complete, Content;
    assert [Tail(b)] + [Part(0, a, 0)] == [Tail(b), Part(0, a, 0)];
    OwnChunk(cfg, |s.closed|, f, Part(0, a, 0));
    JointStep(cfg, s, [f], [], None);
    var v := Put(s, a);
    JointEnd(cfg, v, []);
    t := Close(v);
  }

  /** The first chunk of a frame fills the packet and meets the last byte of another: they become one. */
  lemma MixesAtOnce(cfg: Config, s: Sender, f: Frame, b: nat) returns (t: Sender)
    requires Roomier(cfg, s.mtu, s.chunkMtu) && Between(cfg, s, f) && f.id == s.Id() && f.chunks == [Tail(b)]
    requires 0 < b <= s.mtu - HEADER && b == Avail(s) && |s.closed| - f.time <= cfg.numFrames && |s.closed| < MAX_TIME
    ensures Reached(t) && SameKind(s, t) && t.open == [] && AllZero(t.done) && WellFormed(Log(t))
    ensures Mixed(b, 1) in Emitted(cfg, t)
  {
    var frame := Ones(b + 1);
    hide Reached, Filled, AllZero, Emitted, WellFormed, Consistent, Complete, Content, Joint, Avail;
    TakenFrame(cfg, s, f, frame);
    var a := Accept(s, frame);
    WriteShape(a, b);
    assert frame[0..b] == Part(0, b, 1).data;
    TailAndFirst(b);
    assert [Tail(b)] + [Part(0, b, 1)] == [Tail(b), Part(0, b, 1)];
    t := Completes(cfg, a, f, b, Part(0, b, 1));
  }

  /** The chunk that completes the entry fills the packet, and the packet ends. */
  lemma Completes(cfg: Config, s: Sender, f: Frame, len: nat, c: Chunk) returns (t: Sender)
    requires cfg.Valid() && Joint(cfg, s, [f]) && f.id == s.Id() && c.End() <= cfg.mtu
    requires Allowed(s, Write) && NextLen(s) == len == Avail(s) && IsCut(NextPiece(s, len))
    requires ChunkOf(NextPiece(s, len)) == c
    requires var u := Put(s, len); u.open != [] && Avail(u) <= 0 && u.closed == s.closed
    requires Consistent(f.chunks + [c]) && Complete(f.chunks + [c])
    requires |s.closed| - f.time <= cfg.numFrames && |s.closed| < MAX_TIME
    ensures t == Close(Put(s, len)) && Reached(t) && WellFormed(Log(t)) && Content(f.chunks + [c]) in Emitted(cfg, t)
  {
    hide Consistent, Complete, Content, Reached, Emitted;
    OwnChunk(cfg, |s.closed|, f, c);
    JointStep(cfg, s, [f], [], Some(Content(f.chunks + [c])));
    JointEnd(cfg, Put(s, len), []);
    t := Close(Put(s, len));
  }

  /** The first two chunks of a frame meet the last byte of another. */
  lemma MixesInTwo(cfg: Config, s: Sender, f: Frame, b: nat, a: nat) returns (t: Sender)
    requires cfg.numChunks >= 3 && Roomier(cfg, s.mtu, s.chunkMtu) && Between(cfg, s, f) && f.id == s.Id()
    requires f.chunks == [Tail(a + b)]
    requires b == s.mtu - HEADER && Avail(s) == a && 0 < a < b && a <= HEADER
    requires |s.closed| - f.time <= cfg.numFrames && |s.closed| + 1 < MAX_TIME
    ensures Reached(t) && SameKind(s, t) && t.open == [] && AllZero(t.done) && WellFormed(Log(t))
    ensures Mixed(a + b, 1) in Emitted(cfg, t)
  {
    hide *;
    OneParts(a, b);
    Sizes(cfg, s.mtu, s.chunkMtu, a);
    var u := TakenBesideTail(cfg, s, f, a + b, a, 1, Ones(a + b + 1));
    SameFields(s, u);
    t := SecondCompletes(cfg, u, Frame(f.id, |s.closed|, [Tail(a + b), Part(0, a, 1)]), b, a);
    SameFields(u, t);
    KindOf(s, t);
  }

  lemma OneParts(a: nat, b: nat)
    requires 0 < a < b
    ensures Ones(a + b + 1)[..a] == Part(0, a, 1).data && Ones(a + b + 1)[a..a + b] == Part(a, a + b, 1).data
  {
  }

  lemma EmptyAvail(s: Sender)
    requires s.open == []
    ensures Avail(s) == s.mtu - HEADER
  {
  }

  lemma SecondCompletes(cfg: Config, s: Sender, f: Frame, b: nat, a: nat) returns (t: Sender)
    requires Roomier(cfg, s.mtu, s.chunkMtu) && Joint(cfg, s, [f]) && f.id == s.Id() && AllZero(s.done)
    requires f.chunks == [Tail(a + b), Part(0, a, 1)] && b == s.mtu - HEADER && 0 < a < b && a <= HEADER
    requires s.open == [] && s.cur.Busy? && s.cur.frame == Ones(a + b + 1) && s.cur.used == a
    requires |s.closed| - f.time <= cfg.numFrames && |s.closed| < MAX_TIME
    ensures Reached(t) && SameKind(s, t) && t.open == [] && AllZero(t.done) && WellFormed(Log(t))
    ensures Mixed(a + b, 1) in Emitted(cfg, t)
  {
    SecondReady(cfg, s, f, b, a);
    CompletedKind(s, b);
    hide *;
    t := Completes(cfg, s, f, b, Part(a, a + b, 1));
  }

  lemma SecondReady(cfg: Config, s: Sender, f: Frame, b: nat, a: nat)
    requires Roomier(cfg, s.mtu, s.chunkMtu) && f.chunks == [Tail(a + b), Part(0, a, 1)]
    requires b == s.mtu - HEADER && 0 < a < b && a <= HEADER
    requires s.open == [] && s.cur.Busy? && s.cur.frame == Ones(a + b + 1) && s.cur.used == a
    ensures cfg.Valid() && Part(a, a + b, 1).End() <= cfg.mtu
    ensures Allowed(s, Write) && NextLen(s) == b == Avail(s) && IsCut(NextPiece(s, b))
    ensures ChunkOf(NextPiece(s, b)) == Part(a, a + b, 1)
    ensures var u := Put(s, b); u.open != [] && Avail(u) <= 0 && u.closed == s.closed && u.done == s.done
    ensures var cs := f.chunks + [Part(a, a + b, 1)]; Consistent(cs) && Complete(cs) && Content(cs) == Mixed(a + b, 1)
  {
    hide *;
    Sizes(cfg, s.mtu, s.chunkMtu, a);
    PartSpan(a, a + b);
    TailAndParts(a + b, a);
    WholePacket(s, a, b);
    ThreeChunks(Tail(a + b), Part(0, a, 1), Part(a, a + b, 1));
  }

  lemma ThreeChunks(x: Chunk, y: Chunk, z: Chunk)
    ensures [x, y] + [z] == [x, y, z]
  {
  }

  /** An empty packet takes the next b bytes of the frame, and is full. */
  lemma WholePacket(s: Sender, a: nat, b: nat)
    requires s.open == [] && s.cur.Busy? && s.cur.frame == Ones(a + b + 1) && s.cur.used == a && b > 0
    requires b == s.mtu - HEADER && (s.chunkMtu < 0 || s.mtu - HEADER <= s.chunkMtu)
    ensures Allowed(s, Write) && NextLen(s) == b == Avail(s) && IsCut(NextPiece(s, b))
    ensures ChunkOf(NextPiece(s, b)) == Part(a, a + b, 1)
    ensures var u := Put(s, b); u.open != [] && Avail(u) <= 0 && u.closed == s.closed && u.done == s.done
  {
    EmptyAvail(s);
    WriteShape(s, b);
    assert Ones(a + b + 1)[a..a + b] == Part(a, a + b, 1).data;
  }

  lemma CompletedKind(s: Sender, b: nat)
    requires s.cur.Busy? && Put(s, b).done == s.done
    ensures var t := Close(Put(s, b)); SameKind(s, t) && t.open == [] && t.done == s.done
  {
  }

  /** Just behind the last byte of the frame with number `base`, whose id is 0 and whose tail is held. */
  ghost predicate BehindTail(cfg: Config, s: Sender, base: nat, b: nat) {
    && Between(cfg, s, Frame(0, |s.closed|, [Tail(b)])) && Roomier(cfg, s.mtu, s.chunkMtu)
    && base % U16 == 0 && |s.done| == base + 1 && s.open != [] && Filled(s.open) == HEADER + 1
    && base <= U16 && |s.closed| <= 2 * base + 2
  }

  /** A round later the tail is still held, and the next frame has its id. */
  ghost predicate AroundTail(cfg: Config, s: Sender, base: nat, b: nat, time: nat) {
    && Between(cfg, s, Frame(0, time, [Tail(b)])) && Roomier(cfg, s.mtu, s.chunkMtu)
    && base % U16 == 0 && |s.done| == base + U16 && s.Id() == 0 && base <= U16
    && Avail(s) == Landing(s.mtu) && |s.closed| - time <= cfg.numFrames && |s.closed| <= 2 * base + U16 + 3
  }

  lemma RoundOfTail(cfg: Config, s: Sender, base: nat, b: nat) returns (t: Sender, time: nat)
    requires BehindTail(cfg, s, base, b) && cfg.numFrames >= 2 && cfg.numChunks >= 2 && !IdsOutlast(cfg, s.mtu)
    ensures AroundTail(cfg, t, base, b, time) && SameKind(s, t)
  {
    hide Between, Filled, Avail, Landing, IdsOutlast, Tail;
    time := |s.closed|;
    t := Round(cfg, s, Frame(0, time, [Tail(b)]), base);
  }

  lemma FirstTail(cfg: Config, mtu: nat, chunkMtu: int) returns (t: Sender)
    requires Roomier(cfg, mtu, chunkMtu) && chunkMtu != 0 && cfg.numFrames >= 2 && cfg.numChunks >= 2
    ensures BehindTail(cfg, t, 0, mtu - HEADER) && t.mtu == mtu && t.chunkMtu == chunkMtu
  {
    hide Between, Filled, Tail;
    t := FirstRemnant(cfg, mtu, chunkMtu);
  }

  lemma ShortTail(cfg: Config, s: Sender, time: nat) returns (t: Sender)
    requires cfg.numChunks == 2
    requires HEADER < s.mtu && AroundTail(cfg, s, 0, s.mtu - HEADER, time) && Landing(s.mtu) < s.mtu - HEADER
    ensures BehindTail(cfg, t, U16, Landing(s.mtu)) && SameKind(s, t)
  {
    hide *;
    LandingRange(s.mtu);
    AroundFacts(cfg, s, 0, s.mtu - HEADER, time);
    t := ShortRemnant(cfg, s, Frame(0, time, [Tail(s.mtu - HEADER)]), s.mtu - HEADER, Landing(s.mtu));
    SameFields(s, t);
    BehindIs(cfg, t, Landing(s.mtu));
  }

  lemma SecondTail(cfg: Config, s: Sender, time: nat) returns (t: Sender)
    requires cfg.numChunks >= 3
    requires HEADER < s.mtu && AroundTail(cfg, s, 0, s.mtu - HEADER, time) && Landing(s.mtu) < s.mtu - HEADER
    ensures BehindTail(cfg, t, U16, Landing(s.mtu) + (s.mtu - HEADER)) && SameKind(s, t)
  {
    hide *;
    LandingRange(s.mtu);
    AroundFacts(cfg, s, 0, s.mtu - HEADER, time);
    t := SecondRemnant(cfg, s, Frame(0, time, [Tail(s.mtu - HEADER)]), s.mtu - HEADER, Landing(s.mtu));
    SameFields(s, t);
    BehindIs(cfg, t, Landing(s.mtu) + (s.mtu - HEADER));
  }

  lemma AroundFacts(cfg: Config, s: Sender, base: nat, b: nat, time: nat)
    requires HEADER < s.mtu && AroundTail(cfg, s, base, b, time)
    ensures Between(cfg, s, Frame(0, time, [Tail(b)])) && Roomier(cfg, s.mtu, s.chunkMtu) && s.Id() == 0
    ensures Avail(s) == Landing(s.mtu) && |s.closed| - time <= cfg.numFrames && |s.closed| + 2 < MAX_TIME
    ensures |s.done| == base + U16 && |s.closed| <= 2 * base + U16 + 3
  {
    hide Between, Filled, Avail, Landing;
  }

  lemma BehindIs(cfg: Config, s: Sender, b: nat)
    requires Between(cfg, s, Frame(0, |s.closed|, [Tail(b)])) && Roomier(cfg, s.mtu, s.chunkMtu)
    requires |s.done| == U16 + 1 && s.open != [] && Filled(s.open) == HEADER + 1 && |s.closed| <= U16 + 5
    ensures BehindTail(cfg, s, U16, b)
  {
    hide Between, Filled;
  }

  /** A mixed frame came out. */
  ghost predicate Mixes(cfg: Config, t: Sender) {
    && cfg.Valid() && Reached(t) && t.open == [] && WellFormed(Log(t)) && AllZero(t.done)
    && exists b: nat :: b > 0 && Mixed(b, 1) in Emitted(cfg, t)
  }

  lemma LandedAtOnce(cfg: Config, s: Sender, base: nat, time: nat) returns (t: Sender)
    requires HEADER < s.mtu && AroundTail(cfg, s, base, Landing(s.mtu), time)
    ensures Mixes(cfg, t) && SameKind(s, t)
  {
    LandingRange(s.mtu);
    hide Between, Filled, Tail, Avail, Landing, Reached, WellFormed, AllZero, Emitted, Mixed;
    t := MixesAtOnce(cfg, s, Frame(0, time, [Tail(Landing(s.mtu))]), Landing(s.mtu));
  }

  lemma LandedInTwo(cfg: Config, s: Sender, base: nat, time: nat) returns (t: Sender)
    requires HEADER < s.mtu && AroundTail(cfg, s, base, Landing(s.mtu) + (s.mtu - HEADER), time)
    requires cfg.numChunks >= 3 && Landing(s.mtu) < s.mtu - HEADER
    ensures Mixes(cfg, t) && SameKind(s, t)
  {
    LandingRange(s.mtu);
    hide Between, Filled, Tail, Avail, Landing, Reached, WellFormed, AllZero, Emitted, Mixed;
    var room, a := s.mtu - HEADER, Landing(s.mtu);
    t := MixesInTwo(cfg, s, Frame(0, time, [Tail(a + room)]), room, a);
  }

  lemma HasRoom(cfg: Config, mtu: nat, chunkMtu: int)
    requires Roomier(cfg, mtu, chunkMtu) && !IdsOutlast(cfg, mtu)
    ensures HEADER < mtu && cfg.numChunks >= 2
  {
  }

  lemma MixedLater(cfg: Config, s: Sender, time: nat) returns (t: Sender)
    requires HEADER < s.mtu && AroundTail(cfg, s, 0, s.mtu - HEADER, time) && Landing(s.mtu) < s.mtu - HEADER
    requires cfg.numChunks >= 3 && cfg.numFrames >= 2 && !IdsOutlast(cfg, s.mtu)
    ensures Mixes(cfg, t) && SameKind(s, t)
  {
    hide *;
    var v := SecondTail(cfg, s, time);
    SameFields(s, v);
    var w, later := RoundOfTail(cfg, v, U16, Landing(s.mtu) + (s.mtu - HEADER));
    SameFields(v, w);
    t := LandedInTwo(cfg, w, U16, later);
    SameFields(w, t);
    KindOf(s, t);
  }

  lemma MixedShort(cfg: Config, s: Sender, time: nat) returns (t: Sender)
    requires HEADER < s.mtu && AroundTail(cfg, s, 0, s.mtu - HEADER, time) && Landing(s.mtu) < s.mtu - HEADER
    requires cfg.numChunks == 2 && cfg.numFrames >= 2 && !IdsOutlast(cfg, s.mtu)
    ensures Mixes(cfg, t) && SameKind(s, t)
  {
    hide *;
    var v := ShortTail(cfg, s, time);
    SameFields(s, v);
    var w, later := RoundOfTail(cfg, v, U16, Landing(s.mtu));
    SameFields(v, w);
    t := LandedAtOnce(cfg, w, U16, later);
    SameFields(w, t);
    KindOf(s, t);
  }

  lemma MixedAround(cfg: Config, s: Sender, time: nat) returns (t: Sender)
    requires HEADER < s.mtu && AroundTail(cfg, s, 0, s.mtu - HEADER, time)
    requires cfg.numChunks >= 2 && cfg.numFrames >= 2 && !IdsOutlast(cfg, s.mtu)
    ensures Mixes(cfg, t) && SameKind(s, t)
  {
    LandingRange(s.mtu);
    hide *;
    if Landing(s.mtu) == s.mtu - HEADER {
      t := LandedAtOnce(cfg, s, 0, time);
    } else if cfg.numChunks == 2 {
      t := MixedShort(cfg, s, time);
    } else {
      t := MixedLater(cfg, s, time);
    }
  }

  /** The whole course of events. */
  lemma MixedOutput(cfg: Config, mtu: nat, chunkMtu: int) returns (t: Sender)
    requires Roomier(cfg, mtu, chunkMtu) && chunkMtu != 0 && cfg.numFrames >= 2 && !IdsOutlast(cfg, mtu)
    ensures Mixes(cfg, t) && t.mtu == mtu && t.chunkMtu == chunkMtu
  {
    hide *;
    HasRoom(cfg, mtu, chunkMtu);
    var s := FirstTail(cfg, mtu, chunkMtu);
    var u, time := RoundOfTail(cfg, s, 0, mtu - HEADER);
    SameFields(s, u);
    t := MixedAround(cfg, u, time);
    SameFields(u, t);
  }

  // ----- exactly when -----

  /** The disassembler with this MTU and this limit on chunks gets to s, with all it wrote handed to the carrier. */
  ghost predicate Delivered(mtu: nat, chunkMtu: int, s: Sender) {
    Reached(s) && Story(s) && s.mtu == mtu && s.chunkMtu == chunkMtu && s.open == []
  }

  /** Some course of events, cancels included, makes the receiver emit something else than finished frames in order. */
  ghost predicate CanMix(cfg: Config, mtu: nat, chunkMtu: int)
    requires cfg.Valid()
  {
    exists s :: Delivered(mtu, chunkMtu, s) && !Subsequence(ReadPackets(cfg, Fresh, Packets(s.closed)).frames, s.done)
  }

  lemma {:induction false} SubsequenceMember<T>(s: seq<T>, t: seq<T>, x: T)
    requires Subsequence(s, t) && x in s
    ensures x in t
    decreases |t|
  {
    if t != [] {
      var n := |t| - 1;
      if Subsequence(s, t[..n]) {
        SubsequenceMember(s, t[..n], x);
      } else if x != s[|s| - 1] {
        assert s == s[..|s| - 1] + [s[|s| - 1]];
        SubsequenceMember(s[..|s| - 1], t[..n], x);
      }
    }
  }

  /** A few entries, as the program has, are always outlasted by the ids when packet lengths fit 16 bits. */
  lemma FewFramesOutlast(cfg: Config, mtu: nat)
    requires cfg.numFrames <= 6 && mtu < U16
    ensures IdsOutlast(cfg, mtu)
  {
    MulMono(cfg.numFrames, 6, PerPacket(mtu));
  }

  lemma MixIsNoSubsequence(cfg: Config, t: Sender)
    requires Mixes(cfg, t)
    ensures Story(t) && !Subsequence(ReadPackets(cfg, Fresh, Packets(t.closed)).frames, t.done)
  {
    ReachedStory(t);
    assert Log(t) == LogOf(t.closed);
    PacketsAreLog(cfg, Fresh, t.closed);
    hide Reached, Story, Mixed, LogOf, Run;
    var b: nat :| b > 0 && Mixed(b, 1) in Emitted(cfg, t);
    var m := Mixed(b, 1);
    assert m !in t.done by { assert m[0] == 1; }
    var frames := ReadPackets(cfg, Fresh, Packets(t.closed)).frames;
    if Subsequence(frames, t.done) { SubsequenceMember(frames, t.done, m); }
  }

  /**
   * Cancelling is safe exactly as long as ids outlast the receiver's memory: with chunks limited by the packet
   * alone, as in the program, and a receiver for frames longer than a packet, a course of events that makes it
   * emit something the sender did not finish exists if and only if it takes frames in more than one chunk and,
   * behind one byte in its packet and in num_frames full packets, there is room for 65536 chunks.
   */
  lemma MixesIffIdsComeBack(cfg: Config, mtu: nat, chunkMtu: int)
    requires Roomier(cfg, mtu, chunkMtu) && chunkMtu != 0
    ensures CanMix(cfg, mtu, chunkMtu) <==>
              cfg.numChunks >= 2 && Behind(mtu) + cfg.numFrames * PerPacket(mtu) >= U16
  {
    hide Reached, Subsequence, Emitted, AllZero, WellFormed;
    if IdsOutlast(cfg, mtu) {
      forall s | Delivered(mtu, chunkMtu, s)
        ensures Subsequence(ReadPackets(cfg, Fresh, Packets(s.closed)).frames, s.done)
      {
        SenderNeverMixes(cfg, s);
      }
    } else {
      if cfg.numFrames <= 1 { FewFramesOutlast(cfg, mtu); }
      var t := MixedOutput(cfg, mtu, chunkMtu);
      MixIsNoSubsequence(cfg, t);
      assert Delivered(mtu, chunkMtu, t);
    }
  }
}
