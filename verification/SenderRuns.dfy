/**
 * What the disassembler can get to: frames are taken, written, cancelled and packets ended only when its
 * handlers do so. A chunk is only begun where a header and another byte fit, which bounds how many chunks a
 * packet carries.
 */
module SenderRuns {
  import opened Bytes
  import opened Division
  import opened Options
  import opened PacketParse
  import opened Reassembly
  import opened SenderSpec

  /** A frame is handed in; one chunk is written; the packet goes to the carrier; the frame is cancelled. */
  datatype Act = Take(frame: seq<Byte>) | Write | EndPacket | GiveUp

  /**
   * Full packets end before the next frame is taken, others may end between frames (the timer has fired); a frame
   * can be cancelled while it waits for a buffer. This is the disassembler with a latency: without one, packets
   * also end with each frame.
   */
  predicate Allowed(s: Sender, act: Act) {
    match act
    case Take(frame) => s.cur.Idle? && Avail(s) > 0 && |frame| < U16
    case Write => s.cur.Busy? && s.cur.used <= |s.cur.frame| && Avail(s) > 0
    case EndPacket => s.open != [] && (s.cur.Idle? || Avail(s) <= 0)
    case GiveUp => s.cur.Busy? && s.open == []
  }

  function NextLen(s: Sender): nat
    requires s.cur.Busy? && s.cur.used <= |s.cur.frame| && Avail(s) > 0
  {
    ChunkLen(s.chunkMtu, Avail(s), |s.cur.frame| - s.cur.used)
  }

  function Did(s: Sender, act: Act): Sender
    requires Allowed(s, act)
  {
    match act
    case Take(frame) => Accept(s, frame)
    case Write => Put(s, NextLen(s))
    case EndPacket => Close(s)
    case GiveUp => s.(cur := Idle)
  }

  ghost predicate Legal(s: Sender, acts: seq<Act>)
    decreases |acts|, 0
  {
    acts == [] ||
      (Legal(s, acts[..|acts| - 1]) && Allowed(Perform(s, acts[..|acts| - 1]), acts[|acts| - 1]))
  }

  ghost function Perform(s: Sender, acts: seq<Act>): Sender
    requires Legal(s, acts)
    decreases |acts|, 1
  {
    if acts == [] then s else Did(Perform(s, acts[..|acts| - 1]), acts[|acts| - 1])
  }

  /** Some course of events leads from an empty disassembler to s. */
  ghost predicate Reached(s: Sender) {
    && s.mtu > HEADER && s.chunkMtu != 0
    && exists acts :: Legal(Start(s.mtu, s.chunkMtu), acts) && Perform(Start(s.mtu, s.chunkMtu), acts) == s
  }

  lemma StartReached(mtu: nat, chunkMtu: int)
    requires mtu > HEADER && chunkMtu != 0
    ensures Reached(Start(mtu, chunkMtu))
  {
    var none: seq<Act> := [];
    assert Legal(Start(mtu, chunkMtu), none) && Perform(Start(mtu, chunkMtu), none) == Start(mtu, chunkMtu);
  }

  lemma ReachedStep(s: Sender, act: Act)
    requires Reached(s) && Allowed(s, act)
    ensures Reached(Did(s, act))
  {
    var s0 := Start(s.mtu, s.chunkMtu);
    var acts :| Legal(s0, acts) && Perform(s0, acts) == s;
    assert (acts + [act])[..|acts|] == acts;
    assert Legal(s0, acts + [act]) && Perform(s0, acts + [act]) == Did(s, act);
  }

  // ----- room in packets -----

  /** The bytes of the packet in progress. */
  function OpenBytes(evs: seq<Event>): nat {
    if evs == [] || evs[|evs| - 1].PacketEnd? then 0
    else OpenBytes(evs[..|evs| - 1]) + HEADER + evs[|evs| - 1].len
  }

  /** Each chunk was begun where a header and another byte fitted. */
  ghost predicate Roomy(evs: seq<Event>, mtu: nat) {
    evs == [] ||
      (Roomy(evs[..|evs| - 1], mtu) && (evs[|evs| - 1].Piece? ==> OpenBytes(evs[..|evs| - 1]) + HEADER < mtu))
  }

  lemma RoomySnoc(evs: seq<Event>, e: Event, mtu: nat)
    ensures Roomy(evs + [e], mtu) <==> Roomy(evs, mtu) && (e.Piece? ==> OpenBytes(evs) + HEADER < mtu)
    ensures OpenBytes(evs + [e]) == if e.PacketEnd? then 0 else OpenBytes(evs) + HEADER + e.len
  {
    assert (evs + [e])[..|evs|] == evs;
  }

  lemma {:induction false} OpenAppend(evs: seq<Event>, es: seq<Event>)
    requires OpenBytes(evs) == 0 && forall e :: e in es ==> e.Piece?
    ensures OpenBytes(evs + es) == Filled(es)
    decreases |es|
  {
    if es == [] {
      assert evs + es == evs;
    } else {
      var n := |es| - 1;
      OpenAppend(evs, es[..n]);
      assert es[n] in es;
      assert evs + es == (evs + es[..n]) + [es[n]];
      RoomySnoc(evs + es[..n], es[n], 0);
    }
  }

  lemma OpenIsFilled(s: Sender)
    requires forall e :: e in s.open ==> e.Piece?
    ensures OpenBytes(Log(s)) == Filled(s.open)
  {
    OpenAppend(LogOf(s.closed), s.open);
  }

  /** Whatever the course of events, the story holds and each chunk had room. */
  lemma {:induction false} PerformKeeps(s0: Sender, acts: seq<Act>)
    requires s0.mtu > HEADER && s0 == Start(s0.mtu, s0.chunkMtu) && Legal(s0, acts)
    ensures var s := Perform(s0, acts);
            Story(s) && Roomy(Log(s), s.mtu) && s.mtu == s0.mtu && s.chunkMtu == s0.chunkMtu
  {
    if acts == [] {
      StartsRoomy(s0);
    } else {
      hide Story, Roomy, Allowed, Did;
      var front := acts[..|acts| - 1];
      PerformKeeps(s0, front);
      DidKeeps(Perform(s0, front), acts[|acts| - 1]);
    }
  }

  lemma StartsRoomy(s0: Sender)
    requires s0.mtu > HEADER && s0 == Start(s0.mtu, s0.chunkMtu)
    ensures Story(s0) && Roomy(Log(s0), s0.mtu)
  {
    StartKeeps(s0.mtu, s0.chunkMtu);
    assert Log(s0) == [];
  }

  lemma DidKeeps(s: Sender, act: Act)
    requires Story(s) && Roomy(Log(s), s.mtu) && Allowed(s, act)
    ensures Story(Did(s, act)) && Roomy(Log(Did(s, act)), s.mtu)
    ensures Did(s, act).mtu == s.mtu && Did(s, act).chunkMtu == s.chunkMtu
  {
    match act
    case Take(frame) => AcceptStory(s, frame);
    case Write => WriteKeeps(s);
    case EndPacket =>
      CloseStory(s);
      RoomySnoc(Log(s), Event.PacketEnd, s.mtu);
    case GiveUp => CancelStory(s);
  }

  lemma WriteKeeps(s: Sender)
    requires Story(s) && Roomy(Log(s), s.mtu) && Allowed(s, Write)
    ensures GoodLen(s, NextLen(s)) && Story(Put(s, NextLen(s))) && Roomy(Log(Put(s, NextLen(s))), s.mtu)
  {
    LenIsGood(s);
    hide Story, GoodLen, Filled, Roomy;
    PutStory(s, NextLen(s));
    OpenPieces(s);
    OpenIsFilled(s);
    RoomySnoc(Log(s), NextPiece(s, NextLen(s)), s.mtu);
  }

  lemma LenIsGood(s: Sender)
    requires Story(s) && Allowed(s, Write)
    ensures GoodLen(s, NextLen(s))
  {
    hide WireAll, Tiled, Filled;
  }

  lemma OpenPieces(s: Sender)
    requires Story(s)
    ensures forall e :: e in s.open ==> e.Piece?
  {
    hide Tiled, CurInv;
  }

  lemma ReachedStory(s: Sender)
    requires Reached(s)
    ensures Story(s) && Roomy(Log(s), s.mtu)
  {
    var acts :| Legal(Start(s.mtu, s.chunkMtu), acts) && Perform(Start(s.mtu, s.chunkMtu), acts) == s;
    PerformKeeps(Start(s.mtu, s.chunkMtu), acts);
  }
}
