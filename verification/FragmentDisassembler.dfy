/** The disassembler as it is built: it cuts input frames into chunks written straight into the carrier's buffer. */
module FragmentDisassemblers {
  import opened Bytes
  import opened Options
  import opened PacketParse
  import opened Reassembly
  import opened SenderSpec
  import opened SenderRuns

  class FragmentDisassembler {
    const outputMtu: nat
    const chunkMtu: int
    const latency: int
    var inLen: int
    var input: seq<Byte>
    var inUsed: nat
    var out: array?<Byte>
    var outUsed: nat
    var frameId: nat
    /** When the timer will fire, if it is running. */
    var timer: Option<int>
    /** Everything sent so far. */
    ghost var sent: Sender
    /** Which of the packets sent were ended by the timer. */
    ghost var byTimer: set<nat>

    ghost predicate Sized()
      reads this
    {
      && outputMtu > HEADER && chunkMtu != 0
      && frameId < U16
      && (inLen == -1 || (inLen == |input| < U16 && inUsed <= inLen))
      && (out != null ==> out.Length == outputMtu)
    }

    /** Between handlers: a frame is waiting only if there is no buffer, and a buffer has room for another chunk. */
    ghost predicate Valid()
      reads this
    {
      && Sized()
      && (inLen >= 0 ==> out == null && (inUsed > 0 ==> inUsed < inLen))
      && (out != null ==> outUsed + HEADER < outputMtu)
      && (timer.Some? <==> out != null && outUsed > 0)
      && (timer.Some? ==> latency >= 0)
    }

    /** The fields and the buffer tell the same story as `sent`. */
    ghost predicate Recorded()
      reads this, out
    {
      && Story(sent) && Reached(sent)
      && sent.mtu == outputMtu && sent.chunkMtu == chunkMtu && frameId == sent.Id()
      && (inLen >= 0 <==> sent.cur.Busy?)
      && (inLen >= 0 ==> sent.cur.frame == input && sent.cur.used == inUsed)
      && (if out == null then sent.open == [] else outUsed <= out.Length && out[..outUsed] == WireAll(sent.open))
      && EndedInTime(sent, latency, byTimer)
    }

    constructor (outputMtu: nat, chunkMtu: int, latency: int)
      requires outputMtu > HEADER && chunkMtu != 0
      ensures Valid() && Recorded() && inLen == -1 && out == null
      ensures sent == Start(outputMtu, chunkMtu) && Intact(sent) && byTimer == {}
      ensures this.outputMtu == outputMtu && this.chunkMtu == chunkMtu && this.latency == latency
    {
      this.outputMtu, this.chunkMtu, this.latency := outputMtu, chunkMtu, latency;
      inLen, input, inUsed := -1, [], 0;
      out, outUsed := null, 0;
      frameId := 0;
      timer := None;
      sent := Start(outputMtu, chunkMtu);
      byTimer := {};
      StartKeeps(outputMtu, chunkMtu);
      StartReached(outputMtu, chunkMtu);
    }

    function OutAvail(): int
      reads this
    {
      outputMtu - outUsed - HEADER
    }

    /** The body of the loop in write_chunks, after the length is chosen: header, payload, pointers. */
    method WriteChunk(len: nat)
      requires Sized() && inLen >= 0 && out != null && inUsed + len <= inLen && outUsed + HEADER + len <= outputMtu
      requires len == 0 ==> inLen == 0
      modifies this`inUsed, this`outUsed, out
      ensures inUsed == old(inUsed) + len && outUsed == old(outUsed) + HEADER + len
      ensures Sized()
      ensures out[..outUsed] == old(out[..outUsed]) + Wire(Piece(frameId, input, old(inUsed), len))
    {
      hide WireHeader;
      WriteHeader(len);
      TwoParts(out[..], outUsed, outUsed + HEADER);
      CopyPayload(len);
      TwoParts(out[..], outUsed + HEADER, outUsed + HEADER + len);
      inUsed := inUsed + len;
      outUsed := outUsed + HEADER + len;
    }

    lemma TwoParts(s: seq<Byte>, a: nat, b: nat)
      requires a <= b <= |s|
      ensures s[..b] == s[..a] + s[a..b]
    {
    }

    method WriteHeader(len: nat)
      requires Sized() && inLen >= 0 && out != null && inUsed + len <= inLen && outUsed + HEADER + len <= outputMtu
      modifies out
      ensures out[..outUsed] == old(out[..outUsed])
      ensures out[outUsed..outUsed + HEADER] == WireHeader(frameId, inUsed, len, inUsed + len == inLen)
    {
      var id, start, size := Le16(frameId), Le16(inUsed), Le16(len);
      out[outUsed], out[outUsed + 1] := id[0], id[1];
      out[outUsed + 2], out[outUsed + 3] := start[0], start[1];
      out[outUsed + 4], out[outUsed + 5] := size[0], size[1];
      out[outUsed + 6] := if inUsed + len == inLen then 1 else 0;
      ghost var w := WireHeader(frameId, inUsed, len, inUsed + len == inLen);
      assert w[0] == id[0] && w[1] == id[1] && w[2] == start[0] && w[3] == start[1];
      assert w[4] == size[0] && w[5] == size[1];
    }

    method CopyPayload(len: nat)
      requires Sized() && inLen >= 0 && out != null && inUsed + len <= inLen && outUsed + HEADER + len <= outputMtu
      modifies out
      ensures out[..outUsed + HEADER] == old(out[..outUsed + HEADER])
      ensures out[outUsed + HEADER..outUsed + HEADER + len] == input[inUsed..inUsed + len]
    {
      forall k | 0 <= k < len {
        out[outUsed + HEADER + k] := input[inUsed + k];
      }
      ghost var to, from := out[outUsed + HEADER..outUsed + HEADER + len], input[inUsed..inUsed + len];
      forall k | 0 <= k < len ensures to[k] == from[k] {
        assert to[k] == out[outUsed + HEADER + k];
      }
    }

    /**
     * The story at the head of the loop in write_chunks: as Recorded, with the frame's last chunk perhaps just
     * written.
     */
    ghost predicate Writing()
      reads this, out
    {
      && Story(sent) && Reached(sent)
      && sent.mtu == outputMtu && sent.chunkMtu == chunkMtu
      && out != null && outUsed <= out.Length && out[..outUsed] == WireAll(sent.open)
      && EndedInTime(sent, latency, byTimer)
    }

    /**
     * write_chunks, the loop. It leaves either the frame finished or the packet full (or both); without a
     * limit on the chunk size one round is enough.
     */
    method FillPacket()
      requires Sized() && inLen >= 0 && out != null && OutAvail() > 0
      requires (inUsed > 0 ==> inUsed < inLen && outUsed == 0) && Recorded()
      modifies this`inUsed, this`outUsed, this`sent, out
      ensures Sized() && 0 < outUsed <= outputMtu
      ensures inUsed == inLen || OutAvail() <= 0
      ensures Writing() && sent.open != [] && sent.closed == old(sent).closed && frameId == old(sent).Id()
      ensures if inUsed == inLen then sent.cur.Idle? && sent.done == old(sent).done + [input]
              else sent.cur.Busy? && sent.cur.frame == input && sent.cur.used == inUsed && sent.done == old(sent).done
      ensures old(SenderInv(sent)) ==> SenderInv(sent)
    {
      hide Story, Intact, WireAll, Wire, Put, Reached;
      ghost var whole := SenderInv(sent);
      var first := true;
      while first || (inLen - inUsed > 0 && OutAvail() > 0)
        invariant Sized() && outUsed <= outputMtu && (first ==> OutAvail() > 0) && (!first ==> outUsed > 0)
        invariant first ==> (inUsed > 0 ==> inUsed < inLen && outUsed == 0)
        invariant !first && chunkMtu < 0 ==> inUsed == inLen || OutAvail() <= 0
        invariant Writing() && sent.closed == old(sent).closed && frameId == old(sent).Id()
        invariant if !first && inUsed == inLen then sent.cur.Idle? && sent.done == old(sent).done + [input]
                  else
                    && sent.cur.Busy? && sent.cur.frame == input && sent.cur.used == inUsed
                    && sent.done == old(sent).done
        invariant !first ==> sent.open != []
        invariant whole ==> SenderInv(sent)
        decreases first, outputMtu - outUsed
      {
        var len := if inLen - inUsed < OutAvail() then inLen - inUsed else OutAvail();
        if chunkMtu > 0 {
          len := if len < chunkMtu then len else chunkMtu;
        }
        PieceStory(len);
        PutShape(len);
        WriteChunk(len);
        sent := Put(sent, len);
        first := false;
      }
    }

    /** The chosen length is the one of the specification. */
    lemma PieceStory(len: nat)
      requires Sized() && Writing() && inLen >= 0 && OutAvail() > 0 && (inUsed < inLen || inLen == 0)
      requires sent.cur.Busy? && sent.cur.frame == input && sent.cur.used == inUsed && frameId == sent.Id()
      requires len == ChunkLen(chunkMtu, OutAvail(), inLen - inUsed)
      ensures Story(Put(sent, len)) && Reached(Put(sent, len)) && (SenderInv(sent) ==> SenderInv(Put(sent, len)))
      ensures PiecesOnly(sent.open) && PiecesOnly(Put(sent, len).open)
      ensures WireAll(Put(sent, len).open) == WireAll(sent.open) + Wire(NextPiece(sent, len))
    {
      OpenIsPieces(sent);
      LenIsGood(len);
      WriteReached(len);
      hide Story, Intact, WireAll, Wire, Filled, ChunkLen, GoodLen, PiecesOnly, Put, Reached;
      PutStory(sent, len);
      OpenIsPieces(Put(sent, len));
      if SenderInv(sent) { PutKeeps(sent, len); }
    }

    lemma WriteReached(len: nat)
      requires GoodLen(sent, len) && Reached(sent)
      ensures Reached(Put(sent, len))
    {
      hide Reached, Put, ChunkLen, Filled;
      ReachedStep(sent, Write);
    }

    lemma PutShape(len: nat)
      requires inLen == |input| && inUsed + len <= inLen
      requires sent.cur.Busy? && sent.cur.frame == input && sent.cur.used == inUsed && frameId == sent.Id()
      ensures NextPiece(sent, len) == Piece(frameId, input, inUsed, len)
      ensures var t := Put(sent, len);
              && t.cur == (if inUsed + len == inLen then Idle else Busy(input, inUsed + len, sent.cur.pieces + 1))
              && t.done == (if inUsed + len == inLen then sent.done + [input] else sent.done)
              && t.closed == sent.closed && t.open != [] && t.mtu == sent.mtu && t.chunkMtu == sent.chunkMtu
    {
    }

    lemma LenIsGood(len: nat)
      requires Sized() && Writing() && inLen >= 0 && OutAvail() > 0 && (inUsed < inLen || inLen == 0)
      requires sent.cur.Busy? && sent.cur.frame == input && sent.cur.used == inUsed
      requires len == ChunkLen(chunkMtu, OutAvail(), inLen - inUsed)
      ensures GoodLen(sent, len)
    {
      OpenIsPieces(sent);
      WireFilled(sent.open);
      hide Story, WireAll, Filled, ChunkLen;
    }

    /**
     * Once a chunk was written: the packet goes out exactly if no header and further byte fit behind it, or there
     * is no latency; else it stays, and goes out latency milliseconds after its first chunk at the latest.
     */
    ghost predicate EndsIfFull(packet: Option<seq<Byte>>, before: Option<int>, now: int)
      reads this
    {
      && (packet.Some? ==> latency < 0 || |packet.value| + HEADER >= outputMtu)
      && (packet.None? ==> latency >= 0 && out != null && outUsed + HEADER < outputMtu)
      && (packet.None? ==> timer == if before.Some? then before else Some(now + latency))
    }

    /** write_chunks: fill the packet, then finish the frame, the packet, or both, or start the timer. */
    method WriteChunks(now: int) returns (inputDone: bool, packet: Option<seq<Byte>>)
      requires Sized() && inLen >= 0 && out != null && OutAvail() > 0
      requires (inUsed > 0 ==> inUsed < inLen && outUsed == 0) && Recorded()
      requires (timer.Some? <==> outUsed > 0) && (timer.Some? ==> latency >= 0)
      modifies this`inLen, this`inUsed, this`out, this`outUsed, this`frameId, this`timer, this`sent, out
      ensures Valid() && Recorded()
      ensures inputDone <==> inLen == -1
      ensures packet.Some? ==> out == null && |packet.value| <= outputMtu
      ensures packet.None? ==> out == old(out)
      ensures EndsIfFull(packet, old(timer), now)
      ensures Reports(inputDone, packet, old(sent), old(input), sent)
      ensures old(SenderInv(sent)) ==> SenderInv(sent)
    {
      hide Story, Intact, WireAll, PiecesOnly, Reached, EndedInTime, Filled, Close;
      FillPacket();
      inputDone := inUsed == inLen;
      if inputDone {
        inLen := -1;
        frameId := (frameId + 1) % U16;
      }
      assert frameId == sent.Id();
      packet := None;
      if OutAvail() <= 0 || latency < 0 {
        EndPacket();
        ClosedShape(sent);
        PacketEnds(byTimer);
        packet := Some(out[..outUsed]);
        out := null;
        if latency >= 0 {
          timer := None;
        }
        sent := Close(sent);
      } else if timer.None? {
        // the packet was empty before
        timer := Some(now + latency);
      }
    }

    /** The packet that ends still has room only if the timer ended it, or without a latency. */
    lemma PacketEnds(early: set<nat>)
      requires Writing()
      requires early == if latency >= 0 && outUsed + HEADER < outputMtu then byTimer + {|sent.closed|} else byTimer
      ensures EndedInTime(Close(sent), latency, early)
    {
      OpenIsPieces(sent);
      WireFilled(sent.open);
      hide *;
      TimelyEnd(sent, latency, outputMtu, outUsed, byTimer, early);
    }

    /** A packet ends when it is full or its frame is finished. */
    lemma EndPacket()
      requires Writing() && sent.open != [] && (sent.cur.Idle? || OutAvail() <= 0)
      ensures PiecesOnly(sent.open) && PiecesOnly([]) && WireAll([]) == []
      ensures Story(Close(sent)) && Reached(Close(sent))
      ensures SenderInv(sent) ==> SenderInv(Close(sent))
    {
      OpenIsPieces(sent);
      WireFilled(sent.open);
      NoWire();
      hide Story, Intact, WireAll, Filled, Reached;
      CloseStory(sent);
      ReachedStep(sent, Act.EndPacket);
      if SenderInv(sent) { CloseKeeps(sent); }
    }

    /** input_handler_send */
    method InputHandlerSend(data: seq<Byte>, now: int) returns (inputDone: bool, packet: Option<seq<Byte>>)
      requires Valid() && Recorded() && inLen == -1 && |data| < U16
      modifies this`inLen, this`input, this`inUsed, this`out, this`outUsed, this`frameId, this`timer,
                 this`sent, out
      ensures Valid() && Recorded()
      ensures inputDone <==> inLen == -1
      ensures packet.Some? ==> out == null && |packet.value| <= outputMtu
      ensures if old(out) == null then packet.None? && timer == None
              else EndsIfFull(packet, old(timer), now)
      ensures Reports(inputDone, packet, old(sent), data, sent)
      ensures old(SenderInv(sent)) ==> SenderInv(sent)
    {
      hide Story, Intact, WireAll, Reached;
      AcceptStory(sent, data);
      RoomToTake();
      ReachedStep(sent, Take(data));
      if SenderInv(sent) { AcceptKeeps(sent, data); }
      inLen := |data|;
      input := data;
      inUsed := 0;
      sent := Accept(sent, data);
      if out == null {
        return false, None;
      }
      inputDone, packet := WriteChunks(now);
    }

    lemma RoomToTake()
      requires Valid() && Recorded()
      ensures Avail(sent) > 0
    {
      OpenIsPieces(sent);
      WireFilled(sent.open);
      hide Story, WireAll, Reached;
    }

    /** output_handler_recv */
    method OutputHandlerRecv(buffer: array<Byte>, now: int) returns (inputDone: bool, packet: Option<seq<Byte>>)
      requires Valid() && Recorded() && out == null && buffer.Length == outputMtu
      modifies this`inLen, this`inUsed, this`out, this`outUsed, this`frameId, this`timer, this`sent, buffer
      ensures Valid() && Recorded()
      ensures packet.Some? ==> out == null && |packet.value| <= outputMtu
      ensures if old(inLen) < 0 then packet.None? && timer == None else EndsIfFull(packet, None, now)
      ensures Reports(inputDone, packet, old(sent), old(input), sent)
      ensures old(SenderInv(sent)) ==> SenderInv(sent)
    {
      hide Story, Intact, Reached;
      out := buffer;
      outUsed := 0;
      NoWire();
      if inLen < 0 {
        return false, None;
      }
      inputDone, packet := WriteChunks(now);
    }

    /** timer_handler */
    method TimerHandler() returns (packet: seq<Byte>)
      requires Valid() && Recorded() && timer.Some?
      modifies this`out, this`timer, this`sent, this`byTimer
      ensures byTimer == old(byTimer) + {|old(sent).closed|} && |packet| + HEADER < outputMtu
      ensures Valid() && Recorded() && out == null && |packet| <= outputMtu
      ensures Reports(false, Some(packet), old(sent), [], sent)
      ensures old(SenderInv(sent)) ==> SenderInv(sent)
    {
      hide Story, Intact, PiecesOnly, Reached;
      OpenNotEmpty();
      EndPacket();
      PacketEnds(byTimer + {|sent.closed|});
      packet := out[..outUsed];
      timer := None;
      out := null;
      byTimer := byTimer + {|sent.closed|};
      sent := Close(sent);
    }

    lemma OpenNotEmpty()
      requires Recorded() && out != null && outUsed > 0
      ensures sent.open != []
    {
      NoWire();
    }

    /**
     * input_handler_requestcancel. The frame id is not advanced. Whatever was written of the frame stays in the story;
     * the receiver can only be relied on to be in step when that was nothing.
     */
    method RequestCancel()
      requires Valid() && Recorded() && inLen >= 0
      modifies this`inLen, this`sent
      ensures Valid() && Recorded() && inLen == -1 && frameId == old(frameId)
      ensures sent == old(sent).(cur := Idle)
      ensures old(SenderInv(sent)) && inUsed == 0 ==> SenderInv(sent)
    {
      hide Story, Intact, WireAll, Reached;
      CancelStory(sent);
      ReachedStep(sent, GiveUp);
      if SenderInv(sent) && inUsed == 0 { CancelKeeps(sent); }
      sent := sent.(cur := Idle);
      inLen := -1;
    }
  }

  /** What a handler told its neighbours, against the story before and after: a finished frame, a packet handed over. */
  ghost predicate Reports(inputDone: bool, packet: Option<seq<Byte>>, before: Sender, frame: seq<Byte>, after: Sender) {
    && after.done == before.done + (if inputDone then [frame] else [])
    && (packet.None? ==> after.closed == before.closed)
    && (packet.Some? ==> |after.closed| == |before.closed| + 1 && after.closed[..|before.closed|] == before.closed
                         && PiecesOnly(after.closed[|before.closed|])
                         && packet.value == WireAll(after.closed[|before.closed|]))
  }

  /**
   * With a latency, the packets ended by the timer are exactly those that had room for another chunk. Without one
   * the timer ends none.
   */
  ghost predicate EndedInTime(s: Sender, latency: int, byTimer: set<nat>) {
    && (forall i :: i in byTimer ==> i < |s.closed|)
    && (forall i :: 0 <= i < |s.closed| ==> (i in byTimer <==> latency >= 0 && Filled(s.closed[i]) + HEADER < s.mtu))
  }

  lemma ClosedShape(s: Sender)
    ensures var t := Close(s);
            && t.open == [] && t.closed[..|s.closed|] == s.closed && |t.closed| == |s.closed| + 1
            && t.closed[|s.closed|] == s.open && t.cur == s.cur && t.done == s.done && t.Id() == s.Id()
            && t.mtu == s.mtu && t.chunkMtu == s.chunkMtu
  {
  }

  lemma TimelyEnd(s: Sender, latency: int, mtu: nat, len: nat, byTimer: set<nat>, early: set<nat>)
    requires EndedInTime(s, latency, byTimer) && s.mtu == mtu && Filled(s.open) == len
    requires early == if latency >= 0 && len + HEADER < mtu then byTimer + {|s.closed|} else byTimer
    ensures EndedInTime(Close(s), latency, early)
  {
    hide Filled;
  }

  lemma OpenIsPieces(s: Sender)
    requires Story(s)
    ensures PiecesOnly(s.open)
  {
  }
}
