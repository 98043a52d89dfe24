/** The PacketProto encoder and decoder, working in place on their buffers. */
module PacketProtoCodecs {
  import opened Bytes
  import opened Options
  import opened PacketProto

  /** The packet the receiver is still reading, as a place in the buffer. */
  datatype Place = Place(at: nat, len: nat)

  /** Whether a send was in progress does not matter once it is over. */
  lemma SameWhenDone(d: Decoder, mtu: nat)
    ensures Process(d.(busy := false), mtu) == Process(d, mtu)
  {
  }

  class PacketProtoDecoder {
    const outputMtu: nat
    const buf: array<Byte>
    var bufStart: nat
    var bufUsed: nat
    var sending: Option<Place>
    ghost var sent: seq<seq<Byte>>
    ghost var errors: nat

    /** The space offered to the input. */
    function Space(): int
      reads this
    {
      buf.Length - (bufStart + bufUsed)
    }

    /** While nothing is being sent the input has been asked for data, and never for zero bytes. */
    ghost predicate Valid()
      reads this
    {
      && outputMtu < U16 && buf.Length == HEADER + outputMtu
      && bufStart + bufUsed <= buf.Length
      && (sending.None? ==> Space() > 0)
      && (sending.Some? ==> sending.value.at + sending.value.len <= bufStart)
    }

    ghost function Pending(): seq<Byte>
      reads this, buf
      requires bufStart + bufUsed <= buf.Length
    {
      buf[bufStart..bufStart + bufUsed]
    }

    ghost function State(): Decoder
      reads this, buf
      requires Valid()
    {
      Decoder(Pending(), bufStart, sent, sending.Some?, errors)
    }

    /** The bytes the receiver of the current packet sees. */
    ghost function InFlight(): seq<Byte>
      reads this, buf
      requires Valid() && sending.Some?
    {
      buf[sending.value.at..sending.value.at + sending.value.len]
    }

    constructor (mtu: nat)
      ensures Valid() && fresh(buf) && outputMtu == (if mtu <= U16 - 1 then mtu else U16 - 1)
      ensures State() == Fresh
    {
      var limited := if mtu <= U16 - 1 then mtu else U16 - 1;
      outputMtu := limited;
      buf := new Byte[HEADER + limited];
      bufStart, bufUsed, sending := 0, 0, None;
      sent, errors := [], 0;
    }

    method MoveDown()
      requires bufStart + bufUsed <= buf.Length
      modifies buf, this`bufStart
      ensures bufStart == 0 && Pending() == old(Pending())
    {
      ghost var before := buf[..];
      var i := 0;
      while i < bufUsed
        modifies buf
        invariant 0 <= i <= bufUsed
        invariant forall k :: 0 <= k < i ==> buf[k] == before[bufStart + k]
        invariant forall k :: i <= k < buf.Length ==> buf[k] == before[k]
      {
        buf[i] := buf[bufStart + i];
        i := i + 1;
      }
      assert before[bufStart..bufStart + bufUsed] == buf[..bufUsed];
      bufStart := 0;
    }

    /** Takes a whole packet out of the buffer and sends it on. */
    method Submit(len: nat)
      requires outputMtu < U16 && buf.Length == HEADER + outputMtu && bufStart + bufUsed <= buf.Length
      requires HEADER + len <= bufUsed
      modifies this
      ensures Valid() && sending.Some? && InFlight() == old(Pending())[HEADER..HEADER + len]
      ensures sent == old(sent) + [InFlight()] && errors == old(errors)
      ensures Pending() == old(Pending())[HEADER + len..] && bufStart == old(bufStart) + HEADER + len
    {
      sending := Some(Place(bufStart + HEADER, len));
      ghost var packet := buf[bufStart + HEADER..bufStart + HEADER + len];
      assert packet == Pending()[HEADER..HEADER + len];
      sent := sent + [packet];
      bufStart := bufStart + (HEADER + len);
      bufUsed := bufUsed - (HEADER + len);
    }

    /** process_data; says whether an error is to be reported. */
    method ProcessData() returns (error: bool)
      requires outputMtu < U16 && buf.Length == HEADER + outputMtu && bufStart + bufUsed <= buf.Length && sending.None?
      modifies this, buf
      ensures Valid()
      ensures State() == Process(Decoder(old(Pending()), old(bufStart), old(sent), false, old(errors)), outputMtu)
      ensures error <==> errors > old(errors)
      ensures sending.Some? ==> sent == old(sent) + [InFlight()]
    {
      error := false;
      if bufUsed >= HEADER {
        var len: nat := buf[bufStart] as int + 256 * (buf[bufStart + 1] as int);
        assert len == FromLe16(Pending(), 0);
        if len > outputMtu {
          error := true;
        } else if bufUsed - HEADER >= len {
          Submit(len);
          return;
        }
      }
      if error {
        // forget what has arrived
        bufStart, bufUsed := 0, 0;
        errors := errors + 1;
      } else if bufStart + bufUsed == buf.Length {
        // no space is left behind the data
        MoveDown();
      }
    }

    /** The input writes data into the space offered, and input_handler_done follows. */
    method InputHandlerDone(data: seq<Byte>) returns (error: bool)
      requires Valid() && sending.None? && 0 < |data| <= Space()
      modifies this, buf
      ensures Valid() && State() == Step(old(State()), Arrive(data), outputMtu)
      ensures error <==> errors > old(errors)
      ensures sending.Some? ==> sent == old(sent) + [InFlight()]
    {
      ghost var before := buf[..];
      var i := 0;
      while i < |data|
        modifies buf
        invariant 0 <= i <= |data|
        invariant forall k :: 0 <= k < bufStart + bufUsed ==> buf[k] == before[k]
        invariant forall k :: 0 <= k < i ==> buf[bufStart + bufUsed + k] == data[k]
      {
        buf[bufStart + bufUsed + i] := data[i];
        i := i + 1;
      }
      bufUsed := bufUsed + |data|;
      assert Pending() == old(Pending()) + data;
      error := ProcessData();
    }

    /** output_handler_done */
    method OutputHandlerDone() returns (error: bool)
      requires Valid() && sending.Some?
      modifies this, buf
      ensures Valid() && State() == Step(old(State()), SendDone, outputMtu)
      ensures error <==> errors > old(errors)
      ensures sending.Some? ==> sent == old(sent) + [InFlight()]
    {
      SameWhenDone(State(), outputMtu);
      hide Process;
      sending := None;
      error := ProcessData();
    }

    /** PacketProtoDecoder_Reset: what was received and not sent is forgotten, a packet on its way is not touched. */
    method Reset()
      requires Valid()
      modifies this
      ensures Valid() && State() == old(State()).(buf := [], start := old(bufStart + bufUsed))
      ensures Space() == old(Space())
      ensures sending == old(sending) && (sending.Some? ==> InFlight() == old(InFlight()))
    {
      bufStart := bufStart + bufUsed;
      bufUsed := 0;
    }
  }

  class PacketProtoEncoder {
    const inputMtu: nat
    var outputPacket: Option<array<Byte>>

    constructor (inputMtu: nat)
      requires inputMtu < U16
      ensures this.inputMtu == inputMtu && outputPacket == None
    {
      this.inputMtu := inputMtu;
      outputPacket := None;
    }

    /** output_handler_recv: the input is asked to write its packet behind the header. */
    method OutputHandlerRecv(data: array<Byte>)
      requires outputPacket == None && data.Length == HEADER + inputMtu
      modifies this
      ensures outputPacket == Some(data)
    {
      outputPacket := Some(data);
    }

    /** input_handler_done: the packet the input left in the buffer becomes an encoded packet. */
    method InputHandlerDone(len: nat) returns (done: nat)
      requires outputPacket.Some? && len <= inputMtu < U16 && outputPacket.value.Length == HEADER + inputMtu
      modifies this, outputPacket.value
      ensures outputPacket == None && done == HEADER + len
      ensures var p := old(outputPacket.value); p[..done] == Encode(old(p[HEADER..HEADER + len]))
    {
      var packet := outputPacket.value;
      var header := Le16(len);
      packet[0], packet[1] := header[0], header[1];
      outputPacket := None;
      done := HEADER + len;
      assert packet[..done] == header + packet[HEADER..done];
    }
  }
}
