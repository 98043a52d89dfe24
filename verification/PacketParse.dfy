/** Reading the chunks out of a carrier packet, and what a whole packet does to the assembler. */
module PacketParse {
  import opened Bytes
  import opened Chunks
  import opened Options
  import opened AssemblerSpec

  /** sizeof(struct fragmentproto_chunk_header): id, start and length in 16 bits each, then is_last. */
  const HEADER: nat := 7

  datatype Arrival = Arrival(id: nat, chunk: Chunk)

  /** The chunk at offset `pos`, or None where process_input gives up on the rest of the packet. */
  function ChunkAt(input: seq<Byte>, pos: nat): (r: Option<Arrival>)
    requires pos <= |input|
    ensures r.Some? ==> pos + HEADER + |r.value.chunk.data| <= |input|
  {
    if |input| - pos < HEADER then None
    else if input[pos + 6] != 0 && input[pos + 6] != 1 then None
    else
      var len := FromLe16(input, pos + 4);
      var body := pos + HEADER;
      if |input| - body < len then None
      else Some(Arrival(FromLe16(input, pos),
        Chunk(FromLe16(input, pos + 2), input[body..body + len], input[pos + 6] == 1)))
  }

  function Parse(input: seq<Byte>, pos: nat): seq<Arrival>
    requires pos <= |input|
    decreases |input| - pos
  {
    var c := ChunkAt(input, pos);
    if c.None? then [] else [c.value] + Parse(input, pos + HEADER + |c.value.chunk.data|)
  }

  datatype Outcome = Outcome(asm: Asm, frames: seq<seq<Byte>>)

  /** Chunks one after the other, collecting the frames they complete. */
  ghost function Deliver(cfg: Config, a: Asm, todo: seq<Arrival>): Outcome
    requires cfg.Valid()
    decreases |todo|
  {
    if todo == [] then Outcome(a, [])
    else
      var (b, out) := Receive(cfg, a, todo[0].id, todo[0].chunk);
      var r := Deliver(cfg, b, todo[1..]);
      r.(frames := (if out.Some? then [out.value] else []) + r.frames)
  }

  /** A whole packet: its chunks, then one step of the packet clock. */
  ghost function ReadPacket(cfg: Config, a: Asm, packet: seq<Byte>): Outcome
    requires cfg.Valid()
  {
    var r := Deliver(cfg, a, Parse(packet, 0));
    r.(asm := Tick(cfg, r.asm))
  }

  ghost function ReadPackets(cfg: Config, a: Asm, packets: seq<seq<Byte>>): Outcome
    requires cfg.Valid()
    decreases |packets|
  {
    if packets == [] then Outcome(a, [])
    else
      var r := ReadPacket(cfg, a, packets[0]);
      var rest := ReadPackets(cfg, r.asm, packets[1..]);
      rest.(frames := r.frames + rest.frames)
  }

  lemma {:induction false} DeliverKeepsInv(cfg: Config, a: Asm, todo: seq<Arrival>)
    requires Inv(cfg, a)
    ensures Inv(cfg, Deliver(cfg, a, todo).asm)
    decreases |todo|
  {
    if todo != [] {
      ReceiveKeepsInv(cfg, a, todo[0].id, todo[0].chunk);
      DeliverKeepsInv(cfg, Receive(cfg, a, todo[0].id, todo[0].chunk).0, todo[1..]);
    }
  }

  /** Whatever packets come, however malformed, the assembler stays within its pool and its clock within 32 bits. */
  lemma {:induction false} AnyPacketsKeepInv(cfg: Config, a: Asm, packets: seq<seq<Byte>>)
    requires Inv(cfg, a)
    ensures Inv(cfg, ReadPackets(cfg, a, packets).asm)
    decreases |packets|
  {
    if packets != [] {
      var r := Deliver(cfg, a, Parse(packets[0], 0));
      DeliverKeepsInv(cfg, a, Parse(packets[0], 0));
      TickKeepsInv(cfg, r.asm);
      AnyPacketsKeepInv(cfg, Tick(cfg, r.asm), packets[1..]);
    }
  }
}
