/** The bytes each protocol puts on the wire, one by one, and that exactly these are read back. */
module WireFormats {
  import opened Bytes
  import opened Chunks
  import opened Options
  import opened PacketParse
  import Reassembly
  import SenderSpec
  import PacketProto
  import B = BProtoWire
  import SP = SPProtoSpec

  // ----- fragments -----

  /** A chunk as it stands in a packet: frame id, start and length, low byte first, whether it is the last, data. */
  function ChunkBytes(id: nat, c: Chunk): seq<Byte>
    requires id < U16 && c.start < U16 && |c.data| < U16
  {
    [id % 256, id / 256, c.start % 256, c.start / 256, |c.data| % 256, |c.data| / 256, if c.last then 1 else 0] + c.data
  }

  /** Chunks are written as these bytes. */
  lemma WrittenChunk(e: Reassembly.Event)
    requires e.Piece? && Reassembly.IsCut(e) && e.id < U16 && |e.frame| < U16
    ensures SenderSpec.Wire(e) == ChunkBytes(e.id, Reassembly.ChunkOf(e))
  {
    var c := Reassembly.ChunkOf(e);
    assert |c.data| == e.len;
    assert SenderSpec.WireHeader(e.id, e.start, e.len, c.last) ==
           [e.id % 256, e.id / 256, e.start % 256, e.start / 256, e.len % 256, e.len / 256, if c.last then 1 else 0];
  }

  /** And a chunk is read exactly where these bytes stand; where no chunk's do, the rest of the packet is ignored. */
  lemma ReadChunk(input: seq<Byte>, pos: nat, a: Arrival)
    requires pos <= |input|
    ensures ChunkAt(input, pos) == Some(a) <==>
              && a.id < U16 && a.chunk.start < U16 && |a.chunk.data| < U16
              && ChunkBytes(a.id, a.chunk) <= input[pos..]
  {
    if a.id < U16 && a.chunk.start < U16 && |a.chunk.data| < U16 && ChunkBytes(a.id, a.chunk) <= input[pos..] {
      BytesRead(input, pos, a);
    }
    if ChunkAt(input, pos) == Some(a) { ReadBytes(input, pos, a); }
  }

  lemma BytesRead(input: seq<Byte>, pos: nat, a: Arrival)
    requires pos <= |input| && a.id < U16 && a.chunk.start < U16 && |a.chunk.data| < U16
    requires ChunkBytes(a.id, a.chunk) <= input[pos..]
    ensures ChunkAt(input, pos) == Some(a)
  {
    var (s, w) := (input[pos..], ChunkBytes(a.id, a.chunk));
    assert forall k :: 0 <= k < |w| ==> input[pos + k] == s[k] == w[k];
    Joined(a.id);
    Joined(a.chunk.start);
    Joined(|a.chunk.data|);
    assert input[pos + 7..pos + 7 + |a.chunk.data|] == a.chunk.data;
  }

  lemma ReadBytes(input: seq<Byte>, pos: nat, a: Arrival)
    requires pos <= |input| && ChunkAt(input, pos) == Some(a)
    ensures a.id < U16 && a.chunk.start < U16 && |a.chunk.data| < U16
    ensures ChunkBytes(a.id, a.chunk) <= input[pos..]
  {
    var (s, w) := (input[pos..], ChunkBytes(a.id, a.chunk));
    assert forall k :: 0 <= k < |s| ==> s[k] == input[pos + k];
    Halves(input[pos], input[pos + 1]);
    Halves(input[pos + 2], input[pos + 3]);
    Halves(input[pos + 4], input[pos + 5]);
    assert w[..7] == s[..7] && w[7..] == s[7..][..|a.chunk.data|];
    assert w == s[..|w|];
  }

  lemma Joined(v: nat)
    ensures v % 256 + 256 * (v / 256) == v
  {
  }

  lemma Halves(low: Byte, high: Byte)
    ensures (low + 256 * high) % 256 == low && (low + 256 * high) / 256 == high
  {
  }

  // ----- packets in a stream -----

  /** Each packet stands behind its length, low byte first. */
  lemma PacketBytes(payload: seq<Byte>)
    requires |payload| < U16
    ensures PacketProto.Encode(payload) == [|payload| % 256, |payload| / 256] + payload
  {
  }

  // ----- typed entries -----

  /** The type codes of the format. */
  function TypeCode(v: B.Value): Byte {
    match v
    case Number(size, _) => if size == 1 then 1 else if size == 2 then 2 else if size == 4 then 3 else 4
    case Blob(fixed, _) => if fixed then 6 else 5
  }

  /** The four bytes of a 32-bit number, lowest first. */
  function Le32(v: nat): seq<Byte>
    requires v < 0x1_0000_0000
  {
    [v % 0x100, v / 0x100 % 0x100, v / 0x1_0000 % 0x100, v / 0x100_0000]
  }

  /** An entry: field id and type in 16 bits each, then the number, or a 32-bit length and the data. */
  lemma EntryBytes(it: B.Item)
    requires B.Sound(it)
    ensures var head := [it.id % 256, it.id / 256, TypeCode(it.value), 0];
            match it.value
            case Number(size, v) =>
              && (size == 1 ==> v < 0x100 && B.EncodeItem(it) == head + [v])
              && (size == 2 ==> v < 0x1_0000 && B.EncodeItem(it) == head + [v % 256, v / 256])
              && (size == 4 ==> v < 0x1_0000_0000 && B.EncodeItem(it) == head + Le32(v))
              && (size == 8 ==>
                    && v / 0x1_0000_0000 < 0x1_0000_0000
                    && B.EncodeItem(it) == head + (Le32(v % 0x1_0000_0000) + Le32(v / 0x1_0000_0000)))
            case Blob(_, data) => |data| < 0x1_0000_0000 && B.EncodeItem(it) == head + (Le32(|data|) + data)
  {
    B.Pows();
    HeadBytes(it.id, B.TypeOf(it.value));
    hide B.Le, B.Pow256;
    var head := B.Le(it.id, 2) + B.Le(B.TypeOf(it.value), 2);
    match it.value
    case Number(size, v) =>
      if size == 8 { LowEight(v); } else { LowBytes(v, size); }
    case Blob(_, data) =>
      LowBytes(|data|, 4);
      assert head + (B.Le(|data|, 4) + data) == B.EncodeItem(it);
  }

  lemma HeadBytes(id: nat, t: nat)
    requires id < U16 && t < 256
    ensures B.Le(id, 2) + B.Le(t, 2) == [id % 256, id / 256, t, 0]
  {
    LowBytes(id, 2);
    LowBytes(t, 2);
  }

  lemma LowBytes(v: nat, n: nat)
    requires v < B.Pow256(n) && (n == 1 || n == 2 || n == 4)
    ensures n == 1 ==> v < 256 && B.Le(v, n) == [v]
    ensures n == 2 ==> v < 0x1_0000 && B.Le(v, n) == [v % 256, v / 256]
    ensures n == 4 ==> v < 0x1_0000_0000 && B.Le(v, n) == Le32(v)
  {
    B.Pows();
    hide B.Le, B.Pow256, Le32;
    if n == 1 { OneByte(v); } else if n == 2 { TwoBytes(v); } else { FourBytes(v); }
  }

  lemma OneByte(v: nat)
    requires v < 256
    ensures B.Le(v, 1) == [v]
  {
    LeNext(v, 1);
    LeNone(v / 256);
  }

  lemma TwoBytes(v: nat)
    requires v < 0x1_0000
    ensures B.Le(v, 2) == [v % 256, v / 256]
  {
    hide B.Le;
    LeNext(v, 2);
    OneByte(v / 256);
  }

  lemma FourBytes(v: nat)
    requires v < 0x1_0000_0000
    ensures B.Le(v, 4) == Le32(v)
  {
    hide B.Le;
    LeFour(v, 4);
    LeNone(v / 0x1_0000_0000);
    assert v / 0x100_0000 % 0x100 == v / 0x100_0000;
  }

  lemma LeNext(v: nat, n: nat)
    requires n > 0
    ensures B.Le(v, n) == [v % 256] + B.Le(v / 256, n - 1)
  {
  }

  lemma LeNone(v: nat)
    ensures B.Le(v, 0) == []
  {
  }

  lemma LeFour(v: nat, n: nat)
    requires n >= 4
    ensures B.Le(v, n) ==
            [v % 0x100, v / 0x100 % 0x100, v / 0x1_0000 % 0x100, v / 0x100_0000 % 0x100]
            + B.Le(v / 0x1_0000_0000, n - 4)
  {
    hide B.Le;
    Divided(v);
    LeNext(v, n);
    LeNext(v / 0x100, n - 1);
    LeNext(v / 0x1_0000, n - 2);
    LeNext(v / 0x100_0000, n - 3);
  }

  lemma Divided(v: nat)
    ensures v / 0x100 / 256 == v / 0x1_0000 && v / 0x1_0000 / 256 == v / 0x100_0000
    ensures v / 0x100_0000 / 256 == v / 0x1_0000_0000
  {
  }

  lemma LowEight(v: nat)
    requires v < B.Pow256(8)
    ensures v / 0x1_0000_0000 < 0x1_0000_0000
    ensures B.Le(v, 8) == Le32(v % 0x1_0000_0000) + Le32(v / 0x1_0000_0000)
  {
    EightBytes(v);
    LeFour(v, 8);
    LowBytes(v / 0x1_0000_0000, 4);
    LowHalf(v);
    hide B.Le, B.Pow256;
  }

  lemma EightBytes(v: nat)
    requires v < B.Pow256(8)
    ensures v / 0x1_0000_0000 < B.Pow256(4) == 0x1_0000_0000
  {
    B.Pows();
    assert B.Pow256(8) == 256 * (256 * (256 * (256 * B.Pow256(4))));
    hide B.Pow256;
  }

  /** The low half of a number has the low four bytes. */
  lemma LowHalf(v: nat)
    ensures Le32(v % 0x1_0000_0000) ==
            [v % 0x100, v / 0x100 % 0x100, v / 0x1_0000 % 0x100, v / 0x100_0000 % 0x100]
  {
    var low, high := v % 0x1_0000_0000, v / 0x1_0000_0000;
    FirstByte(high, low);
    SecondByte(high, low);
    ThirdByte(high, low);
    FourthByte(high, low);
  }

  lemma FirstByte(high: nat, low: nat)
    ensures (high * 0x1_0000_0000 + low) % 0x100 == low % 0x100
  {
    var (q, r) := (low / 0x100, low % 0x100);
    assert low == 0x100 * q + r;
    Quotient(high * 0x1_0000_0000 + low, high * 0x100_0000 + q, r, 0x100);
  }

  lemma SecondByte(high: nat, low: nat)
    ensures (high * 0x1_0000_0000 + low) / 0x100 % 0x100 == low / 0x100 % 0x100
  {
    var (q, r) := (low / 0x100, low % 0x100);
    assert low == 0x100 * q + r;
    Quotient(high * 0x1_0000_0000 + low, high * 0x100_0000 + q, r, 0x100);
    Quotient(high * 0x100_0000 + q, high * 0x1_0000 + q / 0x100, q % 0x100, 0x100);
  }

  lemma ThirdByte(high: nat, low: nat)
    ensures (high * 0x1_0000_0000 + low) / 0x1_0000 % 0x100 == low / 0x1_0000 % 0x100
  {
    var (q, r) := (low / 0x1_0000, low % 0x1_0000);
    assert low == 0x1_0000 * q + r;
    Quotient(high * 0x1_0000_0000 + low, high * 0x1_0000 + q, r, 0x1_0000);
    Quotient(high * 0x1_0000 + q, high * 0x100 + q / 0x100, q % 0x100, 0x100);
  }

  lemma FourthByte(high: nat, low: nat)
    requires low < 0x1_0000_0000
    ensures (high * 0x1_0000_0000 + low) / 0x100_0000 % 0x100 == low / 0x100_0000
  {
    var (q, r) := (low / 0x100_0000, low % 0x100_0000);
    assert low == 0x100_0000 * q + r;
    Quotient(high * 0x1_0000_0000 + low, high * 0x100 + q, r, 0x100_0000);
    Quotient(high * 0x100 + q, high, q, 0x100);
  }

  lemma Quotient(x: nat, q: nat, r: nat, n: nat)
    requires n == 0x100 || n == 0x1_0000 || n == 0x100_0000
    requires x == q * n + r && r < n
    ensures x / n == q && x % n == r
  {
    if n == 0x100 { assert x / 0x100 == q; } else if n == 0x1_0000 { assert x / 0x1_0000 == q; }
    else { assert x / 0x100_0000 == q; }
  }

  // ----- sealed packets -----

  /**
   * The text of a packet: seed id, low byte first, and password when one-time passwords are in use; then the hash,
   * when there is one, of the text with zeros in its place; then the payload.
   */
  lemma TextBytes(p: SP.Params, c: SP.Crypto, stamp: Option<SP.Stamp>, payload: seq<Byte>)
    requires SP.Sound(p, c) && SP.StampOk(p, stamp)
    ensures var text := SP.Plaintext(p, c, stamp, payload);
            var (o, h) := (if p.otp then 6 else 0, if p.hash.Some? then p.hash.value else 0);
            && |text| == o + h + |payload| && text[o + h..] == payload
            && (p.otp ==> var t := stamp.value; text[..6] == [t.seedId % 256, t.seedId / 256] + t.otp)
            && (p.hash.Some? ==> text[o..o + h] == c.hash(text[..o] + seq(h, _ => 0) + text[o + h..]))
  {
    var text := SP.Plaintext(p, c, stamp, payload);
    var front := SP.StampBytes(stamp);
    assert text[..|front|] == front;
    if p.hash.Some? {
      assert SP.Zeros(p.hash.value) == seq(p.hash.value, _ => 0);
      var n := |front| + p.hash.value;
      assert text[n..] == payload && text[|front|..n] == c.hash(front + SP.Zeros(p.hash.value) + payload);
    }
  }

  /**
   * The packet: the text itself, or the IV and behind it the encryption of the text, a 1 and as few zeros as make
   * whole blocks.
   */
  lemma SealedBytes(p: SP.Params, c: SP.Crypto, stamp: Option<SP.Stamp>, payload: seq<Byte>, iv: seq<Byte>)
    requires p.Valid() && SP.Sound(p, c) && SP.StampOk(p, stamp) && (p.block.Some? ==> |iv| == p.block.value)
    ensures var (packet, text) := (SP.Encode(p, c, stamp, payload, iv), SP.Plaintext(p, c, stamp, payload));
            if p.block.None? then packet == text
            else
              exists zeros: nat :: zeros < p.block.value && (|text| + 1 + zeros) % p.block.value == 0
                && packet == iv + c.encrypt(iv, text + [1] + SP.Zeros(zeros))
  {
    if p.block.Some? {
      var (text, b) := (SP.Plaintext(p, c, stamp, payload), p.block.value);
      SP.Aligned(|text| + 1, b);
      var zeros := SP.PadZeros(|text|, b);
      assert SP.Encode(p, c, stamp, payload, iv) == iv + c.encrypt(iv, text + [1] + SP.Zeros(zeros));
    }
  }
}
