/** The SPProto encoder and decoder, working in place on their buffers. */
module SPProtos {
  import opened Bytes
  import opened Division
  import opened Options
  import opened SPProtoSpec

  /** memcpy into a[at..] */
  method Copy(a: array<Byte>, at: nat, bytes: seq<Byte>)
    requires at + |bytes| <= a.Length
    modifies a
    ensures a[..] == old(a[..])[..at] + bytes + old(a[..])[at + |bytes|..]
  {
    ghost var before := a[..];
    var i := 0;
    while i < |bytes|
      invariant 0 <= i <= |bytes|
      invariant forall k :: 0 <= k < i ==> a[at + k] == bytes[k]
      invariant forall k :: 0 <= k < a.Length && !(at <= k < at + i) ==> a[k] == before[k]
    {
      a[at + i] := bytes[i];
      i := i + 1;
    }
    assert a[..] == before[..at] + bytes + before[at + |bytes|..];
  }

  /** The number of each password used: the how-manieth seed it is of, and its position in that seed's list. */
  type Use = (nat, nat)

  predicate Earlier(a: Use, b: Use) {
    a.0 < b.0 || (a.0 == b.0 && a.1 < b.1)
  }

  ghost predicate Increasing(uses: seq<Use>) {
    forall i, j :: 0 <= i < j < |uses| ==> Earlier(uses[i], uses[j])
  }

  class SPProtoEncoder {
    const p: Params
    const inputMtu: nat
    const otpNum: nat
    const buf: array<Byte>
    var crypto: Crypto
    var haveKey: bool
    var inLen: Option<nat>
    var out: Option<array<Byte>>
    var twHave: bool
    var twStamp: Option<Stamp>
    var seedId: nat
    var otps: seq<seq<Byte>>
    var position: nat
    var pendingSeed: Option<nat>
    ghost var seeds: nat
    ghost var uses: seq<Use>

    predicate CanEncode()
      reads this
    {
      (p.otp ==> position < otpNum) && (p.block.Some? ==> haveKey)
    }

    ghost predicate SizesOk()
      reads this`out, this`inLen
    {
      && p.Valid()
      && (p.block.Some? ==> buf.Length == AlignUp(p.HeaderLen() + inputMtu + 1, p.block.value))
      && (out.Some? ==> out.value != buf && out.value.Length == CarrierMtu(p, inputMtu))
      && (inLen.Some? ==> inLen.value <= inputMtu)
    }

    /** Passwords are used in order, each once. */
    ghost predicate UsesOk()
      reads this`uses, this`seeds, this`position
    {
      && Increasing(uses)
      && (forall u :: u in uses ==> u.0 < seeds || (u.0 == seeds && u.1 < position))
    }

    /** A packet that could be encoded is being encoded. */
    ghost predicate Valid()
      reads this
    {
      && SizesOk() && UsesOk()
      && position <= otpNum && seedId < U16 && (pendingSeed.Some? ==> pendingSeed.value < U16)
      && (position < otpNum ==> |otps| == otpNum && forall i :: 0 <= i < otpNum ==> |otps[i]| == 4)
      && (inLen.Some? ==> out.Some?)
      && (twHave ==> inLen.Some? && StampOk(p, twStamp) && (p.block.Some? ==> haveKey))
      && (inLen.Some? && CanEncode() ==> twHave)
    }

    constructor (p: Params, inputMtu: nat, otpNum: nat, crypto: Crypto)
      requires p.Valid()
      ensures Valid() && this.p == p && inLen == None && out == None && !haveKey && fresh(buf)
    {
      this.p, this.inputMtu, this.otpNum, this.crypto := p, inputMtu, otpNum, crypto;
      buf := new Byte[if p.block.Some? then AlignUp(p.HeaderLen() + inputMtu + 1, p.block.value) else 0];
      haveKey, inLen, out, twHave, twStamp := false, None, None, false, None;
      seedId, otps, position, pendingSeed := 0, [], otpNum, None;
      seeds, uses := 0, [];
    }

    /** encode_packet: takes the next password. */
    method EncodePacket()
      requires SizesOk() && UsesOk() && CanEncode() && inLen.Some? && out.Some? && !twHave
      requires position <= otpNum && seedId < U16 && (pendingSeed.Some? ==> pendingSeed.value < U16)
      requires position < otpNum ==> |otps| == otpNum && forall i :: 0 <= i < otpNum ==> |otps[i]| == 4
      modifies this`twStamp, this`position, this`twHave, this`uses
      ensures Valid() && twHave
      ensures p.otp ==> position == old(position) + 1 && twStamp == Some(Stamp(seedId, otps[old(position)]))
                        && uses == old(uses) + [(seeds, old(position))]
      ensures !p.otp ==> uses == old(uses) && position == old(position)
    {
      twStamp := None;
      if p.otp {
        twStamp := Some(Stamp(seedId, otps[position]));
        uses := uses + [(seeds, position)];
        position := position + 1;
      }
      twHave := true;
    }

    /** maybe_encode */
    method MaybeEncode()
      requires SizesOk() && UsesOk() && (inLen.Some? ==> out.Some?)
      requires position <= otpNum && seedId < U16 && (pendingSeed.Some? ==> pendingSeed.value < U16)
      requires position < otpNum ==> |otps| == otpNum && forall i :: 0 <= i < otpNum ==> |otps[i]| == 4
      requires twHave ==> inLen.Some? && StampOk(p, twStamp) && (p.block.Some? ==> haveKey)
      modifies this`twStamp, this`position, this`twHave, this`uses
      ensures Valid() && old(uses) <= uses
      ensures !old(twHave) && twHave && p.otp ==> |uses| > |old(uses)|
    {
      if inLen.Some? && out.Some? && !twHave && CanEncode() { EncodePacket(); }
    }

    /** output_handler_recv */
    method OutputHandlerRecv(data: array<Byte>)
      requires Valid() && inLen.None? && out.None? && !twHave
      requires data != buf && data.Length == CarrierMtu(p, inputMtu)
      modifies this`out
      ensures Valid() && out == Some(data)
    {
      out := Some(data);
    }

    /** input_handler_done: a payload has been written behind the place of the header. */
    method InputHandlerDone(len: nat)
      requires Valid() && inLen.None? && out.Some? && !twHave && len <= inputMtu
      modifies this`inLen, this`twStamp, this`position, this`twHave, this`uses
      ensures Valid() && inLen == Some(len) && (twHave <==> old(CanEncode()))
    {
      inLen := Some(len);
      if CanEncode() { EncodePacket(); }
    }

    /** otpgenerator_handler: passwords of the pending seed are ready. */
    method OtpGeneratorHandler(fresh_otps: seq<seq<Byte>>)
      requires Valid() && p.otp && pendingSeed.Some?
      requires |fresh_otps| == otpNum && forall i :: 0 <= i < otpNum ==> |fresh_otps[i]| == 4
      modifies this
      ensures Valid() && seedId == old(pendingSeed.value) && old(uses) <= uses
    {
      otps, position, seeds := fresh_otps, 0, seeds + 1;
      seedId := pendingSeed.value;
      pendingSeed := None;
      MaybeEncode();
    }

    method SetOTPSeed(id: nat)
      requires Valid() && p.otp && id < U16
      modifies this`pendingSeed
      ensures Valid() && pendingSeed == Some(id)
    {
      pendingSeed := Some(id);
    }

    method RemoveOTPSeed()
      requires Valid() && p.otp
      modifies this`pendingSeed, this`position
      ensures Valid() && !CanEncode()
    {
      pendingSeed := None;
      position := otpNum;
    }

    /** A packet being encoded under the old key is encoded again, with another password. */
    method SetEncryptionKey(c: Crypto)
      requires Valid() && p.block.Some?
      modifies this
      ensures Valid() && crypto == c && inLen == old(inLen) && out == old(out) && old(uses) <= uses
      ensures twHave && p.otp ==> |uses| > |old(uses)|
    {
      twHave := false;
      crypto := c;
      haveKey := true;
      MaybeEncode();
    }

    method RemoveEncryptionKey()
      requires Valid() && p.block.Some?
      modifies this`twHave, this`haveKey
      ensures Valid() && !twHave && inLen == old(inLen) && out == old(out)
    {
      twHave := false;
      haveKey := false;
    }

    lemma InFront(before: seq<Byte>, after: seq<Byte>, front: seq<Byte>, h: nat, n: nat)
      requires |front| + h + n <= |before|
      requires after == before[..0] + front + before[0 + |front|..] || (after == before && front == [])
      ensures |after| == |before| && after[..|front|] == front
      ensures after[|front| + h..|front| + h + n] == before[|front| + h..|front| + h + n]
      ensures h == 0 ==> after[..|front| + n] == front + before[|front|..|front| + n]
    {
    }

    /** Header fields around a payload already in place. */
    method BuildPlaintext(a: array<Byte>, n: nat)
      requires p.Valid() && Sound(p, crypto) && StampOk(p, twStamp) && p.HeaderLen() + n <= a.Length
      modifies a
      ensures a[..p.HeaderLen() + n] == Plaintext(p, crypto, twStamp, old(a[p.HeaderLen()..p.HeaderLen() + n]))
    {
      hide Sound, Earlier, Le16, Zeros;
      ghost var before := a[..];
      var front := StampBytes(twStamp);
      assert |front| == p.HashOff();
      if p.otp { Copy(a, 0, front); }
      InFront(before, a[..], front, p.HashLen(), n);
      if p.hash.Some? { WriteHash(a, p.HashOff(), p.hash.value, n); }
    }

    /** Bytes put into a sequence, and what follows them. */
    lemma Spliced(before: seq<Byte>, after: seq<Byte>, at: nat, bytes: seq<Byte>, n: nat)
      requires at + |bytes| + n <= |before| && after == before[..at] + bytes + before[at + |bytes|..]
      ensures var end := at + |bytes|;
              && |after| == |before| && after[..at] == before[..at] && after[end..end + n] == before[end..end + n]
              && after[..end + n] == before[..at] + bytes + before[end..end + n]
    {
    }

    lemma SplicedTwice(s0: seq<Byte>, s1: seq<Byte>, s2: seq<Byte>, at: nat, first: seq<Byte>, second: seq<Byte>,
          n: nat)
      requires at + |first| + n <= |s0| && |first| == |second|
      requires s1 == s0[..at] + first + s0[at + |first|..]
      requires s2 == s1[..at] + second + s1[at + |second|..]
      ensures var end := at + |first|;
              && s1[..end + n] == s0[..at] + first + s0[end..end + n]
              && s2[..end + n] == s0[..at] + second + s0[end..end + n]
    {
      Spliced(s0, s1, at, first, n);
      Spliced(s1, s2, at, second, n);
    }

    lemma HashSize(h: nat, s: seq<Byte>)
      requires Sound(p, crypto) && p.hash == Some(h)
      ensures |crypto.hash(s)| == h
    {
    }

    /** Zeroes the hash field, calculates the hash over all of it, and sets the field. */
    method WriteHash(a: array<Byte>, at: nat, h: nat, n: nat)
      requires Sound(p, crypto) && p.hash == Some(h) && at + h + n <= a.Length
      modifies a
      ensures var payload := old(a[at + h..at + h + n]);
              a[..at + h + n] == old(a[..at]) + crypto.hash(old(a[..at]) + Zeros(h) + payload) + payload
    {
      ghost var s0 := a[..];
      hide *;
      Copy(a, at, Zeros(h));
      ghost var s1 := a[..];
      var hash := crypto.hash(a[..at + h + n]);
      HashSize(h, a[..at + h + n]);
      Copy(a, at, hash);
      SplicedTwice(s0, s1, a[..], at, Zeros(h), hash, n);
      assert s0[..at] == old(a[..at]) && s0[at + h..at + h + n] == old(a[at + h..at + h + n]);
      assert a[..][..at + h + n] == a[..at + h + n];
    }

    /** The padding loop of encode_work_func. */
    method WritePadding(a: array<Byte>, len: nat, block: nat) returns (total: nat)
      requires block > 0 && AlignUp(len + 1, block) <= a.Length
      modifies a
      ensures total == AlignUp(len + 1, block) && a[..total] == Pad(old(a[..len]), block)
    {
      Aligned(len + 1, block);
      ghost var plain := a[..len];
      total := AlignUp(len + 1, block);
      a[len] := 1;
      var i := len + 1;
      while i < total
        invariant len + 1 <= i <= total
        invariant a[..len] == plain && a[len] == 1 && forall k :: len < k < i ==> a[k] == 0
      {
        a[i] := 0;
        i := i + 1;
      }
      assert a[..total] == plain + [1] + Zeros(total - (len + 1));
    }

    /** encode_work_func with a random IV, then encode_work_handler: the output buffer holds the encoded packet. */
    method EncodeWork(iv: seq<Byte>) returns (outLen: nat)
      requires Valid() && twHave && Sound(p, crypto) && (p.block.Some? ==> |iv| == p.block.value)
      modifies this`inLen, this`out, this`twHave, buf, out.value
      ensures Valid() && inLen == None && out == None
      ensures outLen <= old(out.value).Length
      ensures var plain := if p.block.Some? then buf else old(out.value);
              var h := p.HeaderLen();
              old(out.value)[..outLen] == Encode(p, crypto, twStamp, old(plain[h..h + inLen.value]), iv)
    {
      hide UsesOk, Plaintext, AlignUp, Sound, CarrierMtu, StampOk, Increasing;
      var dest, n := out.value, inLen.value;
      Fits(n);
      if p.block.Some? {
        outLen := Encrypted(dest, n, iv);
      } else {
        BuildPlaintext(dest, n);
        outLen := p.HeaderLen() + n;
      }
      twHave, inLen, out := false, None, None;
    }

    lemma Fits(n: nat)
      requires SizesOk() && n <= inputMtu
      ensures p.block.None? ==> p.HeaderLen() + n <= CarrierMtu(p, inputMtu)
      ensures p.block.Some? ==> var b := p.block.value;
                && p.HeaderLen() + n < AlignUp(p.HeaderLen() + n + 1, b) <= buf.Length
                && b + AlignUp(p.HeaderLen() + n + 1, b) <= CarrierMtu(p, inputMtu)
    {
      if p.block.Some? { AlignMono(p.HeaderLen() + n + 1, p.HeaderLen() + inputMtu + 1, p.block.value); }
    }

    method Encrypted(dest: array<Byte>, n: nat, iv: seq<Byte>) returns (outLen: nat)
      requires p.Valid() && Sound(p, crypto) && StampOk(p, twStamp) && p.block.Some? && |iv| == p.block.value
      requires dest != buf
      requires p.HeaderLen() + n < AlignUp(p.HeaderLen() + n + 1, p.block.value) <= buf.Length
      requires p.block.value + AlignUp(p.HeaderLen() + n + 1, p.block.value) <= dest.Length
      modifies dest, buf
      ensures outLen <= dest.Length
      ensures dest[..outLen] == Encode(p, crypto, twStamp, old(buf[p.HeaderLen()..p.HeaderLen() + n]), iv)
    {
      hide Plaintext, AlignUp, Pad, Sound, Earlier, Increasing, StampOk;
      var b := p.block.value;
      BuildPlaintext(buf, n);
      ghost var plain := buf[..p.HeaderLen() + n];
      var total := WritePadding(buf, p.HeaderLen() + n, b);
      SealedLength(p, crypto, plain, iv);
      var sealed := crypto.encrypt(iv, buf[..total]);
      outLen := b + total;
      PutBoth(dest, iv, sealed);
    }

    method PutBoth(dest: array<Byte>, iv: seq<Byte>, sealed: seq<Byte>)
      requires |iv| + |sealed| <= dest.Length
      modifies dest
      ensures dest[..|iv| + |sealed|] == iv + sealed
    {
      Copy(dest, 0, iv);
      assert dest[..|iv|] == iv;
      Copy(dest, |iv|, sealed);
    }
  }

  /** A decoded payload: where it stands in the plaintext. */
  datatype Found = Found(at: nat, len: nat, stamp: Option<Stamp>)

  class SPProtoDecoder {
    const p: Params
    const outputMtu: nat
    const buf: array<Byte>
    var crypto: Crypto
    var haveKey: bool

    ghost predicate Valid()
      reads this
    {
      && p.Valid() && Sound(p, crypto)
      && (p.block.Some? ==> buf.Length == AlignUp(p.HeaderLen() + outputMtu + 1, p.block.value))
    }

    constructor (p: Params, outputMtu: nat, crypto: Crypto)
      requires p.Valid() && Sound(p, crypto)
      ensures Valid() && this.p == p && this.outputMtu == outputMtu && this.crypto == crypto && !haveKey && fresh(buf)
    {
      this.p, this.outputMtu, this.crypto, haveKey := p, outputMtu, crypto, false;
      buf := new Byte[if p.block.Some? then AlignUp(p.HeaderLen() + outputMtu + 1, p.block.value) else 0];
    }

    method SetEncryptionKey(c: Crypto)
      requires Valid() && Sound(p, c)
      modifies this
      ensures Valid() && crypto == c && haveKey
    {
      crypto, haveKey := c, true;
    }

    /** The backward scan for the start of the padding. */
    method FindPadding(len: nat, block: nat) returns (n: Option<nat>)
      requires block <= len <= buf.Length
      ensures n == Scan(buf[..len], len, len - block)
    {
      var i := len;
      while i > len - block
        invariant len - block <= i <= len
        invariant Scan(buf[..len], len, len - block) == Scan(buf[..len], i, len - block)
      {
        if buf[i - 1] == 1 { return Some(i - 1); }
        if buf[i - 1] != 0 { return None; }
        i := i - 1;
      }
      n := None;
    }

    /** Compares the hash with one calculated with zeros in its place, and puts the field back. */
    method CheckHash(a: array<Byte>, len: nat) returns (ok: bool)
      requires p.Valid() && Sound(p, crypto) && p.HeaderLen() <= len <= a.Length
      modifies a
      ensures a[..] == old(a[..])
      ensures ok == HashOk(p, crypto, old(a[..len]))
    {
      hide Sound;
      if p.hash.None? { return true; }
      var at, n := p.HashOff(), p.HeaderLen();
      ghost var before := a[..];
      assert a[..len] == before[..len];
      var hash := a[at..n];
      Copy(a, at, Zeros(n - at));
      Zeroed(before, at, n, len, Zeros(n - at));
      var calculated := crypto.hash(a[..len]);
      Copy(a, at, hash);
      Restored(before, at, n, Zeros(n - at));
      ok := hash == calculated;
    }

    lemma Zeroed(s: seq<Byte>, at: nat, n: nat, len: nat, zeros: seq<Byte>)
      requires at <= n <= len <= |s| && |zeros| == n - at
      ensures (s[..at] + zeros + s[n..])[..len] == s[..len][..at] + zeros + s[..len][n..]
      ensures s[at..n] == s[..len][at..n]
    {
    }

    lemma Restored(s: seq<Byte>, at: nat, n: nat, zeros: seq<Byte>)
      requires at <= n <= |s| && |zeros| == n - at
      ensures var t := s[..at] + zeros + s[n..]; t[..at] + s[at..n] + t[n..] == s
    {
    }

    /** decode_work_func on the bytes of a packet in an input buffer. */
    method DecodeWork(packet: array<Byte>, len: nat) returns (r: Option<Found>)
      requires Valid() && packet != buf && len <= packet.Length && len <= CarrierMtu(p, outputMtu)
      modifies packet, buf
      ensures packet[..] == old(packet[..])
      ensures var d := Decode(p, crypto, outputMtu, haveKey, old(packet[..len]));
              var plain := if p.block.Some? then buf else packet;
              if r.None? then d.None?
              else r.value.at + r.value.len <= plain.Length
                   && d == Some(Decoded(r.value.stamp, plain[r.value.at..r.value.at + r.value.len]))
    {
      hide Sound, HashOk, Scan, AlignUp, CarrierMtu, StampAt;
      ghost var before := packet[..len];
      var plain, n := packet, len;
      if p.block.Some? {
        var unsealed := Decrypt(packet, len);
        if unsealed.None? { return None; }
        plain, n := buf, unsealed.value;
      }
      assert Open(p, crypto, haveKey, before) == Some(plain[..n]);
      r := CheckHeader(plain, n);
    }

    /** The key, block and padding checks, and the decryption into buf. */
    method Decrypt(packet: array<Byte>, len: nat) returns (n: Option<nat>)
      requires Valid() && packet != buf && len <= packet.Length && len <= CarrierMtu(p, outputMtu) && p.block.Some?
      modifies buf
      ensures n.Some? ==> n.value <= buf.Length
      ensures Open(p, crypto, haveKey, packet[..len]) == if n.None? then None else Some(buf[..n.value])
    {
      hide Sound, AlignUp, CarrierMtu, Scan;
      var b := p.block.value;
      if len % b != 0 || len < b || !haveKey { return None; }
      var text := DecryptedText(packet[..len]);
      TextFits(len);
      Copy(buf, 0, text);
      if |text| < b { return None; }
      assert buf[..|text|] == text;
      n := FindPadding(|text|, b);
      if n.Some? { assert buf[..n.value] == text[..n.value]; }
    }

    lemma TextFits(len: nat)
      requires Valid() && p.block.Some? && p.block.value <= len <= CarrierMtu(p, outputMtu)
      ensures len - p.block.value <= buf.Length
    {
    }

    method DecryptedText(bytes: seq<Byte>) returns (text: seq<Byte>)
      requires Valid() && p.block.Some? && |bytes| % p.block.value == 0 && |bytes| >= p.block.value
      ensures text == crypto.decrypt(bytes[..p.block.value], bytes[p.block.value..])
      ensures |text| == |bytes| - p.block.value
    {
      AddOnce(|bytes| - p.block.value, p.block.value);
      text := crypto.decrypt(bytes[..p.block.value], bytes[p.block.value..]);
    }

    /** The header, length and hash checks on a plaintext. */
    method CheckHeader(plain: array<Byte>, n: nat) returns (r: Option<Found>)
      requires p.Valid() && Sound(p, crypto) && n <= plain.Length
      modifies plain
      ensures plain[..] == old(plain[..])
      ensures var s := old(plain[..n]);
              if r.None? then |s| < p.HeaderLen() || |s| - p.HeaderLen() > outputMtu || !HashOk(p, crypto, s)
              else |s| >= p.HeaderLen() && |s| - p.HeaderLen() <= outputMtu && HashOk(p, crypto, s)
                   && r.value == Found(p.HeaderLen(), n - p.HeaderLen(), StampAt(p, s))
    {
      hide Sound, HashOk;
      ghost var s := plain[..n];
      var h := p.HeaderLen();
      if n < h || n - h > outputMtu { return None; }
      var stamp := StampAt(p, plain[..n]);
      var ok := CheckHash(plain, n);
      if !ok { return None; }
      r := Some(Found(h, n - h, stamp));
    }
  }

  lemma AlignMono(x: nat, y: nat, b: nat)
    requires b > 0 && x <= y
    ensures AlignUp(x, b) <= AlignUp(y, b)
  {
    Aligned(x, b);
    Aligned(y, b);
    if AlignUp(y, b) < x + b { SameMultiple(x, b, AlignUp(y, b), AlignUp(x, b)); }
  }
}
