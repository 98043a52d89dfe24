/**
 * SPProto packets: an optional one-time password and hash before the payload, optionally padded and
 * encrypted behind an IV. The hash and the cipher are parameters.
 */
module SPProtoSpec {
  import opened Bytes
  import opened Division
  import opened Options

  /** sizeof(struct spproto_otpdata): a 16-bit seed id and a 32-bit password. */
  const OTP_LEN: nat := 6

  /** Which protections are on, with the size of the hash and of the cipher's block. */
  datatype Params = Params(otp: bool, hash: Option<nat>, block: Option<nat>) {
    predicate Valid() { block.Some? ==> block.value > 0 }

    function HashOff(): nat { if otp then OTP_LEN else 0 }
    function HashLen(): nat { if hash.Some? then hash.value else 0 }
    function HeaderLen(): nat { HashOff() + HashLen() }
  }

  /** The seed id and the password, as they stand in the packet. */
  datatype Stamp = Stamp(seedId: nat, otp: seq<Byte>)

  predicate StampOk(p: Params, stamp: Option<Stamp>) {
    && stamp.Some? == p.otp
    && (stamp.Some? ==> stamp.value.seedId < U16 && |stamp.value.otp| == 4)
  }

  datatype Crypto = Crypto(hash: seq<Byte> -> seq<Byte>,
                           encrypt: (seq<Byte>, seq<Byte>) -> seq<Byte>,
                           decrypt: (seq<Byte>, seq<Byte>) -> seq<Byte>)

  /** Hashes have their size, and the cipher under a key and an IV is a bijection on whole blocks. */
  ghost predicate Sound(p: Params, c: Crypto) {
    && (p.hash.Some? ==> forall d :: |c.hash(d)| == p.hash.value)
    && (p.block.Some? && p.block.value > 0 ==> forall iv, d :: |iv| == p.block.value && |d| % p.block.value == 0 ==>
          && |c.encrypt(iv, d)| == |d| && c.decrypt(iv, c.encrypt(iv, d)) == d
          && |c.decrypt(iv, d)| == |d| && c.encrypt(iv, c.decrypt(iv, d)) == d)
  }

  /** balign_up */
  function AlignUp(x: nat, n: nat): nat
    requires n > 0
  {
    var r := x % n;
    if r != 0 then x + (n - r) else x
  }

  /** balign_down */
  function AlignDown(x: nat, n: nat): nat
    requires n > 0
  {
    x - x % n
  }

  function Zeros(n: nat): (r: seq<Byte>)
    ensures |r| == n && forall i :: 0 <= i < n ==> r[i] == 0
  {
    seq(n, _ => 0)
  }

  function StampBytes(stamp: Option<Stamp>): seq<Byte>
    requires stamp.Some? ==> stamp.value.seedId < U16
  {
    if stamp.Some? then Le16(stamp.value.seedId) + stamp.value.otp else []
  }

  /** Header and payload, the hash being that of the same bytes with zeros in its place. */
  function Plaintext(p: Params, c: Crypto, stamp: Option<Stamp>, payload: seq<Byte>): seq<Byte>
    requires StampOk(p, stamp)
  {
    var front := StampBytes(stamp);
    if p.hash.None? then front + payload
    else front + c.hash(front + Zeros(p.hash.value) + payload) + payload
  }

  function Pad(plain: seq<Byte>, block: nat): seq<Byte>
    requires block > 0
  {
    plain + [1] + Zeros(PadZeros(|plain|, block))
  }

  function PadZeros(len: nat, block: nat): nat
    requires block > 0
  {
    AlignUp(len + 1, block) - (len + 1)
  }

  function Encode(p: Params, c: Crypto, stamp: Option<Stamp>, payload: seq<Byte>, iv: seq<Byte>): seq<Byte>
    requires p.Valid() && StampOk(p, stamp)
  {
    var plain := Plaintext(p, c, stamp, payload);
    if p.block.None? then plain else iv + c.encrypt(iv, Pad(plain, p.block.value))
  }

  /** The scan for the 1 that starts the padding, from index i - 1 down to low. */
  function Scan(s: seq<Byte>, i: nat, low: nat): (r: Option<nat>)
    requires low <= i <= |s|
    ensures r.Some? ==> low <= r.value < i
  {
    if i == low then None
    else if s[i - 1] == 1 then Some(i - 1)
    else if s[i - 1] != 0 then None
    else Scan(s, i - 1, low)
  }

  /** The plaintext of a packet, if decryption and padding are in order. (A sound cipher never changes the length.) */
  function Open(p: Params, c: Crypto, haveKey: bool, packet: seq<Byte>): Option<seq<Byte>>
    requires p.Valid()
  {
    if p.block.None? then Some(packet)
    else
      var b := p.block.value;
      if |packet| % b != 0 || |packet| < b || !haveKey then None
      else
        var plain := c.decrypt(packet[..b], packet[b..]);
        if |plain| != |packet| - b || |plain| < b then None
        else
          var n := Scan(plain, |plain|, |plain| - b);
          if n.None? then None else Some(plain[..n.value])
  }

  function StampAt(p: Params, plain: seq<Byte>): Option<Stamp>
    requires |plain| >= p.HeaderLen()
  {
    if p.otp then Some(Stamp(FromLe16(plain, 0), plain[2..6])) else None
  }

  predicate HashOk(p: Params, c: Crypto, plain: seq<Byte>)
    requires |plain| >= p.HeaderLen()
  {
    p.hash.Some? ==>
      var o, n := p.HashOff(), p.HashOff() + p.hash.value;
      plain[o..n] == c.hash(plain[..o] + Zeros(p.hash.value) + plain[n..])
  }

  datatype Decoded = Decoded(stamp: Option<Stamp>, payload: seq<Byte>)

  /** decode_work_func */
  function Decode(p: Params, c: Crypto, mtu: nat, haveKey: bool, packet: seq<Byte>): Option<Decoded>
    requires p.Valid()
  {
    var text := Open(p, c, haveKey, packet);
    if text.None? then None
    else
      var plain := text.value;
      if |plain| < p.HeaderLen() || |plain| - p.HeaderLen() > mtu || !HashOk(p, c, plain) then None
      else Some(Decoded(StampAt(p, plain), plain[p.HeaderLen()..]))
  }

  // ----- padding -----

  lemma Aligned(x: nat, n: nat)
    requires n > 0
    ensures AlignUp(x, n) % n == 0 && x <= AlignUp(x, n) < x + n
  {
    var r := x % n;
    if r != 0 {
      MultipleOf(x / n + 1, n);
      assert x == (x / n) * n + r;
      assert AlignUp(x, n) == (x / n + 1) * n;
    }
  }

  /** There is only one multiple in each stretch of length n. */
  lemma OneMultiple(x: nat, n: nat, m: nat)
    requires n > 0 && m % n == 0 && x <= m < x + n
    ensures m == AlignUp(x, n)
  {
    Aligned(x, n);
    SameMultiple(x, n, m, AlignUp(x, n));
  }

  lemma SameMultiple(x: nat, n: nat, m: nat, a: nat)
    requires n > 0 && m % n == 0 && a % n == 0 && x <= m < x + n && x <= a < x + n
    ensures m == a
  {
    var i, j := m / n, a / n;
    ByDivision(m, n);
    ByDivision(a, n);
    MulMono(i + 1, j, n);
    MulMono(j + 1, i, n);
    Distribute(i, j, n);
    Distribute(j, i, n);
  }

  lemma {:induction false} ScanFinds(s: seq<Byte>, i: nat, low: nat, n: nat)
    requires low <= n < i <= |s| && s[n] == 1 && forall k :: n < k < i ==> s[k] == 0
    ensures Scan(s, i, low) == Some(n)
  {
    if i - 1 != n { ScanFinds(s, i - 1, low, n); }
  }

  lemma {:induction false} ScanFound(s: seq<Byte>, i: nat, low: nat)
    requires low <= i <= |s| && Scan(s, i, low).Some?
    ensures var n := Scan(s, i, low).value; s[n] == 1 && forall k :: n < k < i ==> s[k] == 0
  {
    if s[i - 1] != 1 { ScanFound(s, i - 1, low); }
  }

  /**
   * The padding always has its 1 in the last block, and a padded text with its 1 there is the padding of what
   * precedes it.
   */
  lemma PadThenScan(plain: seq<Byte>, b: nat)
    requires b > 0
    ensures var s := Pad(plain, b);
            |s| % b == 0 && |s| >= b && Scan(s, |s|, |s| - b) == Some(|plain|) && s[..|plain|] == plain
  {
    var s := Pad(plain, b);
    Aligned(|plain| + 1, b);
    assert |s| == AlignUp(|plain| + 1, b);
    AtLeastOne(|s|, b);
    ScanFinds(s, |s|, |s| - b, |plain|);
  }

  lemma AtLeastOne(x: nat, b: nat)
    requires b > 0 && x > 0 && x % b == 0
    ensures x >= b
  {
    if x < b { DivModUnique(x, b, 0, x); }
  }

  lemma ScanThenPad(s: seq<Byte>, b: nat)
    requires b > 0 && |s| % b == 0 && |s| >= b && Scan(s, |s|, |s| - b).Some?
    ensures s == Pad(s[..Scan(s, |s|, |s| - b).value], b)
  {
    var n := Scan(s, |s|, |s| - b).value;
    ScanFound(s, |s|, |s| - b);
    OneMultiple(n + 1, b, |s|);
    assert s == s[..n] + [1] + Zeros(|s| - n - 1);
  }

  // ----- the two directions -----

  lemma PlaintextParts(p: Params, c: Crypto, stamp: Option<Stamp>, payload: seq<Byte>)
    requires p.Valid() && Sound(p, c) && StampOk(p, stamp)
    ensures var plain := Plaintext(p, c, stamp, payload);
            && |plain| == p.HeaderLen() + |payload| && HashOk(p, c, plain)
            && StampAt(p, plain) == stamp && plain[p.HeaderLen()..] == payload
  {
    var plain, front := Plaintext(p, c, stamp, payload), StampBytes(stamp);
    assert plain[..|front|] == front;
    assert plain[p.HeaderLen()..] == payload;
    if p.otp {
      Le16RoundTrip(stamp.value.seedId, [], plain[2..]);
      assert plain == [] + Le16(stamp.value.seedId) + plain[2..];
      assert plain[2..6] == stamp.value.otp;
    }
    if p.hash.Some? {
      assert plain[p.HashOff()..p.HeaderLen()] == c.hash(front + Zeros(p.hash.value) + payload);
    }
  }

  lemma PartsPlaintext(p: Params, c: Crypto, plain: seq<Byte>)
    requires p.Valid() && |plain| >= p.HeaderLen() && HashOk(p, c, plain)
    ensures StampOk(p, StampAt(p, plain)) && Plaintext(p, c, StampAt(p, plain), plain[p.HeaderLen()..]) == plain
  {
    var o, h := p.HashOff(), p.HeaderLen();
    assert plain == plain[..o] + plain[o..h] + plain[h..];
    if p.otp {
      var v := FromLe16(plain, 0);
      assert v % 256 == plain[0] && v / 256 == plain[1];
      assert plain[..o] == Le16(v) + plain[2..6];
    }
  }

  lemma OpenSealed(p: Params, c: Crypto, plain: seq<Byte>, iv: seq<Byte>)
    requires p.Valid() && Sound(p, c) && (p.block.Some? ==> |iv| == p.block.value)
    ensures var packet := if p.block.None? then plain else iv + c.encrypt(iv, Pad(plain, p.block.value));
            Open(p, c, true, packet) == Some(plain)
  {
    hide Pad, Scan, AlignUp;
    if p.block.Some? {
      var b := p.block.value;
      PadThenScan(plain, b);
      var sealed := c.encrypt(iv, Pad(plain, b));
      var packet := iv + sealed;
      assert packet[..b] == iv && packet[b..] == sealed;
      AddOnce(|sealed|, b);
    }
  }

  lemma SealOpened(p: Params, c: Crypto, haveKey: bool, packet: seq<Byte>)
    requires p.Valid() && Sound(p, c) && Open(p, c, haveKey, packet).Some?
    ensures p.block.Some? ==> |packet| >= p.block.value
    ensures var plain := Open(p, c, haveKey, packet).value;
            packet == if p.block.None? then plain else
                        packet[..p.block.value] + c.encrypt(packet[..p.block.value], Pad(plain, p.block.value))
  {
    hide Pad, Scan, AlignUp;
    if p.block.Some? {
      var b := p.block.value;
      var iv, sealed := packet[..b], packet[b..];
      AddOnce(|sealed|, b);
      var s := c.decrypt(iv, sealed);
      ScanThenPad(s, b);
      assert packet == iv + sealed;
    }
  }

  /** The IV a packet carries. */
  function IvOf(p: Params, packet: seq<Byte>): seq<Byte> {
    if p.block.Some? && |packet| >= p.block.value then packet[..p.block.value] else []
  }

  /**
   * With the key, a packet is accepted as a payload with a stamp exactly when it is their encoding under the IV
   * it carries: every encoding is decoded, and nothing else is, however the protections are combined.
   */
  lemma DecodeInvertsEncode(p: Params, c: Crypto, mtu: nat, packet: seq<Byte>, d: Decoded)
    requires p.Valid() && Sound(p, c)
    ensures Decode(p, c, mtu, true, packet) == Some(d) <==>
              && StampOk(p, d.stamp) && |d.payload| <= mtu
              && (p.block.Some? ==> |IvOf(p, packet)| == p.block.value)
              && packet == Encode(p, c, d.stamp, d.payload, IvOf(p, packet))
  {
    if Decode(p, c, mtu, true, packet) == Some(d) {
      SealOpened(p, c, true, packet);
      PartsPlaintext(p, c, Open(p, c, true, packet).value);
    }
    if StampOk(p, d.stamp) && (p.block.Some? ==> |IvOf(p, packet)| == p.block.value) {
      var plain := Plaintext(p, c, d.stamp, d.payload);
      PlaintextParts(p, c, d.stamp, d.payload);
      OpenSealed(p, c, plain, IvOf(p, packet));
    }
  }

  /** Decoding an encoded packet returns the payload and the stamp. */
  lemma RoundTrip(p: Params, c: Crypto, mtu: nat, stamp: Option<Stamp>, payload: seq<Byte>, iv: seq<Byte>)
    requires p.Valid() && Sound(p, c) && StampOk(p, stamp) && |payload| <= mtu
    requires p.block.Some? ==> |iv| == p.block.value
    ensures Decode(p, c, mtu, true, Encode(p, c, stamp, payload, iv)) == Some(Decoded(stamp, payload))
  {
    PlaintextParts(p, c, stamp, payload);
    OpenSealed(p, c, Plaintext(p, c, stamp, payload), iv);
  }

  // ----- sizes -----

  /** spproto_carrier_mtu_for_payload_mtu, where it does not overflow. */
  function CarrierMtu(p: Params, payloadMtu: nat): nat
    requires p.Valid()
  {
    if p.block.None? then p.HeaderLen() + payloadMtu
    else p.block.value + AlignUp(p.HeaderLen() + payloadMtu + 1, p.block.value)
  }

  /** spproto_payload_mtu_for_carrier_mtu; negative when nothing fits. */
  function PayloadMtu(p: Params, carrierMtu: nat): int
    requires p.Valid()
  {
    if p.block.None? then carrierMtu - p.HeaderLen()
    else AlignDown(carrierMtu, p.block.value) - p.block.value - p.HeaderLen() - 1
  }

  lemma EncodedLength(p: Params, c: Crypto, stamp: Option<Stamp>, payload: seq<Byte>, iv: seq<Byte>)
    requires p.Valid() && Sound(p, c) && StampOk(p, stamp) && (p.block.Some? ==> |iv| == p.block.value)
    ensures |Encode(p, c, stamp, payload, iv)| == CarrierMtu(p, |payload|)
  {
    hide Sound, Plaintext, AlignUp, Pad, StampOk;
    PlaintextParts(p, c, stamp, payload);
    if p.block.Some? { SealedLength(p, c, Plaintext(p, c, stamp, payload), iv); }
  }

  lemma SealedLength(p: Params, c: Crypto, plain: seq<Byte>, iv: seq<Byte>)
    requires p.Valid() && Sound(p, c) && p.block.Some? && |iv| == p.block.value
    ensures |c.encrypt(iv, Pad(plain, p.block.value))| == AlignUp(|plain| + 1, p.block.value)
  {
    var b := p.block.value;
    Aligned(|plain| + 1, b);
    assert |Pad(plain, b)| == AlignUp(|plain| + 1, b);
    hide AlignUp, Pad;
  }

  /**
   * The two size functions agree: a payload's packet fits a carrier exactly when the payload is within what is
   * left of it.
   */
  lemma SizesAgree(p: Params, payload: nat, carrier: nat)
    requires p.Valid()
    ensures CarrierMtu(p, payload) <= carrier <==> payload <= PayloadMtu(p, carrier)
  {
    if p.block.Some? {
      var b, x := p.block.value, p.HeaderLen() + payload + 1;
      Aligned(x, b);
      hide AlignUp;
      BlocksFit(x, b, AlignUp(x, b), carrier);
    }
  }

  lemma BlocksFit(x: nat, b: nat, up: nat, carrier: nat)
    requires b > 0 && up % b == 0 && x <= up < x + b
    ensures b + up <= carrier <==> x <= carrier - carrier % b - b
  {
    var u, d := up / b, carrier / b;
    ByDivision(up, b);
    ByDivision(carrier, b);
    MultipleWithin(carrier, b, u + 1);
    MultipleAbove(x, b, u, d - 1);
    Distribute(u, d, b);
  }

  lemma MultipleAbove(x: nat, b: nat, up: nat, k: int)
    requires b > 0 && x <= up * b < x + b
    ensures x <= k * b <==> up <= k
  {
    MulMono(up, k, b);
    MulMono(k, up - 1, b);
    assert (up - 1) * b == up * b - b;
  }
}
