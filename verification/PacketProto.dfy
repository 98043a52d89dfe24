/**
 * PacketProto: packets as a byte stream, each behind its 16-bit length, and what the decoder does with
 * the stream as it arrives in pieces.
 */
module PacketProto {
  import opened Bytes

  /** sizeof(struct packetproto_header) */
  const HEADER: nat := 2

  function Encode(payload: seq<Byte>): (r: seq<Byte>)
    requires |payload| < U16
    ensures |r| == HEADER + |payload|
  {
    Le16(|payload|) + payload
  }

  ghost predicate Fit(payloads: seq<seq<Byte>>, mtu: nat) {
    mtu < U16 && forall i :: 0 <= i < |payloads| ==> |payloads[i]| <= mtu
  }

  function EncodeAll(payloads: seq<seq<Byte>>): seq<Byte>
    requires forall i :: 0 <= i < |payloads| ==> |payloads[i]| < U16
  {
    if payloads == [] then [] else Encode(payloads[0]) + EncodeAll(payloads[1..])
  }

  /** What the bytes at the front of the buffer amount to. */
  datatype Verdict = More | TooLarge | Packet(payload: seq<Byte>)

  function Head(buf: seq<Byte>, mtu: nat): (v: Verdict)
    ensures v.Packet? ==> |v.payload| <= mtu && HEADER + |v.payload| <= |buf|
    ensures v.More? ==> |buf| < HEADER + mtu
  {
    if |buf| < HEADER then More
    else
      var len := FromLe16(buf, 0);
      if len > mtu then TooLarge
      else if |buf| - HEADER < len then More
      else Packet(buf[HEADER..HEADER + len])
  }

  /**
   * `buf` has arrived and is not yet sent on, and begins at `start` in the decoder's memory; `sent` was sent
   * on; `busy` says that the last packet is still on its way; `errors` were reported.
   */
  datatype Decoder = Decoder(buf: seq<Byte>, start: nat, sent: seq<seq<Byte>>, busy: bool, errors: nat)

  const Fresh := Decoder([], 0, [], false, 0)

  /** process_data */
  function Process(d: Decoder, mtu: nat): Decoder {
    match Head(d.buf, mtu)
    case More => d.(busy := false, start := if d.start + |d.buf| == HEADER + mtu then 0 else d.start)
    case TooLarge => d.(buf := [], start := 0, busy := false, errors := d.errors + 1)
    case Packet(p) =>
      var n := HEADER + |p|;
      d.(buf := d.buf[n..], start := d.start + n, sent := d.sent + [p], busy := true)
  }

  /** Data arrives only while the decoder receives and within the space it offers; a send ends only while it sends. */
  datatype Event = Arrive(data: seq<Byte>) | SendDone

  predicate Enabled(d: Decoder, ev: Event, mtu: nat) {
    match ev
    case Arrive(data) => !d.busy && data != [] && d.start + |d.buf| + |data| <= HEADER + mtu
    case SendDone => d.busy
  }

  function Step(d: Decoder, ev: Event, mtu: nat): Decoder {
    match ev
    case Arrive(data) => Process(d.(buf := d.buf + data), mtu)
    case SendDone => Process(d, mtu)
  }

  function Run(evs: seq<Event>, mtu: nat): Decoder {
    if evs == [] then Fresh else Step(Run(evs[..|evs| - 1], mtu), evs[|evs| - 1], mtu)
  }

  predicate Legal(evs: seq<Event>, mtu: nat) {
    evs == [] || (Legal(evs[..|evs| - 1], mtu) && Enabled(Run(evs[..|evs| - 1], mtu), evs[|evs| - 1], mtu))
  }

  function Arrived(evs: seq<Event>): seq<Byte> {
    if evs == [] then []
    else Arrived(evs[..|evs| - 1]) + if evs[|evs| - 1].Arrive? then evs[|evs| - 1].data else []
  }

  /** No packet of the stream, cut at its own lengths, announces more than the MTU. */
  predicate Clean(s: seq<Byte>, mtu: nat)
    decreases |s|
  {
    match Head(s, mtu)
    case More => true
    case TooLarge => false
    case Packet(p) => Clean(s[HEADER + |p|..], mtu)
  }

  // ----- facts about one packet -----

  /** The front of a stream is read the same whatever follows it. */
  lemma HeadOfPrefix(s: seq<Byte>, more: seq<Byte>, mtu: nat)
    ensures !Head(s, mtu).More? ==> Head(s + more, mtu) == Head(s, mtu)
  {
    if |s| >= HEADER {
      assert FromLe16(s + more, 0) == FromLe16(s, 0);
      var len := FromLe16(s, 0);
      if HEADER + len <= |s| { assert (s + more)[HEADER..HEADER + len] == s[HEADER..HEADER + len]; }
    }
  }

  lemma HeadOfEncoding(p: seq<Byte>, rest: seq<Byte>, mtu: nat)
    requires |p| <= mtu < U16
    ensures Head(Encode(p) + rest, mtu) == Packet(p) && (Encode(p) + rest)[HEADER + |p|..] == rest
  {
    var s := Encode(p) + rest;
    assert s == [] + Le16(|p|) + (p + rest);
    Le16RoundTrip(|p|, [], p + rest);
    assert s[HEADER..HEADER + |p|] == p;
  }

  lemma HeadEncodes(s: seq<Byte>, mtu: nat)
    requires mtu < U16 && Head(s, mtu).Packet?
    ensures var p := Head(s, mtu).payload; s == Encode(p) + s[HEADER + |p|..]
  {
    var p := Head(s, mtu).payload;
    assert Le16(|p|) == s[..HEADER];
  }

  lemma {:induction false} EncodeAllAppend(a: seq<seq<Byte>>, p: seq<Byte>)
    requires (forall i :: 0 <= i < |a| ==> |a[i]| < U16) && |p| < U16
    ensures EncodeAll(a + [p]) == EncodeAll(a) + Encode(p)
  {
    if a == [] {
      assert [] + [p] == [p];
      assert [p][1..] == [];
      assert EncodeAll([p]) == Encode(p) + EncodeAll([]);
    } else {
      assert (a + [p])[1..] == a[1..] + [p];
      EncodeAllAppend(a[1..], p);
    }
  }

  // ----- what every run keeps -----

  /** Nothing is lost, doubled or reordered: what was sent on, encoded again, and the buffer make up what arrived. */
  ghost predicate Tracks(d: Decoder, arrived: seq<Byte>, mtu: nat) {
    && Fit(d.sent, mtu)
    && EncodeAll(d.sent) + d.buf == arrived
    && (!d.busy ==> Head(d.buf, mtu).More?)
  }

  lemma ProcessTracks(d: Decoder, arrived: seq<Byte>, mtu: nat)
    requires Fit(d.sent, mtu) && EncodeAll(d.sent) + d.buf == arrived
    ensures Process(d, mtu).errors == d.errors ==> Tracks(Process(d, mtu), arrived, mtu)
    ensures Process(d, mtu).errors >= d.errors
  {
    if Head(d.buf, mtu).Packet? {
      var p := Head(d.buf, mtu).payload;
      HeadEncodes(d.buf, mtu);
      EncodeAllAppend(d.sent, p);
      hide EncodeAll, Encode, Head;
      Regroup(EncodeAll(d.sent), Encode(p), d.buf[HEADER + |p|..]);
    }
  }

  lemma {:induction false} RunTracks(evs: seq<Event>, mtu: nat)
    requires mtu < U16
    ensures Run(evs, mtu).errors == 0 ==> Tracks(Run(evs, mtu), Arrived(evs), mtu)
  {
    if evs != [] {
      var before, last := evs[..|evs| - 1], evs[|evs| - 1];
      RunTracks(before, mtu);
      var d := Run(before, mtu);
      if d.errors == 0 {
        if last.Arrive? {
          assert EncodeAll(d.sent) + (d.buf + last.data) == Arrived(evs);
          ProcessTracks(d.(buf := d.buf + last.data), Arrived(evs), mtu);
        } else {
          assert Arrived(before) + [] == Arrived(evs);
          ProcessTracks(d, Arrived(evs), mtu);
        }
      }
    }
  }

  // ----- when an error is reported -----

  lemma {:induction false} CleanAfterPackets(ps: seq<seq<Byte>>, rest: seq<Byte>, mtu: nat)
    requires Fit(ps, mtu)
    ensures Clean(EncodeAll(ps) + rest, mtu) == Clean(rest, mtu)
    decreases |ps|
  {
    if ps == [] {
      assert EncodeAll(ps) + rest == rest;
    } else {
      var tail := EncodeAll(ps[1..]) + rest;
      assert EncodeAll(ps) + rest == Encode(ps[0]) + tail;
      HeadOfEncoding(ps[0], tail, mtu);
      CleanAfterPackets(ps[1..], rest, mtu);
    }
  }

  lemma {:induction false} CleanPrefix(s: seq<Byte>, more: seq<Byte>, mtu: nat)
    requires Clean(s + more, mtu)
    ensures Clean(s, mtu)
    decreases |s|
  {
    HeadOfPrefix(s, more, mtu);
    if Head(s, mtu).Packet? {
      var n := HEADER + |Head(s, mtu).payload|;
      assert (s + more)[n..] == s[n..] + more;
      CleanPrefix(s[n..], more, mtu);
    }
  }

  /** While the stream is clean, the front of the buffer is. */
  lemma CleanStep(d: Decoder, arrived: seq<Byte>, data: seq<Byte>, mtu: nat)
    requires Tracks(d, arrived, mtu) && Clean(arrived + data, mtu)
    ensures !Head(d.buf + data, mtu).TooLarge?
  {
    assert arrived + data == EncodeAll(d.sent) + (d.buf + data);
    CleanAfterPackets(d.sent, d.buf + data, mtu);
  }

  lemma LastOf(evs: seq<Event>, mtu: nat)
    requires evs != []
    ensures var before, last := evs[..|evs| - 1], evs[|evs| - 1];
            && Arrived(evs) == Arrived(before) + (if last.Arrive? then last.data else [])
            && Run(evs, mtu) == Step(Run(before, mtu), last, mtu)
  {
  }

  /** A clean stream causes no error, however it is cut. */
  lemma {:induction false} CleanMeansNoError(evs: seq<Event>, mtu: nat)
    requires mtu < U16 && Clean(Arrived(evs), mtu)
    ensures Run(evs, mtu).errors == 0
  {
    hide Head, Clean, Arrived, Tracks;
    if evs != [] {
      var before, last := evs[..|evs| - 1], evs[|evs| - 1];
      var data := if last.Arrive? then last.data else [];
      LastOf(evs, mtu);
      CleanPrefix(Arrived(before), data, mtu);
      CleanMeansNoError(before, mtu);
      RunTracks(before, mtu);
      var d := Run(before, mtu);
      CleanStep(d, Arrived(before), data, mtu);
      assert d.buf + [] == d.buf;
    }
  }

  /** When the decoder waits for more data, an error was reported exactly if the stream so far is not clean. */
  lemma ErrorIffNotClean(evs: seq<Event>, mtu: nat)
    requires mtu < U16 && !Run(evs, mtu).busy
    ensures Run(evs, mtu).errors == 0 <==> Clean(Arrived(evs), mtu)
  {
    if Clean(Arrived(evs), mtu) {
      CleanMeansNoError(evs, mtu);
    } else if Run(evs, mtu).errors == 0 {
      RunTracks(evs, mtu);
      var d := Run(evs, mtu);
      CleanAfterPackets(d.sent, d.buf, mtu);
      assert false;
    }
  }

  // ----- a stream has one reading -----

  /** A stream has one reading: the packets and the unfinished rest. */
  lemma {:induction false} OneReading(a: seq<seq<Byte>>, restA: seq<Byte>, b: seq<seq<Byte>>, restB: seq<Byte>,
        mtu: nat)
    requires Fit(a, mtu) && Fit(b, mtu)
    requires Head(restA, mtu).More? && Head(restB, mtu).More?
    requires EncodeAll(a) + restA == EncodeAll(b) + restB
    ensures a == b && restA == restB
    decreases |a| + |b|
  {
    hide Head, Encode;
    FirstOfReading(a, restA, mtu);
    FirstOfReading(b, restB, mtu);
    if a != [] && b != [] {
      OneReading(a[1..], restA, b[1..], restB, mtu);
      assert a == [a[0]] + a[1..] && b == [b[0]] + b[1..];
    }
  }

  lemma FirstOfReading(a: seq<seq<Byte>>, rest: seq<Byte>, mtu: nat)
    requires Fit(a, mtu)
    ensures var s := EncodeAll(a) + rest;
            if a == [] then s == rest
            else
              && Head(s, mtu) == Packet(a[0]) && HEADER + |a[0]| <= |s|
              && s[HEADER + |a[0]|..] == EncodeAll(a[1..]) + rest
  {
    hide Head, Encode;
    if a != [] {
      var head, tail := Encode(a[0]), EncodeAll(a[1..]);
      assert EncodeAll(a) == head + tail;
      Regroup(head, tail, rest);
      HeadOfEncoding(a[0], tail + rest, mtu);
    } else {
      assert EncodeAll(a) + rest == rest;
    }
  }

  lemma Regroup(a: seq<Byte>, b: seq<Byte>, c: seq<Byte>)
    ensures (a + b) + c == a + (b + c)
  {
  }

  // ----- round trip -----

  lemma NothingIsClean(mtu: nat)
    ensures Clean([], mtu)
  {
  }

  /** As long as what arrived is the beginning of an encoding, what was sent on is the beginning of the packets. */
  lemma SentIsPrefix(evs: seq<Event>, payloads: seq<seq<Byte>>, mtu: nat)
    requires Fit(payloads, mtu) && Arrived(evs) <= EncodeAll(payloads)
    ensures Run(evs, mtu).errors == 0 && Run(evs, mtu).sent <= payloads
  {
    NothingIsClean(mtu);
    hide Head, Clean, Run, Arrived, EncodeAll;
    var s := EncodeAll(payloads);
    assert s == EncodeAll(payloads) + [];
    CleanAfterPackets(payloads, [], mtu);
    var more := s[|Arrived(evs)|..];
    assert s == Arrived(evs) + more;
    CleanPrefix(Arrived(evs), more, mtu);
    CleanMeansNoError(evs, mtu);
    RunTracks(evs, mtu);
    var d := Run(evs, mtu);
    assert EncodeAll(d.sent) + (d.buf + more) == s;
    PrefixOfReading(d.sent, d.buf + more, payloads, mtu);
  }

  lemma {:induction false} PrefixOfReading(a: seq<seq<Byte>>, rest: seq<Byte>, b: seq<seq<Byte>>, mtu: nat)
    requires Fit(a, mtu) && Fit(b, mtu) && EncodeAll(a) + rest == EncodeAll(b)
    ensures a <= b
    decreases |a|
  {
    if a != [] {
      assert EncodeAll(b) == Encode(a[0]) + (EncodeAll(a[1..]) + rest);
      HeadOfEncoding(a[0], EncodeAll(a[1..]) + rest, mtu);
      HeadOfEncoding(b[0], EncodeAll(b[1..]), mtu);
      PrefixOfReading(a[1..], rest, b[1..], mtu);
      assert a == [a[0]] + a[1..] && b == [b[0]] + b[1..];
    }
  }

  /** The sends that remain when no more data comes. */
  function Finish(d: Decoder, mtu: nat): (r: Decoder)
    ensures !r.busy
    decreases d.busy, |d.buf|
  {
    if !d.busy then d else Finish(Step(d, SendDone, mtu), mtu)
  }

  /**
   * Once a whole encoding has arrived, in any pieces, and the last send is over, exactly the packets were
   * sent on, in order.
   */
  lemma RoundTrip(evs: seq<Event>, payloads: seq<seq<Byte>>, mtu: nat)
    requires Fit(payloads, mtu) && Arrived(evs) == EncodeAll(payloads)
    ensures var d := Finish(Run(evs, mtu), mtu); d.buf == [] && d.sent == payloads && !d.busy && d.errors == 0
  {
    SentIsPrefix(evs, payloads, mtu);
    RunTracks(evs, mtu);
    FinishTracks(Run(evs, mtu), payloads, mtu);
  }

  lemma {:induction false} FinishTracks(d: Decoder, payloads: seq<seq<Byte>>, mtu: nat)
    requires Fit(payloads, mtu) && Tracks(d, EncodeAll(payloads), mtu) && d.errors == 0
    ensures var r := Finish(d, mtu); r.buf == [] && r.sent == payloads && !r.busy && r.errors == 0
    decreases d.busy, |d.buf|
  {
    var s := EncodeAll(payloads);
    if d.busy {
      assert s == s + [];
      CleanAfterPackets(payloads, [], mtu);
      CleanAfterPackets(d.sent, d.buf, mtu);
      ProcessTracks(d, s, mtu);
      FinishTracks(Process(d, mtu), payloads, mtu);
    } else {
      assert s == s + [];
      OneReading(d.sent, d.buf, payloads, [], mtu);
    }
  }
}
