/**
 * How the decoder's reading depends on the pieces the stream comes in. It does not, except for one thing: an
 * oversized length makes it throw away whatever else has arrived, and how much that can be is decided by the
 * space left behind the length in its memory.
 */
module PacketProtoCutting {
  import opened Bytes
  import opened PacketProto

  /** Where the next packet begins after one of n bytes that began at `start`. */
  function NextStart(start: nat, n: nat, mtu: nat): nat {
    if start + n < HEADER + mtu then start + n
    else if start + n == HEADER + mtu || n == HEADER + mtu then 0
    else n
  }

  /** How many bytes can have arrived behind a length field that begins at `start`, when it is looked at. */
  function Slack(start: nat, mtu: nat): nat {
    if start <= mtu then mtu - start else mtu
  }

  /** Every oversized length either ends the stream or ends where the memory does. */
  predicate Settled(s: seq<Byte>, start: nat, mtu: nat)
    decreases |s|
  {
    match Head(s, mtu)
    case More => true
    case TooLarge => s[HEADER..] == [] || (Slack(start, mtu) == 0 && Settled(s[HEADER..], 0, mtu))
    case Packet(p) => Settled(s[HEADER + |p|..], NextStart(start, HEADER + |p|, mtu), mtu)
  }

  /** The reading in which an error loses nothing but the length itself. */
  function Reading(d: Decoder, s: seq<Byte>, mtu: nat): Decoder
    decreases |s|
  {
    match Head(s, mtu)
    case More => Decoder(s, if d.start + |s| >= HEADER + mtu then 0 else d.start, d.sent, false, d.errors)
    case TooLarge => Reading(d.(start := 0, errors := d.errors + 1), s[HEADER..], mtu)
    case Packet(p) =>
      var n := HEADER + |p|;
      Reading(d.(start := NextStart(d.start, n, mtu), sent := d.sent + [p]), s[n..], mtu)
  }

  /** The end of the memory and its beginning are the same place. */
  function Wrapped(start: nat, mtu: nat): nat {
    if start == HEADER + mtu then 0 else start
  }

  /** What the decoder will have read once `more` has arrived too. */
  function Outcome(d: Decoder, more: seq<Byte>, mtu: nat): Decoder {
    Reading(d.(start := Wrapped(d.start, mtu), buf := [], busy := false), d.buf + more, mtu)
  }

  ghost predicate Sound(d: Decoder, mtu: nat) {
    && d.start + |d.buf| <= HEADER + mtu
    && (!d.busy ==> Head(d.buf, mtu).More? && d.start + |d.buf| < HEADER + mtu)
  }

  lemma ProcessSound(d: Decoder, mtu: nat)
    requires d.start + |d.buf| <= HEADER + mtu
    ensures Sound(Process(d, mtu), mtu)
  {
  }

  lemma {:induction false} LegalSound(evs: seq<Event>, mtu: nat)
    requires Legal(evs, mtu)
    ensures Sound(Run(evs, mtu), mtu)
  {
    if evs != [] {
      var before, last := evs[..|evs| - 1], evs[|evs| - 1];
      LegalSound(before, mtu);
      var d := Run(before, mtu);
      ProcessSound(if last.Arrive? then d.(buf := d.buf + last.data) else d, mtu);
    }
  }

  // ----- settled streams are read the same in all pieces -----

  lemma WrapUnseen(d: Decoder, s: seq<Byte>, more: seq<Byte>, mtu: nat)
    requires Head(s, mtu).More? && d.start + |s| == HEADER + mtu
    ensures Reading(d.(start := 0), s + more, mtu) == Reading(d.(start := Wrapped(d.start, mtu)), s + more, mtu)
    ensures Settled(s + more, 0, mtu) == Settled(s + more, Wrapped(d.start, mtu), mtu)
  {
    if d.start < HEADER + mtu {
      match Head(s + more, mtu)
      case More =>
      case TooLarge =>
      case Packet(p) =>
    }
  }

  lemma ErrorAtEnd(d: Decoder, more: seq<Byte>, mtu: nat)
    requires d.start + |d.buf| <= HEADER + mtu && Settled(d.buf + more, Wrapped(d.start, mtu), mtu)
    requires Head(d.buf, mtu).TooLarge?
    ensures var r := d.(start := 0, buf := [], busy := false, errors := d.errors + 1);
            && Outcome(r, more, mtu) == Outcome(d, more, mtu)
            && Settled(r.buf + more, 0, mtu)
  {
    var all := d.buf + more;
    HeadOfPrefix(d.buf, more, mtu);
    assert all[HEADER..] == d.buf[HEADER..] + more;
    assert d.buf[HEADER..] == [] && [] + more == more;
    hide Head;
  }

  lemma PacketOff(d: Decoder, more: seq<Byte>, mtu: nat)
    requires d.start + |d.buf| <= HEADER + mtu && Settled(d.buf + more, Wrapped(d.start, mtu), mtu)
    requires Head(d.buf, mtu).Packet?
    ensures var p := Head(d.buf, mtu).payload;
            var r := d.(buf := d.buf[HEADER + |p|..], start := d.start + HEADER + |p|, sent := d.sent + [p],
                busy := true);
            && Outcome(r, more, mtu) == Outcome(d, more, mtu)
            && Settled(r.buf + more, Wrapped(r.start, mtu), mtu)
  {
    HeadOfPrefix(d.buf, more, mtu);
    var p := Head(d.buf, mtu).payload;
    assert (d.buf + more)[HEADER + |p|..] == d.buf[HEADER + |p|..] + more;
    hide Head;
  }

  /** Processing changes nothing about the outcome of a settled stream. */
  lemma ProcessKeepsOutcome(d: Decoder, more: seq<Byte>, mtu: nat)
    requires d.start + |d.buf| <= HEADER + mtu && Settled(d.buf + more, Wrapped(d.start, mtu), mtu)
    ensures var r := Process(d, mtu);
            && Outcome(r, more, mtu) == Outcome(d, more, mtu)
            && Settled(r.buf + more, Wrapped(r.start, mtu), mtu)
  {
    hide Head, Reading, Settled;
    match Head(d.buf, mtu)
    case More =>
      if d.start + |d.buf| == HEADER + mtu {
        WrapUnseen(d.(buf := [], busy := false), d.buf, more, mtu);
      }
    case TooLarge => ErrorAtEnd(d, more, mtu);
    case Packet(p) => PacketOff(d, more, mtu);
  }

  lemma {:induction false} RunKeepsOutcome(evs: seq<Event>, more: seq<Byte>, mtu: nat)
    requires Legal(evs, mtu) && Settled(Arrived(evs) + more, 0, mtu)
    ensures var d := Run(evs, mtu);
            && Outcome(d, more, mtu) == Reading(Fresh, Arrived(evs) + more, mtu)
            && Settled(d.buf + more, Wrapped(d.start, mtu), mtu)
  {
    hide Reading, Settled, Process, Head, Sound;
    if evs == [] {
      assert [] + more == more;
    } else {
      var before, last := evs[..|evs| - 1], evs[|evs| - 1];
      var data := if last.Arrive? then last.data else [];
      var d := Run(before, mtu);
      LastOf(evs, mtu);
      assert Arrived(evs) + more == Arrived(before) + (data + more);
      RunKeepsOutcome(before, data + more, mtu);
      assert d.buf + (data + more) == (d.buf + data) + more;
      assert d.buf + [] == d.buf;
      LegalRoom(evs, mtu);
      ProcessKeepsOutcome(d.(buf := d.buf + data), more, mtu);
    }
  }

  lemma LegalRoom(evs: seq<Event>, mtu: nat)
    requires Legal(evs, mtu) && evs != []
    ensures var d, last := Run(evs[..|evs| - 1], mtu), evs[|evs| - 1];
            d.start + |d.buf| + (if last.Arrive? then |last.data| else 0) <= HEADER + mtu
  {
    LegalSound(evs[..|evs| - 1], mtu);
  }

  /** A settled stream has one result, whatever the pieces and whenever the sends end. */
  lemma SettledReads(evs: seq<Event>, mtu: nat)
    requires Legal(evs, mtu) && !Run(evs, mtu).busy && Settled(Arrived(evs), 0, mtu)
    ensures Run(evs, mtu) == Reading(Fresh, Arrived(evs), mtu)
  {
    assert Arrived(evs) + [] == Arrived(evs);
    RunKeepsOutcome(evs, [], mtu);
    LegalSound(evs, mtu);
    var d := Run(evs, mtu);
    assert d.buf + [] == d.buf;
  }

  // ----- any other stream is read differently in different pieces -----

  ghost predicate Waiting(evs: seq<Event>, mtu: nat) {
    Legal(evs, mtu) && !Run(evs, mtu).busy
  }

  lemma Then(evs: seq<Event>, ev: Event, mtu: nat)
    requires Legal(evs, mtu) && Enabled(Run(evs, mtu), ev, mtu)
    ensures Legal(evs + [ev], mtu) && Run(evs + [ev], mtu) == Step(Run(evs, mtu), ev, mtu)
    ensures Arrived(evs + [ev]) == Arrived(evs) + if ev.Arrive? then ev.data else []
  {
    assert (evs + [ev])[..|evs|] == evs;
  }

  /** A piece arrives, and a packet it completes is sent to its end. */
  function Received(d: Decoder, data: seq<Byte>, mtu: nat): Decoder {
    var r := Process(d.(buf := d.buf + data), mtu);
    if r.busy then Process(r, mtu) else r
  }

  lemma Receive(evs: seq<Event>, data: seq<Byte>, mtu: nat) returns (r: seq<Event>)
    requires Waiting(evs, mtu) && data != []
    requires var d := Run(evs, mtu); d.start + |d.buf| + |data| <= HEADER + mtu && !Received(d, data, mtu).busy
    ensures Waiting(r, mtu) && Arrived(r) == Arrived(evs) + data
    ensures Run(r, mtu) == Received(Run(evs, mtu), data, mtu)
  {
    hide Process, Run, Legal, Arrived;
    Then(evs, Arrive(data), mtu);
    r := evs + [Arrive(data)];
    if Run(r, mtu).busy {
      Then(r, SendDone, mtu);
      r := r + [SendDone];
    }
  }

  function Total(sent: seq<seq<Byte>>): nat {
    if sent == [] then 0 else Total(sent[..|sent| - 1]) + HEADER + |sent[|sent| - 1]|
  }

  /** The bytes the decoder has accounted for: sent on, in the buffer, or reported as a bad length. */
  function Kept(d: Decoder): nat {
    Total(d.sent) + |d.buf| + HEADER * d.errors
  }

  lemma TotalSnoc(sent: seq<seq<Byte>>, p: seq<Byte>)
    ensures Total(sent + [p]) == Total(sent) + HEADER + |p|
  {
    assert (sent + [p])[..|sent|] == sent;
  }

  lemma SameLength(s: seq<Byte>, more: seq<Byte>)
    ensures |s| >= HEADER ==> FromLe16(s + more, 0) == FromLe16(s, 0)
  {
  }

  /** A single byte is never lost. */
  lemma OneByte(d: Decoder, b: Byte, mtu: nat)
    requires Sound(d, mtu) && !d.busy
    ensures var r := Received(d, [b], mtu); !r.busy && Kept(r) == Kept(d) + 1
  {
    var buf := d.buf + [b];
    SameLength(d.buf, [b]);
    if Head(buf, mtu).Packet? {
      var p := Head(buf, mtu).payload;
      assert HEADER + |p| == |buf|;
      TotalSnoc(d.sent, p);
    }
  }

  /** Byte by byte nothing is lost. */
  lemma {:induction false} ByteByByte(evs: seq<Event>, s: seq<Byte>, mtu: nat) returns (r: seq<Event>)
    requires Waiting(evs, mtu)
    ensures Waiting(r, mtu) && Arrived(r) == Arrived(evs) + s
    ensures Kept(Run(r, mtu)) == Kept(Run(evs, mtu)) + |s|
  {
    hide Received, Run, Legal, Arrived, Kept;
    if s == [] {
      r := evs;
    } else {
      var n := |s| - 1;
      var before := ByteByByte(evs, s[..n], mtu);
      LegalSound(before, mtu);
      OneByte(Run(before, mtu), s[n], mtu);
      r := Receive(before, [s[n]], mtu);
      assert s == s[..n] + [s[n]];
    }
  }

  /** The last piece of a packet: it is sent to its end, and nothing is left. */
  lemma LastPiece(d: Decoder, data: seq<Byte>, mtu: nat)
    requires Head(d.buf + data, mtu).Packet? && |d.buf + data| == HEADER + |Head(d.buf + data, mtu).payload|
    ensures var r := Received(d, data, mtu);
            && !r.busy && r.buf == [] && r.start == Wrapped(d.start + |d.buf + data|, mtu)
            && Kept(r) == Kept(d) + |data|
  {
    TotalSnoc(d.sent, Head(d.buf + data, mtu).payload);
  }

  /** A piece that completes nothing. */
  lemma FirstPiece(d: Decoder, data: seq<Byte>, mtu: nat)
    requires Head(d.buf + data, mtu).More?
    ensures var r := Received(d, data, mtu);
            && !r.busy && r.buf == d.buf + data && Kept(r) == Kept(d) + |data|
            && r.start == if d.start + |d.buf + data| == HEADER + mtu then 0 else d.start
  {
  }

  /** A piece that completes a bad length. */
  lemma BadPiece(d: Decoder, data: seq<Byte>, mtu: nat)
    requires Head(d.buf + data, mtu).TooLarge?
    ensures var r := Received(d, data, mtu);
            !r.busy && r.buf == [] && r.start == 0 && Kept(r) == Kept(d) - |d.buf| + HEADER
  {
  }

  lemma Room(evs: seq<Event>, mtu: nat)
    requires Waiting(evs, mtu)
    ensures var d := Run(evs, mtu); !d.busy && d.start + |d.buf| < HEADER + mtu && Head(d.buf, mtu).More?
  {
    LegalSound(evs, mtu);
  }

  lemma Halves(pre: seq<Byte>, s: seq<Byte>, k: nat)
    requires k <= |s|
    ensures s[..k] + s[k..] == s && pre + s[..k] + s[k..] == pre + s && [] + s == s && [] + s[..k] == s[..k]
  {
  }

  /** Starting on an empty buffer, a whole packet in as few pieces as there is room for. */
  lemma WholePacket(evs: seq<Event>, s: seq<Byte>, mtu: nat) returns (r: seq<Event>)
    requires Waiting(evs, mtu) && Run(evs, mtu).buf == [] && Head(s, mtu).Packet?
    requires |s| == HEADER + |Head(s, mtu).payload|
    ensures Waiting(r, mtu) && Arrived(r) == Arrived(evs) + s
    ensures var d := Run(r, mtu);
            && d.buf == [] && d.start == NextStart(Run(evs, mtu).start, |s|, mtu)
            && Kept(d) == Kept(Run(evs, mtu)) + |s|
  {
    hide Waiting, Run, Legal, Arrived, Head, Received, Kept;
    Room(evs, mtu);
    var d := Run(evs, mtu);
    var room := HEADER + mtu - d.start;
    if |s| <= room {
      Halves(Arrived(evs), s, |s|);
      LastPiece(d, s, mtu);
      r := Receive(evs, s, mtu);
    } else {
      r := AcrossTheEnd(evs, s, room, mtu);
    }
  }

  lemma AcrossTheEnd(evs: seq<Event>, s: seq<Byte>, room: nat, mtu: nat) returns (r: seq<Event>)
    requires Waiting(evs, mtu) && Run(evs, mtu).buf == [] && Head(s, mtu).Packet?
    requires |s| == HEADER + |Head(s, mtu).payload| && 0 < room < |s| && Run(evs, mtu).start + room == HEADER + mtu
    ensures Waiting(r, mtu) && Arrived(r) == Arrived(evs) + s
    ensures var d := Run(r, mtu); d.buf == [] && d.start == Wrapped(|s|, mtu) && Kept(d) == Kept(Run(evs, mtu)) + |s|
  {
    hide Waiting, Run, Legal, Arrived, Head, Received, Kept, Wrapped;
    var d := Run(evs, mtu);
    var a, b := s[..room], s[room..];
    Halves(Arrived(evs), s, room);
    FirstPart(s, room, mtu);
    FirstPiece(d, a, mtu);
    var before := Receive(evs, a, mtu);
    var e := Run(before, mtu);
    assert e.buf == a && e.start == 0;
    LastPiece(e, b, mtu);
    r := Receive(before, b, mtu);
  }

  lemma FirstPart(s: seq<Byte>, k: nat, mtu: nat)
    requires Head(s, mtu).Packet? && k < HEADER + |Head(s, mtu).payload|
    ensures Head(s[..k], mtu).More?
  {
    assert k >= HEADER ==> FromLe16(s[..k], 0) == FromLe16(s, 0);
  }

  /** A bad length at the very end of the memory, or split by it. */
  lemma BadLength(evs: seq<Event>, s: seq<Byte>, mtu: nat) returns (r: seq<Event>)
    requires Waiting(evs, mtu) && Run(evs, mtu).buf == [] && |s| == HEADER && Head(s, mtu).TooLarge?
    ensures Waiting(r, mtu) && Arrived(r) == Arrived(evs) + s
    ensures var d := Run(r, mtu); d.buf == [] && d.start == 0 && Kept(d) == Kept(Run(evs, mtu)) + |s|
  {
    LegalSound(evs, mtu);
    var d := Run(evs, mtu);
    ShortIsMore(s[..1], mtu);
    hide Run, Legal, Arrived, Head, Received, Kept;
    assert [] + s == s;
    if d.start <= mtu {
      BadPiece(d, s, mtu);
      r := Receive(evs, s, mtu);
    } else {
      r := InTwo(evs, s, mtu);
    }
  }

  lemma ShortIsMore(s: seq<Byte>, mtu: nat)
    requires |s| < HEADER
    ensures Head(s, mtu).More?
  {
  }

  /** The first byte of a bad length alone, and then what follows. */
  lemma InTwo(evs: seq<Event>, s: seq<Byte>, mtu: nat) returns (r: seq<Event>)
    requires Waiting(evs, mtu) && Run(evs, mtu).buf == [] && |s| >= HEADER && Head(s, mtu).TooLarge?
    requires var d := Run(evs, mtu); d.start + |s| <= HEADER + mtu || (d.start > mtu && |s| <= HEADER + mtu)
    ensures Waiting(r, mtu) && Arrived(r) == Arrived(evs) + s
    ensures var d := Run(r, mtu); d.buf == [] && d.start == 0 && Kept(d) == Kept(Run(evs, mtu)) + HEADER
  {
    hide Waiting, Run, Legal, Arrived, Head, Received, Kept;
    Room(evs, mtu);
    var d := Run(evs, mtu);
    var a, b := s[..1], s[1..];
    Halves(Arrived(evs), s, 1);
    ShortIsMore(a, mtu);
    FirstPiece(d, a, mtu);
    var before := Receive(evs, a, mtu);
    var e := Run(before, mtu);
    assert e.buf == a;
    BadPiece(e, b, mtu);
    r := Receive(before, b, mtu);
  }

  /** What the stream from here on needs to be read in two ways. */
  lemma {:induction false} TwoReadings(evs: seq<Event>, s: seq<Byte>, mtu: nat)
        returns (one: seq<Event>, two: seq<Event>)
    requires Waiting(evs, mtu) && Run(evs, mtu).buf == [] && !Settled(s, Run(evs, mtu).start, mtu)
    ensures Waiting(one, mtu) && Waiting(two, mtu)
    ensures Arrived(one) == Arrived(evs) + s && Arrived(two) == Arrived(evs) + s
    ensures Kept(Run(one, mtu)) != Kept(Run(two, mtu))
    decreases |s|
  {
    hide Run, Legal, Arrived, Kept, Waiting, Slack, NextStart;
    var start := Run(evs, mtu).start;
    match Head(s, mtu)
    case Packet(p) =>
      var n := HEADER + |p|;
      PacketAlone(s, mtu);
      var next := WholePacket(evs, s[..n], mtu);
      one, two := TwoReadings(next, s[n..], mtu);
      assert s == s[..n] + s[n..];
      Joined(Arrived(evs), s, n);
    case TooLarge =>
      LengthAlone(s, mtu);
      if Slack(start, mtu) == 0 {
        var next := BadLength(evs, s[..HEADER], mtu);
        one, two := TwoReadings(next, s[HEADER..], mtu);
        Joined(Arrived(evs), s, HEADER);
      } else {
        one := ByteByByte(evs, s, mtu);
        SlackIsRoom(evs, mtu);
        var lost := InTwo(evs, s[..HEADER + 1], mtu);
        two := ByteByByte(lost, s[HEADER + 1..], mtu);
        Joined(Arrived(evs), s, HEADER + 1);
      }
  }

  lemma SlackIsRoom(evs: seq<Event>, mtu: nat)
    requires Waiting(evs, mtu) && Slack(Run(evs, mtu).start, mtu) > 0
    ensures var d := Run(evs, mtu);
            d.start + HEADER + 1 <= HEADER + mtu || (d.start > mtu && HEADER + 1 <= HEADER + mtu)
  {
  }

  lemma Joined(a: seq<Byte>, s: seq<Byte>, n: nat)
    requires n <= |s|
    ensures a + s[..n] + s[n..] == a + s
  {
  }

  lemma PacketAlone(s: seq<Byte>, mtu: nat)
    requires Head(s, mtu).Packet?
    ensures var n := HEADER + |Head(s, mtu).payload|; Head(s[..n], mtu) == Head(s, mtu)
  {
    var p := Head(s, mtu).payload;
    assert FromLe16(s[..HEADER + |p|], 0) == FromLe16(s, 0);
    assert s[..HEADER + |p|][HEADER..HEADER + |p|] == p;
  }

  lemma LengthAlone(s: seq<Byte>, mtu: nat)
    requires Head(s, mtu).TooLarge?
    ensures forall k :: HEADER <= k <= |s| ==> Head(s[..k], mtu).TooLarge?
  {
    assert forall k :: HEADER <= k <= |s| ==> FromLe16(s[..k], 0) == FromLe16(s, 0);
  }

  /** All runs in which the stream arrives, in pieces that fit, end alike. */
  ghost predicate ReadOneWay(s: seq<Byte>, mtu: nat) {
    forall one, two ::
      Waiting(one, mtu) && Waiting(two, mtu) && Arrived(one) == s && Arrived(two) == s ==>
        Run(one, mtu) == Run(two, mtu)
  }

  /**
   * The framing does not depend on how the stream is cut and when sends end if and only if every length
   * over the MTU is the last thing in the stream, or ends exactly where the decoder's memory does.
   */
  lemma CuttingInvisibleIffSettled(s: seq<Byte>, mtu: nat)
    ensures ReadOneWay(s, mtu) <==> Settled(s, 0, mtu)
  {
    if Settled(s, 0, mtu) {
      forall one, two | Waiting(one, mtu) && Waiting(two, mtu) && Arrived(one) == s && Arrived(two) == s
        ensures Run(one, mtu) == Run(two, mtu)
      {
        SettledReads(one, mtu);
        SettledReads(two, mtu);
      }
    } else {
      var one, two := TwoReadings([], s, mtu);
      assert Arrived([]) + s == s;
      assert Run(one, mtu) != Run(two, mtu);
    }
  }

  /** In particular for every stream whose lengths keep to the MTU. */
  lemma {:induction false} CleanIsSettled(s: seq<Byte>, start: nat, mtu: nat)
    requires Clean(s, mtu)
    ensures Settled(s, start, mtu)
    decreases |s|
  {
    if Head(s, mtu).Packet? {
      var n := HEADER + |Head(s, mtu).payload|;
      CleanIsSettled(s[n..], NextStart(start, n, mtu), mtu);
    }
  }

  lemma ChunkingInvisible(evs: seq<Event>, evs': seq<Event>, mtu: nat)
    requires Arrived(evs) == Arrived(evs') && Clean(Arrived(evs), mtu)
    requires Waiting(evs, mtu) && Waiting(evs', mtu)
    ensures Run(evs, mtu) == Run(evs', mtu)
  {
    CleanIsSettled(Arrived(evs), 0, mtu);
    SettledReads(evs, mtu);
    SettledReads(evs', mtu);
  }

  /** A length of 3 at an MTU of 2, and then an empty packet: in one piece it is lost, in two it is not. */
  const TooBig: seq<Byte> := [3, 0]
  const EmptyPacket: seq<Byte> := [0, 0]

  lemma ErrorsSeeChunking()
    ensures var one, two := [Arrive(TooBig + EmptyPacket)], [Arrive(TooBig), Arrive(EmptyPacket), SendDone];
            && Waiting(one, 2) && Waiting(two, 2) && Arrived(one) == Arrived(two)
            && Run(one, 2) == Decoder([], 0, [], false, 1) && Run(two, 2) == Decoder([], 2, [[]], false, 1)
  {
    InOnePiece();
    InTwoPieces();
    assert [] + (TooBig + EmptyPacket) == [] + TooBig + EmptyPacket + [];
  }

  lemma InOnePiece()
    ensures var one := [Arrive(TooBig + EmptyPacket)];
            && Waiting(one, 2) && Arrived(one) == [] + (TooBig + EmptyPacket)
            && Run(one, 2) == Decoder([], 0, [], false, 1)
  {
    FirstSteps();
    hide Step;
    Then([], Arrive(TooBig + EmptyPacket), 2);
    assert [] + [Arrive(TooBig + EmptyPacket)] == [Arrive(TooBig + EmptyPacket)];
  }

  lemma InTwoPieces()
    ensures var two := [Arrive(TooBig), Arrive(EmptyPacket), SendDone];
            && Waiting(two, 2) && Arrived(two) == [] + TooBig + EmptyPacket + []
            && Run(two, 2) == Decoder([], 2, [[]], false, 1)
  {
    FirstSteps();
    NextSteps();
    hide Step;
    var none: seq<Event> := [];
    Then(none, Arrive(TooBig), 2);
    Then(none + [Arrive(TooBig)], Arrive(EmptyPacket), 2);
    Then(none + [Arrive(TooBig)] + [Arrive(EmptyPacket)], SendDone, 2);
    assert none + [Arrive(TooBig)] + [Arrive(EmptyPacket)] + [SendDone] ==
        [Arrive(TooBig), Arrive(EmptyPacket), SendDone];
  }

  lemma FirstSteps()
    ensures Step(Fresh, Arrive(TooBig), 2) == Decoder([], 0, [], false, 1)
    ensures Step(Fresh, Arrive(TooBig + EmptyPacket), 2) == Decoder([], 0, [], false, 1)
  {
    assert [] + TooBig == TooBig && [] + (TooBig + EmptyPacket) == TooBig + EmptyPacket;
  }

  lemma NextSteps()
    ensures Step(Decoder([], 0, [], false, 1), Arrive(EmptyPacket), 2) == Decoder([], 2, [[]], true, 1)
    ensures Step(Decoder([], 2, [[]], true, 1), SendDone, 2) == Decoder([], 2, [[]], false, 1)
  {
    var none: seq<Byte> := [];
    assert none + EmptyPacket == EmptyPacket && EmptyPacket[HEADER..HEADER] == none;
  }
}
