/** The replies of a DHCP server as bytes: which packets the client accepts, and what it reads from them. */
module DhcpMessage {
  import opened Bytes
  import opened Options
  import Spec = DhcpSpec

  const MAX_DNS: nat := 16
  /** sizeof(struct dhcp_header) */
  const HEADER: nat := 240

  /** An option: its type and payload. */
  datatype Opt = Opt(kind: Byte, val: seq<Byte>)

  /** What has been read so far, the last option of a type counting. */
  datatype Parsed = Parsed(message: Option<nat>, server: Option<nat>, lease: Option<nat>, mask: Option<nat>,
                           router: Option<nat>, dns: seq<nat>)

  const NothingYet := Parsed(None, None, None, None, None, [])

  function Be32(s: seq<Byte>): (v: nat)
    requires |s| == 4
  {
    ((s[0] as nat * 256 + s[1]) * 256 + s[2]) * 256 + s[3]
  }

  /** The first addresses of a list, as many as there is room for. */
  function Addresses(s: seq<Byte>, room: nat): (r: seq<nat>)
    requires |s| % 4 == 0
    ensures |r| == if |s| / 4 <= room then |s| / 4 else room
  {
    if s == [] || room == 0 then [] else [Be32(s[..4])] + Addresses(s[4..], room - 1)
  }

  /** One option; None when the packet is dropped for its length. */
  function Take(p: Parsed, o: Opt): Option<Parsed> {
    if o.kind == 53 then (if |o.val| != 1 then None else Some(p.(message := Some(o.val[0]))))
    else if o.kind == 54 then (if |o.val| != 4 then None else Some(p.(server := Some(Be32(o.val)))))
    else if o.kind == 51 then (if |o.val| != 4 then None else Some(p.(lease := Some(Be32(o.val)))))
    else if o.kind == 1 then (if |o.val| != 4 then None else Some(p.(mask := Some(Be32(o.val)))))
    else if o.kind == 3 then (if |o.val| != 4 then None else Some(p.(router := Some(Be32(o.val)))))
    else if o.kind == 6 then (if |o.val| % 4 != 0 then None else Some(p.(dns := Addresses(o.val, MAX_DNS))))
    else Some(p)
  }

  /** The options from s on, after what was read before; `end` once the end option was met. */
  function Parse(s: seq<Byte>, end: bool, p: Parsed): Option<Parsed>
    decreases |s|
  {
    if s == [] then (if end then Some(p) else None)
    else if s[0] == 0 then Parse(s[1..], end, p)
    else if end then None
    else if s[0] == 255 then Parse(s[1..], true, p)
    else if |s| < 2 then None
    else
      var len := s[1];
      if |s| - 2 < len then None
      else
        var q := Take(p, Opt(s[0], s[2..2 + len]));
        if q.None? then None else Parse(s[2 + len..], false, q.value)
  }

  // ----- the same, said of what a server may write -----

  /** A cell of the options area: padding or an option. */
  datatype Cell = Pad | Carries(o: Opt)

  ghost predicate CellOk(c: Cell) {
    c.Carries? ==> c.o.kind != 0 && c.o.kind != 255 && |c.o.val| < 256
  }

  function CellBytes(c: Cell): seq<Byte>
    requires CellOk(c)
  {
    if c.Pad? then [0] else [c.o.kind, |c.o.val|] + c.o.val
  }

  ghost function Layout(cells: seq<Cell>, pads: nat): seq<Byte>
    requires forall c :: c in cells ==> CellOk(c)
  {
    if cells == [] then [255] + seq(pads, _ => 0) else CellBytes(cells[0]) + Layout(cells[1..], pads)
  }

  function TakeAll(p: Parsed, cells: seq<Cell>): Option<Parsed>
    decreases |cells|
  {
    if cells == [] then Some(p)
    else if cells[0].Pad? then TakeAll(p, cells[1..])
    else
      var q := Take(p, cells[0].o);
      if q.None? then None else TakeAll(q.value, cells[1..])
  }

  lemma {:induction false} PadsParse(s: seq<Byte>, p: Parsed)
    ensures Parse(s, true, p).Some? <==> forall i :: 0 <= i < |s| ==> s[i] == 0
    ensures Parse(s, true, p).Some? ==> Parse(s, true, p) == Some(p)
  {
    if s != [] {
      PadsParse(s[1..], p);
      assert forall i :: 0 < i < |s| ==> s[i] == s[1..][i - 1];
    }
  }

  /** Options are read in order wherever padding stands between them, up to the end option and any padding after it. */
  lemma {:induction false} LayoutParses(cells: seq<Cell>, pads: nat, p: Parsed)
    requires forall c :: c in cells ==> CellOk(c)
    ensures Parse(Layout(cells, pads), false, p) == TakeAll(p, cells)
    decreases |cells|
  {
    hide Take;
    var s := Layout(cells, pads);
    if cells == [] {
      var zeros: seq<Byte> := seq(pads, _ => 0);
      assert s[1..] == zeros;
      PadsParse(zeros, p);
    } else {
      var tail := Layout(cells[1..], pads);
      var n := |CellBytes(cells[0])|;
      assert s[n..] == tail;
      if cells[0].Pad? {
        LayoutParses(cells[1..], pads, p);
      } else {
        var o := cells[0].o;
        assert s[2..2 + |o.val|] == o.val;
        if Take(p, o).Some? { LayoutParses(cells[1..], pads, Take(p, o).value); }
      }
    }
  }

  /** And nothing but such a layout is accepted. */
  lemma {:induction false} ParsedIsLayout(s: seq<Byte>, p: Parsed) returns (cells: seq<Cell>, pads: nat)
    requires Parse(s, false, p).Some?
    ensures forall c :: c in cells ==> CellOk(c)
    ensures s == Layout(cells, pads) && TakeAll(p, cells) == Parse(s, false, p)
    decreases |s|
  {
    hide Take;
    if s[0] == 255 {
      PadsParse(s[1..], p);
      cells, pads := [], |s| - 1;
      assert s == [255] + seq(pads, _ => 0);
    } else if s[0] == 0 {
      var rest;
      rest, pads := ParsedIsLayout(s[1..], p);
      cells := [Pad] + rest;
      assert s == [0] + s[1..] && cells[1..] == rest;
    } else {
      var len := s[1];
      var o := Opt(s[0], s[2..2 + len]);
      var rest;
      rest, pads := ParsedIsLayout(s[2 + len..], Take(p, o).value);
      cells := [Carries(o)] + rest;
      assert cells[1..] == rest;
      assert s == CellBytes(Carries(o)) + s[2 + len..];
    }
  }

  // ----- whole packets -----

  predicate HeaderOk(s: seq<Byte>, mac: seq<Byte>)
    requires |s| >= HEADER && |mac| == 6
  {
    s[0] == 2 && s[1] == 1 && s[2] == 6 && s[28..34] == mac && s[236..240] == [0x63, 0x82, 0x53, 0x63]
  }

  function KindOf(message: nat): Option<Spec.Kind> {
    if message == 2 then Some(Spec.Offer)
    else if message == 5 then Some(Spec.Ack)
    else if message == 6 then Some(Spec.Nak)
    else None
  }

  /** The reply in a packet, or None where recv_handler_done drops it before looking at the state's needs. */
  function ReplyIn(s: seq<Byte>, mac: seq<Byte>): Option<Spec.Reply>
    requires |mac| == 6
  {
    if |s| < HEADER || !HeaderOk(s, mac) then None
    else
      var p := Parse(s[HEADER..], false, NothingYet);
      if p.None? || p.value.message.None? then None
      else
        var kind := KindOf(p.value.message.value);
        if kind.None? then None
        else Some(Spec.Reply(kind.value, Be32(s[4..8]), p.value.server, Be32(s[16..20]), p.value.lease, p.value.mask))
  }

  /** The option loop of recv_handler_done. */
  method ParseOptions(buf: array<Byte>, dataLen: nat) returns (r: Option<Parsed>)
    requires HEADER <= dataLen <= buf.Length
    ensures r == Parse(buf[HEADER..dataLen], false, NothingYet)
  {
    hide Take;
    var pos, len := HEADER, dataLen - HEADER;
    var haveEnd := false;
    var p := NothingYet;
    while len > 0
      invariant HEADER <= pos <= dataLen && pos + len == dataLen
      invariant Parse(buf[HEADER..dataLen], false, NothingYet) == Parse(buf[pos..dataLen], haveEnd, p)
    {
      ghost var s := buf[pos..dataLen];
      assert s[1..] == buf[pos + 1..dataLen];
      if buf[pos] == 0 {
        // a filler byte
        pos, len := pos + 1, len - 1;
        continue;
      }
      if haveEnd { return None; }
      if buf[pos] == 255 {
        // nothing counts behind this
        pos, len := pos + 1, len - 1;
        haveEnd := true;
        continue;
      }
      if len < 2 { return None; }
      var optLen := buf[pos + 1];
      if optLen > len - 2 { return None; }
      var o := Opt(buf[pos], buf[pos + 2..pos + 2 + optLen]);
      forall i | 0 <= i < optLen ensures s[2..2 + optLen][i] == o.val[i] { assert s[2 + i] == buf[pos + 2 + i]; }
      assert s[2..2 + optLen] == o.val;
      assert s[2 + optLen..] == buf[pos + 2 + optLen..dataLen];
      var q := Take(p, o);
      if q.None? { return None; }
      p := q.value;
      pos, len := pos + 2 + optLen, len - 2 - optLen;
    }
    r := if haveEnd then Some(p) else None;
  }

  /** recv_handler_done up to the message type check. */
  method ReadReply(buf: array<Byte>, dataLen: nat, mac: seq<Byte>) returns (r: Option<Spec.Reply>)
    requires dataLen <= buf.Length && |mac| == 6
    ensures r == ReplyIn(buf[..dataLen], mac)
  {
    hide Parse, Be32;
    if dataLen < HEADER || !HeaderOk(buf[..dataLen], mac) { return None; }
    var p := ParseOptions(buf, dataLen);
    assert buf[..dataLen][HEADER..] == buf[HEADER..dataLen];
    if p.None? || p.value.message.None? { return None; }
    var kind := KindOf(p.value.message.value);
    if kind.None? { return None; }
    var s := buf[..dataLen];
    r := Some(Spec.Reply(kind.value, Be32(s[4..8]), p.value.server, Be32(s[16..20]), p.value.lease, p.value.mask));
  }
}
