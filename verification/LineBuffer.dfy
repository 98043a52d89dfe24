/** Splitting a byte stream into lines no longer than a buffer. */
module LineBuffers {
  import opened Bytes

  /**
   * How long the first line at the front of s is: up to a newline or to a full buffer; 0 when that is not there
   * yet.
   */
  function FirstLine(s: seq<Byte>, size: nat, nl: Byte): (n: nat)
    requires size > 0
    ensures n <= |s| && n <= size
  {
    var i := Find(s, nl);
    if i < |s| && i < size then i + 1
    else if |s| >= size then size
    else 0
  }

  function Find(s: seq<Byte>, nl: Byte): (i: nat)
    ensures i <= |s| && (forall k :: 0 <= k < i ==> s[k] != nl) && (i < |s| ==> s[i] == nl)
  {
    if s == [] || s[0] == nl then 0 else 1 + Find(s[1..], nl)
  }

  datatype Split = Split(lines: seq<seq<Byte>>, rest: seq<Byte>)

  /** The greedy reading of a stream. */
  function Lines(s: seq<Byte>, size: nat, nl: Byte): Split
    requires size > 0
    decreases |s|
  {
    var n := FirstLine(s, size, nl);
    if n == 0 then Split([], s)
    else
      var r := Lines(s[n..], size, nl);
      Split([s[..n]] + r.lines, r.rest)
  }

  function Concat(lines: seq<seq<Byte>>): seq<Byte> {
    if lines == [] then [] else lines[0] + Concat(lines[1..])
  }

  /** Ends at its only newline, or is full and has none before its last byte. */
  ghost predicate IsLine(line: seq<Byte>, size: nat, nl: Byte) {
    0 < |line| <= size && nl !in line[..|line| - 1] && (line[|line| - 1] == nl || |line| == size)
  }

  lemma FirstIsLine(s: seq<Byte>, size: nat, nl: Byte)
    requires size > 0
    ensures var n := FirstLine(s, size, nl); if n == 0 then |s| < size && nl !in s else IsLine(s[..n], size, nl)
  {
    var n := FirstLine(s, size, nl);
    if n > 0 {
      assert s[..n][..n - 1] == s[..n - 1];
      assert forall k :: 0 <= k < n - 1 ==> s[k] != nl;
    }
  }

  /** A greedy reading loses nothing. */
  lemma {:induction false} LinesLoseNothing(s: seq<Byte>, size: nat, nl: Byte)
    requires size > 0
    ensures Concat(Lines(s, size, nl).lines) + Lines(s, size, nl).rest == s
    decreases |s|
  {
    hide FirstLine, Find, Concat;
    var n := FirstLine(s, size, nl);
    if n == 0 {
      NoLines(s);
    } else {
      LinesLoseNothing(s[n..], size, nl);
      Glue(Lines(s[n..], size, nl).lines, Lines(s[n..], size, nl).rest, s, n);
    }
  }

  /** It cuts only whole lines, and leaves less than a line. */
  lemma {:induction false} LinesAreGreedy(s: seq<Byte>, size: nat, nl: Byte)
    requires size > 0
    ensures |Lines(s, size, nl).rest| < size && nl !in Lines(s, size, nl).rest
    ensures forall line :: line in Lines(s, size, nl).lines ==> IsLine(line, size, nl)
    decreases |s|
  {
    hide FirstLine, Find, IsLine;
    FirstIsLine(s, size, nl);
    var n := FirstLine(s, size, nl);
    if n > 0 { LinesAreGreedy(s[n..], size, nl); }
  }

  lemma NoLines(s: seq<Byte>)
    ensures Concat([]) + s == s
  {
    assert Concat([]) == [];
  }

  lemma Glue(lines: seq<seq<Byte>>, rest: seq<Byte>, s: seq<Byte>, n: nat)
    requires n <= |s| && Concat(lines) + rest == s[n..]
    ensures Concat([s[..n]] + lines) + rest == s
  {
    assert ([s[..n]] + lines)[1..] == lines;
    Regroup(s[..n], Concat(lines), rest);
    assert s[..n] + s[n..] == s;
  }

  lemma Regroup(a: seq<Byte>, b: seq<Byte>, c: seq<Byte>)
    ensures (a + b) + c == a + (b + c)
  {
  }

  lemma FirstStays(s: seq<Byte>, more: seq<Byte>, size: nat, nl: Byte)
    requires size > 0 && FirstLine(s, size, nl) > 0
    ensures FirstLine(s + more, size, nl) == FirstLine(s, size, nl)
  {
    FindAppend(s, more, nl);
  }

  lemma FindAppend(s: seq<Byte>, more: seq<Byte>, nl: Byte)
    ensures Find(s, nl) < |s| ==> Find(s + more, nl) == Find(s, nl)
    ensures Find(s, nl) == |s| ==> Find(s + more, nl) == |s| + Find(more, nl)
  {
    var i, j := Find(s, nl), Find(s + more, nl);
    assert j < |s| ==> (s + more)[j] == s[j];
    assert i < |s| ==> (s + more)[i] == s[i];
    if i == |s| {
      assert forall k :: 0 <= k < Find(more, nl) ==> (s + more)[|s| + k] == more[k];
      assert Find(more, nl) < |more| ==> (s + more)[|s| + Find(more, nl)] == nl;
      assert j < |s + more| ==> more[j - |s|] == nl;
      assert forall k :: 0 <= k < j - |s| ==> more[k] == (s + more)[|s| + k];
    }
  }

  /** What has been read stays read: bytes that arrive later only continue from the rest. */
  lemma {:induction false} LinesAppend(s: seq<Byte>, more: seq<Byte>, size: nat, nl: Byte)
    requires size > 0
    ensures var a := Lines(s, size, nl);
            var b := Lines(a.rest + more, size, nl);
            Lines(s + more, size, nl) == Split(a.lines + b.lines, b.rest)
    decreases |s|
  {
    hide FirstLine, Find;
    var n := FirstLine(s, size, nl);
    if n == 0 {
      var b := Lines(s + more, size, nl);
      assert [] + b.lines == b.lines;
    } else {
      FirstStays(s, more, size, nl);
      assert (s + more)[..n] == s[..n] && (s + more)[n..] == s[n..] + more;
      LinesAppend(s[n..], more, size, nl);
      var a := Lines(s[n..], size, nl);
      var b := Lines(a.rest + more, size, nl);
      assert ([s[..n]] + a.lines) + b.lines == [s[..n]] + (a.lines + b.lines);
    }
  }

  class LineBuffer {
    const size: nat
    const nl: Byte
    const buf: array<Byte>
    var used: nat
    var consumed: nat
    ghost var received: seq<Byte>
    ghost var sent: seq<seq<Byte>>

    /** Sending while consumed > 0; else waiting for data, with room for some. */
    ghost predicate Valid()
      reads this, buf
    {
      && size > 0 && buf.Length == size && consumed <= used <= size
      && (consumed == 0 ==> FirstLine(buf[..used], size, nl) == 0 && used < size)
      && (consumed > 0 ==> |sent| > 0 && sent[|sent| - 1] == buf[..consumed])
      && Continues(sent, buf[consumed..used])
    }

    /** The lines sent, and then those of the buffer, are the greedy reading of everything received. */
    ghost predicate Continues(lines: seq<seq<Byte>>, left: seq<Byte>)
      reads this`received
      requires size > 0
    {
      var r := Lines(left, size, nl);
      Lines(received, size, nl) == Split(lines + r.lines, r.rest)
    }

    constructor (size: nat, nl: Byte)
      requires size > 0
      ensures Valid() && this.size == size && this.nl == nl && fresh(buf)
      ensures received == [] && sent == [] && consumed == 0
    {
      this.size, this.nl := size, nl;
      buf := new Byte[size];
      used, consumed := 0, 0;
      received, sent := [], [];
    }

    /** input_handler_done, the data having been written into the space offered. */
    method InputHandlerDone(data: seq<Byte>)
      requires Valid() && consumed == 0 && 0 < |data| <= size - used
      modifies this, buf
      ensures Valid() && received == old(received) + data
      ensures old(sent) <= sent
    {
      hide Lines, Find;
      ghost var before := buf[..used];
      var start := used;
      assert buf[0..used] == before;
      Put(data);
      Arrived(data, before);
      received := received + data;
      NoneBefore(before, data);
      var i := FindFrom(start);
      Pass(i);
    }

    method Put(data: seq<Byte>)
      requires used + |data| <= buf.Length
      modifies buf, this`used
      ensures used == old(used) + |data| && buf[..used] == old(buf[..used]) + data
    {
      ghost var before := buf[..used];
      var k := 0;
      while k < |data|
        modifies buf
        invariant 0 <= k <= |data|
        invariant forall j :: 0 <= j < used ==> buf[j] == before[j]
        invariant forall j :: 0 <= j < k ==> buf[used + j] == data[j]
      {
        buf[used + k] := data[k];
        k := k + 1;
      }
      assert buf[..used] == before && buf[used..used + k] == data;
      used := used + |data|;
    }

    lemma NoneBefore(before: seq<Byte>, data: seq<Byte>)
      requires size > 0 && |before| < size && FirstLine(before, size, nl) == 0
      ensures Find(before + data, nl) >= |before|
    {
      FindAppend(before, data, nl);
    }

    lemma Arrived(data: seq<Byte>, before: seq<Byte>)
      requires size > 0 && Continues(sent, before) && FirstLine(before, size, nl) == 0
      ensures var r := Lines(before + data, size, nl);
              Lines(received + data, size, nl) == Split(sent + r.lines, r.rest)
    {
      LinesAppend(received, data, size, nl);
      assert sent + [] == sent;
    }

    method FindFrom(start: nat) returns (i: nat)
      requires start <= used <= buf.Length && Find(buf[..used], nl) >= start
      ensures i == Find(buf[..used], nl)
    {
      i := start;
      while i < used && buf[i] != nl
        invariant start <= i <= used
        invariant Find(buf[..used], nl) >= i
      {
        i := i + 1;
      }
    }

    /** Sends the line that ends at i, or a full buffer, or goes on receiving. */
    method Pass(i: nat)
      requires size > 0 && buf.Length == size && used <= size && consumed == 0
      requires i == Find(buf[..used], nl) && Continues(sent, buf[..used])
      modifies this`consumed, this`sent
      ensures Valid() && old(sent) <= sent
    {
      ghost var s := buf[..used];
      if i < used || used == size {
        consumed := if i < used then i + 1 else i;
        assert FirstLine(s, size, nl) == consumed;
        assert s[..consumed] == buf[..consumed] && s[consumed..] == buf[consumed..used];
        ghost var r := Lines(s[consumed..], size, nl);
        assert sent + ([s[..consumed]] + r.lines) == (sent + [s[..consumed]]) + r.lines;
        sent := sent + [buf[..consumed]];
      } else {
        assert buf[0..used] == s;
      }
    }

    /** output_handler_done: the rest moves to the front, and may hold another line. */
    method OutputHandlerDone()
      requires Valid() && consumed > 0
      modifies this, buf
      ensures Valid() && received == old(received) && old(sent) <= sent
    {
      hide Lines, Find, FirstLine;
      MoveDown();
      var i := FindFrom(0);
      Pass(i);
    }

    method MoveDown()
      requires size > 0 && consumed <= used <= buf.Length
      modifies this`used, this`consumed, buf
      ensures used == old(used) - old(consumed) && consumed == 0 && buf[..used] == old(buf[consumed..used])
    {
      ghost var rest := buf[consumed..used];
      var n := used - consumed;
      var k := 0;
      while k < n
        modifies buf
        invariant 0 <= k <= n
        invariant forall j :: 0 <= j < k ==> buf[j] == rest[j]
        invariant forall j :: k <= j < n ==> buf[consumed + j] == rest[j]
      {
        buf[k] := buf[consumed + k];
        k := k + 1;
      }
      used, consumed := n, 0;
    }

    /** While waiting for data, exactly the greedy lines of all that was received have been sent, however it arrived. */
    lemma SentIsGreedy()
      requires Valid() && consumed == 0
      ensures Lines(received, size, nl) == Split(sent, buf[..used])
    {
      assert buf[0..used] == buf[..used];
      assert sent + [] == sent;
    }
  }
}
