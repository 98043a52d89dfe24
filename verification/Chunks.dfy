/** The chunks a frame is cut into, and when a set of them makes up a whole frame. */
module Chunks {
  import opened Bytes

  /** A received chunk: where it starts in its frame, its payload, and the is_last flag. */
  datatype Chunk = Chunk(start: nat, data: seq<Byte>, last: bool) {
    function End(): nat { start + |data| }
    predicate Writes(p: nat) { start <= p < End() }
  }

  /** The test of chunks_overlap. A chunk of length zero only overlaps a chunk it lies strictly inside. */
  predicate Overlap(a: Chunk, b: Chunk) {
    a.End() > b.start && b.End() > a.start
  }

  ghost predicate Apart(cs: seq<Chunk>) {
    forall i, j :: 0 <= i < j < |cs| ==> !Overlap(cs[i], cs[j])
  }

  predicate HasLast(cs: seq<Chunk>) {
    exists i :: 0 <= i < |cs| && cs[i].last
  }

  /** No two chunks overlap, at most one is flagged last, and nothing reaches past the end of that one. */
  ghost predicate Consistent(cs: seq<Chunk>) {
    && Apart(cs)
    && (forall i, j :: 0 <= i < |cs| && 0 <= j < |cs| && cs[i].last && cs[j].last ==> i == j)
    && (forall i, j :: 0 <= i < |cs| && 0 <= j < |cs| && cs[i].last ==> cs[j].End() <= cs[i].End())
  }

  /** The positions lo..hi. */
  ghost function Range(lo: nat, hi: nat): (r: set<nat>)
    ensures forall p :: p in r <==> lo <= p < hi
    ensures lo <= hi ==> |r| == hi - lo
  {
    if lo >= hi then {} else Range(lo, hi - 1) + {hi - 1}
  }

  /** The byte positions at least one chunk wrote. */
  ghost function Covered(cs: seq<Chunk>): set<nat> {
    if cs == [] then {}
    else
      var n := |cs| - 1;
      Covered(cs[..n]) + Range(cs[n].start, cs[n].End())
  }

  lemma {:induction false} InCovered(cs: seq<Chunk>)
    ensures forall p :: p in Covered(cs) <==> exists i :: 0 <= i < |cs| && cs[i].Writes(p)
  {
    if cs != [] {
      var n := |cs| - 1;
      InCovered(cs[..n]);
      assert cs == cs[..n] + [cs[n]];
    }
  }

  function TotalLen(cs: seq<Chunk>): nat {
    if cs == [] then 0 else TotalLen(cs[..|cs| - 1]) + |cs[|cs| - 1].data|
  }

  /** The end reached by the furthest chunk: length_so_far, or length once the last chunk is in. */
  function Reach(cs: seq<Chunk>): (r: nat)
    ensures forall i :: 0 <= i < |cs| ==> cs[i].End() <= r
    ensures cs == [] ==> r == 0
    ensures cs != [] ==> exists i :: 0 <= i < |cs| && cs[i].End() == r
  {
    if cs == [] then 0
    else
      var r0 := Reach(cs[..|cs| - 1]);
      assert forall i :: 0 <= i < |cs| - 1 ==> cs[i] == cs[..|cs| - 1][i];
      var e := cs[|cs| - 1].End();
      if e > r0 then e else r0
  }

  /** All of the frame is there: the last chunk has come and every byte before its end was written. */
  ghost predicate Complete(cs: seq<Chunk>) {
    HasLast(cs) && Covered(cs) == Range(0, Reach(cs))
  }

  /** A chunk that overlaps no other writes bytes of its own. */
  lemma NewBytes(cs: seq<Chunk>)
    requires Apart(cs) && cs != []
    ensures var n := |cs| - 1; Covered(cs[..n]) !! Range(cs[n].start, cs[n].End())
  {
    var n := |cs| - 1;
    InCovered(cs[..n]);
    hide Covered;
    forall p | p in Covered(cs[..n]) ensures p !in Range(cs[n].start, cs[n].End()) {
      var i :| 0 <= i < n && cs[..n][i].Writes(p);
      assert !Overlap(cs[i], cs[n]);
    }
  }

  lemma SumOfSizes(a: set<nat>, b: set<nat>)
    requires a !! b
    ensures |a + b| == |a| + |b|
  {
  }

  lemma {:induction false} TotalLenIsCoverage(cs: seq<Chunk>)
    requires Apart(cs)
    ensures TotalLen(cs) == |Covered(cs)|
  {
    hide Range;
    if cs != [] {
      var n := |cs| - 1;
      TotalLenIsCoverage(cs[..n]);
      NewBytes(cs);
      SumOfSizes(Covered(cs[..n]), Range(cs[n].start, cs[n].End()));
      RangeSize(cs[n].start, cs[n].End());
    }
  }

  lemma RangeSize(lo: nat, hi: nat)
    requires lo <= hi
    ensures |Range(lo, hi)| == hi - lo
  {
  }

  lemma CoveredStep(cs: seq<Chunk>, c: Chunk)
    ensures Covered(cs + [c]) == Covered(cs) + Range(c.start, c.End())
    ensures TotalLen(cs + [c]) == TotalLen(cs) + |c.data|
  {
    assert (cs + [c])[..|cs|] == cs;
  }

  /**
   * The length-sum test is exact. For chunks that passed the checks the sum of the lengths never
   * exceeds the reach, and the two are equal exactly when every byte below the reach was written.
   */
  lemma SumTestIsExact(cs: seq<Chunk>)
    requires Apart(cs)
    ensures TotalLen(cs) <= Reach(cs)
    ensures TotalLen(cs) == Reach(cs) <==> Covered(cs) == Range(0, Reach(cs))
  {
    TotalLenIsCoverage(cs);
    InCovered(cs);
    assert Covered(cs) <= Range(0, Reach(cs));
    SubsetSize(Covered(cs), Range(0, Reach(cs)));
  }

  /** So a consistent set holding the last chunk is complete exactly when its lengths add up to its reach. */
  lemma SumDecidesCompleteness(cs: seq<Chunk>)
    requires Consistent(cs) && HasLast(cs)
    ensures TotalLen(cs) <= Reach(cs)
    ensures Complete(cs) <==> TotalLen(cs) == Reach(cs)
  {
    SumTestIsExact(cs);
  }

  lemma SubsetSize(a: set<nat>, b: set<nat>)
    requires a <= b
    ensures |a| <= |b|
    ensures |a| == |b| ==> a == b
  {
    var rest := b - a;
    assert b == a + rest;
    if |a| == |b| { assert rest == {}; }
  }

  /** In a consistent set every written byte was written by exactly one chunk. */
  lemma OneWriter(cs: seq<Chunk>, p: nat)
    requires Apart(cs) && p in Covered(cs)
    ensures exists i :: 0 <= i < |cs| && cs[i].Writes(p) && forall j :: 0 <= j < |cs| && cs[j].Writes(p) ==> j == i
  {
    InCovered(cs);
    var i :| 0 <= i < |cs| && cs[i].Writes(p);
    forall j | 0 <= j < |cs| && cs[j].Writes(p) ensures j == i {
      if j < i { assert Overlap(cs[j], cs[i]); } else if i < j { assert Overlap(cs[i], cs[j]); }
    }
    assert cs[i].Writes(p);
  }

  /** The byte the chunks put at position p; 0 where none wrote. */
  function ByteAt(cs: seq<Chunk>, p: nat): Byte {
    if cs == [] then 0
    else
      var c := cs[|cs| - 1];
      if c.Writes(p) then c.data[p - c.start] else ByteAt(cs[..|cs| - 1], p)
  }

  /** The frame a set of chunks spells out. */
  function Content(cs: seq<Chunk>): (f: seq<Byte>)
    ensures |f| == Reach(cs)
    ensures forall p :: 0 <= p < |f| ==> f[p] == ByteAt(cs, p)
  {
    seq(Reach(cs), p requires 0 <= p < Reach(cs) => ByteAt(cs, p))
  }

  /** Every chunk is a cut of the frame f, flagged last exactly when it reaches the end. */
  ghost predicate CutFrom(cs: seq<Chunk>, f: seq<Byte>) {
    forall i :: 0 <= i < |cs| ==> CutOf(cs[i], f)
  }

  ghost predicate CutOf(c: Chunk, f: seq<Byte>) {
    && c.End() <= |f|
    && c.data == f[c.start..c.End()]
    && (c.last <==> c.End() == |f|)
    && (|c.data| == 0 ==> |f| == 0)
  }

  lemma CutByte(c: Chunk, f: seq<Byte>, p: nat)
    requires CutOf(c, f) && c.Writes(p)
    ensures p < |f| && c.data[p - c.start] == f[p]
  {
  }

  lemma {:induction false} ByteAtOfCut(cs: seq<Chunk>, f: seq<Byte>, i: nat, p: nat)
    requires CutFrom(cs, f) && i < |cs| && cs[i].Writes(p)
    ensures p < |f| && ByteAt(cs, p) == f[p]
    decreases |cs|
  {
    var n := |cs| - 1;
    if cs[n].Writes(p) {
      CutByte(cs[n], f, p);
    } else {
      assert forall k :: 0 <= k < n ==> cs[..n][k] == cs[k];
      ByteAtOfCut(cs[..n], f, i, p);
    }
  }

  /** Cuts of one frame that do not overlap pass every check the assembler makes. */
  lemma CutsAreConsistent(cs: seq<Chunk>, f: seq<Byte>)
    requires CutFrom(cs, f) && Apart(cs)
    requires |f| > 0 || |cs| <= 1
    ensures Consistent(cs)
  {
    forall i, j | 0 <= i < |cs| && 0 <= j < |cs| && cs[i].last ensures cs[j].End() <= cs[i].End() {
      assert CutOf(cs[i], f) && CutOf(cs[j], f);
    }
    forall i, j | 0 <= i < |cs| && 0 <= j < |cs| && cs[i].last && cs[j].last ensures i == j {
      assert CutOf(cs[i], f) && CutOf(cs[j], f);
    }
  }

  lemma ReachOfCuts(cs: seq<Chunk>, f: seq<Byte>)
    requires CutFrom(cs, f)
    ensures HasLast(cs) <==> (cs != [] && Reach(cs) == |f|)
  {
    if HasLast(cs) {
      var i :| 0 <= i < |cs| && cs[i].last;
      assert CutOf(cs[i], f);
      var k :| 0 <= k < |cs| && cs[k].End() == Reach(cs);
      assert CutOf(cs[k], f);
    } else if cs != [] {
      var k :| 0 <= k < |cs| && cs[k].End() == Reach(cs);
      assert CutOf(cs[k], f) && !cs[k].last;
    }
  }

  lemma CutsCover(cs: seq<Chunk>, f: seq<Byte>)
    requires CutFrom(cs, f) && cs != [] && Covered(cs) == Range(0, |f|)
    ensures Reach(cs) == |f|
  {
    var k :| 0 <= k < |cs| && cs[k].End() == Reach(cs);
    assert CutOf(cs[k], f);
    InCovered(cs);
    if |f| > 0 {
      assert |f| - 1 in Covered(cs);
    }
  }

  lemma CutsContent(cs: seq<Chunk>, f: seq<Byte>)
    requires CutFrom(cs, f) && Covered(cs) == Range(0, |f|) && Reach(cs) == |f|
    ensures Content(cs) == f
  {
    InCovered(cs);
    forall p | 0 <= p < |f| ensures Content(cs)[p] == f[p] {
      assert p in Covered(cs);
      var i :| 0 <= i < |cs| && cs[i].Writes(p);
      ByteAtOfCut(cs, f, i, p);
    }
  }

  /** Cuts of f are complete exactly when at least one has come and they cover all of f; they then spell out f. */
  lemma CutsComplete(cs: seq<Chunk>, f: seq<Byte>)
    requires CutFrom(cs, f)
    ensures Complete(cs) <==> cs != [] && Covered(cs) == Range(0, |f|)
    ensures Complete(cs) ==> Content(cs) == f
  {
    ReachOfCuts(cs, f);
    if cs != [] && Covered(cs) == Range(0, |f|) {
      CutsCover(cs, f);
      CutsContent(cs, f);
    }
  }
}
