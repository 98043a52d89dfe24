/** Bytes and the little-endian integers the protocols put on the wire. */
module Bytes {

  type Byte = b: int | 0 <= b < 256

  const U16: nat := 0x1_0000

  /** The two bytes htol16 stores. */
  function Le16(v: nat): (r: seq<Byte>)
    requires v < U16
    ensures |r| == 2
  {
    [v % 256, v / 256]
  }

  /** What ltoh16 reads back from two bytes at offset `at`. */
  function FromLe16(s: seq<Byte>, at: nat): (v: nat)
    requires at + 2 <= |s|
    ensures v < U16
  {
    s[at] as int + 256 * (s[at + 1] as int)
  }

  lemma Le16RoundTrip(v: nat, pre: seq<Byte>, post: seq<Byte>)
    requires v < U16
    ensures FromLe16(pre + Le16(v) + post, |pre|) == v
  {
    var s := pre + Le16(v) + post;
    assert s[|pre|] == Le16(v)[0] && s[|pre| + 1] == Le16(v)[1];
  }
}
