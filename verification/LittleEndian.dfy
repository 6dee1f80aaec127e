// Bytes, and 32-bit words as their little-endian bytes.

module LittleEndian {
  type Byte = x: nat | x < 0x100

  type Word = x: nat | x < 0x1_0000_0000

  function WordBytes(v: Word): (bs: seq<Byte>)
    ensures |bs| == 4
  {
    [v % 0x100, v / 0x100 % 0x100, v / 0x1_0000 % 0x100, v / 0x100_0000]
  }

  // The word whose bytes start at index i.
  function WordAt(b: seq<Byte>, i: nat): Word
    requires i + 4 <= |b|
  {
    b[i] as nat + 0x100 * (b[i + 1] as nat) + 0x1_0000 * (b[i + 2] as nat) + 0x100_0000 * (b[i + 3] as nat)
  }

  lemma WordOfBytes(v: Word, b: seq<Byte>, i: nat)
    requires i + 4 <= |b| && forall k :: 0 <= k < 4 ==> b[i + k] == WordBytes(v)[k]
    ensures WordAt(b, i) == v
  {
    var bs := WordBytes(v);
    assert b[i + 0] == bs[0] && b[i + 1] == bs[1] && b[i + 2] == bs[2] && b[i + 3] == bs[3];
    BytesSum(v);
  }

  lemma BytesSum(v: Word)
    ensures v % 0x100 + 0x100 * (v / 0x100 % 0x100) + 0x1_0000 * (v / 0x1_0000 % 0x100)
      + 0x100_0000 * (v / 0x100_0000) == v
  {
  }
}
