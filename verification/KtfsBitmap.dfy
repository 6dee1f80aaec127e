// The allocation bitmaps of sys/ktfs.c: bit i of a bitmap is bit i % 8 of its byte i / 8.

module KtfsBitmap {
  // 1 << k in a byte
  function Mask(k: nat): (m: bv8)
    requires k < 8
  {
    if k == 0 then 1 else if k == 1 then 2 else if k == 2 then 4 else if k == 3 then 8
    else if k == 4 then 16 else if k == 5 then 32 else if k == 6 then 64 else 128
  }

  predicate BitOf(b: bv8, k: nat)
    requires k < 8
  {
    b & Mask(k) != 0
  }

  predicate Bit(bits: seq<bv8>, i: nat)
    requires i / 8 < |bits|
  {
    BitIn(bits, i / 8, i % 8)
  }

  // The numbers in use.
  ghost function Used(bits: seq<bv8>): (u: set<nat>)
    ensures forall i: nat :: i in u <==> i < 8 * |bits| && Bit(bits, i)
  {
    set i: nat | i < 8 * |bits| && Bit(bits, i)
  }

  // The numbers below n still to be had.
  ghost function Spare(bits: seq<bv8>, n: nat): (f: set<nat>)
    ensures forall i: nat :: i in f <==> i < n && i !in Used(bits)
  {
    set i: nat | i < n && i !in Used(bits)
  }

  function WithBit(b: bv8, k: nat): bv8
    requires k < 8
  {
    b | Mask(k)
  }

  function WithoutBit(b: bv8, k: nat): bv8
    requires k < 8
  {
    b & !Mask(k)
  }

  function SetBit(bits: seq<bv8>, i: nat): seq<bv8>
    requires i < 8 * |bits|
  {
    bits[i / 8 := WithBit(bits[i / 8], i % 8)]
  }

  function ClearBit(bits: seq<bv8>, i: nat): seq<bv8>
    requires i < 8 * |bits|
  {
    bits[i / 8 := WithoutBit(bits[i / 8], i % 8)]
  }

  lemma MaskBit(b: bv8, k: nat, j: nat)
    requires k < 8 && j < 8
    ensures BitOf(WithBit(b, k), j) <==> j == k || BitOf(b, j)
    ensures BitOf(WithoutBit(b, k), j) <==> j != k && BitOf(b, j)
  {
  }

  // The bit of a byte list at a given byte and place.
  predicate BitIn(bits: seq<bv8>, n: nat, m: nat)
    requires n < |bits| && m < 8
  {
    BitOf(bits[n], m)
  }

  lemma BytePut(bits: seq<bv8>, n: nat, k: nat, p: nat, m: nat)
    requires n < |bits| && p < |bits| && k < 8 && m < 8
    ensures BitIn(bits[n := WithBit(bits[n], k)], p, m) <==> (p == n && m == k) || BitIn(bits, p, m)
    ensures BitIn(bits[n := WithoutBit(bits[n], k)], p, m) <==> !(p == n && m == k) && BitIn(bits, p, m)
  {
    if p == n { MaskBit(bits[n], k, m); }
  }

  lemma SetBitAt(bits: seq<bv8>, i: nat, j: nat)
    requires i < 8 * |bits| && j < 8 * |bits|
    ensures Bit(SetBit(bits, i), j) <==> j == i || Bit(bits, j)
    ensures Bit(ClearBit(bits, i), j) <==> j != i && Bit(bits, j)
  {
    SameBit(i, j);
    BytePut(bits, i / 8, i % 8, j / 8, j % 8);
  }

  lemma SetBitUsed(bits: seq<bv8>, i: nat)
    requires i < 8 * |bits|
    ensures Used(SetBit(bits, i)) == Used(bits) + {i}
    ensures Used(ClearBit(bits, i)) == Used(bits) - {i}
  {
    forall j: nat | j < 8 * |bits|
      ensures Bit(SetBit(bits, i), j) <==> j == i || Bit(bits, j)
      ensures Bit(ClearBit(bits, i), j) <==> j != i && Bit(bits, j)
    {
      SetBitAt(bits, i, j);
    }
  }

  lemma SameBit(i: nat, j: nat)
    ensures i == j <==> i / 8 == j / 8 && i % 8 == j % 8
  {
  }

  lemma ByteOfBit(n: nat, k: nat)
    requires k < 8
    ensures (8 * n + k) / 8 == n && (8 * n + k) % 8 == k
  {
  }

  lemma BitsOfByte(a: bv8, b: bv8)
    requires forall k :: 0 <= k < 8 ==> (BitOf(a, k) <==> BitOf(b, k))
    ensures a == b
  {
    assert BitOf(a, 0) == BitOf(b, 0) && BitOf(a, 1) == BitOf(b, 1);
    assert BitOf(a, 2) == BitOf(b, 2) && BitOf(a, 3) == BitOf(b, 3);
    assert BitOf(a, 4) == BitOf(b, 4) && BitOf(a, 5) == BitOf(b, 5);
    assert BitOf(a, 6) == BitOf(b, 6) && BitOf(a, 7) == BitOf(b, 7);
  }

  // The set of used numbers determines the bitmap.
  lemma UsedDetermines(a: seq<bv8>, b: seq<bv8>)
    requires |a| == |b| && Used(a) == Used(b)
    ensures a == b
  {
    forall n | 0 <= n < |a| ensures a[n] == b[n] {
      forall k | 0 <= k < 8 ensures BitOf(a[n], k) <==> BitOf(b[n], k) {
        assert (8 * n + k) / 8 == n && (8 * n + k) % 8 == k;
        assert 8 * n + k in Used(a) <==> 8 * n + k in Used(b);
        assert Bit(a, 8 * n + k) <==> Bit(b, 8 * n + k);
      }
      BitsOfByte(a[n], b[n]);
    }
  }

  lemma SpareAfterSet(bits: seq<bv8>, i: nat, n: nat)
    requires i < 8 * |bits| && i in Spare(bits, n)
    ensures Spare(SetBit(bits, i), n) == Spare(bits, n) - {i}
    ensures |Spare(SetBit(bits, i), n)| == |Spare(bits, n)| - 1
  {
    SetBitUsed(bits, i);
  }

  // allocateDataBlock and allocateInode: the lowest clear bit, counted up over the blocks, bytes and bits of a
  // bitmap of `blocks` blocks. found is false when there is none, where the source returns -EINVAL as unsigned.
  method FirstFit(bits: seq<bv8>, blocks: nat) returns (found: bool, number: nat, after: seq<bv8>)
    requires |bits| == 512 * blocks
    ensures !found ==> after == bits && forall i: nat :: i < 8 * |bits| ==> i in Used(bits)
    ensures found ==> number < 8 * |bits| && number !in Used(bits) && after == SetBit(bits, number)
    ensures found ==> forall i: nat :: i < number ==> i in Used(bits)
  {
    number := 0;
    for i := 0 to blocks
      invariant number == 4096 * i
      invariant forall n: nat :: n < number ==> Bit(bits, n)
    {
      for j := 0 to 512
        invariant number == 4096 * i + 8 * j
        invariant forall n: nat :: n < number ==> Bit(bits, n)
      {
        for k := 0 to 8
          invariant number == 4096 * i + 8 * j + k
          invariant forall n: nat :: n < number ==> Bit(bits, n)
        {
          ByteOfBit(512 * i + j, k);
          if BitOf(bits[512 * i + j], k) {
            number := number + 1;
          } else {
            return true, number, SetBit(bits, number);
          }
        }
      }
    }
    found, after := false, bits;
  }

  // freeDataBlock and freeInode, by block, byte and bit
  method ClearAt(bits: seq<bv8>, index: nat) returns (after: seq<bv8>)
    requires index < 8 * |bits| && |bits| % 512 == 0
    ensures after == ClearBit(bits, index)
  {
    var at := index / 4096 * 512 + index % 4096 / 8;
    assert at == index / 8;
    after := bits[at := WithoutBit(bits[at], index % 8)];
  }
}
