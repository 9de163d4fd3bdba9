/**
  The free bitmap: bit b % 8 of byte b / 8 says whether block b is in use.
 */
module Bitmap {

  const BPB: nat := 4096  // bits per bitmap block

  function Mask(k: nat): (m: bv8)
    requires k < 8
  {
    if k == 0 then 1 else if k == 1 then 2 else if k == 2 then 4 else if k == 3 then 8
    else if k == 4 then 16 else if k == 5 then 32 else if k == 6 then 64 else 128
  }

  lemma MaskIs(k: nat)
    requires k < 8
    ensures Mask(k) == 1 << k
  {
  }

  predicate Test(x: bv8, k: nat)
    requires k < 8
  {
    x & Mask(k) != 0
  }

  function Raise(x: bv8, k: nat): bv8
    requires k < 8
  {
    x | Mask(k)
  }

  function Drop(x: bv8, k: nat): bv8
    requires k < 8
  {
    x & !Mask(k)
  }

  predicate Bit(bm: seq<bv8>, b: nat)
    requires b < 8 * |bm|
  {
    Test(bm[b / 8], b % 8)
  }

  function SetBit(bm: seq<bv8>, b: nat): (r: seq<bv8>)
    requires b < 8 * |bm|
    ensures |r| == |bm|
  {
    bm[b / 8 := Raise(bm[b / 8], b % 8)]
  }

  function ClearBit(bm: seq<bv8>, b: nat): (r: seq<bv8>)
    requires b < 8 * |bm|
    ensures |r| == |bm|
  {
    bm[b / 8 := Drop(bm[b / 8], b % 8)]
  }

  lemma ByteBits(x: bv8, j: nat, k: nat)
    requires j < 8 && k < 8
    ensures Test(Raise(x, k), j) <==> Test(x, j) || j == k
    ensures Test(Drop(x, k), j) <==> Test(x, j) && j != k
  {
  }

  // Setting or clearing one bit leaves all the others alone.
  lemma BitChange(bm: seq<bv8>, b: nat, c: nat)
    requires b < 8 * |bm| && c < 8 * |bm|
    ensures Bit(SetBit(bm, b), c) <==> Bit(bm, c) || c == b
    ensures Bit(ClearBit(bm, b), c) <==> Bit(bm, c) && c != b
  {
    hide Test, Raise, Drop;
    ByteBits(bm[b / 8], c % 8, b % 8);
    assert b == b / 8 * 8 + b % 8 && c == c / 8 * 8 + c % 8;
  }

  // The scan in balloc: the lowest free block, or `size` if there is none.
  method FirstFree(bm: seq<bv8>, size: nat) returns (r: nat)
    requires size <= 8 * |bm|
    ensures r <= size
    ensures forall c :: 0 <= c < r ==> Bit(bm, c)
    ensures r < size ==> !Bit(bm, r)
  {
    var b := 0;
    while b < size
      invariant b % BPB == 0
      invariant forall c :: 0 <= c < b && c < size ==> Bit(bm, c)
      decreases size - b
    {
      var bi := 0;
      while bi < BPB && b + bi < size
        invariant 0 <= bi <= BPB && b + bi <= size
        invariant forall c :: 0 <= c < b + bi ==> Bit(bm, c)
      {
        if !Bit(bm, b + bi) {
          return b + bi;
        }
        bi := bi + 1;
      }
      b := b + BPB;
    }
    return size;
  }
}
