/** Single bits of a byte, under a mask that is a shifted 1. */
module ByteBits {

  /** The mask after k left shifts of 1; it runs out of the byte at the eighth. */
  function Mask(k: nat): bv8 {
    if k == 0 then 1 else Mask(k - 1) << 1
  }

  lemma MaskValues()
    ensures Mask(0) == 1 && Mask(1) == 2 && Mask(2) == 4 && Mask(3) == 8
    ensures Mask(4) == 16 && Mask(5) == 32 && Mask(6) == 64 && Mask(7) == 128 && Mask(8) == 0
  {
    assert Mask(2) == 4;
    assert Mask(4) == 16;
    assert Mask(6) == 64;
  }

  predicate Under(b: bv8, mask: bv8) {
    b & mask != 0
  }

  predicate Bit(b: bv8, k: nat)
    requires k < 8
  {
    Under(b, Mask(k))
  }

  /** Set or clear the bit under the mask. */
  function Written(b: bv8, mask: bv8, v: bool): bv8 {
    if v then b | mask else b & !mask
  }

  predicate OneBit(m: bv8) {
    m == 1 || m == 2 || m == 4 || m == 8 || m == 16 || m == 32 || m == 64 || m == 128
  }

  lemma MaskIsOneBit(k: nat)
    requires k < 8
    ensures OneBit(Mask(k))
  {
    MaskValues();
  }

  lemma MaskInjective(k: nat, j: nat)
    requires k < 8 && j < 8 && Mask(k) == Mask(j)
    ensures k == j
  {
    MaskValues();
  }

  lemma OneBitChange(b: bv8, m: bv8, l: bv8, v: bool)
    requires OneBit(m) && OneBit(l)
    ensures Under(Written(b, m, v), l) == if m == l then v else Under(b, l)
  {
  }

  /** Writing bit k changes bit k and no other. */
  lemma WrittenBit(b: bv8, k: nat, v: bool, j: nat)
    requires k < 8 && j < 8
    ensures Bit(Written(b, Mask(k), v), j) == if j == k then v else Bit(b, j)
  {
    hide Mask, OneBit, Under, Written;
    MaskIsOneBit(k);
    MaskIsOneBit(j);
    OneBitChange(b, Mask(k), Mask(j), v);
    if Mask(k) == Mask(j) {
      MaskInjective(k, j);
    }
  }

  lemma ZeroByte(b: bv8)
    ensures b == 0 <==> forall k: nat :: k < 8 ==> !Bit(b, k)
  {
    MaskValues();
    if forall k: nat :: k < 8 ==> !Bit(b, k) {
      assert !Bit(b, 0) && !Bit(b, 1) && !Bit(b, 2) && !Bit(b, 3);
      assert !Bit(b, 4) && !Bit(b, 5) && !Bit(b, 6) && !Bit(b, 7);
    }
  }
}
