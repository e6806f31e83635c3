/** Bytes and their bits. Every value the S-box construction handles (field
    element, rotation operand, table index, table entry) is a byte. Small
    counts that serve as shift amounts or bit positions are bytes as well, so
    that shifting never leaves bit-vector arithmetic. */
module Bytes {

  type Byte = bv8

  /** Bit j (0 = least significant) of a byte. */
  predicate Bit(x: Byte, j: bv8)
    requires j < 8
  {
    (x >> j) & 1 == 1
  }

  /** A byte is determined by its eight bits. */
  lemma BitsDetermine(x: Byte, y: Byte)
    requires forall j: bv8 :: j < 8 ==> Bit(x, j) == Bit(y, j)
    ensures x == y
  {
    assert Bit(x, 0) == Bit(y, 0) && Bit(x, 1) == Bit(y, 1);
    assert Bit(x, 2) == Bit(y, 2) && Bit(x, 3) == Bit(y, 3);
    assert Bit(x, 4) == Bit(y, 4) && Bit(x, 5) == Bit(y, 5);
    assert Bit(x, 6) == Bit(y, 6) && Bit(x, 7) == Bit(y, 7);
  }

  /** Bit j of a sum is the exclusive or of the summands' bits. */
  lemma BitXor(x: Byte, y: Byte, j: bv8)
    requires j < 8
    ensures Bit(x ^ y, j) == (Bit(x, j) != Bit(y, j))
  {
  }

  /** A table index below 256 survives the round trip through a byte. */
  lemma ByteRoundTrip(k: int)
    requires 0 <= k < 256
    ensures (k as Byte) as int == k
  {
    // Through 16 bits the solver settles the narrowing without case splits.
    assert ((k as bv16) as Byte) as int == k;
  }

  /** A byte survives the round trip through a table index. */
  lemma IntRoundTrip(b: Byte)
    ensures (b as int) as Byte == b
  {
  }
}
