/** Left rotation of a byte: `rotl8` in poly.py. */
module Rotation {
  import opened Bytes

  /** Rotates x left by shift places inside an 8-bit register, computed as
      the source does: the shifted value masked to 8 bits, OR-ed with the bits
      that fall off the top. Bit j of the result is bit j - shift (mod 8) of
      x; a shift of 0 or 8 leaves x unchanged. */
  function Rotl8(x: Byte, shift: bv8): (r: Byte)
    requires shift <= 8
    ensures forall j: bv8 :: j < 8 ==> Bit(r, j) == Bit(x, (j - shift) % 8)
  {
    var w := x as bv16;
    (((w << shift) & 0xFF) | (w >> (8 - shift))) as Byte
  }

  /** Going back t places and then s places, modulo 8, is going back s + t. */
  lemma ShiftIndexCompose(j: bv8, s: bv8, t: bv8)
    requires j < 8 && s <= 8 && t <= 8
    ensures ((j - t) % 8 - s) % 8 == (j - (s + t) % 8) % 8
  {
  }

  /** Rotations compose by adding their amounts modulo 8. */
  lemma RotlCompose(x: Byte, s: bv8, t: bv8)
    requires s <= 8 && t <= 8
    ensures Rotl8(Rotl8(x, s), t) == Rotl8(x, (s + t) % 8)
  {
    var lhs, rhs := Rotl8(Rotl8(x, s), t), Rotl8(x, (s + t) % 8);
    forall j: bv8 | j < 8
      ensures Bit(lhs, j) == Bit(rhs, j)
    {
      ShiftIndexCompose(j, s, t);
    }
    BitsDetermine(lhs, rhs);
  }

  /** x rotated left by one place, n times over. */
  function RotlTimes(x: Byte, n: nat): Byte
  {
    if n == 0 then x else Rotl8(RotlTimes(x, n - 1), 1)
  }

  /** n single-place rotations are one rotation by n mod 8. */
  lemma {:induction false} RotlTimesIsRotl8(x: Byte, n: nat)
    ensures RotlTimes(x, n) == Rotl8(x, (n % 8) as bv8)
  {
    if n == 0 {
      RotlCompose(x, 0, 0);
    } else {
      RotlTimesIsRotl8(x, n - 1);
      RotlCompose(x, ((n - 1) % 8) as bv8, 1);
      assert (((n - 1) % 8) as bv8 + 1) % 8 == (n % 8) as bv8;
    }
  }

  /** Rotating a byte left by one place eight times gives the byte back. */
  lemma EightRotationsIdentity(x: Byte)
    ensures RotlTimes(x, 8) == x
  {
    RotlTimesIsRotl8(x, 8);
    RotlCompose(x, 0, 0);
  }
}
