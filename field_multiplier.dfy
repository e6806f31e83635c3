/** Multiplication in GF(2^8): `multiply_in_gf` in poly.py, its specification
    as a recursive function, and the ring laws that function satisfies. */
module FieldMultiplier {
  import opened Bytes

  /** A modulus polynomial of degree 8 over GF(2), written as a 9-bit
      pattern with bit 8 set (0x11D, 0x11B, ...). Irreducibility is not
      part of this: the multiplier works for any such pattern. */
  predicate ValidModulus(m: bv16)
  {
    0x100 <= m < 0x200
  }

  /** The low byte of the modulus: what is left of it once bit 8 has
      cancelled the overflow bit. */
  function Low8(m: bv16): Byte
  {
    (m & 0xFF) as Byte
  }

  /** Addition in GF(2^8): the XOR of the two bit patterns. */
  function Add(x: Byte, y: Byte): Byte
  {
    x ^ y
  }

  /** low when the top bit of a is set (so that doubling a overflows), else 0. */
  function Carry(a: Byte, low: Byte): Byte
  {
    if a & 0x80 != 0 then low else 0
  }

  /** Multiplication by x modulo m, on bytes: shift left and, when a bit
      falls off the top, add the low byte of m. DoubleIsXTime shows that
      this is what one pass of the multiplication loop does to `a`. */
  function XTime(a: Byte, m: bv16): Byte
    requires ValidModulus(m)
  {
    Add(a << 1, Carry(a, Low8(m)))
  }

  /** a if the lowest bit of b is set, else 0: what one pass of the loop
      adds to the result. */
  function LowTerm(a: Byte, b: Byte): Byte
  {
    if b & 1 == 1 then a else 0
  }

  /** Shift-and-add multiplication, consuming b from its lowest bit: add a
      when that bit is set, then go on with a times x and the rest of b. */
  function GfMul(a: Byte, b: Byte, m: bv16): Byte
    requires ValidModulus(m)
    decreases b
  {
    if b == 0 then 0 else Add(LowTerm(a, b), GfMul(XTime(a, m), b >> 1, m))
  }

  // ---------------------------------------------------------------------
  // The loop

  /** One pass of the loop on `a`, with Python's integer as a 16-bit vector. */
  function Double(a: bv16, m: bv16): bv16
  {
    var s := a << 1;
    if s & 0x100 != 0 then s ^ m else s
  }

  /** One pass of the loop on `result`. */
  function Accumulate(result: bv16, a: bv16, b: bv16): bv16
  {
    if b & 1 != 0 then result ^ a else result
  }

  lemma ShiftCarry(a: bv16, m: bv16)
    requires ValidModulus(m) && a < 0x100 && a & 0x80 != 0
    ensures (a << 1) & 0x100 != 0
    ensures (a << 1) ^ m == ((((a as Byte) << 1) ^ Low8(m)) as bv16)
  {
  }

  lemma ShiftNoCarry(a: bv16)
    requires a < 0x100 && a & 0x80 == 0
    ensures (a << 1) & 0x100 == 0
    ensures a << 1 == (((a as Byte) << 1) as bv16)
  {
  }

  lemma NarrowBits(w: bv16)
    requires w < 0x100
    ensures (w & 0x80 != 0) == ((w as Byte) & 0x80 != 0)
    ensures (w & 1 != 0) == ((w as Byte) & 1 == 1)
    ensures (w >> 1) as Byte == (w as Byte) >> 1
  {
  }

  lemma NarrowXor(v: bv16, w: bv16)
    requires v < 0x100 && w < 0x100
    ensures v ^ w < 0x100 && (v ^ w) as Byte == Add(v as Byte, w as Byte)
  {
  }

  /** The 9-bit step of the loop stays below 0x100 and is XTime. */
  lemma DoubleIsXTime(a: bv16, m: bv16)
    requires ValidModulus(m) && a < 0x100
    ensures Double(a, m) < 0x100 && Double(a, m) as Byte == XTime(a as Byte, m)
  {
    NarrowBits(a);
    if a & 0x80 != 0 {
      ShiftCarry(a, m);
    } else {
      ShiftNoCarry(a);
    }
  }

  lemma AccumulateIsLowTerm(result: bv16, a: bv16, b: bv16)
    requires result < 0x100 && a < 0x100 && b < 0x100
    ensures Accumulate(result, a, b) < 0x100
    ensures Accumulate(result, a, b) as Byte == Add(result as Byte, LowTerm(a as Byte, b as Byte))
  {
    NarrowBits(b);
    if b & 1 != 0 {
      NarrowXor(result, a);
    }
  }

  /** What the loop keeps: all three variables are bytes, and the result so
      far plus the product still to be formed is the whole product. */
  predicate MulInvariant(result: bv16, a: bv16, b: bv16, m: bv16, product: Byte)
    requires ValidModulus(m)
  {
    a < 0x100 && b < 0x100 && result < 0x100
    && Add(result as Byte, GfMul(a as Byte, b as Byte, m)) == product
  }

  lemma MulInvariantStep(result: bv16, a: bv16, b: bv16, m: bv16, product: Byte)
    requires ValidModulus(m) && b != 0 && MulInvariant(result, a, b, m, product)
    ensures MulInvariant(Accumulate(result, a, b), Double(a, m), b >> 1, m, product)
  {
    NarrowBits(b);
    AccumulateIsLowTerm(result, a, b);
    DoubleIsXTime(a, m);
    AddAssociates(result as Byte, LowTerm(a as Byte, b as Byte),
                  GfMul(XTime(a as Byte, m), (b as Byte) >> 1, m));
  }

  /** The loop of `multiply_in_gf`, with Python's integers as 16-bit
      vectors: `a` never reaches bit 9, since each reduction clears bit 8,
      and the loop ends because `b` halves on every pass. */
  method MultiplyInGf(a0: Byte, b0: Byte, m: bv16) returns (r: Byte)
    requires ValidModulus(m)
    ensures r == GfMul(a0, b0, m)
  {
    var result: bv16 := 0;
    var a: bv16 := a0 as bv16;
    var b: bv16 := b0 as bv16;
    while b != 0
      invariant MulInvariant(result, a, b, m, GfMul(a0, b0, m))
      decreases b
    {
      MulInvariantStep(result, a, b, m, GfMul(a0, b0, m));
      if b & 1 != 0 {
        result := result ^ a;
      }
      a := a << 1;
      if a & 0x100 != 0 {
        a := a ^ m;
      }
      b := b >> 1;
    }
    r := (result & 0xFF) as Byte;
  }

  // ---------------------------------------------------------------------
  // Addition

  lemma AddAssociates(x: Byte, y: Byte, z: Byte)
    ensures Add(x, Add(y, z)) == Add(Add(x, y), z)
  {
  }

  /** Zero is neutral and every element is its own negative. */
  lemma AddZeroSelf(x: Byte)
    ensures Add(x, 0) == x && Add(0, x) == x && Add(x, x) == 0
  {
  }

  /** Regrouping four summands. */
  lemma AddInterchange(p: Byte, q: Byte, r: Byte, s: Byte)
    ensures Add(Add(p, q), Add(r, s)) == Add(Add(p, r), Add(q, s))
  {
    assert (p ^ q) ^ (r ^ s) == (p ^ r) ^ (q ^ s);
  }

  // ---------------------------------------------------------------------
  // Ring laws

  lemma CarryLinear(a: Byte, c: Byte, low: Byte)
    ensures Carry(Add(a, c), low) == Add(Carry(a, low), Carry(c, low))
  {
  }

  lemma ShiftLinear(a: Byte, c: Byte)
    ensures Add(a, c) << 1 == Add(a << 1, c << 1)
  {
  }

  /** Multiplication by x is additive. */
  lemma XTimeLinear(a: Byte, c: Byte, m: bv16)
    requires ValidModulus(m)
    ensures XTime(Add(a, c), m) == Add(XTime(a, m), XTime(c, m))
  {
    CarryLinear(a, c, Low8(m));
    ShiftLinear(a, c);
    AddInterchange(a << 1, c << 1, Carry(a, Low8(m)), Carry(c, Low8(m)));
  }

  lemma XTimeZero(m: bv16)
    requires ValidModulus(m)
    ensures XTime(0, m) == 0
  {
  }

  lemma LowTermXTime(a: Byte, b: Byte, m: bv16)
    requires ValidModulus(m)
    ensures XTime(LowTerm(a, b), m) == LowTerm(XTime(a, m), b)
  {
    XTimeZero(m);
  }

  lemma LowTermLinear(a1: Byte, a2: Byte, b: Byte)
    ensures LowTerm(Add(a1, a2), b) == Add(LowTerm(a1, b), LowTerm(a2, b))
  {
  }

  lemma LowTermXorBits(a: Byte, b1: Byte, b2: Byte)
    ensures LowTerm(a, Add(b1, b2)) == Add(LowTerm(a, b1), LowTerm(a, b2))
  {
  }

  lemma HalfLinear(b1: Byte, b2: Byte)
    ensures Add(b1, b2) >> 1 == Add(b1 >> 1, b2 >> 1)
  {
  }

  /** A byte is its low bit plus x times its remaining bits. */
  lemma ByteSplit(b: Byte, m: bv16)
    requires ValidModulus(m)
    ensures b == Add(LowTerm(1, b), XTime(b >> 1, m))
  {
  }

  lemma GfMulUnfold(a: Byte, b: Byte, m: bv16)
    requires ValidModulus(m) && b != 0
    ensures GfMul(a, b, m) == Add(LowTerm(a, b), GfMul(XTime(a, m), b >> 1, m))
  {
  }

  lemma {:induction false} GfMulZeroLeft(b: Byte, m: bv16)
    requires ValidModulus(m)
    ensures GfMul(0, b, m) == 0
    decreases b
  {
    if b != 0 {
      XTimeZero(m);
      GfMulUnfold(0, b, m);
      GfMulZeroLeft(b >> 1, m);
      AddZeroSelf(0);
    }
  }

  /** Zero absorbs on both sides and one is a right identity. */
  lemma GfMulZeroOne(x: Byte, m: bv16)
    requires ValidModulus(m)
    ensures GfMul(x, 0, m) == 0 && GfMul(0, x, m) == 0
    ensures GfMul(x, 1, m) == x
  {
    GfMulZeroLeft(x, m);
    GfMulUnfold(x, 1, m);
    AddZeroSelf(x);
  }

  /** Multiplying the left factor by x multiplies the product by x. */
  lemma {:induction false} GfMulXTimeLeft(a: Byte, b: Byte, m: bv16)
    requires ValidModulus(m)
    ensures GfMul(XTime(a, m), b, m) == XTime(GfMul(a, b, m), m)
    decreases b
  {
    if b == 0 {
      XTimeZero(m);
    } else {
      var xa := XTime(a, m);
      var rest := GfMul(xa, b >> 1, m);
      GfMulUnfold(xa, b, m);
      GfMulUnfold(a, b, m);
      GfMulXTimeLeft(xa, b >> 1, m);
      LowTermXTime(a, b, m);
      XTimeLinear(LowTerm(a, b), rest, m);
    }
  }

  /** The product built from the top: the low bit's contribution plus x
      times the product with the remaining bits. */
  lemma GfMulStep(a: Byte, b: Byte, m: bv16)
    requires ValidModulus(m)
    ensures GfMul(a, b, m) == Add(LowTerm(a, b), XTime(GfMul(a, b >> 1, m), m))
  {
    if b == 0 {
      XTimeZero(m);
      AddZeroSelf(0);
    } else {
      GfMulUnfold(a, b, m);
      GfMulXTimeLeft(a, b >> 1, m);
    }
  }

  lemma {:induction false} GfMulOneLeft(b: Byte, m: bv16)
    requires ValidModulus(m)
    ensures GfMul(1, b, m) == b
    decreases b
  {
    if b != 0 {
      GfMulStep(1, b, m);
      GfMulOneLeft(b >> 1, m);
      ByteSplit(b, m);
    }
  }

  /** Multiplication distributes over addition in its left factor. */
  lemma {:induction false} GfMulLinearLeft(a1: Byte, a2: Byte, b: Byte, m: bv16)
    requires ValidModulus(m)
    ensures GfMul(Add(a1, a2), b, m) == Add(GfMul(a1, b, m), GfMul(a2, b, m))
    decreases b
  {
    if b == 0 {
      AddZeroSelf(0);
    } else {
      var x1, x2 := XTime(a1, m), XTime(a2, m);
      GfMulUnfold(Add(a1, a2), b, m);
      GfMulUnfold(a1, b, m);
      GfMulUnfold(a2, b, m);
      XTimeLinear(a1, a2, m);
      LowTermLinear(a1, a2, b);
      GfMulLinearLeft(x1, x2, b >> 1, m);
      AddInterchange(LowTerm(a1, b), LowTerm(a2, b), GfMul(x1, b >> 1, m), GfMul(x2, b >> 1, m));
    }
  }

  /** One step of the distributivity proof, given the claim for the halves. */
  lemma GfMulDistributesStep(a: Byte, b1: Byte, b2: Byte, m: bv16)
    requires ValidModulus(m) && b1 != 0 && b2 != 0 && b1 != b2
    requires GfMul(XTime(a, m), Add(b1, b2) >> 1, m)
          == Add(GfMul(XTime(a, m), b1 >> 1, m), GfMul(XTime(a, m), b2 >> 1, m))
    ensures GfMul(a, Add(b1, b2), m) == Add(GfMul(a, b1, m), GfMul(a, b2, m))
  {
    var xa := XTime(a, m);
    assert Add(b1, b2) != 0;
    GfMulUnfold(a, Add(b1, b2), m);
    GfMulUnfold(a, b1, m);
    GfMulUnfold(a, b2, m);
    LowTermXorBits(a, b1, b2);
    AddInterchange(LowTerm(a, b1), LowTerm(a, b2), GfMul(xa, b1 >> 1, m), GfMul(xa, b2 >> 1, m));
  }

  /** Multiplication distributes over addition in its right factor. */
  lemma {:induction false} GfMulDistributes(a: Byte, b1: Byte, b2: Byte, m: bv16)
    requires ValidModulus(m)
    ensures GfMul(a, Add(b1, b2), m) == Add(GfMul(a, b1, m), GfMul(a, b2, m))
    decreases b1
  {
    if b1 == 0 {
      AddZeroSelf(b2);
      AddZeroSelf(GfMul(a, b2, m));
    } else if b2 == 0 {
      AddZeroSelf(b1);
      AddZeroSelf(GfMul(a, b1, m));
    } else if b1 == b2 {
      AddZeroSelf(b1);
      AddZeroSelf(GfMul(a, b1, m));
    } else {
      HalfLinear(b1, b2);
      GfMulDistributes(XTime(a, m), b1 >> 1, b2 >> 1, m);
      GfMulDistributesStep(a, b1, b2, m);
    }
  }

  /** Multiplication is commutative. */
  lemma {:induction false} GfMulCommutes(a: Byte, b: Byte, m: bv16)
    requires ValidModulus(m)
    ensures GfMul(a, b, m) == GfMul(b, a, m)
    decreases b
  {
    if b == 0 {
      GfMulZeroLeft(a, m);
    } else {
      var low, high := LowTerm(1, b), b >> 1;
      var xh := XTime(high, m);
      // a * b == low(a) + x * (a * high) == low(a) + x * (high * a) == low(a) + (x * high) * a
      GfMulStep(a, b, m);
      GfMulCommutes(a, high, m);
      GfMulXTimeLeft(high, a, m);
      // b * a == low * a + (x * high) * a
      ByteSplit(b, m);
      GfMulLinearLeft(low, xh, a, m);
      if b & 1 == 1 {
        GfMulOneLeft(a, m);
      } else {
        GfMulZeroLeft(a, m);
      }
    }
  }

  /** Multiplying the right factor by x multiplies the product by x. */
  lemma GfMulXTimeRight(a: Byte, b: Byte, m: bv16)
    requires ValidModulus(m)
    ensures GfMul(a, XTime(b, m), m) == XTime(GfMul(a, b, m), m)
  {
    GfMulCommutes(a, XTime(b, m), m);
    GfMulXTimeLeft(b, a, m);
    GfMulCommutes(b, a, m);
  }

  /** Multiplication is associative. */
  lemma {:induction false} GfMulAssociates(a: Byte, b: Byte, c: Byte, m: bv16)
    requires ValidModulus(m)
    ensures GfMul(GfMul(a, b, m), c, m) == GfMul(a, GfMul(b, c, m), m)
    decreases c
  {
    if c == 0 {
      GfMulZeroOne(a, m);
    } else {
      var ab := GfMul(a, b, m);
      var rest := GfMul(b, c >> 1, m);
      // (a * b) * c == low(a * b) + x * ((a * b) * high) == low(a * b) + x * (a * rest)
      GfMulStep(ab, c, m);
      GfMulAssociates(a, b, c >> 1, m);
      // a * (b * c) == a * (low(b) + x * rest) == a * low(b) + x * (a * rest)
      GfMulStep(b, c, m);
      GfMulDistributes(a, LowTerm(b, c), XTime(rest, m), m);
      GfMulXTimeRight(a, rest, m);
      if c & 1 != 1 {
        GfMulZeroOne(a, m);
      }
    }
  }
}
