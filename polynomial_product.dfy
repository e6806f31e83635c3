/** The textbook definition of the product in GF(2^8) (section 4.2 of
    FIPS-197): multiply the two bytes as polynomials over GF(2), giving a
    polynomial of degree at most 14, then take the remainder modulo the
    modulus polynomial. GfMulIsProduct shows that the shift-and-add product
    of `multiply_in_gf`, which reduces as it goes, is that product. */
module PolynomialProduct {
  import opened Bytes
  import opened FieldMultiplier

  /** A polynomial over GF(2) of degree below 16, as the two bytes of its
      bit pattern: hi * x^8 + lo. */
  datatype Wide = Wide(hi: Byte, lo: Byte)

  const Zero: Wide := Wide(0, 0)

  /** Addition of polynomials: the XOR of the bit patterns. */
  function WAdd(p: Wide, q: Wide): Wide
  {
    Wide(Add(p.hi, q.hi), Add(p.lo, q.lo))
  }

  /** The top bit of the low byte, moved to the bottom of the high byte. */
  function CarryOut(lo: Byte): Byte
  {
    lo >> 7
  }

  /** p times x. The two parts of the new high byte have no bit in common,
      so adding them is the bitwise OR of the 16-bit shift; the coefficient
      of x^15 falls off. */
  function WShift(p: Wide): Wide
  {
    Wide(Add(p.hi << 1, CarryOut(p.lo)), p.lo << 1)
  }

  /** The carry-less product of a and b: the sum of a * x^i over the set
      bits i of b. Its degree is below 8 plus the degree of b, which the
      second postcondition says as "the high byte is below b". */
  function Clmul(a: Byte, b: Byte): (r: Wide)
    ensures b == 0 ==> r == Zero
    ensures b != 0 ==> r.hi < b
    decreases b
  {
    if b == 0 then Zero
    else
      var rest := Clmul(a, b >> 1);
      ClmulBound(a, rest, b);
      WAdd(Wide(0, LowTerm(a, b)), WShift(rest))
  }

  lemma ClmulBound(a: Byte, rest: Wide, b: Byte)
    requires b != 0
    requires if b >> 1 == 0 then rest == Zero else rest.hi < (b >> 1)
    ensures WAdd(Wide(0, LowTerm(a, b)), WShift(rest)).hi < b
  {
    AddZeroSelf(WShift(rest).hi);
    assert WShift(rest).hi == (rest.hi << 1) ^ (rest.lo >> 7);
  }

  /** The modulus times x^7: the divisor lined up with the coefficient of x^15. */
  function Divisor(m: bv16): Wide
    requires ValidModulus(m)
  {
    Wide(((m >> 1) & 0xFF) as Byte, ((m & 1) << 7) as Byte)
  }

  /** What one step of long division subtracts: the aligned divisor when
      the coefficient of x^15 is set, nothing otherwise. */
  function Cancel(p: Wide, m: bv16): Wide
    requires ValidModulus(m)
  {
    if p.hi & 0x80 != 0 then Divisor(m) else Zero
  }

  /** One step of long division: cancel the coefficient of x^15, then
      shift the next coefficient up into its place. */
  function DivStep(p: Wide, m: bv16): Wide
    requires ValidModulus(m)
  {
    WShift(WAdd(p, Cancel(p, m)))
  }

  function DivSteps(p: Wide, m: bv16, n: nat): Wide
    requires ValidModulus(m)
    decreases n
  {
    if n == 0 then p else DivSteps(DivStep(p, m), m, n - 1)
  }

  /** The remainder of p modulo m. Eight steps cancel the coefficients of
      x^15 down to x^8 and multiply by x^8, which moves the remainder into
      the high byte. */
  function Reduce(p: Wide, m: bv16): Byte
    requires ValidModulus(m)
  {
    DivSteps(p, m, 8).hi
  }

  /** The product in GF(2^8) as section 4.2 of FIPS-197 defines it. */
  function GfProduct(a: Byte, b: Byte, m: bv16): Byte
    requires ValidModulus(m)
  {
    Reduce(Clmul(a, b), m)
  }

  // ---------------------------------------------------------------------
  // Linearity

  lemma WAddZero(p: Wide)
    ensures WAdd(p, Zero) == p && WAdd(Zero, p) == p && WAdd(p, p) == Zero
  {
    AddZeroSelf(p.hi);
    AddZeroSelf(p.lo);
  }

  lemma WAddInterchange(p: Wide, q: Wide, r: Wide, s: Wide)
    ensures WAdd(WAdd(p, q), WAdd(r, s)) == WAdd(WAdd(p, r), WAdd(q, s))
  {
    AddInterchange(p.hi, q.hi, r.hi, s.hi);
    AddInterchange(p.lo, q.lo, r.lo, s.lo);
  }

  lemma WShiftLinearHi(p: Wide, q: Wide)
    ensures WShift(WAdd(p, q)).hi == Add(WShift(p).hi, WShift(q).hi)
  {
    assert ((p.hi ^ q.hi) << 1) ^ ((p.lo ^ q.lo) >> 7)
        == ((p.hi << 1) ^ (p.lo >> 7)) ^ ((q.hi << 1) ^ (q.lo >> 7));
  }

  lemma WShiftLinearLo(p: Wide, q: Wide)
    ensures WShift(WAdd(p, q)).lo == Add(WShift(p).lo, WShift(q).lo)
  {
    assert (p.lo ^ q.lo) << 1 == (p.lo << 1) ^ (q.lo << 1);
  }

  /** Multiplication by x is additive. */
  lemma WShiftLinear(p: Wide, q: Wide)
    ensures WShift(WAdd(p, q)) == WAdd(WShift(p), WShift(q))
  {
    WShiftLinearHi(p, q);
    WShiftLinearLo(p, q);
  }

  lemma TopBitLinear(x: Byte, y: Byte)
    ensures (Add(x, y) & 0x80 != 0) == ((x & 0x80 != 0) != (y & 0x80 != 0))
  {
  }

  lemma CancelLinear(p: Wide, q: Wide, m: bv16)
    requires ValidModulus(m)
    ensures Cancel(WAdd(p, q), m) == WAdd(Cancel(p, m), Cancel(q, m))
  {
    TopBitLinear(p.hi, q.hi);
    WAddZero(Divisor(m));
    WAddZero(Zero);
  }

  lemma DivStepLinear(p: Wide, q: Wide, m: bv16)
    requires ValidModulus(m)
    ensures DivStep(WAdd(p, q), m) == WAdd(DivStep(p, m), DivStep(q, m))
  {
    CancelLinear(p, q, m);
    WAddInterchange(p, q, Cancel(p, m), Cancel(q, m));
    WShiftLinear(WAdd(p, Cancel(p, m)), WAdd(q, Cancel(q, m)));
  }

  lemma {:induction false} DivStepsLinear(p: Wide, q: Wide, m: bv16, n: nat)
    requires ValidModulus(m)
    ensures DivSteps(WAdd(p, q), m, n) == WAdd(DivSteps(p, m, n), DivSteps(q, m, n))
    decreases n
  {
    if n != 0 {
      DivStepLinear(p, q, m);
      DivStepsLinear(DivStep(p, m), DivStep(q, m), m, n - 1);
    }
  }

  /** Remainders respect addition. */
  lemma ReduceLinear(p: Wide, q: Wide, m: bv16)
    requires ValidModulus(m)
    ensures Reduce(WAdd(p, q), m) == Add(Reduce(p, m), Reduce(q, m))
  {
    DivStepsLinear(p, q, m, 8);
  }

  // ---------------------------------------------------------------------
  // Small polynomials and multiplication by x

  lemma DivStepNoCancel(p: Wide, m: bv16)
    requires ValidModulus(m) && p.hi & 0x80 == 0
    ensures DivStep(p, m) == WShift(p)
  {
    WAddZero(p);
  }

  /** One division step on a polynomial whose coefficient of x^15 is clear. */
  lemma ShiftStep(h: Byte, l: Byte, h': Byte, l': Byte, m: bv16, n: nat)
    requires ValidModulus(m) && h < 0x80
    requires (h << 1) ^ (l >> 7) == h' && l << 1 == l'
    ensures DivSteps(Wide(h, l), m, n + 1) == DivSteps(Wide(h', l'), m, n)
  {
    assert Cancel(Wide(h, l), m) == Zero;
    assert ((h ^ 0) << 1) ^ ((l ^ 0) >> 7) == h' && (l ^ 0) << 1 == l';
    assert DivStep(Wide(h, l), m) == Wide(h', l');
  }

  /** The remainder of the zero polynomial is zero. */
  lemma ReduceZero(m: bv16)
    requires ValidModulus(m)
    ensures Reduce(Zero, m) == 0
  {
    WAddZero(Zero);
    ReduceLinear(Zero, Zero, m);
    AddZeroSelf(Reduce(Zero, m));
  }

  /** The remainder of the polynomial 1: eight steps carry its one
      coefficient into the high byte without ever cancelling. */
  lemma ReduceOne(m: bv16)
    requires ValidModulus(m)
    ensures Reduce(Wide(0, 1), m) == 1
  {
    ShiftStep(0, 1, 0, 2, m, 7);
    ShiftStep(0, 2, 0, 4, m, 6);
    ShiftStep(0, 4, 0, 8, m, 5);
    ShiftStep(0, 8, 0, 16, m, 4);
    ShiftStep(0, 16, 0, 32, m, 3);
    ShiftStep(0, 32, 0, 64, m, 2);
    ShiftStep(0, 64, 0, 128, m, 1);
    ShiftStep(0, 128, 1, 0, m, 0);
  }

  /** A polynomial of degree below 8 splits into its constant term plus x times
      the rest. */
  lemma LowSplit(lo: Byte)
    ensures Wide(0, lo) == WAdd(Wide(0, LowTerm(1, lo)), WShift(Wide(0, lo >> 1)))
  {
    assert (0 ^ ((0 << 1) ^ ((lo >> 1) >> 7))) == 0;
    assert (if lo & 1 == 1 then 1 else 0) ^ ((lo >> 1) << 1) == lo;
  }

  /** A polynomial of degree below 8 is its own remainder. */
  lemma {:induction false} ReduceLow(lo: Byte, m: bv16)
    requires ValidModulus(m)
    ensures Reduce(Wide(0, lo), m) == lo
    decreases lo
  {
    if lo != 0 {
      LowSplit(lo);
      ReduceLinear(Wide(0, LowTerm(1, lo)), WShift(Wide(0, lo >> 1)), m);
      ReduceShift(Wide(0, lo >> 1), m);
      ReduceLow(lo >> 1, m);
      if lo & 1 == 1 {
        ReduceOne(m);
      } else {
        ReduceZero(m);
      }
      ByteSplit(lo, m);
    } else {
      ReduceZero(m);
    }
  }

  lemma DivStepKeepsLow(p: Wide, m: bv16)
    requires ValidModulus(m)
    ensures DivStep(p, m).lo == p.lo << 1
  {
  }

  /** The low byte after n doublings. */
  function ShiftedLow(l: Byte, n: nat): Byte
    decreases n
  {
    if n == 0 then l else ShiftedLow(l << 1, n - 1)
  }

  lemma {:induction false} DivStepsLow(p: Wide, m: bv16, n: nat)
    requires ValidModulus(m)
    ensures DivSteps(p, m, n).lo == ShiftedLow(p.lo, n)
    decreases n
  {
    if n != 0 {
      DivStepKeepsLow(p, m);
      DivStepsLow(DivStep(p, m), m, n - 1);
    }
  }

  /** Eight division steps clear the low byte. */
  lemma DivStepsClearLow(p: Wide, m: bv16)
    requires ValidModulus(m)
    ensures DivSteps(p, m, 8).lo == 0
  {
    DivStepsLow(p, m, 8);
    var l := p.lo;
    assert ShiftedLow(l, 8) == ShiftedLow(l << 1 << 1 << 1 << 1, 4);
  }

  lemma {:induction false} DivStepsLast(p: Wide, m: bv16, n: nat)
    requires ValidModulus(m)
    ensures DivSteps(p, m, n + 1) == DivStep(DivSteps(p, m, n), m)
    decreases n
  {
    if n != 0 {
      DivStepsLast(DivStep(p, m), m, n - 1);
    }
  }

  /** The aligned divisor, shifted up once more, leaves the low byte of m
      in the high byte. */
  lemma DivisorAligned(r: Byte, m: bv16)
    requires ValidModulus(m)
    ensures ((r ^ (((m >> 1) & 0xFF) as Byte)) << 1) ^ ((0 ^ (((m & 1) << 7) as Byte)) >> 7)
         == (r << 1) ^ ((m & 0xFF) as Byte)
  {
  }

  /** Once the remainder r sits in the high byte, one more division step
      is multiplication by x modulo m. */
  lemma DivStepIsXTime(r: Byte, m: bv16)
    requires ValidModulus(m)
    ensures DivStep(Wide(r, 0), m).hi == XTime(r, m)
  {
    if r & 0x80 != 0 {
      DivisorAligned(r, m);
    } else {
      DivStepNoCancel(Wide(r, 0), m);
    }
  }

  /** Remainders respect multiplication by x. */
  lemma ReduceShift(p: Wide, m: bv16)
    requires ValidModulus(m) && p.hi & 0x80 == 0
    ensures Reduce(WShift(p), m) == XTime(Reduce(p, m), m)
  {
    DivStepNoCancel(p, m);
    DivStepsLast(p, m, 8);
    DivStepsClearLow(p, m);
    DivStepIsXTime(Reduce(p, m), m);
  }

  /** The loop's shift-and-add product is the carry-less product reduced
      modulo m (section 4.2 of FIPS-197). */
  lemma {:induction false} GfMulIsProduct(a: Byte, b: Byte, m: bv16)
    requires ValidModulus(m)
    ensures GfMul(a, b, m) == GfProduct(a, b, m)
    decreases b
  {
    if b == 0 {
      ReduceZero(m);
    } else {
      var rest := Clmul(a, b >> 1);
      ReduceLinear(Wide(0, LowTerm(a, b)), WShift(rest), m);
      ReduceLow(LowTerm(a, b), m);
      ReduceShift(rest, m);
      GfMulIsProduct(a, b >> 1, m);
      GfMulStep(a, b, m);
    }
  }
}
