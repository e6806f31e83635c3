/** The multiplicative inverse by linear search: `find_multiplicative_inverse`
    in poly.py, its specification, and what the field laws make of it. */
module InverseFinder {
  import opened Bytes
  import opened FieldMultiplier

  /** Row x of the multiplication table: entry y is x * y. */
  function Products(x: Byte, m: bv16): (p: seq<Byte>)
    requires ValidModulus(m)
    ensures |p| == 256
  {
    seq(256, k requires 0 <= k < 256 => GfMul(x, k as Byte, m))
  }

  /** Linear search: the first index from i on whose entry is 1, or |p| when
      there is none. */
  function FirstOne(p: seq<Byte>, i: nat): (r: nat)
    requires i <= |p|
    ensures i <= r <= |p|
    ensures r < |p| ==> p[r] == 1
    ensures forall k :: i <= k < r ==> p[k] != 1
    decreases |p| - i
  {
    if i == |p| then i
    else if p[i] == 1 then i
    else FirstOne(p, i + 1)
  }

  /** What the table says about the candidates between 1 and k, said of the
      products themselves. */
  lemma ProductsBelow(x: Byte, m: bv16, k: nat)
    requires ValidModulus(m) && 1 <= k <= 256
    requires forall j :: 1 <= j < k ==> Products(x, m)[j] != 1
    ensures forall y: Byte :: 0 < y as int < k ==> GfMul(x, y, m) != 1
  {
    forall y: Byte | 0 < y as int < k
      ensures GfMul(x, y, m) != 1
    {
      assert Products(x, m)[y as int] == GfMul(x, y, m);
    }
  }

  /** The value the search returns: 0 for 0; otherwise the least y in 1..255
      with x * y == 1, or the sentinel 0 when there is none. */
  function Inverse(x: Byte, m: bv16): (r: Byte)
    requires ValidModulus(m)
    ensures x == 0 ==> r == 0
    ensures r != 0 ==> GfMul(x, r, m) == 1
    ensures r != 0 ==> forall y: Byte :: 0 < y as int < r as int ==> GfMul(x, y, m) != 1
    ensures x != 0 && r == 0 ==> forall y: Byte :: GfMul(x, y, m) != 1
  {
    if x == 0 then 0
    else
      var k := FirstOne(Products(x, m), 1);
      SearchOutcome(x, m, k);
      IndexByte(k)
  }

  /** The index the search stops at, as the byte the source returns: the
      index itself, or the sentinel 0 when the search ran off the end. */
  function IndexByte(k: nat): (r: Byte)
    requires k <= 256
    ensures k < 256 ==> r as int == k
    ensures k == 256 ==> r == 0
  {
    if k == 256 then 0 else ByteRoundTrip(k); k as Byte
  }

  /** What the stopping index of the search says about the candidates. */
  lemma SearchOutcome(x: Byte, m: bv16, k: nat)
    requires ValidModulus(m) && x != 0 && k == FirstOne(Products(x, m), 1)
    ensures IndexByte(k) != 0 ==> GfMul(x, IndexByte(k), m) == 1
    ensures IndexByte(k) != 0 ==> forall y: Byte :: 0 < y as int < IndexByte(k) as int ==> GfMul(x, y, m) != 1
    ensures IndexByte(k) == 0 ==> forall y: Byte :: GfMul(x, y, m) != 1
  {
    ProductsBelow(x, m, k);
    if k < 256 {
      assert Products(x, m)[k] == 1;
      assert Products(x, m)[IndexByte(k) as int] == GfMul(x, IndexByte(k), m);
    }
  }

  /** One unsuccessful candidate moves the search on by one. */
  lemma SearchStep(x: Byte, m: bv16, i: nat)
    requires ValidModulus(m) && 1 <= i < 256
    ensures GfMul(x, i as Byte, m) != 1 ==> FirstOne(Products(x, m), i) == FirstOne(Products(x, m), i + 1)
    ensures GfMul(x, i as Byte, m) == 1 ==> FirstOne(Products(x, m), i) == i
  {
  }

  /** The search loop of the source: try 1, 2, ..., 255 in turn and stop at
      the first candidate whose product with x is 1. */
  method FindMultiplicativeInverse(x: Byte, m: bv16) returns (r: Byte)
    requires ValidModulus(m)
    ensures r == Inverse(x, m)
  {
    if x == 0 {
      return 0;
    }
    for i := 1 to 256
      invariant FirstOne(Products(x, m), i) == FirstOne(Products(x, m), 1)
    {
      SearchStep(x, m, i);
      var p := MultiplyInGf(x, i as Byte, m);
      if p == 1 {
        return i as Byte;
      }
    }
    return 0;
  }

  /** The modulus makes the bytes a field: every nonzero byte has an inverse.
      The source relies on this for its modulus and never checks it. */
  ghost predicate DefinesField(m: bv16)
    requires ValidModulus(m)
  {
    forall x: Byte :: x != 0 ==> HasInverse(x, m)
  }

  /** Some byte multiplies x to 1. */
  ghost predicate HasInverse(x: Byte, m: bv16)
    requires ValidModulus(m)
  {
    exists y: Byte :: GfMul(x, y, m) == 1
  }

  /** An inverse, when one exists, is unique, whatever the modulus. */
  lemma InverseUnique(x: Byte, y: Byte, z: Byte, m: bv16)
    requires ValidModulus(m) && GfMul(x, y, m) == 1 && GfMul(x, z, m) == 1
    ensures y == z
  {
    // y == y * (x * z) == (y * x) * z == (x * y) * z == z
    GfMulZeroOne(y, m);
    GfMulAssociates(y, x, z, m);
    GfMulCommutes(y, x, m);
    GfMulOneLeft(z, m);
  }

  /** In a field the search never returns the sentinel for a nonzero byte,
      and what it returns is the one inverse. */
  lemma InverseInField(x: Byte, y: Byte, m: bv16)
    requires ValidModulus(m) && DefinesField(m) && x != 0
    ensures Inverse(x, m) != 0 && GfMul(x, Inverse(x, m), m) == 1
    ensures GfMul(x, y, m) == 1 <==> y == Inverse(x, m)
  {
    assert HasInverse(x, m);
    if GfMul(x, y, m) == 1 {
      InverseUnique(x, y, Inverse(x, m), m);
    }
  }

  /** In a field, inverting twice gives the byte back. */
  lemma InverseInvolution(x: Byte, m: bv16)
    requires ValidModulus(m) && DefinesField(m)
    ensures Inverse(Inverse(x, m), m) == x
  {
    if x != 0 {
      var y := Inverse(x, m);
      InverseInField(x, y, m);
      GfMulCommutes(x, y, m);
      InverseInField(y, x, m);
    }
  }

  /** In a field, distinct bytes have distinct inverses. */
  lemma InverseInjective(x: Byte, y: Byte, m: bv16)
    requires ValidModulus(m) && DefinesField(m) && Inverse(x, m) == Inverse(y, m)
    ensures x == y
  {
    InverseInvolution(x, m);
    InverseInvolution(y, m);
  }

  /** 1 is its own inverse under every modulus. */
  lemma InverseOfOne(m: bv16)
    requires ValidModulus(m)
    ensures Inverse(1, m) == 1
  {
    GfMulZeroOne(1, m);
    GfMulOneLeft(Inverse(1, m), m);
  }

  /** Any byte whose product with x is 1 is what the search returns, whatever
      the modulus. */
  lemma InverseOfWitness(x: Byte, y: Byte, m: bv16)
    requires ValidModulus(m) && GfMul(x, y, m) == 1
    ensures Inverse(x, m) == y
  {
    GfMulZeroOne(y, m);
    InverseUnique(x, Inverse(x, m), y, m);
  }
}

