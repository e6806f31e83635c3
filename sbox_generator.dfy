/** The S-box and its inverse table: `generate_sbox_and_inverse` in poly.py,
    with the affine map it applies and the table-inversion it performs. */
module SboxGenerator {
  import opened Bytes
  import opened Rotation
  import opened FieldMultiplier
  import opened InverseFinder

  /** The inverse of the affine map: the sum of the rotations by one, three
      and six places. */
  function InvAffine(z: Byte): Byte
  {
    Rotl8(z, 1) ^ Rotl8(z, 3) ^ Rotl8(z, 6)
  }

  /** The affine map applied to the inverse: the byte plus its rotations by
      one to four places. InvAffine recovers the byte from its image, and 0
      is fixed. */
  function Affine(y: Byte): (r: Byte)
    ensures y == 0 ==> r == 0
  {
    y ^ Rotl8(y, 1) ^ Rotl8(y, 2) ^ Rotl8(y, 3) ^ Rotl8(y, 4)
  }

  /** Bit j of the image is bit j of y plus bits j + 4 to j + 7 (mod 8): the
      bitwise form of the SubBytes transformation in section 5.1.1 of
      FIPS-197, before the constant is added. */
  lemma AffineBit(y: Byte, j: bv8)
    requires j < 8
    ensures Bit(Affine(y), j)
         == ((((Bit(y, j) != Bit(y, (j + 4) % 8)) != Bit(y, (j + 5) % 8)) != Bit(y, (j + 6) % 8)) != Bit(y, (j + 7) % 8))
  {
    var r1, r2, r3, r4 := Rotl8(y, 1), Rotl8(y, 2), Rotl8(y, 3), Rotl8(y, 4);
    BitXor(y, r1, j);
    BitXor(y ^ r1, r2, j);
    BitXor(y ^ r1 ^ r2, r3, j);
    BitXor(y ^ r1 ^ r2 ^ r3, r4, j);
    assert (j - 1) % 8 == (j + 7) % 8 && (j - 2) % 8 == (j + 6) % 8;
    assert (j - 3) % 8 == (j + 5) % 8 && (j - 4) % 8 == (j + 4) % 8;
  }


  /** The affine map is a bijection on bytes, undone by InvAffine. */
  lemma AffineRoundTrip(y: Byte, z: Byte)
    ensures InvAffine(Affine(y)) == y
    ensures Affine(InvAffine(z)) == z
    ensures Affine(0) == 0
  {
  }

  /** The S-box entry for x: the affine image of the inverse of x, plus the
      constant. A byte without an inverse gets the constant itself, and the
      inverse can be read back from the entry. */
  function SubByte(x: Byte, m: bv16, c: Byte): (r: Byte)
    requires ValidModulus(m)
    ensures Inverse(x, m) == 0 ==> r == c
    ensures InvAffine(Add(r, c)) == Inverse(x, m)
  {
    Add(Affine(Inverse(x, m)), c)
  }

  /** The last index whose entry is v, or 0 when v does not occur. */
  function LastIndex(p: seq<Byte>, v: Byte): (r: nat)
    ensures (r < |p| && p[r] == v) || (r == 0 && forall i :: 0 <= i < |p| ==> p[i] != v)
    ensures forall j :: r < j < |p| ==> p[j] != v
    decreases |p|
  {
    if |p| == 0 then 0
    else if p[|p| - 1] == v then |p| - 1
    else LastIndex(p[..|p| - 1], v)
  }

  /** Appending an entry b makes it the last occurrence of b and leaves every
      other value's last occurrence where it was. */
  lemma LastIndexAppend(q: seq<Byte>, b: Byte, v: Byte)
    ensures LastIndex(q + [b], v) == if v == b then |q| else LastIndex(q, v)
  {
    assert (q + [b])[..|q|] == q;
  }

  /** Distinct bytes index distinct table slots. */
  lemma DistinctSlots(v: Byte, b: Byte)
    requires v != b
    ensures v as int != b as int
  {
    IntRoundTrip(v);
    IntRoundTrip(b);
  }

  /** The scatter write leaves the slots of the other values alone. */
  lemma ScatterMiss(before: seq<Byte>, after: seq<Byte>, q: seq<Byte>, b: Byte)
    requires |before| == 256 && |q| < 256
    requires after == before[b as int := |q| as Byte]
    requires forall v: Byte :: before[v as int] as int == LastIndex(q, v)
    ensures forall v: Byte :: v != b ==> after[v as int] as int == LastIndex(q + [b], v)
  {
    forall v: Byte | v != b
      ensures after[v as int] as int == LastIndex(q + [b], v)
    {
      LastIndexAppend(q, b, v);
      DistinctSlots(v, b);
    }
  }

  /** The scatter write `inv_sbox[sbox[i]] = i` keeps the inverse table equal
      to the last-occurrence table of the entries written so far. */
  lemma ScatterStep(before: seq<Byte>, after: seq<Byte>, q: seq<Byte>, b: Byte)
    requires |before| == 256 && |q| < 256
    requires after == before[b as int := |q| as Byte]
    requires forall v: Byte :: before[v as int] as int == LastIndex(q, v)
    ensures forall v: Byte :: after[v as int] as int == LastIndex(q + [b], v)
  {
    ByteRoundTrip(|q|);
    LastIndexAppend(q, b, b);
    ScatterMiss(before, after, q, b);
  }

  /** Either branch of the source computes the S-box entry: the constant
      alone when the search returns 0, since the affine map sends 0 to 0. */
  lemma EntryIsSubByte(x: Byte, inverse: Byte, m: bv16, c: Byte)
    requires ValidModulus(m) && inverse == Inverse(x, m)
    ensures (if inverse == 0 then c else Affine(inverse) ^ c) == SubByte(x, m, c)
  {
    AffineRoundTrip(0, 0);
  }

  /** The first i entries of the table p are S-box entries. */
  ghost predicate Filled(p: seq<Byte>, i: nat, m: bv16, c: Byte)
    requires ValidModulus(m)
  {
    |p| == 256 && forall x: Byte :: x as int < i ==> p[x as int] == SubByte(x, m, c)
  }

  /** The table t holds the last-occurrence index of every value among the
      entries q. */
  ghost predicate Scattered(t: seq<Byte>, q: seq<Byte>)
  {
    |t| == 256 && forall v: Byte :: t[v as int] as int == LastIndex(q, v)
  }

  /** Writing entry i extends the filled prefix of the S-box by one. */
  lemma FillStep(before: seq<Byte>, i: nat, m: bv16, c: Byte)
    requires ValidModulus(m) && i < 256 && Filled(before, i, m, c)
    ensures Filled(before[i := SubByte(i as Byte, m, c)], i + 1, m, c)
  {
    var after := before[i := SubByte(i as Byte, m, c)];
    ByteRoundTrip(i);
    forall x: Byte | x as int == i
      ensures after[x as int] == SubByte(x, m, c)
    {
      IntRoundTrip(x);
    }
  }

  /** One iteration of the generator's loop keeps both tables right. */
  lemma LoopStep(s: seq<Byte>, t: seq<Byte>, i: nat, m: bv16, c: Byte)
    requires ValidModulus(m) && i < 256 && Filled(s, i, m, c) && Scattered(t, s[..i])
    ensures var e := SubByte(i as Byte, m, c);
      Filled(s[i := e], i + 1, m, c) && Scattered(t[e as int := i as Byte], s[i := e][..i + 1])
  {
    var e := SubByte(i as Byte, m, c);
    FillStep(s, i, m, c);
    ScatterStep(t, t[e as int := i as Byte], s[..i], e);
    assert s[i := e][..i + 1] == s[..i] + [e];
  }

  /** The body of the generator's loop: S-box entry i from the inverse of i,
      then the scatter write of i into the inverse table at that entry. */
  method FillEntry(s: array<Byte>, inv: array<Byte>, i: nat, m: bv16, c: Byte)
    requires ValidModulus(m) && s.Length == 256 && inv.Length == 256 && i < 256 && s != inv
    modifies s, inv
    ensures s[..] == old(s[..])[i := SubByte(i as Byte, m, c)]
    ensures inv[..] == old(inv[..])[SubByte(i as Byte, m, c) as int := i as Byte]
  {
    var inverse := FindMultiplicativeInverse(i as Byte, m);
    EntryIsSubByte(i as Byte, inverse, m, c);
    if inverse == 0 {
      s[i] := c;
    } else {
      s[i] := Affine(inverse) ^ c;
    }
    inv[s[i] as int] := i as Byte;
  }

  /** The generator: for each index, compute the S-box entry from the
      inverse, then record the index in the inverse table at that entry. */
  method GenerateSboxAndInverse(m: bv16, c: Byte) returns (sbox: seq<Byte>, invSbox: seq<Byte>)
    requires ValidModulus(m)
    ensures |sbox| == 256 && |invSbox| == 256
    ensures forall x: Byte :: sbox[x as int] == SubByte(x, m, c)
    ensures forall v: Byte :: invSbox[v as int] as int == LastIndex(sbox, v)
  {
    var s := new Byte[256](_ => 0);
    var inv := new Byte[256](_ => 0);
    for i := 0 to 256
      invariant Filled(s[..], i, m, c)
      invariant Scattered(inv[..], s[..i])
    {
      LoopStep(s[..], inv[..], i, m, c);
      FillEntry(s, inv, i, m, c);
    }
    sbox, invSbox := s[..], inv[..];
    assert s[..256] == sbox;
  }

  /** A table with no repeated entry. */
  ghost predicate Injective(p: seq<Byte>)
  {
    forall i, j :: 0 <= i < j < |p| ==> p[i] != p[j]
  }

  /** Every byte occurs in the table. */
  ghost predicate Onto(p: seq<Byte>)
  {
    forall v: Byte :: v in p
  }

  /** When no entry repeats, the last occurrence of an entry is where it
      stands, so the scatter-written table undoes the table. */
  lemma ScatterUndoes(p: seq<Byte>, t: seq<Byte>)
    requires |p| == 256 && |t| == 256 && Injective(p)
    requires forall v: Byte :: t[v as int] as int == LastIndex(p, v)
    ensures forall i :: 0 <= i < 256 ==> t[p[i] as int] as int == i
  {
    forall i | 0 <= i < 256
      ensures t[p[i] as int] as int == i
    {
      var r := LastIndex(p, p[i]);
      assert r < 256 && p[r] == p[i];
    }
  }

  /** When every byte occurs, the table undoes the scatter-written table. */
  lemma TableUndoesScatter(p: seq<Byte>, t: seq<Byte>)
    requires |p| == 256 && |t| == 256 && Onto(p)
    requires forall v: Byte :: t[v as int] as int == LastIndex(p, v)
    ensures forall v: Byte {:trigger t[v as int]} :: p[t[v as int] as int] == v
  {
    forall v: Byte {:trigger t[v as int]}
      ensures p[t[v as int] as int] == v
    {
      assert v in p;
      var r := LastIndex(p, v);
      assert r < 256 && p[r] == v;
    }
  }

  /** The entries of the first n places of a table with no repeats are n
      distinct bytes. */
  lemma {:induction false} ImageSize(p: seq<Byte>, n: nat)
    requires n <= |p| && Injective(p)
    ensures |set i | 0 <= i < n :: p[i]| == n
  {
    if n > 0 {
      ImageSize(p, n - 1);
      var before := set i | 0 <= i < n - 1 :: p[i];
      assert (set i | 0 <= i < n :: p[i]) == before + {p[n - 1]};
      assert p[n - 1] !in before;
    }
  }

  /** The table whose entry i is the byte i. */
  function Identity(): (p: seq<Byte>)
    ensures |p| == 256
  {
    seq(256, i requires 0 <= i < 256 => i as Byte)
  }

  /** The entries of the identity table. */
  ghost function AllBytes(): set<Byte>
  {
    set i | 0 <= i < 256 :: Identity()[i]
  }

  /** There are 256 bytes, and AllBytes holds each of them. */
  lemma ByteCount()
    ensures |AllBytes()| == 256
    ensures forall b: Byte :: b in AllBytes()
  {
    var p := Identity();
    forall i, j | 0 <= i < j < 256
      ensures p[i] != p[j]
    {
      ByteRoundTrip(i);
      ByteRoundTrip(j);
    }
    ImageSize(p, 256);
    forall b: Byte
      ensures b in AllBytes()
    {
      IntRoundTrip(b);
      assert p[b as int] == b;
    }
  }

  /** A table of 256 bytes with no repeated entry holds every byte. */
  lemma InjectiveIsOnto(p: seq<Byte>)
    requires |p| == 256 && Injective(p)
    ensures Onto(p)
  {
    var image := set i | 0 <= i < 256 :: p[i];
    var all := AllBytes();
    ImageSize(p, 256);
    ByteCount();
    assert image <= all;
    assert |all - image| == 0;
    forall v: Byte
      ensures v in p
    {
      assert v in all;
      assert v in image;
    }
  }

  lemma AddCancel(a: Byte, b: Byte, c: Byte)
    requires Add(a, c) == Add(b, c)
    ensures a == b
  {
    AddAssociates(a, c, c);
    AddAssociates(b, c, c);
    AddZeroSelf(a);
    AddZeroSelf(b);
    AddZeroSelf(c);
  }

  lemma AffineInjective(a: Byte, b: Byte)
    requires Affine(a) == Affine(b)
    ensures a == b
  {
    AffineRoundTrip(a, 0);
    AffineRoundTrip(b, 0);
  }

  /** In a field, distinct bytes have distinct S-box entries. */
  lemma SubByteInjective(x: Byte, y: Byte, m: bv16, c: Byte)
    requires ValidModulus(m) && DefinesField(m) && SubByte(x, m, c) == SubByte(y, m, c)
    ensures x == y
  {
    AddCancel(Affine(Inverse(x, m)), Affine(Inverse(y, m)), c);
    AffineInjective(Inverse(x, m), Inverse(y, m));
    InverseInjective(x, y, m);
  }

  /** In a field, every byte v is the S-box entry of the inverse of the
      inverse affine image of v minus the constant. */
  lemma SubByteOnto(v: Byte, m: bv16, c: Byte)
    requires ValidModulus(m) && DefinesField(m)
    ensures SubByte(Inverse(InvAffine(Add(v, c)), m), m, c) == v
  {
    InverseInvolution(InvAffine(Add(v, c)), m);
    AffineRoundTrip(0, Add(v, c));
    assert Add(Add(v, c), c) == v;
  }

  /** In a field, the generated S-box is a permutation of the bytes and the
      generated inverse table is its exact inverse. */
  lemma SboxIsPermutation(sbox: seq<Byte>, invSbox: seq<Byte>, m: bv16, c: Byte)
    requires ValidModulus(m) && DefinesField(m)
    requires |sbox| == 256 && |invSbox| == 256
    requires forall x: Byte :: sbox[x as int] == SubByte(x, m, c)
    requires forall v: Byte :: invSbox[v as int] as int == LastIndex(sbox, v)
    ensures Injective(sbox) && Onto(sbox)
    ensures forall i :: 0 <= i < 256 ==> invSbox[sbox[i] as int] as int == i
    ensures forall v: Byte {:trigger invSbox[v as int]} :: sbox[invSbox[v as int] as int] == v
  {
    forall i, j | 0 <= i < j < 256
      ensures sbox[i] != sbox[j]
    {
      ByteRoundTrip(i);
      ByteRoundTrip(j);
      if sbox[i] == sbox[j] {
        SubByteInjective(i as Byte, j as Byte, m, c);
      }
    }
    InjectiveIsOnto(sbox);
    ScatterUndoes(sbox, invSbox);
    TableUndoesScatter(sbox, invSbox);
  }

  /** The entries for 0 and 1 do not depend on the modulus: 0 maps to the
      constant, and 1, its own inverse, to 0x1F plus the constant. */
  lemma SubByteZeroOne(m: bv16, c: Byte)
    requires ValidModulus(m)
    ensures SubByte(0, m, c) == c
    ensures SubByte(1, m, c) == Add(0x1F, c)
  {
    AffineRoundTrip(0, 0);
    InverseOfOne(m);
  }
}

