# An AES-style S-box over GF(2^8), verified

This project models `poly.py`. That script builds a substitution box (S-box) and its inverse table over the finite field GF(2^8) from four routines:

- `rotl8` rotates a byte left;
- `multiply_in_gf` multiplies two bytes by shift-and-XOR with reduction by a modulus polynomial;
- `find_multiplicative_inverse` finds an inverse by linear search over 1..255, and returns 0 when it finds none;
- `generate_sbox_and_inverse` loops over i: it sets `sbox[i]` and then scatters i into the inverse table by `inv_sbox[sbox[i]] = i`, in the same iteration. Each S-box entry is the byte's inverse, passed through the affine map `y ^ rotl(y,1) ^ rotl(y,2) ^ rotl(y,3) ^ rotl(y,4)`, then XORed with a constant.

The modules follow the routines:

- `Bytes`: bytes as `bv8`, and their bits.
- `Rotation`: `rotl8`.
- `FieldMultiplier`: the multiplication loop as a method. It is proved against a recursive specification `GfMul`. The ring laws are proved about `GfMul`: zero, one, commutativity, distributivity over XOR, associativity.
- `PolynomialProduct`: the textbook product of section 4.2 of FIPS-197 (carry-less product, then the remainder modulo the modulus). It is proved equal to `GfMul`.
- `InverseFinder`: the search loop as a method, proved against the function `Inverse`. `Inverse` carries the search's specification: 0 for 0; otherwise the least candidate, or 0 when there is none. The module also proves what the field laws make of `Inverse`: uniqueness, involution, injectivity.
- `SboxGenerator`: the generator as a method over two arrays. It is proved to return `sbox[x] == SubByte(x)` and `invSbox[v] == LastIndex(sbox, v)`, where `LastIndex` is the last index holding v, or 0. It is also proved that, in a field, the S-box is a permutation and the two tables are mutual inverses.
- `ScriptParameters`: the script's parameters, modulus 0x11D and constant 0x63.
  - 0x11D is proved to define a field. Every nonzero byte is a power of x, and x has order 255.
  - So for these parameters the S-box is a permutation and the inverse table is its inverse.
  - Three entries are proved (`ScriptSamples`): 0x63, 0x7C, 0x56.

The table the script builds with 0x11D is not the AES S-box. AES uses the modulus 0x11B. The inverse of 0x02 is 0x8E under 0x11D and 0x8D under 0x11B. Entry 2 of the table is 0x56 under 0x11D and 0x77 under 0x11B. `ScriptParameters.InverseOfTwo` and `ScriptParameters.ScriptSamples` prove these values.

Python integers become bit-vectors:

- Bytes become `bv8`.
- The loop variables of `multiply_in_gf` become `bv16`. Under a 9-bit modulus with bit 8 set they never exceed 9 bits, so the 16-bit model loses nothing.
- The two lists become arrays of 256 bytes, created by the method and returned as sequences. The Python function also makes fresh lists, so no aliasing is lost.

## Model

| member | source | states |
|---|---|---|
| Rotation.Rotl8 | poly.py:1-3 | for shifts 0..8, bit j of the result is bit (j - shift) mod 8 of x |
| Rotation.RotlCompose | poly.py:1-3 | rotating by s and then by t is rotating by (s + t) mod 8 |
| Rotation.RotlTimesIsRotl8 | poly.py:1-3 | rotating by 1, n times, is a single rotation by n mod 8 |
| Rotation.EightRotationsIdentity | poly.py:1-3 | rotating by 1 eight times gives x back |
| FieldMultiplier.XTime | poly.py:11-13 | definition, no contract: multiplication by x on bytes, a << 1 XOR the modulus's low byte when bit 7 of a is set |
| FieldMultiplier.GfMul | poly.py:7-15 | definition, no contract: the loop as recursion on b, 0 for b == 0 and otherwise LowTerm(a, b) ^ GfMul(XTime(a, m), b >> 1, m); MultiplyInGf and GfMulIsProduct say what it is |
| FieldMultiplier.Double | poly.py:11-13 | definition, no contract: a << 1 on 16 bits, then XOR m when bit 8 is set |
| FieldMultiplier.Accumulate | poly.py:9-10 | definition, no contract: result ^ a when the low bit of b is set, result otherwise |
| FieldMultiplier.ShiftNoCarry | poly.py:11-13 | doubling a byte whose top bit is clear does not reach bit 8, so no reduction happens |
| FieldMultiplier.ShiftCarry | poly.py:11-13 | doubling a byte whose top bit is set reaches bit 8; XORing the modulus clears it and leaves the doubled low byte XOR the modulus's low byte |
| FieldMultiplier.DoubleIsXTime | poly.py:11-13 | one pass of the loop on `a` keeps it below 0x100 and is multiplication by x modulo m |
| FieldMultiplier.AccumulateIsLowTerm | poly.py:9-10 | one pass of the loop on `result` keeps it a byte and adds `a` exactly when the low bit of `b` is set |
| FieldMultiplier.MulInvariantStep | poly.py:8-14 | one pass keeps the three variables bytes and keeps "result + a*b" equal to the product sought |
| FieldMultiplier.MultiplyInGf | poly.py:5-15 | the loop terminates and returns the product GfMul(a, b, m), a byte |
| FieldMultiplier.XTimeLinear | poly.py:11-13 | multiplication by x distributes over XOR |
| FieldMultiplier.GfMulUnfold | poly.py:8-14 | unfolding helper: GfMul's defining equation for b != 0, the low term plus (a*x) times (b >> 1) |
| FieldMultiplier.GfMulZeroOne | poly.py:7-15 | x*0 == 0, 0*x == 0 and x*1 == x for every byte x |
| FieldMultiplier.GfMulZeroLeft | poly.py:7-15 | 0*b == 0 |
| FieldMultiplier.GfMulOneLeft | poly.py:7-15 | 1*b == b |
| FieldMultiplier.GfMulXTimeLeft | poly.py:11-13 | (a*x)*b == (a*b)*x |
| FieldMultiplier.GfMulStep | poly.py:8-14 | a*b is the low term plus (a*(b >> 1))*x |
| FieldMultiplier.GfMulXTimeRight | poly.py:11-13 | a*(b*x) == (a*b)*x |
| FieldMultiplier.GfMulLinearLeft | poly.py:5-15 | (a1 ^ a2)*b == a1*b ^ a2*b |
| FieldMultiplier.GfMulDistributes | poly.py:5-15 | a*(b1 ^ b2) == a*b1 ^ a*b2 |
| FieldMultiplier.GfMulCommutes | poly.py:5-15 | a*b == b*a |
| FieldMultiplier.GfMulAssociates | poly.py:5-15 | (a*b)*c == a*(b*c) |
| PolynomialProduct.Clmul | poly.py:8-11 | the carry-less product is 0 for b == 0, and otherwise its high byte is below b (degree below 8 + deg b) |
| PolynomialProduct.ReduceLinear | poly.py:12-13 | the remainder modulo m distributes over XOR |
| PolynomialProduct.ReduceLow | poly.py:12-13 | a polynomial of degree below 8 is its own remainder |
| PolynomialProduct.ReduceShift | poly.py:11-13 | the remainder of p*x is the remainder of p times x modulo m |
| PolynomialProduct.GfMulIsProduct | poly.py:5-15 | the loop's product equals the carry-less product reduced modulo m, as section 4.2 of FIPS-197 defines it |
| InverseFinder.FirstOne | poly.py:21-23 | the search finds the first index whose product is 1, and every earlier index fails |
| InverseFinder.ProductsBelow | poly.py:21-23 | no candidate below the search's stopping point multiplies x to 1 |
| InverseFinder.Inverse | poly.py:17-24 | 0 for 0; a nonzero result multiplies x to 1 and is the least such candidate; a nonzero x gives 0 only when no byte multiplies it to 1 |
| InverseFinder.IndexByte | poly.py:23-24 | a stopping index below 256 is returned as that byte, and the index 256 (no candidate found) as the sentinel 0 |
| InverseFinder.SearchOutcome | poly.py:21-24 | when the search stops at a candidate, it multiplies x to 1 and every earlier candidate fails; when it runs off the end, no byte multiplies x to 1 |
| InverseFinder.SearchStep | poly.py:21-23 | unfolding helper: FirstOne's defining equation at candidate i; a failing candidate moves the search on by one, a succeeding one ends it there |
| InverseFinder.FindMultiplicativeInverse | poly.py:17-24 | the loop with its early return computes Inverse(x, m) |
| InverseFinder.InverseUnique | poly.py:21-23 | two bytes that both multiply x to 1 are equal |
| InverseFinder.InverseOfWitness | poly.py:17-24 | whenever x*y == 1, the search returns y |
| InverseFinder.InverseInField | poly.py:17-24 | in a field, a nonzero x gets a nonzero inverse, and x*y == 1 exactly when y is that inverse |
| InverseFinder.InverseInvolution | poly.py:17-24 | in a field, inverting twice gives x back |
| InverseFinder.InverseInjective | poly.py:17-24 | in a field, distinct bytes have distinct inverses |
| InverseFinder.InverseOfOne | poly.py:17-24 | the inverse of 1 is 1 under every modulus |
| SboxGenerator.Affine | poly.py:38 | the map y ^ rotl(y,1) ^ rotl(y,2) ^ rotl(y,3) ^ rotl(y,4); its contract states that 0 maps to 0 |
| SboxGenerator.SubByte | poly.py:32-39 | the entry affine(inverse(x)) ^ c; its contract states that a byte the search finds no inverse for gets the constant (line 35), and that InvAffine of the entry minus c gives back the inverse |
| SboxGenerator.AffineBit | poly.py:38 | bit j of the affine map is the XOR of bits j, j+4, j+5, j+6 and j+7 (mod 8) of y, the bit form of section 5.1.1 of FIPS-197 |
| SboxGenerator.AffineRoundTrip | poly.py:38 | the map z -> rotl(z,1) ^ rotl(z,3) ^ rotl(z,6) undoes the affine map on both sides, and 0 maps to 0 |
| SboxGenerator.AffineInjective | poly.py:38 | the affine map is one-to-one |
| SboxGenerator.EntryIsSubByte | poly.py:34-39 | both branches of the entry computation (the constant, or affine(inverse) ^ constant) agree with affine(inverse) ^ constant |
| SboxGenerator.SubByteZeroOne | poly.py:34-39 | entry 0 is the constant, and entry 1 is 0x1F ^ constant, for every modulus |
| SboxGenerator.LastIndex | poly.py:41-42 | the index is the last one holding v, or 0 when no index holds v |
| SboxGenerator.LastIndexAppend | poly.py:41-42 | appending an entry b moves the last index of b to the new position and leaves every other value's last index alone |
| SboxGenerator.ScatterMiss | poly.py:41-42 | the scatter write leaves the inverse-table slot of every value other than the written one correct |
| SboxGenerator.ScatterStep | poly.py:41-42 | after the scatter write, every slot v of the inverse table is the last index so far holding v |
| SboxGenerator.FillStep | poly.py:31-39 | writing entry i keeps entries 0..i equal to SubByte |
| SboxGenerator.FillEntry | poly.py:32-42 | one iteration writes SubByte(i) at entry i of the S-box, then i at that entry's slot of the inverse table, and changes nothing else |
| SboxGenerator.LoopStep | poly.py:31-42 | one iteration keeps both loop invariants |
| SboxGenerator.GenerateSboxAndInverse | poly.py:26-44 | two tables of 256 bytes; sbox[x] is affine(inverse(x)) ^ constant; invSbox[v] is the last index holding v in sbox, or 0 |
| SboxGenerator.ScatterUndoes | poly.py:41-42 | for an injective table, the scattered table maps each entry back to its index |
| SboxGenerator.TableUndoesScatter | poly.py:41-42 | for a table that hits every byte, the table undoes the scattered table |
| SboxGenerator.InjectiveIsOnto | poly.py:28-31 | a 256-entry table of bytes with no repeated entry hits every byte |
| SboxGenerator.AddCancel | poly.py:39 | XORing the constant is one-to-one |
| SboxGenerator.SubByteInjective | poly.py:32-39 | in a field, distinct bytes get distinct entries |
| SboxGenerator.SubByteOnto | poly.py:32-39 | in a field, every byte v is the entry of inverse(invaffine(v ^ constant)) |
| SboxGenerator.SboxIsPermutation | poly.py:26-44 | in a field, the S-box has no repeated entry and hits every byte, and the two tables are mutual inverses |
| ScriptParameters.PowerAdd | poly.py:5-15 | x^i * x^j == x^(i+j) |
| ScriptParameters.PowersFrom0 | poly.py:54 | the powers x^0..x^31 modulo 0x11D, as byte values |
| ScriptParameters.PowersFrom32 | poly.py:54 | the powers x^32..x^63 modulo 0x11D |
| ScriptParameters.PowersFrom64 | poly.py:54 | the powers x^64..x^95 modulo 0x11D |
| ScriptParameters.PowersFrom96 | poly.py:54 | the powers x^96..x^127 modulo 0x11D |
| ScriptParameters.PowersFrom128 | poly.py:54 | the powers x^128..x^159 modulo 0x11D |
| ScriptParameters.PowersFrom160 | poly.py:54 | the powers x^160..x^191 modulo 0x11D |
| ScriptParameters.PowersFrom192 | poly.py:54 | the powers x^192..x^223 modulo 0x11D |
| ScriptParameters.PowersFrom224 | poly.py:54 | the powers x^224..x^255 modulo 0x11D, ending with x^255 == 1 |
| ScriptParameters.EveryNonzeroIsAPower | poly.py:54 | every nonzero byte is x^k modulo 0x11D for some k below 255 |
| ScriptParameters.ScriptModulusDefinesField | poly.py:54 | under 0x11D every nonzero byte has an inverse |
| ScriptParameters.InverseOfTwo | poly.py:17-24 | the search returns 0x8E for 2 under 0x11D, and 0x8D under 0x11B |
| ScriptParameters.ScriptSamples | poly.py:53-57 | entries 0, 1 and 2 are 0x63, 0x7C and 0x56 for the script's parameters; entry 2 is 0x77 under 0x11B |
| ScriptParameters.ScriptTables | poly.py:53-57 | for 0x11D and 0x63 the S-box is a permutation, the inverse table is its exact inverse, and the first entries are 0x63, 0x7C and 0x56 |

## Left out

- `print_sbox` (poly.py:46-51) and the printing at poly.py:58-59: console output only.
- Irreducibility of the modulus: the source never checks it. It is the hypothesis `InverseFinder.DefinesField`, and it is proved only for 0x11D.
- The published AES S-box table: the model never equates the 0x11D table with it, because the two differ (entry 2: 0x56 against 0x77).
- FieldMultiplier.MultiplyInGf: requires a modulus with bit 8 set and below 0x200, and byte operands. The source accepts any integers. With any other modulus `a` can grow past a byte, and the result is still masked to a byte. With a negative `b` the Python loop never ends, because `-1 >> 1 == -1`; the byte type of `b` excludes that case.
- InverseFinder.FindMultiplicativeInverse: requires the same modulus range as the multiplier; x is a byte.
- SboxGenerator.GenerateSboxAndInverse: requires the same modulus range, and the constant is a byte. With a constant of 256 or more, the Python would index `inv_sbox` out of range and raise. A constant in -256..-1 runs without error in Python: it gives negative entries, which `inv_sbox[sbox[i]]` accepts as indices counted from the end. The byte type of the constant excludes both cases.
- Rotation.Rotl8: requires a shift of 0..8; Python raises on a negative shift count. `x` is a byte as in every call in the source.
