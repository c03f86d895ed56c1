# Verified models of a game server's dependencies

The Go modules behind the server hold the logic that is hard to get right. This project models four
of them and proves what they promise.

- **edwards25519**, used by the MySQL driver's login: arithmetic in five 51-bit limbs modulo
  p = 2^255 - 19, Montgomery arithmetic in four words modulo the group order l, the curve formulas in
  four coordinate systems, encodings, digit recodings, lookup tables and scalar multiplication. Each
  layer is a fast form of something simple (integers modulo p and l, the curve equation, sums of a
  point with itself) and is proved against it, in place and under aliasing.
- **gofumpt's sequencer** and the **MySQL driver's cancellation watcher**: two protocols of goroutines
  and channels, as state machines over their atomic steps, with invariants over every run, progress
  and termination.
- **MySQL packet framing**: splitting, reassembly, headers that overwrite sent bytes, the read and
  write buffer, and the compression layer over an abstract lossless codec.
- **TOML**: the lexer, a stack machine of 41 states, against the language in which the parser reads its
  items, and with the texts that items stand for; the printer and parser of basic strings; and key paths.

`dafny verify dfyconfig.toml` checks everything.

Hypotheses are stated where they are used. `Prime(P)` and `Prime(L)` say that p and l are prime.
`Group()` says that p is prime and that addition of affine points is associative; the other group laws
are proved, and so is that d is not a square. `Exponent()` says that 8 l times any point is the
identity; only ShiftVanishesOnTorsion uses it. `Lossless(c)` says that decompression undoes compression.

Words are integers below 2^64; `Mul64`, `Add64` and `Sub64` are the equations of `math/bits`, and
wrap-around is written out. Products of residues are kept folded (`Open` in module Field works them
out), which keeps the solver away from products of 255-bit variables.

## Model

| member | source | states |
|---|---|---|
| FieldElement.MulWide | pkg/mod/filippo.io/edwards25519@v1.1.0/field/fe_generic.go:16-19 | the two words of the product are exactly a b |
| FieldElement.AddMul64 | pkg/mod/filippo.io/edwards25519@v1.1.0/field/fe_generic.go:22-27 | v + a b as one 128-bit number, exact whenever it fits 128 bits |
| FieldElement.ShiftRightBy51 | pkg/mod/filippo.io/edwards25519@v1.1.0/field/fe_generic.go:30-32 | the low word of a / 2^51 is the whole quotient for every a below 2^115 |
| Field.MulCorrect | pkg/mod/filippo.io/edwards25519@v1.1.0/field/fe_generic.go:34-163 | for all elements with bounded limbs the five folded and twice carried columns are bounded again and denote a b modulo p |
| FieldElement.Element.MulGeneric | pkg/mod/filippo.io/edwards25519@v1.1.0/field/fe_generic.go:34-163 | the in-place product stores exactly these limbs with every 64-bit and 128-bit sum in range, whichever of receiver and arguments are one object |
| FieldElement.Element.SquareGeneric | pkg/mod/filippo.io/edwards25519@v1.1.0/field/fe_generic.go:165-246 | squaring stores limb for limb what multiplying the element with itself stores |
| FieldElement.Element.Multiply | pkg/mod/filippo.io/edwards25519@v1.1.0/field/fe.go:302-305 | the residue stored is the product of the residues, aliased or not |
| FieldElement.Element.Square | pkg/mod/filippo.io/edwards25519@v1.1.0/field/fe.go:308-311 | the residue stored is the square of the residue, aliased or not |
| FieldElement.Element.CarryPropagate | pkg/mod/filippo.io/edwards25519@v1.1.0/field/fe_generic.go:250-266 | from any five 64-bit words, one parallel carry step leaves bounded limbs |
| Field.CarryBounds | pkg/mod/filippo.io/edwards25519@v1.1.0/field/fe_generic.go:250-266 | from any five 64-bit words the carried limbs obey the tight bounds 2^51 + 19 2^13 and 2^51 + 2^13 |
| Field.CarryValue | pkg/mod/filippo.io/edwards25519@v1.1.0/field/fe_generic.go:250-266 | a carry step changes the value by a multiple of p only |
| FieldElement.Element.Add | pkg/mod/filippo.io/edwards25519@v1.1.0/field/fe.go:87-98 | stores the carried limb sums; no sum wraps around |
| Field.AddCorrect | pkg/mod/filippo.io/edwards25519@v1.1.0/field/fe.go:87-98 | those limbs are bounded and denote the sum of the residues |
| FieldElement.Element.Subtract | pkg/mod/filippo.io/edwards25519@v1.1.0/field/fe.go:101-110 | over all limbs below 2^52, the carried machine differences with their wrap-around, and the plain differences plus 2p whenever no limb borrows |
| Field.SubCorrect | pkg/mod/filippo.io/edwards25519@v1.1.0/field/fe.go:101-110 | over bounded limbs the result is bounded and denotes the difference of the residues |
| SubtractBound.SubtractCorrectIff | pkg/mod/filippo.io/edwards25519@v1.1.0/field/fe.go:101-110 | for all limbs below 2^52, what Subtract stores denotes a - b modulo p if and only if no limb of b exceeds the limb of a plus that of 2p |
| SubtractBound.BoundedNeverBorrows | pkg/mod/filippo.io/edwards25519@v1.1.0/field/fe.go:101-110 | the bound that carry propagation gives implies that condition |
| SubtractBound.DocumentedBoundTooWeak | pkg/mod/filippo.io/edwards25519@v1.1.0/field/fe.go:24-27 | the bound in the comment does not: an input below 2^52 whose difference is wrong modulo p |
| FieldElement.Element.Negate | pkg/mod/filippo.io/edwards25519@v1.1.0/field/fe.go:113-115 | stores the limbs of 0 - a |
| Field.NegCorrect | pkg/mod/filippo.io/edwards25519@v1.1.0/field/fe.go:113-115 | over bounded limbs the result denotes the opposite residue |
| Field.ReduceWords | pkg/mod/filippo.io/edwards25519@v1.1.0/field/fe.go:54-84 | from any five words the trial carry is 0 or 1 and the final pass of carries leaves exactly the limbs of the residue in [0, p) |
| FieldElement.Element.Reduce | pkg/mod/filippo.io/edwards25519@v1.1.0/field/fe.go:54-84 | in place, from any five words: the unique limbs of the representative in [0, p) |
| Field.LimbsUnique | pkg/mod/filippo.io/edwards25519@v1.1.0/field/fe.go:54-84 | limbs below 2^51 are determined by their value, so the reduced form is unique |
| FieldElement.Element.SetBytes | pkg/mod/filippo.io/edwards25519@v1.1.0/field/fe.go:198-221 | accepts exactly 32 bytes, stores the number without its top bit, and leaves the receiver alone otherwise |
| FieldElement.Element.Bytes | pkg/mod/filippo.io/edwards25519@v1.1.0/field/fe.go:224-249 | the 32 little-endian bytes of the residue in [0, p), so two encodings agree exactly when the elements are congruent |
| FieldElement.Element.Equal | pkg/mod/filippo.io/edwards25519@v1.1.0/field/fe.go:252-255 | 1 if and only if the residues agree |
| FieldElement.Element.Select | pkg/mod/filippo.io/edwards25519@v1.1.0/field/fe.go:261-269 | the masked choice is a if cond is 1 and b if it is 0 |
| FieldElement.Element.Swap | pkg/mod/filippo.io/edwards25519@v1.1.0/field/fe.go:272-289 | the masked exchange swaps both elements if cond is 1 and keeps both if it is 0 |
| FieldElement.Element.IsNegative | pkg/mod/filippo.io/edwards25519@v1.1.0/field/fe.go:292-294 | the parity of the residue in [0, p) |
| FieldElement.Element.Absolute | pkg/mod/filippo.io/edwards25519@v1.1.0/field/fe.go:297-299 | the element or its negation, whichever has an even residue |
| FieldElement.Mul51 | pkg/mod/filippo.io/edwards25519@v1.1.0/field/fe.go:331-336 | low 51 bits and quotient of the product with a 32-bit number, with a bound on the quotient |
| FieldElement.Element.Mult32 | pkg/mod/filippo.io/edwards25519@v1.1.0/field/fe.go:314-328 | bounded limbs that denote x y modulo p for every 32-bit y, without a final carry pass |
| FieldElement.Element.SetWideBytes | pkg/mod/filippo.io/edwards25519@v1.1.0/field/fe_extra.go:19-50 | for every 64-byte x, bounded limbs that denote x modulo p; any other length is refused and changes nothing |
| FieldPowers.Invert | pkg/mod/filippo.io/edwards25519@v1.1.0/field/fe.go:120-182 | the chain of 254 squarings and 11 products computes z^(p-2) for every z, aliased or not |
| FieldPowers.InvertCorrect | pkg/mod/filippo.io/edwards25519@v1.1.0/field/fe.go:117-119 | given that p is prime, that power is the inverse of every nonzero residue and 0 for 0 |
| FieldPowers.Pow22523 | pkg/mod/filippo.io/edwards25519@v1.1.0/field/fe.go:339-387 | the chain computes x^((p-5)/8) for every x, aliased or not |
| SqrtRatio.SqrtRatio | pkg/mod/filippo.io/edwards25519@v1.1.0/field/fe.go:398-420 | the in-place method returns the flag and the root of the function Outcome of the two residues, with r aliasing u or v allowed |
| SqrtRatio.SqrtRatioSound | pkg/mod/filippo.io/edwards25519@v1.1.0/field/fe.go:393-420 | flag 1 implies v r^2 = u, and r is always the even root; no hypothesis |
| SqrtRatio.SqrtRatioDecides | pkg/mod/filippo.io/edwards25519@v1.1.0/field/fe.go:393-420 | given that p is prime, the flag is 1 if and only if some s has v s^2 = u |
| Curve.SumOnCurve | pkg/mod/filippo.io/edwards25519@v1.1.0/edwards25519.go:258-263 | both equations of isOnCurve are kept by Point.Add, through cached and completed coordinates, for all points satisfying them |
| Curve.DoubleOnCurve | pkg/mod/filippo.io/edwards25519@v1.1.0/edwards25519.go:353-369 | both equations are kept by doubling through projective and completed coordinates |
| Curve.NegateOnCurve | pkg/mod/filippo.io/edwards25519@v1.1.0/edwards25519.go:374-381 | both equations are kept by negation |
| Curve.ProjToExtOnCurve | pkg/mod/filippo.io/edwards25519@v1.1.0/edwards25519.go:218-224 | both equations are kept by fromP2 |
| CurveLaws.AddSelfIsTwiceDouble | pkg/mod/filippo.io/edwards25519@v1.1.0/edwards25519.go:353-369 | on the curve the four outputs of Add(p, p) are exactly twice those of Double(p) |
| CurveLaws.SubIsAddOfNegate | pkg/mod/filippo.io/edwards25519@v1.1.0/edwards25519.go:293-311 | Sub(p, q) and Add(p, -q) agree in all four coordinates |
| CurveLaws.SubAffineIsAdd | pkg/mod/filippo.io/edwards25519@v1.1.0/edwards25519.go:332-349 | SubAffine is AddAffine of the negated cached point, coordinate for coordinate |
| CurveLaws.AddIsScaledAddAffine | pkg/mod/filippo.io/edwards25519@v1.1.0/edwards25519.go:313-330 | with q's Z invertible, Add(p, q) is q's Z times AddAffine(p, q) |
| CurveLaws.SumWithNegate | pkg/mod/filippo.io/edwards25519@v1.1.0/edwards25519.go:374-381 | on the curve p + (-p) equals the identity |
| CurveLaws.NonSquareD | pkg/mod/filippo.io/edwards25519@v1.1.0/edwards25519.go:227-230 | given that p is prime, the curve constant d is the square of no residue |
| CurveLaws.SumNeverDegenerates | pkg/mod/filippo.io/edwards25519@v1.1.0/edwards25519.go:258-291 | completeness: given only that p is prime, the sum of two curve points with nonzero Z has nonzero Z |
| CurveLaws.SumValid | pkg/mod/filippo.io/edwards25519@v1.1.0/edwards25519.go:258-263 | Add keeps valid points valid: both equations and Z nonzero |
| CurveLaws.DoubleValid | pkg/mod/filippo.io/edwards25519@v1.1.0/edwards25519.go:353-369 | doubling keeps a valid point valid and equals adding it to itself |
| CurveLaws.NegateValid | pkg/mod/filippo.io/edwards25519@v1.1.0/edwards25519.go:374-381 | negation keeps a valid point valid |
| CurveLaws.ProjToExtValid | pkg/mod/filippo.io/edwards25519@v1.1.0/edwards25519.go:218-224 | fromP2 keeps a valid point valid and leaves the same point |
| PointEncoding.DecodeOnCurve | pkg/mod/filippo.io/edwards25519@v1.1.0/edwards25519.go:145-187 | every byte string that decodes gives a point satisfying both equations with Z = 1; no hypothesis |
| PointEncoding.DecodeFailsOnlyOffCurve | pkg/mod/filippo.io/edwards25519@v1.1.0/edwards25519.go:145-187 | a 32-byte string is refused if and only if no point of the curve has its y |
| PointEncoding.DecodedSign | pkg/mod/filippo.io/edwards25519@v1.1.0/edwards25519.go:172-187 | the decoded y is the low 255 bits modulo p and x has the requested parity unless it is 0 |
| PointEncoding.DecodeEncode | pkg/mod/filippo.io/edwards25519@v1.1.0/edwards25519.go:116-134 | decoding the encoding of a valid point gives its affine form, which Equal accepts |
| PointEncoding.EncodeDecidesEquality | pkg/mod/filippo.io/edwards25519@v1.1.0/edwards25519.go:116-134 | two valid points have one encoding if and only if Equal holds |
| PointEncoding.EncodeDecode | pkg/mod/filippo.io/edwards25519@v1.1.0/edwards25519.go:136-144 | encoding a decoded string gives it back if and only if it is canonical: y below p, and not the sign bit with x = 0 |
| Points.Point.SetBytes | pkg/mod/filippo.io/edwards25519@v1.1.0/edwards25519.go:145-187 | accepts exactly what decodes, stores that point, and leaves the receiver alone otherwise |
| Points.Point.Bytes | pkg/mod/filippo.io/edwards25519@v1.1.0/edwards25519.go:116-134 | a fresh array with the canonical encoding |
| Points.Point.Set | pkg/mod/filippo.io/edwards25519@v1.1.0/edwards25519.go:107-110 | copies all four coordinates |
| Points.Point.Add | pkg/mod/filippo.io/edwards25519@v1.1.0/edwards25519.go:258-263 | the coordinates of the cached and completed sum, receiver and arguments aliased or not |
| Points.Point.Subtract | pkg/mod/filippo.io/edwards25519@v1.1.0/edwards25519.go:266-271 | the coordinates of the sum with the negated point |
| Points.Point.Negate | pkg/mod/filippo.io/edwards25519@v1.1.0/edwards25519.go:374-381 | the coordinates of the negated point |
| Points.Point.Equal | pkg/mod/filippo.io/edwards25519@v1.1.0/edwards25519.go:384-394 | 1 if and only if both cross products agree |
| Points.Point.FromP1xP1 | pkg/mod/filippo.io/edwards25519@v1.1.0/edwards25519.go:210-216 | the extended coordinates of a completed point |
| Points.Point.FromP2 | pkg/mod/filippo.io/edwards25519@v1.1.0/edwards25519.go:218-224 | the extended coordinates of a projective point |
| Points.P2.FromP1xP1 | pkg/mod/filippo.io/edwards25519@v1.1.0/edwards25519.go:196-201 | the projective coordinates of a completed point |
| Points.P2.FromP3 | pkg/mod/filippo.io/edwards25519@v1.1.0/edwards25519.go:203-208 | drops T |
| Points.ProjCached.FromP3 | pkg/mod/filippo.io/edwards25519@v1.1.0/edwards25519.go:234-240 | Y+X, Y-X, Z and 2dT |
| Points.AffineCached.FromP3 | pkg/mod/filippo.io/edwards25519@v1.1.0/edwards25519.go:242-253 | the cached coordinates divided by Z |
| Points.P1xP1.Add | pkg/mod/filippo.io/edwards25519@v1.1.0/edwards25519.go:273-291 | the completed sum with a cached point |
| Points.P1xP1.Sub | pkg/mod/filippo.io/edwards25519@v1.1.0/edwards25519.go:293-311 | the completed difference with a cached point |
| Points.P1xP1.AddAffine | pkg/mod/filippo.io/edwards25519@v1.1.0/edwards25519.go:313-330 | the completed sum with an affine cached point |
| Points.P1xP1.SubAffine | pkg/mod/filippo.io/edwards25519@v1.1.0/edwards25519.go:332-349 | the completed difference with an affine cached point |
| Points.P1xP1.Double | pkg/mod/filippo.io/edwards25519@v1.1.0/edwards25519.go:353-369 | the completed double |
| Points.ProjCached.Select | pkg/mod/filippo.io/edwards25519@v1.1.0/edwards25519.go:399-405 | all four coordinates of a or of b |
| Points.AffineCached.Select | pkg/mod/filippo.io/edwards25519@v1.1.0/edwards25519.go:408-413 | all three coordinates of a or of b |
| Points.ProjCached.CondNeg | pkg/mod/filippo.io/edwards25519@v1.1.0/edwards25519.go:416-420 | the cached form of the negated point if cond is 1, else unchanged |
| Points.AffineCached.CondNeg | pkg/mod/filippo.io/edwards25519@v1.1.0/edwards25519.go:423-427 | the affine cached form of the negated point if cond is 1, else unchanged |
| Points.IsOnCurve | pkg/mod/filippo.io/edwards25519@v1.1.0/extra.go:53-73 | true if and only if both curve equations hold |
| Points.Point.SetExtendedCoordinates | pkg/mod/filippo.io/edwards25519@v1.1.0/extra.go:42-51 | accepts exactly the coordinates satisfying both equations and leaves the receiver alone otherwise |
| Points.Point.MultByCofactor | pkg/mod/filippo.io/edwards25519@v1.1.0/extra.go:115-125 | three doublings through projective coordinates |
| ScalarMult.CofactorIsEight | pkg/mod/filippo.io/edwards25519@v1.1.0/extra.go:114-125 | their result is valid and is 8 times the point |
| Basepoint.GeneratorDecodes | pkg/mod/filippo.io/edwards25519@v1.1.0/edwards25519.go:76-82 | given that p is prime, the generator's bytes decode to the point with y = 4/5 and even x |
| Basepoint.NewGeneratorPoint | pkg/mod/filippo.io/edwards25519@v1.1.0/edwards25519.go:85-87 | a fresh point with exactly those coordinates |
| CurveGroup.NfDecidesSame | pkg/mod/filippo.io/edwards25519@v1.1.0/edwards25519.go:384-394 | two valid points have one affine form if and only if Equal holds |
| CurveGroup.NfOfSum | pkg/mod/filippo.io/edwards25519@v1.1.0/edwards25519.go:258-263 | the affine form of a sum depends only on the affine forms of the summands |
| Montgomery.Round | pkg/mod/filippo.io/edwards25519@v1.1.0/scalar_fiat.go:88-371 | one Montgomery round: 2^64 a' = a + x b + q l, with a' below l + b, so that no word sum exceeds its carry |
| Montgomery.NarrowRound | pkg/mod/filippo.io/edwards25519@v1.1.0/scalar_fiat.go:542-686 | the round of the conversions, whose high words are added without carry outputs |
| Montgomery.MontgomeryMul | pkg/mod/filippo.io/edwards25519@v1.1.0/scalar_fiat.go:88-371 | for every a and every b below l the result is below l and 2^256 r = a b modulo l |
| Montgomery.ModularAdd | pkg/mod/filippo.io/edwards25519@v1.1.0/scalar_fiat.go:384-423 | exactly (a + b) mod l |
| Montgomery.ModularSub | pkg/mod/filippo.io/edwards25519@v1.1.0/scalar_fiat.go:436-466 | exactly (a - b) mod l |
| Montgomery.ModularOpp | pkg/mod/filippo.io/edwards25519@v1.1.0/scalar_fiat.go:478-508 | exactly -a mod l |
| Montgomery.Cmovznz | pkg/mod/filippo.io/edwards25519@v1.1.0/scalar_fiat.go:71-75 | the masked choice between two words |
| Montgomery.Nonzero | pkg/mod/filippo.io/edwards25519@v1.1.0/scalar_fiat.go:527-530 | 0 if and only if all four words are 0 |
| Montgomery.FromMontgomery | pkg/mod/filippo.io/edwards25519@v1.1.0/scalar_fiat.go:542-686 | r below l with 2^256 r = a modulo l, for any four words |
| Montgomery.ToMontgomery | pkg/mod/filippo.io/edwards25519@v1.1.0/scalar_fiat.go:698-950 | r below l with r = 2^256 a modulo l, for any four words |
| Montgomery.FromAfterTo | pkg/mod/filippo.io/edwards25519@v1.1.0/scalar_fiat.go:542-686 | leaving the domain after entering it gives the number back, on all of [0, l) |
| Montgomery.ToAfterFrom | pkg/mod/filippo.io/edwards25519@v1.1.0/scalar_fiat.go:698-950 | entering it after leaving it gives the words back, on all of [0, l) |
| Montgomery.StdInjective | pkg/mod/filippo.io/edwards25519@v1.1.0/scalar.go:239-251 | reduced words are equal if and only if they stand for one residue |
| Scalars.WordsToBytesValue | pkg/mod/filippo.io/edwards25519@v1.1.0/scalar_fiat.go:969-1062 | the 32 bytes are the little-endian form of the four words |
| Scalars.FromBytesValue | pkg/mod/filippo.io/edwards25519@v1.1.0/scalar_fiat.go:1082-1147 | the four words have the little-endian value of the bytes |
| Scalars.IsReduced | pkg/mod/filippo.io/edwards25519@v1.1.0/scalar.go:177-191 | true if and only if there are 32 bytes with a value below l |
| Scalars.Scalar.MultiplyAdd | pkg/mod/filippo.io/edwards25519@v1.1.0/scalar.go:63-67 | x y + z mod l, also when the receiver is one of them |
| Scalars.Scalar.Add | pkg/mod/filippo.io/edwards25519@v1.1.0/scalar.go:70-74 | x + y mod l, aliased or not |
| Scalars.Scalar.Subtract | pkg/mod/filippo.io/edwards25519@v1.1.0/scalar.go:77-81 | x - y mod l, aliased or not |
| Scalars.Scalar.Negate | pkg/mod/filippo.io/edwards25519@v1.1.0/scalar.go:84-88 | -x mod l, aliased or not |
| Scalars.Scalar.Multiply | pkg/mod/filippo.io/edwards25519@v1.1.0/scalar.go:91-95 | x y mod l, aliased or not |
| Scalars.Scalar.SetUniformBytes | pkg/mod/filippo.io/edwards25519@v1.1.0/scalar.go:109-132 | for every 64-byte x, x mod l, from three short pieces; other lengths are refused and change nothing |
| Scalars.Scalar.SetShortBytes | pkg/mod/filippo.io/edwards25519@v1.1.0/scalar.go:144-153 | fewer than 32 bytes modulo l |
| Scalars.Scalar.SetCanonicalBytes | pkg/mod/filippo.io/edwards25519@v1.1.0/scalar.go:158-170 | accepts exactly 32 bytes below l, with that value, and changes nothing otherwise |
| Scalars.Scalar.SetBytesWithClamping | pkg/mod/filippo.io/edwards25519@v1.1.0/scalar.go:204-221 | accepts exactly 32 bytes and stores the clamped number modulo l |
| Scalars.PruneIsClamp | pkg/mod/filippo.io/edwards25519@v1.1.0/scalar.go:193-221 | the three byte operations are the pruning of section 5.1.5 of RFC 8032: multiple of 8, bit 254 set, below 2^255 |
| Scalars.Scalar.Bytes | pkg/mod/filippo.io/edwards25519@v1.1.0/scalar.go:224-236 | the 32 little-endian bytes of the value in [0, l) |
| Scalars.CanonicalRoundTrip | pkg/mod/filippo.io/edwards25519@v1.1.0/scalar.go:158-170 | the bytes of a scalar are the only string SetCanonicalBytes reads as it |
| Scalars.Scalar.Equal | pkg/mod/filippo.io/edwards25519@v1.1.0/scalar.go:239-251 | 1 if and only if the values agree, through the folding of the difference to one bit |
| Recoding.NonAdjacentForm | pkg/mod/filippo.io/edwards25519@v1.1.0/scalar.go:256-319 | for every scalar and w from 2 to 8: 256 digits with sum of d_i 2^i equal to the scalar, nonzero ones odd, below 2^(w-1) in size and at least w places apart |
| Recoding.NafUnique | pkg/mod/filippo.io/edwards25519@v1.1.0/scalar.go:253-319 | there is only one such digit string, so all 256 digits are determined |
| Recoding.DigitFits | pkg/mod/filippo.io/edwards25519@v1.1.0/scalar.go:309-315 | the signed digit survives int8 wrap-around for every w, also where w = 7 and w = 8 wrap the width itself |
| Recoding.SignedRadix16 | pkg/mod/filippo.io/edwards25519@v1.1.0/scalar.go:321-343 | 64 digits between -8 and 7, the last up to 8, with sum of d_i 16^i equal to the scalar |
| Recoding.CenteredUnique | pkg/mod/filippo.io/edwards25519@v1.1.0/scalar.go:321-343 | there is only one such digit string |
| Scalars.Scalar.NonAdjacentForm | pkg/mod/filippo.io/edwards25519@v1.1.0/scalar.go:256-319 | the same about the value a scalar object holds |
| Scalars.Scalar.SignedRadix16 | pkg/mod/filippo.io/edwards25519@v1.1.0/scalar.go:321-343 | the same about the value a scalar object holds |
| Scalars.Scalar.Pow2k | pkg/mod/filippo.io/edwards25519@v1.1.0/extra.go:128-132 | k squarings raise to the power 2^k, in place |
| Scalars.Scalar.Invert | pkg/mod/filippo.io/edwards25519@v1.1.0/extra.go:137-238 | the sliding window computes t^(l-2) for every t, with the receiver t or not |
| Scalars.InvertCorrect | pkg/mod/filippo.io/edwards25519@v1.1.0/extra.go:134-136 | given that l is prime, that power is the inverse of every nonzero scalar and 0 for 0 |
| Tables.ProjLookupTable.FromP3 | pkg/mod/filippo.io/edwards25519@v1.1.0/tables.go:34-46 | the table holds Q to 8Q |
| Tables.AffineLookupTable.FromP3 | pkg/mod/filippo.io/edwards25519@v1.1.0/tables.go:49-59 | the table holds Q to 8Q in affine form |
| Tables.NafLookupTable5.FromP3 | pkg/mod/filippo.io/edwards25519@v1.1.0/tables.go:62-73 | the table holds Q, 3Q to 15Q |
| Tables.NafLookupTable8.FromP3 | pkg/mod/filippo.io/edwards25519@v1.1.0/tables.go:76-85 | the table holds Q, 3Q to 127Q in affine form |
| Tables.ProjLookupTable.SelectInto | pkg/mod/filippo.io/edwards25519@v1.1.0/tables.go:90-103 | the entry for the size of the digit, negated for a negative digit, zero for 0 |
| Tables.PickedIs | pkg/mod/filippo.io/edwards25519@v1.1.0/tables.go:90-103 | from a table of Q that entry is x Q, for every x from -8 to 8 |
| Tables.AffineLookupTable.SelectInto | pkg/mod/filippo.io/edwards25519@v1.1.0/tables.go:106-119 | the entry for the size of the digit, negated for a negative digit, zero for 0 |
| Tables.PickedAffineIs | pkg/mod/filippo.io/edwards25519@v1.1.0/tables.go:106-119 | from a table of Q that entry is x Q, for every x from -8 to 8 |
| Tables.NafLookupTable5.SelectInto | pkg/mod/filippo.io/edwards25519@v1.1.0/tables.go:122-124 | x Q for odd x up to 15 |
| Tables.NafLookupTable8.SelectInto | pkg/mod/filippo.io/edwards25519@v1.1.0/tables.go:127-129 | x Q for odd x up to 127 |
| ScalarMult.ScalarMult | pkg/mod/filippo.io/edwards25519@v1.1.0/scalarmult.go:85-123 | for every scalar x and every valid q, v becomes the valid point x q, also when v is q |
| ScalarBaseMult.BasepointTable | pkg/mod/filippo.io/edwards25519@v1.1.0/scalarmult.go:11-22 | the 32 tables hold the multiples of 256^i B |
| ScalarBaseMult.Interleaved | pkg/mod/filippo.io/edwards25519@v1.1.0/scalarmult.go:36-53 | radix-16 digits split into even ones and 16 times odd ones in radix 256 |
| ScalarBaseMult.ScalarBaseMult | pkg/mod/filippo.io/edwards25519@v1.1.0/scalarmult.go:33-80 | for every scalar x, v becomes x B |
| VarTimeMult.BasepointNafTable | pkg/mod/filippo.io/edwards25519@v1.1.0/scalarmult.go:127-132 | the table holds the odd multiples of B up to 127 B |
| VarTimeMult.VarTimeDoubleScalarBaseMult | pkg/mod/filippo.io/edwards25519@v1.1.0/scalarmult.go:143-214 | for all scalars and every valid A, v becomes a A + b B, also when v is A |
| MultiScalarMult.VarTimeMultiScalarMult | pkg/mod/filippo.io/edwards25519@v1.1.0/extra.go:297-349 | for any number of pairs v becomes the sum of s_i P_i, whatever v held and also when v is one of the points |
| MultiScalarMult.MultiScalarMult | pkg/mod/filippo.io/edwards25519@v1.1.0/extra.go:243-292 | for any number of pairs v becomes 16^63 v0 plus the sum of s_i P_i, where v0 is the receiver on entry; the zero value stays the zero value |
| MultiScalarMult.SumExactlyWhenShiftVanishes | pkg/mod/filippo.io/edwards25519@v1.1.0/extra.go:239-292 | the documented sum comes out if and only if 16^63 v0 is the identity |
| MultiScalarMult.ShiftVanishesOnTorsion | pkg/mod/filippo.io/edwards25519@v1.1.0/extra.go:239-292 | which is if and only if 8 v0 is the identity, given that the group has exponent 8 l |
| MultiScalarMult.ZeroReceiverIsWrong | pkg/mod/filippo.io/edwards25519@v1.1.0/extra.go:243-292 | the zero value as receiver stays no point at all, and its encoding is not the identity's |
| MultiScalarMult.BasepointReceiverIsWrong | pkg/mod/filippo.io/edwards25519@v1.1.0/extra.go:243-292 | a receiver holding the basepoint fails the condition: 8 B is not the identity |
| Sequencer.RunKeeps | pkg/mod/mvdan.cc/gofumpt@v0.7.0/gofmt.go:135-266 | the invariant holds in every reachable state, for any tasks, weights and interleaving |
| Sequencer.OneToken | pkg/mod/mvdan.cc/gofumpt@v0.7.0/gofmt.go:143-152 | exactly one place holds the output state: one channel or one task |
| Sequencer.SendNeverBlocks | pkg/mod/mvdan.cc/gofumpt@v0.7.0/gofmt.go:189-196 | the slot a finished task sends to is always empty |
| Sequencer.OutputInOrder | pkg/mod/mvdan.cc/gofumpt@v0.7.0/gofmt.go:165-169 | once all tasks have sent, the console shows what running them one after the other in the order of Add shows |
| Sequencer.SequentialOut | pkg/mod/mvdan.cc/gofumpt@v0.7.0/gofmt.go:165-169 | which is the concatenation of the tasks' own outputs |
| Sequencer.SequentialErr | pkg/mod/mvdan.cc/gofumpt@v0.7.0/gofmt.go:190-193 | and the error stream is the concatenation of each task's warnings and reports, followed by the error it returned |
| Sequencer.ConsoleExact | pkg/mod/mvdan.cc/gofumpt@v0.7.0/gofmt.go:249-262 | so both streams and the exit code are those of the tasks themselves, in every interleaving |
| Sequencer.NoDeadlock | pkg/mod/mvdan.cc/gofumpt@v0.7.0/gofmt.go:174-197 | unless all goroutines are done, one of them can move |
| Sequencer.AddUnblocks | pkg/mod/mvdan.cc/gofumpt@v0.7.0/gofmt.go:174-197 | while Add blocks, some goroutine can move |
| Sequencer.MovesRunOut | pkg/mod/mvdan.cc/gofumpt@v0.7.0/gofmt.go:174-197 | every move uses up one of a finite number |
| Sequencer.ExitCodeExact | pkg/mod/mvdan.cc/gofumpt@v0.7.0/gofmt.go:207-214 | GetExitCode reads 2 if and only if a task added earlier returned an error or reported one, else 0, in every interleaving |
| Sequencer.ExclusiveAdmitted | pkg/mod/mvdan.cc/gofumpt@v0.7.0/gofmt.go:159-163 | an Add of the whole weight gets through if and only if every task that has not released its weight has weight 0 |
| Sequencer.ExclusiveStartsAlone | pkg/mod/mvdan.cc/gofumpt@v0.7.0/gofmt.go:154-163 | so it starts alone if and only if no task of weight 0 is still running |
| Sequencer.ExclusiveStartsBesideReport | pkg/mod/mvdan.cc/gofumpt@v0.7.0/gofmt.go:201-203 | a run in which it starts while an earlier AddReport has not even got the output state |
| Sequencer.ExclusiveBlocks | pkg/mod/mvdan.cc/gofumpt@v0.7.0/gofmt.go:159-163 | while an exclusive task runs, an Add gets through if and only if its weight is 0 |
| Sequencer.ExclusiveWeight | pkg/mod/mvdan.cc/gofumpt@v0.7.0/gofmt.go:174-197 | whoever shares the time of an exclusive task has weight 0 |
| Sequencer.ExclusiveIsNotAlone | pkg/mod/mvdan.cc/gofumpt@v0.7.0/gofmt.go:207-214 | a run in which GetExitCode's task is added while an exclusive task is running |
| Watcher.RunKeeps | pkg/mod/github.com/go-sql-driver/mysql@v1.9.3/connection.go:625-673 | the invariant holds in every reachable state of connection and watcher |
| Watcher.SendNeverBlocks | pkg/mod/github.com/go-sql-driver/mysql@v1.9.3/connection.go:625-648 | the one slot is free whenever a context is handed over |
| Watcher.ClosedAtMostOnce | pkg/mod/github.com/go-sql-driver/mysql@v1.9.3/connection.go:177-194 | closech is closed at most once |
| Watcher.CleanupEntered | pkg/mod/github.com/go-sql-driver/mysql@v1.9.3/connection.go:177-194 | cleanup can be called whenever the connection is idle, and a second watch leads into it |
| Watcher.CleanupCloses | pkg/mod/github.com/go-sql-driver/mysql@v1.9.3/connection.go:177-194 | in every run, once cleanup has returned, the connection is closed, and closech too unless the watcher is just about to close it |
| Watcher.ShuttingCloses | pkg/mod/github.com/go-sql-driver/mysql@v1.9.3/connection.go:177-187 | which it can do at once |
| Watcher.CleanupReports | pkg/mod/github.com/go-sql-driver/mysql@v1.9.3/connection.go:196-204 | after cleanup error() is ErrInvalidConn unless a context was cancelled |
| Watcher.CanceledCloses | pkg/mod/github.com/go-sql-driver/mysql@v1.9.3/connection.go:478-481 | a cancelled context closes the connection as well |
| Watcher.CanceledBeforeClosed | pkg/mod/github.com/go-sql-driver/mysql@v1.9.3/connection.go:478-481 | if cancel wins the close, canceled holds the error of a context that has ended |
| Watcher.ErrorNamesTheCanceler | pkg/mod/github.com/go-sql-driver/mysql@v1.9.3/connection.go:196-204 | error() is nil exactly while nothing closed the connection, and names the context that did |
| Watcher.AcceptedNeverCloses | pkg/mod/github.com/go-sql-driver/mysql@v1.9.3/connection.go:484-493 | a context whose watch finish has ended never closes the connection at any later point of the run |
| Watcher.FinishReturns | pkg/mod/github.com/go-sql-driver/mysql@v1.9.3/connection.go:484-493 | while finish waits, it can return or the watcher can move |
| Watcher.WatcherComesNearer | pkg/mod/github.com/go-sql-driver/mysql@v1.9.3/connection.go:484-493 | and every such move brings the return nearer |
| Watcher.WatcherEnds | pkg/mod/github.com/go-sql-driver/mysql@v1.9.3/connection.go:650-673 | after the close the watcher can always move on until it is gone |
| Watcher.WatcherShrinks | pkg/mod/github.com/go-sql-driver/mysql@v1.9.3/connection.go:650-673 | and every move brings it nearer to its end |
| Framing.Uint24RoundTrip | pkg/mod/github.com/go-sql-driver/mysql@v1.9.3/utils.go:495-503 | getUint24 and putUint24 undo each other |
| Framing.Uint24IsLittleEndian | pkg/mod/github.com/go-sql-driver/mysql@v1.9.3/utils.go:495-503 | the three bytes lie least significant first |
| Framing.FrameLayout | pkg/mod/github.com/go-sql-driver/mysql@v1.9.3/packets.go:126-175 | where each frame lies, its length, least significant byte first, its number and its piece of the payload |
| Framing.FramesParse | pkg/mod/github.com/go-sql-driver/mysql@v1.9.3/packets.go:41-123 | from any point inside a packet, reading the frames of a payload returns it, consumes exactly the frames and expects the writer's next number; exact multiples of 2^24-1 included |
| Framing.RoundTrip | pkg/mod/github.com/go-sql-driver/mysql@v1.9.3/packets.go:126-175 | for every nonempty payload and starting number, reading what was written gives exactly the payload and equal numbers modulo 256 |
| Framing.EmptyPayloadRefused | pkg/mod/github.com/go-sql-driver/mysql@v1.9.3/packets.go:83-91 | the empty payload does not survive: its frame is taken for a malformed packet |
| Framing.WrongSequence | pkg/mod/github.com/go-sql-driver/mysql@v1.9.3/packets.go:65-123 | a single packet with another number is refused unless it is an error packet |
| Framing.WrongSequenceInside | pkg/mod/github.com/go-sql-driver/mysql@v1.9.3/packets.go:65-83 | a second frame with a wrong number is fatal, whatever it holds |
| Framing.TruncatedRefused | pkg/mod/github.com/go-sql-driver/mysql@v1.9.3/packets.go:41-123 | a stream that ends inside a packet, at whatever byte, is refused |
| Compression.UnpackPacked | pkg/mod/github.com/go-sql-driver/mysql@v1.9.3/compress.go:97-145 | one compressed packet, deflated or stored, unpacks to its piece for every lossless codec |
| Compression.InflatedFrames | pkg/mod/github.com/go-sql-driver/mysql@v1.9.3/compress.go:152-193 | inflating the compressed packets of any byte string gives it back, followed by whatever follows |
| Compression.FirstPacket | pkg/mod/github.com/go-sql-driver/mysql@v1.9.3/compress.go:152-193 | what goes out deflated, what goes out as it is, and the seven header bytes in front of it |
| ReadBuffer.Buffer.Fill | pkg/mod/github.com/go-sql-driver/mysql@v1.9.3/buffer.go:51-90 | however the reader chunks the stream, no byte is lost, repeated or reordered in the overlapping copy; it fails exactly when the stream ends too early; the cached array never shrinks |
| ReadBuffer.Buffer.ReadNext | pkg/mod/github.com/go-sql-driver/mysql@v1.9.3/buffer.go:94-98 | the next bytes, leaving the rest |
| ReadBuffer.Buffer.TakeBuffer | pkg/mod/github.com/go-sql-driver/mysql@v1.9.3/buffer.go:104-121 | refused exactly while unread bytes are there, large enough otherwise, cached up to 256 KiB and never smaller than before |
| ReadBuffer.Buffer.Store | pkg/mod/github.com/go-sql-driver/mysql@v1.9.3/buffer.go:145-149 | keeps the larger array if it is not too large |
| Connection.Connection.ReadCompressedPacket | pkg/mod/github.com/go-sql-driver/mysql@v1.9.3/compress.go:97-145 | in place: moves the bytes of exactly one packet to the inflated ones, or fails where the packet is broken |
| Connection.Connection.ReadNext | pkg/mod/github.com/go-sql-driver/mysql@v1.9.3/packets.go:30-38 | the next n bytes of the plain or inflated stream, and false exactly if there are fewer |
| Connection.Connection.ReadPacket | pkg/mod/github.com/go-sql-driver/mysql@v1.9.3/packets.go:41-123 | the loop with its buffer computes the function Parse of the stream, error cases included, and every failure closes the connection |
| Connection.Connection.CompressedWrite | pkg/mod/github.com/go-sql-driver/mysql@v1.9.3/compress.go:152-193 | appends the compressed packets of the data, or on failure a beginning of them |
| Connection.Connection.WritePacket | pkg/mod/github.com/go-sql-driver/mysql@v1.9.3/packets.go:126-175 | on the array in which headers overwrite bytes already sent: the wire carries the frames of the original payload, the first of which begins with its length and number, the limit on the size decides refusal, and a failure sends a beginning of the frames and closes |
| Connection.WireBegins | pkg/mod/github.com/go-sql-driver/mysql@v1.9.3/packets.go:138-144 | what goes over an uncompressed wire begins with the length of the first piece, least significant byte first, and the number |
| Connection.WireRoundTrip | pkg/mod/github.com/go-sql-driver/mysql@v1.9.3/packets.go:126-175 | plain or through the compression layer, the reader gets exactly the written payload, everything behind it stays, and both numbers agree |
| Connection.WriteCommandLongData | pkg/mod/github.com/go-sql-driver/mysql@v1.9.3/packets.go:936-979 | the chunks concatenate to arg, each with its seven bytes at most maxAllowedPacket - 1, each in a packet of its own with number 0 |
| Connection.ChunkHeadLayout | pkg/mod/github.com/go-sql-driver/mysql@v1.9.3/packets.go:958-965 | the seven bytes in front of a chunk: the command, the statement id and the parameter number, both least significant byte first |
| Connection.ChunkSize | pkg/mod/github.com/go-sql-driver/mysql@v1.9.3/packets.go:936-979 | its loop makes progress if and only if maxAllowedPacket > 8 |
| TomlLexer.Lexer.Next | pkg/mod/github.com/!burnt!sushi/toml@v1.4.1-0.20240526193622-a339e1f7089c/lex.go:149-183 | the next code point, end of file, or an error exactly for malformed input, control characters and a lone carriage return |
| TomlLexer.Lexer.Backup | pkg/mod/github.com/!burnt!sushi/toml@v1.4.1-0.20240526193622-a339e1f7089c/lex.go:191-209 | undoes one Next, line number included |
| TomlLexer.Lexer.Pop | pkg/mod/github.com/!burnt!sushi/toml@v1.4.1-0.20240526193622-a339e1f7089c/lex.go:109-116 | the top of a stack that is never empty |
| TomlLexer.Lexer.Emit | pkg/mod/github.com/!burnt!sushi/toml@v1.4.1-0.20240526193622-a339e1f7089c/lex.go:134-142 | appends one item, which must be one the parser can use next and whose text must be what its type stands for |
| TomlLexer.Lexer.Step | pkg/mod/github.com/!burnt!sushi/toml@v1.4.1-0.20240526193622-a339e1f7089c/lex.go:293-1194 | every state function leaves stack and parser in the shape its successor starts from, has read of the next text what the successor goes on with, emits only items the parser expects there, with the texts their types stand for, and moves on in the input or comes nearer to reading; each one says which code points end the run there and where the others lead |
| TomlLexer.Lexer.Run | pkg/mod/github.com/!burnt!sushi/toml@v1.4.1-0.20240526193622-a339e1f7089c/lex.go:81-103 | from every input the run ends, with exactly one error or end-of-file item, which is the last, with items that are all expected where they come, whose texts are what their types stand for, and with nothing but marks and space between them |
| TomlText.LexemeEnd | pkg/mod/github.com/!burnt!sushi/toml@v1.4.1-0.20240526193622-a339e1f7089c/lex.go:411-1188 | that says where every item ends: the end is determined by the type and the beginning |
| TomlText.ValueDetermined | pkg/mod/github.com/!burnt!sushi/toml@v1.4.1-0.20240526193622-a339e1f7089c/lex.go:928-1167 | and for a number, date or boolean the type is determined by the beginning as well |
| TomlText.NothingLost | pkg/mod/github.com/!burnt!sushi/toml@v1.4.1-0.20240526193622-a339e1f7089c/lex.go:81-142 | every character of an input that was read to its end lies in an item, but for marks and space |
| TomlText.InOrder | pkg/mod/github.com/!burnt!sushi/toml@v1.4.1-0.20240526193622-a339e1f7089c/lex.go:81-142 | and in one only; the items come in the order of the input |
| TomlText.SkipSpaceStops | pkg/mod/github.com/!burnt!sushi/toml@v1.4.1-0.20240526193622-a339e1f7089c/lex.go:228-241 | behind skipped space there is none, so the whitespace cases of lexTableNameEnd and lexKeyEnd are never reached |
| TomlLexer.Lexer.LexValue | pkg/mod/github.com/!burnt!sushi/toml@v1.4.1-0.20240526193622-a339e1f7089c/lex.go:505-570 | what each first character of a value begins: one or three quotes, brackets, digits, signs and letters |
| TomlLexer.Lexer.LexInlineTableValueEnd | pkg/mod/github.com/!burnt!sushi/toml@v1.4.1-0.20240526193622-a339e1f7089c/lex.go:649-676 | behind a pair a comma, and the brace behind it in the next TOML version only |
| TomlLexer.Lexer.LexDecimalNumberStart | pkg/mod/github.com/!burnt!sushi/toml@v1.4.1-0.20240526193622-a339e1f7089c/lex.go:1053-1085 | a sign is followed by digits that begin no base, by inf or by nan |
| TomlLexer.Lexer.LexBaseNumberOrDate | pkg/mod/github.com/!burnt!sushi/toml@v1.4.1-0.20240526193622-a339e1f7089c/lex.go:1090-1128 | a base letter is followed by a digit of the base |
| TomlLexer.Lexer.LexMultilineString | pkg/mod/github.com/!burnt!sushi/toml@v1.4.1-0.20240526193622-a339e1f7089c/lex.go:722-774 | where a multi-line string ends, escapes, goes on or fails: three quotes without a fourth close it, six are an error unless the first is escaped |
| TomlLexer.Lexer.LexMultilineStringEscape | pkg/mod/github.com/!burnt!sushi/toml@v1.4.1-0.20240526193622-a339e1f7089c/lex.go:842-849 | the known escapes, and a newline |
| TomlItems.ConsumedNext | pkg/mod/github.com/!burnt!sushi/toml@v1.4.1-0.20240526193622-a339e1f7089c/parse.go:121-138 | what the parser expects after one more item is one step from what it expected before |
| TomlParser.KeyPartsFine | pkg/mod/github.com/!burnt!sushi/toml@v1.4.1-0.20240526193622-a339e1f7089c/parse.go:168-205 | the loops over the parts of a key never meet a wrong item, and every key has a part |
| TomlParser.ValueFine | pkg/mod/github.com/!burnt!sushi/toml@v1.4.1-0.20240526193622-a339e1f7089c/parse.go:247-282 | a value is always there where one is read |
| TomlParser.ElementsFine | pkg/mod/github.com/!burnt!sushi/toml@v1.4.1-0.20240526193622-a339e1f7089c/parse.go:410-436 | the loop over the elements of an array, at any depth |
| TomlParser.FieldsFine | pkg/mod/github.com/!burnt!sushi/toml@v1.4.1-0.20240526193622-a339e1f7089c/parse.go:438-503 | the loop over the pairs of an inline table, at any depth |
| TomlParser.TopLevelFine | pkg/mod/github.com/!burnt!sushi/toml@v1.4.1-0.20240526193622-a339e1f7089c/parse.go:162-223 | the items at the top level |
| TomlParser.DocumentFine | pkg/mod/github.com/!burnt!sushi/toml@v1.4.1-0.20240526193622-a339e1f7089c/parse.go:79-90 | reading items that are expected where they come ends behind the end of the file, or at the error item, and at no call of bug |
| TomlParser.Parse | pkg/mod/github.com/!burnt!sushi/toml@v1.4.1-0.20240526193622-a339e1f7089c/parse.go:34-91 | for every input, lexing and reading end there: no item of the lexer makes the parser panic with "BUG" |
| TomlLexer.Lexer.LexString | pkg/mod/github.com/!burnt!sushi/toml@v1.4.1-0.20240526193622-a339e1f7089c/lex.go:695-718 | where a basic string ends, escapes, goes on or fails, and the item it emits |
| TomlLexer.Lexer.LexStringEscape | pkg/mod/github.com/!burnt!sushi/toml@v1.4.1-0.20240526193622-a339e1f7089c/lex.go:851-889 | which escapes are known and where each one leads |
| TomlLexer.Lexer.LexShortUnicodeEscape | pkg/mod/github.com/!burnt!sushi/toml@v1.4.1-0.20240526193622-a339e1f7089c/lex.go:902-911 | goes on exactly after four hexadecimal digits |
| TomlLexer.Lexer.LexLongUnicodeEscape | pkg/mod/github.com/!burnt!sushi/toml@v1.4.1-0.20240526193622-a339e1f7089c/lex.go:913-922 | goes on exactly after eight hexadecimal digits |
| TomlQuoting.ReplaceEscapes | pkg/mod/github.com/!burnt!sushi/toml@v1.4.1-0.20240526193622-a339e1f7089c/parse.go:765-827 | the loop with builder and skip counter computes the text with its escapes resolved, refuses an escape that stands for no character, and says where it would call bug |
| TomlQuoting.UnescapeShort | pkg/mod/github.com/!burnt!sushi/toml@v1.4.1-0.20240526193622-a339e1f7089c/parse.go:829-846 | for every number below 2^16, its four hexadecimal digits in either case stand for that character, surrogates for none |
| TomlQuoting.UnescapeLong | pkg/mod/github.com/!burnt!sushi/toml@v1.4.1-0.20240526193622-a339e1f7089c/parse.go:829-846 | for every number below 2^32, its eight digits likewise, and numbers from 0x110000 on for none |
| TomlQuoting.EscapeTable | pkg/mod/github.com/!burnt!sushi/toml@v1.4.1-0.20240526193622-a339e1f7089c/encode.go:30-66 | what the replacer writes for each character, and that it writes every other one as it is |
| TomlQuoting.ResolvedReplace | pkg/mod/github.com/!burnt!sushi/toml@v1.4.1-0.20240526193622-a339e1f7089c/encode.go:30-66 | for every string, what the replacer writes resolves to the string |
| TomlQuoting.ClosingReplace | pkg/mod/github.com/!burnt!sushi/toml@v1.4.1-0.20240526193622-a339e1f7089c/lex.go:695-718 | the lexer closes a written string exactly at the writer's closing quote, whatever follows |
| TomlQuoting.ClosingNeverBugs | pkg/mod/github.com/!burnt!sushi/toml@v1.4.1-0.20240526193622-a339e1f7089c/parse.go:765-846 | on every text the lexer lets through between quotes it never does |
| TomlQuoting.WriteReadString | pkg/mod/github.com/!burnt!sushi/toml@v1.4.1-0.20240526193622-a339e1f7089c/encode.go:339-341 | writing, scanning and resolving gives back every string |
| TomlQuoting.PrefixFree | pkg/mod/github.com/!burnt!sushi/toml@v1.4.1-0.20240526193622-a339e1f7089c/encode.go:30-66 | the escape table is a prefix-free code |
| TomlQuoting.ReplaceUnique | pkg/mod/github.com/!burnt!sushi/toml@v1.4.1-0.20240526193622-a339e1f7089c/encode.go:30-66 | an escaped text followed by a quote determines the string and what follows |
| TomlQuoting.KeyToString | pkg/mod/github.com/!burnt!sushi/toml@v1.4.1-0.20240526193622-a339e1f7089c/meta.go:96-121 | the loops of Key.String compute the joined parts |
| TomlQuoting.KeyStringInjective | pkg/mod/github.com/!burnt!sushi/toml@v1.4.1-0.20240526193622-a339e1f7089c/meta.go:96-121 | two key paths with one string are equal |
| TomlQuoting.OnePartString | pkg/mod/github.com/!burnt!sushi/toml@v1.4.1-0.20240526193622-a339e1f7089c/meta.go:96-134 | a part that can be bare comes out unquoted, every other one quoted and escaped |
| TomlStrings.RunEscape | pkg/mod/github.com/!burnt!sushi/toml@v1.4.1-0.20240526193622-a339e1f7089c/lex.go:851-922 | the lexer takes exactly as many characters of an escape as the scan says, and fails exactly where it refuses |
| TomlStrings.RunString | pkg/mod/github.com/!burnt!sushi/toml@v1.4.1-0.20240526193622-a339e1f7089c/lex.go:695-718 | the lexer's states emit exactly the text up to the closing quote the scan finds, marked as escaped exactly if it has a backslash, or end in an error |
| TomlStrings.RunRaw | pkg/mod/github.com/!burnt!sushi/toml@v1.4.1-0.20240526193622-a339e1f7089c/lex.go:778-794 | the raw-string item runs exactly to the first single quote, and the run ends in an error exactly if a newline, the end or an unreadable code point comes first |
| TomlStrings.RunMultiRaw | pkg/mod/github.com/!burnt!sushi/toml@v1.4.1-0.20240526193622-a339e1f7089c/lex.go:799-838 | the multi-line raw-string item runs exactly to the first three quotes without a fourth, and the run ends in an error exactly if the end, an unreadable code point, also just behind those quotes, or six quotes come first |
| TomlStrings.ReadString | pkg/mod/github.com/!burnt!sushi/toml@v1.4.1-0.20240526193622-a339e1f7089c/parse.go:247-253 | the parser's value of the emitted item is the meaning of the text behind the opening quote, and it panics on none |
| TomlStrings.WrittenMeansItself | pkg/mod/github.com/!burnt!sushi/toml@v1.4.1-0.20240526193622-a339e1f7089c/encode.go:339-341 | and a written string means itself, whatever follows it |

## Findings

Where the code does not do what its documentation says. The model follows the code.

- **`Point.MultiScalarMult` depends on its receiver** (extra.go:239-292). It never resets v, so it
  computes 16^63 v0 plus the documented sum (`MultiScalarMult.MultiScalarMult`). Exact condition:
  `SumExactlyWhenShiftVanishes`, which is 8 v0 = identity by `ShiftVanishesOnTorsion`. Failing inputs:
  the zero value `NO_POINT` (`ZeroReceiverIsWrong`) and the basepoint (`BasepointReceiverIsWrong`).
  `VarTimeMultiScalarMult` does not have this dependence.
- **The limb bound in the comment of `Element` is too weak for `Subtract`** (field/fe.go:24-27 and
  101-110). Exact condition: no limb borrows (`SubtractCorrectIff`). Failing input: 0 minus an element
  whose second limb is 2^52 - 1 (`DocumentedBoundTooWeak`). It is the comment that fails, not a
  reachable value: every operation leaves limbs under the smaller bound, which never borrow
  (`BoundedNeverBorrows`).
- **Exclusive tasks of the sequencer are not alone** (gofmt.go:154-163). Tasks of weight 0, which
  AddReport and GetExitCode add, run beside them. Exact conditions: `ExclusiveAdmitted` and
  `ExclusiveStartsAlone` for the start, `ExclusiveBlocks` for the time it runs. Failing runs:
  `ExclusiveStartsBesideReport` and `ExclusiveIsNotAlone`.
- **An empty payload does not survive framing** (packets.go:83-91): `EmptyPayloadRefused`; every
  nonempty one does (`RoundTrip`).
- **`writeCommandLongData` needs maxAllowedPacket > 8** to make progress (packets.go:936-979):
  `ChunkSize`.
- The comment in `Element.Invert` speaks of 255 squarings; the chain has 254. The search for the first
  nonzero digit in `VarTimeDoubleScalarBaseMult` has no effect on the result. The whitespace and
  end-of-file cases of `lexQuotedName` are never reached, nor are the whitespace cases behind skipped
  whitespace in `lexTableNameEnd` and `lexKeyEnd`.
- The comment on floats (lex.go:1130-1132) calls them a first approximation; besides inf and nan, the
  test in `lexValue` (lex.go:547-551) also takes nnf, ian, inan and nnan for floats. `FloatWord` in
  module TomlText lists them; it is left to the parser to refuse them.

## Left out

- The server's own code (`src/Graduation_Server/api`) is routing and database wiring only.
- Montgomery.MontgomeryMul: the functions of scalar_fiat.go return their four words where the source
  writes through out1; aliasing is covered by the methods of the class Scalar, which overwrite the receiver.
- TomlLexer.Lexer.Step: that a state reads on where it could, rather than end the run in an error, is
  stated by the state functions one by one; for words that begin with i or n, and for the letters of
  booleans, only that what is emitted is right.
- TomlParser.Parse: the parser's way through the items is written as functions of the items left; the
  tables it fills, its complaints about keys and values, and its test of the two words of a boolean are not
  modelled. Each of these can only stop it earlier.
- Points.Point.Add: the point classes hold their field elements as values with the contracts of class
  Element; aliasing of whole points is modelled, sharing of one element between points is not.
- Associativity of the curve group and primality of p and l are hypotheses.
- Panics for uninitialised points, for mismatched slice lengths and for widths outside 2 to 8 are
  preconditions; `sync.Once` is replaced by tables passed as arguments.
- Assembly back ends and constant time; masks and shifts are written as remainders and quotients where
  that is their meaning, and as bit operations where it is not.
- `BytesMontgomery`, and `ExtendedCoordinates`, which only copies.
- Sequencer: the weighted semaphore is a counter and there is one adding goroutine; an error of
  `Acquire` cannot occur with the background context.
- The rest of gofumpt, the driver's TLS, dialling, authentication, time formats and database/sql glue.
- Read errors other than the end of the stream; failed and partial writes are decided by the number of
  bytes the connection still takes. zlib is an abstract codec.
- Length-encoded integers and strings, `takeSmallBuffer` and `takeCompleteBuffer`: easy members.
- TOML dates, floats, numbers as values, reflection, multi-line strings on the parser's side, and the
  escapes of TOML 1.1 there; the byte-order mark.
- Lexer positions count code points, and every code point counts as one unit in `prevWidths`.
- fsnotify, pty, colour, pprof, air, jwt, mux and websocket.
