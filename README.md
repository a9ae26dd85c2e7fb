# Arcs dice: a verified model of the probability-generating-function engine

This project models `src/lib/posts/arcs-dice/dice.ts` of wretched.computer. That file computes dice
probabilities for the board game Arcs with probability generating functions (PGFs):

- A die is a sparse multivariate polynomial. For each combination of symbols a face shows
  (hits, self-hits, building hits, keys, …), the polynomial has one term. The term's
  coefficient counts the faces, and its exponents count the symbols.
- A `Dicetower` rolls dice of several kinds. Its joint PGF is the product Π pᵢ ** nᵢ.
- `calculateProbabilities` evaluates that product at powers of a decimal base. This packs
  every coefficient of the joint PGF into one big integer, the `CoefficientString`.
- `CoefficientString.query` reads one coefficient back as (n / shift) % base.
- `buildComparativeDistribution` reads a two-variable table out of that integer.

The model is organised as follows:

| module | file | what it holds |
|---|---|---|
| `Errors` | errors.dfy | the thrown errors as values: `Result`, and `Outcome` for methods that only throw or succeed |
| `Arith` | arith.dfy | powers; BigInt truncating `/` and `%` (`TDiv`, `TMod`); the integer `ceil(log10(m + 1))` |
| `Text` | text.dfy | decimal rendering of integers as a template literal does it; `join` |
| `Polynomial` | polynomial.dfy | `MultiPolynomialTerm` as the `Term` datatype; `MultiPolynomial` as a class that mutates its term list, plus its value `Poly` with `evaluate`, `degrees`, `maxCoefficient` and `stringify` |
| `Dice` | dice.dfy | `Die` and its four factories |
| `Expansion` | expansion.dfy | the symbolic expansion of Π pᵢ ** nᵢ into terms (`Joint`) and the facts about it |
| `Encoding` | encoding.dfy | `CoefficientString` and its `query`, the band weights `calculateProbabilities` assigns (as written and corrected), and digit extraction |
| `Tower` | tower.dfy | `Dicetower` as a class, plus the theorems that say what its encodings and tables mean |
| `Scenarios` | scenarios.dfy | the repository's worked examples, and the input that separates the as-written encoding from the corrected one |

The model's semantics:

- BigInt arithmetic is exact integer arithmetic.
- A `throw` is an `Err`/`Fail` result, and so is a BigInt division by zero.
- Reading past the end of a JavaScript array gives `undefined`:
  - as an operand, it is `Err(UndefinedOperand)`;
  - as the name of a variable with exponent 1, it is dropped by the filter, so no factor prints;
  - as the name inside `name^{d}`, the template literal prints the string "undefined";
  - in a comparison, it is false.

The central result is about `query`:

- Take fair dice (every coefficient a non-negative face count, summing to the number of
  faces) and an exponent vector within the degrees.
- `query` returns the sum of the joint coefficients whose exponent vector has the same
  weighted band index. No carry ever crosses bands, because the base exceeds the number
  of outcomes.
- With the corrected weights, or with the as-written weights when at most two variables
  are tracked, that sum is exactly the number of outcomes showing those totals. Variables
  masked out by `isolateVariables` are summed over.
- As written, with three or more tracked variables, different exponent vectors can share
  a band. See Findings.

## Model

| member | source | states |
|---|---|---|
| Polynomial.EvaluateTerm | src/lib/posts/arcs-dice/dice.ts:32-37 | fails with a dimension error exactly when the value vector's length differs from the term's; a constant term evaluates to its coefficient and a zero coefficient to 0 |
| Polynomial.MonomialOfZeroVector | src/lib/posts/arcs-dice/dice.ts:36 | the product Π v[i] ** 0 is 1 at every point, 0 ** 0 included |
| Polynomial.EvaluateTerms | src/lib/posts/arcs-dice/dice.ts:54-56 | the reduce fails exactly when some term's width differs from the vector's, and otherwise is the sum of the term values |
| Polynomial.Poly.Evaluate | src/lib/posts/arcs-dice/dice.ts:54-56 | a polynomial without terms is 0 at any vector; a well-formed polynomial evaluates at a vector of its width and fails with a dimension error at any other; a value it returns is the sum of its terms' values |
| Polynomial.MaxExpIsMaximum | src/lib/posts/arcs-dice/dice.ts:58-68 | the per-variable degree bounds every term's exponent and is attained by some term, or is 0 |
| Polynomial.MaxExpCharacterised | src/lib/posts/arcs-dice/dice.ts:58-68 | the degree is the unique bound that every term respects and one term reaches |
| Polynomial.Degrees | src/lib/posts/arcs-dice/dice.ts:58-68 | the in-place loop over a zero-filled array returns one entry per variable, equal to that variable's largest exponent over all terms |
| Polynomial.MaxExpStep | src/lib/posts/arcs-dice/dice.ts:62-64 | one step of the running maximum: the new exponent replaces the maximum only when it is larger |
| Polynomial.MaxCoeff | src/lib/posts/arcs-dice/dice.ts:70-72 | the result is at least 0 and at least every coefficient, and equals some coefficient unless it is 0 |
| Polynomial.Poly.MaxCoefficient | src/lib/posts/arcs-dice/dice.ts:70-72 | the same three facts for a polynomial's terms |
| Polynomial.StringifyTerm | src/lib/posts/arcs-dice/dice.ts:13-30 | a term prints nothing exactly when its coefficient is 0; when no variable shows a factor (every exponent 0, or 1 on an unnamed variable) it prints its coefficient; otherwise a coefficient of 1 prints only the factors and any other prints coefficient and factors juxtaposed |
| Polynomial.Factor | src/lib/posts/arcs-dice/dice.ts:18-22 | a variable contributes no factor exactly when its exponent is 0, or 1 with no name; above 1 a missing name prints as "undefined" |
| Polynomial.Factors | src/lib/posts/arcs-dice/dice.ts:17-23 | the surviving factors are as many as the variables with exponent above 1, or exactly 1 and a name |
| Polynomial.ShownCountZero | src/lib/posts/arcs-dice/dice.ts:24-25 | the `variables.length === 0` branch is taken exactly when no variable shows a factor |
| Polynomial.NamedFactorsShown | src/lib/posts/arcs-dice/dice.ts:17-25 | when every variable has a name, no factor shows exactly when the term is a constant |
| Polynomial.PrintedTerms | src/lib/posts/arcs-dice/dice.ts:78-80 | the filter keeps one string per term with a non-zero coefficient, and leaves none exactly when every coefficient is 0 |
| Polynomial.PrintedTermsSnoc | src/lib/posts/arcs-dice/dice.ts:78-80 | appending a term appends its string after the earlier ones, or nothing when its coefficient is 0 |
| Polynomial.Poly.Stringify | src/lib/posts/arcs-dice/dice.ts:74-82 | prints "0" when there are no terms and "" when there are terms but every coefficient is 0 |
| Polynomial.StringifyAfterAddTerm | src/lib/posts/arcs-dice/dice.ts:74-82 | after adding a term: a zero coefficient leaves the string as it was (the first one turns "0" into ""); the first printable term prints alone; a later one is appended after " + " |
| Polynomial.MultiPolynomial.constructor | src/lib/posts/arcs-dice/dice.ts:40-44 | a new polynomial has the given width and no terms |
| Polynomial.MultiPolynomial.AddTerm | src/lib/posts/arcs-dice/dice.ts:46-52 | a term of another width fails with a dimension error and changes nothing; otherwise exactly that term is appended and the polynomial stays well formed |
| Dice.CreateStandardDie | src/lib/posts/arcs-dice/dice.ts:89-95 | the loop builds x + x² + … + xⁿ over one variable, term k being x^(k+1) with coefficient 1, and the die is fair with n faces |
| Dice.CreateAssaultDie | src/lib/posts/arcs-dice/dice.ts:97-105 | the assault die's five terms over (h, s, b, n, k), six faces, fair |
| Dice.CreateSkirmishDie | src/lib/posts/arcs-dice/dice.ts:107-112 | the skirmish die's two terms, six faces, fair |
| Dice.CreateRaidDie | src/lib/posts/arcs-dice/dice.ts:114-122 | the raid die's five terms, six faces, fair |
| Dice.CoefSumAppend | src/lib/posts/arcs-dice/dice.ts:92 | appending a term adds its coefficient to the face count |
| Arith.TDiv | src/lib/posts/arcs-dice/dice.ts:131 | BigInt `/` truncates toward zero: the quotient's magnitude is the floor of abs(x) / abs(d), its sign is that of x · d (0 allowed), and on non-negative operands it is floor division |
| Arith.TMod | src/lib/posts/arcs-dice/dice.ts:131 | BigInt `%` satisfies x == TDiv(x, d) · d + r, and it agrees with the Euclidean remainder on non-negative operands |
| Arith.Log10Above | src/lib/posts/arcs-dice/dice.ts:188-189 | the exponent k is the smallest with 10 ** k above m |
| Text.NatToString | src/lib/posts/arcs-dice/dice.ts:25 | a rendered number is a non-empty digit string without leading zeros |
| Text.NatToStringRoundTrip | src/lib/posts/arcs-dice/dice.ts:222 | the digits read back to the number |
| Text.NatToStringInjective | src/lib/posts/arcs-dice/dice.ts:227 | distinct counts never print alike |
| Text.IntToString | src/lib/posts/arcs-dice/dice.ts:25 | the rendering starts with '-' exactly for negative numbers |
| Text.Join | src/lib/posts/arcs-dice/dice.ts:81 | joining one part gives that part and joining none gives "" |
| Text.JoinSnoc | src/lib/posts/arcs-dice/dice.ts:81 | joining one more part appends the separator and that part |
| Expansion.PolySumScale | src/lib/posts/arcs-dice/dice.ts:173 | multiplying every term by t multiplies the value by t's value |
| Expansion.ExpandEval | src/lib/posts/arcs-dice/dice.ts:173 | the expanded product of the rolls evaluates, at every point, to the product of their values |
| Expansion.CoefSumIsValueAtOnes | src/lib/posts/arcs-dice/dice.ts:182-185 | a polynomial's coefficient sum is its value at the all-ones point |
| Expansion.NonNegativeExpand | src/lib/posts/arcs-dice/dice.ts:182-185 | expanding products of face counts never yields a negative count |
| Expansion.SumDegRepeat | src/lib/posts/arcs-dice/dice.ts:163 | m rolls of one die reach m times its degree in each variable |
| Expansion.JointEval | src/lib/posts/arcs-dice/dice.ts:169-174 | the tower's product Π pᵢ(v) ** nᵢ is the value of its expanded joint PGF at v |
| Expansion.JointShape | src/lib/posts/arcs-dice/dice.ts:158-167 | every expanded term has the tower's width, a non-negative count and no variable total above the tower's degree |
| Expansion.JointTotal | src/lib/posts/arcs-dice/dice.ts:176-185 | for fair dice the joint coefficients add up to Π facesᵢ ** nᵢ: every outcome is counted once |
| Encoding.CoefficientString.Query | src/lib/posts/arcs-dice/dice.ts:129-132 | a vector shorter than the basis is an undefined operand; with a non-zero base the query succeeds exactly when the shift is non-zero; a successful query of a non-negative number at a positive shift lies in [0, base) |
| Encoding.BandsAsWrittenKinds | src/lib/posts/arcs-dice/dice.ts:195-206 | a variable is evaluated at 0 exactly when its degree is 0, and at a power of the base exactly when it is tracked (occurs and is not masked out) |
| Encoding.MonomialAtBands | src/lib/posts/arcs-dice/dice.ts:130 | at the band points, a monomial that avoids the zero points is base ** its weight |
| Encoding.MonomialAtZeroBand | src/lib/posts/arcs-dice/dice.ts:130 | a positive exponent of a variable evaluated at 0 makes the shift 0 |
| Encoding.DigitExtraction | src/lib/posts/arcs-dice/dice.ts:182-189 | when the coefficients total less than the base, digit band k of the packed value is the sum of the coefficients of weight k |
| Encoding.QueryIsBandSum | src/lib/posts/arcs-dice/dice.ts:129-132 | for any band assignment, querying the packed value at a vector that avoids the zero points returns the coefficient sum of its band |
| Encoding.QueryDefined | src/lib/posts/arcs-dice/dice.ts:129-132 | a query never fails at a vector that avoids the zero points |
| Encoding.QueryAtZeroPoint | src/lib/posts/arcs-dice/dice.ts:129-132 | asking for a positive exponent of a variable evaluated at 0 divides by zero |
| Encoding.WithinDegreesAvoids | src/lib/posts/arcs-dice/dice.ts:195-198 | a vector within the degrees avoids the zero points of both band assignments |
| Encoding.CorrectedWeightIsRadix | src/lib/posts/arcs-dice/dice.ts:202-204 | the corrected weights are the mixed-radix place values (radix degree + 1) of the tracked variables |
| Encoding.RadixInjective | src/lib/posts/arcs-dice/dice.ts:202-204 | within the degrees, two vectors have the same mixed-radix value exactly when they agree on the tracked variables |
| Encoding.CorrectedWeightSeparates | src/lib/posts/arcs-dice/dice.ts:190-192 | corrected weights of two vectors within the degrees are equal exactly when the vectors agree on every tracked variable, as the source's comment asks |
| Encoding.AsWrittenAgreesUpToTwo | src/lib/posts/arcs-dice/dice.ts:202-204 | with at most two tracked variables, the as-written bands are the corrected ones |
| Encoding.CorrectedBandIsTracked | src/lib/posts/arcs-dice/dice.ts:202-204 | with corrected weights, the band of e holds exactly the terms that agree with e on the tracked variables |
| Encoding.TrackedIsJoint | src/lib/posts/arcs-dice/dice.ts:199 | without a mask, that tracked count is the joint coefficient of x^e |
| Tower.TowerDegrees | src/lib/posts/arcs-dice/dice.ts:158-167 | one entry per variable, each Σ nᵢ · degreeᵢ |
| Tower.TowerDegAppend | src/lib/posts/arcs-dice/dice.ts:159-166 | adding a die m times adds m times its degree to every variable |
| Tower.TowerProductAppend | src/lib/posts/arcs-dice/dice.ts:173 | adding a die m times multiplies the value by the die's value ** m |
| Tower.TowerTotalAppend | src/lib/posts/arcs-dice/dice.ts:178 | adding a die m times multiplies the number of outcomes by faces ** m |
| Tower.UnrolledEntryChangesNothing | src/lib/posts/arcs-dice/dice.ts:150-178 | a die added 0 times changes neither the degrees, nor the value at any point, nor the number of outcomes |
| Tower.BaseFor | src/lib/posts/arcs-dice/dice.ts:185-189 | the base is at least 1 and exceeds the number of outcomes |
| Tower.EvaluateDice | src/lib/posts/arcs-dice/dice.ts:173 | for dice of the vector's width, the reduce is Π pᵢ(v) ** nᵢ |
| Tower.JointFacts | src/lib/posts/arcs-dice/dice.ts:182-206 | the joint PGF of fair dice is uniform, non-negative, within the degrees, avoids the zero bands and totals the number of outcomes |
| Tower.EncodeQueryIsBandSum | src/lib/posts/arcs-dice/dice.ts:181-209 | for fair dice and e within the degrees, querying the as-written encoding returns the number of outcomes in e's band, which is all the as-written weights guarantee |
| Tower.EncodeQueryAtAbsentVariable | src/lib/posts/arcs-dice/dice.ts:196-198 | asking for a positive count of a variable no die shows divides by zero rather than answering 0 |
| Tower.AsWrittenZeroBandsAbsent | src/lib/posts/arcs-dice/dice.ts:196-198 | an as-written variable is evaluated at 0 only when no die shows it |
| Tower.CorrectedZeroBandsAbsent | src/lib/posts/arcs-dice/dice.ts:196-198 | the same for the corrected bands |
| Tower.CorrectedQueryIsJointCount | src/lib/posts/arcs-dice/dice.ts:181-209 | with corrected weights, a query within the degrees is the number of outcomes agreeing with e on the tracked variables, and without a mask it is the joint coefficient of x^e |
| Tower.EncodeQueryUpToTwoTracked | src/lib/posts/arcs-dice/dice.ts:181-209 | with at most two tracked variables, the as-written query is that exact count |
| Tower.BandsAsWrittenStep | src/lib/posts/arcs-dice/dice.ts:195-206 | one step of the `prevDegree`/`prevExp` recurrence: a value of 0, of 1, or base ** (prevDegree · prevExp + 1) followed by the updated pair |
| Tower.EncodeAtPoints | src/lib/posts/arcs-dice/dice.ts:208 | the returned string holds the base, the points and the joint PGF's value there |
| Tower.DieTerm | src/lib/posts/arcs-dice/dice.ts:218-224 | a die prints nothing exactly when it is rolled 0 times |
| Tower.DieTermShowsMultiplicity | src/lib/posts/arcs-dice/dice.ts:222 | a die rolled more than once prints `(p)^` followed by digits that read back as its multiplicity |
| Tower.TowerString | src/lib/posts/arcs-dice/dice.ts:211-229 | the tower prints `lhs = 1` exactly when it has a single outcome |
| Tower.DiceTermsAppend | src/lib/posts/arcs-dice/dice.ts:217-226 | the dice print in insertion order: adding a die appends `(p)`, `(p)^n` for n > 1, or nothing for n = 0 |
| Tower.StringifyAfterAddDice | src/lib/posts/arcs-dice/dice.ts:211-229 | after adding a die n times the outcome count is multiplied by faces ** n; the tower prints `lhs = 1` if that count is 1, and otherwise the scaling factor, the earlier dice, then the new die's term |
| Tower.TowerStringIgnoresUnrolled | src/lib/posts/arcs-dice/dice.ts:211-229 | adding a die 0 times leaves the printed tower unchanged |
| Tower.PairMask | src/lib/posts/arcs-dice/dice.ts:232-233 | the mask has the tower's width and selects exactly the two chosen variables |
| Tower.Cell | src/lib/posts/arcs-dice/dice.ts:244-246 | the queried vector holds b at idxB, a at idxA when the indices differ, and 0 elsewhere |
| Tower.PairTracksAtMostTwo | src/lib/posts/arcs-dice/dice.ts:232-233 | the two-variable mask tracks at most two variables |
| Tower.TrackedIsCellCoef | src/lib/posts/arcs-dice/dice.ts:244-246 | under the two-variable mask, the tracked count at cell (a, b) is the number of outcomes with those two totals |
| Tower.CellWithin | src/lib/posts/arcs-dice/dice.ts:241-246 | every cell of the table lies within the degrees |
| Tower.ComparativeCellIsCount | src/lib/posts/arcs-dice/dice.ts:231-251 | for fair dice, the query at cell (a, b) is the number of outcomes whose idxA total is a and idxB total is b (both b when the two indices are equal) |
| Tower.ComparativeTableTotal | src/lib/posts/arcs-dice/dice.ts:239-251 | for two different variables, the cells add up to the number of outcomes, so the probabilities add up to 1 |
| Tower.JointCovered | src/lib/posts/arcs-dice/dice.ts:241-243 | every outcome's two totals lie within the table's ranges |
| Tower.GridSumIsTotal | src/lib/posts/arcs-dice/dice.ts:241-251 | summing the per-cell counts over the grid counts every term once |
| Tower.TableSumIsGridSum | src/lib/posts/arcs-dice/dice.ts:241-251 | a table that matches the per-cell counts sums to the grid sum |
| Tower.ComparativeTableMeaning | src/lib/posts/arcs-dice/dice.ts:231-258 | a table read out of the encoding holds outcome counts per cell, and for two different variables it accounts for every outcome once |
| Tower.EncodePairDefined | src/lib/posts/arcs-dice/dice.ts:241-247 | no cell of the table asks for a variable evaluated at 0, so every query succeeds |
| Tower.ReadRow | src/lib/posts/arcs-dice/dice.ts:242-249 | the inner loop returns degB + 1 entries, entry b being the query at cell (a, b) |
| Tower.ReadTable | src/lib/posts/arcs-dice/dice.ts:240-251 | the outer loop returns degA + 1 rows of degB + 1 entries, each the query at its cell |
| Tower.Dicetower.constructor | src/lib/posts/arcs-dice/dice.ts:135-140 | a new tower has the given width and no dice |
| Tower.Dicetower.AddDice | src/lib/posts/arcs-dice/dice.ts:150-156 | a die of another width fails with a dimension error and changes nothing; otherwise the die and its multiplicity are appended together and the tower stays well formed |
| Tower.AddScaled | src/lib/posts/arcs-dice/dice.ts:162-164 | the inner loop adds numDice times each of the die's degrees to the accumulator, entry by entry, in place |
| Tower.Dicetower.Degrees | src/lib/posts/arcs-dice/dice.ts:158-167 | the in-place accumulation returns, per variable, Σ nᵢ · degreeᵢ |
| Tower.Dicetower.Evaluate | src/lib/posts/arcs-dice/dice.ts:169-174 | a vector of another width fails with a dimension error; otherwise the result is the joint PGF's value at the vector |
| Tower.Dicetower.TotalOutcomes | src/lib/posts/arcs-dice/dice.ts:176-179 | the count is non-negative, 1 for no dice, and for fair dice the sum of all joint coefficients |
| Tower.EvaluationPoints | src/lib/posts/arcs-dice/dice.ts:193-206 | the map over the degrees, with its running prevDegree and prevExp, yields exactly the points of the as-written bands: 0 for a variable of degree 0, 1 for one the mask sums out, and otherwise base ** (prevDegree · prevExp + 1) |
| Tower.Dicetower.CalculateProbabilities | src/lib/posts/arcs-dice/dice.ts:181-209 | the loop over the degrees builds exactly the as-written encoding, whose queries the Encode lemmas above characterise |
| Tower.Dicetower.Stringify | src/lib/posts/arcs-dice/dice.ts:211-229 | the printed tower is its left-hand side and `= 1` exactly when there is one outcome; how it grows with each added die is Tower.StringifyAfterAddDice |
| Tower.Dicetower.BuildComparativeDistribution | src/lib/posts/arcs-dice/dice.ts:231-258 | ranges are the two degrees; the table has one cell per pair of totals, holding the query's answer; for fair dice each cell is the number of outcomes with those totals; for two different variables the table sums to the number of outcomes |
| Tower.Dicetower.CreateArcsTower | src/lib/posts/arcs-dice/dice.ts:142-148 | a fresh five-variable tower of skirmish, assault and raid dice, in that order, with the given multiplicities, all fair |
| Scenarios.SampleEvaluates | src/lib/posts/arcs-dice/dice.spec.ts:18-28 | the sample polynomial evaluates to 0, 2 and 56 at the repository's points, and fails at a vector of the wrong width |
| Scenarios.SampleDegrees | src/lib/posts/arcs-dice/dice.spec.ts:30-45 | the sample's degrees are 2 and 3 |
| Scenarios.SampleMaxCoefficient | src/lib/posts/arcs-dice/dice.spec.ts:47-58 | the sample's largest coefficient is 5, and 0 with no terms |
| Scenarios.UnnamedVariables | src/lib/posts/arcs-dice/dice.ts:17-25 | with no names, 3x prints as "3" and x² prints as "undefined^{2}"; an unnamed second variable with exponent 1 is dropped |
| Scenarios.SampleTerms | src/lib/posts/arcs-dice/dice.spec.ts:5-16 | the sample's terms print as "2", "3x", "y" and "5x^{2}y", and the zero term prints nothing |
| Scenarios.SampleStringifies | src/lib/posts/arcs-dice/dice.spec.ts:5-16 | the sample prints "0", then "2", then "2 + 3x + y + 5x^{2}y" |
| Scenarios.HandBuiltQueries | src/lib/posts/arcs-dice/dice.spec.ts:70-86 | the hand-built coefficient string returns 18, 13, 12, 7 and 9 |
| Scenarios.FourAssaultDegrees | src/lib/posts/arcs-dice/dice.spec.ts:89-93 | four assault dice have degrees [8, 4, 0, 4, 0] |
| Scenarios.OneD6Evaluates | src/lib/posts/arcs-dice/dice.spec.ts:95-101 | one d6 at x = 10 is 1111110, also with a second d6 rolled 0 times |
| Scenarios.OutcomeCounts | src/lib/posts/arcs-dice/dice.spec.ts:123-129 | 4d6 have 1296 outcomes, and 4d6 with 2d4 have 1296 · 16 |
| Scenarios.TwoD6Encoding | src/lib/posts/arcs-dice/dice.ts:181-209 | 2d6 encode at base 100 with the single variable at 100 |
| Scenarios.TwoD6Distribution | src/lib/posts/arcs-dice/dice.spec.ts:103-121 | reading the 2d6 encoding gives 0, 0, 1, 2, …, 6, …, 2, 1, 0 for totals 0 to 13 |
| Scenarios.AsWrittenEncoding | src/lib/posts/arcs-dice/dice.ts:202-204 | as written, three tracked variables of degree 1 get weights 1, 2 and 3 |
| Scenarios.AsWrittenCollision | src/lib/posts/arcs-dice/dice.ts:202-204 | as written, the query for z alone on the die {xy, z} answers 2 although exactly one outcome shows z |
| Scenarios.CorrectedEncoding | src/lib/posts/arcs-dice/dice.ts:202-204 | with corrected weights the same die gets weights 1, 2 and 4 |
| Scenarios.CorrectedCounts | src/lib/posts/arcs-dice/dice.ts:202-204 | the corrected encoding answers 1 for z alone, the joint coefficient |
| Scenarios.FourAssaultWeights | src/lib/posts/arcs-dice/dice.spec.ts:136-144 | the repository's four-assault-dice encoding tracks three variables: as written, (6, 2, 0, 0, 0) and (3, 0, 0, 1, 0) share band 24; corrected weights separate them |
| Scenarios.AssaultPrints | src/lib/posts/arcs-dice/dice.spec.ts:61-67 | the assault die prints as `1 + h^{2} + h^{2}s + hn + 2hs` |
| Scenarios.SkirmishPrints | src/lib/posts/arcs-dice/dice.spec.ts:61-67 | the skirmish die prints as `3 + 3h` |
| Scenarios.RaidPrints | src/lib/posts/arcs-dice/dice.spec.ts:61-67 | the raid die prints as `nk^{2} + hk + bk + 2hb + n` |
| Scenarios.ArcsTotal | src/lib/posts/arcs-dice/dice.spec.ts:131-134 | one skirmish and four assault dice have 7776 outcomes |
| Scenarios.ArcsTowerPrints | src/lib/posts/arcs-dice/dice.ts:211-229 | that tower prints `D(h, s, b, n, k) = \dfrac{1}{7776}(3 + 3h)(1 + h^{2} + h^{2}s + hn + 2hs)^4` |
| Scenarios.ArcsTowerEndsInBareFour | src/lib/posts/arcs-dice/dice.ts:222 | the printed tower ends in `^4`, without braces |

## Left out

- Floating point. `buildComparativeDistribution` divides each count by the number of outcomes (`Number(...) / totalOutcomes`). The model returns the integer counts and proves that they sum to the number of outcomes; the division itself is not modelled.
- `Math.log10` and `Math.ceil` on doubles are replaced by the exact integer `Log10Above`. For outcome counts near a power of ten, rounding in the double computation could choose a different base; that is not modelled.
- JavaScript `number` precision. `degrees`, `totalOutcomes` and the `Number(...)` conversions use unbounded integers. Rounding above 2⁵³ is not modelled.
- `console.log` in the tests has no counterpart.
- Polynomial.Term, Polynomial.MultiPolynomial.AddTerm: coefficients are integers and exponents are naturals. The source converts with `BigInt(...)` (dice.ts:8-9), which throws a RangeError for a non-integer coefficient and accepts a negative exponent; such a term would print `x^{-1}` and make `evaluate` throw at `v ** -1n` (dice.ts:36). Neither path is modelled.
- Tower.Dicetower.AddDice, Tower.Dicetower.CreateArcsTower, Encoding.CoefficientString.Query, Dice.CreateStandardDie: their counts are naturals, while the source accepts any `number`. A fractional die count makes `evaluate` throw a RangeError at `BigInt(this.numDice[i])` (dice.ts:173). A negative die count makes it throw at the BigInt power `** -1n`, makes `totalOutcomes` a fraction (dice.ts:178) and makes `stringify` print the die as `(p)` with no exponent (dice.ts:220-222). A negative query exponent throws a RangeError at `n ** basisVec[i]` (dice.ts:130). `createStandardDie(-3)` builds a die with no terms and -3 faces, and `createStandardDie(2.5)` builds x + x² with 2.5 faces (dice.ts:89-95). None of these paths is modelled; every call in the repository passes non-negative integers.
- Thrown error messages are reduced to the error kinds in `Errors.Error`.
- Tower.Dicetower.BuildComparativeDistribution: requires idxA and idxB below the tower's width. Past the width, the source extends the mask, reads an `undefined` degree and returns an empty table. That path is not modelled.
- Tower.Dicetower.AddDice: requires the die's polynomial to be well formed. Every die the source can build is, since `addTerm` checks each term's width.
- Aliasing: a `Die` holds its polynomial's value (`Poly`), not a reference to the mutable `MultiPolynomial`. Adding a term to a polynomial after it went into a die is not modelled.
- Tower.Dicetower.Evaluate: modelled as a function of the tower's state. A die whose polynomial has terms of the wrong width cannot occur in a well-formed tower, so that throw is unreachable in the model.
- Polynomial.Poly.Evaluate: states the width-check outcome only for well-formed polynomials. For ill-formed ones, `EvaluateTerms` states exactly when the reduce throws.
- The repository's query test on four assault dice (expected results 1, 4, 6 and 12) is not worked out number by number, because expanding 6⁴ outcomes symbolically is out of the solver's reach. The general theorems cover it: `Tower.EncodeQueryIsBandSum` states what each query returns, and `Scenarios.FourAssaultWeights` shows that this tower tracks three variables and has colliding bands.
- The repository's stringify test expects `^{4}`, but `dice.ts` line 222 writes `^${numDice}`, which prints `^4`. The model follows the code (`Scenarios.ArcsTowerEndsInBareFour`).
- `isolateVariables && !isolateVariables[i]` is modelled as `Encoding.SummedOut`: a mask is given, and index i is past its end or false.
- `Tower.Distribution` holds counts (`seq<seq<int>>`), not the probabilities of the source's `Distribution` interface (lines 261-265).

## Findings

| source | as written | input that shows it | evidently intended | confidence | as-written member | corrected member |
|---|---|---|---|---|---|---|
| src/lib/posts/arcs-dice/dice.ts:202-204 | tracked variable i is evaluated at base ** (prevDegree · prevExp + 1), with the recurrence prevExp := d · prevExp + 1; from the third tracked variable on, different exponent vectors within the degrees can share a band | one die with faces x·y and z, rolled once over (x, y, z): weights 1, 2, 3, so `query([0, 0, 1])` answers 2 (x·y lands in z's band); for four assault dice, (6, 2, 0, 0, 0) and (3, 0, 0, 1, 0) share band 24 | weights that are mixed-radix place values, the product of (degree + 1) over the earlier tracked variables, so no two monomials evaluate to the same power of the base, as the comment at lines 190-192 asks | not executed | Scenarios.AsWrittenCollision | Tower.CorrectedQueryIsJointCount |
