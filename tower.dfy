/** `Dicetower`: dice with multiplicities over a shared set of variables, the
    joint generating function Π p_i ** n_i, its positional encoding, and the
    comparative (two-variable) count table read out of it. */
module Tower {
  import opened Errors
  import opened Arith
  import opened Text
  import opened Polynomial
  import opened Dice
  import opened Expansion
  import opened Encoding

  /** The largest total of every variable: Σ_i n_i · degree_i(j). */
  function TowerDegrees(dice: seq<Die>, numDice: seq<nat>, n: nat): (d: seq<nat>)
    requires |dice| == |numDice|
    ensures |d| == n && forall j :: 0 <= j < n ==> d[j] == TowerDeg(dice, numDice, j)
  {
    seq(n, j requires 0 <= j < n => TowerDeg(dice, numDice, j))
  }

  predicate AllFair(dice: seq<Die>)
  {
    forall i :: 0 <= i < |dice| ==> Fair(dice[i])
  }

  lemma {:induction false} TowerTotalNonNegative(dice: seq<Die>, numDice: seq<nat>)
    requires |dice| == |numDice|
    ensures TowerTotal(dice, numDice) >= 0
  {
    if dice != [] {
      TowerTotalNonNegative(dice[1..], numDice[1..]);
      PowNonNegative(dice[0].numFaces, numDice[0]);
      MulNonNegative(Pow(dice[0].numFaces, numDice[0]), TowerTotal(dice[1..], numDice[1..]));
    }
  }

  /** The smallest power of ten above the number of outcomes. */
  function BaseFor(dice: seq<Die>, numDice: seq<nat>): (base: int)
    requires |dice| == |numDice|
    ensures base >= 1 && base > TowerTotal(dice, numDice)
  {
    TowerTotalNonNegative(dice, numDice);
    var k := Log10Above(TowerTotal(dice, numDice));
    PowPositive(10, k);
    Pow(10, k)
  }

  /** The coefficient string `calculateProbabilities(mask)` builds, as
      written: the base, the points of the as-written bands, and Π p_i ** n_i
      at those points. */
  function Encode(dice: seq<Die>, numDice: seq<nat>, n: nat, mask: Option<seq<bool>>): CoefficientString
    requires |dice| == |numDice|
  {
    var base := BaseFor(dice, numDice);
    var v := Points(BandsAsWritten(TowerDegrees(dice, numDice, n), mask, 0, 0, 0), base);
    CoefficientString(base, v, TowerProduct(dice, numDice, v))
  }

  /** The same with the corrected (mixed-radix) band weights. */
  function EncodeCorrected(dice: seq<Die>, numDice: seq<nat>, n: nat, mask: Option<seq<bool>>): CoefficientString
    requires |dice| == |numDice|
  {
    var base := BaseFor(dice, numDice);
    var v := Points(BandsCorrected(TowerDegrees(dice, numDice, n), mask, 0, 1), base);
    CoefficientString(base, v, TowerProduct(dice, numDice, v))
  }

  /** `Dicetower.evaluate` past its width check: the reduce over the dice,
      each die's `evaluate` raised to its multiplicity. */
  function EvaluateDice(dice: seq<Die>, numDice: seq<nat>, v: seq<int>): (r: Result<int>)
    requires |dice| == |numDice|
    ensures DiceOver(dice, |v|) ==> r == Ok(TowerProduct(dice, numDice, v))
  {
    if dice == [] then Ok(1)
    else
      match dice[0].p.Evaluate(v)
      case Err(e) => Err(e)
      case Ok(x) =>
        match EvaluateDice(dice[1..], numDice[1..], v)
        case Err(e) => Err(e)
        case Ok(rest) => Ok(Pow(x, numDice[0]) * rest)
  }

  // ---------------------------------------------------------------------------
  // Appending one entry.

  lemma {:induction false} TowerDegAppend(dice: seq<Die>, numDice: seq<nat>, d: Die, m: nat, j: nat)
    requires |dice| == |numDice|
    ensures TowerDeg(dice + [d], numDice + [m], j) == TowerDeg(dice, numDice, j) + m * MaxExp(d.p.terms, j)
  {
    if dice != [] {
      assert (dice + [d])[1..] == dice[1..] + [d];
      assert (numDice + [m])[1..] == numDice[1..] + [m];
      TowerDegAppend(dice[1..], numDice[1..], d, m, j);
    }
  }

  lemma {:induction false} TowerProductAppend(dice: seq<Die>, numDice: seq<nat>, d: Die, m: nat, v: seq<int>)
    requires |dice| == |numDice|
    ensures TowerProduct(dice + [d], numDice + [m], v) == TowerProduct(dice, numDice, v) * Pow(PolySum(d.p.terms, v), m)
  {
    if dice != [] {
      assert (dice + [d])[1..] == dice[1..] + [d];
      assert (numDice + [m])[1..] == numDice[1..] + [m];
      TowerProductAppend(dice[1..], numDice[1..], d, m, v);
      var a, b, c := Pow(PolySum(dice[0].p.terms, v), numDice[0]), TowerProduct(dice[1..], numDice[1..], v),
                     Pow(PolySum(d.p.terms, v), m);
      assert a * (b * c) == (a * b) * c;
    }
  }

  lemma {:induction false} TowerTotalAppend(dice: seq<Die>, numDice: seq<nat>, d: Die, m: nat)
    requires |dice| == |numDice|
    ensures TowerTotal(dice + [d], numDice + [m]) == TowerTotal(dice, numDice) * Pow(d.numFaces, m)
  {
    if dice != [] {
      assert (dice + [d])[1..] == dice[1..] + [d];
      assert (numDice + [m])[1..] == numDice[1..] + [m];
      TowerTotalAppend(dice[1..], numDice[1..], d, m);
      var a, b, c := Pow(dice[0].numFaces, numDice[0]), TowerTotal(dice[1..], numDice[1..]), Pow(d.numFaces, m);
      assert a * (b * c) == (a * b) * c;
    }
  }

  /** An entry rolled 0 times changes neither the degrees, nor the value at any
      point, nor the number of outcomes. */
  lemma UnrolledEntryChangesNothing(dice: seq<Die>, numDice: seq<nat>, d: Die, n: nat, v: seq<int>)
    requires |dice| == |numDice|
    ensures TowerDegrees(dice + [d], numDice + [0], n) == TowerDegrees(dice, numDice, n)
    ensures TowerProduct(dice + [d], numDice + [0], v) == TowerProduct(dice, numDice, v)
    ensures TowerTotal(dice + [d], numDice + [0]) == TowerTotal(dice, numDice)
  {
    forall j | 0 <= j < n
      ensures TowerDeg(dice + [d], numDice + [0], j) == TowerDeg(dice, numDice, j)
    {
      TowerDegAppend(dice, numDice, d, 0, j);
    }
    TowerProductAppend(dice, numDice, d, 0, v);
    TowerTotalAppend(dice, numDice, d, 0);
  }

  // ---------------------------------------------------------------------------
  // What the encoding holds.

  /** The facts about the joint expansion every query theorem needs. */
  lemma JointFacts(dice: seq<Die>, numDice: seq<nat>, n: nat, bs: seq<Band>)
    requires |dice| == |numDice| && DiceOver(dice, n) && AllFair(dice)
    requires |bs| == n && forall k :: 0 <= k < n ==> bs[k] == Zero ==> TowerDeg(dice, numDice, k) == 0
    ensures Uniform(Joint(dice, numDice, n), n) && NonNegative(Joint(dice, numDice, n))
    ensures AllWithin(Joint(dice, numDice, n), TowerDegrees(dice, numDice, n))
    ensures AllAvoid(Joint(dice, numDice, n), bs)
    ensures CoefSum(Joint(dice, numDice, n)) == TowerTotal(dice, numDice)
  {
    var us := Joint(dice, numDice, n);
    var d := TowerDegrees(dice, numDice, n);
    JointShape(dice, numDice, n);
    JointTotal(dice, numDice, n);
    forall i | 0 <= i < |us|
      ensures WithinDegrees(d, us[i].exps) && Avoids(bs, us[i].exps)
    {
      forall k | 0 <= k < n
        ensures ExpAt(us[i].exps, k) <= d[k]
      {
        assert Bounded(us, k, TowerDeg(dice, numDice, k));
      }
    }
  }

  /** For fair dice, `query(e)` on the as-written encoding is the number of
      outcomes whose exponent vector lands in e's band (its weighted index), and
      never carries between bands; this is all the as-written code guarantees. */
  lemma EncodeQueryIsBandSum(dice: seq<Die>, numDice: seq<nat>, n: nat, mask: Option<seq<bool>>, e: seq<nat>)
    requires |dice| == |numDice| && DiceOver(dice, n) && AllFair(dice)
    requires |e| >= n && WithinDegrees(TowerDegrees(dice, numDice, n), e)
    ensures var bs := BandsAsWritten(TowerDegrees(dice, numDice, n), mask, 0, 0, 0);
            Encode(dice, numDice, n, mask).Query(e) == Ok(BandCoef(Joint(dice, numDice, n), bs, Weight(bs, e)))
  {
    var d := TowerDegrees(dice, numDice, n);
    var bs := BandsAsWritten(d, mask, 0, 0, 0);
    var base := BaseFor(dice, numDice);
    var us := Joint(dice, numDice, n);
    var v := Points(bs, base);
    assert Uniform(us, n) && AllAvoid(us, bs) && NonNegative(us) && CoefSum(us) == TowerTotal(dice, numDice) by {
      AsWrittenZeroBandsAbsent(dice, numDice, n, mask);
      JointFacts(dice, numDice, n, bs);
    }
    assert Encode(dice, numDice, n, mask) == CoefficientString(base, v, PolySum(us, v)) by {
      JointEval(dice, numDice, n, v);
    }
    WithinDegreesAvoids(d, mask, e);
    QueryIsBandSum(us, bs, base, e);
  }

  /** Asking for a positive exponent of a variable no die can show divides by
      zero instead of answering 0. */
  lemma EncodeQueryAtAbsentVariable(dice: seq<Die>, numDice: seq<nat>, n: nat, mask: Option<seq<bool>>, e: seq<nat>, k: nat)
    requires |dice| == |numDice|
    requires |e| >= n && k < n && TowerDeg(dice, numDice, k) == 0 && e[k] > 0
    ensures Encode(dice, numDice, n, mask).Query(e) == Err(DivisionByZero)
  {
    var d := TowerDegrees(dice, numDice, n);
    var bs := BandsAsWritten(d, mask, 0, 0, 0);
    BandsAsWrittenKinds(d, mask, 0, 0, 0);
    assert bs[k] == Zero;
    QueryAtZeroPoint(Encode(dice, numDice, n, mask), bs, e);
  }

  /** An as-written band is Zero only for a variable no die shows. */
  lemma AsWrittenZeroBandsAbsent(dice: seq<Die>, numDice: seq<nat>, n: nat, mask: Option<seq<bool>>)
    requires |dice| == |numDice|
    ensures forall k :: 0 <= k < n ==>
              BandsAsWritten(TowerDegrees(dice, numDice, n), mask, 0, 0, 0)[k] == Zero ==> TowerDeg(dice, numDice, k) == 0
  {
    var d := TowerDegrees(dice, numDice, n);
    BandsAsWrittenKinds(d, mask, 0, 0, 0);
    forall k | 0 <= k < n && BandsAsWritten(d, mask, 0, 0, 0)[k] == Zero
      ensures TowerDeg(dice, numDice, k) == 0
    {
      assert d[0 + k] == 0;
    }
  }

  /** A corrected band is Zero only for a variable no die shows. */
  lemma CorrectedZeroBandsAbsent(dice: seq<Die>, numDice: seq<nat>, n: nat, mask: Option<seq<bool>>)
    requires |dice| == |numDice|
    ensures forall k :: 0 <= k < n ==>
              BandsCorrected(TowerDegrees(dice, numDice, n), mask, 0, 1)[k] == Zero ==> TowerDeg(dice, numDice, k) == 0
  {
    var d := TowerDegrees(dice, numDice, n);
    BandsCorrectedKinds(d, mask, 0, 1);
    forall k | 0 <= k < n && BandsCorrected(d, mask, 0, 1)[k] == Zero
      ensures TowerDeg(dice, numDice, k) == 0
    {
      assert d[0 + k] == 0;
    }
  }

  /** With the corrected weights, `query(e)` within the degrees is the number of
      outcomes that agree with e on every tracked variable (masked variables
      summed out), and without a mask it is the joint coefficient of x^e. */
  lemma CorrectedQueryIsJointCount(dice: seq<Die>, numDice: seq<nat>, n: nat, mask: Option<seq<bool>>, e: seq<nat>)
    requires |dice| == |numDice| && DiceOver(dice, n) && AllFair(dice)
    requires |e| >= n && WithinDegrees(TowerDegrees(dice, numDice, n), e)
    ensures EncodeCorrected(dice, numDice, n, mask).Query(e)
         == Ok(TrackedCoef(Joint(dice, numDice, n), TowerDegrees(dice, numDice, n), mask, e))
    ensures mask.None? && |e| == n ==>
              EncodeCorrected(dice, numDice, n, mask).Query(e) == Ok(JointCoef(Joint(dice, numDice, n), e))
  {
    var d := TowerDegrees(dice, numDice, n);
    var bs := BandsCorrected(d, mask, 0, 1);
    var base := BaseFor(dice, numDice);
    var us := Joint(dice, numDice, n);
    var v := Points(bs, base);
    assert Uniform(us, n) && AllWithin(us, d) && AllAvoid(us, bs) && NonNegative(us) &&
           CoefSum(us) == TowerTotal(dice, numDice) by {
      CorrectedZeroBandsAbsent(dice, numDice, n, mask);
      JointFacts(dice, numDice, n, bs);
    }
    assert EncodeCorrected(dice, numDice, n, mask) == CoefficientString(base, v, PolySum(us, v)) by {
      JointEval(dice, numDice, n, v);
    }
    assert CoefficientString(base, v, PolySum(us, v)).Query(e) == Ok(BandCoef(us, bs, Weight(bs, e))) by {
      WithinDegreesAvoids(d, mask, e);
      QueryIsBandSum(us, bs, base, e);
    }
    CorrectedBandIsTracked(us, d, mask, e);
    if mask.None? && |e| == n {
      TrackedIsJoint(us, d, e);
    }
  }

  /** When at most two variables are tracked, the as-written encoding is the
      corrected one, so its queries within the degrees are exact counts. */
  lemma EncodeQueryUpToTwoTracked(dice: seq<Die>, numDice: seq<nat>, n: nat, mask: Option<seq<bool>>, e: seq<nat>)
    requires |dice| == |numDice| && DiceOver(dice, n) && AllFair(dice)
    requires TrackedCount(TowerDegrees(dice, numDice, n), mask, 0) <= 2
    requires |e| >= n && WithinDegrees(TowerDegrees(dice, numDice, n), e)
    ensures Encode(dice, numDice, n, mask).Query(e)
         == Ok(TrackedCoef(Joint(dice, numDice, n), TowerDegrees(dice, numDice, n), mask, e))
    ensures mask.None? && |e| == n ==>
              Encode(dice, numDice, n, mask).Query(e) == Ok(JointCoef(Joint(dice, numDice, n), e))
  {
    AsWrittenAgreesUpToTwo(TowerDegrees(dice, numDice, n), mask, 0);
    assert Encode(dice, numDice, n, mask) == EncodeCorrected(dice, numDice, n, mask);
    CorrectedQueryIsJointCount(dice, numDice, n, mask, e);
  }

  // ---------------------------------------------------------------------------
  // Printing.

  /** One rolled die: its polynomial in parentheses, then `^n` (no braces) when
      it is rolled more than once; a die rolled 0 times prints nothing. */
  function DieTerm(d: Die, n: nat, names: seq<string>): (t: Option<string>)
    ensures t.None? <==> n == 0
  {
    if n == 0 then None
    else if n == 1 then Some("(" + d.p.Stringify(names) + ")")
    else Some("(" + d.p.Stringify(names) + ")" + "^" + NatToString(n))
  }

  /** The printed dice, in order, without separators. */
  function DiceTerms(dice: seq<Die>, numDice: seq<nat>, names: seq<string>): string
    requires |dice| == |numDice|
  {
    if dice == [] then ""
    else
      match DieTerm(dice[0], numDice[0], names)
      case None => DiceTerms(dice[1..], numDice[1..], names)
      case Some(t) => t + DiceTerms(dice[1..], numDice[1..], names)
  }

  /** The left-hand side `name(x, y, ...)`. */
  function Lhs(name: string, names: seq<string>): string
  {
    name + "(" + Join(names, ", ") + ")"
  }

  /** `Dicetower.stringify`: `lhs = 1` when there is a single outcome, else the
      scaling factor 1/total followed by the printed dice. */
  function TowerString(dice: seq<Die>, numDice: seq<nat>, name: string, names: seq<string>): (s: string)
    requires |dice| == |numDice|
    ensures s == Lhs(name, names) + " = 1" <==> TowerTotal(dice, numDice) == 1
  {
    var lhs := Lhs(name, names);
    var outcomes := TowerTotal(dice, numDice);
    if outcomes == 1 then lhs + " = 1"
    else
      var s := lhs + " = " + "\\dfrac{1}{" + IntToString(outcomes) + "}" + DiceTerms(dice, numDice, names);
      assert |s| > |lhs + " = 1"|;
      s
  }

  /** A die rolled more than once carries its multiplicity as bare decimal
      digits after `^`, which read back as that multiplicity. */
  lemma DieTermShowsMultiplicity(d: Die, n: nat, names: seq<string>)
    requires n > 1
    ensures exists ds: string ::
              (forall i :: 0 <= i < |ds| ==> IsDigit(ds[i])) && DigitsValue(ds) == n &&
              DieTerm(d, n, names) == Some("(" + d.p.Stringify(names) + ")^" + ds)
  {
    var ds := NatToString(n);
    NatToStringRoundTrip(n);
    assert "(" + d.p.Stringify(names) + ")" + "^" + ds == "(" + d.p.Stringify(names) + ")^" + ds;
  }

  /** The dice print in insertion order: adding a die appends its printed
      term, or nothing when it is rolled 0 times. */
  lemma {:induction false} DiceTermsAppend(dice: seq<Die>, numDice: seq<nat>, d: Die, n: nat, names: seq<string>)
    requires |dice| == |numDice|
    ensures DiceTerms(dice + [d], numDice + [n], names)
         == DiceTerms(dice, numDice, names) + (if n == 0 then "" else DieTerm(d, n, names).value)
  {
    if dice == [] {
      assert (dice + [d])[1..] == [] && (numDice + [n])[1..] == [];
      assert DiceTerms([], [], names) == "";
      if n != 0 {
        assert DieTerm(d, n, names).value + "" == DieTerm(d, n, names).value;
      }
    } else {
      assert (dice + [d])[1..] == dice[1..] + [d];
      assert (numDice + [n])[1..] == numDice[1..] + [n];
      DiceTermsAppend(dice[1..], numDice[1..], d, n, names);
    }
  }

  /** Adding a die 0 times leaves the printed tower unchanged. */
  lemma TowerStringIgnoresUnrolled(dice: seq<Die>, numDice: seq<nat>, d: Die, name: string, names: seq<string>)
    requires |dice| == |numDice|
    ensures TowerString(dice + [d], numDice + [0], name, names) == TowerString(dice, numDice, name, names)
  {
    TowerTotalAppend(dice, numDice, d, 0);
    DiceTermsAppend(dice, numDice, d, 0, names);
    assert DiceTerms(dice, numDice, names) + "" == DiceTerms(dice, numDice, names);
  }

  /** What `stringify` prints after `addDice(d, n)`: the outcome count is
      multiplied by faces ** n, and unless it is 1 the scaling factor is
      followed by the earlier dice and then the new one. */
  lemma StringifyAfterAddDice(dice: seq<Die>, numDice: seq<nat>, d: Die, n: nat, name: string, names: seq<string>)
    requires |dice| == |numDice|
    ensures TowerTotal(dice + [d], numDice + [n]) == TowerTotal(dice, numDice) * Pow(d.numFaces, n)
    ensures TowerTotal(dice + [d], numDice + [n]) == 1 ==>
              TowerString(dice + [d], numDice + [n], name, names) == Lhs(name, names) + " = 1"
    ensures TowerTotal(dice + [d], numDice + [n]) != 1 ==>
              TowerString(dice + [d], numDice + [n], name, names)
              == Lhs(name, names) + " = " + "\\dfrac{1}{" + IntToString(TowerTotal(dice, numDice) * Pow(d.numFaces, n)) + "}"
                 + DiceTerms(dice, numDice, names) + (if n == 0 then "" else DieTerm(d, n, names).value)
  {
    TowerTotalAppend(dice, numDice, d, n);
    DiceTermsAppend(dice, numDice, d, n, names);
    var head := Lhs(name, names) + " = " + "\\dfrac{1}{" + IntToString(TowerTotal(dice, numDice) * Pow(d.numFaces, n)) + "}";
    var a, b := DiceTerms(dice, numDice, names), (if n == 0 then "" else DieTerm(d, n, names).value);
    assert head + (a + b) == head + a + b;
  }

  // ---------------------------------------------------------------------------
  // The comparative distribution.

  /** A comparative table: the largest totals of the two variables and, per
      pair of totals, the count read out of the encoding (the source divides it
      by the number of outcomes). */
  datatype Distribution = Distribution(rangeA: nat, rangeB: nat, counts: seq<seq<int>>)

  /** The mask tracking only variables a and b. */
  function PairMask(n: nat, idxA: nat, idxB: nat): (m: seq<bool>)
    requires idxA < n && idxB < n
    ensures |m| == n && forall k :: 0 <= k < n ==> (m[k] <==> k == idxA || k == idxB)
  {
    seq(n, _ => false)[idxA := true][idxB := true]
  }

  /** The exponent vector queried for cell (a, b): a at idxA, then b at idxB,
      0 elsewhere. */
  function Cell(n: nat, idxA: nat, a: nat, idxB: nat, b: nat): (e: seq<nat>)
    requires idxA < n && idxB < n
    ensures |e| == n && e[idxB] == b && (idxA != idxB ==> e[idxA] == a)
    ensures forall k :: 0 <= k < n && k != idxA && k != idxB ==> e[k] == 0
  {
    Zeros(n)[idxA := a][idxB := b]
  }

  /** The number of outcomes (joint coefficients) with total a of variable
      idxA and total b of variable idxB. */
  function CellCoef(us: seq<Term>, idxA: nat, a: nat, idxB: nat, b: nat): int
  {
    if us == [] then 0
    else (if ExpAt(us[0].exps, idxA) == a && ExpAt(us[0].exps, idxB) == b then us[0].coeff else 0)
         + CellCoef(us[1..], idxA, a, idxB, b)
  }

  function RowTotal(row: seq<int>): int
  {
    if row == [] then 0 else RowTotal(row[..|row| - 1]) + row[|row| - 1]
  }

  /** The sum of every entry of a table. */
  function TableSum(rows: seq<seq<int>>): int
  {
    if rows == [] then 0 else TableSum(rows[..|rows| - 1]) + RowTotal(rows[|rows| - 1])
  }

  /** Σ_{b < nb} CellCoef(us, idxA, a, idxB, b). */
  function RowSum(us: seq<Term>, idxA: nat, a: nat, idxB: nat, nb: nat): int
  {
    if nb == 0 then 0 else RowSum(us, idxA, a, idxB, nb - 1) + CellCoef(us, idxA, a, idxB, nb - 1)
  }

  /** Σ_{a < na} Σ_{b < nb} CellCoef(us, idxA, a, idxB, b). */
  function GridSum(us: seq<Term>, idxA: nat, na: nat, idxB: nat, nb: nat): int
  {
    if na == 0 then 0 else GridSum(us, idxA, na - 1, idxB, nb) + RowSum(us, idxA, na - 1, idxB, nb)
  }

  lemma {:induction false} RowSumCons(us: seq<Term>, idxA: nat, a: nat, idxB: nat, nb: nat)
    requires us != []
    ensures RowSum(us, idxA, a, idxB, nb)
         == (if ExpAt(us[0].exps, idxA) == a && ExpAt(us[0].exps, idxB) < nb then us[0].coeff else 0)
            + RowSum(us[1..], idxA, a, idxB, nb)
  {
    if nb > 0 {
      RowSumCons(us, idxA, a, idxB, nb - 1);
    }
  }

  lemma {:induction false} GridSumCons(us: seq<Term>, idxA: nat, na: nat, idxB: nat, nb: nat)
    requires us != []
    ensures GridSum(us, idxA, na, idxB, nb)
         == (if ExpAt(us[0].exps, idxA) < na && ExpAt(us[0].exps, idxB) < nb then us[0].coeff else 0)
            + GridSum(us[1..], idxA, na, idxB, nb)
  {
    if na > 0 {
      GridSumCons(us, idxA, na - 1, idxB, nb);
      RowSumCons(us, idxA, na - 1, idxB, nb);
    }
  }

  /** Every outcome lands in exactly one cell of a grid that covers it. */
  lemma {:induction false} GridSumIsTotal(us: seq<Term>, idxA: nat, na: nat, idxB: nat, nb: nat)
    requires forall i :: 0 <= i < |us| ==> ExpAt(us[i].exps, idxA) < na && ExpAt(us[i].exps, idxB) < nb
    ensures GridSum(us, idxA, na, idxB, nb) == CoefSum(us)
  {
    if us == [] {
      if na > 0 {
        GridSumIsTotal(us, idxA, na - 1, idxB, nb);
        RowSumEmpty(idxA, na - 1, idxB, nb);
      }
    } else {
      GridSumCons(us, idxA, na, idxB, nb);
      GridSumIsTotal(us[1..], idxA, na, idxB, nb);
    }
  }

  lemma {:induction false} RowSumEmpty(idxA: nat, a: nat, idxB: nat, nb: nat)
    ensures RowSum([], idxA, a, idxB, nb) == 0
  {
    if nb > 0 {
      RowSumEmpty(idxA, a, idxB, nb - 1);
    }
  }

  lemma {:induction false} RowTotalIsRowSum(row: seq<int>, us: seq<Term>, idxA: nat, a: nat, idxB: nat)
    requires forall b :: 0 <= b < |row| ==> row[b] == CellCoef(us, idxA, a, idxB, b)
    ensures RowTotal(row) == RowSum(us, idxA, a, idxB, |row|)
  {
    if row != [] {
      RowTotalIsRowSum(row[..|row| - 1], us, idxA, a, idxB);
    }
  }

  lemma {:induction false} TableSumIsGridSum(rows: seq<seq<int>>, us: seq<Term>, idxA: nat, idxB: nat, nb: nat)
    requires forall a :: 0 <= a < |rows| ==> |rows[a]| == nb
    requires forall a, b :: 0 <= a < |rows| && 0 <= b < nb ==> rows[a][b] == CellCoef(us, idxA, a, idxB, b)
    ensures TableSum(rows) == GridSum(us, idxA, |rows|, idxB, nb)
  {
    if rows != [] {
      TableSumIsGridSum(rows[..|rows| - 1], us, idxA, idxB, nb);
      RowTotalIsRowSum(rows[|rows| - 1], us, idxA, |rows| - 1, idxB);
    }
  }

  /** At most the two masked-in variables are tracked. */
  lemma {:induction false} PairTracksAtMostTwo(d: seq<nat>, idxA: nat, idxB: nat, i: nat)
    requires idxA < |d| && idxB < |d| && i <= |d|
    ensures TrackedCount(d, Some(PairMask(|d|, idxA, idxB)), i)
         <= (if i <= idxA then 1 else 0) + (if i <= idxB && idxB != idxA then 1 else 0)
    decreases |d| - i
  {
    if i < |d| {
      PairTracksAtMostTwo(d, idxA, idxB, i + 1);
    }
  }

  /** Within the degrees, agreeing with cell e on the tracked variables is
      agreeing with it on the two chosen variables. */
  lemma {:induction false} TrackedIsCellCoef(us: seq<Term>, d: seq<nat>, idxA: nat, idxB: nat, e: seq<nat>)
    requires idxA < |d| && idxB < |d| && AllWithin(us, d) && WithinDegrees(d, e)
    ensures TrackedCoef(us, d, Some(PairMask(|d|, idxA, idxB)), e)
         == CellCoef(us, idxA, ExpAt(e, idxA), idxB, ExpAt(e, idxB))
  {
    if us != [] {
      var mask := Some(PairMask(|d|, idxA, idxB));
      var x := us[0].exps;
      assert WithinDegrees(d, x);
      if AgreeTracked(d, mask, x, e, 0) {
        assert ExpAt(x, idxA) == ExpAt(e, idxA) by {
          if d[idxA] == 0 { assert ExpAt(x, idxA) <= 0 && ExpAt(e, idxA) <= 0; }
          else { assert Tracked(d, mask, idxA); }
        }
        assert ExpAt(x, idxB) == ExpAt(e, idxB) by {
          if d[idxB] == 0 { assert ExpAt(x, idxB) <= 0 && ExpAt(e, idxB) <= 0; }
          else { assert Tracked(d, mask, idxB); }
        }
      }
      TrackedIsCellCoef(us[1..], d, idxA, idxB, e);
    }
  }

  lemma CellWithin(d: seq<nat>, idxA: nat, a: nat, idxB: nat, b: nat)
    requires idxA < |d| && idxB < |d| && a <= d[idxA] && b <= d[idxB]
    ensures WithinDegrees(d, Cell(|d|, idxA, a, idxB, b))
  {
    var e := Cell(|d|, idxA, a, idxB, b);
    forall k | 0 <= k < |d|
      ensures ExpAt(e, k) <= d[k]
    {
    }
  }

  /** For fair dice, cell (a, b) of the comparative query is the number of
      outcomes whose idxB total is b and whose idxA total is a (b too when the
      two variables are the same). */
  lemma ComparativeCellIsCount(dice: seq<Die>, numDice: seq<nat>, n: nat, idxA: nat, idxB: nat, a: nat, b: nat)
    requires |dice| == |numDice| && DiceOver(dice, n) && AllFair(dice)
    requires idxA < n && idxB < n
    requires a <= TowerDeg(dice, numDice, idxA) && b <= TowerDeg(dice, numDice, idxB)
    ensures Encode(dice, numDice, n, Some(PairMask(n, idxA, idxB))).Query(Cell(n, idxA, a, idxB, b))
         == Ok(CellCoef(Joint(dice, numDice, n), idxA, if idxA == idxB then b else a, idxB, b))
  {
    var d := TowerDegrees(dice, numDice, n);
    var mask := Some(PairMask(n, idxA, idxB));
    var e := Cell(n, idxA, a, idxB, b);
    var us := Joint(dice, numDice, n);
    PairTracksAtMostTwo(d, idxA, idxB, 0);
    CellWithin(d, idxA, a, idxB, b);
    EncodeQueryUpToTwoTracked(dice, numDice, n, mask, e);
    assert Uniform(us, n) && AllWithin(us, d) by {
      AsWrittenZeroBandsAbsent(dice, numDice, n, mask);
      JointFacts(dice, numDice, n, BandsAsWritten(d, mask, 0, 0, 0));
    }
    TrackedIsCellCoef(us, d, idxA, idxB, e);
    assert ExpAt(e, idxB) == b;
    assert ExpAt(e, idxA) == if idxA == idxB then b else a;
  }

  /** For fair dice and two different variables, the comparative table
      accounts for every outcome exactly once. */
  lemma ComparativeTableTotal(dice: seq<Die>, numDice: seq<nat>, n: nat, idxA: nat, idxB: nat, counts: seq<seq<int>>)
    requires |dice| == |numDice| && DiceOver(dice, n) && AllFair(dice)
    requires idxA < n && idxB < n && idxA != idxB
    requires |counts| == TowerDeg(dice, numDice, idxA) + 1
    requires forall a :: 0 <= a < |counts| ==> |counts[a]| == TowerDeg(dice, numDice, idxB) + 1
    requires forall a, b :: 0 <= a < |counts| && 0 <= b < |counts[a]| ==>
               counts[a][b] == CellCoef(Joint(dice, numDice, n), idxA, a, idxB, b)
    ensures TableSum(counts) == TowerTotal(dice, numDice)
  {
    var us := Joint(dice, numDice, n);
    var nb := TowerDeg(dice, numDice, idxB) + 1;
    JointCovered(dice, numDice, n, idxA, idxB);
    TableSumIsGridSum(counts, us, idxA, idxB, nb);
    GridSumIsTotal(us, idxA, |counts|, idxB, nb);
  }

  /** Every outcome's two totals lie within the degrees, and the outcomes
      add up to the number of outcomes. */
  lemma JointCovered(dice: seq<Die>, numDice: seq<nat>, n: nat, idxA: nat, idxB: nat)
    requires |dice| == |numDice| && DiceOver(dice, n) && AllFair(dice)
    requires idxA < n && idxB < n
    ensures CoefSum(Joint(dice, numDice, n)) == TowerTotal(dice, numDice)
    ensures forall i :: 0 <= i < |Joint(dice, numDice, n)| ==>
              ExpAt(Joint(dice, numDice, n)[i].exps, idxA) <= TowerDeg(dice, numDice, idxA) &&
              ExpAt(Joint(dice, numDice, n)[i].exps, idxB) <= TowerDeg(dice, numDice, idxB)
  {
    assert forall i :: 0 <= i < |dice| ==> NonNegative(dice[i].p.terms) by {
      forall i | 0 <= i < |dice|
        ensures NonNegative(dice[i].p.terms)
      {
        assert Fair(dice[i]);
      }
    }
    JointShape(dice, numDice, n);
    JointTotal(dice, numDice, n);
    assert Bounded(Joint(dice, numDice, n), idxA, TowerDeg(dice, numDice, idxA));
    assert Bounded(Joint(dice, numDice, n), idxB, TowerDeg(dice, numDice, idxB));
  }

  /** What the comparative table read out of the as-written encoding holds:
      for fair dice, outcome counts per cell, and for two different variables a
      table accounting for every outcome once. */
  lemma ComparativeTableMeaning(dice: seq<Die>, numDice: seq<nat>, n: nat, idxA: nat, idxB: nat, dist: Distribution)
    requires |dice| == |numDice| && DiceOver(dice, n) && idxA < n && idxB < n
    requires dist.rangeA == TowerDeg(dice, numDice, idxA) && dist.rangeB == TowerDeg(dice, numDice, idxB)
    requires |dist.counts| == dist.rangeA + 1
    requires forall a :: 0 <= a < |dist.counts| ==> |dist.counts[a]| == dist.rangeB + 1
    requires forall a, b :: 0 <= a < |dist.counts| && 0 <= b <= dist.rangeB ==>
               Encode(dice, numDice, n, Some(PairMask(n, idxA, idxB)))
                 .Query(Cell(n, idxA, a, idxB, b)) == Ok(dist.counts[a][b])
    ensures AllFair(dice) ==> forall a, b :: 0 <= a < |dist.counts| && 0 <= b <= dist.rangeB ==>
              dist.counts[a][b] == CellCoef(Joint(dice, numDice, n), idxA, if idxA == idxB then b else a, idxB, b)
    ensures AllFair(dice) && idxA != idxB ==> TableSum(dist.counts) == TowerTotal(dice, numDice)
  {
    var rows := dist.counts;
    if AllFair(dice) {
      forall a, b | 0 <= a < |rows| && 0 <= b <= dist.rangeB
        ensures rows[a][b] == CellCoef(Joint(dice, numDice, n), idxA, if idxA == idxB then b else a, idxB, b)
      {
        ComparativeCellIsCount(dice, numDice, n, idxA, idxB, a, b);
      }
      if idxA != idxB {
        ComparativeTableTotal(dice, numDice, n, idxA, idxB, rows);
      }
    }
  }

  /** The inner loop of `buildComparativeDistribution`: row a of the table,
      one query per value b of the second variable. */
  method ReadRow(cs: CoefficientString, n: nat, idxA: nat, a: nat, idxB: nat, degB: nat) returns (row: seq<int>)
    requires idxA < n && idxB < n
    requires forall b :: 0 <= b <= degB ==> cs.Query(Cell(n, idxA, a, idxB, b)).Ok?
    ensures |row| == degB + 1
    ensures forall b :: 0 <= b <= degB ==> cs.Query(Cell(n, idxA, a, idxB, b)) == Ok(row[b])
  {
    row := [];
    var b := 0;
    while b <= degB
      invariant 0 <= b <= degB + 1 && |row| == b
      invariant forall b' :: 0 <= b' < b ==> cs.Query(Cell(n, idxA, a, idxB, b')) == Ok(row[b'])
    {
      var basis := Zeros(n)[idxA := a][idxB := b];
      assert basis == Cell(n, idxA, a, idxB, b);
      var count := cs.Query(basis);
      row := row + [count.value];
      b := b + 1;
    }
  }

  /** The outer loop of `buildComparativeDistribution`: one row per value a of
      the first variable. */
  method ReadTable(cs: CoefficientString, n: nat, idxA: nat, idxB: nat, degA: nat, degB: nat) returns (rows: seq<seq<int>>)
    requires idxA < n && idxB < n
    requires forall a, b :: 0 <= a <= degA && 0 <= b <= degB ==> cs.Query(Cell(n, idxA, a, idxB, b)).Ok?
    ensures |rows| == degA + 1
    ensures forall a :: 0 <= a < |rows| ==> |rows[a]| == degB + 1
    ensures forall a, b :: 0 <= a < |rows| && 0 <= b <= degB ==> cs.Query(Cell(n, idxA, a, idxB, b)) == Ok(rows[a][b])
  {
    rows := [];
    var a := 0;
    while a <= degA
      invariant 0 <= a <= degA + 1 && |rows| == a
      invariant forall a' :: 0 <= a' < a ==> |rows[a']| == degB + 1
      invariant forall a', b' :: 0 <= a' < a && 0 <= b' <= degB ==>
                  cs.Query(Cell(n, idxA, a', idxB, b')) == Ok(rows[a'][b'])
    {
      var row := ReadRow(cs, n, idxA, a, idxB, degB);
      rows := rows + [row];
      a := a + 1;
    }
  }

  /** The loop of `calculateProbabilities` that picks each variable's
      evaluation point: 0 for degree 0, 1 when the mask sums it out, and
      otherwise the next power of the base by the as-written recurrence. */
  method EvaluationPoints(d: seq<nat>, mask: Option<seq<bool>>, base: int) returns (values: seq<int>)
    ensures values == Points(BandsAsWritten(d, mask, 0, 0, 0), base)
  {
    ghost var bands := BandsAsWritten(d, mask, 0, 0, 0);
    var prevExp: nat, prevDegree: nat := 0, 0;
    values := [];
    var i := 0;
    while i < |d|
      invariant 0 <= i <= |d|
      invariant |values| == i
      invariant forall k :: 0 <= k < i ==> values[k] == PointOf(bands[k], base)
      invariant bands[i..] == BandsAsWritten(d, mask, i, prevDegree, prevExp)
    {
      BandsAsWrittenStep(d, mask, i, prevDegree, prevExp, bands);
      var value;
      if d[i] == 0 {
        value := 0;
      } else if mask.Some? && !(i < |mask.value| && mask.value[i]) {
        value := 1;
      } else {
        value := Pow(base, prevDegree * prevExp + 1);
        prevDegree := d[i];
        prevExp := prevDegree * prevExp + 1;
      }
      values := values + [value];
      i := i + 1;
    }
    assert values == Points(bands, base);
  }

  /** The inner loop of `degrees`: adds n times a die's degrees to the running
      totals, entry by entry. */
  method AddScaled(degrees: array<nat>, dieDegrees: seq<nat>, n: nat)
    requires degrees.Length == |dieDegrees|
    modifies degrees
    ensures forall k :: 0 <= k < degrees.Length ==> degrees[k] == old(degrees[k]) + n * dieDegrees[k]
  {
    var j := 0;
    while j < |dieDegrees|
      invariant 0 <= j <= |dieDegrees|
      invariant forall k :: 0 <= k < j ==> degrees[k] == old(degrees[k]) + n * dieDegrees[k]
      invariant forall k :: j <= k < degrees.Length ==> degrees[k] == old(degrees[k])
    {
      degrees[j] := degrees[j] + n * dieDegrees[j];
      j := j + 1;
    }
  }

  /** One step of the as-written band recurrence, read off a precomputed
      band sequence. */
  lemma BandsAsWrittenStep(d: seq<nat>, mask: Option<seq<bool>>, i: nat, pd: nat, pe: nat, bands: seq<Band>)
    requires i < |d| == |bands| && bands[i..] == BandsAsWritten(d, mask, i, pd, pe)
    ensures d[i] == 0 ==> bands[i] == Zero && bands[i + 1..] == BandsAsWritten(d, mask, i + 1, pd, pe)
    ensures d[i] != 0 && SummedOut(mask, i) ==>
              bands[i] == One && bands[i + 1..] == BandsAsWritten(d, mask, i + 1, pd, pe)
    ensures d[i] != 0 && !SummedOut(mask, i) ==>
              bands[i] == Power(pd * pe + 1) && bands[i + 1..] == BandsAsWritten(d, mask, i + 1, d[i], d[i] * pe + 1)
  {
    assert bands[i..][0] == bands[i];
    assert bands[i..][1..] == bands[i + 1..];
  }

  /** The encoding is the coefficient string of the tower's value at the
      band points. */
  lemma EncodeAtPoints(dice: seq<Die>, numDice: seq<nat>, n: nat, mask: Option<seq<bool>>, v: seq<int>)
    requires |dice| == |numDice| && DiceOver(dice, n)
    requires v == Points(BandsAsWritten(TowerDegrees(dice, numDice, n), mask, 0, 0, 0), BaseFor(dice, numDice))
    ensures Encode(dice, numDice, n, mask)
         == CoefficientString(BaseFor(dice, numDice), v, PolySum(Joint(dice, numDice, n), v))
  {
    JointEval(dice, numDice, n, v);
  }

  /** Every cell within the degrees has a defined query: no cell asks for a
      variable evaluated at 0. */
  lemma EncodePairDefined(dice: seq<Die>, numDice: seq<nat>, n: nat, idxA: nat, idxB: nat)
    requires |dice| == |numDice| && idxA < n && idxB < n
    ensures forall a, b :: 0 <= a <= TowerDeg(dice, numDice, idxA) && 0 <= b <= TowerDeg(dice, numDice, idxB) ==>
              Encode(dice, numDice, n, Some(PairMask(n, idxA, idxB))).Query(Cell(n, idxA, a, idxB, b)).Ok?
  {
    var d := TowerDegrees(dice, numDice, n);
    var mask := Some(PairMask(n, idxA, idxB));
    var cs := Encode(dice, numDice, n, mask);
    var bands := BandsAsWritten(d, mask, 0, 0, 0);
    forall a, b | 0 <= a <= d[idxA] && 0 <= b <= d[idxB]
      ensures cs.Query(Cell(n, idxA, a, idxB, b)).Ok?
    {
      CellWithin(d, idxA, a, idxB, b);
      WithinDegreesAvoids(d, mask, Cell(n, idxA, a, idxB, b));
      QueryDefined(cs, bands, Cell(n, idxA, a, idxB, b));
    }
  }

  // ---------------------------------------------------------------------------
  // The class.

  class Dicetower {
    const numVariables: nat
    var dice: seq<Die>
    var numDice: seq<nat>

    /** The parallel arrays have one entry per die, and every die is a
        well-formed polynomial of the tower's width. */
    predicate Valid()
      reads this
    {
      |dice| == |numDice| && DiceOver(dice, numVariables)
    }

    constructor(numVariables: nat)
      ensures Valid() && this.numVariables == numVariables && dice == [] && numDice == []
    {
      this.numVariables := numVariables;
      dice := [];
      numDice := [];
    }

    /** `addDice`: a die of another width fails and changes nothing; otherwise
        the die and its multiplicity are appended together. */
    method AddDice(die: Die, n: nat) returns (r: Outcome)
      requires Valid() && die.p.Valid()
      modifies this
      ensures Valid()
      ensures r == (if die.p.numVariables == numVariables then Pass else Fail(DimensionMismatch))
      ensures dice == (if r.Pass? then old(dice) + [die] else old(dice))
      ensures numDice == (if r.Pass? then old(numDice) + [n] else old(numDice))
    {
      if die.p.numVariables != numVariables {
        return Fail(DimensionMismatch);
      }
      dice := dice + [die];
      numDice := numDice + [n];
      r := Pass;
    }

    /** `degrees`: per variable, Σ of multiplicity times the die's degree,
        accumulated in place. */
    method Degrees() returns (r: seq<nat>)
      requires Valid()
      ensures r == TowerDegrees(dice, numDice, numVariables)
    {
      var ds, ns, width := dice, numDice, numVariables;
      var degrees := new nat[width](_ => 0);
      var i := 0;
      while i < |ds|
        invariant 0 <= i <= |ds|
        invariant forall j :: 0 <= j < width ==> degrees[j] == TowerDeg(ds[..i], ns[..i], j)
      {
        var dieDegrees := Polynomial.Degrees(ds[i].p);
        ghost var before := degrees[..];
        AddScaled(degrees, dieDegrees, ns[i]);
        assert ds[..i + 1] == ds[..i] + [ds[i]];
        assert ns[..i + 1] == ns[..i] + [ns[i]];
        forall k | 0 <= k < width
          ensures degrees[k] == TowerDeg(ds[..i + 1], ns[..i + 1], k)
        {
          assert degrees[k] == before[k] + ns[i] * dieDegrees[k];
          TowerDegAppend(ds[..i], ns[..i], ds[i], ns[i], k);
        }
        i := i + 1;
      }
      assert ds[..i] == ds && ns[..i] == ns;
      r := degrees[..];
    }

    /** `evaluate`: a value vector of another width fails; otherwise the value
        of the joint generating function Π p_i ** n_i at v. */
    function Evaluate(v: seq<int>): (r: Result<int>)
      reads this
      requires Valid()
      ensures |v| != numVariables ==> r == Err(DimensionMismatch)
      ensures |v| == numVariables ==> r == Ok(PolySum(Joint(dice, numDice, numVariables), v))
    {
      if |v| != numVariables then Err(DimensionMismatch)
      else
        JointEval(dice, numDice, numVariables, v);
        EvaluateDice(dice, numDice, v)
    }

    /** `totalOutcomes`: Π faces_i ** n_i; for fair dice, the sum of all joint
        coefficients. */
    function TotalOutcomes(): (t: int)
      reads this
      requires Valid()
      ensures t >= 0
      ensures dice == [] ==> t == 1
      ensures AllFair(dice) ==> t == CoefSum(Joint(dice, numDice, numVariables))
    {
      TowerTotalNonNegative(dice, numDice);
      if AllFair(dice) then
        JointTotal(dice, numDice, numVariables);
        TowerTotal(dice, numDice)
      else TowerTotal(dice, numDice)
    }

    /** `calculateProbabilities`: base is the smallest power of ten above the
        number of outcomes; each variable is evaluated at 0 (degree 0), 1
        (summed out by the mask) or the next power of the base, and the tower
        is evaluated there. */
    method CalculateProbabilities(mask: Option<seq<bool>>) returns (cs: CoefficientString)
      requires Valid()
      ensures cs == Encode(dice, numDice, numVariables, mask)
    {
      var maxCoefficient := TotalOutcomes();
      var baseExp := Log10Above(maxCoefficient);
      var base := Pow(10, baseExp);
      var d := Degrees();
      ghost var ds, ns, width := dice, numDice, numVariables;
      assert base == BaseFor(ds, ns) && d == TowerDegrees(ds, ns, width);
      var values := EvaluationPoints(d, mask, base);
      var n := Evaluate(values);
      cs := CoefficientString(base, values, n.value);
      EncodeAtPoints(ds, ns, width, mask, values);
    }

    /** `stringify(name, names)`. */
    function Stringify(name: string, names: seq<string>): (s: string)
      reads this
      requires Valid()
      ensures s == TowerString(dice, numDice, name, names)
      ensures s == Lhs(name, names) + " = 1" <==> TotalOutcomes() == 1
    {
      TowerString(dice, numDice, name, names)
    }

    /** `buildComparativeDistribution(idxA, idxB)`: track only the two
        variables, then read every cell (a, b) up to their degrees out of the
        encoding. */
    method BuildComparativeDistribution(idxA: nat, idxB: nat) returns (dist: Distribution)
      requires Valid() && idxA < numVariables && idxB < numVariables
      ensures dist.rangeA == TowerDeg(dice, numDice, idxA) && dist.rangeB == TowerDeg(dice, numDice, idxB)
      ensures |dist.counts| == dist.rangeA + 1
      ensures forall a :: 0 <= a < |dist.counts| ==> |dist.counts[a]| == dist.rangeB + 1
      ensures forall a, b :: 0 <= a < |dist.counts| && 0 <= b <= dist.rangeB ==>
                Encode(dice, numDice, numVariables, Some(PairMask(numVariables, idxA, idxB)))
                  .Query(Cell(numVariables, idxA, a, idxB, b)) == Ok(dist.counts[a][b])
      ensures AllFair(dice) ==> forall a, b :: 0 <= a < |dist.counts| && 0 <= b <= dist.rangeB ==>
                dist.counts[a][b] == CellCoef(Joint(dice, numDice, numVariables), idxA, if idxA == idxB then b else a, idxB, b)
      ensures AllFair(dice) && idxA != idxB ==> TableSum(dist.counts) == TowerTotal(dice, numDice)
    {
      var isolateVariables := seq(numVariables, _ => false);
      isolateVariables := isolateVariables[idxA := true][idxB := true];
      assert isolateVariables == PairMask(numVariables, idxA, idxB);
      var coefficients := CalculateProbabilities(Some(isolateVariables));
      var degrees := Degrees();
      var degA, degB := degrees[idxA], degrees[idxB];
      ghost var ds, ns := dice, numDice;
      assert coefficients == Encode(ds, ns, numVariables, Some(PairMask(numVariables, idxA, idxB)));
      assert degA == TowerDeg(ds, ns, idxA) && degB == TowerDeg(ds, ns, idxB);
      EncodePairDefined(ds, ns, numVariables, idxA, idxB);
      var rows := ReadTable(coefficients, numVariables, idxA, idxB, degA, degB);
      dist := Distribution(degA, degB, rows);
      ComparativeTableMeaning(ds, ns, numVariables, idxA, idxB, dist);
    }

    /** `createArcsTower`: a five-variable tower of skirmish, assault and raid
        dice, in that order, with the given multiplicities. */
    static method CreateArcsTower(nSkirmish: nat, nAssault: nat, nRaid: nat) returns (tower: Dicetower)
      ensures fresh(tower) && tower.Valid() && tower.numVariables == 5
      ensures tower.numDice == [nSkirmish, nAssault, nRaid]
      ensures |tower.dice| == 3 && AllFair(tower.dice)
      ensures tower.dice[0].p.terms == SkirmishFaces()
      ensures tower.dice[1].p.terms == AssaultFaces()
      ensures tower.dice[2].p.terms == RaidFaces()
    {
      tower := new Dicetower(5);
      var skirmish := CreateSkirmishDie();
      var r := tower.AddDice(skirmish, nSkirmish);
      var assault := CreateAssaultDie();
      r := tower.AddDice(assault, nAssault);
      var raid := CreateRaidDie();
      r := tower.AddDice(raid, nRaid);
    }
  }
}
