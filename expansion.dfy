/** The joint generating function of a dice collection, written out term by
    term. Rolling the dice is a list of roll polynomials (each die repeated as
    often as it is rolled); their product, expanded without merging, lists one
    term per choice of a term from every roll. The coefficient of x^e in the
    product is the sum of the coefficients of the expanded terms with exponent
    vector e: the number of outcomes whose attribute totals are e. */
module Expansion {
  import opened Arith
  import opened Polynomial
  import opened Dice

  /** Component-wise sum of exponent vectors, of the first vector's width. */
  function VAdd(x: seq<nat>, y: seq<nat>): (z: seq<nat>)
    ensures |z| == |x|
  {
    seq(|x|, i requires 0 <= i < |x| => x[i] + ExpAt(y, i))
  }

  function Zeros(n: nat): (z: seq<nat>)
    ensures |z| == n && IsZeroVector(z)
  {
    seq(n, _ => 0)
  }

  function Ones(n: nat): (v: seq<int>)
    ensures |v| == n
  {
    seq(n, _ => 1)
  }

  function MulTerm(t: Term, u: Term): Term
  {
    Term(t.coeff * u.coeff, VAdd(t.exps, u.exps))
  }

  /** t times every term of us. */
  function Scale(t: Term, us: seq<Term>): (r: seq<Term>)
    ensures |r| == |us|
  {
    if us == [] then [] else [MulTerm(t, us[0])] + Scale(t, us[1..])
  }

  /** Every product of a term of ts with a term of us, unmerged. */
  function Cross(ts: seq<Term>, us: seq<Term>): (r: seq<Term>)
    ensures |r| == |ts| * |us|
  {
    if ts == [] then [] else Scale(ts[0], us) + Cross(ts[1..], us)
  }

  /** The product of the roll polynomials, expanded; the empty product is the
      constant 1. */
  function Expand(rolls: seq<seq<Term>>, n: nat): seq<Term>
  {
    if rolls == [] then [Term(1, Zeros(n))] else Cross(rolls[0], Expand(rolls[1..], n))
  }

  /** The product of the roll polynomials' values at v. */
  function ProdEval(rolls: seq<seq<Term>>, v: seq<int>): int
  {
    if rolls == [] then 1 else PolySum(rolls[0], v) * ProdEval(rolls[1..], v)
  }

  predicate Uniform(ts: seq<Term>, n: nat)
  {
    forall k :: 0 <= k < |ts| ==> |ts[k].exps| == n
  }

  predicate AllUniform(rolls: seq<seq<Term>>, n: nat)
  {
    forall i :: 0 <= i < |rolls| ==> Uniform(rolls[i], n)
  }

  /** The joint coefficient of x^e: Σ of the coefficients of the expanded terms
      whose exponent vector is e. */
  function JointCoef(us: seq<Term>, e: seq<nat>): int
  {
    if us == [] then 0 else (if us[0].exps == e then us[0].coeff else 0) + JointCoef(us[1..], e)
  }

  // ---------------------------------------------------------------------------
  // Evaluation is a ring homomorphism on the expansion.

  lemma {:induction false} PolySumAppend(a: seq<Term>, b: seq<Term>, v: seq<int>)
    ensures PolySum(a + b, v) == PolySum(a, v) + PolySum(b, v)
  {
    if a == [] {
      assert a + b == b;
    } else {
      assert (a + b)[1..] == a[1..] + b;
      PolySumAppend(a[1..], b, v);
    }
  }

  /** x^a · x^b == x^(a+b), component-wise; 0 ** 0 == 1 keeps this exact. */
  lemma {:induction false} MonomialVAdd(x: seq<nat>, y: seq<nat>, v: seq<int>)
    requires |x| == |y|
    ensures Monomial(VAdd(x, y), v) == Monomial(x, v) * Monomial(y, v)
  {
    if x != [] {
      var n := |x|;
      var z := VAdd(x, y);
      assert z[..n - 1] == VAdd(x[..n - 1], y[..n - 1]);
      MonomialVAdd(x[..n - 1], y[..n - 1], v);
      var b := At(v, n - 1);
      PowAdd(b, x[n - 1], y[n - 1]);
      var A, B := Monomial(x[..n - 1], v), Monomial(y[..n - 1], v);
      var P, Q := Pow(b, x[n - 1]), Pow(b, y[n - 1]);
      assert Monomial(z[..n - 1], v) == A * B;
      assert Pow(b, z[n - 1]) == P * Q;
      assert Monomial(z, v) == (A * B) * (P * Q);
      MulRearrange(A, B, P, Q);
    }
  }

  lemma TermValueMul(t: Term, u: Term, v: seq<int>)
    requires |t.exps| == |u.exps|
    ensures TermValue(MulTerm(t, u), v) == TermValue(t, v) * TermValue(u, v)
  {
    MonomialVAdd(t.exps, u.exps, v);
    var A, B := Monomial(t.exps, v), Monomial(u.exps, v);
    MulRearrange(t.coeff, u.coeff, A, B);
  }

  lemma {:induction false} PolySumScale(t: Term, us: seq<Term>, v: seq<int>)
    requires Uniform(us, |t.exps|)
    ensures PolySum(Scale(t, us), v) == TermValue(t, v) * PolySum(us, v)
  {
    if us != [] {
      var m, rest := MulTerm(t, us[0]), Scale(t, us[1..]);
      var T, U, R := TermValue(t, v), TermValue(us[0], v), PolySum(us[1..], v);
      assert PolySum(Scale(t, us), v) == TermValue(m, v) + PolySum(rest, v) by {
        assert Scale(t, us) == [m] + rest;
        PolySumAppend([m], rest, v);
        assert PolySum([m], v) == TermValue(m, v);
      }
      assert TermValue(m, v) == T * U by {
        TermValueMul(t, us[0], v);
      }
      assert PolySum(rest, v) == T * R by {
        PolySumScale(t, us[1..], v);
      }
      assert PolySum(us, v) == U + R;
      MulDistrib(U, R, T);
    }
  }

  /** Evaluating the expanded product of two polynomials is multiplying their
      values. */
  lemma {:induction false} PolySumCross(ts: seq<Term>, us: seq<Term>, n: nat, v: seq<int>)
    requires Uniform(ts, n) && Uniform(us, n)
    ensures PolySum(Cross(ts, us), v) == PolySum(ts, v) * PolySum(us, v)
  {
    if ts != [] {
      PolySumCross(ts[1..], us, n, v);
      PolySumScale(ts[0], us, v);
      PolySumAppend(Scale(ts[0], us), Cross(ts[1..], us), v);
      MulDistrib(TermValue(ts[0], v), PolySum(ts[1..], v), PolySum(us, v));
    }
  }

  lemma {:induction false} CrossUniform(ts: seq<Term>, us: seq<Term>, n: nat)
    requires Uniform(ts, n)
    ensures Uniform(Cross(ts, us), n)
  {
    if ts != [] {
      CrossUniform(ts[1..], us, n);
      ScaleUniform(ts[0], us);
    }
  }

  lemma {:induction false} ScaleUniform(t: Term, us: seq<Term>)
    ensures Uniform(Scale(t, us), |t.exps|)
  {
    if us != [] {
      ScaleUniform(t, us[1..]);
    }
  }

  lemma {:induction false} ExpandUniform(rolls: seq<seq<Term>>, n: nat)
    requires AllUniform(rolls, n)
    ensures Uniform(Expand(rolls, n), n)
  {
    if rolls != [] {
      CrossUniform(rolls[0], Expand(rolls[1..], n), n);
    }
  }

  /** The expanded product evaluates to the product of the rolls' values. */
  lemma {:induction false} ExpandEval(rolls: seq<seq<Term>>, n: nat, v: seq<int>)
    requires AllUniform(rolls, n)
    ensures PolySum(Expand(rolls, n), v) == ProdEval(rolls, v)
  {
    if rolls == [] {
      MonomialOfZeroVector(Zeros(n), v);
    } else {
      assert AllUniform(rolls[1..], n);
      ExpandEval(rolls[1..], n, v);
      ExpandUniform(rolls[1..], n);
      PolySumCross(rolls[0], Expand(rolls[1..], n), n, v);
    }
  }

  // ---------------------------------------------------------------------------
  // Coefficient sums, signs and exponent bounds of the expansion.

  lemma {:induction false} MonomialAtOnes(x: seq<nat>, v: seq<int>)
    requires forall i :: 0 <= i < |x| ==> At(v, i) == 1
    ensures Monomial(x, v) == 1
  {
    if x != [] {
      MonomialAtOnes(x[..|x| - 1], v);
      PowOfOne(x[|x| - 1]);
    }
  }

  /** The coefficient sum is the value at the all-ones point. */
  lemma {:induction false} CoefSumIsValueAtOnes(ts: seq<Term>, n: nat)
    requires Uniform(ts, n)
    ensures CoefSum(ts) == PolySum(ts, Ones(n))
  {
    if ts != [] {
      CoefSumIsValueAtOnes(ts[1..], n);
      MonomialAtOnes(ts[0].exps, Ones(n));
    }
  }

  lemma {:induction false} NonNegativeScale(t: Term, us: seq<Term>)
    requires t.coeff >= 0 && NonNegative(us)
    ensures NonNegative(Scale(t, us))
  {
    if us != [] {
      NonNegativeScale(t, us[1..]);
    }
  }

  lemma {:induction false} NonNegativeCross(ts: seq<Term>, us: seq<Term>)
    requires NonNegative(ts) && NonNegative(us)
    ensures NonNegative(Cross(ts, us))
  {
    if ts != [] {
      NonNegativeCross(ts[1..], us);
      NonNegativeScale(ts[0], us);
    }
  }

  /** Counting outcomes never yields a negative count. */
  lemma {:induction false} NonNegativeExpand(rolls: seq<seq<Term>>, n: nat)
    requires forall i :: 0 <= i < |rolls| ==> NonNegative(rolls[i])
    ensures NonNegative(Expand(rolls, n))
  {
    if rolls != [] {
      NonNegativeExpand(rolls[1..], n);
      NonNegativeCross(rolls[0], Expand(rolls[1..], n));
    }
  }

  /** No term of ts has more than b of variable j. */
  predicate Bounded(ts: seq<Term>, j: nat, b: nat)
  {
    forall k :: 0 <= k < |ts| ==> ExpAt(ts[k].exps, j) <= b
  }

  lemma {:induction false} ScaleBounded(t: Term, us: seq<Term>, j: nat, b: nat)
    requires Bounded(us, j, b)
    ensures Bounded(Scale(t, us), j, ExpAt(t.exps, j) + b)
  {
    if us != [] {
      ScaleBounded(t, us[1..], j, b);
    }
  }

  lemma {:induction false} CrossBounded(ts: seq<Term>, us: seq<Term>, j: nat, a: nat, b: nat)
    requires Bounded(ts, j, a) && Bounded(us, j, b)
    ensures Bounded(Cross(ts, us), j, a + b)
  {
    if ts != [] {
      CrossBounded(ts[1..], us, j, a, b);
      ScaleBounded(ts[0], us, j, b);
    }
  }

  /** Σ over the rolls of each roll's largest exponent of variable j. */
  function SumDeg(rolls: seq<seq<Term>>, j: nat): nat
  {
    if rolls == [] then 0 else MaxExp(rolls[0], j) + SumDeg(rolls[1..], j)
  }

  /** No outcome's total of variable j exceeds the sum of the rolls' degrees. */
  lemma {:induction false} ExpandBounded(rolls: seq<seq<Term>>, n: nat, j: nat)
    ensures Bounded(Expand(rolls, n), j, SumDeg(rolls, j))
  {
    if rolls != [] {
      ExpandBounded(rolls[1..], n, j);
      MaxExpIsMaximum(rolls[0], j);
      CrossBounded(rolls[0], Expand(rolls[1..], n), j, MaxExp(rolls[0], j), SumDeg(rolls[1..], j));
    }
  }

  // ---------------------------------------------------------------------------
  // From a dice collection (dice with multiplicities) to its list of rolls.

  function Repeat(ts: seq<Term>, m: nat): (r: seq<seq<Term>>)
    ensures |r| == m && forall i :: 0 <= i < m ==> r[i] == ts
  {
    seq(m, _ => ts)
  }

  /** Each die's terms repeated as often as the die is rolled, in order. */
  function Rolls(dice: seq<Die>, numDice: seq<nat>): seq<seq<Term>>
    requires |dice| == |numDice|
  {
    if dice == [] then [] else Repeat(dice[0].p.terms, numDice[0]) + Rolls(dice[1..], numDice[1..])
  }

  /** Π p_i(v) ** n_i. */
  function TowerProduct(dice: seq<Die>, numDice: seq<nat>, v: seq<int>): int
    requires |dice| == |numDice|
  {
    if dice == [] then 1
    else Pow(PolySum(dice[0].p.terms, v), numDice[0]) * TowerProduct(dice[1..], numDice[1..], v)
  }

  /** Π faces_i ** n_i: the number of equally likely outcomes. */
  function TowerTotal(dice: seq<Die>, numDice: seq<nat>): int
    requires |dice| == |numDice|
  {
    if dice == [] then 1 else Pow(dice[0].numFaces, numDice[0]) * TowerTotal(dice[1..], numDice[1..])
  }

  /** Σ n_i · degree_i(j): the largest total variable j can reach. */
  function TowerDeg(dice: seq<Die>, numDice: seq<nat>, j: nat): nat
    requires |dice| == |numDice|
  {
    if dice == [] then 0 else numDice[0] * MaxExp(dice[0].p.terms, j) + TowerDeg(dice[1..], numDice[1..], j)
  }

  /** Every die is a well-formed polynomial over n variables. */
  predicate DiceOver(dice: seq<Die>, n: nat)
  {
    forall i :: 0 <= i < |dice| ==> dice[i].p.Valid() && dice[i].p.numVariables == n
  }

  lemma {:induction false} RollsUniform(dice: seq<Die>, numDice: seq<nat>, n: nat)
    requires |dice| == |numDice| && DiceOver(dice, n)
    ensures AllUniform(Rolls(dice, numDice), n)
  {
    if dice != [] {
      RollsUniform(dice[1..], numDice[1..], n);
    }
  }

  lemma {:induction false} RollsNonNegative(dice: seq<Die>, numDice: seq<nat>)
    requires |dice| == |numDice|
    requires forall i :: 0 <= i < |dice| ==> NonNegative(dice[i].p.terms)
    ensures forall i :: 0 <= i < |Rolls(dice, numDice)| ==> NonNegative(Rolls(dice, numDice)[i])
  {
    if dice != [] {
      RollsNonNegative(dice[1..], numDice[1..]);
    }
  }

  lemma {:induction false} ProdEvalAppend(a: seq<seq<Term>>, b: seq<seq<Term>>, v: seq<int>)
    ensures ProdEval(a + b, v) == ProdEval(a, v) * ProdEval(b, v)
  {
    if a == [] {
      assert a + b == b;
    } else {
      assert (a + b)[1..] == a[1..] + b;
      ProdEvalAppend(a[1..], b, v);
    }
  }

  lemma {:induction false} ProdEvalRepeat(ts: seq<Term>, m: nat, v: seq<int>)
    ensures ProdEval(Repeat(ts, m), v) == Pow(PolySum(ts, v), m)
  {
    if m > 0 {
      assert Repeat(ts, m)[1..] == Repeat(ts, m - 1);
      ProdEvalRepeat(ts, m - 1, v);
    }
  }

  /** Rolling each die n_i times is raising its polynomial to the n_i. */
  lemma {:induction false} RollsEval(dice: seq<Die>, numDice: seq<nat>, v: seq<int>)
    requires |dice| == |numDice|
    ensures ProdEval(Rolls(dice, numDice), v) == TowerProduct(dice, numDice, v)
  {
    if dice != [] {
      RollsEval(dice[1..], numDice[1..], v);
      ProdEvalAppend(Repeat(dice[0].p.terms, numDice[0]), Rolls(dice[1..], numDice[1..]), v);
      ProdEvalRepeat(dice[0].p.terms, numDice[0], v);
    }
  }

  lemma {:induction false} SumDegAppend(a: seq<seq<Term>>, b: seq<seq<Term>>, j: nat)
    ensures SumDeg(a + b, j) == SumDeg(a, j) + SumDeg(b, j)
  {
    if a == [] {
      assert a + b == b;
    } else {
      assert (a + b)[1..] == a[1..] + b;
      SumDegAppend(a[1..], b, j);
    }
  }

  lemma {:induction false} SumDegRepeat(ts: seq<Term>, m: nat, j: nat)
    ensures SumDeg(Repeat(ts, m), j) == m * MaxExp(ts, j)
  {
    if m > 0 {
      assert Repeat(ts, m)[1..] == Repeat(ts, m - 1);
      SumDegRepeat(ts, m - 1, j);
    }
  }

  lemma {:induction false} RollsDeg(dice: seq<Die>, numDice: seq<nat>, j: nat)
    requires |dice| == |numDice|
    ensures SumDeg(Rolls(dice, numDice), j) == TowerDeg(dice, numDice, j)
  {
    if dice != [] {
      RollsDeg(dice[1..], numDice[1..], j);
      SumDegAppend(Repeat(dice[0].p.terms, numDice[0]), Rolls(dice[1..], numDice[1..]), j);
      SumDegRepeat(dice[0].p.terms, numDice[0], j);
    }
  }

  /** The joint generating function of the collection, expanded. */
  function Joint(dice: seq<Die>, numDice: seq<nat>, n: nat): seq<Term>
    requires |dice| == |numDice|
  {
    Expand(Rolls(dice, numDice), n)
  }

  /** Evaluating the collection (Π p_i(v) ** n_i) evaluates its expanded joint
      generating function. */
  lemma JointEval(dice: seq<Die>, numDice: seq<nat>, n: nat, v: seq<int>)
    requires |dice| == |numDice| && DiceOver(dice, n)
    ensures PolySum(Joint(dice, numDice, n), v) == TowerProduct(dice, numDice, v)
  {
    RollsUniform(dice, numDice, n);
    ExpandEval(Rolls(dice, numDice), n, v);
    RollsEval(dice, numDice, v);
  }

  /** Every expanded term has the collection's width, a non-negative count,
      and no variable total beyond the collection's degree. */
  lemma JointShape(dice: seq<Die>, numDice: seq<nat>, n: nat)
    requires |dice| == |numDice| && DiceOver(dice, n)
    requires forall i :: 0 <= i < |dice| ==> NonNegative(dice[i].p.terms)
    ensures Uniform(Joint(dice, numDice, n), n)
    ensures NonNegative(Joint(dice, numDice, n))
    ensures forall j :: 0 <= j < n ==> Bounded(Joint(dice, numDice, n), j, TowerDeg(dice, numDice, j))
  {
    RollsUniform(dice, numDice, n);
    ExpandUniform(Rolls(dice, numDice), n);
    RollsNonNegative(dice, numDice);
    NonNegativeExpand(Rolls(dice, numDice), n);
    forall j | 0 <= j < n
      ensures Bounded(Joint(dice, numDice, n), j, TowerDeg(dice, numDice, j))
    {
      ExpandBounded(Rolls(dice, numDice), n, j);
      RollsDeg(dice, numDice, j);
    }
  }

  lemma {:induction false} TowerProductAtOnes(dice: seq<Die>, numDice: seq<nat>, n: nat)
    requires |dice| == |numDice| && DiceOver(dice, n)
    requires forall i :: 0 <= i < |dice| ==> Fair(dice[i])
    ensures TowerProduct(dice, numDice, Ones(n)) == TowerTotal(dice, numDice)
  {
    if dice != [] {
      TowerProductAtOnes(dice[1..], numDice[1..], n);
      CoefSumIsValueAtOnes(dice[0].p.terms, n);
    }
  }

  /** For fair dice the joint coefficients add up to the number of outcomes:
      every outcome is counted exactly once. */
  lemma JointTotal(dice: seq<Die>, numDice: seq<nat>, n: nat)
    requires |dice| == |numDice| && DiceOver(dice, n)
    requires forall i :: 0 <= i < |dice| ==> Fair(dice[i])
    ensures CoefSum(Joint(dice, numDice, n)) == TowerTotal(dice, numDice)
  {
    RollsUniform(dice, numDice, n);
    ExpandUniform(Rolls(dice, numDice), n);
    CoefSumIsValueAtOnes(Joint(dice, numDice, n), n);
    JointEval(dice, numDice, n, Ones(n));
    TowerProductAtOnes(dice, numDice, n);
  }
}
