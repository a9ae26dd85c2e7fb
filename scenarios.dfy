/** Concrete instances of the model: the worked examples the repository's own
    tests use, and the input that separates the as-written encoding from the
    corrected one. */
module Scenarios {
  import opened Errors
  import opened Arith
  import opened Text
  import opened Polynomial
  import opened Dice
  import opened Expansion
  import opened Encoding
  import opened Tower

  /** The two-variable polynomial 2 + 3x + 4y + 5x²y + 0x²y². */
  function Sample(): Poly
  {
    Poly(2, [Term(2, [0, 0]), Term(3, [1, 0]), Term(4, [0, 1]), Term(5, [2, 1]), Term(0, [2, 2])])
  }

  lemma SampleEvaluates()
    ensures Poly(2, []).Evaluate([1, 1]) == Ok(0)
    ensures Poly(2, [Term(2, [0, 0])]).Evaluate([1, 1]) == Ok(2)
    ensures Sample().Evaluate([2, 2]) == Ok(56)
    ensures Sample().Evaluate([2]) == Err(DimensionMismatch)
  {
    assert Sample().Valid();
  }

  lemma SampleDegrees()
    ensures var ts := [Term(2, [0, 0]), Term(3, [1, 0]), Term(4, [0, 1]), Term(5, [2, 1]), Term(1, [2, 3]), Term(1, [2, 2])];
            MaxExp(ts, 0) == 2 && MaxExp(ts, 1) == 3
  {
    var ts := [Term(2, [0, 0]), Term(3, [1, 0]), Term(4, [0, 1]), Term(5, [2, 1]), Term(1, [2, 3]), Term(1, [2, 2])];
    assert ExpAt(ts[3].exps, 0) == 2 && ExpAt(ts[4].exps, 1) == 3;
    MaxExpCharacterised(ts, 0, 2);
    MaxExpCharacterised(ts, 1, 3);
  }

  lemma SampleMaxCoefficient()
    ensures Sample().MaxCoefficient() == 5
    ensures Poly(2, []).MaxCoefficient() == 0
  {
  }

  lemma SampleFactors()
    ensures Factors([1, 0], ["x", "y"]) == ["x"] && Factors([0, 1], ["x", "y"]) == ["y"]
    ensures Factors([2, 1], ["x", "y"]) == ["x^{2}", "y"]
  {
    var names := ["x", "y"];
    assert NatToString(2) == "2";
    assert [1, 0][..1] == [1] && [0, 1][..1] == [0] && [2, 1][..1] == [2];
    assert "x" + "^{" + "2" + "}" == "x^{2}";
    assert Factors([2], names) == ["x^{2}"];
  }

  lemma SampleTerms()
    ensures StringifyTerm(Term(2, [0, 0]), ["x", "y"]) == Some("2")
    ensures StringifyTerm(Term(3, [1, 0]), ["x", "y"]) == Some("3x")
    ensures StringifyTerm(Term(1, [0, 1]), ["x", "y"]) == Some("y")
    ensures StringifyTerm(Term(5, [2, 1]), ["x", "y"]) == Some("5x^{2}y")
    ensures StringifyTerm(Term(0, [2, 2]), ["x", "y"]) == None
  {
    SampleFactors();
    assert IntToString(3) == "3" && IntToString(5) == "5" && IntToString(2) == "2";
    assert Join(["x^{2}", "y"], "") == "x^{2}y";
    assert "3" + "x" == "3x";
    assert "5" + "x^{2}y" == "5x^{2}y";
  }

  /** Variables past the end of the names: exponent 1 is filtered out, so
      3x prints as the constant "3"; a higher exponent prints the name
      "undefined". */
  lemma UnnamedVariables()
    ensures StringifyTerm(Term(3, [1]), []) == Some("3")
    ensures StringifyTerm(Term(1, [2]), []) == Some("undefined^{2}")
    ensures StringifyTerm(Term(1, [1, 1]), ["x"]) == Some("x")
  {
    assert IntToString(3) == "3";
    assert NatToString(2) == "2";
    assert [2][..0] == [] && [1, 1][..1] == [1];
    assert Factor(2, None) == Some("undefined^{2}") by {
      assert "undefined" + "^{" + "2" + "}" == "undefined^{2}";
    }
    assert Factors([2], []) == Factors([], []) + ["undefined^{2}"];
    assert Factors([1, 1], ["x"]) == ["x"];
    assert !NoFactorShown([2], []) by {
      assert Shown([2], [], 0);
    }
    assert !NoFactorShown([1, 1], ["x"]) by {
      assert Shown([1, 1], ["x"], 0);
    }
  }

  lemma SamplePrinted()
    ensures PrintedTerms([Term(2, [0, 0]), Term(3, [1, 0]), Term(1, [0, 1]), Term(5, [2, 1]), Term(0, [2, 2])], ["x", "y"])
         == ["2", "3x", "y", "5x^{2}y"]
  {
    var names := ["x", "y"];
    var ts := [Term(2, [0, 0]), Term(3, [1, 0]), Term(1, [0, 1]), Term(5, [2, 1]), Term(0, [2, 2])];
    SampleTerms();
    assert PrintedTerms(ts[4..], names) == [];
    assert PrintedTerms(ts[3..], names) == ["5x^{2}y"];
    assert PrintedTerms(ts[2..], names) == ["y", "5x^{2}y"];
    assert PrintedTerms(ts[1..], names) == ["3x", "y", "5x^{2}y"];
  }

  /** The printed polynomial of the repository's pretty-printing example, at
      each stage it checks. */
  lemma SampleStringifies()
    ensures Poly(2, []).Stringify(["x", "y"]) == "0"
    ensures Poly(2, [Term(2, [0, 0])]).Stringify(["x", "y"]) == "2"
    ensures Poly(2, [Term(2, [0, 0]), Term(3, [1, 0]), Term(1, [0, 1]), Term(5, [2, 1]), Term(0, [2, 2])])
              .Stringify(["x", "y"]) == "2 + 3x + y + 5x^{2}y"
  {
    SampleConstantPrints();
    SampleFullPrints();
  }

  lemma SampleConstantPrints()
    ensures Poly(2, [Term(2, [0, 0])]).Stringify(["x", "y"]) == "2"
  {
    var names := ["x", "y"];
    StringifyJoins(Poly(2, [Term(2, [0, 0])]), names);
    SampleTerms();
    PrintedAll([Term(2, [0, 0])], names, ["2"]);
  }

  lemma SampleFullPrints()
    ensures Poly(2, [Term(2, [0, 0]), Term(3, [1, 0]), Term(1, [0, 1]), Term(5, [2, 1]), Term(0, [2, 2])])
              .Stringify(["x", "y"]) == "2 + 3x + y + 5x^{2}y"
  {
    var names := ["x", "y"];
    var p := Poly(2, [Term(2, [0, 0]), Term(3, [1, 0]), Term(1, [0, 1]), Term(5, [2, 1]), Term(0, [2, 2])]);
    StringifyJoins(p, names);
    SamplePrinted();
    JoinFour("2", "3x", "y", "5x^{2}y", " + ");
    SampleLine();
  }

  lemma SampleLine()
    ensures "2" + " + " + "3x" + " + " + "y" + " + " + "5x^{2}y" == "2 + 3x + y + 5x^{2}y"
  {
  }

  /** The repository's hand-built coefficient string: 18 + 13x + 12x² + 7xy
      + 9xy² at x = 100, y = 10⁷, read back one coefficient at a time. */
  lemma HandBuiltQueries()
    ensures var cs := CoefficientString(100, [100, 10000000], 90000007000121318);
            cs.Query([0, 0]) == Ok(18) && cs.Query([1, 0]) == Ok(13) && cs.Query([2, 0]) == Ok(12) &&
            cs.Query([1, 1]) == Ok(7) && cs.Query([1, 2]) == Ok(9)
  {
    var basis := [100, 10000000];
    assert [0, 0][..2] == [0, 0] && [1, 0][..2] == [1, 0] && [2, 0][..2] == [2, 0];
    assert [1, 1][..2] == [1, 1] && [1, 2][..2] == [1, 2];
    assert Monomial([0, 0], basis) == 1;
    assert Monomial([1, 0], basis) == 100;
    assert Monomial([2, 0], basis) == 10000;
    assert Monomial([1, 1], basis) == 1000000000;
    assert Monomial([1, 2], basis) == 10000000000000000;
  }

  /** The assault die and an ordinary six-sided die as values. */
  function Assault(): Die
  {
    Die(Poly(5, AssaultFaces()), 6)
  }

  function D6(): Die
  {
    Die(Poly(1, [Term(1, [1]), Term(1, [2]), Term(1, [3]), Term(1, [4]), Term(1, [5]), Term(1, [6])]), 6)
  }

  /** Four assault dice reach at most 8 hits, 4 of the second symbol, 4 of
      the fourth and none of the others. */
  lemma FourAssaultDegrees()
    ensures TowerDegrees([Assault()], [4], 5) == [8, 4, 0, 4, 0]
  {
    AssaultMaxExps();
    var d := TowerDegrees([Assault()], [4], 5);
    forall j | 0 <= j < 5
      ensures d[j] == 4 * MaxExp(AssaultFaces(), j)
    {
      OneKindDeg(Assault(), 4, j);
    }
  }

  /** The most of each symbol a single assault die shows. */
  lemma AssaultMaxExps()
    ensures MaxExp(AssaultFaces(), 0) == 2 && MaxExp(AssaultFaces(), 1) == 1 && MaxExp(AssaultFaces(), 2) == 0
    ensures MaxExp(AssaultFaces(), 3) == 1 && MaxExp(AssaultFaces(), 4) == 0
  {
    var ts := AssaultFaces();
    assert ExpAt(ts[1].exps, 0) == 2 && ExpAt(ts[2].exps, 1) == 1 && ExpAt(ts[3].exps, 3) == 1;
    assert ExpAt(ts[0].exps, 2) == 0 && ExpAt(ts[0].exps, 4) == 0;
    MaxExpCharacterised(ts, 0, 2);
    MaxExpCharacterised(ts, 1, 1);
    MaxExpCharacterised(ts, 2, 0);
    MaxExpCharacterised(ts, 3, 1);
    MaxExpCharacterised(ts, 4, 0);
  }

  /** One kind of die rolled n times reaches n times its largest exponent. */
  lemma OneKindDeg(d: Die, n: nat, j: nat)
    ensures TowerDeg([d], [n], j) == n * MaxExp(d.p.terms, j)
  {
    assert [d][1..] == [] && [n][1..] == [];
  }

  /** One six-sided die at x = 10 is 10 + 100 + … + 10⁶, and adding a second
      die rolled 0 times changes nothing. */
  lemma OneD6Evaluates()
    ensures TowerProduct([D6()], [1], [10]) == 1111110
    ensures TowerProduct([D6(), D6()], [1, 0], [10]) == 1111110
  {
    UnrolledEntryChangesNothing([D6()], [1], D6(), 1, [10]);
    assert [D6()] + [D6()] == [D6(), D6()] && [1] + [0] == [1, 0];
  }

  lemma OutcomeCounts()
    ensures TowerTotal([D6()], [4]) == 1296
    ensures TowerTotal([D6(), Die(Poly(1, [Term(1, [1]), Term(1, [2]), Term(1, [3]), Term(1, [4])]), 4)], [4, 2]) == 1296 * 16
  {
  }

  /** Two six-sided dice: base 100 (the smallest power of ten above 36), the
      single variable at 100, and the generating function's value there. */
  lemma TwoD6Encoding()
    ensures Encode([D6()], [2], 1, None) == CoefficientString(100, [100], 1020304050605040302010000)
  {
    D6Degree();
    D6Base();
    assert BandsAsWritten([12], None, 0, 0, 0) == [Power(1)];
    assert Points([Power(1)], 100) == [100];
    D6AtHundred();
    TwoRolls(D6(), [100]);
    assert 1010101010100 * 1010101010100 == 1020304050605040302010000;
  }

  lemma D6Degree()
    ensures TowerDegrees([D6()], [2], 1) == [12]
  {
    var ts := D6().p.terms;
    assert ExpAt(ts[5].exps, 0) == 6;
    MaxExpCharacterised(ts, 0, 6);
    assert [D6()][1..] == [] && [2][1..] == [];
    assert TowerDeg([D6()], [2], 0) == 2 * 6 + TowerDeg([], [], 0);
  }

  lemma D6Base()
    ensures BaseFor([D6()], [2]) == 100
  {
    assert [D6()][1..] == [] && [2][1..] == [];
    assert TowerTotal([D6()], [2]) == 36;
    assert Log10Above(36) == 2;
  }

  lemma D6AtHundred()
    ensures PolySum(D6().p.terms, [100]) == 1010101010100
  {
    var ts := D6().p.terms;
    forall k | 0 <= k < 6
      ensures TermValue(ts[k], [100]) == Pow(100, k + 1)
    {
      assert ts[k] == Term(1, [k + 1]);
      assert [k + 1][..0] == [];
    }
    assert Pow(100, 6) == 1000000000000;
    assert PolySum(ts[5..], [100]) == 1000000000000;
    assert PolySum(ts[4..], [100]) == 10000000000 + 1000000000000;
    assert PolySum(ts[3..], [100]) == 100000000 + 1010000000000;
    assert PolySum(ts[2..], [100]) == 1000000 + 1010100000000;
    assert PolySum(ts[1..], [100]) == 10000 + 1010101000000;
  }

  /** One die rolled twice: the tower's product is the die's value squared. */
  lemma TwoRolls(d: Die, v: seq<int>)
    ensures TowerProduct([d], [2], v) == PolySum(d.p.terms, v) * PolySum(d.p.terms, v)
  {
    assert [d][1..] == [] && [2][1..] == [];
    var x := PolySum(d.p.terms, v);
    assert Pow(x, 2) == x * Pow(x, 1) == x * (x * 1);
  }

  /** Reading the 2d6 encoding gives the number of ways to roll each total:
      0 for totals 0 and 1, then 1, 2, …, 6, …, 2, 1 for totals 2 to 12, and 0
      for 13. */
  lemma TwoD6Distribution()
    ensures var cs := Encode([D6()], [2], 1, None);
            cs.Query([0]) == Ok(0) &&
            cs.Query([1]) == Ok(0) &&
            cs.Query([2]) == Ok(1) &&
            cs.Query([3]) == Ok(2) &&
            cs.Query([4]) == Ok(3) &&
            cs.Query([5]) == Ok(4) &&
            cs.Query([6]) == Ok(5) &&
            cs.Query([7]) == Ok(6) &&
            cs.Query([8]) == Ok(5) &&
            cs.Query([9]) == Ok(4) &&
            cs.Query([10]) == Ok(3) &&
            cs.Query([11]) == Ok(2) &&
            cs.Query([12]) == Ok(1) &&
            cs.Query([13]) == Ok(0)
  {
    TwoD6Encoding();
    TwoD6Band0();
    TwoD6Band1();
    TwoD6Band2();
    TwoD6Band3();
    TwoD6Band4();
    TwoD6Band5();
    TwoD6Band6();
    TwoD6Band7();
    TwoD6Band8();
    TwoD6Band9();
    TwoD6Band10();
    TwoD6Band11();
    TwoD6Band12();
    TwoD6Band13();
  }

  lemma TwoD6Band0()
    ensures CoefficientString(100, [100], 1020304050605040302010000).Query([0]) == Ok(0)
  {
    assert Pow(100, 0) == 1;
    assert 1020304050605040302010000 / 1 == 1020304050605040302010000;
    SingleVariableQuery(100, 100, 1020304050605040302010000, 0, 1, 1020304050605040302010000, 0);
  }

  lemma TwoD6Band1()
    ensures CoefficientString(100, [100], 1020304050605040302010000).Query([1]) == Ok(0)
  {
    assert Pow(100, 1) == 100;
    assert 1020304050605040302010000 / 100 == 10203040506050403020100;
    SingleVariableQuery(100, 100, 1020304050605040302010000, 1, 100, 10203040506050403020100, 0);
  }

  lemma TwoD6Band2()
    ensures CoefficientString(100, [100], 1020304050605040302010000).Query([2]) == Ok(1)
  {
    assert Pow(100, 2) == 10000;
    assert 1020304050605040302010000 / 10000 == 102030405060504030201;
    SingleVariableQuery(100, 100, 1020304050605040302010000, 2, 10000, 102030405060504030201, 1);
  }

  lemma TwoD6Band3()
    ensures CoefficientString(100, [100], 1020304050605040302010000).Query([3]) == Ok(2)
  {
    assert Pow(100, 3) == 1000000;
    assert 1020304050605040302010000 / 1000000 == 1020304050605040302;
    SingleVariableQuery(100, 100, 1020304050605040302010000, 3, 1000000, 1020304050605040302, 2);
  }

  lemma TwoD6Band4()
    ensures CoefficientString(100, [100], 1020304050605040302010000).Query([4]) == Ok(3)
  {
    assert Pow(100, 4) == 100000000;
    assert 1020304050605040302010000 / 100000000 == 10203040506050403;
    SingleVariableQuery(100, 100, 1020304050605040302010000, 4, 100000000, 10203040506050403, 3);
  }

  lemma TwoD6Band5()
    ensures CoefficientString(100, [100], 1020304050605040302010000).Query([5]) == Ok(4)
  {
    assert Pow(100, 5) == 10000000000;
    assert 1020304050605040302010000 / 10000000000 == 102030405060504;
    SingleVariableQuery(100, 100, 1020304050605040302010000, 5, 10000000000, 102030405060504, 4);
  }

  lemma TwoD6Band6()
    ensures CoefficientString(100, [100], 1020304050605040302010000).Query([6]) == Ok(5)
  {
    assert Pow(100, 6) == 1000000000000;
    assert 1020304050605040302010000 / 1000000000000 == 1020304050605;
    SingleVariableQuery(100, 100, 1020304050605040302010000, 6, 1000000000000, 1020304050605, 5);
  }

  lemma TwoD6Band7()
    ensures CoefficientString(100, [100], 1020304050605040302010000).Query([7]) == Ok(6)
  {
    assert Pow(100, 7) == 100000000000000;
    assert 1020304050605040302010000 / 100000000000000 == 10203040506;
    SingleVariableQuery(100, 100, 1020304050605040302010000, 7, 100000000000000, 10203040506, 6);
  }

  lemma TwoD6Band8()
    ensures CoefficientString(100, [100], 1020304050605040302010000).Query([8]) == Ok(5)
  {
    assert Pow(100, 8) == 10000000000000000;
    assert 1020304050605040302010000 / 10000000000000000 == 102030405;
    SingleVariableQuery(100, 100, 1020304050605040302010000, 8, 10000000000000000, 102030405, 5);
  }

  lemma TwoD6Band9()
    ensures CoefficientString(100, [100], 1020304050605040302010000).Query([9]) == Ok(4)
  {
    assert Pow(100, 9) == 1000000000000000000;
    assert 1020304050605040302010000 / 1000000000000000000 == 1020304;
    SingleVariableQuery(100, 100, 1020304050605040302010000, 9, 1000000000000000000, 1020304, 4);
  }

  lemma TwoD6Band10()
    ensures CoefficientString(100, [100], 1020304050605040302010000).Query([10]) == Ok(3)
  {
    assert Pow(100, 10) == 100000000000000000000;
    assert 1020304050605040302010000 / 100000000000000000000 == 10203;
    SingleVariableQuery(100, 100, 1020304050605040302010000, 10, 100000000000000000000, 10203, 3);
  }

  lemma TwoD6Band11()
    ensures CoefficientString(100, [100], 1020304050605040302010000).Query([11]) == Ok(2)
  {
    assert Pow(100, 11) == 10000000000000000000000;
    assert 1020304050605040302010000 / 10000000000000000000000 == 102;
    SingleVariableQuery(100, 100, 1020304050605040302010000, 11, 10000000000000000000000, 102, 2);
  }

  lemma TwoD6Band12()
    ensures CoefficientString(100, [100], 1020304050605040302010000).Query([12]) == Ok(1)
  {
    assert Pow(100, 12) == 1000000000000000000000000;
    assert 1020304050605040302010000 / 1000000000000000000000000 == 1;
    SingleVariableQuery(100, 100, 1020304050605040302010000, 12, 1000000000000000000000000, 1, 1);
  }

  lemma TwoD6Band13()
    ensures CoefficientString(100, [100], 1020304050605040302010000).Query([13]) == Ok(0)
  {
    assert Pow(100, 13) == 100000000000000000000000000;
    assert 1020304050605040302010000 / 100000000000000000000000000 == 0;
    SingleVariableQuery(100, 100, 1020304050605040302010000, 13, 100000000000000000000000000, 0, 0);
  }

  /** With one variable, `query([t])` reads band t of the positional value. */
  lemma SingleVariableQuery(base: int, p: int, n: int, t: nat, shift: int, q: int, c: int)
    requires base > 0 && p > 0 && n >= 0 && shift == Pow(p, t) && shift > 0
    requires n / shift == q && q % base == c
    ensures CoefficientString(base, [p], n).Query([t]) == Ok(c)
  {
    PowPositive(p, t);
    assert [t][..1] == [t];
    assert Monomial([t], [p]) == shift by {
      assert [t][..0] == [] && Monomial([], [p]) == 1 && At([p], 0) == p;
      assert Monomial([t], [p]) == Monomial([t][..0], [p]) * Pow(At([p], 0), [t][0]);
    }
    assert TDiv(n, shift) == q by {
      DivNonNegative(n, shift);
    }
    DivNonNegative(n, shift);
    assert TMod(q, base) == c;
  }

  // ---------------------------------------------------------------------------
  // Three tracked variables: where the as-written weights collide.

  /** A two-faced die over three variables: one face shows x·y, the other z. */
  function Collider(): Die
  {
    Die(Poly(3, [Term(1, [1, 1, 0]), Term(1, [0, 0, 1])]), 2)
  }

  lemma ColliderShape()
    ensures DiceOver([Collider()], 3) && AllFair([Collider()])
    ensures TowerDegrees([Collider()], [1], 3) == [1, 1, 1]
    ensures BaseFor([Collider()], [1]) == 10
  {
    var ts := Collider().p.terms;
    assert CoefSum(ts) == ts[0].coeff + CoefSum(ts[1..]);
    assert ExpAt(ts[0].exps, 0) == 1 && ExpAt(ts[0].exps, 1) == 1 && ExpAt(ts[1].exps, 2) == 1;
    MaxExpCharacterised(ts, 0, 1);
    MaxExpCharacterised(ts, 1, 1);
    MaxExpCharacterised(ts, 2, 1);
    assert Log10Above(2) == 1;
  }

  /** The die's value at (10, 100, p) is 10·100 + p. */
  lemma ColliderValue(p: int)
    ensures PolySum(Collider().p.terms, [10, 100, p]) == 1000 + p
  {
    var ts := Collider().p.terms;
    var v := [10, 100, p];
    assert Monomial([1, 1, 0], v) == 1000 by {
      assert [1, 1, 0][..2] == [1, 1] && [1, 1][..1] == [1] && [1][..0] == [];
      assert Monomial([1], v) == Monomial([], v) * Pow(At(v, 0), 1) == 10;
      assert Monomial([1, 1], v) == Monomial([1], v) * Pow(At(v, 1), 1) == 1000;
      assert Monomial([1, 1, 0], v) == Monomial([1, 1], v) * Pow(At(v, 2), 0);
    }
    ThirdVariableShift(v);
    assert PolySum(ts, v) == TermValue(ts[0], v) + PolySum(ts[1..], v);
    assert ts[1..] == [ts[1]];
  }

  /** Π v_i ** e_i for e = (0, 0, 1) is v_2. */
  lemma ThirdVariableShift(v: seq<int>)
    requires |v| == 3
    ensures Monomial([0, 0, 1], v) == v[2]
  {
    assert [0, 0, 1][..2] == [0, 0] && [0, 0][..1] == [0] && [0][..0] == [];
    assert Monomial([0], v) == Monomial([], v) * Pow(At(v, 0), 0) == 1;
    assert Monomial([0, 0], v) == Monomial([0], v) * Pow(At(v, 1), 0) == 1;
    assert Pow(v[2], 1) == v[2] * Pow(v[2], 0) == v[2];
    assert Monomial([0, 0, 1], v) == Monomial([0, 0], v) * Pow(At(v, 2), 1);
  }

  /** As written, the variables get weights 1, 2 and 3, so x·y (weight 3)
      lands in z's band: 10·100 + 1000 = 2000. */
  lemma AsWrittenEncoding()
    ensures BandsAsWritten([1, 1, 1], None, 0, 0, 0) == [Power(1), Power(2), Power(3)]
    ensures Encode([Collider()], [1], 3, None) == CoefficientString(10, [10, 100, 1000], 2000)
  {
    ColliderShape();
    assert BandsAsWritten([1, 1, 1], None, 0, 0, 0) == [Power(1), Power(2), Power(3)] by {
      assert BandsAsWritten([1, 1, 1], None, 2, 1, 2) == [Power(3)];
      assert BandsAsWritten([1, 1, 1], None, 1, 1, 1) == [Power(2), Power(3)];
    }
    assert Points([Power(1), Power(2), Power(3)], 10) == [10, 100, 1000] by {
      ThreePowers(1, 2, 3, 10);
      assert Pow(10, 1) == 10 && Pow(10, 2) == 100 && Pow(10, 3) == 1000;
    }
    SingleRoll(Collider(), [10, 100, 1000]);
    ColliderValue(1000);
  }

  /** One die rolled once: the tower's product is the die's value. */
  lemma SingleRoll(d: Die, v: seq<int>)
    ensures TowerProduct([d], [1], v) == PolySum(d.p.terms, v)
  {
    assert [d][1..] == [] && [1][1..] == [];
    assert Pow(PolySum(d.p.terms, v), 1) == PolySum(d.p.terms, v) * 1;
  }

  /** Three power bands evaluate to the base raised to their weights. */
  lemma ThreePowers(a: nat, b: nat, c: nat, base: int)
    ensures Points([Power(a), Power(b), Power(c)], base) == [Pow(base, a), Pow(base, b), Pow(base, c)]
  {
    var bs := [Power(a), Power(b), Power(c)];
    var v := Points(bs, base);
    var w := [Pow(base, a), Pow(base, b), Pow(base, c)];
    forall k | 0 <= k < 3
      ensures v[k] == w[k]
    {
      assert v[k] == PointOf(bs[k], base);
    }
  }

  /** Asking the as-written encoding for z alone answers 2, although exactly
      one outcome shows z (and nothing else). */
  lemma AsWrittenCollision()
    ensures Encode([Collider()], [1], 3, None).Query([0, 0, 1]) == Ok(2)
    ensures JointCoef(Joint([Collider()], [1], 3), [0, 0, 1]) == 1
  {
    AsWrittenEncoding();
    assert [0, 0, 1][..3] == [0, 0, 1];
    ThirdVariableShift([10, 100, 1000]);
    CorrectedCounts();
  }

  /** With the corrected weights 1, 2, 4 the same die encodes as
      10·100 + 10000 = 11000. */
  lemma CorrectedEncoding()
    ensures BandsCorrected([1, 1, 1], None, 0, 1) == [Power(1), Power(2), Power(4)]
    ensures EncodeCorrected([Collider()], [1], 3, None) == CoefficientString(10, [10, 100, 10000], 11000)
  {
    ColliderShape();
    assert BandsCorrected([1, 1, 1], None, 0, 1) == [Power(1), Power(2), Power(4)] by {
      assert BandsCorrected([1, 1, 1], None, 2, 4) == [Power(4)];
      assert BandsCorrected([1, 1, 1], None, 1, 2) == [Power(2), Power(4)];
    }
    assert Points([Power(1), Power(2), Power(4)], 10) == [10, 100, 10000] by {
      ThreePowers(1, 2, 4, 10);
      assert Pow(10, 1) == 10 && Pow(10, 2) == 100 && Pow(10, 4) == 10000;
    }
    SingleRoll(Collider(), [10, 100, 10000]);
    ColliderValue(10000);
  }

  /** The corrected encoding answers 1 for z alone, the joint coefficient. */
  lemma CorrectedCounts()
    ensures EncodeCorrected([Collider()], [1], 3, None).Query([0, 0, 1]) == Ok(1)
    ensures JointCoef(Joint([Collider()], [1], 3), [0, 0, 1]) == 1
  {
    CorrectedEncoding();
    assert [0, 0, 1][..3] == [0, 0, 1];
    ThirdVariableShift([10, 100, 10000]);
    ColliderShape();
    CorrectedQueryIsJointCount([Collider()], [1], 3, None, [0, 0, 1]);
  }

  /** Four assault dice track three variables; as written their weights are
      1, 9 and 21, so six hits with two of the second symbol and three hits
      with one of the fourth share band 24, whereas the corrected weights
      1, 9, 45 keep them apart. */
  lemma FourAssaultWeights()
    ensures TrackedCount([8, 4, 0, 4, 0], None, 0) == 3
    ensures var bs := BandsAsWritten([8, 4, 0, 4, 0], None, 0, 0, 0);
            bs == [Power(1), Power(9), Zero, Power(21), Zero] &&
            Weight(bs, [6, 2, 0, 0, 0]) == 24 && Weight(bs, [3, 0, 0, 1, 0]) == 24
    ensures var bs := BandsCorrected([8, 4, 0, 4, 0], None, 0, 1);
            bs == [Power(1), Power(9), Zero, Power(45), Zero] &&
            Weight(bs, [6, 2, 0, 0, 0]) == 24 && Weight(bs, [3, 0, 0, 1, 0]) == 48
  {
    FourAssaultTracked();
    FourAssaultBandsAsWritten();
    FourAssaultBandsCorrected();
    FiveWeights(1, 9, 21, 6, 2, 0, 0, 0);
    FiveWeights(1, 9, 21, 3, 0, 0, 1, 0);
    FiveWeights(1, 9, 45, 6, 2, 0, 0, 0);
    FiveWeights(1, 9, 45, 3, 0, 0, 1, 0);
  }

  lemma FourAssaultTracked()
    ensures TrackedCount([8, 4, 0, 4, 0], None, 0) == 3
  {
    assert TrackedCount([8, 4, 0, 4, 0], None, 3) == 1;
  }

  lemma FourAssaultBandsAsWritten()
    ensures BandsAsWritten([8, 4, 0, 4, 0], None, 0, 0, 0) == [Power(1), Power(9), Zero, Power(21), Zero]
  {
    var d := [8, 4, 0, 4, 0];
    assert BandsAsWritten(d, None, 3, 4, 5) == [Power(21), Zero];
    assert BandsAsWritten(d, None, 1, 8, 1) == [Power(9), Zero, Power(21), Zero];
  }

  lemma FourAssaultBandsCorrected()
    ensures BandsCorrected([8, 4, 0, 4, 0], None, 0, 1) == [Power(1), Power(9), Zero, Power(45), Zero]
  {
    var d := [8, 4, 0, 4, 0];
    assert BandsCorrected(d, None, 3, 45) == [Power(45), Zero];
    assert BandsCorrected(d, None, 1, 9) == [Power(9), Zero, Power(45), Zero];
  }

  /** The weight of a five-variable vector under bands Power, Power, Zero,
      Power, Zero. */
  lemma FiveWeights(w0: nat, w1: nat, w3: nat, x0: nat, x1: nat, x2: nat, x3: nat, x4: nat)
    ensures Weight([Power(w0), Power(w1), Zero, Power(w3), Zero], [x0, x1, x2, x3, x4])
         == w0 * x0 + w1 * x1 + w3 * x3
  {
    var bs := [Power(w0), Power(w1), Zero, Power(w3), Zero];
    var x := [x0, x1, x2, x3, x4];
    assert Weight(bs[4..], x[4..]) == 0;
    assert Weight(bs[3..], x[3..]) == w3 * x3;
    assert Weight(bs[2..], x[2..]) == w3 * x3;
    assert Weight(bs[1..], x[1..]) == w1 * x1 + w3 * x3;
  }

  // ---------------------------------------------------------------------------
  // Printing the Arcs dice.

  /** A variable factor as a list: empty for exponent 0. */
  function FactorList(d: nat, name: Option<string>): seq<string>
  {
    match Factor(d, name)
    case None => []
    case Some(f) => [f]
  }

  lemma FactorsStep(x: seq<nat>, d: nat, names: seq<string>, y: seq<nat>)
    requires y == x + [d]
    ensures Factors(y, names) == Factors(x, names) + FactorList(d, NameAt(names, |x|))
  {
    assert y[..|x|] == x;
  }

  /** The factors of a five-variable exponent vector, variable by variable. */
  lemma FiveFactors(a: nat, b: nat, c: nat, d: nat, e: nat, names: seq<string>)
    ensures Factors([a, b, c, d, e], names)
         == FactorList(a, NameAt(names, 0)) + FactorList(b, NameAt(names, 1)) + FactorList(c, NameAt(names, 2))
            + FactorList(d, NameAt(names, 3)) + FactorList(e, NameAt(names, 4))
  {
    var fa, fb, fc := FactorList(a, NameAt(names, 0)), FactorList(b, NameAt(names, 1)), FactorList(c, NameAt(names, 2));
    var fd, fe := FactorList(d, NameAt(names, 3)), FactorList(e, NameAt(names, 4));
    assert Factors([a], names) == fa by {
      FactorsStep([], a, names, [a]);
    }
    assert Factors([a, b], names) == fa + fb by {
      FactorsStep([a], b, names, [a, b]);
    }
    assert Factors([a, b, c], names) == fa + fb + fc by {
      FactorsStep([a, b], c, names, [a, b, c]);
    }
    assert Factors([a, b, c, d], names) == fa + fb + fc + fd by {
      FactorsStep([a, b, c], d, names, [a, b, c, d]);
    }
    FactorsStep([a, b, c, d], e, names, [a, b, c, d, e]);
  }

  lemma SquaredFactors()
    ensures FactorList(2, Some("h")) == ["h^{2}"] && FactorList(2, Some("k")) == ["k^{2}"]
  {
    assert NatToString(2) == "2";
    assert "h" + "^{" + "2" + "}" == "h^{2}";
    assert "k" + "^{" + "2" + "}" == "k^{2}";
  }

  function ArcsNames(): seq<string>
  {
    ["h", "s", "b", "n", "k"]
  }

  lemma AssaultFactors()
    ensures Factors([2, 0, 0, 0, 0], ArcsNames()) == ["h^{2}"]
    ensures Factors([2, 1, 0, 0, 0], ArcsNames()) == ["h^{2}", "s"]
    ensures Factors([1, 0, 0, 1, 0], ArcsNames()) == ["h", "n"]
    ensures Factors([1, 1, 0, 0, 0], ArcsNames()) == ["h", "s"]
    ensures Factors([1, 0, 0, 0, 0], ArcsNames()) == ["h"]
  {
    var names := ArcsNames();
    SquaredFactors();
    FiveFactors(2, 0, 0, 0, 0, names);
    FiveFactors(2, 1, 0, 0, 0, names);
    FiveFactors(1, 0, 0, 1, 0, names);
    FiveFactors(1, 1, 0, 0, 0, names);
    FiveFactors(1, 0, 0, 0, 0, names);
  }

  lemma AssaultFaceStrings()
    ensures StringifyTerm(Term(1, [0, 0, 0, 0, 0]), ArcsNames()) == Some("1")
    ensures StringifyTerm(Term(1, [2, 0, 0, 0, 0]), ArcsNames()) == Some("h^{2}")
    ensures StringifyTerm(Term(1, [2, 1, 0, 0, 0]), ArcsNames()) == Some("h^{2}s")
    ensures StringifyTerm(Term(1, [1, 0, 0, 1, 0]), ArcsNames()) == Some("hn")
    ensures StringifyTerm(Term(2, [1, 1, 0, 0, 0]), ArcsNames()) == Some("2hs")
  {
    AssaultFactors();
    assert IntToString(1) == "1" && IntToString(2) == "2";
    assert Join(["h^{2}"], "") == "h^{2}";
    assert Join(["h^{2}", "s"], "") == "h^{2}s";
    assert Join(["h", "n"], "") == "hn";
    assert "2" + Join(["h", "s"], "") == "2hs";
  }

  lemma PrintedTermsCons(t: Term, ts: seq<Term>, names: seq<string>, p: string)
    requires StringifyTerm(t, names) == Some(p)
    ensures PrintedTerms([t] + ts, names) == [p] + PrintedTerms(ts, names)
  {
    assert ([t] + ts)[1..] == ts;
  }

  lemma JoinCons(p: string, ps: seq<string>, sep: string)
    requires ps != []
    ensures Join([p] + ps, sep) == p + sep + Join(ps, sep)
  {
    assert ([p] + ps)[1..] == ps;
  }

  /** When every term prints, the printed list is the terms' strings in order. */
  lemma {:induction false} PrintedAll(ts: seq<Term>, names: seq<string>, ps: seq<string>)
    requires |ts| == |ps| && forall i :: 0 <= i < |ts| ==> StringifyTerm(ts[i], names) == Some(ps[i])
    ensures PrintedTerms(ts, names) == ps
  {
    if ts != [] {
      PrintedAll(ts[1..], names, ps[1..]);
      assert ps == [ps[0]] + ps[1..];
    }
  }

  lemma JoinFour(p0: string, p1: string, p2: string, p3: string, sep: string)
    ensures Join([p0, p1, p2, p3], sep) == p0 + sep + p1 + sep + p2 + sep + p3
  {
    JoinCons(p2, [p3], sep);
    assert [p2] + [p3] == [p2, p3];
    JoinCons(p1, [p2, p3], sep);
    assert [p1] + [p2, p3] == [p1, p2, p3];
    JoinCons(p0, [p1, p2, p3], sep);
    assert [p0] + [p1, p2, p3] == [p0, p1, p2, p3];
  }

  lemma JoinFive(p0: string, p1: string, p2: string, p3: string, p4: string, sep: string)
    ensures Join([p0, p1, p2, p3, p4], sep) == p0 + sep + p1 + sep + p2 + sep + p3 + sep + p4
  {
    JoinCons(p3, [p4], sep);
    assert [p3] + [p4] == [p3, p4];
    JoinCons(p2, [p3, p4], sep);
    assert [p2] + [p3, p4] == [p2, p3, p4];
    JoinCons(p1, [p2, p3, p4], sep);
    assert [p1] + [p2, p3, p4] == [p1, p2, p3, p4];
    JoinCons(p0, [p1, p2, p3, p4], sep);
    assert [p0] + [p1, p2, p3, p4] == [p0, p1, p2, p3, p4];
  }

  /** A polynomial of five printable terms prints them joined by " + ". */
  lemma StringifyFive(p: Poly, names: seq<string>, p0: string, p1: string, p2: string, p3: string, p4: string)
    requires |p.terms| == 5
    requires StringifyTerm(p.terms[0], names) == Some(p0) && StringifyTerm(p.terms[1], names) == Some(p1)
    requires StringifyTerm(p.terms[2], names) == Some(p2) && StringifyTerm(p.terms[3], names) == Some(p3)
    requires StringifyTerm(p.terms[4], names) == Some(p4)
    ensures p.Stringify(names) == p0 + " + " + p1 + " + " + p2 + " + " + p3 + " + " + p4
  {
    var ps := [p0, p1, p2, p3, p4];
    forall i | 0 <= i < 5
      ensures StringifyTerm(p.terms[i], names) == Some(ps[i])
    {
      if i == 0 {} else if i == 1 {} else if i == 2 {} else if i == 3 {} else {}
    }
    PrintedAll(p.terms, names, ps);
    StringifyJoins(p, names);
    JoinFive(p0, p1, p2, p3, p4, " + ");
  }

  /** A polynomial of two printable terms prints them joined by " + ". */
  lemma StringifyTwo(p: Poly, names: seq<string>, p0: string, p1: string)
    requires |p.terms| == 2
    requires StringifyTerm(p.terms[0], names) == Some(p0) && StringifyTerm(p.terms[1], names) == Some(p1)
    ensures p.Stringify(names) == p0 + " + " + p1
  {
    var ps := [p0, p1];
    forall i | 0 <= i < 2
      ensures StringifyTerm(p.terms[i], names) == Some(ps[i])
    {
      if i == 0 {} else {}
    }
    PrintedAll(p.terms, names, ps);
    StringifyJoins(p, names);
    JoinCons(p0, [p1], " + ");
    assert [p0] + [p1] == ps;
  }

  /** A polynomial with terms prints its printable terms joined by " + ". */
  lemma StringifyJoins(p: Poly, names: seq<string>)
    requires p.terms != []
    ensures p.Stringify(names) == Join(PrintedTerms(p.terms, names), " + ")
  {
  }

  /** The literal join of the assault die's five face strings. It is a lemma of
      its own because proving it inside `AssaultPrints` exceeds the solver's budget. */
  lemma AssaultLine()
    ensures "1" + " + " + "h^{2}" + " + " + "h^{2}s" + " + " + "hn" + " + " + "2hs" == "1 + h^{2} + h^{2}s + hn + 2hs"
  {
  }

  /** The assault die prints as `1 + h^{2} + h^{2}s + hn + 2hs`. */
  lemma AssaultPrints()
    ensures Assault().p.Stringify(ArcsNames()) == "1 + h^{2} + h^{2}s + hn + 2hs"
  {
    AssaultFaceStrings();
    StringifyFive(Assault().p, ArcsNames(), "1", "h^{2}", "h^{2}s", "hn", "2hs");
    AssaultLine();
  }

  function Skirmish(): Die
  {
    Die(Poly(5, SkirmishFaces()), 6)
  }

  function Raid(): Die
  {
    Die(Poly(5, RaidFaces()), 6)
  }

  lemma SkirmishFaceStrings()
    ensures StringifyTerm(Term(3, [0, 0, 0, 0, 0]), ArcsNames()) == Some("3")
    ensures StringifyTerm(Term(3, [1, 0, 0, 0, 0]), ArcsNames()) == Some("3h")
  {
    AssaultFactors();
    assert IntToString(3) == "3";
    assert "3" + Join(["h"], "") == "3h";
  }

  /** The skirmish die prints as `3 + 3h`. */
  lemma SkirmishPrints()
    ensures Skirmish().p.Stringify(ArcsNames()) == "3 + 3h"
  {
    assert "3" + " + " + "3h" == "3 + 3h";
    SkirmishFaceStrings();
    StringifyTwo(Skirmish().p, ArcsNames(), "3", "3h");
  }

  lemma RaidFactors()
    ensures Factors([0, 0, 0, 1, 2], ArcsNames()) == ["n", "k^{2}"]
    ensures Factors([1, 0, 0, 0, 1], ArcsNames()) == ["h", "k"]
    ensures Factors([0, 0, 1, 0, 1], ArcsNames()) == ["b", "k"]
    ensures Factors([1, 0, 1, 0, 0], ArcsNames()) == ["h", "b"]
    ensures Factors([0, 0, 0, 1, 0], ArcsNames()) == ["n"]
  {
    var names := ArcsNames();
    SquaredFactors();
    FiveFactors(0, 0, 0, 1, 2, names);
    FiveFactors(1, 0, 0, 0, 1, names);
    FiveFactors(0, 0, 1, 0, 1, names);
    FiveFactors(1, 0, 1, 0, 0, names);
    FiveFactors(0, 0, 0, 1, 0, names);
  }

  lemma RaidFaceStrings()
    ensures StringifyTerm(Term(1, [0, 0, 0, 1, 2]), ArcsNames()) == Some("nk^{2}")
    ensures StringifyTerm(Term(1, [1, 0, 0, 0, 1]), ArcsNames()) == Some("hk")
    ensures StringifyTerm(Term(1, [0, 0, 1, 0, 1]), ArcsNames()) == Some("bk")
    ensures StringifyTerm(Term(2, [1, 0, 1, 0, 0]), ArcsNames()) == Some("2hb")
    ensures StringifyTerm(Term(1, [0, 0, 0, 1, 0]), ArcsNames()) == Some("n")
  {
    RaidFactors();
    assert IntToString(2) == "2";
    assert Join(["n", "k^{2}"], "") == "nk^{2}";
    assert Join(["h", "k"], "") == "hk";
    assert Join(["b", "k"], "") == "bk";
    assert "2" + Join(["h", "b"], "") == "2hb";
    assert Join(["n"], "") == "n";
  }

  /** The literal join of the raid die's five face strings, a lemma of its own
      for the same reason as `AssaultLine`. */
  lemma RaidLine()
    ensures "nk^{2}" + " + " + "hk" + " + " + "bk" + " + " + "2hb" + " + " + "n" == "nk^{2} + hk + bk + 2hb + n"
  {
  }

  /** The raid die prints as `nk^{2} + hk + bk + 2hb + n`. */
  lemma RaidPrints()
    ensures Raid().p.Stringify(ArcsNames()) == "nk^{2} + hk + bk + 2hb + n"
  {
    RaidFaceStrings();
    StringifyFive(Raid().p, ArcsNames(), "nk^{2}", "hk", "bk", "2hb", "n");
    RaidLine();
  }


  // ---------------------------------------------------------------------------
  // Printing an Arcs tower.

  lemma ArcsLhs()
    ensures Lhs("D", ArcsNames()) == "D(h, s, b, n, k)"
  {
    JoinFive("h", "s", "b", "n", "k", ", ");
    assert "D" + "(" + ("h" + ", " + "s" + ", " + "b" + ", " + "n" + ", " + "k") + ")" == "D(h, s, b, n, k)";
  }

  lemma ArcsTotal()
    ensures TowerTotal([Skirmish(), Assault(), Raid()], [1, 4, 0]) == 7776
    ensures IntToString(7776) == "7776"
  {
    ThreeKindsTotal(Skirmish(), Assault(), Raid(), 1, 4, 0);
    assert Pow(6, 1) == 6 && Pow(6, 4) == 1296 && Pow(6, 0) == 1;
    PrintsSevenSevenSevenSix();
  }

  lemma PrintsSevenSevenSevenSix()
    ensures IntToString(7776) == "7776"
  {
    assert NatToString(7776) == NatToString(777) + [DigitChar(6)];
    assert NatToString(777) == NatToString(77) + [DigitChar(7)];
    assert NatToString(77) == NatToString(7) + [DigitChar(7)];
  }

  /** Three kinds of dice: the outcomes multiply. */
  lemma ThreeKindsTotal(d0: Die, d1: Die, d2: Die, n0: nat, n1: nat, n2: nat)
    ensures TowerTotal([d0, d1, d2], [n0, n1, n2])
         == Pow(d0.numFaces, n0) * (Pow(d1.numFaces, n1) * (Pow(d2.numFaces, n2) * 1))
  {
    assert TowerTotal([d2], [n2]) == Pow(d2.numFaces, n2) * 1 by {
      TotalCons(d2, n2, [], []);
    }
    assert TowerTotal([d1, d2], [n1, n2]) == Pow(d1.numFaces, n1) * TowerTotal([d2], [n2]) by {
      TotalCons(d1, n1, [d2], [n2]);
    }
    TotalCons(d0, n0, [d1, d2], [n1, n2]);
  }

  lemma TotalCons(d: Die, n: nat, rest: seq<Die>, counts: seq<nat>)
    requires |rest| == |counts|
    ensures TowerTotal([d] + rest, [n] + counts) == Pow(d.numFaces, n) * TowerTotal(rest, counts)
  {
    assert ([d] + rest)[1..] == rest && ([n] + counts)[1..] == counts;
  }

  /** Three kinds of dice rolled once, four times and never print as the first
      factor, then the second raised to a bare `^4`, then nothing. */
  lemma OnceFourNever(d0: Die, d1: Die, d2: Die, names: seq<string>)
    ensures DiceTerms([d0, d1, d2], [1, 4, 0], names)
            == "(" + d0.p.Stringify(names) + ")" + ("(" + d1.p.Stringify(names) + ")" + "^" + "4")
  {
    var dice, nd := [d0, d1, d2], [1, 4, 0];
    assert NatToString(4) == "4";
    assert dice[1..] == [d1, d2] && nd[1..] == [4, 0];
    assert dice[2..] == [d2] && nd[2..] == [0];
    assert DiceTerms([d2], [0], names) == "";
    var t := "(" + d1.p.Stringify(names) + ")" + "^" + "4";
    assert DiceTerms([d1, d2], [4, 0], names) == t + "";
    assert t + "" == t;
  }

  /** A tower with more than one outcome prints its left-hand side, the
      scaling factor and then its dice. */
  lemma ScaledLine(dice: seq<Die>, numDice: seq<nat>, name: string, names: seq<string>,
                   lhs: string, total: string, terms: string)
    requires |dice| == |numDice| && TowerTotal(dice, numDice) != 1
    requires Lhs(name, names) == lhs && IntToString(TowerTotal(dice, numDice)) == total
    requires DiceTerms(dice, numDice, names) == terms
    ensures TowerString(dice, numDice, name, names) == lhs + " = " + "\\dfrac{1}{" + total + "}" + terms
  {
  }

  /** Skirmish once, assault four times and raid never print as
      `D(h, s, b, n, k) = \dfrac{1}{7776}(3 + 3h)(1 + h^{2} + h^{2}s + hn + 2hs)^4`
      (shown here piece by piece): the multiplicity follows `^` without
      braces, so the string ends in `^4` rather than in `^{4}`. */
  lemma ArcsTowerPrints()
    ensures var s := TowerString([Skirmish(), Assault(), Raid()], [1, 4, 0], "D", ArcsNames());
            s == "D(h, s, b, n, k)" + " = " + "\\dfrac{1}{" + "7776" + "}"
                 + ("(" + "3 + 3h" + ")" + ("(" + "1 + h^{2} + h^{2}s + hn + 2hs" + ")" + "^" + "4"))
  {
    var names := ArcsNames();
    ArcsLhs();
    ArcsTotal();
    SkirmishPrints();
    AssaultPrints();
    OnceFourNever(Skirmish(), Assault(), Raid(), names);
    ScaledLine([Skirmish(), Assault(), Raid()], [1, 4, 0], "D", names, "D(h, s, b, n, k)", "7776",
               "(" + "3 + 3h" + ")" + ("(" + "1 + h^{2} + h^{2}s + hn + 2hs" + ")" + "^" + "4"));
  }

  /** A line whose last factor is raised to a bare `^4` ends in `^` and `4`. */
  lemma EndsInBareFour(s: string, front: string, x: string, y: string)
    requires s == front + (x + (y + "^" + "4"))
    ensures |s| >= 2 && s[|s| - 1] == '4' && s[|s| - 2] == '^'
  {
    assert s == (front + x + y) + "^4";
  }

  /** The printed Arcs tower ends in `^4`, not in the braced `^{4}` that a
      LaTeX reader needs for a multi-digit exponent. */
  lemma ArcsTowerEndsInBareFour()
    ensures var s := TowerString([Skirmish(), Assault(), Raid()], [1, 4, 0], "D", ArcsNames());
            |s| >= 2 && s[|s| - 1] == '4' && s[|s| - 2] == '^'
  {
    ArcsTowerPrints();
    EndsInBareFour(TowerString([Skirmish(), Assault(), Raid()], [1, 4, 0], "D", ArcsNames()),
                   "D(h, s, b, n, k)" + " = " + "\\dfrac{1}{" + "7776" + "}",
                   "(" + "3 + 3h" + ")", "(" + "1 + h^{2} + h^{2}s + hn + 2hs" + ")");
  }
}
