/** `Die`: a polynomial whose coefficient of x^e counts the faces showing the
    attribute totals e, together with its number of equally likely faces. */
module Dice {
  import opened Errors
  import opened Polynomial

  datatype Die = Die(p: Poly, numFaces: nat)

  /** Σ of the coefficients: the number of faces the polynomial accounts for. */
  function CoefSum(ts: seq<Term>): int
  {
    if ts == [] then 0 else ts[0].coeff + CoefSum(ts[1..])
  }

  predicate NonNegative(ts: seq<Term>)
  {
    forall k :: 0 <= k < |ts| ==> ts[k].coeff >= 0
  }

  /** A die whose coefficients are face counts: none negative, and together
      they account for every face. The outcome bound the encoding rests on. */
  predicate Fair(d: Die)
  {
    NonNegative(d.p.terms) && CoefSum(d.p.terms) == d.numFaces
  }

  /** `createStandardDie(n)`: x + x^2 + ... + x^n over one variable, n faces. */
  method CreateStandardDie(numSides: nat) returns (d: Die)
    ensures d.numFaces == numSides && d.p.numVariables == 1 && d.p.Valid()
    ensures |d.p.terms| == numSides
    ensures forall k :: 0 <= k < numSides ==> d.p.terms[k] == Term(1, [k + 1])
    ensures Fair(d)
  {
    var p := new MultiPolynomial(1);
    var i := 1;
    while i <= numSides
      invariant 1 <= i <= numSides + 1
      invariant p.Value().Valid() && p.numVariables == 1
      invariant |p.terms| == i - 1
      invariant forall k :: 0 <= k < i - 1 ==> p.terms[k] == Term(1, [k + 1])
      invariant NonNegative(p.terms) && CoefSum(p.terms) == i - 1
    {
      ghost var before := p.terms;
      var r := p.AddTerm(1, [i]);
      CoefSumAppend(before, Term(1, [i]));
      i := i + 1;
    }
    d := Die(p.Value(), numSides);
  }

  /** The faces of the assault die as terms over the symbols (h, s, b, n, k):
      each term's coefficient is how many faces show that combination of
      symbols, its exponents how many of each symbol such a face shows. */
  function AssaultFaces(): seq<Term>
  {
    [Term(1, [0, 0, 0, 0, 0]), Term(1, [2, 0, 0, 0, 0]), Term(1, [2, 1, 0, 0, 0]),
     Term(1, [1, 0, 0, 1, 0]), Term(2, [1, 1, 0, 0, 0])]
  }

  /** The faces of the skirmish die over (h, s, b, n, k). */
  function SkirmishFaces(): seq<Term>
  {
    [Term(3, [0, 0, 0, 0, 0]), Term(3, [1, 0, 0, 0, 0])]
  }

  /** The faces of the raid die over (h, s, b, n, k). */
  function RaidFaces(): seq<Term>
  {
    [Term(1, [0, 0, 0, 1, 2]), Term(1, [1, 0, 0, 0, 1]), Term(1, [0, 0, 1, 0, 1]),
     Term(2, [1, 0, 1, 0, 0]), Term(1, [0, 0, 0, 1, 0])]
  }

  /** `createAssaultDie()`: six faces over (h, s, b, n, k). */
  method CreateAssaultDie() returns (d: Die)
    ensures d.numFaces == 6 && d.p.numVariables == 5 && d.p.Valid()
    ensures d.p.terms == AssaultFaces()
    ensures Fair(d)
  {
    var p := new MultiPolynomial(5);
    var r := p.AddTerm(1, [0, 0, 0, 0, 0]);
    r := p.AddTerm(1, [2, 0, 0, 0, 0]);
    r := p.AddTerm(1, [2, 1, 0, 0, 0]);
    r := p.AddTerm(1, [1, 0, 0, 1, 0]);
    r := p.AddTerm(2, [1, 1, 0, 0, 0]);
    CoefSumOfFive(p.terms);
    d := Die(p.Value(), 6);
  }

  /** `createSkirmishDie()`: three blank faces and three with one hit. */
  method CreateSkirmishDie() returns (d: Die)
    ensures d.numFaces == 6 && d.p.numVariables == 5 && d.p.Valid()
    ensures d.p.terms == SkirmishFaces()
    ensures Fair(d)
  {
    var p := new MultiPolynomial(5);
    var r := p.AddTerm(3, [0, 0, 0, 0, 0]);
    r := p.AddTerm(3, [1, 0, 0, 0, 0]);
    assert CoefSum(p.terms) == p.terms[0].coeff + CoefSum(p.terms[1..]);
    assert CoefSum(p.terms[1..]) == p.terms[1].coeff + CoefSum(p.terms[2..]);
    d := Die(p.Value(), 6);
  }

  /** `createRaidDie()`: six faces over (h, s, b, n, k). */
  method CreateRaidDie() returns (d: Die)
    ensures d.numFaces == 6 && d.p.numVariables == 5 && d.p.Valid()
    ensures d.p.terms == RaidFaces()
    ensures Fair(d)
  {
    var p := new MultiPolynomial(5);
    var r := p.AddTerm(1, [0, 0, 0, 1, 2]);
    r := p.AddTerm(1, [1, 0, 0, 0, 1]);
    r := p.AddTerm(1, [0, 0, 1, 0, 1]);
    r := p.AddTerm(2, [1, 0, 1, 0, 0]);
    r := p.AddTerm(1, [0, 0, 0, 1, 0]);
    CoefSumOfFive(p.terms);
    d := Die(p.Value(), 6);
  }

  lemma CoefSumOfFive(ts: seq<Term>)
    requires |ts| == 5
    ensures CoefSum(ts) == ts[0].coeff + ts[1].coeff + ts[2].coeff + ts[3].coeff + ts[4].coeff
  {
    assert ts[1..][1..] == ts[2..];
    assert ts[2..][1..] == ts[3..];
    assert ts[3..][1..] == ts[4..];
    assert ts[4..][1..] == [];
    assert CoefSum(ts[4..]) == ts[4].coeff;
    assert CoefSum(ts[3..]) == ts[3].coeff + ts[4].coeff;
    assert CoefSum(ts[2..]) == ts[2].coeff + ts[3].coeff + ts[4].coeff;
    assert CoefSum(ts[1..]) == ts[1].coeff + ts[2].coeff + ts[3].coeff + ts[4].coeff;
  }

  lemma {:induction false} CoefSumAppend(ts: seq<Term>, t: Term)
    ensures CoefSum(ts + [t]) == CoefSum(ts) + t.coeff
  {
    if ts != [] {
      assert (ts + [t])[1..] == ts[1..] + [t];
      CoefSumAppend(ts[1..], t);
    }
  }
}
