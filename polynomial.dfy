/** Sparse multivariate polynomials: `MultiPolynomialTerm` and `MultiPolynomial`
    of dice.ts. A polynomial is an ordered list of terms that only grows by
    appending; terms with equal exponent vectors are never merged and terms with
    coefficient 0 are kept. */
module Polynomial {
  import opened Errors
  import opened Arith
  import opened Text

  /** One monomial: a coefficient and an exponent per variable. */
  datatype Term = Term(coeff: int, exps: seq<nat>)

  datatype Option<T> = None | Some(value: T)

  /** Element i of a vector, or 0 past its end. */
  function At(v: seq<int>, i: nat): int
  {
    if i < |v| then v[i] else 0
  }

  /** Exponent i of an exponent vector, or 0 past its end (a comparison with
      `undefined` is false in JavaScript, so a missing exponent never raises a
      running maximum). */
  function ExpAt(x: seq<nat>, i: nat): nat
  {
    if i < |x| then x[i] else 0
  }

  /** Π v[i] ** x[i], multiplied from the left as the term's reduce does. */
  function Monomial(x: seq<nat>, v: seq<int>): int
  {
    if x == [] then 1 else Monomial(x[..|x| - 1], v) * Pow(At(v, |x| - 1), x[|x| - 1])
  }

  function TermValue(t: Term, v: seq<int>): int
  {
    t.coeff * Monomial(t.exps, v)
  }

  /** Σ of the terms' values. */
  function PolySum(ts: seq<Term>, v: seq<int>): int
  {
    if ts == [] then 0 else TermValue(ts[0], v) + PolySum(ts[1..], v)
  }

  predicate IsZeroVector(x: seq<nat>)
  {
    forall i :: 0 <= i < |x| ==> x[i] == 0
  }

  /** `MultiPolynomialTerm.evaluate`: fails when the value vector's length
      differs from the term's; otherwise coeff · Π v[i] ** exps[i]. */
  function EvaluateTerm(t: Term, v: seq<int>): (r: Result<int>)
    ensures r.Err? <==> |v| != |t.exps|
    ensures r.Err? ==> r.error == DimensionMismatch
    ensures r.Ok? && IsZeroVector(t.exps) ==> r.value == t.coeff
    ensures r.Ok? && t.coeff == 0 ==> r.value == 0
  {
    if |v| != |t.exps| then Err(DimensionMismatch)
    else
      if IsZeroVector(t.exps) then
        MonomialOfZeroVector(t.exps, v);
        Ok(TermValue(t, v))
      else Ok(TermValue(t, v))
  }

  /** A constant term is its coefficient whatever the point, 0 ** 0 included. */
  lemma {:induction false} MonomialOfZeroVector(x: seq<nat>, v: seq<int>)
    requires IsZeroVector(x)
    ensures Monomial(x, v) == 1
  {
    if x != [] {
      MonomialOfZeroVector(x[..|x| - 1], v);
    }
  }

  /** The left-to-right reduce of `MultiPolynomial.evaluate`; the first term
      whose width differs from the value vector's throws. */
  function EvaluateTerms(ts: seq<Term>, v: seq<int>): (r: Result<int>)
    ensures r.Err? <==> exists i :: 0 <= i < |ts| && |ts[i].exps| != |v|
    ensures r.Ok? ==> r.value == PolySum(ts, v)
  {
    if ts == [] then Ok(0)
    else
      match EvaluateTerm(ts[0], v)
      case Err(e) => Err(e)
      case Ok(x) =>
        match EvaluateTerms(ts[1..], v)
        case Err(e) =>
          Err(e)
        case Ok(rest) =>
          assert forall i :: 1 <= i < |ts| ==> ts[i] == ts[1..][i - 1];
          Ok(x + rest)
  }

  /** Largest exponent of variable i over all terms, zero-coefficient terms
      included; 0 for no terms (see MaxExpIsMaximum). */
  function MaxExp(ts: seq<Term>, i: nat): nat
  {
    if ts == [] then 0
    else
      var m' := MaxExp(ts[..|ts| - 1], i);
      var e := ExpAt(ts[|ts| - 1].exps, i);
      if e > m' then e else m'
  }

  /** MaxExp bounds every term's exponent and is attained by one (or is 0). */
  lemma {:induction false} MaxExpIsMaximum(ts: seq<Term>, i: nat)
    ensures forall k :: 0 <= k < |ts| ==> ExpAt(ts[k].exps, i) <= MaxExp(ts, i)
    ensures MaxExp(ts, i) == 0 || exists k :: 0 <= k < |ts| && ExpAt(ts[k].exps, i) == MaxExp(ts, i)
  {
    if ts != [] {
      MaxExpIsMaximum(ts[..|ts| - 1], i);
      assert forall k :: 0 <= k < |ts| - 1 ==> ts[k] == ts[..|ts| - 1][k];
    }
  }

  /** The largest exponent is the one bound that every term respects and one
      term reaches. */
  lemma MaxExpCharacterised(ts: seq<Term>, i: nat, m: nat)
    requires forall k :: 0 <= k < |ts| ==> ExpAt(ts[k].exps, i) <= m
    requires exists k :: 0 <= k < |ts| && ExpAt(ts[k].exps, i) == m
    ensures MaxExp(ts, i) == m
  {
    MaxExpIsMaximum(ts, i);
  }

  /** The largest coefficient, never below 0: `maxCoefficient`. */
  function MaxCoeff(ts: seq<Term>): (m: int)
    ensures m >= 0
    ensures forall k :: 0 <= k < |ts| ==> ts[k].coeff <= m
    ensures m == 0 || exists k :: 0 <= k < |ts| && ts[k].coeff == m
  {
    if ts == [] then 0
    else
      var m' := MaxCoeff(ts[..|ts| - 1]);
      assert forall k :: 0 <= k < |ts| - 1 ==> ts[k] == ts[..|ts| - 1][k];
      if ts[|ts| - 1].coeff > m' then ts[|ts| - 1].coeff else m'
  }

  /** The value a `MultiPolynomial` holds: its declared width and its terms. */
  datatype Poly = Poly(numVariables: nat, terms: seq<Term>) {

    /** Every term has the declared width; `addTerm` keeps this. */
    predicate Valid()
    {
      forall k :: 0 <= k < |terms| ==> |terms[k].exps| == numVariables
    }

    /** `MultiPolynomial.evaluate`: no width check of its own, so a polynomial
        without terms is 0 at any vector; any term of another width fails. */
    function Evaluate(v: seq<int>): (r: Result<int>)
      ensures terms == [] ==> r == Ok(0)
      ensures Valid() && numVariables == |v| ==> r.Ok?
      ensures Valid() && terms != [] && numVariables != |v| ==> r == Err(DimensionMismatch)
      ensures r.Ok? ==> r.value == PolySum(terms, v)
    {
      // a well-formed polynomial's first term witnesses the width mismatch
      assert Valid() && terms != [] && numVariables != |v| ==> |terms[0].exps| != |v|;
      EvaluateTerms(terms, v)
    }

    function MaxCoefficient(): (m: int)
      ensures m >= 0
      ensures forall k :: 0 <= k < |terms| ==> terms[k].coeff <= m
      ensures m == 0 || exists k :: 0 <= k < |terms| && terms[k].coeff == m
    {
      MaxCoeff(terms)
    }

    /** `MultiPolynomial.stringify`: "0" only when there are no terms; otherwise
        the printable terms joined by " + " (so "" when every coefficient is 0).
        How the string grows with each added term: StringifyAfterAddTerm. */
    function Stringify(names: seq<string>): (s: string)
      ensures terms == [] ==> s == "0"
      ensures terms != [] && (forall k :: 0 <= k < |terms| ==> terms[k].coeff == 0) ==> s == ""
    {
      if terms == [] then "0" else Join(PrintedTerms(terms, names), " + ")
    }
  }

  /** The variable name at index i, or None past the end of the names (what
      JavaScript reads there is `undefined`). */
  function NameAt(names: seq<string>, i: nat): Option<string>
  {
    if i < |names| then Some(names[i]) else None
  }

  /** One variable factor of a printed term: nothing for exponent 0; the bare
      name for exponent 1, or nothing when the name is missing (the filter drops
      `undefined`); `name^{d}` above, where a missing name prints as "undefined"
      inside the template literal. */
  function Factor(d: nat, name: Option<string>): (f: Option<string>)
    ensures f.None? <==> d == 0 || (d == 1 && name.None?)
  {
    if d == 0 then None
    else if d == 1 then name
    else Some((if name.Some? then name.value else "undefined") + "^{" + NatToString(d) + "}")
  }

  /** Variable i of x contributes a factor: its exponent is above 1, or it is 1
      and the variable has a name. */
  predicate Shown(x: seq<nat>, names: seq<string>, i: nat)
    requires i < |x|
  {
    x[i] > 1 || (x[i] == 1 && i < |names|)
  }

  /** No variable of x contributes a factor. */
  predicate NoFactorShown(x: seq<nat>, names: seq<string>)
  {
    forall i :: 0 <= i < |x| ==> !Shown(x, names, i)
  }

  /** The number of variables of x that contribute a factor. */
  function ShownCount(x: seq<nat>, names: seq<string>): nat
  {
    if x == [] then 0
    else ShownCount(x[..|x| - 1], names) + (if Shown(x, names, |x| - 1) then 1 else 0)
  }

  /** The factors that survive the filter, in variable order: one per variable
      that contributes a factor. */
  function Factors(x: seq<nat>, names: seq<string>): (fs: seq<string>)
    ensures |fs| == ShownCount(x, names)
  {
    if x == [] then []
    else
      var rest := Factors(x[..|x| - 1], names);
      match Factor(x[|x| - 1], NameAt(names, |x| - 1))
      case None => rest
      case Some(f) => rest + [f]
  }

  lemma {:induction false} ShownCountZero(x: seq<nat>, names: seq<string>)
    ensures ShownCount(x, names) == 0 <==> NoFactorShown(x, names)
  {
    if x != [] {
      var init := x[..|x| - 1];
      ShownCountZero(init, names);
      assert forall i :: 0 <= i < |init| ==> (Shown(init, names, i) <==> Shown(x, names, i));
    }
  }

  /** When every variable has a name, a term shows no factor exactly when it is
      a constant. */
  lemma NamedFactorsShown(x: seq<nat>, names: seq<string>)
    requires |x| <= |names|
    ensures NoFactorShown(x, names) <==> IsZeroVector(x)
  {
    if !IsZeroVector(x) {
      var i :| 0 <= i < |x| && x[i] != 0;
      assert Shown(x, names, i);
    }
  }

  /** `MultiPolynomialTerm.stringify`: nothing for a zero coefficient; the
      coefficient alone when no variable factor survives; the factors alone for
      a coefficient of 1; otherwise the coefficient juxtaposed with them. */
  function StringifyTerm(t: Term, names: seq<string>): (s: Option<string>)
    ensures s.None? <==> t.coeff == 0
    ensures t.coeff != 0 && NoFactorShown(t.exps, names) ==> s == Some(IntToString(t.coeff))
    ensures t.coeff == 1 && !NoFactorShown(t.exps, names) ==> s == Some(Join(Factors(t.exps, names), ""))
    ensures t.coeff !in {0, 1} && !NoFactorShown(t.exps, names) ==>
              s == Some(IntToString(t.coeff) + Join(Factors(t.exps, names), ""))
  {
    ShownCountZero(t.exps, names);
    if t.coeff == 0 then None
    else
      var vars := Factors(t.exps, names);
      if |vars| == 0 then Some(IntToString(t.coeff))
      else if t.coeff == 1 then Some(Join(vars, ""))
      else Some(IntToString(t.coeff) + Join(vars, ""))
  }

  /** The number of terms with a non-zero coefficient. */
  function NonZeroTerms(ts: seq<Term>): nat
  {
    if ts == [] then 0 else (if ts[0].coeff == 0 then 0 else 1) + NonZeroTerms(ts[1..])
  }

  /** The printed terms, zero-coefficient ones filtered out: one string per
      term with a non-zero coefficient, none exactly when every coefficient
      is 0. */
  function PrintedTerms(ts: seq<Term>, names: seq<string>): (ps: seq<string>)
    ensures |ps| == NonZeroTerms(ts)
    ensures ps == [] <==> forall k :: 0 <= k < |ts| ==> ts[k].coeff == 0
  {
    if ts == [] then []
    else
      assert forall k :: 0 <= k < |ts| - 1 ==> ts[1..][k] == ts[k + 1];
      match StringifyTerm(ts[0], names)
      case None => PrintedTerms(ts[1..], names)
      case Some(s) => [s] + PrintedTerms(ts[1..], names)
  }

  /** Appending a term appends its string to the printed terms, in order, or
      nothing when its coefficient is 0. */
  lemma {:induction false} PrintedTermsSnoc(ts: seq<Term>, t: Term, names: seq<string>)
    ensures PrintedTerms(ts + [t], names)
         == PrintedTerms(ts, names) + (if t.coeff == 0 then [] else [StringifyTerm(t, names).value])
  {
    if ts == [] {
      assert [] + [t] == [t];
    } else {
      assert (ts + [t])[1..] == ts[1..] + [t];
      PrintedTermsSnoc(ts[1..], t, names);
    }
  }

  /** What `stringify` prints after `addTerm(coeff, degrees)`: a zero
      coefficient changes nothing (past the first term, which turns "0" into
      ""); the first printable term prints alone; any later one is appended
      after " + ". */
  lemma StringifyAfterAddTerm(p: Poly, t: Term, names: seq<string>)
    ensures t.coeff == 0 && p.terms != [] ==> Poly(p.numVariables, p.terms + [t]).Stringify(names) == p.Stringify(names)
    ensures t.coeff == 0 && p.terms == [] ==> Poly(p.numVariables, p.terms + [t]).Stringify(names) == ""
    ensures t.coeff != 0 && (forall k :: 0 <= k < |p.terms| ==> p.terms[k].coeff == 0) ==>
              Poly(p.numVariables, p.terms + [t]).Stringify(names) == StringifyTerm(t, names).value
    ensures t.coeff != 0 && (exists k :: 0 <= k < |p.terms| && p.terms[k].coeff != 0) ==>
              Poly(p.numVariables, p.terms + [t]).Stringify(names)
              == p.Stringify(names) + " + " + StringifyTerm(t, names).value
  {
    var ps := PrintedTerms(p.terms, names);
    PrintedTermsSnoc(p.terms, t, names);
    if t.coeff == 0 {
      assert ps + [] == ps;
    } else if ps != [] {
      JoinSnoc(ps, StringifyTerm(t, names).value, " + ");
    }
  }

  /** `MultiPolynomial.degrees`: per variable, the largest exponent of any term,
      computed in place over a zero-filled array as the source does. */
  method Degrees(p: Poly) returns (r: seq<nat>)
    ensures |r| == p.numVariables
    ensures forall i :: 0 <= i < |r| ==> r[i] == MaxExp(p.terms, i)
  {
    var maxDegrees := new nat[p.numVariables](_ => 0);
    var k := 0;
    while k < |p.terms|
      invariant 0 <= k <= |p.terms|
      invariant forall i :: 0 <= i < maxDegrees.Length ==> maxDegrees[i] == MaxExp(p.terms[..k], i)
    {
      var term := p.terms[k];
      var i := 0;
      while i < p.numVariables
        invariant 0 <= i <= p.numVariables
        invariant forall j :: 0 <= j < i ==> maxDegrees[j] == MaxExp(p.terms[..k + 1], j)
        invariant forall j :: i <= j < maxDegrees.Length ==> maxDegrees[j] == MaxExp(p.terms[..k], j)
      {
        MaxExpStep(p.terms, k, i);
        if ExpAt(term.exps, i) > maxDegrees[i] {
          maxDegrees[i] := ExpAt(term.exps, i);
        }
        i := i + 1;
      }
      k := k + 1;
    }
    assert p.terms[..k] == p.terms;
    r := maxDegrees[..];
  }

  lemma MaxExpStep(ts: seq<Term>, k: nat, i: nat)
    requires k < |ts|
    ensures MaxExp(ts[..k + 1], i) ==
              if ExpAt(ts[k].exps, i) > MaxExp(ts[..k], i) then ExpAt(ts[k].exps, i) else MaxExp(ts[..k], i)
  {
    assert ts[..k + 1][..k] == ts[..k];
  }

  /** The builder the source mutates: `addTerm` appends a term after checking
      its width; nothing is merged or dropped. */
  class MultiPolynomial {
    const numVariables: nat
    var terms: seq<Term>

    function Value(): Poly
      reads this
    {
      Poly(numVariables, terms)
    }

    constructor(numVariables: nat)
      ensures Value() == Poly(numVariables, [])
    {
      this.numVariables := numVariables;
      this.terms := [];
    }

    /** `addTerm`: a term of another width fails and changes nothing; otherwise
        exactly that term is appended and earlier terms stay as they were. */
    method AddTerm(coeff: int, degrees: seq<nat>) returns (r: Outcome)
      requires Value().Valid()
      modifies this
      ensures Value().Valid()
      ensures r == (if |degrees| == numVariables then Pass else Fail(DimensionMismatch))
      ensures terms == (if r.Pass? then old(terms) + [Term(coeff, degrees)] else old(terms))
    {
      var term := Term(coeff, degrees);
      if |term.exps| != numVariables {
        return Fail(DimensionMismatch);
      }
      terms := terms + [term];
      r := Pass;
    }
  }
}
