/** The positional encoding of `calculateProbabilities` and
    `CoefficientString.query`. Each variable is evaluated at 0 (it never
    occurs), 1 (summed out by a mask) or base ** w (tracked with band weight w);
    a monomial x^e then evaluates to base ** Weight(e), so the value of the
    joint product is Σ over its expanded terms of coeff · base ** Weight, and
    when no coefficient total reaches the base, digit band k of the value is the
    sum of the coefficients whose weight is k. */
module Encoding {
  import opened Errors
  import opened Arith
  import opened Polynomial
  import opened Dice
  import opened Expansion

  /** How one variable is evaluated. */
  datatype Band = Zero | One | Power(w: nat)

  /** `isolateVariables && !isolateVariables[i]`: a mask is given and does not
      select variable i (an index past the mask reads `undefined`). */
  predicate SummedOut(mask: Option<seq<bool>>, i: nat)
  {
    mask.Some? && !(i < |mask.value| && mask.value[i])
  }

  /** Variable i is tracked: it occurs and no mask sums it out. */
  predicate Tracked(d: seq<nat>, mask: Option<seq<bool>>, i: nat)
  {
    i < |d| && d[i] > 0 && !SummedOut(mask, i)
  }

  /** The bands `calculateProbabilities` assigns, from variable i on, given the
      running `prevDegree` and `prevExp`; a tracked variable gets base **
      (prevDegree · prevExp + 1), after which prevDegree becomes its degree d
      and prevExp becomes d · prevExp + 1. */
  function BandsAsWritten(d: seq<nat>, mask: Option<seq<bool>>, i: nat, prevDegree: nat, prevExp: nat)
    : (bs: seq<Band>)
    requires i <= |d|
    ensures |bs| == |d| - i
    decreases |d| - i
  {
    if i == |d| then []
    else if d[i] == 0 then [Zero] + BandsAsWritten(d, mask, i + 1, prevDegree, prevExp)
    else if SummedOut(mask, i) then [One] + BandsAsWritten(d, mask, i + 1, prevDegree, prevExp)
    else [Power(prevDegree * prevExp + 1)] + BandsAsWritten(d, mask, i + 1, d[i], d[i] * prevExp + 1)
  }

  /** The bands the encoding needs: a tracked variable's weight is the product
      of (degree + 1) over the tracked variables before it, so the exponent
      vectors within the degrees get distinct weights (mixed radix). */
  function BandsCorrected(d: seq<nat>, mask: Option<seq<bool>>, i: nat, width: nat): (bs: seq<Band>)
    requires i <= |d|
    ensures |bs| == |d| - i
    decreases |d| - i
  {
    if i == |d| then []
    else if d[i] == 0 then [Zero] + BandsCorrected(d, mask, i + 1, width)
    else if SummedOut(mask, i) then [One] + BandsCorrected(d, mask, i + 1, width)
    else [Power(width)] + BandsCorrected(d, mask, i + 1, width * (d[i] + 1))
  }

  function PointOf(b: Band, base: int): int
  {
    match b
    case Zero => 0
    case One => 1
    case Power(w) => Pow(base, w)
  }

  /** The evaluation points of the bands. */
  function Points(bs: seq<Band>, base: int): (v: seq<int>)
    ensures |v| == |bs| && forall k :: 0 <= k < |bs| ==> v[k] == PointOf(bs[k], base)
  {
    seq(|bs|, k requires 0 <= k < |bs| => PointOf(bs[k], base))
  }

  function WeightOf(b: Band): nat
  {
    if b.Power? then b.w else 0
  }

  function Tail(x: seq<nat>): seq<nat>
  {
    if x == [] then [] else x[1..]
  }

  /** The band index of an exponent vector: Σ_k w_k · x_k over the tracked k. */
  function Weight(bs: seq<Band>, x: seq<nat>): nat
  {
    if bs == [] then 0 else WeightOf(bs[0]) * ExpAt(x, 0) + Weight(bs[1..], Tail(x))
  }

  /** x has exponent 0 at every variable evaluated at 0. */
  predicate Avoids(bs: seq<Band>, x: seq<nat>)
  {
    forall k :: 0 <= k < |bs| ==> bs[k] == Zero ==> ExpAt(x, k) == 0
  }

  /** The sum of the coefficients of the terms whose weight is k: digit band k
      of the encoded value. */
  function BandCoef(us: seq<Term>, bs: seq<Band>, k: nat): int
  {
    if us == [] then 0
    else (if Weight(bs, us[0].exps) == k then us[0].coeff else 0) + BandCoef(us[1..], bs, k)
  }

  // ---------------------------------------------------------------------------
  // A monomial at the points is a power of the base.

  lemma {:induction false} WeightSnoc(bs: seq<Band>, x: seq<nat>)
    requires bs != []
    ensures Weight(bs, x) == Weight(bs[..|bs| - 1], x) + WeightOf(bs[|bs| - 1]) * ExpAt(x, |bs| - 1)
  {
    if |bs| > 1 {
      WeightSnoc(bs[1..], Tail(x));
      assert bs[1..][..|bs| - 2] == bs[..|bs| - 1][1..];
      assert ExpAt(Tail(x), |bs| - 2) == ExpAt(x, |bs| - 1);
    }
  }

  lemma {:induction false} WeightPrefix(bs: seq<Band>, x: seq<nat>, y: seq<nat>)
    requires forall k :: 0 <= k < |bs| ==> ExpAt(x, k) == ExpAt(y, k)
    ensures Weight(bs, x) == Weight(bs, y)
  {
    if bs != [] {
      assert forall k :: 0 <= k < |bs| - 1 ==> ExpAt(Tail(x), k) == ExpAt(x, k + 1);
      assert forall k :: 0 <= k < |bs| - 1 ==> ExpAt(Tail(y), k) == ExpAt(y, k + 1);
      WeightPrefix(bs[1..], Tail(x), Tail(y));
    }
  }

  /** Π v_k ** x_k == base ** Weight(x) at the bands' points, when x avoids the
      points that are 0. */
  lemma {:induction false} MonomialAtBands(x: seq<nat>, bs: seq<Band>, v: seq<int>, base: int)
    requires |x| == |bs| && base >= 1
    requires forall k :: 0 <= k < |x| ==> At(v, k) == PointOf(bs[k], base)
    requires Avoids(bs, x)
    ensures Monomial(x, v) == Pow(base, Weight(bs, x))
  {
    if x != [] {
      var n := |x|;
      MonomialAtBands(x[..n - 1], bs[..n - 1], v, base);
      WeightSnoc(bs, x);
      WeightPrefix(bs[..n - 1], x[..n - 1], x);
      var b := bs[n - 1];
      match b
      case Zero =>
        assert x[n - 1] == 0;
      case One =>
        PowOfOne(x[n - 1]);
      case Power(w) =>
        PowMul(base, w, x[n - 1]);
        PowAdd(base, Weight(bs[..n - 1], x[..n - 1]), w * x[n - 1]);
    }
  }

  /** A positive exponent on a variable evaluated at 0 makes the monomial 0. */
  lemma {:induction false} MonomialAtZeroBand(x: seq<nat>, bs: seq<Band>, v: seq<int>, base: int)
    requires |x| == |bs|
    requires forall k :: 0 <= k < |x| ==> At(v, k) == PointOf(bs[k], base)
    requires !Avoids(bs, x)
    ensures Monomial(x, v) == 0
  {
    var n := |x|;
    if bs[n - 1] == Zero && x[n - 1] > 0 {
      PowOfZero(x[n - 1]);
    } else {
      assert !Avoids(bs[..n - 1], x[..n - 1]);
      MonomialAtZeroBand(x[..n - 1], bs[..n - 1], v, base);
    }
  }

  // ---------------------------------------------------------------------------
  // The coefficient string and its query.

  /** `CoefficientString`: a value that packs coefficients into digit bands of
      `base`, with the points it was evaluated at. */
  datatype CoefficientString = CoefficientString(base: int, basis: seq<int>, n: int) {

    /** `query(e)`: shift = Π basis[i] ** e[i], then (n / shift) % base in
        BigInt (truncating) arithmetic. An exponent vector shorter than the
        basis supplies `undefined`; a zero shift or base divides by zero. */
    function Query(e: seq<nat>): (r: Result<int>)
      ensures |e| < |basis| ==> r == Err(UndefinedOperand)
      ensures |e| >= |basis| && base != 0 ==> (r.Ok? <==> Monomial(e[..|basis|], basis) != 0)
      ensures r.Ok? && n >= 0 && base > 0 && Monomial(e[..|basis|], basis) > 0 ==> 0 <= r.value < base
    {
      if |e| < |basis| then Err(UndefinedOperand)
      else
        var shift := Monomial(e[..|basis|], basis);
        if shift == 0 then Err(DivisionByZero)
        else if base == 0 then Err(DivisionByZero)
        else Ok(TMod(TDiv(n, shift), base))
    }
  }

  // ---------------------------------------------------------------------------
  // Digit extraction: value == Lo + band_k · base^k + Hi · base^(k+1) with
  // 0 <= Lo < base^k and 0 <= band_k < base.

  function Lo(us: seq<Term>, bs: seq<Band>, base: int, k: nat): int
  {
    if us == [] then 0
    else
      var w := Weight(bs, us[0].exps);
      (if w < k then us[0].coeff * Pow(base, w) else 0) + Lo(us[1..], bs, base, k)
  }

  function Hi(us: seq<Term>, bs: seq<Band>, base: int, k: nat): int
  {
    if us == [] then 0
    else
      var w := Weight(bs, us[0].exps);
      (if w > k then us[0].coeff * Pow(base, w - k - 1) else 0) + Hi(us[1..], bs, base, k)
  }

  predicate AllAvoid(us: seq<Term>, bs: seq<Band>)
  {
    forall i :: 0 <= i < |us| ==> Avoids(bs, us[i].exps)
  }

  /** A term's value at the bands' points. */
  lemma TermAtBands(u: Term, bs: seq<Band>, base: int)
    requires |u.exps| == |bs| && Avoids(bs, u.exps) && base >= 1
    ensures TermValue(u, Points(bs, base)) == u.coeff * Pow(base, Weight(bs, u.exps))
  {
    MonomialAtBands(u.exps, bs, Points(bs, base), base);
  }

  lemma {:induction false} Split(us: seq<Term>, bs: seq<Band>, base: int, k: nat)
    requires Uniform(us, |bs|) && AllAvoid(us, bs) && base >= 1
    ensures PolySum(us, Points(bs, base))
         == Lo(us, bs, base, k) + BandCoef(us, bs, k) * Pow(base, k) + Hi(us, bs, base, k) * Pow(base, k + 1)
  {
    if us != [] {
      var u := us[0];
      Split(us[1..], bs, base, k);
      TermAtBands(u, bs, base);
      var w := Weight(bs, u.exps);
      var c := u.coeff;
      var M, H := BandCoef(us[1..], bs, k), Hi(us[1..], bs, base, k);
      var pk, pk1 := Pow(base, k), Pow(base, k + 1);
      if w == k {
        MulDistrib(c, M, pk);
      } else if w > k {
        var q := Pow(base, w - k - 1);
        PowAdd(base, w - k - 1, k + 1);
        SplitHigh(c, q, pk1, H);
      }
    }
  }

  lemma SplitHigh(c: int, q: int, pk1: int, h: int)
    ensures c * (q * pk1) + h * pk1 == (c * q + h) * pk1
  {
    MulDistrib(c * q, h, pk1);
  }

  lemma {:induction false} LoBound(us: seq<Term>, bs: seq<Band>, base: int, k: nat)
    requires NonNegative(us) && base >= 1
    ensures 0 <= Lo(us, bs, base, k)
    ensures Lo(us, bs, base, k) * base <= CoefSum(us) * Pow(base, k)
  {
    if us != [] {
      var u := us[0];
      LoBound(us[1..], bs, base, k);
      var w := Weight(bs, u.exps);
      var c := u.coeff;
      var L, S' := Lo(us[1..], bs, base, k), CoefSum(us[1..]);
      var pk := Pow(base, k);
      PowPositive(base, k);
      if w < k {
        PowPositive(base, w);
        PowAdd(base, w, 1);
        PowMonotone(base, w + 1, k);
        LoStepBelow(c, Pow(base, w), base, L, S', pk);
      } else {
        LoStepAbove(c, base, L, S', pk);
      }
    }
  }

  lemma LoStepBelow(c: int, pw: int, b: int, l: int, s: int, pk: int)
    requires c >= 0 && pw >= 0 && l >= 0 && pw * b <= pk && l * b <= s * pk
    ensures 0 <= c * pw + l
    ensures (c * pw + l) * b <= (c + s) * pk
  {
    MulNonNegative(c, pw);
    MulDistrib(c * pw, l, b);
    assert (c * pw) * b == c * (pw * b);
    MulMonotone(c, pw * b, pk);
    MulDistrib(c, s, pk);
  }

  lemma LoStepAbove(c: int, b: int, l: int, s: int, pk: int)
    requires c >= 0 && pk > 0 && l * b <= s * pk
    ensures l * b <= (c + s) * pk
  {
    MulNonNegative(c, pk);
    MulDistrib(c, s, pk);
  }

  lemma {:induction false} HiNonNegative(us: seq<Term>, bs: seq<Band>, base: int, k: nat)
    requires NonNegative(us) && base >= 1
    ensures Hi(us, bs, base, k) >= 0
  {
    if us != [] {
      HiNonNegative(us[1..], bs, base, k);
      if Weight(bs, us[0].exps) > k {
        PowPositive(base, Weight(bs, us[0].exps) - k - 1);
        MulNonNegative(us[0].coeff, Pow(base, Weight(bs, us[0].exps) - k - 1));
      }
    }
  }

  /** A band never holds more than all the coefficients together. */
  lemma {:induction false} BandCoefBounds(us: seq<Term>, bs: seq<Band>, k: nat)
    requires NonNegative(us)
    ensures 0 <= BandCoef(us, bs, k) <= CoefSum(us)
  {
    if us != [] {
      BandCoefBounds(us[1..], bs, k);
    }
  }

  /** Digit band k of the encoded value is the band's coefficient sum, as long
      as all coefficients together stay below the base: no carry ever crosses
      into a neighbouring band. */
  lemma DigitExtraction(us: seq<Term>, bs: seq<Band>, base: int, k: nat)
    requires Uniform(us, |bs|) && AllAvoid(us, bs) && NonNegative(us)
    requires 1 <= base && CoefSum(us) < base
    ensures PolySum(us, Points(bs, base)) >= 0 && Pow(base, k) > 0
    ensures (PolySum(us, Points(bs, base)) / Pow(base, k)) % base == BandCoef(us, bs, k)
  {
    BandCoefBounds(us, bs, k);
    Split(us, bs, base, k);
    LoBound(us, bs, base, k);
    HiNonNegative(us, bs, base, k);
    PowPositive(base, k);
    PowAdd(base, k, 1);
    ExtractArith(PolySum(us, Points(bs, base)), Lo(us, bs, base, k), BandCoef(us, bs, k),
                 Hi(us, bs, base, k), CoefSum(us), Pow(base, k), base);
  }

  /** The arithmetic core of digit extraction, over plain integers. */
  lemma ExtractArith(value: int, l: int, m: int, h: int, s: int, pk: int, b: int)
    requires b >= 1 && pk > 0 && 0 <= l && l * b <= s * pk && s < b
    requires 0 <= m < b && h >= 0
    requires value == l + m * pk + h * (pk * b)
    ensures value >= 0
    ensures (value / pk) % b == m
  {
    var q := m + h * b;
    assert value == q * pk + l by {
      assert h * (pk * b) == (h * b) * pk;
      MulDistrib(m, h * b, pk);
    }
    assert l < pk by {
      MulMonotone(pk, s, b - 1);
      assert s * pk <= (b - 1) * pk;
      MulDistrib(b, -1, pk);
      if l >= pk {
        MulMonotone(b, pk, l);
      }
    }
    MulNonNegative(h, b);
    MulNonNegative(q, pk);
    DivModUnique(value, pk, q, l);
    DivModUnique(q, b, h, m);
  }

  // ---------------------------------------------------------------------------
  // What a query returns.

  /** The packed value at the bands' points, the shift of e, and the query: for
      e avoiding the zero points, query(e) is the coefficient sum of band
      Weight(e). This holds for any band assignment. */
  lemma QueryIsBandSum(us: seq<Term>, bs: seq<Band>, base: int, e: seq<nat>)
    requires Uniform(us, |bs|) && AllAvoid(us, bs) && NonNegative(us)
    requires 1 <= base && CoefSum(us) < base
    requires |e| >= |bs| && Avoids(bs, e)
    ensures CoefficientString(base, Points(bs, base), PolySum(us, Points(bs, base))).Query(e)
         == Ok(BandCoef(us, bs, Weight(bs, e)))
  {
    var v := Points(bs, base);
    var x := e[..|bs|];
    var k := Weight(bs, e);
    MonomialAtBands(x, bs, v, base);
    WeightPrefix(bs, x, e);
    DigitExtraction(us, bs, base, k);
    var n := PolySum(us, v);
    var shift := Monomial(x, v);
    assert shift == Pow(base, k) > 0;
    var q := n / shift;
    assert q >= 0 by {
      DivNonNegative(n, shift);
    }
    assert TDiv(n, shift) == q;
    assert TMod(q, base) == q % base;
  }

  /** A query never fails at an exponent vector that avoids the zero points. */
  lemma QueryDefined(cs: CoefficientString, bs: seq<Band>, e: seq<nat>)
    requires cs.base >= 1 && cs.basis == Points(bs, cs.base)
    requires |e| >= |bs| && Avoids(bs, e)
    ensures cs.Query(e).Ok?
  {
    MonomialAtBands(e[..|bs|], bs, cs.basis, cs.base);
    PowPositive(cs.base, Weight(bs, e[..|bs|]));
  }

  /** Asking for a positive exponent of a variable evaluated at 0 divides by
      zero. */
  lemma QueryAtZeroPoint(cs: CoefficientString, bs: seq<Band>, e: seq<nat>)
    requires cs.basis == Points(bs, cs.base)
    requires |e| >= |bs| && !Avoids(bs, e)
    ensures cs.Query(e) == Err(DivisionByZero)
  {
    MonomialAtZeroBand(e[..|bs|], bs, cs.basis, cs.base);
  }

  // ---------------------------------------------------------------------------
  // Which variables get which band.

  lemma {:induction false} BandsAsWrittenKinds(d: seq<nat>, mask: Option<seq<bool>>, i: nat, pd: nat, pe: nat)
    requires i <= |d|
    ensures forall k :: 0 <= k < |d| - i ==>
              (BandsAsWritten(d, mask, i, pd, pe)[k] == Zero <==> d[i + k] == 0) &&
              (BandsAsWritten(d, mask, i, pd, pe)[k].Power? <==> Tracked(d, mask, i + k))
    decreases |d| - i
  {
    if i < |d| {
      if d[i] == 0 || SummedOut(mask, i) {
        BandsAsWrittenKinds(d, mask, i + 1, pd, pe);
      } else {
        BandsAsWrittenKinds(d, mask, i + 1, d[i], d[i] * pe + 1);
      }
    }
  }

  lemma {:induction false} BandsCorrectedKinds(d: seq<nat>, mask: Option<seq<bool>>, i: nat, width: nat)
    requires i <= |d|
    ensures forall k :: 0 <= k < |d| - i ==>
              (BandsCorrected(d, mask, i, width)[k] == Zero <==> d[i + k] == 0) &&
              (BandsCorrected(d, mask, i, width)[k].Power? <==> Tracked(d, mask, i + k))
    decreases |d| - i
  {
    if i < |d| {
      if d[i] == 0 || SummedOut(mask, i) {
        BandsCorrectedKinds(d, mask, i + 1, width);
      } else {
        BandsCorrectedKinds(d, mask, i + 1, width * (d[i] + 1));
      }
    }
  }

  /** No exponent above the degree bound d. */
  predicate WithinDegrees(d: seq<nat>, x: seq<nat>)
  {
    forall k :: 0 <= k < |d| ==> ExpAt(x, k) <= d[k]
  }

  /** Within the degrees, an exponent vector has 0 wherever the degree is 0, so
      it avoids the zero points of either band assignment. */
  lemma WithinDegreesAvoids(d: seq<nat>, mask: Option<seq<bool>>, x: seq<nat>)
    requires WithinDegrees(d, x)
    ensures Avoids(BandsCorrected(d, mask, 0, 1), x)
    ensures Avoids(BandsAsWritten(d, mask, 0, 0, 0), x)
  {
    BandsCorrectedKinds(d, mask, 0, 1);
    BandsAsWrittenKinds(d, mask, 0, 0, 0);
  }

  // ---------------------------------------------------------------------------
  // The corrected weights are a mixed-radix numeral, hence injective.

  function TrackedCount(d: seq<nat>, mask: Option<seq<bool>>, i: nat): nat
    decreases |d| - i
  {
    if i >= |d| then 0
    else (if Tracked(d, mask, i) then 1 else 0) + TrackedCount(d, mask, i + 1)
  }

  /** The mixed-radix value of x's tracked exponents from variable i on: digit
      x_i in radix d_i + 1. */
  function Radix(d: seq<nat>, mask: Option<seq<bool>>, x: seq<nat>, i: nat): nat
    decreases |d| - i
  {
    if i >= |d| then 0
    else if Tracked(d, mask, i) then ExpAt(x, i) + (d[i] + 1) * Radix(d, mask, x, i + 1)
    else Radix(d, mask, x, i + 1)
  }

  function Drop(x: seq<nat>, i: nat): seq<nat>
  {
    if i <= |x| then x[i..] else []
  }

  lemma {:induction false} CorrectedWeightIsRadix(d: seq<nat>, mask: Option<seq<bool>>, x: seq<nat>, i: nat, width: nat)
    requires i <= |d|
    ensures Weight(BandsCorrected(d, mask, i, width), Drop(x, i)) == width * Radix(d, mask, x, i)
    decreases |d| - i
  {
    if i < |d| {
      var bs := BandsCorrected(d, mask, i, width);
      var X := Drop(x, i);
      assert Tail(X) == Drop(x, i + 1);
      assert ExpAt(X, 0) == ExpAt(x, i);
      assert Weight(bs, X) == WeightOf(bs[0]) * ExpAt(X, 0) + Weight(bs[1..], Tail(X));
      if d[i] == 0 || SummedOut(mask, i) {
        assert bs[1..] == BandsCorrected(d, mask, i + 1, width);
        CorrectedWeightIsRadix(d, mask, x, i + 1, width);
      } else {
        var m := d[i] + 1;
        assert bs[1..] == BandsCorrected(d, mask, i + 1, width * m);
        CorrectedWeightIsRadix(d, mask, x, i + 1, width * m);
        RadixStep(width, ExpAt(x, i), m, Radix(d, mask, x, i + 1));
      }
    }
  }

  lemma RadixStep(width: int, xi: int, m: int, r: int)
    ensures width * xi + (width * m) * r == width * (xi + m * r)
  {
    assert (width * m) * r == width * (m * r);
    MulDistrib(xi, m * r, width);
  }

  /** x and y have the same exponent at every tracked variable from i on. */
  predicate AgreeTracked(d: seq<nat>, mask: Option<seq<bool>>, x: seq<nat>, y: seq<nat>, i: nat)
  {
    forall k :: i <= k < |d| && Tracked(d, mask, k) ==> ExpAt(x, k) == ExpAt(y, k)
  }

  /** Within the degrees, two exponent vectors have the same mixed-radix value
      exactly when they agree on the tracked variables. */
  lemma {:induction false} RadixInjective(d: seq<nat>, mask: Option<seq<bool>>, x: seq<nat>, y: seq<nat>, i: nat)
    requires WithinDegrees(d, x) && WithinDegrees(d, y)
    ensures Radix(d, mask, x, i) == Radix(d, mask, y, i) <==> AgreeTracked(d, mask, x, y, i)
    decreases |d| - i
  {
    if i < |d| {
      RadixInjective(d, mask, x, y, i + 1);
      AgreeTrackedStep(d, mask, x, y, i);
      if Tracked(d, mask, i) {
        DigitsUnique(d[i] + 1, ExpAt(x, i), ExpAt(y, i), Radix(d, mask, x, i + 1), Radix(d, mask, y, i + 1));
      }
    }
  }

  lemma AgreeTrackedStep(d: seq<nat>, mask: Option<seq<bool>>, x: seq<nat>, y: seq<nat>, i: nat)
    requires i < |d|
    ensures AgreeTracked(d, mask, x, y, i)
        <==> (Tracked(d, mask, i) ==> ExpAt(x, i) == ExpAt(y, i)) && AgreeTracked(d, mask, x, y, i + 1)
  {
  }

  /** One digit and the rest of a numeral are determined by its value. */
  lemma DigitsUnique(m: int, a: int, b: int, ra: int, rb: int)
    requires 0 <= a < m && 0 <= b < m
    ensures a + m * ra == b + m * rb <==> a == b && ra == rb
  {
    if a + m * ra == b + m * rb {
      DivModUnique(a + m * ra, m, ra, a);
      DivModUnique(b + m * rb, m, rb, b);
    }
  }

  /** Corrected weights separate exponent vectors within the degrees, up to
      the variables they leave untracked. */
  lemma CorrectedWeightSeparates(d: seq<nat>, mask: Option<seq<bool>>, x: seq<nat>, y: seq<nat>)
    requires WithinDegrees(d, x) && WithinDegrees(d, y)
    ensures Weight(BandsCorrected(d, mask, 0, 1), x) == Weight(BandsCorrected(d, mask, 0, 1), y)
        <==> AgreeTracked(d, mask, x, y, 0)
  {
    CorrectedWeightIsRadix(d, mask, x, 0, 1);
    CorrectedWeightIsRadix(d, mask, y, 0, 1);
    assert Drop(x, 0) == x && Drop(y, 0) == y;
    RadixInjective(d, mask, x, y, 0);
  }

  // ---------------------------------------------------------------------------
  // With at most two tracked variables the two assignments coincide.

  lemma {:induction false} NoneTrackedAgree(d: seq<nat>, mask: Option<seq<bool>>, i: nat, pd: nat, pe: nat, width: nat)
    requires i <= |d| && TrackedCount(d, mask, i) == 0
    ensures BandsAsWritten(d, mask, i, pd, pe) == BandsCorrected(d, mask, i, width)
    decreases |d| - i
  {
    if i < |d| {
      NoneTrackedAgree(d, mask, i + 1, pd, pe, width);
    }
  }

  lemma {:induction false} OneTrackedAgree(d: seq<nat>, mask: Option<seq<bool>>, i: nat, d1: nat)
    requires i <= |d| && TrackedCount(d, mask, i) <= 1
    ensures BandsAsWritten(d, mask, i, d1, 1) == BandsCorrected(d, mask, i, d1 + 1)
    decreases |d| - i
  {
    if i < |d| {
      if Tracked(d, mask, i) {
        NoneTrackedAgree(d, mask, i + 1, d[i], d[i] * 1 + 1, (d1 + 1) * (d[i] + 1));
      } else {
        OneTrackedAgree(d, mask, i + 1, d1);
      }
    }
  }

  /** The first tracked variable gets base ** 1 and the second base ** (d1 + 1)
      under both assignments, so they agree when at most two are tracked. */
  lemma {:induction false} AsWrittenAgreesUpToTwo(d: seq<nat>, mask: Option<seq<bool>>, i: nat)
    requires i <= |d| && TrackedCount(d, mask, i) <= 2
    ensures BandsAsWritten(d, mask, i, 0, 0) == BandsCorrected(d, mask, i, 1)
    decreases |d| - i
  {
    if i < |d| {
      if Tracked(d, mask, i) {
        OneTrackedAgree(d, mask, i + 1, d[i]);
        assert d[i] * 0 + 1 == 1 && 1 * (d[i] + 1) == d[i] + 1;
      } else {
        AsWrittenAgreesUpToTwo(d, mask, i + 1);
      }
    }
  }

  // ---------------------------------------------------------------------------
  // Band sums in terms of exponent vectors.

  /** Σ of the coefficients of the terms that agree with e on every tracked
      variable: the joint count with the untracked variables summed out. */
  function TrackedCoef(us: seq<Term>, d: seq<nat>, mask: Option<seq<bool>>, e: seq<nat>): int
  {
    if us == [] then 0
    else (if AgreeTracked(d, mask, us[0].exps, e, 0) then us[0].coeff else 0) + TrackedCoef(us[1..], d, mask, e)
  }

  predicate AllWithin(us: seq<Term>, d: seq<nat>)
  {
    forall i :: 0 <= i < |us| ==> WithinDegrees(d, us[i].exps)
  }

  lemma {:induction false} CorrectedBandIsTracked(us: seq<Term>, d: seq<nat>, mask: Option<seq<bool>>, e: seq<nat>)
    requires AllWithin(us, d) && WithinDegrees(d, e)
    ensures BandCoef(us, BandsCorrected(d, mask, 0, 1), Weight(BandsCorrected(d, mask, 0, 1), e))
         == TrackedCoef(us, d, mask, e)
  {
    if us != [] {
      CorrectedWeightSeparates(d, mask, us[0].exps, e);
      CorrectedBandIsTracked(us[1..], d, mask, e);
    }
  }

  /** Without a mask, agreeing on the tracked variables within the degrees is
      having the same exponent vector, so the tracked count is the joint
      coefficient. */
  lemma {:induction false} TrackedIsJoint(us: seq<Term>, d: seq<nat>, e: seq<nat>)
    requires Uniform(us, |d|) && AllWithin(us, d) && |e| == |d| && WithinDegrees(d, e)
    ensures TrackedCoef(us, d, None, e) == JointCoef(us, e)
  {
    if us != [] {
      TrackedIsJoint(us[1..], d, e);
      var x := us[0].exps;
      if AgreeTracked(d, None, x, e, 0) {
        assert forall k :: 0 <= k < |d| ==> x[k] == e[k] by {
          forall k | 0 <= k < |d| ensures x[k] == e[k] {
            if d[k] == 0 {
              assert ExpAt(x, k) <= 0 && ExpAt(e, k) <= 0;
            } else {
              assert Tracked(d, None, k);
            }
          }
        }
        assert x == e;
      } else {
        assert x != e;
      }
    }
  }
}
