/**
 * The flow estimate of one (class, pT bin) cell from its fit parameters and
 * the class's mean reaction-plane resolution (analyzetree.cc, lines 277-280).
 * The fit itself is not modelled: A, B, their errors and covariance are inputs.
 */
module Flow {
  import opened Wrappers

  /** The fit of A + 2 B cos(2x): parameters, their standard errors and Cov(A, B). */
  datatype FitResult = FitResult(a: real, b: real, aErr: real, bErr: real, abCov: real)

  /** Why a cell's estimate is not a number (the source lets these through as NaN or infinity). */
  datatype Invalid = NoResolution | ZeroConstant | ZeroAmplitude | ZeroResolution | NegativeRadicand

  /** The uncertainty `scale * sqrt(radicand)`, with the square root left symbolic. */
  datatype Spread = Spread(scale: real, radicand: real)

  function Abs(x: real): real
  {
    if x < 0.0 then -x else x
  }

  /**
   * v2 = B / A / R. Defined exactly when there is a mean resolution R and
   * neither A nor R is zero; the result is the v2 with v2 * A * R == B.
   */
  function V2(fit: FitResult, resolution: Option<real>): (r: Result<real, Invalid>)
    ensures r.Success? <==> resolution.Some? && fit.a != 0.0 && resolution.value != 0.0
    ensures r.Success? ==> r.value * fit.a * resolution.value == fit.b
  {
    if resolution.None? then Failure(NoResolution)
    else if fit.a == 0.0 then Failure(ZeroConstant)
    else if resolution.value == 0.0 then Failure(ZeroResolution)
    else
      var v := fit.b / fit.a / resolution.value;
      assert v * resolution.value == fit.b / fit.a;
      Success(v)
  }

  /**
   * The expression under the square root, (AErr/A)^2 + (BErr/B)^2 - 2 Cov/(A B).
   * It needs A and B non-zero, and is rejected when negative.
   */
  function Radicand(fit: FitResult): (r: Result<real, Invalid>)
    ensures r.Success? ==> fit.a != 0.0 && fit.b != 0.0 && r.value >= 0.0
  {
    if fit.a == 0.0 then Failure(ZeroConstant)
    else if fit.b == 0.0 then Failure(ZeroAmplitude)
    else if RadicandOf(fit) < 0.0 then Failure(NegativeRadicand)
    else Success(RadicandOf(fit))
  }

  function RadicandOf(fit: FitResult): real
    requires fit.a != 0.0 && fit.b != 0.0
  {
    (fit.aErr * fit.aErr) / (fit.a * fit.a) + (fit.bErr * fit.bErr) / (fit.b * fit.b)
      - 2.0 * fit.abCov / (fit.a * fit.b)
  }

  lemma SquarePositive(x: real)
    requires x != 0.0
    ensures x * x > 0.0
  {
    if x < 0.0 {
      assert x * x == (-x) * (-x);
    }
  }

  lemma MulNonNeg(x: real, y: real)
    requires x >= 0.0 && y > 0.0
    ensures x * y >= 0.0
  {
  }

  lemma MulNegPos(x: real, y: real)
    requires x < 0.0 && y > 0.0
    ensures x * y < 0.0
  {
  }

  lemma MulNegNeg(x: real, y: real)
    requires x < 0.0 && y < 0.0
    ensures x * y > 0.0
  {
  }

  lemma MulPosNeg(x: real, y: real)
    requires x > 0.0 && y < 0.0
    ensures x * y < 0.0
  {
  }

  /** Multiplying twice by the same non-zero d keeps the sign of q. */
  lemma SignTwice(q: real, d: real)
    requires d != 0.0
    ensures q >= 0.0 <==> q * (d * d) >= 0.0
  {
    var qd := q * d;
    assert qd * d == q * (d * d);
    if d > 0.0 {
      if q >= 0.0 { MulNonNeg(q, d); MulNonNeg(qd, d); }
      else { MulNegPos(q, d); MulNegPos(qd, d); }
    } else {
      if q == 0.0 { assert qd == 0.0; }
      else if q > 0.0 { MulPosNeg(q, d); MulNegNeg(qd, d); }
      else { MulNegNeg(q, d); MulPosNeg(qd, d); }
    }
  }

  /** The radicand with its denominators cleared: AErr^2 B^2 + BErr^2 A^2 - 2 Cov A B. */
  function Cleared(fit: FitResult): real
  {
    fit.aErr * fit.aErr * (fit.b * fit.b) + fit.bErr * fit.bErr * (fit.a * fit.a)
      - 2.0 * fit.abCov * (fit.a * fit.b)
  }

  lemma RadicandOfCleared(fit: FitResult)
    requires fit.a != 0.0 && fit.b != 0.0
    ensures RadicandOf(fit) * ((fit.a * fit.b) * (fit.a * fit.b)) == Cleared(fit)
    ensures RadicandOf(fit) >= 0.0 <==> Cleared(fit) >= 0.0
  {
    var x1, x2, x3 := fit.aErr * fit.aErr, fit.bErr * fit.bErr, 2.0 * fit.abCov;
    var q := RadicandOf(fit);
    var ab := fit.a * fit.b;
    ClearedSum(x1, x2, x3, fit.a, fit.b);
    assert q * (ab * ab) == Cleared(fit);
    assert ab != 0.0;
    SignTwice(q, ab);
  }

  /**
   * Cleared of denominators: for non-zero A and B the radicand times (A B)^2 is
   * AErr^2 B^2 + BErr^2 A^2 - 2 Cov A B, so it is accepted exactly when that is
   * non-negative.
   */
  lemma RadicandCleared(fit: FitResult)
    requires fit.a != 0.0 && fit.b != 0.0
    ensures Radicand(fit).Success? <==> Cleared(fit) >= 0.0
    ensures Radicand(fit).Success? ==> Radicand(fit).value * ((fit.a * fit.b) * (fit.a * fit.b)) == Cleared(fit)
  {
    RadicandOfCleared(fit);
  }

  lemma DivMul(x: real, d: real, m: real)
    requires d != 0.0
    ensures (x / d) * (d * m) == x * m
  {
  }

  /** x1/a^2 + x2/b^2 - x3/(a b), multiplied by (a b)^2. */
  lemma ClearedSum(x1: real, x2: real, x3: real, a: real, b: real)
    requires a != 0.0 && b != 0.0
    ensures (a * b) * (a * b) > 0.0
    ensures (x1 / (a * a) + x2 / (b * b) - x3 / (a * b)) * ((a * b) * (a * b))
      == x1 * (b * b) + x2 * (a * a) - x3 * (a * b)
  {
    var aa, bb, ab := a * a, b * b, a * b;
    SquarePositive(a);
    SquarePositive(b);
    assert ab != 0.0;
    SquarePositive(ab);
    var p := ab * ab;
    assert p == aa * bb == bb * aa;
    DivMul(x1, aa, bb);
    DivMul(x2, bb, aa);
    DivMul(x3, ab, ab);
    var t1, t2, t3 := x1 / aa, x2 / bb, x3 / ab;
    assert (t1 + t2 - t3) * p == t1 * p + t2 * p - t3 * p;
  }

  /**
   * v2Err = |B/A| * sqrt(radicand) / R, kept as Spread(|B/A| / R, radicand).
   * Defined exactly when v2 is and the radicand is; its scale is |v2|, with the
   * sign of R.
   */
  function V2Err(fit: FitResult, resolution: Option<real>): (r: Result<Spread, Invalid>)
    ensures r.Success? <==> V2(fit, resolution).Success? && Radicand(fit).Success?
    ensures r.Success? ==> r.value.radicand == Radicand(fit).value
    ensures r.Success? ==> r.value.scale * r.value.scale == V2(fit, resolution).value * V2(fit, resolution).value
    ensures r.Success? ==> (r.value.scale > 0.0 <==> resolution.value > 0.0)
  {
    if resolution.None? then Failure(NoResolution)
    else if fit.a == 0.0 then Failure(ZeroConstant)
    else if fit.b == 0.0 then Failure(ZeroAmplitude)
    else if resolution.value == 0.0 then Failure(ZeroResolution)
    else if Radicand(fit).Failure? then Failure(NegativeRadicand)
    else
      var ratio := fit.b / fit.a;
      var s := Abs(ratio) / resolution.value;
      var v := ratio / resolution.value;
      assert s == v || s == -v;
      assert ratio != 0.0;
      Success(Spread(s, Radicand(fit).value))
  }

  /**
   * Both estimates scale as 1/R: dividing by lambda * R instead of R divides
   * v2 and the uncertainty's scale by lambda and leaves the radicand alone.
   */
  lemma ResolutionScaling(fit: FitResult, res: real, lambda: real)
    requires res != 0.0 && lambda != 0.0
    ensures V2(fit, Some(lambda * res)).Success? <==> V2(fit, Some(res)).Success?
    ensures V2(fit, Some(res)).Success? ==>
      V2(fit, Some(lambda * res)).value == V2(fit, Some(res)).value / lambda
    ensures V2Err(fit, Some(lambda * res)).Success? <==> V2Err(fit, Some(res)).Success?
    ensures V2Err(fit, Some(res)).Success? ==>
      V2Err(fit, Some(lambda * res)).value
        == Spread(V2Err(fit, Some(res)).value.scale / lambda, V2Err(fit, Some(res)).value.radicand)
  {
    assert lambda * res != 0.0;
    if fit.a != 0.0 {
      DivDiv(fit.b / fit.a, res, lambda);
      DivDiv(Abs(fit.b / fit.a), res, lambda);
    }
  }

  lemma DivDiv(x: real, r: real, l: real)
    requires r != 0.0 && l != 0.0
    ensures x / (l * r) == x / r / l
  {
    var t := x / r / l;
    assert t * l == x / r;
    assert t * l * r == x;
    assert t * (l * r) == x;
  }

  /** Doubling the mean resolution halves both v2 and its uncertainty. */
  lemma DoublingHalves(fit: FitResult, res: real)
    requires res != 0.0
    requires V2Err(fit, Some(res)).Success?
    ensures V2(fit, Some(2.0 * res)).value == V2(fit, Some(res)).value / 2.0
    ensures V2Err(fit, Some(2.0 * res)).value.scale == V2Err(fit, Some(res)).value.scale / 2.0
  {
    ResolutionScaling(fit, res, 2.0);
  }
}
