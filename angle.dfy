/**
 * The reaction-plane-relative azimuthal angle and its period-pi fold into
 * [-pi/2, pi/2] (analyzetree.cc, lines 237-239). The constant pi is a
 * parameter known only to be positive.
 */
module Angle {

  /**
   * `y` is what folding `x` by `k` half-turns gives: it differs from `x` by
   * k * pi, lies in [-pi/2, pi/2], and sits on the upper edge only when `x`
   * was brought down to it (k >= 0), on the lower edge only when `x` was
   * brought up to it (k <= 0).
   */
  predicate FoldedFrom(x: real, y: real, pi: real, k: int)
  {
    y == x - (k as real) * pi
    && -pi / 2.0 <= y <= pi / 2.0
    && (y == pi / 2.0 ==> k >= 0)
    && (y == -pi / 2.0 ==> k <= 0)
  }

  function Ceil(t: real): int
  {
    -((-t).Floor)
  }

  /** Number of half-turns the fold removes from `x`, in closed form. */
  function Turns(x: real, pi: real): int
    requires pi > 0.0
  {
    if x > pi / 2.0 then Ceil((x - pi / 2.0) / pi)
    else if x < -pi / 2.0 then -Ceil((-pi / 2.0 - x) / pi)
    else 0
  }

  /** Closed-form reference definition of the fold. */
  function Fold(x: real, pi: real): real
    requires pi > 0.0
  {
    x - (Turns(x, pi) as real) * pi
  }

  lemma MulMono(a: real, b: real, pi: real)
    requires pi > 0.0
    ensures a <= b ==> a * pi <= b * pi
    ensures a < b ==> a * pi < b * pi
  {
  }

  /** Adding or removing one half-turn, and reversing the count. */
  lemma MulStep(k: int, pi: real)
    ensures ((k + 1) as real) * pi == (k as real) * pi + pi
    ensures ((k - 1) as real) * pi == (k as real) * pi - pi
    ensures ((-k) as real) * pi == -((k as real) * pi)
  {
  }

  lemma DivCancel(v: real, pi: real)
    requires pi > 0.0
    ensures (v / pi) * pi == v
  {
  }

  lemma CeilBounds(t: real)
    ensures t <= Ceil(t) as real < t + 1.0
  {
  }

  /** For v > 0, c = Ceil(v / pi) is the least count of half-turns covering v. */
  lemma CeilTurns(v: real, pi: real)
    requires pi > 0.0 && v > 0.0
    ensures Ceil(v / pi) >= 1
    ensures v <= (Ceil(v / pi) as real) * pi < v + pi
  {
    var t := v / pi;
    var c := Ceil(t);
    DivCancel(v, pi);
    CeilBounds(t);
    MulMono(t, 0.0, pi);
    assert t > 0.0;
    MulMono(t, c as real, pi);
    assert v <= (c as real) * pi;
    MulMono(c as real, t + 1.0, pi);
    calc {
      (c as real) * pi;
    < (t + 1.0) * pi;
    == t * pi + pi;
    == v + pi;
    }
  }

  /** Above pi/2 the fold removes Ceil((x - pi/2) / pi) half-turns. */
  lemma FoldAbove(x: real, pi: real)
    requires pi > 0.0 && x > pi / 2.0
    ensures FoldedFrom(x, Fold(x, pi), pi, Turns(x, pi))
  {
    var v := x - pi / 2.0;
    CeilTurns(v, pi);
    var c := Ceil(v / pi);
    var cp := (c as real) * pi;
    assert Turns(x, pi) == c;
    assert Fold(x, pi) == x - cp;
  }

  /** Below -pi/2 the fold adds back Ceil((-pi/2 - x) / pi) half-turns. */
  lemma FoldBelow(x: real, pi: real)
    requires pi > 0.0 && x < -pi / 2.0
    ensures FoldedFrom(x, Fold(x, pi), pi, Turns(x, pi))
  {
    var v := -pi / 2.0 - x;
    CeilTurns(v, pi);
    var c := Ceil(v / pi);
    var cp := (c as real) * pi;
    MulStep(c, pi);
    assert Turns(x, pi) == -c;
    assert Fold(x, pi) == x + cp;
  }

  /** The closed form satisfies the fold's characterization. */
  lemma FoldSatisfies(x: real, pi: real)
    requires pi > 0.0
    ensures FoldedFrom(x, Fold(x, pi), pi, Turns(x, pi))
  {
    if x > pi / 2.0 {
      FoldAbove(x, pi);
    } else if x < -pi / 2.0 {
      FoldBelow(x, pi);
    }
  }

  /** An integer number of half-turns no longer than one half-turn is -1, 0 or 1. */
  lemma WithinOneTurn(d: int, pi: real, dp: real)
    requires pi > 0.0 && dp == (d as real) * pi && -pi <= dp <= pi
    ensures -1 <= d <= 1
  {
    MulMono(2.0, d as real, pi);
    MulMono(d as real, -2.0, pi);
  }

  /** The characterization determines the fold: at most one (y, k) satisfies it. */
  lemma {:induction false} FoldedUnique(x: real, pi: real, y1: real, k1: int, y2: real, k2: int)
    requires pi > 0.0
    requires FoldedFrom(x, y1, pi, k1) && FoldedFrom(x, y2, pi, k2)
    ensures k1 == k2 && y1 == y2
  {
    var d := k2 - k1;
    var dp := (d as real) * pi;
    assert y1 - y2 == dp;
    WithinOneTurn(d, pi, dp);
    assert d != 1;
    assert d != -1;
  }

  /** Anything satisfying the characterization is the closed-form fold. */
  lemma FoldedIsFold(x: real, y: real, pi: real, k: int)
    requires pi > 0.0
    requires FoldedFrom(x, y, pi, k)
    ensures y == Fold(x, pi) && k == Turns(x, pi)
  {
    FoldSatisfies(x, pi);
    FoldedUnique(x, pi, y, k, Fold(x, pi), Turns(x, pi));
  }

  /** The fold lands in [-pi/2, pi/2] and differs from its input by a whole number of half-turns. */
  lemma FoldRange(x: real, pi: real)
    requires pi > 0.0
    ensures -pi / 2.0 <= Fold(x, pi) <= pi / 2.0
    ensures Fold(x, pi) == x - (Turns(x, pi) as real) * pi
  {
    FoldSatisfies(x, pi);
  }

  /** An angle already in [-pi/2, pi/2] is left unchanged. */
  lemma FoldKeepsInRange(x: real, pi: real)
    requires pi > 0.0
    requires -pi / 2.0 <= x <= pi / 2.0
    ensures Fold(x, pi) == x
  {
    FoldedIsFold(x, x, pi, 0);
  }

  /** Folding twice is folding once. */
  lemma FoldIdempotent(x: real, pi: real)
    requires pi > 0.0
    ensures Fold(Fold(x, pi), pi) == Fold(x, pi)
  {
    FoldSatisfies(x, pi);
    FoldKeepsInRange(Fold(x, pi), pi);
  }

  /**
   * The fold has period pi away from the two edges: shifting the input by
   * any whole number of half-turns does not change an interior result.
   */
  lemma FoldPeriodic(x: real, pi: real, n: int)
    requires pi > 0.0
    requires -pi / 2.0 < Fold(x, pi) < pi / 2.0
    ensures Fold(x + (n as real) * pi, pi) == Fold(x, pi)
  {
    FoldSatisfies(x, pi);
    var k := Turns(x, pi) + n;
    assert Fold(x, pi) == (x + (n as real) * pi) - (k as real) * pi;
    FoldedIsFold(x + (n as real) * pi, Fold(x, pi), pi, k);
  }

  /** One step of the first loop: above pi/2, subtracting pi removes one more half-turn. */
  lemma StepDown(x: real, pi: real, y: real, k: int, t: int)
    requires pi > 0.0
    requires x - (t as real) * pi <= pi / 2.0
    requires y == x - (k as real) * pi && y > pi / 2.0
    ensures k < t
    ensures y - pi == x - ((k + 1) as real) * pi
  {
    MulMono(t as real, k as real, pi);
    MulStep(k, pi);
  }

  /** One step of the second loop: below -pi/2, adding pi gives back one half-turn. */
  lemma StepUp(x: real, pi: real, y: real, k: int, t: int)
    requires pi > 0.0
    requires x - (t as real) * pi >= -pi / 2.0
    requires y == x - (k as real) * pi && y < -pi / 2.0
    ensures t < k
    ensures y + pi == x - ((k - 1) as real) * pi
  {
    MulMono(k as real, t as real, pi);
    MulStep(k, pi);
  }

  /** Some whole number of half-turns brings `x` into [-pi/2, pi/2]. */
  lemma HalfTurnsFor(x: real, pi: real) returns (t: int)
    requires pi > 0.0
    ensures -pi / 2.0 <= x - (t as real) * pi <= pi / 2.0
  {
    t := Turns(x, pi);
    FoldRange(x, pi);
  }

  /**
   * The source's two loops: subtract pi while above pi/2, then add pi while
   * below -pi/2. Both stop, and the result is the closed-form fold.
   */
  method FoldAngle(x: real, pi: real) returns (phiRP: real)
    requires pi > 0.0
    ensures phiRP == Fold(x, pi)
  {
    ghost var t := HalfTurnsFor(x, pi);
    phiRP := x;
    ghost var k := 0;
    while phiRP > pi / 2.0
      invariant phiRP == x - (k as real) * pi
      invariant 0 <= k && (k == 0 || k <= t)
      invariant k > 0 ==> phiRP > -pi / 2.0
      decreases t - k
    {
      StepDown(x, pi, phiRP, k, t);
      phiRP := phiRP - pi;
      k := k + 1;
    }
    while phiRP < -pi / 2.0
      invariant phiRP == x - (k as real) * pi
      invariant t <= k || phiRP >= -pi / 2.0
      invariant phiRP <= pi / 2.0
      invariant phiRP == pi / 2.0 ==> k >= 0
      invariant k > 0 ==> phiRP > -pi / 2.0
      decreases k - t
    {
      StepUp(x, pi, phiRP, k, t);
      phiRP := phiRP + pi;
      k := k - 1;
    }
    assert FoldedFrom(x, phiRP, pi, k);
    FoldedIsFold(x, phiRP, pi, k);
  }
}
