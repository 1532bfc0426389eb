/** Closed-form motion of a charged particle between the plates of a
    parallel-plate capacitor: uniform horizontal motion, uniformly
    accelerated vertical motion under gravity and the field U/d, and the
    time at which the particle reaches a plate.

    The module-level globals of the program (V_0, q, m, U, d, g) are the
    fields of one `Params` value passed to every function. */
module Kinematics {

  /** Gravitational acceleration, the program's constant `g`. */
  const G: real := 9.81

  /** One evaluation of the model: entry speed, signed charge, mass,
      plate voltage, plate separation and gravitational acceleration. */
  datatype Params = Params(v0: real, q: real, m: real, u: real, d: real, g: real)

  /** Horizontal position at time t. */
  function X(p: Params, t: real): real
  {
    p.v0 * t
  }

  /** Vertical position at time t: gravity pulls down, the field pushes a
      positive charge down as well (towards the negative plate). */
  function Y(p: Params, t: real): real
    requires p.m * p.d != 0.0
  {
    (-p.g - (p.q * p.u) / (p.m * p.d)) * (t * t) / 2.0
  }

  /** The net vertical force term d*g*m + q*U (positive: net force towards
      the negative plate, negative: towards the positive plate). */
  function NetForce(p: Params): real
  {
    p.d * p.g * p.m + p.q * p.u
  }

  /** Outcome of the collision time formula. `Time(square)` stands for the
      unique t > 0 with t * t == square, that is d*sqrt(m)/sqrt(radicand);
      the two other outcomes are the cases in which the formula has no real
      value (numpy then yields inf or NaN instead of a number). */
  datatype Collision = Time(square: real) | DivisionByZero | SqrtOfNegative

  /** t is the time denoted by a defined collision outcome. */
  ghost predicate IsTimeOf(c: Collision, t: real)
  {
    c.Time? && t > 0.0 && t * t == c.square
  }

  /** d * sqrt(m) / sqrt(r), for m > 0 and d > 0. */
  function Quotient(d: real, m: real, r: real): (c: Collision)
    requires m > 0.0 && d > 0.0
    ensures c.Time? <==> r > 0.0
    ensures c.DivisionByZero? <==> r == 0.0
    ensures c.Time? ==> c.square > 0.0 && c.square * r == d * d * m
  {
    if r < 0.0 then SqrtOfNegative
    else if r == 0.0 then DivisionByZero
    else
      QuotientFacts(d, m, r);
      Time(d * d * m / r)
  }

  lemma QuotientFacts(d: real, m: real, r: real)
    requires d > 0.0 && m > 0.0 && r > 0.0
    ensures d * d * m / r > 0.0 && (d * d * m / r) * r == d * d * m
  {
    assert d * m > 0.0;
    assert d * d * m / r == d * (d * m / r);
    assert d * m / r > 0.0;
  }

  /** The program's collision time: the branch is picked by the sign of the
      charge alone, not by the sign of the net force. It is defined exactly
      when the net force points the way the charge's sign assumes. */
  function CollisionTime(p: Params): (c: Collision)
    requires p.m > 0.0 && p.d > 0.0
    ensures c.Time? <==> (if p.q > 0.0 then NetForce(p) > 0.0 else NetForce(p) < 0.0)
    ensures c.Time? ==> c.square > 0.0
  {
    if p.q > 0.0 then Quotient(p.d, p.m, p.d * p.g * p.m + p.q * p.u)
    else Quotient(p.d, p.m, -p.d * p.g * p.m - p.q * p.u)
  }

  /** Reference reading of the collision time in which the branch is picked
      by the sign of the net force instead of the sign of the charge. */
  function NetForceCollisionTime(p: Params): (c: Collision)
    requires p.m > 0.0 && p.d > 0.0
    ensures c.Time? <==> NetForce(p) != 0.0
    ensures c.Time? ==> c.square * (if NetForce(p) > 0.0 then NetForce(p) else -NetForce(p)) == p.d * p.d * p.m
  {
    if NetForce(p) > 0.0 then Quotient(p.d, p.m, NetForce(p))
    else Quotient(p.d, p.m, -NetForce(p))
  }

  // ---------------------------------------------------------------------
  // Horizontal motion

  /** x starts at the entry point and is additive in time (linear). */
  lemma XLinear(p: Params, t1: real, t2: real)
    ensures X(p, 0.0) == 0.0
    ensures X(p, t1 + t2) == X(p, t1) + X(p, t2)
  {
  }

  /** For a positive entry speed x is strictly increasing in t. */
  lemma XStrictlyIncreasing(p: Params, t1: real, t2: real)
    requires p.v0 > 0.0 && t1 < t2
    ensures X(p, t1) < X(p, t2)
  {
  }

  // ---------------------------------------------------------------------
  // Vertical motion

  /** The particle enters midway between the plates. */
  lemma YAtZero(p: Params)
    requires p.m * p.d != 0.0
    ensures Y(p, 0.0) == 0.0
  {
  }

  /** Y(t) = -NetForce / (m*d) * t*t / 2. */
  lemma YByNetForce(p: Params, t: real)
    requires p.m > 0.0 && p.d > 0.0
    ensures Y(p, t) == -(NetForce(p) / (p.m * p.d)) * (t * t) / 2.0
  {
  }

  /** A positive charge (with g >= 0 and U, m, d > 0) is accelerated
      downwards: at no time is it above its entry height. */
  lemma PositiveChargeBelowEntry(p: Params, t: real)
    requires p.q > 0.0 && p.g >= 0.0 && p.u > 0.0 && p.m > 0.0 && p.d > 0.0
    ensures Y(p, t) <= 0.0
  {
  }

  /** ... and its deflection grows with time: it drifts steadily towards
      the negative plate. */
  lemma PositiveChargeDrifts(p: Params, t1: real, t2: real)
    requires p.q > 0.0 && p.g >= 0.0 && p.u > 0.0 && p.m > 0.0 && p.d > 0.0
    requires 0.0 <= t1 <= t2
    ensures Y(p, t2) <= Y(p, t1)
  {
  }

  lemma NetForcePositive(p: Params)
    requires p.q > 0.0 && p.g >= 0.0 && p.u > 0.0 && p.m > 0.0 && p.d > 0.0
    ensures NetForce(p) > 0.0
  {
  }

  // ---------------------------------------------------------------------
  // Collision time

  /** For a positive charge with U, m, d > 0 and g >= 0 the first branch has
      a positive radicand: the collision time exists and is positive. */
  lemma PositiveChargeCollides(p: Params)
    requires p.q > 0.0 && p.g >= 0.0 && p.u > 0.0 && p.m > 0.0 && p.d > 0.0
    ensures CollisionTime(p).Time? && CollisionTime(p).square > 0.0
    ensures CollisionTime(p).square == p.d * p.d * p.m / (p.d * p.g * p.m + p.q * p.u)
  {
  }

  /** For a negative charge the outcome depends on how q*U compares with
      -d*g*m: defined, division by zero, or square root of a negative. */
  lemma NegativeChargeCases(p: Params)
    requires p.q < 0.0 && p.m > 0.0 && p.d > 0.0
    ensures p.q * p.u < -p.d * p.g * p.m <==> CollisionTime(p).Time?
    ensures p.q * p.u == -p.d * p.g * p.m <==> CollisionTime(p).DivisionByZero?
    ensures p.q * p.u > -p.d * p.g * p.m <==> CollisionTime(p).SqrtOfNegative?
    ensures CollisionTime(p).Time? ==>
              CollisionTime(p).square == p.d * p.d * p.m / (-p.d * p.g * p.m - p.q * p.u)
  {
  }

  /** The collision time is well defined: at most one t > 0 has the square. */
  lemma TimeIsUnique(c: Collision, t1: real, t2: real)
    requires IsTimeOf(c, t1) && IsTimeOf(c, t2)
    ensures t1 == t2
  {
  }

  /** The particle reaches a plate exactly at the collision time: a
      positive charge the negative plate -d/2, a negative charge the
      positive plate d/2. */
  lemma CollisionOnPlate(p: Params, t: real)
    requires p.m > 0.0 && p.d > 0.0
    requires IsTimeOf(CollisionTime(p), t)
    ensures Y(p, t) == if p.q > 0.0 then -p.d / 2.0 else p.d / 2.0
  {
  }

  /** Between entry and collision the path stays between the plates: every
      sampled point of [0, tc] lies in [-d/2, d/2], on the side of the
      plate that is hit. */
  lemma PathBetweenPlates(p: Params, tc: real, t: real)
    requires p.m > 0.0 && p.d > 0.0
    requires IsTimeOf(CollisionTime(p), tc)
    requires 0.0 <= t <= tc
    ensures p.q > 0.0 ==> -p.d / 2.0 <= Y(p, t) <= 0.0
    ensures p.q <= 0.0 ==> 0.0 <= Y(p, t) <= p.d / 2.0
  {
    CollisionOnPlate(p, tc);
    YByNetForce(p, t);
    YByNetForce(p, tc);
    SquareMonotone(t, tc);
    var k := NetForce(p) / (p.m * p.d);
    if p.q > 0.0 {
      assert k > 0.0;
      BetweenScaled(k, t * t, tc * tc);
    } else {
      assert k < 0.0;
      BetweenScaled(-k, t * t, tc * tc);
    }
  }

  lemma SquareMonotone(t: real, tc: real)
    requires 0.0 <= t <= tc
    ensures 0.0 <= t * t <= tc * tc
  {
  }

  lemma BetweenScaled(k: real, a: real, b: real)
    requires k > 0.0 && 0.0 <= a <= b
    ensures 0.0 <= k * a / 2.0 <= k * b / 2.0
  {
  }

  /** Wherever the program's formula is defined it agrees with the
      net-force reading. */
  lemma CollisionTimeAgrees(p: Params)
    requires p.m > 0.0 && p.d > 0.0
    requires CollisionTime(p).Time?
    ensures NetForceCollisionTime(p) == CollisionTime(p)
  {
  }

  /** Where they differ: a negative charge whose net force still points to
      the negative plate (gravity dominates) collides under the net-force
      reading, while the program's formula takes the square root of a
      negative number. */
  lemma GravityDominatedNegativeCharge(p: Params)
    requires p.m > 0.0 && p.d > 0.0
    requires p.q < 0.0 && NetForce(p) > 0.0
    ensures CollisionTime(p).SqrtOfNegative?
    ensures NetForceCollisionTime(p).Time?
  {
  }
}
