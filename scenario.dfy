/** The program's top level: the five parameters are read at the console
    (each with its default and its check), the velocity is scaled to mm/s,
    the charge is replaced by its magnitude, the plates are placed at
    +-d/2, and the model is evaluated once for the positive and once for
    the negative charge. The program does this by overwriting the global
    `q`; here the two runs are two `Params` values derived from one set of
    entered values. */
module Scenario {
  import opened Kinematics
  import opened Input

  /** Defaults offered at the prompts ("def"). */
  const V0_DEFAULT: real := 6000000000.0
  const Q_DEFAULT: real := 0.000001
  const M_DEFAULT: real := 9.1e-31
  const U_DEFAULT: real := 220.0
  const D_DEFAULT: real := 10.0

  /** The values `enter_func` returned for velocity, charge, mass, voltage
      and plate separation, before any scaling. */
  datatype Entered = Entered(v0: real, q: real, m: real, u: real, d: real)

  /** What the checks at the prompts guarantee. */
  predicate Valid(e: Entered)
  {
    e.v0 > 0.0 && e.q != 0.0 && e.m > 0.0 && e.u > 0.0 && e.d > 0.0
  }

  /** The entered values when every prompt is answered with "def". */
  function Defaults(): (e: Entered)
    ensures Valid(e)
  {
    Entered(V0_DEFAULT, Q_DEFAULT, M_DEFAULT, U_DEFAULT, D_DEFAULT)
  }

  /** Python's `abs` on a number. */
  function Abs(x: real): (r: real)
    ensures r >= 0.0 && (r == x || r == -x)
  {
    if x < 0.0 then -x else x
  }

  /** The two evaluations of the model and the plate coordinates. */
  datatype Setup = Setup(positiveRun: Params, negativeRun: Params, positivePlate: real, negativePlate: real)

  /** The set-up of the program: velocity times 1000, the charge's
      magnitude (taken once at input and once more before plotting),
      plates at +-d/2, and the negative run equal to the positive run with
      the charge negated. */
  function Derive(e: Entered): (s: Setup)
    ensures s.positiveRun.v0 == 1000.0 * e.v0
    ensures s.positiveRun.q >= 0.0 && (s.positiveRun.q == e.q || s.positiveRun.q == -e.q)
    ensures e.q != 0.0 ==> s.positiveRun.q > 0.0
    ensures s.positiveRun.m == e.m && s.positiveRun.u == e.u && s.positiveRun.d == e.d
    ensures s.positiveRun.g == G
    ensures s.negativeRun == s.positiveRun.(q := -s.positiveRun.q)
    ensures s.positivePlate - s.negativePlate == e.d && s.negativePlate == -s.positivePlate
  {
    var q := Abs(Abs(e.q));
    var run := Params(e.v0 * 1000.0, q, e.m, e.u, e.d, G);
    Setup(run, run.(q := -q), e.d / 2.0, -e.d / 2.0)
  }

  /** The positive run always has a collision time, and at that time the
      particle is on the negative plate. */
  lemma PositiveRunHitsNegativePlate(e: Entered, t: real)
    requires Valid(e)
    ensures CollisionTime(Derive(e).positiveRun).Time?
    ensures IsTimeOf(CollisionTime(Derive(e).positiveRun), t) ==>
              Y(Derive(e).positiveRun, t) == Derive(e).negativePlate
  {
  }

  /** The negative run collides (on the positive plate) exactly when the
      field force |q|*U exceeds the weight term d*g*m; on equality the
      formula divides by zero; otherwise it takes the square root of a
      negative number. */
  lemma NegativeRunOutcome(e: Entered, t: real)
    requires Valid(e)
    ensures Abs(e.q) * e.u > e.d * G * e.m <==> CollisionTime(Derive(e).negativeRun).Time?
    ensures Abs(e.q) * e.u == e.d * G * e.m <==> CollisionTime(Derive(e).negativeRun).DivisionByZero?
    ensures Abs(e.q) * e.u < e.d * G * e.m <==> CollisionTime(Derive(e).negativeRun).SqrtOfNegative?
    ensures IsTimeOf(CollisionTime(Derive(e).negativeRun), t) ==>
              Y(Derive(e).negativeRun, t) == Derive(e).positivePlate
  {
  }

  /** With every default both runs have a collision time. */
  lemma DefaultRunsCollide()
    ensures CollisionTime(Derive(Defaults()).positiveRun).Time?
    ensures CollisionTime(Derive(Defaults()).negativeRun).Time?
  {
  }

  /** The values the five prompts accept, in order, each prompt reading
      on from the line after the one the previous prompt accepted:
      velocity, mass, voltage and separation take the positive check, the
      charge the non-zero one. `None` when the lines run out first. */
  function Parameters(lines: seq<string>, parse: Parser): (r: Option<Entered>)
    ensures r.Some? ==> Valid(r.value)
  {
    match FirstAccept(lines, V0_DEFAULT, Positive, parse)
    case None => None
    case Some((v0, n1)) =>
      var rest1 := lines[n1..];
      match FirstAccept(rest1, Q_DEFAULT, NonZero, parse)
      case None => None
      case Some((q, n2)) =>
        var rest2 := rest1[n2..];
        match FirstAccept(rest2, M_DEFAULT, Positive, parse)
        case None => None
        case Some((m, n3)) =>
          var rest3 := rest2[n3..];
          match FirstAccept(rest3, U_DEFAULT, Positive, parse)
          case None => None
          case Some((u, n4)) =>
            var rest4 := rest3[n4..];
            match FirstAccept(rest4, D_DEFAULT, Positive, parse)
            case None => None
            case Some((d, n5)) => Some(Entered(v0, q, m, u, d))
  }

  /** Answering the first five prompts with "def" gives the defaults,
      whatever follows. */
  lemma AllDefaults(lines: seq<string>, parse: Parser)
    requires |lines| >= 5 && forall k | 0 <= k < 5 :: lines[k] == "def"
    ensures Parameters(lines, parse) == Some(Defaults())
  {
  }

  /** A line that the first prompt rejects is skipped: the result is that
      of the remaining lines. */
  lemma RejectedLineSkipped(lines: seq<string>, parse: Parser)
    requires |lines| > 0 && AttemptFinite(lines[0], V0_DEFAULT, Positive, parse).Reject?
    ensures Parameters(lines, parse) == Parameters(lines[1..], parse)
  {
    match FirstAccept(lines[1..], V0_DEFAULT, Positive, parse)
    case None =>
    case Some((v0, n1)) =>
      assert lines[n1 + 1..] == lines[1..][n1..];
  }

  /** The five prompts of the program over the lines typed at the console:
      the program reads the five values as `Parameters` describes them, so
      whatever is accepted (defaults included) satisfies `Valid`. */
  method EnterParameters(lines: seq<string>, parse: Parser) returns (e: Option<Entered>)
    ensures e == Parameters(lines, parse)
    ensures e.Some? ==> Valid(e.value)
  {
    var rest := lines;
    var v0, n := EnterValue(rest, V0_DEFAULT, Positive, parse);
    if v0.None? { return None; }
    rest := rest[n..];
    var q, n2 := EnterValue(rest, Q_DEFAULT, NonZero, parse);
    if q.None? { return None; }
    rest := rest[n2..];
    var m, n3 := EnterValue(rest, M_DEFAULT, Positive, parse);
    if m.None? { return None; }
    rest := rest[n3..];
    var u, n4 := EnterValue(rest, U_DEFAULT, Positive, parse);
    if u.None? { return None; }
    rest := rest[n4..];
    var d, n5 := EnterValue(rest, D_DEFAULT, Positive, parse);
    if d.None? { return None; }
    e := Some(Entered(v0.value, q.value, m.value, u.value, d.value));
  }
}
