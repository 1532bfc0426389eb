/** The console input rules: the validators `positive_check` and
    `non_zero_check`, the decision `enter_func` takes on one typed line,
    and its retry loop.

    Python's `float()` on a string is not re-implemented: it is a parameter
    of type `Parser`, which returns `None` where `float()` raises
    ValueError and otherwise the Python float it produces (a finite number,
    an infinity or NaN). */
module Input {

  datatype Option<T> = None | Some(value: T)

  /** A Python float value. */
  datatype Float = Finite(value: real) | PosInf | NegInf | NaN

  /** Python's `float(s)`, left abstract. */
  type Parser = string -> Option<Float>

  /** Python's `x <= 0` on a float: false for +inf and for NaN. */
  predicate AtMostZero(x: Float)
  {
    match x
    case Finite(v) => v <= 0.0
    case NegInf => true
    case PosInf => false
    case NaN => false
  }

  /** Python's `x == 0` on a float: false for both infinities and for NaN. */
  predicate IsZero(x: Float)
  {
    x.Finite? && x.value == 0.0
  }

  /** `positive_check`: the parsed value, unless it compares <= 0. On a
      finite number it accepts exactly the positive ones and returns the
      number itself; input that does not parse is rejected. */
  function PositiveCheck(parse: Parser, s: string): (r: Option<Float>)
    ensures r.Some? ==> parse(s) == r
    ensures parse(s).None? ==> r.None?
    ensures parse(s).Some? && parse(s).value.Finite? ==> (r.Some? <==> parse(s).value.value > 0.0)
  {
    match parse(s)
    case None => None
    case Some(x) => if AtMostZero(x) then None else Some(x)
  }

  /** `non_zero_check`: the parsed value, unless it compares == 0. On a
      finite number it accepts exactly the non-zero ones. */
  function NonZeroCheck(parse: Parser, s: string): (r: Option<Float>)
    ensures r.Some? ==> parse(s) == r
    ensures parse(s).None? ==> r.None?
    ensures parse(s).Some? && parse(s).value.Finite? ==> (r.Some? <==> parse(s).value.value != 0.0)
  {
    match parse(s)
    case None => None
    case Some(x) => if IsZero(x) then None else Some(x)
  }

  /** The `check_func` argument of `enter_func`: plain `float` (its
      default), `positive_check` or `non_zero_check`. */
  datatype Check = AsFloat | Positive | NonZero

  /** Calls `check_func` on the typed line; `None` stands for an exception. */
  function ApplyCheck(check: Check, parse: Parser, s: string): (r: Option<Float>)
    ensures r.Some? ==> parse(s) == r
  {
    match check
    case AsFloat => parse(s)
    case Positive => PositiveCheck(parse, s)
    case NonZero => NonZeroCheck(parse, s)
  }

  /** What a check demands of a finite value. */
  predicate Satisfies(check: Check, v: real)
  {
    match check
    case AsFloat => true
    case Positive => v > 0.0
    case NonZero => v != 0.0
  }

  // ---------------------------------------------------------------------
  // Substring test (Python's `pat in s` on strings)

  predicate StartsWith(s: string, pat: string)
  {
    |pat| <= |s| && s[..|pat|] == pat
  }

  predicate Contains(s: string, pat: string)
    decreases |s|
  {
    StartsWith(s, pat) || (|s| > 0 && Contains(s[1..], pat))
  }

  ghost predicate OccursAt(s: string, pat: string, i: int)
  {
    0 <= i && i + |pat| <= |s| && s[i..i + |pat|] == pat
  }

  /** `Contains` holds exactly when the pattern occurs at some position. */
  lemma {:induction false} ContainsIff(s: string, pat: string)
    ensures Contains(s, pat) <==> exists i :: OccursAt(s, pat, i)
    decreases |s|
  {
    if StartsWith(s, pat) {
      assert OccursAt(s, pat, 0);
    } else if |s| > 0 {
      ContainsIff(s[1..], pat);
      if Contains(s, pat) {
        var i :| OccursAt(s[1..], pat, i);
        assert s[1..][i..i + |pat|] == s[i + 1..i + 1 + |pat|];
        assert OccursAt(s, pat, i + 1);
      }
      if exists i :: OccursAt(s, pat, i) {
        var i :| OccursAt(s, pat, i);
        assert i != 0;
        assert s[1..][i - 1..i - 1 + |pat|] == s[i..i + |pat|];
        assert OccursAt(s[1..], pat, i - 1);
      }
    }
  }

  // ---------------------------------------------------------------------
  // One attempt of enter_func, as the program does it

  datatype Decision = Accept(value: Float) | Reject

  /** One pass of the loop body of `enter_func`: the exact word "def"
      yields the default unvalidated; otherwise a line containing "inf" is
      rejected; otherwise `check_func` decides. */
  function Attempt(s: string, default: real, check: Check, parse: Parser): (d: Decision)
    ensures s == "def" ==> d == Accept(Finite(default))
    ensures s != "def" && d.Accept? ==> !Contains(s, "inf") && parse(s) == Some(d.value)
    ensures s != "def" && !Contains(s, "inf") ==> (d.Accept? <==> ApplyCheck(check, parse, s).Some?)
  {
    if s == "def" then Accept(Finite(default))
    else if Contains(s, "inf") then Reject
    else
      match ApplyCheck(check, parse, s)
      case None => Reject
      case Some(x) => Accept(x)
  }

  /** The "def" test comes first and bypasses validation: the default is
      returned even where the check would refuse it. */
  lemma DefaultIsNotValidated(default: real, check: Check, parse: Parser)
    requires !Satisfies(check, default)
    ensures Attempt("def", default, check, parse) == Accept(Finite(default))
    ensures AttemptFinite("def", default, check, parse) == Accept(Finite(default))
  {
  }

  /** Any other line containing "inf" is refused, whatever the check. */
  lemma InfIsRejected(s: string, default: real, check: Check, parse: Parser)
    requires s != "def" && exists i :: OccursAt(s, "inf", i)
    ensures Attempt(s, default, check, parse) == Reject
  {
    ContainsIff(s, "inf");
  }

  /** On a line other than "def" that parses to a finite number, the
      attempt accepts exactly the values the check admits. */
  lemma FiniteDecision(s: string, default: real, check: Check, parse: Parser)
    requires s != "def" && !Contains(s, "inf")
    requires parse(s).Some? && parse(s).value.Finite?
    ensures Attempt(s, default, check, parse).Accept? <==> Satisfies(check, parse(s).value.value)
    ensures Attempt(s, default, check, parse).Accept? ==> Attempt(s, default, check, parse) == Accept(parse(s).value)
  {
  }

  /** A string without the letter 'i' does not contain "inf". */
  lemma {:induction false} NoLowercaseI(s: string)
    requires forall k | 0 <= k < |s| :: s[k] != 'i'
    ensures !Contains(s, "inf")
    decreases |s|
  {
    if |s| > 0 {
      assert |s| >= 3 ==> s[..3][0] == s[0];
      NoLowercaseI(s[1..]);
    }
  }

  /** As written, the "inf" guard is case-sensitive while Python's float()
      is not: "Inf" parses to +infinity and is accepted by every check. */
  lemma CapitalisedInfinityAccepted(default: real, parse: Parser)
    requires parse("Inf") == Some(PosInf)
    ensures Attempt("Inf", default, Positive, parse) == Accept(PosInf)
    ensures Attempt("Inf", default, NonZero, parse) == Accept(PosInf)
  {
    NoLowercaseI("Inf");
  }

  /** As written, "nan" passes both checks: every comparison with NaN is
      false, so neither `<= 0` nor `== 0` raises. */
  lemma NaNAccepted(default: real, parse: Parser)
    requires parse("nan") == Some(NaN)
    ensures Attempt("nan", default, Positive, parse) == Accept(NaN)
    ensures Attempt("nan", default, NonZero, parse) == Accept(NaN)
  {
  }

  // ---------------------------------------------------------------------
  // One attempt restricted to finite values

  /** The attempt with the evident intent of the guards: a value that is an
      infinity or NaN is refused like any other invalid input. Every
      accepted value is a finite number that the check admits, or the
      default. */
  function AttemptFinite(s: string, default: real, check: Check, parse: Parser): (d: Decision)
    ensures d.Accept? ==> d.value.Finite?
    ensures s == "def" ==> d == Accept(Finite(default))
    ensures s != "def" && d.Accept? ==> parse(s) == Some(d.value) && Satisfies(check, d.value.value)
  {
    match Attempt(s, default, check, parse)
    case Accept(x) => if x.Finite? then Accept(x) else Reject
    case Reject => Reject
  }

  /** The finite attempt differs from the program's only by refusing the
      non-finite values the program lets through. */
  lemma AttemptFiniteAgrees(s: string, default: real, check: Check, parse: Parser, x: Float)
    ensures AttemptFinite(s, default, check, parse) == Accept(x)
        <==> Attempt(s, default, check, parse) == Accept(x) && x.Finite?
  {
  }

  // ---------------------------------------------------------------------
  // The retry loop

  /** The retry loop as the program has it, over the decision as written:
      the first accepted value (possibly an infinity or NaN) and the number
      of lines read. */
  function FirstAcceptAsWritten(lines: seq<string>, default: real, check: Check, parse: Parser): (r: Option<(Float, nat)>)
    ensures r.None? ==>
              forall j | 0 <= j < |lines| :: Attempt(lines[j], default, check, parse).Reject?
    ensures r.Some? ==>
              0 < r.value.1 <= |lines| &&
              Attempt(lines[r.value.1 - 1], default, check, parse) == Accept(r.value.0) &&
              forall j | 0 <= j < r.value.1 - 1 :: Attempt(lines[j], default, check, parse).Reject?
    decreases |lines|
  {
    if |lines| == 0 then None
    else
      match Attempt(lines[0], default, check, parse)
      case Accept(x) => Some((x, 1))
      case Reject =>
        match FirstAcceptAsWritten(lines[1..], default, check, parse)
        case None => None
        case Some((v, n)) => Some((v, n + 1))
  }

  /** As long as no typed line is accepted with a non-finite value, the
      program's loop and the corrected loop read the same lines and return
      the same value. */
  lemma {:induction false} FirstAcceptAgrees(lines: seq<string>, default: real, check: Check, parse: Parser)
    requires forall j | 0 <= j < |lines| ::
               Attempt(lines[j], default, check, parse).Accept? ==> Attempt(lines[j], default, check, parse).value.Finite?
    ensures FirstAccept(lines, default, check, parse).None? <==> FirstAcceptAsWritten(lines, default, check, parse).None?
    ensures FirstAcceptAsWritten(lines, default, check, parse).Some? ==>
              FirstAccept(lines, default, check, parse) ==
              Some((FirstAcceptAsWritten(lines, default, check, parse).value.0.value,
                    FirstAcceptAsWritten(lines, default, check, parse).value.1))
    decreases |lines|
  {
    if |lines| > 0 && Attempt(lines[0], default, check, parse).Reject? {
      assert forall j | 0 <= j < |lines[1..]| :: lines[1..][j] == lines[j + 1];
      FirstAcceptAgrees(lines[1..], default, check, parse);
    }
  }

  /** As written, "Inf" at a prompt is the value the loop returns after one
      line, where the corrected loop skips it and takes the next line. */
  lemma CapitalisedInfinityReturned(default: real, check: Check, parse: Parser)
    requires parse("Inf") == Some(PosInf)
    ensures FirstAcceptAsWritten(["Inf", "def"], default, check, parse) == Some((PosInf, 1))
    ensures FirstAccept(["Inf", "def"], default, check, parse) == Some((default, 2))
  {
    NoLowercaseI("Inf");
  }

  /** As written, "nan" at a prompt is returned as NaN, where the corrected
      loop accepts nothing from that line. */
  lemma NaNReturned(default: real, check: Check, parse: Parser)
    requires parse("nan") == Some(NaN)
    ensures FirstAcceptAsWritten(["nan"], default, check, parse) == Some((NaN, 1))
    ensures FirstAccept(["nan"], default, check, parse).None?
  {
  }

  /** The value the retry loop settles on and the number of lines it reads:
      the first line the attempt accepts, after every earlier line was
      rejected; `None` when no line is accepted. */
  function FirstAccept(lines: seq<string>, default: real, check: Check, parse: Parser): (r: Option<(real, nat)>)
    ensures r.None? ==>
              forall j | 0 <= j < |lines| :: AttemptFinite(lines[j], default, check, parse).Reject?
    ensures r.Some? ==>
              0 < r.value.1 <= |lines| &&
              AttemptFinite(lines[r.value.1 - 1], default, check, parse) == Accept(Finite(r.value.0)) &&
              forall j | 0 <= j < r.value.1 - 1 :: AttemptFinite(lines[j], default, check, parse).Reject?
    ensures r.Some? ==> r.value.0 == default || Satisfies(check, r.value.0)
    decreases |lines|
  {
    if |lines| == 0 then None
    else
      match AttemptFinite(lines[0], default, check, parse)
      case Accept(x) => Some((x.value, 1))
      case Reject =>
        match FirstAccept(lines[1..], default, check, parse)
        case None => None
        case Some((v, n)) => Some((v, n + 1))
  }

  /** `enter_func` over the lines typed at the console. It reads one line
      per attempt until one is accepted; `used` lines are consumed. If the
      lines run out first, the result is `None` (where the program's
      `input()` would hit end of file). */
  method EnterValue(lines: seq<string>, default: real, check: Check, parse: Parser)
    returns (value: Option<real>, used: nat)
    ensures used <= |lines|
    ensures value.None? ==>
              used == |lines| &&
              forall j | 0 <= j < |lines| :: AttemptFinite(lines[j], default, check, parse).Reject?
    ensures value.Some? ==>
              0 < used &&
              AttemptFinite(lines[used - 1], default, check, parse) == Accept(Finite(value.value)) &&
              forall j | 0 <= j < used - 1 :: AttemptFinite(lines[j], default, check, parse).Reject?
    ensures value.Some? ==> value.value == default || Satisfies(check, value.value)
    ensures value.None? <==> FirstAccept(lines, default, check, parse).None?
    ensures value.Some? ==> FirstAccept(lines, default, check, parse) == Some((value.value, used))
  {
    used := 0;
    while used < |lines|
      invariant used <= |lines|
      invariant forall j | 0 <= j < used :: AttemptFinite(lines[j], default, check, parse).Reject?
    {
      var d := AttemptFinite(lines[used], default, check, parse);
      used := used + 1;
      if d.Accept? {
        value := Some(d.value.value);
        return;
      }
    }
    value := None;
  }
}
