/**
 * The equation solver: a*x + b = 0, a*x² + b*x + c = 0 and the 2×2 system
 * a1*x + b1*y = c1, a2*x + b2*y = c2, each solved in closed form from the
 * text of its coefficient fields, with an equation text for the log and a
 * step-by-step trace for the result pane. Floats are reals; str(float),
 * float()'s full syntax and math.sqrt are parameters.
 */
module Equations {
  import opened Options
  import opened Numerals
  import opened History

  /** str() of a float, float() beyond plain numerals, and math.sqrt. */
  datatype Floats = Floats(str: real -> string, syntax: string -> Option<real>, sqrt: real -> real)

  const Invalid: string := "Error: Please enter valid numeric coefficients"

  /** What one press of "Solve" produces: the lines shown in the result pane and the entry logged, if any. */
  datatype Report = Report(lines: seq<string>, record: Option<Record>)

  /** The value of a coefficient field: an empty field counts as zero, any other is read with `float()`. */
  function Coefficient(text: string, fl: Floats): Option<real>
  {
    PyFloat(if text == "" then "0" else text, fl.syntax)
  }

  function Abs(x: real): real
  {
    if x < 0.0 then -x else x
  }

  // ------------------------------------------------------------ round() and integer snapping

  /** Python's round() on a float: the nearest integer, halves going to the even one. */
  function RoundHalfEven(x: real): int
  {
    var f := x.Floor;
    var d := x - f as real;
    if d < 0.5 then f
    else if d > 0.5 then f + 1
    else if f % 2 == 0 then f
    else f + 1
  }

  /** abs(x - round(x)) < 1e-10. */
  predicate NearInteger(x: real)
  {
    Abs(x - RoundHalfEven(x) as real) < 0.0000000001
  }

  /** How a solution is shown: int(round(x)) when it is within 1e-10 of an integer, else str(x). */
  function Snapped(x: real, fl: Floats): string
  {
    if NearInteger(x) then IntText(RoundHalfEven(x)) else fl.str(x)
  }

  lemma RoundHalfEvenSpec(x: real, k: int)
    ensures Abs(x - RoundHalfEven(x) as real) <= 0.5
    ensures Abs(x - RoundHalfEven(x) as real) <= Abs(x - k as real)
    ensures Abs(x - RoundHalfEven(x) as real) == 0.5 ==> RoundHalfEven(x) % 2 == 0
    ensures x == k as real ==> RoundHalfEven(x) == k
  {
    var f := x.Floor;
    if k <= f - 1 {
      assert x - k as real >= x - f as real + 1.0;
    } else if k >= f + 2 {
      assert k as real - x >= (f + 2) as real - x;
    }
  }

  /** A snapped solution shows an integer text that float() reads back within 1e-10 of the solution. */
  lemma SnappedIsClose(x: real, fl: Floats)
    ensures NearInteger(x) ==> exists k: int :: Snapped(x, fl) == IntText(k) && PyFloat(IntText(k), fl.syntax) == Some(k as real) && Abs(x - k as real) < 0.0000000001
    ensures !NearInteger(x) ==> Snapped(x, fl) == fl.str(x)
  {
    if NearInteger(x) {
      var k := RoundHalfEven(x);
      FloatOfIntText(k, fl.syntax);
      assert Snapped(x, fl) == IntText(k);
    }
  }

  // ------------------------------------------------------------ equation texts

  /** The leading coefficient: hidden when 1, a bare "-" when -1. */
  function LeadText(a: real, fl: Floats): string
  {
    if a == 1.0 then "" else if a == -1.0 then "-" else fl.str(a)
  }

  /** A following term: "+ v" when positive, "- |v|" when negative, nothing when zero. */
  function TermText(v: real, unknown: string, fl: Floats): string
  {
    if v > 0.0 then "+ " + fl.str(v) + unknown
    else if v < 0.0 then "- " + fl.str(-v) + unknown
    else ""
  }

  function LinearText(a: real, b: real, fl: Floats): string
  {
    LeadText(a, fl) + "x " + TermText(b, "", fl) + " = 0"
  }

  function QuadraticText(a: real, b: real, c: real, fl: Floats): string
  {
    LeadText(a, fl) + "x² " + TermText(b, "x", fl) + " " + TermText(c, "", fl) + " = 0"
  }

  function RowText(a: real, b: real, c: real, fl: Floats): string
  {
    fl.str(a) + "x + " + fl.str(b) + "y = " + fl.str(c)
  }

  /** A term's sign is shown by its first two characters, and a zero term disappears. */
  lemma TermTextSpec(v: real, unknown: string, fl: Floats)
    ensures TermText(v, unknown, fl) == "" <==> v == 0.0
    ensures |TermText(v, unknown, fl)| >= 2 && TermText(v, unknown, fl)[..2] == "+ " <==> v > 0.0
    ensures |TermText(v, unknown, fl)| >= 2 && TermText(v, unknown, fl)[..2] == "- " <==> v < 0.0
    ensures v != 0.0 ==> TermText(v, unknown, fl)[2..] == fl.str(Abs(v)) + unknown
  {
    if v > 0.0 {
      assert TermText(v, unknown, fl) == "+ " + (fl.str(v) + unknown);
    } else if v < 0.0 {
      assert TermText(v, unknown, fl) == "- " + (fl.str(-v) + unknown);
    }
  }

  /** The leading coefficient is hidden exactly when it is 1 and reduced to a sign exactly when it is -1. */
  lemma LeadTextSpec(a: real, fl: Floats)
    requires fl.str(a) != "" && fl.str(a) != "-"
    ensures LeadText(a, fl) == "" <==> a == 1.0
    ensures LeadText(a, fl) == "-" <==> a == -1.0
    ensures a != 1.0 && a != -1.0 ==> LeadText(a, fl) == fl.str(a)
  {
  }

  // ------------------------------------------------------------ the closed forms

  /** The answer a solver reaches, before it is rendered as text. */
  datatype Answer =
    | Identity
    | Contradiction
    | Root(x: real)
    | TwoRoots(x1: real, x2: real)
    | DoubleRoot(x: real)
    | ComplexRoots(re: real, im: real)
    | Point(x: real, y: real)
    | Dependent
    | Inconsistent

  function LinearAnswer(a: real, b: real): Answer
  {
    if a == 0.0 then (if b == 0.0 then Identity else Contradiction)
    else Root(-b / a)
  }

  function Discriminant(a: real, b: real, c: real): real
  {
    b * b - 4.0 * a * c
  }

  function QuadraticAnswer(a: real, b: real, c: real, sqrt: real -> real): Answer
  {
    if a == 0.0 then LinearAnswer(b, c)
    else
      var d := Discriminant(a, b, c);
      if d > 0.0 then TwoRoots((-b + sqrt(d)) / (2.0 * a), (-b - sqrt(d)) / (2.0 * a))
      else if d == 0.0 then DoubleRoot(-b / (2.0 * a))
      else ComplexRoots(-b / (2.0 * a), sqrt(Abs(d)) / (2.0 * a))
  }

  function Det(a1: real, b1: real, a2: real, b2: real): real
  {
    a1 * b2 - a2 * b1
  }

  /** The consistency test as written: the cross products of each coefficient column with the constants agree. */
  predicate CrossProductsAgree(a1: real, b1: real, c1: real, a2: real, b2: real, c2: real)
  {
    a1 * c2 == a2 * c1 && b1 * c2 == b2 * c1
  }

  /** The 2×2 classification as written: a singular system is dependent whenever the cross products agree. */
  function SystemAnswerAsWritten(a1: real, b1: real, c1: real, a2: real, b2: real, c2: real): Answer
  {
    var det := Det(a1, b1, a2, b2);
    if det == 0.0 then
      (if CrossProductsAgree(a1, b1, c1, a2, b2, c2) then Dependent else Inconsistent)
    else Point((c1 * b2 - c2 * b1) / det, (a1 * c2 - a2 * c1) / det)
  }

  /** A singular system has solutions: the cross products agree, and not all four coefficients are zero unless both constants are. */
  predicate Consistent(a1: real, b1: real, c1: real, a2: real, b2: real, c2: real)
  {
    && CrossProductsAgree(a1, b1, c1, a2, b2, c2)
    && (a1 != 0.0 || b1 != 0.0 || a2 != 0.0 || b2 != 0.0 || (c1 == 0.0 && c2 == 0.0))
  }

  /** The 2×2 classification, corrected: Cramer's rule when det != 0, else dependent exactly when consistent. */
  function SystemAnswer(a1: real, b1: real, c1: real, a2: real, b2: real, c2: real): (r: Answer)
    ensures r.Dependent? || r.Inconsistent? || r.Point?
  {
    var det := Det(a1, b1, a2, b2);
    if det == 0.0 then
      (if Consistent(a1, b1, c1, a2, b2, c2) then Dependent else Inconsistent)
    else Point((c1 * b2 - c2 * b1) / det, (a1 * c2 - a2 * c1) / det)
  }

  predicate Solves(a1: real, b1: real, c1: real, a2: real, b2: real, c2: real, x: real, y: real)
  {
    a1 * x + b1 * y == c1 && a2 * x + b2 * y == c2
  }

  // ------------------------------------------------------------ the closed forms are right

  /** The linear answer: identity iff 0 = 0, contradiction iff 0 = b with b != 0, and otherwise a root. */
  lemma LinearAnswerSpec(a: real, b: real)
    ensures LinearAnswer(a, b) == Identity <==> a == 0.0 && b == 0.0
    ensures LinearAnswer(a, b) == Contradiction <==> a == 0.0 && b != 0.0
    ensures LinearAnswer(a, b).Root? <==> a != 0.0
    ensures a != 0.0 ==> a * LinearAnswer(a, b).x + b == 0.0
  {
  }

  /** A root of the linear equation is the only one. */
  lemma LinearRootUnique(a: real, b: real, x: real)
    requires a != 0.0 && a * x + b == 0.0
    ensures LinearAnswer(a, b) == Root(x)
  {
    assert x == -b / a;
  }

  /** 4a * (a*x² + b*x + c) == (2a*x + b)² - (b² - 4ac): the step that makes the quadratic formula work. */
  lemma CompletedSquare(a: real, b: real, c: real, x: real)
    ensures 4.0 * a * (a * x * x + b * x + c) == (2.0 * a * x + b) * (2.0 * a * x + b) - Discriminant(a, b, c)
  {
  }

  lemma RootOfSquare(a: real, b: real, c: real, x: real, s: real)
    requires a != 0.0 && 2.0 * a * x + b == s && s * s == Discriminant(a, b, c)
    ensures a * x * x + b * x + c == 0.0
  {
    CompletedSquare(a, b, c, x);
    assert 4.0 * a * (a * x * x + b * x + c) == 0.0;
  }

  lemma TwiceAX(a: real, b: real, s: real)
    requires a != 0.0
    ensures 2.0 * a * ((-b + s) / (2.0 * a)) + b == s
  {
  }

  /**
   * With a positive discriminant and sqrt(d)² == d, both roots solve the
   * equation and differ; a zero discriminant gives a root; with a negative one,
   * re ± im·i solves it when sqrt(|d|)² == |d| (real and imaginary parts both vanish).
   */
  lemma QuadraticRoots(a: real, b: real, c: real, sqrt: real -> real)
    requires a != 0.0
    requires var d := Discriminant(a, b, c); sqrt(Abs(d)) * sqrt(Abs(d)) == Abs(d) && sqrt(Abs(d)) >= 0.0
    ensures var r := QuadraticAnswer(a, b, c, sqrt);
      && (Discriminant(a, b, c) > 0.0 <==> r.TwoRoots?)
      && (Discriminant(a, b, c) == 0.0 <==> r.DoubleRoot?)
      && (Discriminant(a, b, c) < 0.0 <==> r.ComplexRoots?)
    ensures var r := QuadraticAnswer(a, b, c, sqrt);
      r.TwoRoots? ==> a * r.x1 * r.x1 + b * r.x1 + c == 0.0 && a * r.x2 * r.x2 + b * r.x2 + c == 0.0 && r.x1 != r.x2
    ensures var r := QuadraticAnswer(a, b, c, sqrt);
      r.DoubleRoot? ==> a * r.x * r.x + b * r.x + c == 0.0
    ensures var r := QuadraticAnswer(a, b, c, sqrt);
      r.ComplexRoots? ==> a * (r.re * r.re - r.im * r.im) + b * r.re + c == 0.0 && 2.0 * a * r.re * r.im + b * r.im == 0.0
  {
    var d := Discriminant(a, b, c);
    var s := sqrt(Abs(d));
    if d > 0.0 {
      TwoRealRoots(a, b, c, s);
    } else if d == 0.0 {
      TwiceAX(a, b, 0.0);
      RootOfSquare(a, b, c, -b / (2.0 * a), 0.0);
    } else {
      ComplexPair(a, b, c, s);
    }
  }

  lemma TwoRealRoots(a: real, b: real, c: real, s: real)
    requires a != 0.0 && Discriminant(a, b, c) > 0.0 && s >= 0.0 && s * s == Discriminant(a, b, c)
    ensures var x1, x2 := (-b + s) / (2.0 * a), (-b - s) / (2.0 * a);
      a * x1 * x1 + b * x1 + c == 0.0 && a * x2 * x2 + b * x2 + c == 0.0 && x1 != x2
  {
    TwiceAX(a, b, s);
    TwiceAX(a, b, -s);
    RootOfSquare(a, b, c, (-b + s) / (2.0 * a), s);
    RootOfSquare(a, b, c, (-b - s) / (2.0 * a), -s);
    assert s != 0.0;
  }

  lemma ComplexPair(a: real, b: real, c: real, s: real)
    requires a != 0.0 && Discriminant(a, b, c) < 0.0 && s * s == -Discriminant(a, b, c)
    ensures var re, im := -b / (2.0 * a), s / (2.0 * a);
      a * (re * re - im * im) + b * re + c == 0.0 && 2.0 * a * re * im + b * im == 0.0
  {
    var re, im := -b / (2.0 * a), s / (2.0 * a);
    assert 2.0 * a * re == -b;
    assert 2.0 * a * im == s;
    assert 4.0 * a * (a * (re * re - im * im) + b * re + c) == (2.0 * a * re) * (2.0 * a * re) - (2.0 * a * im) * (2.0 * a * im) + 2.0 * b * (2.0 * a * re) + 4.0 * a * c;
  }

  /** With a nonzero determinant, Cramer's (x, y) solves both equations, and nothing else does. */
  lemma CramerSolves(a1: real, b1: real, c1: real, a2: real, b2: real, c2: real)
    requires Det(a1, b1, a2, b2) != 0.0
    ensures SystemAnswer(a1, b1, c1, a2, b2, c2).Point?
    ensures var p := SystemAnswer(a1, b1, c1, a2, b2, c2); Solves(a1, b1, c1, a2, b2, c2, p.x, p.y)
  {
    var det := Det(a1, b1, a2, b2);
    var x, y := (c1 * b2 - c2 * b1) / det, (a1 * c2 - a2 * c1) / det;
    assert det * x == c1 * b2 - c2 * b1;
    assert det * y == a1 * c2 - a2 * c1;
    assert det * (a1 * x + b1 * y) == det * c1;
    assert det * (a2 * x + b2 * y) == det * c2;
  }

  lemma CramerUnique(a1: real, b1: real, c1: real, a2: real, b2: real, c2: real, u: real, v: real)
    requires Det(a1, b1, a2, b2) != 0.0 && Solves(a1, b1, c1, a2, b2, c2, u, v)
    ensures SystemAnswer(a1, b1, c1, a2, b2, c2) == Point(u, v)
  {
    var det := Det(a1, b1, a2, b2);
    assert det * u == c1 * b2 - c2 * b1 by {
      assert c1 * b2 - c2 * b1 == (a1 * u + b1 * v) * b2 - (a2 * u + b2 * v) * b1;
    }
    assert det * v == a1 * c2 - a2 * c1 by {
      assert a1 * c2 - a2 * c1 == a1 * (a2 * u + b2 * v) - a2 * (a1 * u + b1 * v);
    }
  }

  /** A solvable singular system passes the corrected consistency test. */
  lemma SolvableIsConsistent(a1: real, b1: real, c1: real, a2: real, b2: real, c2: real, x: real, y: real)
    requires Det(a1, b1, a2, b2) == 0.0 && Solves(a1, b1, c1, a2, b2, c2, x, y)
    ensures Consistent(a1, b1, c1, a2, b2, c2)
  {
    assert a1 * c2 - a2 * c1 == (a1 * b2 - a2 * b1) * y by {
      assert a1 * c2 - a2 * c1 == a1 * (a2 * x + b2 * y) - a2 * (a1 * x + b1 * y);
    }
    assert b1 * c2 - b2 * c1 == (a2 * b1 - a1 * b2) * x by {
      assert b1 * c2 - b2 * c1 == b1 * (a2 * x + b2 * y) - b2 * (a1 * x + b1 * y);
    }
  }

  /** A consistent singular system has a solution. */
  lemma ConsistentIsSolvable(a1: real, b1: real, c1: real, a2: real, b2: real, c2: real) returns (x: real, y: real)
    requires Det(a1, b1, a2, b2) == 0.0 && Consistent(a1, b1, c1, a2, b2, c2)
    ensures Solves(a1, b1, c1, a2, b2, c2, x, y)
  {
    if a1 != 0.0 {
      x, y := c1 / a1, 0.0;
      Pivot(a1, c1, a2, c2);
    } else if b1 != 0.0 {
      x, y := 0.0, c1 / b1;
      Pivot(b1, c1, b2, c2);
    } else if a2 != 0.0 {
      x, y := c2 / a2, 0.0;
      Pivot(a2, c2, a1, c1);
    } else if b2 != 0.0 {
      x, y := 0.0, c2 / b2;
      Pivot(b2, c2, b1, c1);
    } else {
      x, y := 0.0, 0.0;
    }
  }

  /** Solving one row by its nonzero coefficient p also solves a row whose cross product agrees. */
  lemma Pivot(p: real, c: real, q: real, d: real)
    requires p != 0.0 && p * d == q * c
    ensures p * (c / p) == c && q * (c / p) == d
  {
    var x := c / p;
    assert p * (q * x) == p * d by {
      assert p * (q * x) == q * (p * x);
    }
    Cancel(p, q * x, d);
  }

  lemma Cancel(k: real, u: real, v: real)
    requires k != 0.0 && k * u == k * v
    ensures u == v
  {
  }

  /** Every solution of a singular system has a neighbour: det == 0 leaves a nonzero direction that solves 0 = 0 in both rows. */
  lemma SingularHasDirection(a1: real, b1: real, a2: real, b2: real) returns (dx: real, dy: real)
    requires Det(a1, b1, a2, b2) == 0.0
    ensures (dx != 0.0 || dy != 0.0) && a1 * dx + b1 * dy == 0.0 && a2 * dx + b2 * dy == 0.0
  {
    if a1 != 0.0 || b1 != 0.0 {
      dx, dy := b1, -a1;
    } else if a2 != 0.0 || b2 != 0.0 {
      dx, dy := b2, -a2;
    } else {
      dx, dy := 1.0, 0.0;
    }
  }

  /**
   * The corrected classification: a singular system is reported dependent exactly
   * when it has a solution (and then it has infinitely many), inconsistent exactly
   * when it has none.
   */
  lemma SystemAnswerSpec(a1: real, b1: real, c1: real, a2: real, b2: real, c2: real)
    ensures Det(a1, b1, a2, b2) == 0.0 ==>
      (SystemAnswer(a1, b1, c1, a2, b2, c2) == Dependent <==> exists x: real, y: real :: Solves(a1, b1, c1, a2, b2, c2, x, y))
    ensures SystemAnswer(a1, b1, c1, a2, b2, c2) == Inconsistent <==> forall x: real, y: real :: !Solves(a1, b1, c1, a2, b2, c2, x, y)
  {
    if Det(a1, b1, a2, b2) == 0.0 {
      if Consistent(a1, b1, c1, a2, b2, c2) {
        var x, y := ConsistentIsSolvable(a1, b1, c1, a2, b2, c2);
      } else {
        forall x: real, y: real ensures !Solves(a1, b1, c1, a2, b2, c2, x, y) {
          if Solves(a1, b1, c1, a2, b2, c2, x, y) {
            SolvableIsConsistent(a1, b1, c1, a2, b2, c2, x, y);
          }
        }
      }
    } else {
      CramerSolves(a1, b1, c1, a2, b2, c2);
    }
  }

  /**
   * The consistency test as written calls 0x + 0y = 5, 0x + 0y = 0 dependent,
   * though no (x, y) solves it.
   */
  lemma ZeroRowsCalledDependent()
    ensures SystemAnswerAsWritten(0.0, 0.0, 5.0, 0.0, 0.0, 0.0) == Dependent
    ensures forall x: real, y: real :: !Solves(0.0, 0.0, 5.0, 0.0, 0.0, 0.0, x, y)
    ensures SystemAnswer(0.0, 0.0, 5.0, 0.0, 0.0, 0.0) == Inconsistent
  {
  }

  /** Apart from singular systems with all four coefficients zero, the two tests agree. */
  lemma AsWrittenAgreesElsewhere(a1: real, b1: real, c1: real, a2: real, b2: real, c2: real)
    requires a1 != 0.0 || b1 != 0.0 || a2 != 0.0 || b2 != 0.0
    ensures SystemAnswerAsWritten(a1, b1, c1, a2, b2, c2) == SystemAnswer(a1, b1, c1, a2, b2, c2)
  {
  }

  // ------------------------------------------------------------ result texts and traces

  function AnswerText(r: Answer, fl: Floats): string
  {
    match r
    case Identity => "Infinite solutions (identity)"
    case Contradiction => "No solution (contradiction)"
    case Root(x) => "x = " + Snapped(x, fl)
    case TwoRoots(x1, x2) => "x₁ = " + Snapped(x1, fl) + ", x₂ = " + Snapped(x2, fl)
    case DoubleRoot(x) => "x = " + Snapped(x, fl) + " (double root)"
    case ComplexRoots(re, im) =>
      "x₁ = " + Snapped(re, fl) + " + " + Snapped(im, fl) + "i, x₂ = " + Snapped(re, fl) + " - " + Snapped(im, fl) + "i"
    case Point(x, y) => "x = " + Snapped(x, fl) + ", y = " + Snapped(y, fl)
    case Dependent => "Infinite solutions (dependent equations)"
    case Inconsistent => "No solution (inconsistent system)"
  }

  /** The report of solve_linear_equation once both coefficients are read. */
  function LinearReport(a: real, b: real, fl: Floats): Report
  {
    var equation := LinearText(a, b, fl);
    var result := AnswerText(LinearAnswer(a, b), fl);
    var head := ["Equation: " + equation, "Step 1: Solve for x by isolating the variable"];
    var steps :=
      if a != 0.0 then
        head + ["Step 2: x = -b/a = -(" + fl.str(b) + ")/" + fl.str(a) + " = " + fl.str(-b) + "/" + fl.str(a), "Result: " + result]
      else head + ["Result: " + result];
    Report(steps, Some(Record("Equation Solver", equation, result)))
  }

  /** solve_linear_equation: a field float() rejects shows the invalid-input error. */
  function SolveLinear(aText: string, bText: string, fl: Floats): Report
  {
    match (Coefficient(aText, fl), Coefficient(bText, fl))
    case (Some(a), Some(b)) => LinearReport(a, b, fl)
    case _ => Report([Invalid], None)
  }

  /** The result of a quadratic with a = 0: the linear rule on (b, c), shown with str() and without snapping. */
  function DegenerateText(b: real, c: real, fl: Floats): string
  {
    if b == 0.0 then (if c == 0.0 then "Infinite solutions (identity)" else "No solution (contradiction)")
    else "x = " + fl.str(-c / b)
  }

  /** The lines after the discriminant, one set per sign of the discriminant. */
  function QuadraticSteps(a: real, b: real, c: real, r: Answer, fl: Floats): seq<string>
  {
    var d := Discriminant(a, b, c);
    match r
    case TwoRoots(x1, x2) =>
      ["Step 2: Discriminant > 0, so there are two real solutions",
       "x₁ = (-b + √discriminant)/(2a) = (" + fl.str(-b) + " + √" + fl.str(d) + ")/" + fl.str(2.0 * a) + " = " + Snapped(x1, fl),
       "x₂ = (-b - √discriminant)/(2a) = (" + fl.str(-b) + " - √" + fl.str(d) + ")/" + fl.str(2.0 * a) + " = " + Snapped(x2, fl)]
    case DoubleRoot(x) =>
      ["Step 2: Discriminant = 0, so there is one real solution (double root)",
       QuotientLine("x = -b/(2a)", -b, 2.0 * a, Snapped(x, fl), fl)]
    case ComplexRoots(re, im) =>
      ["Step 2: Discriminant < 0, so there are two complex solutions",
       QuotientLine("Real part = -b/(2a)", -b, 2.0 * a, Snapped(re, fl), fl),
       "Imaginary part = √|discriminant|/(2a) = √" + fl.str(Abs(d)) + "/" + fl.str(2.0 * a) + " = " + Snapped(im, fl),
       "x₁ = " + Snapped(re, fl) + " + " + Snapped(im, fl) + "i",
       "x₂ = " + Snapped(re, fl) + " - " + Snapped(im, fl) + "i"]
    case _ => []
  }

  const LinearNote: string := "Note: This is actually a linear equation (a = 0)"
  const DiscriminantStep: string := "Step 1: Calculate the discriminant (b² - 4ac)"

  /** The report of solve_quadratic_equation once the coefficients are read. */
  function QuadraticReport(a: real, b: real, c: real, fl: Floats): Report
  {
    var equation := QuadraticText(a, b, c, fl);
    if a == 0.0 then
      var result := DegenerateText(b, c, fl);
      var steps := ["Equation: " + equation,
                    LinearNote,
                    "Solving: " + fl.str(b) + "x + " + fl.str(c) + " = 0",
                    "x = -" + fl.str(c) + "/" + fl.str(b) + " = " + fl.str(-c) + "/" + fl.str(b),
                    "Result: " + result];
      Report(steps + ["Result: " + result], Some(Record("Equation Solver", equation, result)))
    else
      var d := Discriminant(a, b, c);
      var result := AnswerText(QuadraticAnswer(a, b, c, fl.sqrt), fl);
      var steps := ["Equation: " + equation,
                    DiscriminantStep,
                    "Discriminant = " + fl.str(b) + "² - 4(" + fl.str(a) + ")(" + fl.str(c) + ") = " + fl.str(b * b) + " - " + fl.str(4.0 * a * c) + " = " + fl.str(d)]
                   + QuadraticSteps(a, b, c, QuadraticAnswer(a, b, c, fl.sqrt), fl);
      Report(steps + ["Result: " + result], Some(Record("Equation Solver", equation, result)))
  }

  /** solve_quadratic_equation. */
  function SolveQuadratic(aText: string, bText: string, cText: string, fl: Floats): Report
  {
    match (Coefficient(aText, fl), Coefficient(bText, fl), Coefficient(cText, fl))
    case (Some(a), Some(b), Some(c)) => QuadraticReport(a, b, c, fl)
    case _ => Report([Invalid], None)
  }

  // The fixed lines and captions of the system trace.
  const UniqueStep := "Step 2: Determinant ≠ 0, so there is a unique solution"
  const CramerStep := "Step 3: Using Cramer's rule to solve for x and y"
  const DetXCaption := "det_x = c₁b₂ - c₂b₁"
  const DetYCaption := "det_y = a₁c₂ - a₂c₁"
  const ConsistentStep := "Step 2: Determinant = 0 and equations are consistent"
  const InconsistentStep := "Step 2: Determinant = 0 but equations are inconsistent"
  const SystemOpening := "System of equations:"
  const DeterminantStep1 := "Step 1: Calculate the determinant of the coefficient matrix"
  const DetCaption := "det = a₁b₂ - a₂b₁"

  /** A trace line "label = (p)(q) - (r)(s) = pq - rs = value" for a 2×2 determinant. */
  function CrossLine(caption: string, p: real, q: real, r: real, s: real, fl: Floats): string
  {
    caption + " = (" + fl.str(p) + ")(" + fl.str(q) + ") - (" + fl.str(r) + ")(" + fl.str(s) + ") = "
      + fl.str(p * q) + " - " + fl.str(r * s) + " = " + fl.str(p * q - r * s)
  }

  /** A trace line "label = n/d = shown". */
  function QuotientLine(caption: string, n: real, d: real, shown: string, fl: Floats): string
  {
    caption + " = " + fl.str(n) + "/" + fl.str(d) + " = " + shown
  }

  /** Cramer's rule, as the trace shows it. */
  function CramerLines(a1: real, b1: real, c1: real, a2: real, b2: real, c2: real, x: real, y: real, fl: Floats): (lines: seq<string>)
    ensures |lines| == 6
  {
    var det := Det(a1, b1, a2, b2);
    [UniqueStep,
     CramerStep,
     CrossLine(DetXCaption, c1, b2, c2, b1, fl),
     CrossLine(DetYCaption, a1, c2, a2, c1, fl),
     QuotientLine("x = det_x/det", c1 * b2 - c2 * b1, det, Snapped(x, fl), fl),
     QuotientLine("y = det_y/det", a1 * c2 - a2 * c1, det, Snapped(y, fl), fl)]
  }

  /** The lines after the determinant: the consistency verdict, or Cramer's rule. */
  function SystemSteps(a1: real, b1: real, c1: real, a2: real, b2: real, c2: real, r: Answer, fl: Floats): seq<string>
  {
    match r
    case Dependent =>
      [ConsistentStep, "Result: " + AnswerText(Dependent, fl)]
    case Inconsistent =>
      [InconsistentStep, "Result: " + AnswerText(Inconsistent, fl)]
    case Point(x, y) =>
      CramerLines(a1, b1, c1, a2, b2, c2, x, y, fl) + ["Result: " + AnswerText(Point(x, y), fl)]
    case _ => []
  }

  /** The report of solve_system_of_equations once the six coefficients are read and the system is classified as r. */
  function SystemReport(a1: real, b1: real, c1: real, a2: real, b2: real, c2: real, r: Answer, fl: Floats): Report
  {
    Report(SystemHead(a1, b1, c1, a2, b2, c2, fl) + SystemSteps(a1, b1, c1, a2, b2, c2, r, fl),
           Some(Record("Equation Solver", RowText(a1, b1, c1, fl) + ", " + RowText(a2, b2, c2, fl), AnswerText(r, fl))))
  }

  /** The opening of the system trace: both equations and the determinant. */
  function SystemHead(a1: real, b1: real, c1: real, a2: real, b2: real, c2: real, fl: Floats): seq<string>
  {
    [SystemOpening,
     "Equation 1: " + RowText(a1, b1, c1, fl),
     "Equation 2: " + RowText(a2, b2, c2, fl),
     DeterminantStep1,
     CrossLine(DetCaption, a1, b2, a2, b1, fl)]
  }

  predicate AllNumbers(fields: seq<string>, fl: Floats)
  {
    forall i :: 0 <= i < |fields| ==> Coefficient(fields[i], fl).Some?
  }

  /** solve_system_of_equations as written; the fields are a1, b1, c1, a2, b2, c2. */
  function SolveSystem(fields: seq<string>, fl: Floats): Report
    requires |fields| == 6
  {
    if AllNumbers(fields, fl) then
      var a1, b1, c1 := Coefficient(fields[0], fl).value, Coefficient(fields[1], fl).value, Coefficient(fields[2], fl).value;
      var a2, b2, c2 := Coefficient(fields[3], fl).value, Coefficient(fields[4], fl).value, Coefficient(fields[5], fl).value;
      SystemReport(a1, b1, c1, a2, b2, c2, SystemAnswerAsWritten(a1, b1, c1, a2, b2, c2), fl)
    else Report([Invalid], None)
  }

  /** The system solver with the corrected consistency test. */
  function SolveSystemCorrected(fields: seq<string>, fl: Floats): Report
    requires |fields| == 6
  {
    if AllNumbers(fields, fl) then
      var a1, b1, c1 := Coefficient(fields[0], fl).value, Coefficient(fields[1], fl).value, Coefficient(fields[2], fl).value;
      var a2, b2, c2 := Coefficient(fields[3], fl).value, Coefficient(fields[4], fl).value, Coefficient(fields[5], fl).value;
      SystemReport(a1, b1, c1, a2, b2, c2, SystemAnswer(a1, b1, c1, a2, b2, c2), fl)
    else Report([Invalid], None)
  }

  /** update_linear_preview. */
  function LinearPreview(aText: string, bText: string, fl: Floats): string
  {
    match (Coefficient(aText, fl), Coefficient(bText, fl))
    case (Some(a), Some(b)) => LinearText(a, b, fl)
    case _ => "Invalid input"
  }

  /** update_quadratic_preview. */
  function QuadraticPreview(aText: string, bText: string, cText: string, fl: Floats): string
  {
    match (Coefficient(aText, fl), Coefficient(bText, fl), Coefficient(cText, fl))
    case (Some(a), Some(b), Some(c)) => QuadraticText(a, b, c, fl)
    case _ => "Invalid input"
  }

  datatype EquationType = Linear | Quadratic | System

  /** clear_inputs: the fields each form is reset to. */
  function DefaultFields(t: EquationType): seq<string>
  {
    match t
    case Linear => ["1", "0"]
    case Quadratic => ["1", "0", "0"]
    case System => ["1", "1", "0", "0", "1", "0"]
  }

  // ------------------------------------------------------------ properties of the reports

  /** The linear trace opens with the equation, shows the division only when a != 0, and closes with the result it logs. */
  lemma LinearReportSpec(a: real, b: real, fl: Floats)
    ensures var rep := LinearReport(a, b, fl);
      && rep.record == Some(Record("Equation Solver", LinearText(a, b, fl), AnswerText(LinearAnswer(a, b), fl)))
      && rep.lines[0] == "Equation: " + LinearText(a, b, fl)
      && rep.lines[|rep.lines| - 1] == "Result: " + rep.record.value.result
      && (|rep.lines| == 4 <==> a != 0.0)
  {
  }

  /** A solver logs only when every field reads as a number; otherwise it shows the invalid-input error alone. */
  lemma SolveLinearSpec(aText: string, bText: string, fl: Floats)
    ensures var rep := SolveLinear(aText, bText, fl);
      && (rep.record.None? <==> Coefficient(aText, fl).None? || Coefficient(bText, fl).None?)
      && (rep.record.None? ==> rep.lines == [Invalid])
      && (rep.record.Some? ==> rep == LinearReport(Coefficient(aText, fl).value, Coefficient(bText, fl).value, fl)
                               && rep.record.value.input == LinearPreview(aText, bText, fl))
  {
    if Coefficient(aText, fl).Some? && Coefficient(bText, fl).Some? {
      LinearReportSpec(Coefficient(aText, fl).value, Coefficient(bText, fl).value, fl);
    }
  }

  /**
   * The quadratic trace opens with the equation and closes with the result it
   * logs; with a = 0 it notes that the equation is linear and states the result
   * twice, on its last two lines.
   */
  lemma QuadraticReportSpec(a: real, b: real, c: real, fl: Floats)
    ensures var rep := QuadraticReport(a, b, c, fl);
      && rep.record.Some? && rep.record.value.input == QuadraticText(a, b, c, fl)
      && rep.lines[0] == "Equation: " + QuadraticText(a, b, c, fl)
      && rep.lines[|rep.lines| - 1] == "Result: " + rep.record.value.result
      && (a == 0.0 ==> rep.lines[1] == LinearNote)
      && (a != 0.0 ==> rep.lines[1] == DiscriminantStep)
      && (a == 0.0 ==> |rep.lines| == 6 && rep.lines[4] == rep.lines[5] && rep.record.value.result == DegenerateText(b, c, fl))
      && (a != 0.0 ==> rep.record.value.result == AnswerText(QuadraticAnswer(a, b, c, fl.sqrt), fl))
  {
    if a == 0.0 {
      DegenerateReportSpec(b, c, fl);
    } else {
      ProperReportSpec(a, b, c, fl);
    }
  }

  lemma DegenerateReportSpec(b: real, c: real, fl: Floats)
    ensures var rep := QuadraticReport(0.0, b, c, fl);
      && rep.record == Some(Record("Equation Solver", QuadraticText(0.0, b, c, fl), DegenerateText(b, c, fl)))
      && |rep.lines| == 6 && rep.lines[0] == "Equation: " + QuadraticText(0.0, b, c, fl)
      && rep.lines[1] == LinearNote
      && rep.lines[4] == rep.lines[5] == "Result: " + DegenerateText(b, c, fl)
  {
  }

  lemma ProperReportSpec(a: real, b: real, c: real, fl: Floats)
    requires a != 0.0
    ensures var rep := QuadraticReport(a, b, c, fl);
      var result := AnswerText(QuadraticAnswer(a, b, c, fl.sqrt), fl);
      && rep.record == Some(Record("Equation Solver", QuadraticText(a, b, c, fl), result))
      && |rep.lines| >= 2 && rep.lines[0] == "Equation: " + QuadraticText(a, b, c, fl)
      && rep.lines[1] == DiscriminantStep
      && rep.lines[|rep.lines| - 1] == "Result: " + result
  {
  }

  lemma SolveQuadraticSpec(aText: string, bText: string, cText: string, fl: Floats)
    ensures var rep := SolveQuadratic(aText, bText, cText, fl);
      && (rep.record.None? <==> Coefficient(aText, fl).None? || Coefficient(bText, fl).None? || Coefficient(cText, fl).None?)
      && (rep.record.None? ==> rep.lines == [Invalid])
      && (rep.record.Some? ==> rep == QuadraticReport(Coefficient(aText, fl).value, Coefficient(bText, fl).value, Coefficient(cText, fl).value, fl)
                               && rep.record.value.input == QuadraticPreview(aText, bText, cText, fl))
  {
    if Coefficient(aText, fl).Some? && Coefficient(bText, fl).Some? && Coefficient(cText, fl).Some? {
      QuadraticReportSpec(Coefficient(aText, fl).value, Coefficient(bText, fl).value, Coefficient(cText, fl).value, fl);
    }
  }

  /** The degenerate quadratic result follows the linear rule on (b, c). */
  lemma DegenerateIsLinear(b: real, c: real, fl: Floats)
    ensures DegenerateText(b, c, fl) == "Infinite solutions (identity)" <==> LinearAnswer(b, c) == Identity
    ensures DegenerateText(b, c, fl) == "No solution (contradiction)" <==> LinearAnswer(b, c) == Contradiction
    ensures LinearAnswer(b, c).Root? ==> DegenerateText(b, c, fl) == "x = " + fl.str(LinearAnswer(b, c).x)
  {
    if b != 0.0 {
      assert DegenerateText(b, c, fl)[0] == 'x';
    }
  }

  /** Whatever the verdict, the last line after the determinant states the result. */
  lemma SystemStepsEnd(a1: real, b1: real, c1: real, a2: real, b2: real, c2: real, r: Answer, fl: Floats)
    requires r.Dependent? || r.Inconsistent? || r.Point?
    ensures var s := SystemSteps(a1, b1, c1, a2, b2, c2, r, fl);
      |s| >= 2 && s[|s| - 1] == "Result: " + AnswerText(r, fl)
  {
  }

  /** The system trace lists both equations and closes with the result it logs. */
  lemma SystemReportSpec(a1: real, b1: real, c1: real, a2: real, b2: real, c2: real, r: Answer, fl: Floats)
    requires r.Dependent? || r.Inconsistent? || r.Point?
    ensures var rep := SystemReport(a1, b1, c1, a2, b2, c2, r, fl);
      && rep.record == Some(Record("Equation Solver", RowText(a1, b1, c1, fl) + ", " + RowText(a2, b2, c2, fl), AnswerText(r, fl)))
      && rep.lines[0] == SystemOpening
      && rep.lines[1] == "Equation 1: " + RowText(a1, b1, c1, fl)
      && rep.lines[2] == "Equation 2: " + RowText(a2, b2, c2, fl)
      && rep.lines[|rep.lines| - 1] == "Result: " + rep.record.value.result
  {
    var head, steps := SystemHead(a1, b1, c1, a2, b2, c2, fl), SystemSteps(a1, b1, c1, a2, b2, c2, r, fl);
    SystemStepsEnd(a1, b1, c1, a2, b2, c2, r, fl);
    var lines := head + steps;
    assert lines[|lines| - 1] == steps[|steps| - 1];
    assert lines[0] == head[0] && lines[1] == head[1] && lines[2] == head[2];
  }

  /** The system solver logs only when all six fields read as numbers, and then reports the verdict of the test as written. */
  lemma SolveSystemSpec(fields: seq<string>, fl: Floats)
    requires |fields| == 6
    ensures var rep := SolveSystem(fields, fl);
      && (rep.record.None? <==> !AllNumbers(fields, fl))
      && (rep.record.None? ==> rep.lines == [Invalid])
      && (AllNumbers(fields, fl) ==> rep.record.value.result == AnswerText(SystemAnswerAsWritten(
            Coefficient(fields[0], fl).value, Coefficient(fields[1], fl).value, Coefficient(fields[2], fl).value,
            Coefficient(fields[3], fl).value, Coefficient(fields[4], fl).value, Coefficient(fields[5], fl).value), fl))
      && (AllNumbers(fields, fl) ==> rep.lines[|rep.lines| - 1] == "Result: " + rep.record.value.result)
  {
    if AllNumbers(fields, fl) {
      var a1, b1, c1 := Coefficient(fields[0], fl).value, Coefficient(fields[1], fl).value, Coefficient(fields[2], fl).value;
      var a2, b2, c2 := Coefficient(fields[3], fl).value, Coefficient(fields[4], fl).value, Coefficient(fields[5], fl).value;
      SystemReportSpec(a1, b1, c1, a2, b2, c2, SystemAnswerAsWritten(a1, b1, c1, a2, b2, c2), fl);
    }
  }

  /**
   * The corrected solver logs under the same condition, reports the corrected verdict, and
   * differs from the solver as written only when all four coefficients are zero.
   */
  lemma SolveSystemCorrectedSpec(fields: seq<string>, fl: Floats)
    requires |fields| == 6
    ensures var rep := SolveSystemCorrected(fields, fl);
      && (rep.record.None? <==> !AllNumbers(fields, fl))
      && (rep.record.None? ==> rep.lines == [Invalid])
      && (AllNumbers(fields, fl) ==> rep.record.value.result == AnswerText(SystemAnswer(
            Coefficient(fields[0], fl).value, Coefficient(fields[1], fl).value, Coefficient(fields[2], fl).value,
            Coefficient(fields[3], fl).value, Coefficient(fields[4], fl).value, Coefficient(fields[5], fl).value), fl))
      && (AllNumbers(fields, fl) ==> rep.lines[|rep.lines| - 1] == "Result: " + rep.record.value.result)
    ensures AllNumbers(fields, fl) ==>
      (Coefficient(fields[0], fl).value != 0.0 || Coefficient(fields[1], fl).value != 0.0 ||
       Coefficient(fields[3], fl).value != 0.0 || Coefficient(fields[4], fl).value != 0.0) ==>
      SolveSystemCorrected(fields, fl) == SolveSystem(fields, fl)
  {
    if AllNumbers(fields, fl) {
      var a1, b1, c1 := Coefficient(fields[0], fl).value, Coefficient(fields[1], fl).value, Coefficient(fields[2], fl).value;
      var a2, b2, c2 := Coefficient(fields[3], fl).value, Coefficient(fields[4], fl).value, Coefficient(fields[5], fl).value;
      SystemReportSpec(a1, b1, c1, a2, b2, c2, SystemAnswer(a1, b1, c1, a2, b2, c2), fl);
      if a1 != 0.0 || b1 != 0.0 || a2 != 0.0 || b2 != 0.0 {
        AsWrittenAgreesElsewhere(a1, b1, c1, a2, b2, c2);
      }
    }
  }

  /** Typed into the form, 0x + 0y = 5 and 0x + 0y = 0 is logged as dependent by the solver as written, and as inconsistent once corrected. */
  lemma ZeroRowsReported(fl: Floats)
    ensures SolveSystem(["0", "0", "5", "0", "0", "0"], fl).record.value.result == "Infinite solutions (dependent equations)"
    ensures SolveSystemCorrected(["0", "0", "5", "0", "0", "0"], fl).record.value.result == "No solution (inconsistent system)"
  {
    var f := ["0", "0", "5", "0", "0", "0"];
    FloatOfIntText(0, fl.syntax);
    FloatOfIntText(5, fl.syntax);
    assert IntText(0) == "0" && IntText(5) == "5";
    assert f[0] == f[1] == f[3] == f[4] == f[5] == "0" && f[2] == "5";
    assert AllNumbers(f, fl);
    SolveSystemSpec(f, fl);
    SolveSystemCorrectedSpec(f, fl);
    ZeroRowsCalledDependent();
  }

  lemma DefaultCoefficients(fl: Floats)
    ensures Coefficient("1", fl) == Some(1.0) && Coefficient("0", fl) == Some(0.0)
    ensures Snapped(0.0, fl) == "0"
  {
    FloatOfIntText(0, fl.syntax);
    FloatOfIntText(1, fl.syntax);
    assert IntText(0) == "0" && IntText(1) == "1";
    assert RoundHalfEven(0.0) == 0;
  }

  /** The linear form's default fields, a = 1 and b = 0, solve to the root 0, shown as "0". */
  lemma LinearDefaultSolves(fl: Floats)
    ensures var f := DefaultFields(Linear); SolveLinear(f[0], f[1], fl).record.value.result == AnswerText(Root(0.0), fl)
    ensures Snapped(0.0, fl) == "0"
  {
    DefaultCoefficients(fl);
    assert SolveLinear("1", "0", fl) == LinearReport(1.0, 0.0, fl);
  }

  /** The quadratic form's defaults, x² = 0, have the double root 0. */
  lemma QuadraticDefaultSolves(fl: Floats)
    ensures var f := DefaultFields(Quadratic); SolveQuadratic(f[0], f[1], f[2], fl).record.value.result == AnswerText(DoubleRoot(0.0), fl)
  {
    DefaultCoefficients(fl);
    assert SolveQuadratic("1", "0", "0", fl) == QuadraticReport(1.0, 0.0, 0.0, fl);
    assert QuadraticAnswer(1.0, 0.0, 0.0, fl.sqrt) == DoubleRoot(0.0);
  }

  /** The system form's defaults, x + y = 0 and y = 0, solve to the point (0, 0). */
  lemma SystemDefaultSolves(fl: Floats)
    ensures SolveSystem(DefaultFields(System), fl).record.value.result == AnswerText(Point(0.0, 0.0), fl)
  {
    var f := DefaultFields(System);
    SystemDefaultFields(fl);
    SolveSystemSpec(f, fl);
    assert SystemAnswerAsWritten(1.0, 1.0, 0.0, 0.0, 1.0, 0.0) == Point(0.0, 0.0);
  }

  lemma SystemDefaultFields(fl: Floats)
    ensures var f := DefaultFields(System);
      |f| == 6 && AllNumbers(f, fl) &&
      Coefficient(f[0], fl) == Some(1.0) && Coefficient(f[1], fl) == Some(1.0) && Coefficient(f[2], fl) == Some(0.0) &&
      Coefficient(f[3], fl) == Some(0.0) && Coefficient(f[4], fl) == Some(1.0) && Coefficient(f[5], fl) == Some(0.0)
  {
    DefaultCoefficients(fl);
    var f := DefaultFields(System);
    assert f[0] == f[1] == f[4] == "1" && f[2] == f[3] == f[5] == "0";
  }
}
