/** The fit itself: the triple quadfit() returns is the one quadratic with the smallest sum of
    squared residuals, for any number of points. */
module LeastSquares {
  import opened QuadFit

  function Pow(x: real, k: nat): real { if k == 0 then 1.0 else x * Pow(x, k - 1) }

  /** Sum of x^k. */
  function PowerSum(xs: seq<real>, k: nat): real
    decreases |xs|
  {
    if xs == [] then 0.0 else PowerSum(xs[..|xs| - 1], k) + Pow(xs[|xs| - 1], k)
  }

  /** Sum of x^k * y. */
  function Moment(xs: seq<real>, ys: seq<real>, k: nat): real
    requires |xs| == |ys|
    decreases |xs|
  {
    if xs == [] then 0.0
    else var n := |xs| - 1; Moment(xs[..n], ys[..n], k) + Pow(xs[n], k) * ys[n]
  }

  function NormalEquations(xs: seq<real>, ys: seq<real>): Matrix
    requires |xs| == |ys|
  {
    [Equation(xs, ys, 0), Equation(xs, ys, 1), Equation(xs, ys, 2)]
  }

  function Equation(xs: seq<real>, ys: seq<real>, k: nat): Row
    requires |xs| == |ys|
  {
    [PowerSum(xs, k), PowerSum(xs, k + 1), PowerSum(xs, k + 2), Moment(xs, ys, k)]
  }

  /** The quadratic with coefficients c at x. */
  function At(c: Vec, x: real): real { c.x + c.y * x + c.z * (x * x) }

  function Plus(a: Vec, b: Vec): Vec { Vec(a.x + b.x, a.y + b.y, a.z + b.z) }

  /** Sum of squared residuals. */
  function Ssr(xs: seq<real>, ys: seq<real>, c: Vec): real
    requires |xs| == |ys|
    decreases |xs|
  {
    if xs == [] then 0.0
    else var n := |xs| - 1; Ssr(xs[..n], ys[..n], c) + Sq(ys[n] - At(c, xs[n]))
  }

  function Sq(x: real): real { x * x }

  /** Sum of squares of the quadratic itself. */
  function Norm(xs: seq<real>, e: Vec): (r: real)
    ensures r >= 0.0
    decreases |xs|
  {
    if xs == [] then 0.0
    else
      var n := |xs| - 1;
      SqNonNegative(At(e, xs[n]));
      Norm(xs[..n], e) + Sq(At(e, xs[n]))
  }

  lemma SqNonNegative(x: real)
    ensures Sq(x) >= 0.0 && (x == 0.0 || Sq(x) > 0.0)
  {
    if x < 0.0 { Positive(-x, -x, Sq(x)); } else if x > 0.0 { Positive(x, x, Sq(x)); }
  }

  lemma Positive(a: real, b: real, c: real)
    requires a > 0.0 && b > 0.0 && c == a * b
    ensures c > 0.0
  {
  }

  /** Sum of residual times x^k. */
  function ResidualMoment(xs: seq<real>, ys: seq<real>, c: Vec, k: nat): real
    requires |xs| == |ys|
    decreases |xs|
  {
    if xs == [] then 0.0
    else
      var n := |xs| - 1;
      ResidualMoment(xs[..n], ys[..n], c, k) + Term(ys[n], xs[n], c, k)
  }

  /** Residual of one point times x^k. */
  function Term(y: real, x: real, c: Vec, k: nat): real { (y - At(c, x)) * Pow(x, k) }

  // ---- normal equations ----------------------------------------------------------------------

  lemma PointMoment(y: real, x: real, c: Vec, k: nat)
    ensures Term(y, x, c, k)
            == Pow(x, k) * y - (Pow(x, k) * c.x + Pow(x, k + 1) * c.y + Pow(x, k + 2) * c.z)
  {
    var p := Pow(x, k);
    assert Pow(x, k + 1) == x * p && Pow(x, k + 2) == x * (x * p);
    assert At(c, x) * p == c.x * p + (c.y * x) * p + (c.z * (x * x)) * p;
    assert (c.y * x) * p == (x * p) * c.y && (c.z * (x * x)) * p == (x * (x * p)) * c.z;
  }

  lemma {:induction false} ResidualMomentIs(xs: seq<real>, ys: seq<real>, c: Vec, k: nat)
    requires |xs| == |ys|
    ensures ResidualMoment(xs, ys, c, k)
            == Moment(xs, ys, k)
               - (PowerSum(xs, k) * c.x + PowerSum(xs, k + 1) * c.y + PowerSum(xs, k + 2) * c.z)
    decreases |xs|
  {
    if xs != [] {
      var n := |xs| - 1;
      ResidualMomentIs(xs[..n], ys[..n], c, k);
      PointMoment(ys[n], xs[n], c, k);
      Spread(PowerSum(xs[..n], k), Pow(xs[n], k), c.x);
      Spread(PowerSum(xs[..n], k + 1), Pow(xs[n], k + 1), c.y);
      Spread(PowerSum(xs[..n], k + 2), Pow(xs[n], k + 2), c.z);
      hide Pow, At, Term;
    }
  }

  lemma Spread(a: real, b: real, c: real)
    ensures (a + b) * c == a * c + b * c
  {
  }

  predicate Orthogonal(xs: seq<real>, ys: seq<real>, c: Vec)
    requires |xs| == |ys|
  {
    ResidualMoment(xs, ys, c, 0) == 0.0 && ResidualMoment(xs, ys, c, 1) == 0.0 && ResidualMoment(xs, ys, c, 2) == 0.0
  }

  /** The residuals of a solution are orthogonal to 1, x and x^2. */
  lemma NormalMeansOrthogonal(xs: seq<real>, ys: seq<real>, c: Vec)
    requires |xs| == |ys|
    ensures Solves(NormalEquations(xs, ys), c)
            <==> Orthogonal(xs, ys, c)
  {
    hide ResidualMoment, Equation, Residual;
    EquationIs(xs, ys, c, 0);
    EquationIs(xs, ys, c, 1);
    EquationIs(xs, ys, c, 2);
  }

  lemma EquationIs(xs: seq<real>, ys: seq<real>, c: Vec, k: nat)
    requires |xs| == |ys|
    ensures Residual(Equation(xs, ys, k), c) == -ResidualMoment(xs, ys, c, k)
  {
    hide ResidualMoment, PowerSum, Moment;
    ResidualMomentIs(xs, ys, c, k);
  }

  // ---- optimality ----------------------------------------------------------------------------

  lemma PointSquare(y: real, x: real, c: Vec, e: Vec)
    ensures Sq(y - At(Plus(c, e), x))
            == Sq(y - At(c, x))
               - 2.0 * (e.x * Term(y, x, c, 0) + e.y * Term(y, x, c, 1) + e.z * Term(y, x, c, 2))
               + Sq(At(e, x))
  {
    var r, t := y - At(c, x), At(e, x);
    AtPlus(c, e, x);
    SquareOfDifference(r, t);
    TimesAt(r, e, x);
    hide At, Pow;
  }

  lemma AtPlus(c: Vec, e: Vec, x: real)
    ensures At(Plus(c, e), x) == At(c, x) + At(e, x)
  {
    Spread(c.y, e.y, x);
    Spread(c.z, e.z, x * x);
  }

  lemma SquareOfDifference(r: real, t: real)
    ensures Sq(r - t) == Sq(r) - 2.0 * (r * t) + Sq(t)
  {
  }

  lemma TimesAt(r: real, e: Vec, x: real)
    ensures r * At(e, x) == e.x * (r * Pow(x, 0)) + e.y * (r * Pow(x, 1)) + e.z * (r * Pow(x, 2))
  {
    LowPowers(x);
    Times(r, e.x, e.y * x, e.z * (x * x));
    Swap(r, e.y, x);
    Swap(r, e.z, x * x);
  }

  lemma Swap(a: real, b: real, c: real)
    ensures a * (b * c) == b * (a * c)
  {
  }

  lemma Times(r: real, a: real, b: real, c: real)
    ensures r * (a + b + c) == r * a + r * b + r * c
  {
  }

  lemma {:induction false} SsrShift(xs: seq<real>, ys: seq<real>, c: Vec, e: Vec)
    requires |xs| == |ys|
    ensures Ssr(xs, ys, Plus(c, e))
            == Ssr(xs, ys, c) - 2.0 * Cross(xs, ys, c, e) + Norm(xs, e)
    decreases |xs|
  {
    hide Term, At, Cross;
    if xs == [] { CrossOfNone(xs, ys, c, e); } else {
      var n := |xs| - 1;
      SsrShift(xs[..n], ys[..n], c, e);
      PointSquare(ys[n], xs[n], c, e);
      CrossStep(xs, ys, c, e);
    }
  }

  /** Inner product of the residuals with the quadratic e. */
  function Cross(xs: seq<real>, ys: seq<real>, c: Vec, e: Vec): real
    requires |xs| == |ys|
  {
    e.x * ResidualMoment(xs, ys, c, 0) + e.y * ResidualMoment(xs, ys, c, 1) + e.z * ResidualMoment(xs, ys, c, 2)
  }

  lemma CrossOfNone(xs: seq<real>, ys: seq<real>, c: Vec, e: Vec)
    requires |xs| == |ys| == 0
    ensures Cross(xs, ys, c, e) == 0.0
  {
  }

  lemma CrossStep(xs: seq<real>, ys: seq<real>, c: Vec, e: Vec)
    requires |xs| == |ys| && xs != []
    ensures var n := |xs| - 1;
            var y, x := ys[n], xs[n];
            Cross(xs, ys, c, e)
            == Cross(xs[..n], ys[..n], c, e) + (e.x * Term(y, x, c, 0) + e.y * Term(y, x, c, 1) + e.z * Term(y, x, c, 2))
  {
    hide Term;
    var n := |xs| - 1;
    InnerStep(e, ResidualMoment(xs[..n], ys[..n], c, 0), ResidualMoment(xs[..n], ys[..n], c, 1),
              ResidualMoment(xs[..n], ys[..n], c, 2), Term(ys[n], xs[n], c, 0), Term(ys[n], xs[n], c, 1),
              Term(ys[n], xs[n], c, 2));
  }

  lemma InnerStep(e: Vec, a: real, b: real, c: real, p: real, q: real, r: real)
    ensures e.x * (a + p) + e.y * (b + q) + e.z * (c + r)
            == (e.x * a + e.y * b + e.z * c) + (e.x * p + e.y * q + e.z * r)
  {
    Spread(a, p, e.x);
    Spread(b, q, e.y);
    Spread(c, r, e.z);
  }

  function Fit(xs: seq<real>, ys: seq<real>): Option<Vec>
    requires |xs| == |ys|
  {
    if |xs| < 3 then None else Solution(NormalEquations(xs, ys))
  }

  lemma FitIsOrthogonal(xs: seq<real>, ys: seq<real>)
    requires |xs| == |ys| && Fit(xs, ys).Some?
    ensures Orthogonal(xs, ys, Fit(xs, ys).value)
  {
    var c := Fit(xs, ys).value;
    SolutionIsUnique(NormalEquations(xs, ys), c);
    NormalMeansOrthogonal(xs, ys, c);
  }

  /** A quadratic that vanishes at every point is orthogonal to nothing it could disturb. */
  lemma {:induction false} NormZeroVanishes(xs: seq<real>, ys: seq<real>, c: Vec, e: Vec, k: nat)
    requires |xs| == |ys| && Norm(xs, e) == 0.0
    ensures ResidualMoment(xs, ys, Plus(c, e), k) == ResidualMoment(xs, ys, c, k)
    decreases |xs|
  {
    if xs != [] {
      var n := |xs| - 1;
      SqNonNegative(At(e, xs[n]));
      assert Norm(xs, e) == Norm(xs[..n], e) + Sq(At(e, xs[n]));
      assert At(e, xs[n]) == 0.0;
      NormZeroVanishes(xs[..n], ys[..n], c, e, k);
      AtPlus(c, e, xs[n]);
      hide At, Pow;
    }
  }

  function Difference(a: Vec, b: Vec): Vec { Vec(a.x - b.x, a.y - b.y, a.z - b.z) }

  /** No quadratic has a smaller sum of squared residuals, and no other one has as small a sum. */
  lemma FitIsOptimal(xs: seq<real>, ys: seq<real>, d: Vec)
    requires |xs| == |ys| && Fit(xs, ys).Some?
    ensures var c := Fit(xs, ys).value;
            && Ssr(xs, ys, c) <= Ssr(xs, ys, d)
            && (Ssr(xs, ys, c) == Ssr(xs, ys, d) <==> d == c)
  {
    var c := Fit(xs, ys).value;
    var e := Difference(d, c);
    assert Plus(c, e) == d;
    FitIsOrthogonal(xs, ys);
    SsrShift(xs, ys, c, e);
    if Norm(xs, e) == 0.0 {
      SolutionIsUnique(NormalEquations(xs, ys), c);
      SameResiduals(xs, ys, c, e);
      SolutionIsUnique(NormalEquations(xs, ys), d);
    }
    hide Ssr, Norm, ResidualMoment, Fit;
  }

  lemma SameResiduals(xs: seq<real>, ys: seq<real>, c: Vec, e: Vec)
    requires |xs| == |ys| && Norm(xs, e) == 0.0 && Solves(NormalEquations(xs, ys), c)
    ensures Solves(NormalEquations(xs, ys), Plus(c, e))
  {
    NormalMeansOrthogonal(xs, ys, c);
    NormalMeansOrthogonal(xs, ys, Plus(c, e));
    NormZeroVanishes(xs, ys, c, e, 0);
    NormZeroVanishes(xs, ys, c, e, 1);
    NormZeroVanishes(xs, ys, c, e, 2);
  }

  // ---- too few abscissae ---------------------------------------------------------------------

  lemma {:induction false} VanishesOnAll(xs: seq<real>, e: Vec)
    requires forall i :: 0 <= i < |xs| ==> At(e, xs[i]) == 0.0
    ensures Norm(xs, e) == 0.0
    decreases |xs|
  {
    if xs != [] { VanishesOnAll(xs[..|xs| - 1], e); }
  }

  /** Points on at most two abscissae are never fitted, however many there are. */
  lemma TwoAbscissaeGiveNone(xs: seq<real>, ys: seq<real>, p: real, q: real)
    requires |xs| == |ys| && forall i :: 0 <= i < |xs| ==> xs[i] == p || xs[i] == q
    ensures Fit(xs, ys) == None
  {
    if Fit(xs, ys).Some? {
      var c := Fit(xs, ys).value;
      var e := Vec(p * q, -(p + q), 1.0);
      forall i | 0 <= i < |xs| ensures At(e, xs[i]) == 0.0 { Root(p, q, xs[i]); }
      VanishesOnAll(xs, e);
      SolutionIsUnique(NormalEquations(xs, ys), c);
      SameResiduals(xs, ys, c, e);
      assert Plus(c, e).z == c.z + 1.0;
      SolutionIsUnique(NormalEquations(xs, ys), Plus(c, e));
    }
  }

  lemma Root(p: real, q: real, x: real)
    requires x == p || x == q
    ensures At(Vec(p * q, -(p + q), 1.0), x) == 0.0
  {
    assert p * q - (p + q) * x + x * x == (x - p) * (x - q);
  }

  // ---- three abscissae -----------------------------------------------------------------------

  /** The sum of squares as a form in the power sums. */
  function Row3(xs: seq<real>, e: Vec, k: nat): real {
    PowerSum(xs, k) * e.x + PowerSum(xs, k + 1) * e.y + PowerSum(xs, k + 2) * e.z
  }

  lemma RowStep(xs: seq<real>, e: Vec, k: nat)
    requires xs != []
    ensures var n := |xs| - 1; Row3(xs, e, k) == Row3(xs[..n], e, k) + Pow(xs[n], k) * At(e, xs[n])
  {
    var n := |xs| - 1;
    var x := xs[n];
    PointMoment(0.0, x, e, k);
    Spread(PowerSum(xs[..n], k), Pow(x, k), e.x);
    Spread(PowerSum(xs[..n], k + 1), Pow(x, k + 1), e.y);
    Spread(PowerSum(xs[..n], k + 2), Pow(x, k + 2), e.z);
    Opposite(At(e, x), Pow(x, k));
    assert Term(0.0, x, e, k) == -(Pow(x, k) * At(e, x));
    hide Pow, At, Term;
  }

  lemma Opposite(a: real, p: real)
    ensures (0.0 - a) * p == -(p * a)
  {
  }

  lemma {:induction false} NormIsForm(xs: seq<real>, e: Vec)
    ensures Norm(xs, e) == e.x * Row3(xs, e, 0) + e.y * Row3(xs, e, 1) + e.z * Row3(xs, e, 2)
    decreases |xs|
  {
    if xs != [] {
      var n := |xs| - 1;
      var x, t := xs[n], At(e, xs[n]);
      NormIsForm(xs[..n], e);
      RowStep(xs, e, 0);
      RowStep(xs, e, 1);
      RowStep(xs, e, 2);
      SquareIsForm(e, x);
      hide Row3, Pow, At, Sq;
      InnerStep(e, Row3(xs[..n], e, 0), Row3(xs[..n], e, 1), Row3(xs[..n], e, 2),
                Pow(x, 0) * t, Pow(x, 1) * t, Pow(x, 2) * t);
    }
  }

  lemma SquareIsForm(e: Vec, x: real)
    ensures var t := At(e, x); Sq(t) == e.x * (Pow(x, 0) * t) + e.y * (Pow(x, 1) * t) + e.z * (Pow(x, 2) * t)
  {
    var t := At(e, x);
    TimesAt(t, e, x);
    hide At;
    Commute(t, Pow(x, 0));
    Commute(t, Pow(x, 1));
    Commute(t, Pow(x, 2));
  }

  lemma Commute(a: real, b: real)
    ensures a * b == b * a
  {
  }

  lemma {:induction false} NormPositive(xs: seq<real>, e: Vec, i: nat)
    requires i < |xs| && At(e, xs[i]) != 0.0
    ensures Norm(xs, e) > 0.0
    decreases |xs|
  {
    hide At;
    var n := |xs| - 1;
    SqNonNegative(At(e, xs[n]));
    hide Sq;
    if i < n { NormPositive(xs[..n], e, i); }
  }

  /** The equation of the quadratic at two different roots. */
  lemma RootsDiffer(e: Vec, p: real, q: real)
    requires At(e, p) == 0.0 && At(e, q) == 0.0 && p != q
    ensures e.y + e.z * (p + q) == 0.0
  {
    assert At(e, p) - At(e, q) == (p - q) * (e.y + e.z * (p + q));
    NoZeroDivisor(p - q, e.y + e.z * (p + q));
  }

  lemma NoZeroDivisor(a: real, b: real)
    requires a * b == 0.0 && a != 0.0
    ensures b == 0.0
  {
    if b > 0.0 {
      if a > 0.0 { Positive(a, b, a * b); } else { Positive(-a, b, (-a) * b); }
    } else if b < 0.0 {
      if a > 0.0 { Positive(a, -b, a * (-b)); } else { Positive(-a, -b, a * b); }
    }
  }

  /** A quadratic with a leading coefficient does not vanish at three different points. */
  lemma ThreeRoots(e: Vec, p: real, q: real, r: real)
    requires p != q && q != r && p != r && e.z != 0.0
    ensures At(e, p) != 0.0 || At(e, q) != 0.0 || At(e, r) != 0.0
  {
    assert e.z * (p + q) - e.z * (p + r) == e.z * (q - r);
    if At(e, p) == 0.0 && At(e, q) == 0.0 && At(e, r) == 0.0 {
      RootsDiffer(e, p, q);
      RootsDiffer(e, p, r);
      NoZeroDivisor(e.z, q - r);
    }
  }

  lemma {:induction false} CountIsPowerSum(xs: seq<real>)
    ensures PowerSum(xs, 0) == |xs| as real
    decreases |xs|
  {
    if xs != [] { CountIsPowerSum(xs[..|xs| - 1]); }
  }

  /** The vector whose rows give the second leading minor. */
  function Linear(xs: seq<real>): Vec { Vec(-PowerSum(xs, 1), PowerSum(xs, 0), 0.0) }

  function LinearMinor(xs: seq<real>): real {
    PowerSum(xs, 0) * PowerSum(xs, 2) - PowerSum(xs, 1) * PowerSum(xs, 1)
  }

  lemma LinearRows(xs: seq<real>)
    ensures Row3(xs, Linear(xs), 0) == 0.0 && Row3(xs, Linear(xs), 1) == LinearMinor(xs)
  {
    var s0, s1, s2 := PowerSum(xs, 0), PowerSum(xs, 1), PowerSum(xs, 2);
    hide PowerSum;
    assert s0 * -s1 + s1 * s0 == 0.0;
    assert s1 * -s1 + s2 * s0 == s0 * s2 - s1 * s1;
  }

  lemma LinearNorm(xs: seq<real>)
    ensures Norm(xs, Linear(xs)) == PowerSum(xs, 0) * LinearMinor(xs)
  {
    LinearRows(xs);
    NormIsForm(xs, Linear(xs));
    hide Row3, LinearMinor, Norm, PowerSum;
  }

  /** With two different abscissae the second leading minor is positive. */
  lemma MinorPositive(xs: seq<real>, i: nat, j: nat)
    requires i < |xs| && j < |xs| && xs[i] != xs[j]
    ensures LinearMinor(xs) > 0.0
  {
    CountIsPowerSum(xs);
    hide LinearMinor, Norm, PowerSum, At;
    var e := Linear(xs);
    if At(e, xs[i]) == 0.0 && At(e, xs[j]) == 0.0 {
      RootsDiffer(e, xs[i], xs[j]);
    }
    NormPositive(xs, e, if At(e, xs[i]) != 0.0 then i else j);
    LinearNorm(xs);
    SignOfFactor(PowerSum(xs, 0), LinearMinor(xs));
  }

  lemma SignOfFactor(a: real, b: real)
    requires a > 0.0 && a * b > 0.0
    ensures b > 0.0
  {
    if b < 0.0 { Positive(a, -b, a * (-b)); }
  }

  /** The cofactors of the last row: orthogonal to the other rows, and the determinant with it. */
  function Cofactors(xs: seq<real>): Vec {
    var s0, s1, s2, s3 := PowerSum(xs, 0), PowerSum(xs, 1), PowerSum(xs, 2), PowerSum(xs, 3);
    Vec(s1 * s3 - s2 * s2, s1 * s2 - s0 * s3, LinearMinor(xs))
  }

  function Determinant(xs: seq<real>): real { Row3(xs, Cofactors(xs), 2) }

  lemma CofactorRow0(s0: real, s1: real, s2: real, s3: real)
    ensures s0 * (s1 * s3 - s2 * s2) + s1 * (s1 * s2 - s0 * s3) + s2 * (s0 * s2 - s1 * s1) == 0.0
  {
  }

  lemma CofactorRow1(s0: real, s1: real, s2: real, s3: real)
    ensures s1 * (s1 * s3 - s2 * s2) + s2 * (s1 * s2 - s0 * s3) + s3 * (s0 * s2 - s1 * s1) == 0.0
  {
  }

  lemma CofactorRows(xs: seq<real>)
    ensures Row3(xs, Cofactors(xs), 0) == 0.0 && Row3(xs, Cofactors(xs), 1) == 0.0
  {
    var s0, s1, s2, s3 := PowerSum(xs, 0), PowerSum(xs, 1), PowerSum(xs, 2), PowerSum(xs, 3);
    hide PowerSum;
    CofactorRow0(s0, s1, s2, s3);
    CofactorRow1(s0, s1, s2, s3);
  }

  lemma CofactorNorm(xs: seq<real>)
    ensures Norm(xs, Cofactors(xs)) == LinearMinor(xs) * Determinant(xs)
  {
    CofactorRows(xs);
    NormIsForm(xs, Cofactors(xs));
    var e := Cofactors(xs);
    assert e.z == LinearMinor(xs);
    hide Row3, LinearMinor, Norm, PowerSum, Cofactors;
    assert e.x * 0.0 == 0.0 && e.y * 0.0 == 0.0;
  }

  /** With three the determinant is. */
  lemma DeterminantPositive(xs: seq<real>, i: nat, j: nat, k: nat)
    requires i < |xs| && j < |xs| && k < |xs| && xs[i] != xs[j] && xs[j] != xs[k] && xs[i] != xs[k]
    ensures LinearMinor(xs) > 0.0 && Determinant(xs) > 0.0
  {
    MinorPositive(xs, i, j);
    var e := Cofactors(xs);
    assert e.z == LinearMinor(xs);
    hide LinearMinor, Norm, Cofactors, Determinant, At;
    ThreeRoots(e, xs[i], xs[j], xs[k]);
    NormPositive(xs, e, if At(e, xs[i]) != 0.0 then i else if At(e, xs[j]) != 0.0 then j else k);
    CofactorNorm(xs);
    SignOfFactor(LinearMinor(xs), Determinant(xs));
  }

  /** Expansions of the symmetric determinant along its first column and its last row. */
  function RowExpansion(s0: real, s1: real, s2: real, s3: real, s4: real): real {
    s0 * (s2 * s4 - s3 * s3) - s1 * (s1 * s4 - s3 * s2) + s2 * (s1 * s3 - s2 * s2)
  }

  function LastRowExpansion(s0: real, s1: real, s2: real, s3: real, s4: real): real {
    s2 * (s1 * s3 - s2 * s2) + s3 * (s1 * s2 - s0 * s3) + s4 * (s0 * s2 - s1 * s1)
  }

  /** The matrix with equal entries along the anti-diagonals. */
  ghost predicate Hankel(m: Matrix, s0: real, s1: real, s2: real, s3: real, s4: real) {
    && m[0][0] == s0 && m[0][1] == m[1][0] == s1 && m[0][2] == m[1][1] == m[2][0] == s2
    && m[1][2] == m[2][1] == s3 && m[2][2] == s4
  }

  lemma NormalIsHankel(xs: seq<real>, ys: seq<real>)
    requires |xs| == |ys|
    ensures Hankel(NormalEquations(xs, ys),
                   PowerSum(xs, 0), PowerSum(xs, 1), PowerSum(xs, 2), PowerSum(xs, 3), PowerSum(xs, 4))
  {
    hide PowerSum, Moment;
  }

  lemma HankelMinor(m: Matrix, s0: real, s1: real, s2: real, s3: real, s4: real)
    requires Hankel(m, s0, s1, s2, s3, s4)
    ensures Minor(m) == s0 * s2 - s1 * s1
  {
  }

  lemma HankelDet(m: Matrix, s0: real, s1: real, s2: real, s3: real, s4: real)
    requires Hankel(m, s0, s1, s2, s3, s4)
    ensures Det(m) == RowExpansion(s0, s1, s2, s3, s4)
  {
  }

  lemma DeterminantIs(xs: seq<real>)
    ensures var s0, s1, s2, s3, s4 :=
              PowerSum(xs, 0), PowerSum(xs, 1), PowerSum(xs, 2), PowerSum(xs, 3), PowerSum(xs, 4);
            Determinant(xs) == LastRowExpansion(s0, s1, s2, s3, s4)
  {
    hide PowerSum;
  }

  lemma DetExpansion(s0: real, s1: real, s2: real, s3: real, s4: real)
    ensures RowExpansion(s0, s1, s2, s3, s4) == LastRowExpansion(s0, s1, s2, s3, s4)
  {
  }

  /** They are the leading minors of the normal equations. */
  lemma LeadingMinors(xs: seq<real>, ys: seq<real>)
    requires |xs| == |ys|
    ensures var m := NormalEquations(xs, ys); Minor(m) == LinearMinor(xs) && Det(m) == Determinant(xs)
  {
    hide RowExpansion, LastRowExpansion, PowerSum, Determinant, Minor, Det, Hankel, NormalEquations;
    var m := NormalEquations(xs, ys);
    var s0, s1, s2, s3, s4 := PowerSum(xs, 0), PowerSum(xs, 1), PowerSum(xs, 2), PowerSum(xs, 3), PowerSum(xs, 4);
    NormalIsHankel(xs, ys);
    HankelMinor(m, s0, s1, s2, s3, s4);
    HankelDet(m, s0, s1, s2, s3, s4);
    DeterminantIs(xs);
    DetExpansion(s0, s1, s2, s3, s4);
  }

  /** Points on three different abscissae are refused only for scale: the pivots are positive, and the
      answer is None exactly when one of them is below the threshold. */
  lemma ThreeAbscissaeExactly(xs: seq<real>, ys: seq<real>, i: nat, j: nat, k: nat)
    requires |xs| == |ys| && i < |xs| && j < |xs| && k < |xs|
    requires xs[i] != xs[j] && xs[j] != xs[k] && xs[i] != xs[k]
    ensures var m := NormalEquations(xs, ys);
            && Minor(m) > 0.0 && Det(m) > 0.0
            && (Fit(xs, ys) == None <==> Minor(m) / |xs| as real < EPS || Det(m) / Minor(m) < EPS)
  {
    var m := NormalEquations(xs, ys);
    DeterminantPositive(xs, i, j, k);
    LeadingMinors(xs, ys);
    NoSolutionExactly(m);
    CountIsPowerSum(xs);
    AtLeastThree(xs, i, j, k);
    QuotientPositive(Minor(m), |xs| as real);
    QuotientPositive(Det(m), Minor(m));
    hide Solution, Minor, Det;
  }

  lemma AtLeastThree(xs: seq<real>, i: nat, j: nat, k: nat)
    requires i < |xs| && j < |xs| && k < |xs| && xs[i] != xs[j] && xs[j] != xs[k] && xs[i] != xs[k]
    ensures |xs| >= 3
  {
  }

  lemma QuotientPositive(a: real, b: real)
    requires a > 0.0 && b > 0.0
    ensures a / b > 0.0
  {
  }

  // ---- the function as written ---------------------------------------------------------------

  method PowerSums(xs: seq<real>) returns (s: seq<real>)
    ensures |s| == 5 && forall k :: 0 <= k < 5 ==> s[k] == PowerSum(xs, k)
  {
    s := [];
    for k := 0 to 5
      invariant |s| == k && forall j :: 0 <= j < k ==> s[j] == PowerSum(xs, j)
    {
      var sum := 0.0;
      for i := 0 to |xs|
        invariant sum == PowerSum(xs[..i], k)
      {
        assert xs[..i + 1][..i] == xs[..i];
        sum := sum + Pow(xs[i], k);
      }
      assert xs[..|xs|] == xs;
      s := s + [sum];
    }
  }

  /** The right-hand sides. Python's zip stops at the shorter list; the plain sum does not. */
  function Sides(xs: seq<real>, ys: seq<real>): seq<real> {
    var n := if |xs| < |ys| then |xs| else |ys|;
    [PowerSum(ys, 1), Moment(xs[..n], ys[..n], 1), Moment(xs[..n], ys[..n], 2)]
  }

  method RightSides(xs: seq<real>, ys: seq<real>) returns (r: seq<real>)
    ensures r == Sides(xs, ys)
  {
    var a, b, c := 0.0, 0.0, 0.0;
    for i := 0 to |ys|
      invariant a == PowerSum(ys[..i], 1)
    {
      assert ys[..i + 1][..i] == ys[..i];
      LowPowers(ys[i]);
      a := a + ys[i];
    }
    assert ys[..|ys|] == ys;
    var n := if |xs| < |ys| then |xs| else |ys|;
    for i := 0 to n
      invariant b == Moment(xs[..i], ys[..i], 1)
      invariant c == Moment(xs[..i], ys[..i], 2)
    {
      assert xs[..i + 1][..i] == xs[..i] && ys[..i + 1][..i] == ys[..i];
      var x, y := xs[i], ys[i];
      LowPowers(x);
      b, c := b + x * y, c + x * x * y;
    }
    r := [a, b, c];
  }

  /** What the code solves, for lists of any lengths. */
  function Equations(xs: seq<real>, ys: seq<real>): Matrix {
    var r := Sides(xs, ys);
    [[PowerSum(xs, 0), PowerSum(xs, 1), PowerSum(xs, 2), r[0]],
     [PowerSum(xs, 1), PowerSum(xs, 2), PowerSum(xs, 3), r[1]],
     [PowerSum(xs, 2), PowerSum(xs, 3), PowerSum(xs, 4), r[2]]]
  }

  lemma {:induction false} SumIsMoment(xs: seq<real>, ys: seq<real>)
    requires |xs| == |ys|
    ensures PowerSum(ys, 1) == Moment(xs, ys, 0)
    decreases |xs|
  {
    if xs != [] {
      LowPowers(ys[|ys| - 1]);
      SumIsMoment(xs[..|xs| - 1], ys[..|xs| - 1]);
    }
  }

  /** For lists of equal length these are the normal equations. */
  lemma EquationsAreNormal(xs: seq<real>, ys: seq<real>)
    requires |xs| == |ys|
    ensures Equations(xs, ys) == NormalEquations(xs, ys)
  {
    SumIsMoment(xs, ys);
    assert xs[..|xs|] == xs && ys[..|ys|] == ys;
    hide PowerSum, Moment;
  }

  method Quadfit(xs: seq<real>, ys: seq<real>) returns (c: Option<Vec>)
    ensures c == if |xs| < 3 then None else Solution(Equations(xs, ys))
    ensures |xs| == |ys| ==> c == Fit(xs, ys)
  {
    hide Solution, PowerSum, Moment, Sides;
    if |xs| < 3 { return None; }
    var s := PowerSums(xs);
    var rhs := RightSides(xs, ys);
    var a := [[s[0], s[1], s[2]], [s[1], s[2], s[3]], [s[2], s[3], s[4]]];
    ghost var m := Equations(xs, ys);
    SidesAre(xs, ys);
    assert a[0] + [rhs[0]] == m[0];
    assert a[1] + [rhs[1]] == m[1];
    assert a[2] + [rhs[2]] == m[2];
    assert Augmented(a, rhs) == m;
    c := Solve3(a, rhs);
    if |xs| == |ys| { EquationsAreNormal(xs, ys); }
  }

  lemma SidesAre(xs: seq<real>, ys: seq<real>)
    ensures |Sides(xs, ys)| == 3
  {
  }

  lemma LowPowers(x: real)
    ensures Pow(x, 0) == 1.0 && Pow(x, 1) == x && Pow(x, 2) == x * x
  {
  }
}
