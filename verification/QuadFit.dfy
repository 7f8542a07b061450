/** Least-squares quadratic fit of etc/measure_coil.py: Gauss-Jordan elimination without row
    exchange, applied to the normal equations. Exact arithmetic. */
module QuadFit {

  datatype Option<T> = None | Some(value: T)

  const EPS: real := 0.000000000001

  function Abs(x: real): real { if x < 0.0 then -x else x }

  // ---- elimination ---------------------------------------------------------------------------

  /** A row of the augmented matrix. */
  type Row = r: seq<real> | |r| == 4 witness [0.0, 0.0, 0.0, 0.0]

  const ZeroRow: Row := [0.0, 0.0, 0.0, 0.0]

  type Matrix = m: seq<Row> | |m| == 3 witness [ZeroRow, ZeroRow, ZeroRow]

  datatype Vec = Vec(x: real, y: real, z: real)

  function Scaled(r: Row, p: real): Row
    requires p != 0.0
  {
    [r[0] / p, r[1] / p, r[2] / p, r[3] / p]
  }

  function Minus(r: Row, f: real, q: Row): Row {
    [r[0] - f * q[0], r[1] - f * q[1], r[2] - f * q[2], r[3] - f * q[3]]
  }

  function ClearRow(m: Matrix, i: nat, k: nat): Matrix
    requires i < 3 && k < 3
  {
    if k == i then m else m[k := Minus(m[k], m[k][i], m[i])]
  }

  /** Column i cleared in the rows below k. */
  function ClearTo(m: Matrix, i: nat, k: nat): Matrix
    requires i < 3 && k <= 3
  {
    if k == 0 then m else ClearRow(ClearTo(m, i, k - 1), i, k - 1)
  }

  function PivotOn(m: Matrix, i: nat): Matrix
    requires i < 3 && m[i][i] != 0.0
  {
    ClearTo(m[i := Scaled(m[i], m[i][i])], i, 3)
  }

  /** After the first i pivots; None once a pivot is too small. */
  function Eliminate(m: Matrix, i: nat): Option<Matrix>
    requires i <= 3
  {
    if i == 0 then Some(m)
    else match Eliminate(m, i - 1)
      case None => None
      case Some(n) => if Abs(n[i - 1][i - 1]) < EPS then None else Some(PivotOn(n, i - 1))
  }

  function Solution(m: Matrix): Option<Vec> {
    match Eliminate(m, 3)
    case None => None
    case Some(n) => Some(Vec(n[0][3], n[1][3], n[2][3]))
  }

  // ---- what elimination preserves ------------------------------------------------------------

  /** Left minus right side of an equation. */
  function Residual(r: Row, v: Vec): real { r[0] * v.x + r[1] * v.y + r[2] * v.z - r[3] }

  predicate Solves(m: Matrix, v: Vec) {
    Residual(m[0], v) == 0.0 && Residual(m[1], v) == 0.0 && Residual(m[2], v) == 0.0
  }

  lemma ScaledResidual(r: Row, p: real, v: Vec)
    requires p != 0.0
    ensures Residual(Scaled(r, p), v) * p == Residual(r, v)
  {
    var s := Scaled(r, p);
    assert s[0] * p == r[0] && s[1] * p == r[1] && s[2] * p == r[2] && s[3] * p == r[3];
    Distribute(s[0], v.x, p);
    Distribute(s[1], v.y, p);
    Distribute(s[2], v.z, p);
  }

  lemma Distribute(a: real, b: real, p: real)
    ensures a * b * p == (a * p) * b
  {
  }

  lemma MinusResidual(r: Row, f: real, q: Row, v: Vec)
    ensures Residual(Minus(r, f, q), v) == Residual(r, v) - f * Residual(q, v)
  {
    MinusTerm(r[0], f, q[0], v.x);
    MinusTerm(r[1], f, q[1], v.y);
    MinusTerm(r[2], f, q[2], v.z);
    var a, b, c, d := q[0] * v.x, q[1] * v.y, q[2] * v.z, q[3];
    assert f * (a + b + c - d) == f * a + f * b + f * c - f * d;
  }

  lemma MinusTerm(a: real, f: real, b: real, x: real)
    ensures (a - f * b) * x == a * x - f * (b * x)
  {
  }

  lemma ScaleKeepsSolutions(m: Matrix, i: nat, v: Vec)
    requires i < 3 && m[i][i] != 0.0
    ensures Solves(m[i := Scaled(m[i], m[i][i])], v) <==> Solves(m, v)
  {
    var p := m[i][i];
    ScaledResidual(m[i], p, v);
    var s := Residual(Scaled(m[i], p), v);
    assert s == 0.0 <==> s * p == 0.0;
  }

  lemma ClearRowKeepsSolutions(m: Matrix, i: nat, k: nat, v: Vec)
    requires i < 3 && k < 3
    ensures Solves(ClearRow(m, i, k), v) <==> Solves(m, v)
  {
    if k != i {
      var f := m[k][i];
      MinusResidual(m[k], f, m[i], v);
      assert Residual(m[i], v) == 0.0 ==> f * Residual(m[i], v) == 0.0;
      hide Residual, Minus;
    }
  }

  lemma {:induction false} ClearKeepsSolutions(m: Matrix, i: nat, k: nat, v: Vec)
    requires i < 3 && k <= 3
    ensures Solves(ClearTo(m, i, k), v) <==> Solves(m, v)
  {
    if k > 0 {
      ClearKeepsSolutions(m, i, k - 1, v);
      ClearRowKeepsSolutions(ClearTo(m, i, k - 1), i, k - 1, v);
    }
  }

  /** Pivoting neither loses nor invents a solution. */
  lemma {:induction false} EliminateKeepsSolutions(m: Matrix, i: nat, v: Vec)
    requires i <= 3 && Eliminate(m, i).Some?
    ensures Solves(Eliminate(m, i).value, v) <==> Solves(m, v)
  {
    if i > 0 {
      EliminateKeepsSolutions(m, i - 1, v);
      var n := Eliminate(m, i - 1).value;
      ScaleKeepsSolutions(n, i - 1, v);
      ClearKeepsSolutions(n[i - 1 := Scaled(n[i - 1], n[i - 1][i - 1])], i - 1, 3, v);
      hide Solves, ClearTo;
    }
  }

  /** Column j of row k is that of the identity. */
  predicate Unit(r: Row, k: nat, j: nat)
    requires j < 3
  {
    r[j] == if k == j then 1.0 else 0.0
  }

  predicate UnitColumns(m: Matrix, i: nat)
    requires i <= 3
  {
    forall k, j :: 0 <= k < 3 && 0 <= j < i ==> Unit(m[k], k, j)
  }

  lemma {:induction false} ClearMakesUnit(m: Matrix, i: nat, k: nat)
    requires i < 3 && k <= 3 && UnitColumns(m, i) && m[i][i] == 1.0
    ensures var n := ClearTo(m, i, k);
            && n[i] == m[i] && UnitColumns(n, i)
            && forall h :: 0 <= h < k ==> Unit(n[h], h, i)
  {
    if k > 0 {
      ClearMakesUnit(m, i, k - 1);
      var n, h := ClearTo(m, i, k - 1), k - 1;
      if h != i {
        var r := Minus(n[h], n[h][i], n[i]);
        forall j | 0 <= j < i ensures Unit(r, h, j) {
          assert Unit(n[h], h, j) && Unit(n[i], i, j);
        }
      }
    }
  }

  lemma ScaledAt(r: Row, p: real, j: nat)
    requires p != 0.0 && j < 4
    ensures Scaled(r, p)[j] == r[j] / p
  {
    assert j == 0 || j == 1 || j == 2 || j == 3;
  }

  lemma PivotMakesUnit(m: Matrix, i: nat)
    requires i < 3 && UnitColumns(m, i) && m[i][i] != 0.0
    ensures UnitColumns(PivotOn(m, i), i + 1)
  {
    var p := m[i][i];
    var s := m[i := Scaled(m[i], p)];
    forall k, j | 0 <= k < 3 && 0 <= j < i ensures Unit(s[k], k, j) {
      assert Unit(m[k], k, j);
      ScaledAt(m[i], p, j);
    }
    ScaledAt(m[i], p, i);
    assert p / p == 1.0;
    ClearMakesUnit(s, i, 3);
  }

  lemma {:induction false} EliminateMakesUnit(m: Matrix, i: nat)
    requires i <= 3 && Eliminate(m, i).Some?
    ensures UnitColumns(Eliminate(m, i).value, i)
  {
    if i > 0 {
      EliminateMakesUnit(m, i - 1);
      PivotMakesUnit(Eliminate(m, i - 1).value, i - 1);
      hide PivotOn;
    }
  }

  lemma UnitMatrixSolved(m: Matrix, v: Vec)
    requires UnitColumns(m, 3)
    ensures Solves(m, v) <==> v == Vec(m[0][3], m[1][3], m[2][3])
  {
    assert Unit(m[0], 0, 0) && Unit(m[0], 0, 1) && Unit(m[0], 0, 2);
    assert Unit(m[1], 1, 0) && Unit(m[1], 1, 1) && Unit(m[1], 1, 2);
    assert Unit(m[2], 2, 0) && Unit(m[2], 2, 1) && Unit(m[2], 2, 2);
  }

  /** A returned triple is the one and only solution of the system. */
  lemma SolutionIsUnique(m: Matrix, v: Vec)
    requires Solution(m).Some?
    ensures Solves(m, v) <==> v == Solution(m).value
  {
    EliminateKeepsSolutions(m, 3, v);
    EliminateMakesUnit(m, 3);
    UnitMatrixSolved(Eliminate(m, 3).value, v);
  }

  // ---- when there is none --------------------------------------------------------------------

  function Minor(m: Matrix): real { m[0][0] * m[1][1] - m[1][0] * m[0][1] }

  function Det(m: Matrix): real {
    m[0][0] * (m[1][1] * m[2][2] - m[2][1] * m[1][2]) - m[1][0] * (m[0][1] * m[2][2] - m[2][1] * m[0][2])
    + m[2][0] * (m[0][1] * m[1][2] - m[1][1] * m[0][2])
  }

  /** The pivots, as long as they are not zero, are quotients of leading minors. */
  lemma PivotsAreQuotients(m: Matrix)
    requires m[0][0] != 0.0
    ensures var n := PivotOn(m, 0);
            && n[1][1] == Minor(m) / m[0][0]
            && (Minor(m) != 0.0 ==> n[1][1] != 0.0 && PivotOn(n, 1)[2][2] == Det(m) / Minor(m))
  {
    var n := PivotOn(m, 0);
    FirstPivot(m);
    var a, p := m[0][0], n[1][1];
    hide PivotOn, Det, Minor;
    if Minor(m) != 0.0 {
      PivotTimes(p, a, Minor(m));
      SecondPivot(n);
      Sylvester(m);
      QuotientOfMinors(a, p, n[2][2], n[2][1], n[1][2], Minor(m), Det(m));
    }
  }

  lemma PivotTimes(p: real, a: real, minor: real)
    requires a != 0.0 && minor != 0.0 && p == minor / a
    ensures a * p == minor && p != 0.0
  {
  }

  lemma FirstPivot(m: Matrix)
    requires m[0][0] != 0.0
    ensures var n := PivotOn(m, 0);
            forall k, j :: 1 <= k < 3 && 1 <= j < 3 ==> n[k][j] == m[k][j] - m[k][0] * (m[0][j] / m[0][0])
    ensures PivotOn(m, 0)[1][1] == Minor(m) / m[0][0]
  {
    var a := m[0][0];
    var s := m[0 := Scaled(m[0], a)];
    assert ClearTo(s, 0, 1) == s;
    assert ClearTo(s, 0, 2) == s[1 := Minus(s[1], s[1][0], s[0])];
    assert PivotOn(m, 0) == ClearTo(s, 0, 2)[2 := Minus(s[2], s[2][0], s[0])];
    assert a * (m[1][1] - m[1][0] * (m[0][1] / a)) == a * m[1][1] - m[1][0] * (a * (m[0][1] / a));
  }

  lemma SecondPivot(n: Matrix)
    requires n[1][1] != 0.0
    ensures PivotOn(n, 1)[2][2] == n[2][2] - n[2][1] * (n[1][2] / n[1][1])
  {
    var s := n[1 := Scaled(n[1], n[1][1])];
    assert ClearTo(s, 1, 1)[1] == s[1] && ClearTo(s, 1, 1)[2] == s[2];
    assert ClearTo(s, 1, 2) == ClearTo(s, 1, 1);
  }

  /** The remaining 2x2 block, scaled by the first pivot, holds the minors bordering it. */
  lemma Sylvester(m: Matrix)
    requires m[0][0] != 0.0
    ensures var n, a := PivotOn(m, 0), m[0][0];
            (a * n[1][1]) * (a * n[2][2]) - (a * n[2][1]) * (a * n[1][2]) == a * Det(m)
  {
    var n, a := PivotOn(m, 0), m[0][0];
    FirstPivot(m);
    Border(a, m[1][1], m[1][0], m[0][1]);
    Border(a, m[1][2], m[1][0], m[0][2]);
    Border(a, m[2][1], m[2][0], m[0][1]);
    Border(a, m[2][2], m[2][0], m[0][2]);
    hide PivotOn;
    SylvesterIdentity(a, m[0][1], m[0][2], m[1][0], m[1][1], m[1][2], m[2][0], m[2][1], m[2][2]);
  }

  lemma Border(a: real, x: real, l: real, t: real)
    requires a != 0.0
    ensures a * (x - l * (t / a)) == a * x - l * t
  {
    assert a * (t / a) == t;
    assert a * (x - l * (t / a)) == a * x - l * (a * (t / a));
  }

  lemma SylvesterIdentity(a: real, b: real, c: real, d: real, e: real, f: real, g: real, h: real, i: real)
    ensures (a * e - d * b) * (a * i - g * c) - (a * h - g * b) * (a * f - d * c)
            == a * (a * (e * i - h * f) - d * (b * i - h * c) + g * (b * f - e * c))
  {
  }

  lemma QuotientOfMinors(a: real, p: real, q: real, l: real, t: real, minor: real, det: real)
    requires a != 0.0 && minor != 0.0 && a * p == minor
    requires (a * p) * (a * q) - (a * l) * (a * t) == a * det
    ensures p != 0.0 && q - l * (t / p) == det / minor
  {
    var x := q - l * (t / p);
    Border(p, q, l, t);
    assert a * a * (p * q - l * t) == a * det;
    assert a * (a * (p * q - l * t)) == a * det;
    assert a * (p * q - l * t) == det;
    assert a * (p * x) == (a * p) * x;
  }

  /** The solver gives up exactly when a leading minor is small against the one before it: also for
      systems that have one solution. */
  lemma NoSolutionExactly(m: Matrix)
    ensures Solution(m).None? <==>
            || Abs(m[0][0]) < EPS
            || Abs(Minor(m) / m[0][0]) < EPS
            || Abs(Det(m) / Minor(m)) < EPS
  {
    assert Eliminate(m, 0) == Some(m);
    if Abs(m[0][0]) >= EPS {
      var n := PivotOn(m, 0);
      PivotsAreQuotients(m);
      assert Eliminate(m, 1) == Some(n);
      assert n[1][1] == Minor(m) / m[0][0];
      if Abs(n[1][1]) >= EPS {
        assert Eliminate(m, 2) == Some(PivotOn(n, 1));
        assert Minor(m) != 0.0;
      } else { assert Eliminate(m, 2) == None; }
    } else { assert Eliminate(m, 1) == None && Eliminate(m, 2) == None; }
  }

  /** Swapped unknowns: solvable by inspection, refused for want of row exchange. */
  lemma ZeroPivotRefused()
    ensures var m: Matrix := [[0.0, 1.0, 0.0, 1.0], [1.0, 0.0, 0.0, 2.0], [0.0, 0.0, 1.0, 3.0]];
            && Solution(m) == None
            && forall v :: Solves(m, v) <==> v == Vec(2.0, 1.0, 3.0)
  {
    var m: Matrix := [[0.0, 1.0, 0.0, 1.0], [1.0, 0.0, 0.0, 2.0], [0.0, 0.0, 1.0, 3.0]];
    assert Eliminate(m, 1) == None && Eliminate(m, 2) == None;
  }

  method Solve3(a: seq<seq<real>>, b: seq<real>) returns (x: Option<Vec>)
    requires |a| == 3 && |b| == 3 && forall i :: 0 <= i < 3 ==> |a[i]| == 3
    ensures x == Solution(Augmented(a, b))
  {
    var m := new Row[3](_ => ZeroRow);
    for i := 0 to 3
      invariant forall k :: 0 <= k < i ==> m[k] == a[k] + [b[k]]
    {
      m[i] := a[i] + [b[i]];
    }
    assert m[..] == Augmented(a, b);
    for i := 0 to 3
      invariant Eliminate(Augmented(a, b), i) != None && Eliminate(Augmented(a, b), i).value == m[..]
    {
      var p := m[i][i];
      if Abs(p) < EPS {
        GivesUp(Augmented(a, b), i + 1, 3);
        return None;
      }
      ClearColumn(m, i, p);
    }
    return Some(Vec(m[0][3], m[1][3], m[2][3]));
  }

  /** One pass of the outer loop. */
  method ClearColumn(m: array<Row>, i: nat, p: real)
    requires m.Length == 3 && i < 3 && p == m[i][i] && p != 0.0
    modifies m
    ensures m[..] == PivotOn(old(m[..]), i)
  {
    ghost var s: Matrix := old(m[..])[i := Scaled(old(m[i]), p)];
    m[i] := Scaled(m[i], p);
    assert m[..] == s;
    for k := 0 to 3
      invariant m[..] == ClearTo(s, i, k)
    {
      if k != i {
        ghost var n: Matrix := m[..];
        var f := m[k][i];
        m[k] := Minus(m[k], f, m[i]);
        assert m[..] == n[k := Minus(n[k], n[k][i], n[i])];
      }
    }
  }

  lemma {:induction false} GivesUp(m: Matrix, i: nat, k: nat)
    requires i <= k <= 3 && Eliminate(m, i) == None
    ensures Eliminate(m, k) == None
  {
    if i < k { GivesUp(m, i, k - 1); }
  }

  function Augmented(a: seq<seq<real>>, b: seq<real>): Matrix
    requires |a| == 3 && |b| == 3 && forall i :: 0 <= i < 3 ==> |a[i]| == 3
  {
    [a[0] + [b[0]], a[1] + [b[1]], a[2] + [b[2]]]
  }
}
