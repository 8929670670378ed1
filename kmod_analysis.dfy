/** The bookkeeping of the K-modulation analysis (kmod/kmod_analysis.py) around its physics:
    the table of unit perturbations, how the perturbed results are reduced to an error, the
    ordering of the focusing and defocusing magnet, the reordering of the result columns, the
    header averages over cleaned rows and the input of the average-beta fit. The optics
    formulas, the curve fit and the simplex minimisation are parameters; errors are kept squared
    (the final square root is not modelled). */
module KmodAnalysis {
  import opened Wrappers
  import opened PyOps
  import opened Floats

  datatype Plane = X | Y

  const PLANES: seq<Plane> := [X, Y]

  // ----- return_sign_for_err (lines 12-18) -----

  /** Entry (r, c) of the sign table: row 2c+1 perturbs quantity c by +1, row 2c+2 by -1. */
  function SignEntry(r: nat, c: nat): int
  {
    if r == 2 * c + 1 then 1 else if r == 2 * c + 2 then -1 else 0
  }

  function SignTable(n: nat): (t: seq<seq<int>>)
    ensures |t| == 2 * n + 1 && forall r :: 0 <= r < |t| ==> |t[r]| == n
  {
    seq(2 * n + 1, r requires 0 <= r < 2 * n + 1 => seq(n, c requires 0 <= c < n => SignEntry(r, c)))
  }

  /** Row k of `s * np.eye(n)`. */
  function UnitRow(n: nat, k: nat, s: int): (u: seq<int>)
    ensures |u| == n
  {
    seq(n, c requires 0 <= c < n => if c == k then s else 0)
  }

  /** Lines 14-16: a (2n+1) x n table of zeros whose odd rows receive the identity and whose
      even rows from 2 on receive its negation. */
  method ReturnSignForErr(n: nat) returns (sign: array2<int>)
    ensures fresh(sign) && sign.Length0 == 2 * n + 1 && sign.Length1 == n
    ensures forall r, c :: 0 <= r < 2 * n + 1 && 0 <= c < n ==> sign[r, c] == SignTable(n)[r][c]
  {
    sign := new int[2 * n + 1, n]((_, _) => 0);
    for k := 0 to n
      invariant forall r, c :: 0 <= r < 2 * n + 1 && 0 <= c < n ==>
        sign[r, c] == (if c < k then SignEntry(r, c) else 0)
    {
      // the other entries of rows 2k+1 and 2k+2 of eye(n) and -eye(n) are zero already
      sign[2 * k + 1, k] := 1;
      sign[2 * k + 2, k] := -1;
    }
  }

  /** Row 0 perturbs nothing, row 2k+1 is +e_k and row 2k+2 is -e_k. */
  lemma SignTableRows(n: nat)
    ensures SignTable(n)[0] == UnitRow(n, n, 0)
    ensures forall k :: 0 <= k < n ==> SignTable(n)[2 * k + 1] == UnitRow(n, k, 1)
    ensures forall k :: 0 <= k < n ==> SignTable(n)[2 * k + 2] == UnitRow(n, k, -1)
  {
    forall k | 0 <= k < n ensures SignTable(n)[2 * k + 1] == UnitRow(n, k, 1)
                             && SignTable(n)[2 * k + 2] == UnitRow(n, k, -1)
    {
      assert forall c :: 0 <= c < n ==> SignTable(n)[2 * k + 1][c] == UnitRow(n, k, 1)[c];
      assert forall c :: 0 <= c < n ==> SignTable(n)[2 * k + 2][c] == UnitRow(n, k, -1)[c];
    }
  }

  /** The rows of a two-dimensional array. */
  function RowsOf(a: array2<int>): (t: seq<seq<int>>)
    reads a
    ensures |t| == a.Length0 && forall r :: 0 <= r < |t| ==> |t[r]| == a.Length1
  {
    seq(a.Length0, r requires 0 <= r < a.Length0 reads a =>
      seq(a.Length1, c requires 0 <= c < a.Length1 reads a => a[r, c]))
  }

  lemma RowsOfSignTable(a: array2<int>, n: nat)
    requires a.Length0 == 2 * n + 1 && a.Length1 == n
    requires forall r, c :: 0 <= r < 2 * n + 1 && 0 <= c < n ==> a[r, c] == SignTable(n)[r][c]
    ensures RowsOf(a) == SignTable(n)
  {
    forall r | 0 <= r < 2 * n + 1 ensures RowsOf(a)[r] == SignTable(n)[r] {
      assert forall c :: 0 <= c < n ==> RowsOf(a)[r][c] == SignTable(n)[r][c];
    }
  }

  /** The table written out in `calc_beta_inst` (line 46). */
  const INST_SIGN: seq<seq<int>> := [[0, 0], [1, 0], [-1, 0], [0, 1], [0, -1]]

  /** The literal table of `calc_beta_inst` is `return_sign_for_err(2)`. */
  lemma InstSignIsSignTable()
    ensures INST_SIGN == SignTable(2)
  {
    var t := SignTable(2);
    assert t[0] == [0, 0] && t[1] == [1, 0] && t[2] == [-1, 0] && t[3] == [0, 1] && t[4] == [0, -1];
  }

  // ----- the error reduction (lines 31, 61, 216-217) -----

  function Max(a: real, b: real): real
  {
    if a >= b then a else b
  }

  /** `np.sum(np.maximum(np.absolute(v[1::2] - v[0]), abs(v[1::2] - v[0]))**2)`: the squared
      error of the perturbed results `v` (row 0 is the unperturbed one). */
  function SquaredError(v: seq<real>): (r: real)
    requires |v| >= 1
    ensures r >= 0.0
  {
    SumNonNegative(Deviations(v));
    Sum(Deviations(v))
  }

  /** The squared deviation of each +perturbation row from row 0. */
  function Deviations(v: seq<real>): (d: seq<real>)
    requires |v| >= 1
    ensures |d| == |v| / 2
    ensures forall k :: 0 <= k < |d| ==> d[k] == Deviation(v, k)
  {
    seq(|v| / 2, k requires 0 <= k < |v| / 2 => Deviation(v, k))
  }

  function Deviation(v: seq<real>, k: nat): real
    requires 2 * k + 1 < |v|
  {
    Sq(Max(Abs(v[2 * k + 1] - v[0]), Abs(v[2 * k + 1] - v[0])))
  }

  lemma DeviationIsSquare(v: seq<real>, k: nat)
    requires 2 * k + 1 < |v|
    ensures Deviation(v, k) == Sq(v[2 * k + 1] - v[0])
  {
    var d := v[2 * k + 1] - v[0];
    assert Max(Abs(d), Abs(d)) == Abs(d);
    if d < 0.0 {
      assert Abs(d) == -d;
      assert (-d) * (-d) == d * d;
    }
  }

  lemma {:induction false} SumNonNegative(s: seq<real>)
    requires forall i :: 0 <= i < |s| ==> s[i] >= 0.0
    ensures Sum(s) >= 0.0
    ensures Sum(s) == 0.0 <==> forall i :: 0 <= i < |s| ==> s[i] == 0.0
  {
    if s != [] {
      SumNonNegative(s[..|s| - 1]);
    }
  }

  /** The error is the root of a sum of squares over the +perturbation rows (the maximum of a
      value with itself is that value): it is never negative, and it vanishes when every
      +perturbation reproduces the nominal result, whatever the -perturbation rows hold. */
  lemma SquaredErrorVanishes(v: seq<real>)
    requires |v| >= 1
    ensures SquaredError(v) >= 0.0
    ensures (forall k :: 0 <= k < |v| / 2 ==> v[2 * k + 1] == v[0]) ==> SquaredError(v) == 0.0
  {
    var s := Deviations(v);
    SumNonNegative(s);
    if forall k :: 0 <= k < |v| / 2 ==> v[2 * k + 1] == v[0] {
      forall k | 0 <= k < |s| ensures s[k] == 0.0 {
        DeviationIsSquare(v, k);
        assert v[2 * k + 1] - v[0] == 0.0;
      }
    }
  }

  /** `value + sign[:, 0] * error` and the same for the second quantity, pushed through `f`: the
      2n+1 perturbed evaluations of a formula of two measured quantities. */
  function Perturbed(sign: seq<seq<int>>, a: real, aErr: real, b: real, bErr: real,
                     f: (real, real) -> real): (v: seq<real>)
    requires forall r :: 0 <= r < |sign| ==> |sign[r]| >= 2
    ensures |v| == |sign|
  {
    seq(|sign|, r requires 0 <= r < |sign| =>
      f(a + sign[r][0] as real * aErr, b + sign[r][1] as real * bErr))
  }

  /** With the five-row table the result is the unperturbed evaluation and its squared error
      sums the effect of +error on each quantity alone. */
  lemma TwoQuantityError(a: real, aErr: real, b: real, bErr: real, f: (real, real) -> real)
    ensures Perturbed(SignTable(2), a, aErr, b, bErr, f)[0] == f(a, b)
    ensures SquaredError(Perturbed(SignTable(2), a, aErr, b, bErr, f)) ==
      Sq(f(a + aErr, b) - f(a, b)) + Sq(f(a, b + bErr) - f(a, b))
  {
    InstSignIsSignTable();
    TwoQuantityErrorInst(a, aErr, b, bErr, f);
  }

  /** The same on the literal table of `calc_beta_inst`. */
  lemma TwoQuantityErrorInst(a: real, aErr: real, b: real, bErr: real, f: (real, real) -> real)
    ensures Perturbed(INST_SIGN, a, aErr, b, bErr, f)[0] == f(a, b)
    ensures SquaredError(Perturbed(INST_SIGN, a, aErr, b, bErr, f)) ==
      Sq(f(a + aErr, b) - f(a, b)) + Sq(f(a, b + bErr) - f(a, b))
  {
    var v := Perturbed(INST_SIGN, a, aErr, b, bErr, f);
    assert INST_SIGN[0] == [0, 0] && INST_SIGN[1] == [1, 0] && INST_SIGN[3] == [0, 1];
    assert v[0] == f(a + INST_SIGN[0][0] as real * aErr, b + INST_SIGN[0][1] as real * bErr);
    assert v[1] == f(a + INST_SIGN[1][0] as real * aErr, b + INST_SIGN[1][1] as real * bErr);
    assert v[3] == f(a + INST_SIGN[3][0] as real * aErr, b + INST_SIGN[3][1] as real * bErr);
    assert a + INST_SIGN[0][0] as real * aErr == a && b + INST_SIGN[0][1] as real * bErr == b;
    assert a + INST_SIGN[1][0] as real * aErr == a + aErr && b + INST_SIGN[1][1] as real * bErr == b;
    assert a + INST_SIGN[3][0] as real * aErr == a && b + INST_SIGN[3][1] as real * bErr == b + bErr;
    var s := Deviations(v);
    assert |s| == 2;
    DeviationIsSquare(v, 0);
    DeviationIsSquare(v, 1);
    assert s[0] == Sq(f(a + aErr, b) - f(a, b));
    assert s[1] == Sq(f(a, b + bErr) - f(a, b));
    assert s[..1][..0] == [];
    assert Sum(s[..1]) == s[0];
    assert Sum(s) == s[0] + s[1];
    assert SquaredError(v) == Sum(s);
  }

  // ----- calc_betastar (lines 20-40) and calc_beta_inst (lines 42-66) -----

  /** The columns of the one-row result table. */
  datatype ColName = Label | BetaWaist(p: Plane) | BetaWaistErr(p: Plane) | Waist(p: Plane)
                   | WaistErr(p: Plane) | BetaStar(p: Plane) | BetaStarErr(p: Plane)

  datatype Column = Column(name: ColName, value: real)

  predicate HasColumn(df: seq<Column>, name: ColName)
  {
    exists i :: 0 <= i < |df| && df[i].name == name
  }

  /** `float(results_df.loc[:, name].values)`. */
  function Value(df: seq<Column>, name: ColName): real
    requires HasColumn(df, name)
  {
    if df[0].name == name then df[0].value else Value(df[1..], name)
  }

  /** `results_df[name] = value`: an existing column is overwritten in place, a new one is
      appended. */
  function Assign(df: seq<Column>, name: ColName, value: real): (r: seq<Column>)
    ensures HasColumn(df, name) ==> |r| == |df|
    ensures !HasColumn(df, name) ==> r == df + [Column(name, value)]
    ensures HasColumn(r, name) && Value(r, name) == value
    ensures forall other :: other != name && HasColumn(df, other) ==>
      HasColumn(r, other) && Value(r, other) == Value(df, other)
  {
    var r := if HasColumn(df, name) then
      seq(|df|, i requires 0 <= i < |df| => if df[i].name == name then Column(name, value) else df[i])
    else df + [Column(name, value)];
    AssignedValues(df, name, value, r);
    r
  }

  /** The column read back after an overwrite or an append is the assigned value, and every
      other column reads as before. */
  lemma AssignedValues(df: seq<Column>, name: ColName, value: real, r: seq<Column>)
    requires HasColumn(df, name) ==>
      (|r| == |df| &&
       forall i :: 0 <= i < |df| ==> r[i] == (if df[i].name == name then Column(name, value) else df[i]))
    requires !HasColumn(df, name) ==> r == df + [Column(name, value)]
    ensures HasColumn(r, name) && Value(r, name) == value
    ensures forall other :: other != name && HasColumn(df, other) ==>
      HasColumn(r, other) && Value(r, other) == Value(df, other)
  {
    if HasColumn(df, name) {
      var i := ValueFirst(df, name);
      ValueAt(r, name, i);
    } else {
      ValueAt(r, name, |df|);
    }
    forall other | other != name && HasColumn(df, other)
      ensures HasColumn(r, other) && Value(r, other) == Value(df, other)
    {
      AssignedOther(df, name, value, r, other);
    }
  }

  /** A column other than the assigned one keeps its position and its value. */
  lemma AssignedOther(df: seq<Column>, name: ColName, value: real, r: seq<Column>, other: ColName)
    requires HasColumn(df, name) ==>
      (|r| == |df| &&
       forall i :: 0 <= i < |df| ==> r[i] == (if df[i].name == name then Column(name, value) else df[i]))
    requires !HasColumn(df, name) ==> r == df + [Column(name, value)]
    requires other != name && HasColumn(df, other)
    ensures HasColumn(r, other) && Value(r, other) == Value(df, other)
  {
    var i := ValueFirst(df, other);
    assert r[i] == df[i];
    ValueAt(r, other, i);
  }

  predicate PlaneColumns(df: seq<Column>, p: Plane)
  {
    HasColumn(df, BetaWaist(p)) && HasColumn(df, BetaWaistErr(p)) &&
    HasColumn(df, Waist(p)) && HasColumn(df, WaistErr(p))
  }

  /** The columns `analyse` has put in the result table before `calc_betastar`. */
  predicate HasWaistColumns(df: seq<Column>)
  {
    PlaneColumns(df, X) && PlaneColumns(df, Y)
  }

  lemma WaistColumnsOf(df: seq<Column>, p: Plane)
    requires HasWaistColumns(df)
    ensures PlaneColumns(df, p)
  {
  }

  /** The betastar of a plane with its perturbations (lines 26-29). */
  function BetastarPerturbed(df: seq<Column>, p: Plane, f: (real, real) -> real): seq<real>
    requires PlaneColumns(df, p)
  {
    Perturbed(SignTable(2), Value(df, BetaWaist(p)), Value(df, BetaWaistErr(p)),
              Value(df, Waist(p)), Value(df, WaistErr(p)), f)
  }

  /** `cols = [cols[0]] + cols[-4:] + cols[1:-4]`. */
  function Reorder<T>(cols: seq<T>): (r: seq<T>)
    requires |cols| >= 1
    ensures |r| == if |cols| <= 4 then |cols| + 1 else |cols|
    ensures r[0] == cols[0]
  {
    [cols[0]] + PySlice(cols, -4, |cols|) + PySlice(cols, 1, -4)
  }

  /** With at least five columns the reordering is a permutation: the first column stays, the
      last four follow it and the others come after them in their order. */
  lemma ReorderPermutes<T>(cols: seq<T>)
    requires |cols| >= 5
    ensures Reorder(cols) == [cols[0]] + cols[|cols| - 4..] + cols[1..|cols| - 4]
    ensures multiset(Reorder(cols)) == multiset(cols)
  {
    var n := |cols|;
    assert cols == [cols[0]] + cols[1..n - 4] + cols[n - 4..];
  }

  /** With fewer than five columns it is not: every column is listed and the first one twice. */
  lemma ReorderShortDuplicates<T>(cols: seq<T>)
    requires 1 <= |cols| <= 4
    ensures Reorder(cols) == [cols[0]] + cols
  {
  }

  /** One pass of the loop of lines 24-34; it leaves the waist columns of both planes as they
      were, so the second pass reads the same inputs whatever the first one wrote. */
  function AddBetastar(df: seq<Column>, p: Plane, f: (real, real) -> real): (r: seq<Column>)
    requires HasWaistColumns(df)
    ensures HasWaistColumns(r)
    ensures BetastarPerturbed(r, X, f) == BetastarPerturbed(df, X, f)
    ensures BetastarPerturbed(r, Y, f) == BetastarPerturbed(df, Y, f)
  {
    WaistColumnsOf(df, p);
    var v := BetastarPerturbed(df, p, f);
    var d1 := Assign(df, BetaStar(p), v[0]);
    var d2 := Assign(d1, BetaStarErr(p), SquaredError(v));
    KeepsPlane(df, d1, d2, p, v, X);
    KeepsPlane(df, d1, d2, p, v, Y);
    d2
  }

  /** The value of a column is that of its first occurrence. */
  lemma {:induction false} ValueFirst(df: seq<Column>, name: ColName) returns (i: nat)
    requires HasColumn(df, name)
    ensures i < |df| && df[i].name == name && Value(df, name) == df[i].value
    ensures forall j :: 0 <= j < i ==> df[j].name != name
  {
    if df[0].name == name {
      i := 0;
    } else {
      assert HasColumn(df[1..], name) by {
        var k :| 0 <= k < |df| && df[k].name == name;
        assert df[1..][k - 1] == df[k];
      }
      var t := ValueFirst(df[1..], name);
      assert df[t + 1] == df[1..][t];
      i := t + 1;
    }
  }

  lemma {:induction false} ValueAt(df: seq<Column>, name: ColName, i: nat)
    requires i < |df| && df[i].name == name && forall j :: 0 <= j < i ==> df[j].name != name
    ensures HasColumn(df, name) && Value(df, name) == df[i].value
  {
    if i > 0 {
      ValueAt(df[1..], name, i - 1);
    }
  }

  lemma KeepsPlane(df: seq<Column>, d1: seq<Column>, d2: seq<Column>, p: Plane, v: seq<real>, q: Plane)
    requires PlaneColumns(df, q) && |v| >= 1
    requires d1 == Assign(df, BetaStar(p), v[0]) && d2 == Assign(d1, BetaStarErr(p), SquaredError(v))
    ensures PlaneColumns(d2, q)
    ensures Value(d2, BetaWaist(q)) == Value(df, BetaWaist(q)) && Value(d2, BetaWaistErr(q)) == Value(df, BetaWaistErr(q))
    ensures Value(d2, Waist(q)) == Value(df, Waist(q)) && Value(d2, WaistErr(q)) == Value(df, WaistErr(q))
  {
    KeepsColumn(df, d1, d2, p, v, BetaWaist(q));
    KeepsColumn(df, d1, d2, p, v, BetaWaistErr(q));
    KeepsColumn(df, d1, d2, p, v, Waist(q));
    KeepsColumn(df, d1, d2, p, v, WaistErr(q));
  }

  lemma KeepsColumn(df: seq<Column>, d1: seq<Column>, d2: seq<Column>, p: Plane, v: seq<real>, c: ColName)
    requires HasColumn(df, c) && c != BetaStar(p) && c != BetaStarErr(p) && |v| >= 1
    requires d1 == Assign(df, BetaStar(p), v[0]) && d2 == Assign(d1, BetaStarErr(p), SquaredError(v))
    ensures HasColumn(d2, c) && Value(d2, c) == Value(df, c)
  {
  }

  /** Lines 22-40: for each plane, betastar is the unperturbed value of the propagation formula
      `f` (`b + w²/b` in the source) and its error combines the +perturbation rows; the new
      columns are then moved to follow the first one. */
  /** The table after the loop has handled the first `i` planes. */
  function AfterPlanes(results: seq<Column>, i: nat, f: (real, real) -> real): (df: seq<Column>)
    requires HasWaistColumns(results) && i <= |PLANES|
    ensures HasWaistColumns(df)
  {
    if i == 0 then results else AddBetastar(AfterPlanes(results, i - 1, f), PLANES[i - 1], f)
  }

  method CalcBetastar(results: seq<Column>, f: (real, real) -> real) returns (out: seq<Column>)
    requires HasWaistColumns(results)
    ensures out == Reorder(AfterPlanes(results, |PLANES|, f))
  {
    var sign := ReturnSignForErr(2);
    var table := RowsOf(sign);
    RowsOfSignTable(sign, 2);
    var df := results;
    for i := 0 to |PLANES|
      invariant df == AfterPlanes(results, i, f)
    {
      var p := PLANES[i];
      WaistColumnsOf(df, p);
      var betastar := Perturbed(table, Value(df, BetaWaist(p)), Value(df, BetaWaistErr(p)),
                                Value(df, Waist(p)), Value(df, WaistErr(p)), f);
      var betastarErr := SquaredError(betastar);
      AfterPlanesStep(results, i, f, table);
      df := Assign(df, BetaStar(p), betastar[0]);
      df := Assign(df, BetaStarErr(p), betastarErr);
    }
    NonEmptyTable(df);
    out := Reorder(df);
  }

  lemma NonEmptyTable(df: seq<Column>)
    requires HasWaistColumns(df)
    ensures |df| >= 1
  {
    var i :| 0 <= i < |df| && df[i].name == BetaWaist(X);
  }

  /** One pass of the loop, written with the sign table the method builds. */
  lemma AfterPlanesStep(results: seq<Column>, i: nat, f: (real, real) -> real, table: seq<seq<int>>)
    requires HasWaistColumns(results) && i < |PLANES| && table == SignTable(2)
    ensures var df := AfterPlanes(results, i, f);
            var p := PLANES[i];
      PlaneColumns(df, p) &&
      var v := Perturbed(table, Value(df, BetaWaist(p)), Value(df, BetaWaistErr(p)),
                         Value(df, Waist(p)), Value(df, WaistErr(p)), f);
      AfterPlanes(results, i + 1, f) == Assign(Assign(df, BetaStar(p), v[0]), BetaStarErr(p), SquaredError(v))
  {
    WaistColumnsOf(AfterPlanes(results, i, f), PLANES[i]);
  }

  /** A table without a column gets it appended. */
  lemma {:induction false} HasColumnAppend(df: seq<Column>, extra: seq<Column>, name: ColName)
    ensures HasColumn(df + extra, name) <==> HasColumn(df, name) || HasColumn(extra, name)
  {
    if HasColumn(df + extra, name) {
      var i :| 0 <= i < |df + extra| && (df + extra)[i].name == name;
      if i >= |df| {
        assert extra[i - |df|] == (df + extra)[i];
      }
    }
    if HasColumn(extra, name) {
      var i :| 0 <= i < |extra| && extra[i].name == name;
      assert (df + extra)[|df| + i] == extra[i];
    }
    if HasColumn(df, name) {
      var i :| 0 <= i < |df| && df[i].name == name;
      assert (df + extra)[i] == df[i];
    }
  }

  /** On a table without the betastar columns of the plane, they are appended in the order
      betastar, then its error. */
  lemma AddBetastarAppends(df: seq<Column>, p: Plane, f: (real, real) -> real)
    requires HasWaistColumns(df)
    requires !HasColumn(df, BetaStar(p)) && !HasColumn(df, BetaStarErr(p))
    ensures var v := BetastarPerturbed(df, p, f);
      AddBetastar(df, p, f) == df + [Column(BetaStar(p), v[0]), Column(BetaStarErr(p), SquaredError(v))]
  {
    var v := BetastarPerturbed(df, p, f);
    var d1 := Assign(df, BetaStar(p), v[0]);
    assert d1 == df + [Column(BetaStar(p), v[0])];
    HasColumnAppend(df, [Column(BetaStar(p), v[0])], BetaStarErr(p));
    assert Assign(d1, BetaStarErr(p), SquaredError(v)) == d1 + [Column(BetaStarErr(p), SquaredError(v))];
  }

  /** On a table without betastar columns, the loop appends betastar and its error for X, then
      for Y. */
  lemma BetastarAppended(results: seq<Column>, f: (real, real) -> real)
    requires HasWaistColumns(results)
    requires !HasColumn(results, BetaStar(X)) && !HasColumn(results, BetaStarErr(X))
    requires !HasColumn(results, BetaStar(Y)) && !HasColumn(results, BetaStarErr(Y))
    ensures var bX := BetastarPerturbed(results, X, f);
            var bY := BetastarPerturbed(results, Y, f);
      AfterPlanes(results, |PLANES|, f) ==
        results + [Column(BetaStar(X), bX[0]), Column(BetaStarErr(X), SquaredError(bX)),
                   Column(BetaStar(Y), bY[0]), Column(BetaStarErr(Y), SquaredError(bY))]
  {
    var bX := BetastarPerturbed(results, X, f);
    var bY := BetastarPerturbed(results, Y, f);
    BetastarAppendedY(results, f);
    AfterBothPlanes(results, f);
    AppendPairs(results, Column(BetaStar(X), bX[0]), Column(BetaStarErr(X), SquaredError(bX)),
                Column(BetaStar(Y), bY[0]), Column(BetaStarErr(Y), SquaredError(bY)));
  }

  lemma AppendPairs<T>(s: seq<T>, a: T, b: T, c: T, d: T)
    ensures s + [a, b] + [c, d] == s + [a, b, c, d]
  {
  }

  /** The Y step appends its columns after the X ones. */
  lemma BetastarAppendedY(results: seq<Column>, f: (real, real) -> real)
    requires HasWaistColumns(results)
    requires !HasColumn(results, BetaStar(X)) && !HasColumn(results, BetaStarErr(X))
    requires !HasColumn(results, BetaStar(Y)) && !HasColumn(results, BetaStarErr(Y))
    ensures var bX := BetastarPerturbed(results, X, f);
            var bY := BetastarPerturbed(results, Y, f);
      AddBetastar(AddBetastar(results, X, f), Y, f) ==
        results + [Column(BetaStar(X), bX[0]), Column(BetaStarErr(X), SquaredError(bX))]
                + [Column(BetaStar(Y), bY[0]), Column(BetaStarErr(Y), SquaredError(bY))]
  {
    var bX := BetastarPerturbed(results, X, f);
    var added := [Column(BetaStar(X), bX[0]), Column(BetaStarErr(X), SquaredError(bX))];
    AddBetastarAppends(results, X, f);
    var d2 := AddBetastar(results, X, f);
    HasColumnAppend(results, added, BetaStar(Y));
    HasColumnAppend(results, added, BetaStarErr(Y));
    AddBetastarAppends(d2, Y, f);
  }

  lemma AfterBothPlanes(results: seq<Column>, f: (real, real) -> real)
    requires HasWaistColumns(results)
    ensures AfterPlanes(results, |PLANES|, f) == AddBetastar(AddBetastar(results, X, f), Y, f)
  {
    assert AfterPlanes(results, 1, f) == AddBetastar(results, X, f);
  }

  /** On the table `analyse` builds (the label first, no betastar column yet), the result is
      the label, the betastar columns of X then Y, then the waist columns in their order. */
  lemma BetastarColumns(results: seq<Column>, f: (real, real) -> real)
    requires HasWaistColumns(results)
    requires !HasColumn(results, BetaStar(X)) && !HasColumn(results, BetaStarErr(X))
    requires !HasColumn(results, BetaStar(Y)) && !HasColumn(results, BetaStarErr(Y))
    ensures var bX := BetastarPerturbed(results, X, f);
            var bY := BetastarPerturbed(results, Y, f);
      Reorder(AfterPlanes(results, |PLANES|, f)) ==
        [results[0]] + [Column(BetaStar(X), bX[0]), Column(BetaStarErr(X), SquaredError(bX)),
                        Column(BetaStar(Y), bY[0]), Column(BetaStarErr(Y), SquaredError(bY))]
        + results[1..]
  {
    var bX := BetastarPerturbed(results, X, f);
    var bY := BetastarPerturbed(results, Y, f);
    var four := [Column(BetaStar(X), bX[0]), Column(BetaStarErr(X), SquaredError(bX)),
                 Column(BetaStar(Y), bY[0]), Column(BetaStarErr(Y), SquaredError(bY))];
    BetastarAppended(results, f);
    var d4 := AfterPlanes(results, |PLANES|, f);
    assert d4 == results + four;
    NonEmptyTable(results);
    ReorderPermutes(d4);
    assert d4[1..|d4| - 4] == results[1..];
    assert d4[|d4| - 4..] == four;
    assert d4[0] == results[0];
  }

  /** Each plane's betastar is the propagation formula `f` (`b + w²/b` in the source) at the
      measured beta at the waist and waist position, and its squared error sums the effect of
      adding the error of each of the two alone. */
  lemma BetastarValues(results: seq<Column>, p: Plane, f: (real, real) -> real)
    requires PlaneColumns(results, p)
    ensures var bw := Value(results, BetaWaist(p));
            var w := Value(results, Waist(p));
            var v := BetastarPerturbed(results, p, f);
      v[0] == f(bw, w) &&
      SquaredError(v) == Sq(f(bw + Value(results, BetaWaistErr(p)), w) - f(bw, w)) +
                         Sq(f(bw, w + Value(results, WaistErr(p))) - f(bw, w))
  {
    TwoQuantityError(Value(results, BetaWaist(p)), Value(results, BetaWaistErr(p)),
                     Value(results, Waist(p)), Value(results, WaistErr(p)), f);
  }

  /** `calc_beta_inst` for one plane: the beta at an instrument `position` from the waist; the
      waist position is mirrored for the vertical plane (lines 50-61). */
  function InstrumentBeta(df: seq<Column>, p: Plane, position: real, f: (real, real) -> real): (v: seq<real>)
    requires PlaneColumns(df, p)
    ensures |v| == |INST_SIGN|
    ensures v[0] == f(Value(df, BetaWaist(p)), WaistDistance(df, p, position))
  {
    Perturbed(INST_SIGN, Value(df, BetaWaist(p)), Value(df, BetaWaistErr(p)),
              WaistDistance(df, p, position), Value(df, WaistErr(p)), f)
  }

  /** The distance of the instrument from the waist; the vertical waist position is taken
      with opposite sign. */
  function WaistDistance(df: seq<Column>, p: Plane, position: real): real
    requires PlaneColumns(df, p)
  {
    (if p == Y then -Value(df, Waist(p)) else Value(df, Waist(p))) - position
  }

  /** Lines 42-66: the instrument's name with beta and squared error for X, then for Y. */
  function CalcBetaInst(name: string, position: real, df: seq<Column>, f: (real, real) -> real)
    : (r: (string, real, real, real, real))
    requires HasWaistColumns(df)
    ensures r.0 == name
    ensures r.1 == f(Value(df, BetaWaist(X)), WaistDistance(df, X, position))
    ensures r.3 == f(Value(df, BetaWaist(Y)), WaistDistance(df, Y, position))
    ensures r.2 >= 0.0 && r.4 >= 0.0
  {
    var bX := InstrumentBeta(df, X, position, f);
    var bY := InstrumentBeta(df, Y, position, f);
    (name, bX[0], SquaredError(bX), bY[0], SquaredError(bY))
  }

  /** The instrument beta is the propagation formula at the distance of the instrument from
      the waist (the vertical waist position taken with opposite sign), and its squared error
      sums the same two one-sided perturbations as betastar. */
  lemma InstrumentBetaTerms(df: seq<Column>, p: Plane, position: real, f: (real, real) -> real)
    requires PlaneColumns(df, p)
    ensures var bw := Value(df, BetaWaist(p));
            var d := (if p == Y then -Value(df, Waist(p)) else Value(df, Waist(p))) - position;
            var v := InstrumentBeta(df, p, position, f);
      v[0] == f(bw, d) &&
      SquaredError(v) == Sq(f(bw + Value(df, BetaWaistErr(p)), d) - f(bw, d)) +
                         Sq(f(bw, d + Value(df, WaistErr(p))) - f(bw, d))
  {
    TwoQuantityErrorInst(Value(df, BetaWaist(p)), Value(df, BetaWaistErr(p)), WaistDistance(df, p, position),
                         Value(df, WaistErr(p)), f);
  }

  // ----- return_df (lines 176-188) -----

  /** The polarity the first (focusing) magnet must have in a plane. */
  function FocusingPolarity(p: Plane): int
  {
    if p == X then 1 else -1
  }

  /** `return_df`: the two magnets as (focusing, defocusing) for the plane; None when the
      polarities are not one +1 and one -1 (the function falls off its end). */
  function ReturnDf<T>(m1: T, pol1: int, m2: T, pol2: int, p: Plane): (r: Option<(T, T)>)
    ensures r.Some? <==> (pol1 == 1 && pol2 == -1) || (pol1 == -1 && pol2 == 1)
  {
    if p == X then
      (if pol1 == 1 && pol2 == -1 then Some((m1, m2))
       else if pol1 == -1 && pol2 == 1 then Some((m2, m1)) else None)
    else
      (if pol1 == -1 && pol2 == 1 then Some((m1, m2))
       else if pol1 == 1 && pol2 == -1 then Some((m2, m1)) else None)
  }

  /** A result exists exactly when the polarities are +1 and -1 in some order; it is the two
      magnets in some order, the one with the plane's focusing polarity first. */
  lemma ReturnDfOrders<T>(m1: T, pol1: int, m2: T, pol2: int, p: Plane)
    ensures ReturnDf(m1, pol1, m2, pol2, p).Some? <==>
      (pol1 == 1 && pol2 == -1) || (pol1 == -1 && pol2 == 1)
    ensures ReturnDf(m1, pol1, m2, pol2, p).Some? ==>
      var r := ReturnDf(m1, pol1, m2, pol2, p).value;
      multiset{r.0, r.1} == multiset{m1, m2} &&
      (pol1 == FocusingPolarity(p) ==> r == (m1, m2)) &&
      (pol2 == FocusingPolarity(p) ==> r == (m2, m1))
  {
  }

  // ----- get_beta_waist (lines 203-219) -----

  /** The results of the 17 simplex fits: `fit` (the minimisation of chi2 with the given sign
      row, not modelled) applied to every row of `return_sign_for_err(8)`. */
  function WaistFits<T>(foc: T, def: T, fit: (T, T, seq<int>) -> (real, real)): (r: seq<(real, real)>)
    ensures |r| == 17
  {
    seq(17, i requires 0 <= i < 17 => fit(foc, def, SignTable(8)[i]))
  }

  const UNPACK_NONE := "TypeError: cannot unpack non-iterable NoneType object"

  /** Lines 205-219: the nominal beta at the waist and waist position are those of the unperturbed
      fit, each with its squared error over the +perturbation fits; when the magnets' polarities
      do not order them, unpacking the missing pair raises TypeError. */
  method GetBetaWaist<T>(m1: T, pol1: int, m2: T, pol2: int, p: Plane,
                         fit: (T, T, seq<int>) -> (real, real))
    returns (r: Result<(real, real, real, real), string>)
    ensures r.Err? <==> ReturnDf(m1, pol1, m2, pol2, p).None?
    ensures r.Ok? ==>
      var pair := ReturnDf(m1, pol1, m2, pol2, p).value;
      var fits := WaistFits(pair.0, pair.1, fit);
      r.value == (fits[0].0, SquaredError(seq(17, i requires 0 <= i < 17 => fits[i].0)),
                  fits[0].1, SquaredError(seq(17, i requires 0 <= i < 17 => fits[i].1)))
  {
    var sign := ReturnSignForErr(8);
    var table := RowsOf(sign);
    RowsOfSignTable(sign, 8);
    var pair := ReturnDf(m1, pol1, m2, pol2, p);
    if pair.None? {
      return Err(UNPACK_NONE);
    }
    var foc := pair.value.0;
    var def := pair.value.1;
    var results := new real[17, 2]((_, _) => 0.0);
    ghost var fits := WaistFits(foc, def, fit);
    for i := 0 to 17
      invariant forall k :: 0 <= k < i ==> (results[k, 0], results[k, 1]) == fits[k]
    {
      var s := table[i];
      var x := fit(foc, def, s);
      results[i, 0] := x.0;
      results[i, 1] := x.1;
    }
    var col0 := seq(17, i requires 0 <= i < 17 reads results => results[i, 0]);
    var col1 := seq(17, i requires 0 <= i < 17 reads results => results[i, 1]);
    FitColumns(results, fits);
    r := Ok((results[0, 0], SquaredError(col0), results[0, 1], SquaredError(col1)));
  }

  /** The two columns of the filled result array are the two components of the fits. */
  lemma FitColumns(results: array2<real>, fits: seq<(real, real)>)
    requires results.Length0 == 17 && results.Length1 == 2 && |fits| == 17
    requires forall k :: 0 <= k < 17 ==> (results[k, 0], results[k, 1]) == fits[k]
    ensures seq(17, i requires 0 <= i < 17 reads results => results[i, 0]) ==
            seq(17, i requires 0 <= i < 17 => fits[i].0)
    ensures seq(17, i requires 0 <= i < 17 reads results => results[i, 1]) ==
            seq(17, i requires 0 <= i < 17 => fits[i].1)
  {
  }

  /** The 17 fits are the nominal one (no perturbation) and, for each of the 8 error sources,
      one with +1 and one with -1 unit of that error; only the +1 fits enter the errors. */
  lemma WaistFitsAreUnitPerturbations<T>(foc: T, def: T, fit: (T, T, seq<int>) -> (real, real))
    ensures WaistFits(foc, def, fit)[0] == fit(foc, def, UnitRow(8, 8, 0))
    ensures forall k :: 0 <= k < 8 ==> WaistFits(foc, def, fit)[2 * k + 1] == fit(foc, def, UnitRow(8, k, 1))
    ensures forall k :: 0 <= k < 8 ==> WaistFits(foc, def, fit)[2 * k + 2] == fit(foc, def, UnitRow(8, k, -1))
    ensures var col := seq(17, i requires 0 <= i < 17 => WaistFits(foc, def, fit)[i].0);
      (forall k :: 0 <= k < 8 ==> fit(foc, def, UnitRow(8, k, 1)).0 == fit(foc, def, UnitRow(8, 8, 0)).0)
      ==> SquaredError(col) == 0.0
  {
    SignTableRows(8);
    var col := seq(17, i requires 0 <= i < 17 => WaistFits(foc, def, fit)[i].0);
    assert col[0] == fit(foc, def, UnitRow(8, 8, 0)).0;
    assert forall k :: 0 <= k < 8 ==> col[2 * k + 1] == fit(foc, def, UnitRow(8, k, 1)).0;
    if forall k :: 0 <= k < 8 ==> fit(foc, def, UnitRow(8, k, 1)).0 == fit(foc, def, UnitRow(8, 8, 0)).0 {
      assert |col| / 2 == 8;
      forall k | 0 <= k < |col| / 2 ensures col[2 * k + 1] == col[0] {
        assert col[2 * k + 1] == fit(foc, def, UnitRow(8, k, 1)).0;
      }
      SquaredErrorVanishes(col);
    }
  }

  // ----- the magnet frames: calc_tune, calc_k and return_fit_input (lines 125-146) -----

  /** One measurement row of a modulated magnet. */
  datatype KmodRow = KmodRow(k: Float, tuneX: Float, tuneY: Float, cleanedX: bool, cleanedY: bool)

  datatype Col = KCol | TuneCol(p: Plane)

  function Cell(row: KmodRow, c: Col): Float
  {
    match c
    case KCol => row.k
    case TuneCol(p) => if p == X then row.tuneX else row.tuneY
  }

  function IsCleaned(row: KmodRow, p: Plane): bool
  {
    if p == X then row.cleanedX else row.cleanedY
  }

  /** A row that `where` keeps (cleaned in plane `p`) and `dropna` does not drop. */
  predicate Kept(row: KmodRow, p: Plane, c: Col)
  {
    IsCleaned(row, p) && Cell(row, c).Fin?
  }

  /** `df.where(df[cleaned(p)] == True)[c].dropna()`: the values of column `c` in the rows
      cleaned in plane `p`, NaN values left out. */
  function CleanedValues(rows: seq<KmodRow>, p: Plane, c: Col): (r: seq<real>)
    ensures |r| <= |rows|
  {
    if rows == [] then []
    else (if Kept(rows[0], p, c) then [Cell(rows[0], c).v] else []) + CleanedValues(rows[1..], p, c)
  }

  /** The cleaned values are exactly the finite cells of the rows cleaned in plane `p`. */
  lemma {:induction false} CleanedValuesMembers(rows: seq<KmodRow>, p: Plane, c: Col)
    ensures forall x :: x in CleanedValues(rows, p, c) <==>
      exists i :: 0 <= i < |rows| && Kept(rows[i], p, c) && Cell(rows[i], c).v == x
  {
    if rows != [] {
      var tail := rows[1..];
      CleanedValuesMembers(tail, p, c);
      forall x | exists i :: 0 <= i < |rows| && Kept(rows[i], p, c) && Cell(rows[i], c).v == x
        ensures x in CleanedValues(rows, p, c)
      {
        var i :| 0 <= i < |rows| && Kept(rows[i], p, c) && Cell(rows[i], c).v == x;
        if i > 0 {
          assert tail[i - 1] == rows[i];
        }
      }
      forall x | x in CleanedValues(rows, p, c)
        ensures exists i :: 0 <= i < |rows| && Kept(rows[i], p, c) && Cell(rows[i], c).v == x
      {
        if x in CleanedValues(tail, p, c) {
          var i :| 0 <= i < |tail| && Kept(tail[i], p, c) && Cell(tail[i], c).v == x;
          assert rows[i + 1] == tail[i];
        } else {
          assert Kept(rows[0], p, c) && Cell(rows[0], c).v == x;
        }
      }
    }
  }

  /** The values keep the row order: cleaning a concatenation of rows concatenates the cleaned
      values. */
  lemma {:induction false} CleanedValuesAppend(a: seq<KmodRow>, b: seq<KmodRow>, p: Plane, c: Col)
    ensures CleanedValues(a + b, p, c) == CleanedValues(a, p, c) + CleanedValues(b, p, c)
  {
    if a == [] {
      assert a + b == b;
    } else {
      var head := if Kept(a[0], p, c) then [Cell(a[0], c).v] else [];
      assert (a + b)[1..] == a[1..] + b;
      assert (a + b)[0] == a[0];
      CleanedValuesAppend(a[1..], b, p, c);
      assert CleanedValues(a + b, p, c) == head + CleanedValues(a[1..] + b, p, c);
      assert CleanedValues(a, p, c) == head + CleanedValues(a[1..], p, c);
    }
  }

  /** One row gives its value exactly when it is kept. */
  lemma CleanedValuesSingle(row: KmodRow, p: Plane, c: Col)
    ensures CleanedValues([row], p, c) == if Kept(row, p, c) then [Cell(row, c).v] else []
  {
    assert [row][1..] == [];
  }

  /** `np.average`: NaN for no values. */
  function Average(xs: seq<real>): (r: Float)
    ensures r.NaN? <==> xs == []
  {
    if xs == [] then NaN else Fin(Sum(xs) / (|xs| as real))
  }

  lemma {:induction false} SumBounds(xs: seq<real>, lo: real, hi: real)
    requires forall i :: 0 <= i < |xs| ==> lo <= xs[i] <= hi
    ensures (|xs| as real) * lo <= Sum(xs) <= (|xs| as real) * hi
  {
    if xs != [] {
      SumBounds(xs[..|xs| - 1], lo, hi);
    }
  }

  /** The average of values between two bounds lies between them. */
  lemma AverageBounds(xs: seq<real>, lo: real, hi: real)
    requires xs != [] && forall i :: 0 <= i < |xs| ==> lo <= xs[i] <= hi
    ensures Average(xs).Fin? && lo <= Average(xs).v <= hi
  {
    SumBounds(xs, lo, hi);
    var n := |xs| as real;
    assert Sum(xs) / n * n == Sum(xs);
  }

  /** The header keys the analysis reads and writes. */
  datatype HeaderKey = TuneKey(p: Plane) | KKey | PolarityKey | LengthKey

  /** A magnet's measurement frame with its headers, which the analysis updates in place. */
  class MagnetFrame {
    var rows: seq<KmodRow>
    var headers: map<HeaderKey, Float>

    constructor (rows: seq<KmodRow>, headers: map<HeaderKey, Float>)
      ensures this.rows == rows && this.headers == headers
    {
      this.rows := rows;
      this.headers := headers;
    }

    /** Lines 125-130: each plane's tune header is the average tune of the rows cleaned in that
        plane. */
    method CalcTune()
      modifies this
      ensures rows == old(rows)
      ensures headers == old(headers)[TuneKey(X) := Average(CleanedValues(rows, X, TuneCol(X)))]
                                     [TuneKey(Y) := Average(CleanedValues(rows, Y, TuneCol(Y)))]
    {
      headers := headers[TuneKey(X) := Average(CleanedValues(rows, X, TuneCol(X)))];
      headers := headers[TuneKey(Y) := Average(CleanedValues(rows, Y, TuneCol(Y)))];
    }

    /** Lines 132-137: the K header is written twice, so the average over the rows cleaned in X
        is overwritten and K ends up the average over the rows cleaned in Y. */
    method CalcK()
      modifies this
      ensures rows == old(rows)
      ensures headers == old(headers)[KKey := Average(CleanedValues(rows, Y, KCol))]
    {
      headers := headers[KKey := Average(CleanedValues(rows, X, KCol))];
      headers := headers[KKey := Average(CleanedValues(rows, Y, KCol))];
    }

    /** Lines 139-146: row 0 holds sign·(K − K̄)·LENGTH for the cleaned K values, with sign the
        polarity in X and its opposite in Y; row 1 holds the plane's tune header. */
    function FitInput(p: Plane): (x: seq<seq<Float>>)
      reads this
      requires PolarityKey in headers && LengthKey in headers && KKey in headers && TuneKey(p) in headers
      ensures |x| == 2 && |x[0]| == |x[1]| == |CleanedValues(rows, p, KCol)|
      ensures forall j :: 0 <= j < |x[1]| ==> x[1][j] == headers[TuneKey(p)]
    {
      var ks := CleanedValues(rows, p, KCol);
      var pol := headers[PolarityKey];
      var sign := if p == X then pol else Mul(Fin(-1.0), pol);
      var kMean := headers[KKey];
      var len := headers[LengthKey];
      var tune := headers[TuneKey(p)];
      [seq(|ks|, j requires 0 <= j < |ks| => Mul(Mul(sign, Sub(Fin(ks[j]), kMean)), len)),
       seq(|ks|, j requires 0 <= j < |ks| => tune)]
    }
  }

  /** The values of finite entries, 0 for NaN. */
  function FiniteValues(xs: seq<Float>): (r: seq<real>)
    ensures |r| == |xs| && forall j :: 0 <= j < |xs| && xs[j].Fin? ==> r[j] == xs[j].v
  {
    seq(|xs|, j requires 0 <= j < |xs| => if xs[j].Fin? then xs[j].v else 0.0)
  }

  function Scale(c: real, d: real): real
  {
    c * d
  }

  /** The values `c·(x_j − m)`. */
  function ScaledShift(xs: seq<real>, c: real, m: real): (r: seq<real>)
    ensures |r| == |xs| && forall j :: 0 <= j < |xs| ==> r[j] == Scale(c, xs[j] - m)
  {
    seq(|xs|, j requires 0 <= j < |xs| => Scale(c, xs[j] - m))
  }

  lemma Distribute(c: real, u: real, v: real)
    ensures c * u + c * v == c * (u + v)
  {
  }

  lemma MulSucc(k: real, m: real)
    ensures k * m + m == (k + 1.0) * m
  {
  }

  /** Σ c·(x_j − m) = c·(Σ x_j − n·m). */
  lemma {:induction false} SumScaledShift(xs: seq<real>, c: real, m: real)
    ensures Sum(ScaledShift(xs, c, m)) == Scale(c, Sum(xs) - (|xs| as real) * m)
  {
    if xs != [] {
      var n := |xs|;
      var init := xs[..n - 1];
      SumScaledShift(init, c, m);
      ScaledShiftLast(xs, c, m);
      ShiftStep(c, Sum(init), xs[n - 1], (n - 1) as real, m);
    }
  }

  lemma ScaledShiftLast(xs: seq<real>, c: real, m: real)
    requires xs != []
    ensures Sum(ScaledShift(xs, c, m)) ==
      Sum(ScaledShift(xs[..|xs| - 1], c, m)) + Scale(c, xs[|xs| - 1] - m)
  {
    var n := |xs|;
    var s := ScaledShift(xs, c, m);
    var init := xs[..n - 1];
    assert s[..n - 1] == ScaledShift(init, c, m);
  }

  lemma ShiftStep(c: real, a: real, x: real, k: real, m: real)
    ensures Scale(c, a - k * m) + Scale(c, x - m) == Scale(c, (a + x) - (k + 1.0) * m)
  {
    Distribute(c, a - k * m, x - m);
    MulSucc(k, m);
  }

  /** After CalcK the vertical fit input is centred: when polarity and length are finite and a
      row is cleaned in Y, its first row sums to zero. The horizontal one is centred only when the
      X-cleaned K values have the same average, because K̄ comes from the Y-cleaned rows. */
  lemma FitInputCentred(m: MagnetFrame, p: Plane)
    requires PolarityKey in m.headers && LengthKey in m.headers && KKey in m.headers && TuneKey(p) in m.headers
    requires m.headers[PolarityKey].Fin? && m.headers[LengthKey].Fin?
    requires CleanedValues(m.rows, p, KCol) != []
    requires m.headers[KKey] == Average(CleanedValues(m.rows, p, KCol))
    ensures forall j :: 0 <= j < |m.FitInput(p)[0]| ==> m.FitInput(p)[0][j].Fin?
    ensures Sum(FiniteValues(m.FitInput(p)[0])) == 0.0
  {
    var ks := CleanedValues(m.rows, p, KCol);
    var c := Scale(FitSign(m.headers[PolarityKey].v, p), m.headers[LengthKey].v);
    FitInputScaled(m, p, ks, c, Sum(ks) / (|ks| as real));
    CentredSum(ks, c);
  }

  /** The sign of the first fit-input row: the polarity in X, its opposite in Y. */
  function FitSign(pol: real, p: Plane): real
  {
    if p == X then pol else -1.0 * pol
  }

  /** The first fit-input row is finite and equals c·(k_j − K̄) for the cleaned K values. */
  lemma FitInputScaled(m: MagnetFrame, p: Plane, ks: seq<real>, c: real, kbar: real)
    requires PolarityKey in m.headers && LengthKey in m.headers && KKey in m.headers && TuneKey(p) in m.headers
    requires m.headers[PolarityKey].Fin? && m.headers[LengthKey].Fin? && m.headers[KKey] == Fin(kbar)
    requires ks == CleanedValues(m.rows, p, KCol)
    requires c == Scale(FitSign(m.headers[PolarityKey].v, p), m.headers[LengthKey].v)
    ensures forall j :: 0 <= j < |m.FitInput(p)[0]| ==> m.FitInput(p)[0][j].Fin?
    ensures FiniteValues(m.FitInput(p)[0]) == ScaledShift(ks, c, kbar)
  {
    var x0 := m.FitInput(p)[0];
    forall j | 0 <= j < |ks| ensures x0[j] == Fin(Scale(c, ks[j] - kbar)) {
      FitInputEntry(m, p, j, c, kbar);
    }
    assert FiniteValues(x0) == ScaledShift(ks, c, kbar);
  }

  /** One entry of the first fit-input row, with finite polarity, length and K̄. */
  lemma FitInputEntry(m: MagnetFrame, p: Plane, j: nat, c: real, kbar: real)
    requires PolarityKey in m.headers && LengthKey in m.headers && KKey in m.headers && TuneKey(p) in m.headers
    requires m.headers[PolarityKey].Fin? && m.headers[LengthKey].Fin? && m.headers[KKey] == Fin(kbar)
    requires c == Scale(FitSign(m.headers[PolarityKey].v, p), m.headers[LengthKey].v)
    requires j < |CleanedValues(m.rows, p, KCol)|
    ensures m.FitInput(p)[0][j] == Fin(Scale(c, CleanedValues(m.rows, p, KCol)[j] - kbar))
  {
    var sgn := FitSign(m.headers[PolarityKey].v, p);
    var d := CleanedValues(m.rows, p, KCol)[j] - kbar;
    var len := m.headers[LengthKey].v;
    assert m.FitInput(p)[0][j] == Fin(sgn * d * len);
    assert sgn * d * len == (sgn * len) * d;
  }

  /** Scaled deviations from the mean sum to zero. */
  lemma CentredSum(ks: seq<real>, c: real)
    requires ks != []
    ensures Sum(ScaledShift(ks, c, Sum(ks) / (|ks| as real))) == 0.0
  {
    var n := |ks| as real;
    var kbar := Sum(ks) / n;
    SumScaledShift(ks, c, kbar);
    MeanTimesCount(Sum(ks), n);
    assert Sum(ks) - n * kbar == 0.0;
    assert Scale(c, 0.0) == 0.0;
  }

  lemma MeanTimesCount(total: real, n: real)
    requires n > 0.0
    ensures n * (total / n) == total
  {
  }
}
