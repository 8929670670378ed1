/** The polynomial model of detuning_tools.py: `get_poly_fun(order)` returns the function
    x ↦ Σ_{i=0}^{order} beta[i]·x^i, whose coefficient index is the power (beta[0] the offset,
    beta[1] the slope), and `do_odr` starts the fit from the guess [0, 1, …, 1]. */
module DetuningTools {
  import opened Wrappers

  /** `beta[i]` past the end of the coefficient list. */
  datatype PolyError = IndexError

  /** `np.power(x, i)` for a scalar x and a non-negative integer power (x^0 is 1, also at 0). */
  function Power(x: real, i: nat): real
  {
    if i == 0 then 1.0 else Power(x, i - 1) * x
  }

  /** The generator sum of the first n terms, added in index order starting from 0. */
  function Terms(beta: seq<real>, x: real, n: nat): (r: real)
    requires n <= |beta|
    ensures x == 0.0 && n >= 1 ==> r == beta[0]
  {
    if n == 0 then 0.0 else Terms(beta, x, n - 1) + beta[n - 1] * Power(x, n - 1)
  }

  /** `get_poly_fun(order)(beta, x)`: IndexError when beta has no entry `order`. */
  function PolyFun(order: nat, beta: seq<real>, x: real): (r: Result<real, PolyError>)
    ensures r.Ok? <==> order < |beta|
  {
    if order < |beta| then Ok(Terms(beta, x, order + 1)) else Err(IndexError)
  }

  /** An independent reference: Horner's scheme on the coefficients, lowest power first. */
  function Horner(coeffs: seq<real>, x: real): real
  {
    if coeffs == [] then 0.0 else coeffs[0] + x * Horner(coeffs[1..], x)
  }

  lemma PowerSucc(x: real, i: nat)
    ensures Power(x, i + 1) == x * Power(x, i)
  {
  }

  /** Shifting the coefficients down by one factors one x out of the sum. */
  lemma {:induction false} TermsShift(beta: seq<real>, x: real, n: nat)
    requires 1 <= n <= |beta|
    ensures Terms(beta, x, n) == beta[0] + x * Terms(beta[1..], x, n - 1)
  {
    if n > 1 {
      TermsShift(beta, x, n - 1);
      PowerSucc(x, n - 2);
      var c := beta[1..];
      assert beta[n - 1] == c[n - 2];
      calc {
        Terms(beta, x, n);
        Terms(beta, x, n - 1) + beta[n - 1] * Power(x, n - 1);
        beta[0] + x * Terms(c, x, n - 2) + c[n - 2] * (x * Power(x, n - 2));
        beta[0] + x * (Terms(c, x, n - 2) + c[n - 2] * Power(x, n - 2));
        beta[0] + x * Terms(c, x, n - 1);
      }
    }
  }

  /** The first n terms agree with Horner's scheme on the first n coefficients. */
  lemma {:induction false} TermsIsHorner(beta: seq<real>, x: real, n: nat)
    requires n <= |beta|
    ensures Terms(beta, x, n) == Horner(beta[..n], x)
  {
    if n > 0 {
      TermsShift(beta, x, n);
      TermsIsHorner(beta[1..], x, n - 1);
      assert beta[..n][1..] == beta[1..][..n - 1];
    }
  }

  /** The polynomial is the degree-`order` polynomial whose coefficients are beta[0..order]. */
  lemma PolyFunIsHorner(order: nat, beta: seq<real>, x: real)
    ensures order < |beta| ==> PolyFun(order, beta, x) == Ok(Horner(beta[..order + 1], x))
  {
    if order < |beta| {
      TermsIsHorner(beta, x, order + 1);
    }
  }

  /** Coefficients with an index above the order never enter the value. */
  lemma {:induction false} TermsIgnoreTail(a: seq<real>, b: seq<real>, x: real, n: nat)
    requires n <= |a| && n <= |b| && a[..n] == b[..n]
    ensures Terms(a, x, n) == Terms(b, x, n)
  {
    if n > 0 {
      assert a[n - 1] == a[..n][n - 1] == b[..n][n - 1] == b[n - 1];
      assert a[..n - 1] == a[..n][..n - 1];
      assert b[..n - 1] == b[..n][..n - 1];
      TermsIgnoreTail(a, b, x, n - 1);
    }
  }

  lemma PolyFunIgnoresHigherCoefficients(order: nat, a: seq<real>, b: seq<real>, x: real)
    requires order < |a| && order < |b| && a[..order + 1] == b[..order + 1]
    ensures PolyFun(order, a, x) == PolyFun(order, b, x)
  {
    TermsIgnoreTail(a, b, x, order + 1);
  }

  /** At x = 0 every power above zero vanishes and the value is the offset beta[0]. */
  lemma {:induction false} TermsAtZero(beta: seq<real>, n: nat)
    requires 1 <= n <= |beta|
    ensures Terms(beta, 0.0, n) == beta[0]
  {
    if n > 1 {
      TermsAtZero(beta, n - 1);
      PowerSucc(0.0, n - 2);
    }
  }

  lemma PolyFunOffset(order: nat, beta: seq<real>)
    requires order < |beta|
    ensures PolyFun(order, beta, 0.0) == Ok(beta[0])
  {
    TermsAtZero(beta, order + 1);
  }

  /** Order 1 is the straight line with offset beta[0] and slope beta[1]. */
  lemma PolyFunLinear(beta: seq<real>, x: real)
    requires 2 <= |beta|
    ensures PolyFun(1, beta, x) == Ok(beta[0] + beta[1] * x)
  {
    assert Power(x, 1) == x by {
      assert Power(x, 1) == Power(x, 0) * x;
    }
    assert Terms(beta, x, 1) == beta[0] by {
      assert Terms(beta, x, 1) == Terms(beta, x, 0) + beta[0] * Power(x, 0);
    }
    assert Terms(beta, x, 2) == Terms(beta, x, 1) + beta[1] * Power(x, 1);
    assert PolyFun(1, beta, x) == Ok(Terms(beta, x, 2));
    assert Terms(beta, x, 2) == beta[0] + beta[1] * x;
  }

  /** The starting coefficients of `do_odr`: offset 0 and every higher coefficient 1. */
  function Beta0(order: nat): (r: seq<real>)
    ensures |r| == order + 1 && r[0] == 0.0
    ensures forall i :: 1 <= i <= order ==> r[i] == 1.0
  {
    [0.0] + seq(order, _ => 1.0)
  }

  /** The initial guess is a valid coefficient list for the model of the same order, and its
      polynomial vanishes at the origin. */
  lemma Beta0FitsModel(order: nat, x: real)
    ensures PolyFun(order, Beta0(order), x).Ok?
    ensures PolyFun(order, Beta0(order), 0.0) == Ok(0.0)
  {
    PolyFunOffset(order, Beta0(order));
  }
}
