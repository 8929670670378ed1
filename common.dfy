/** Failure-compatible wrappers used for the exceptions the Python code raises. */
module Wrappers {

  datatype Option<+T> = None | Some(value: T)

  /** The outcome of a Python call that either returns a value or raises. */
  datatype Result<+T, +E> = Ok(value: T) | Err(error: E) {
    predicate IsFailure() { Err? }

    function PropagateFailure<U>(): Result<U, E>
      requires Err?
    {
      Err(error)
    }

    function Extract(): T
      requires Ok?
    {
      value
    }
  }
}

/** Python and numpy indexing conventions shared by all modules. */
module PyOps {

  /** Where a Python slice bound lands in a sequence of length `n`: negative bounds count from
      the end, and every bound is clamped into 0..n. */
  function SliceBound(i: int, n: nat): (b: nat)
    ensures b <= n
    ensures 0 <= i <= n ==> b == i
    ensures i > n ==> b == n
    ensures -(n as int) <= i < 0 ==> b == i + n
    ensures i < -(n as int) ==> b == 0
  {
    if i < 0 then (if i + n < 0 then 0 else i + n) else if i > n then n else i
  }

  /** `s[lo:hi]` with Python's semantics: never raises, an empty result when the bounds cross. */
  function PySlice<T>(s: seq<T>, lo: int, hi: int): (r: seq<T>)
    ensures 0 <= lo <= hi <= |s| ==> r == s[lo..hi]
    ensures |r| <= |s|
  {
    var a := SliceBound(lo, |s|);
    var b := SliceBound(hi, |s|);
    if a <= b then s[a..b] else []
  }

  /** A slice holds only elements of the sliced sequence. */
  lemma PySliceWithin<T>(s: seq<T>, lo: int, hi: int)
    ensures forall x :: x in PySlice(s, lo, hi) ==> x in s
  {
  }

  /** `np.roll(s, k)`: element i of the input moves to position (i + k) mod |s|. */
  function Roll<T>(s: seq<T>, k: int): (r: seq<T>)
    ensures |r| == |s|
  {
    seq(|s|, i requires 0 <= i < |s| => s[(i - k) % |s|])
  }

  /** `x**2`, never negative. */
  function Sq(x: real): (r: real)
    ensures r >= 0.0
  {
    x * x
  }

  function Sum(s: seq<real>): real
  {
    if s == [] then 0.0 else Sum(s[..|s| - 1]) + s[|s| - 1]
  }

  lemma {:induction false} SumAppend(a: seq<real>, b: seq<real>)
    ensures Sum(a + b) == Sum(a) + Sum(b)
    decreases |b|
  {
    if b == [] {
      assert a + b == a;
    } else {
      assert (a + b)[..|a + b| - 1] == a + b[..|b| - 1];
      SumAppend(a, b[..|b| - 1]);
    }
  }

  function Abs(x: real): (r: real)
    ensures r >= 0.0 && (r == x || r == -x)
  {
    if x < 0.0 then -x else x
  }

  /** `np.sign` on a real: -1, 0 or 1. */
  function Sign(x: real): (r: int)
    ensures r == 0 <==> x == 0.0
    ensures r > 0 <==> x > 0.0
    ensures -1 <= r <= 1
  {
    if x > 0.0 then 1 else if x < 0.0 then -1 else 0
  }

  /** `np.sign` on an integer. */
  function SignInt(x: int): (r: int)
    ensures r == 0 <==> x == 0
    ensures r > 0 <==> x > 0
    ensures -1 <= r <= 1
  {
    if x > 0 then 1 else if x < 0 then -1 else 0
  }

  lemma MulAtLeast(k: int, n: int)
    requires k >= 1 && n > 0
    ensures k * n >= n
  {
    assert k * n == (k - 1) * n + n;
    assert (k - 1) * n >= 0;
  }

  /** Euclidean division is determined by any quotient/remainder pair. */
  lemma ModUnique(x: int, a: int, r: int, n: int)
    requires n > 0 && 0 <= r < n && x == a * n + r
    ensures x % n == r && x / n == a
  {
    var q := x / n;
    var r' := x % n;
    assert x == q * n + r';
    assert (a - q) * n == r' - r;
    if a - q >= 1 {
      MulAtLeast(a - q, n);
    } else if q - a >= 1 {
      assert (q - a) * n == r - r';
      MulAtLeast(q - a, n);
    }
  }

  lemma ModShift(x: int, q: int, n: int)
    requires n > 0
    ensures (x + q * n) % n == x % n
  {
    var r := x % n;
    var p := x / n;
    assert x == p * n + r;
    assert x + q * n == (p + q) * n + r;
    ModUnique(x + q * n, p + q, r, n);
  }

  lemma ModFold(a: int, b: int, n: int)
    requires n > 0
    ensures ((a % n) + b) % n == (a + b) % n
  {
    var q := a / n;
    assert a == q * n + a % n;
    assert a + b == (a % n + b) + q * n;
    ModShift(a % n + b, q, n);
  }

  /** Rotating a sequence left by `k` keeps its elements. */
  lemma RotationKeepsMultiset<T>(s: seq<T>, k: nat)
    requires k <= |s|
    ensures multiset(s[k..] + s[..k]) == multiset(s)
  {
    assert s == s[..k] + s[k..];
  }
}

/** Floating-point values as numpy sees them: a finite value, or a value that is not finite
    (NaN, or an infinity produced by a division by zero). Every ordered comparison with a
    non-finite value is false here, which is what numpy gives for NaN and for the threshold
    tests this model uses them in. */
module Floats {

  datatype Float = Fin(v: real) | NaN {
    predicate IsNa() { NaN? }
  }

  /** `a <= b` with numpy semantics (false when either side is NaN). */
  predicate Le(a: Float, b: Float)
  {
    a.Fin? && b.Fin? && a.v <= b.v
  }

  /** `a >= b` with numpy semantics. */
  predicate Ge(a: Float, b: Float)
  {
    a.Fin? && b.Fin? && a.v >= b.v
  }

  function Sub(a: Float, b: Float): (r: Float)
    ensures r.Fin? <==> a.Fin? && b.Fin?
  {
    if a.Fin? && b.Fin? then Fin(a.v - b.v) else NaN
  }

  function Add(a: Float, b: Float): (r: Float)
    ensures r.Fin? <==> a.Fin? && b.Fin?
  {
    if a.Fin? && b.Fin? then Fin(a.v + b.v) else NaN
  }

  function Mul(a: Float, b: Float): (r: Float)
    ensures r.Fin? <==> a.Fin? && b.Fin?
  {
    if a.Fin? && b.Fin? then Fin(a.v * b.v) else NaN
  }
}
