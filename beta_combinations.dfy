/** Selection of the BPM pairs used with the probed BPM in the N-BPM method (the `index_tuples`
    comprehension of `n_bpm_method`, lines 170 and 175-177). Positions are window positions
    0..2m; the probed BPM is position m. Cotangents are inputs (the trigonometry is not
    modelled); a cotangent that is not finite (the model's cot at the probed BPM is 1/tan(0))
    fails every threshold test, as in numpy. */
module NBpmCombinations {
  import opened PyOps
  import opened Floats

  const ZERO_THRESHOLD: real := 0.001
  const COT_THRESHOLD: real := 15.9

  /** `np.abs(c) <= COT_THRESHOLD` */
  predicate CotUsable(c: Float)
  {
    c.Fin? && Abs(c.v) <= COT_THRESHOLD
  }

  /** `patter[k]`: both the measured and the model cotangent at position k are usable. */
  predicate Passes(cotMeas: seq<Float>, cotModel: seq<Float>, k: nat)
    requires k < |cotMeas| == |cotModel|
  {
    CotUsable(cotMeas[k]) && CotUsable(cotModel[k])
  }

  /** `loc_range[patter] + m`: the positions below `upto` that pass, in increasing order. */
  function PassingPositions(cotMeas: seq<Float>, cotModel: seq<Float>, upto: nat): (r: seq<nat>)
    requires upto <= |cotMeas| == |cotModel|
    ensures |r| <= upto
  {
    if upto == 0 then []
    else PassingPositions(cotMeas, cotModel, upto - 1) +
         (if Passes(cotMeas, cotModel, upto - 1) then [upto - 1] else [])
  }

  /** The filter of the comprehension for a pair of passing positions. */
  predicate Keeps(cotMeas: seq<Float>, cotModel: seq<Float>, x: nat, y: nat)
    requires x < |cotMeas| == |cotModel| && y < |cotMeas|
    requires Passes(cotMeas, cotModel, x) && Passes(cotMeas, cotModel, y)
  {
    var dModel := cotModel[x].v - cotModel[y].v;
    var dMeas := cotMeas[x].v - cotMeas[y].v;
    x < y && Abs(dModel) > ZERO_THRESHOLD && Sign(dModel) * Sign(dMeas) > 0
  }

  ghost predicate AllPass(cotMeas: seq<Float>, cotModel: seq<Float>, ps: seq<nat>)
    requires |cotMeas| == |cotModel|
  {
    forall i :: 0 <= i < |ps| ==> ps[i] < |cotMeas| && Passes(cotMeas, cotModel, ps[i])
  }

  /** The inner `for y in ...` loop for one x. */
  function PairsWith(cotMeas: seq<Float>, cotModel: seq<Float>, x: nat, ys: seq<nat>): (r: seq<(nat, nat)>)
    requires |cotMeas| == |cotModel| && x < |cotMeas| && Passes(cotMeas, cotModel, x)
    requires AllPass(cotMeas, cotModel, ys)
    ensures |r| <= |ys|
    ensures forall p :: p in r ==> p.0 == x && p.1 in ys
  {
    if ys == [] then []
    else (if Keeps(cotMeas, cotModel, x, ys[0]) then [(x, ys[0])] else []) +
         PairsWith(cotMeas, cotModel, x, ys[1..])
  }

  /** The outer `for x in ...` loop. */
  function Pairs(cotMeas: seq<Float>, cotModel: seq<Float>, xs: seq<nat>, ys: seq<nat>): (r: seq<(nat, nat)>)
    requires |cotMeas| == |cotModel|
    requires AllPass(cotMeas, cotModel, xs) && AllPass(cotMeas, cotModel, ys)
    ensures forall p :: p in r ==> p.0 in xs && p.1 in ys
  {
    if xs == [] then []
    else PairsWith(cotMeas, cotModel, xs[0], ys) + Pairs(cotMeas, cotModel, xs[1..], ys)
  }

  lemma {:induction false} PassingPositionsExact(cotMeas: seq<Float>, cotModel: seq<Float>, upto: nat)
    requires upto <= |cotMeas| == |cotModel|
    ensures var ps := PassingPositions(cotMeas, cotModel, upto);
      AllPass(cotMeas, cotModel, ps) &&
      (forall k: nat :: k in ps <==> k < upto && Passes(cotMeas, cotModel, k)) &&
      (forall i, j :: 0 <= i < j < |ps| ==> ps[i] < ps[j]) &&
      (forall i :: 0 <= i < |ps| ==> ps[i] < upto)
  {
    PassingPositionsMembers(cotMeas, cotModel, upto);
    PassingPositionsSorted(cotMeas, cotModel, upto);
  }

  /** The kept positions are exactly the passing ones below `upto`. */
  lemma {:induction false} PassingPositionsMembers(cotMeas: seq<Float>, cotModel: seq<Float>, upto: nat)
    requires upto <= |cotMeas| == |cotModel|
    ensures var ps := PassingPositions(cotMeas, cotModel, upto);
      AllPass(cotMeas, cotModel, ps) &&
      (forall k: nat :: k in ps <==> k < upto && Passes(cotMeas, cotModel, k))
  {
    if upto > 0 {
      PassingPositionsMembers(cotMeas, cotModel, upto - 1);
      var prev := PassingPositions(cotMeas, cotModel, upto - 1);
      var last: seq<nat> := if Passes(cotMeas, cotModel, upto - 1) then [upto - 1] else [];
      assert PassingPositions(cotMeas, cotModel, upto) == prev + last;
      assert forall k :: k in prev + last <==> k in prev || k in last;
    }
  }

  /** The kept positions increase and stay below `upto`. */
  lemma {:induction false} PassingPositionsSorted(cotMeas: seq<Float>, cotModel: seq<Float>, upto: nat)
    requires upto <= |cotMeas| == |cotModel|
    ensures var ps := PassingPositions(cotMeas, cotModel, upto);
      (forall i, j :: 0 <= i < j < |ps| ==> ps[i] < ps[j]) &&
      (forall i :: 0 <= i < |ps| ==> ps[i] < upto)
  {
    if upto > 0 {
      PassingPositionsSorted(cotMeas, cotModel, upto - 1);
      var prev := PassingPositions(cotMeas, cotModel, upto - 1);
      var last: seq<nat> := if Passes(cotMeas, cotModel, upto - 1) then [upto - 1] else [];
      var ps := prev + last;
      assert PassingPositions(cotMeas, cotModel, upto) == ps;
      assert var q := PassingPositions(cotMeas, cotModel, upto - 1);
        forall i :: 0 <= i < |q| ==> q[i] < upto - 1;
      assert forall i :: 0 <= i < |prev| ==> prev[i] < upto - 1;
      forall i | 0 <= i < |ps| ensures ps[i] < upto {
        if i < |prev| {
          assert ps[i] == prev[i];
        }
      }
      forall i, j | 0 <= i < j < |ps| ensures ps[i] < ps[j] {
        if j < |prev| {
          assert ps[i] == prev[i] && ps[j] == prev[j];
        } else {
          assert ps[i] == prev[i] && ps[j] == upto - 1;
        }
      }
    }
  }

  /** `index_tuples` for a window whose cotangent sequences have one entry per position. */
  function IndexTuples(cotMeas: seq<Float>, cotModel: seq<Float>): (r: seq<(nat, nat)>)
    requires |cotMeas| == |cotModel|
    ensures forall p :: p in r ==> p.0 < p.1 < |cotMeas|
  {
    PassingPositionsExact(cotMeas, cotModel, |cotMeas|);
    var ps := PassingPositions(cotMeas, cotModel, |cotMeas|);
    PairsExact(cotMeas, cotModel, ps, ps);
    Pairs(cotMeas, cotModel, ps, ps)
  }

  lemma {:induction false} PairsWithExact(cotMeas: seq<Float>, cotModel: seq<Float>, x: nat, ys: seq<nat>)
    requires |cotMeas| == |cotModel| && x < |cotMeas| && Passes(cotMeas, cotModel, x)
    requires AllPass(cotMeas, cotModel, ys)
    ensures forall a, b :: (a, b) in PairsWith(cotMeas, cotModel, x, ys) <==>
      a == x && b in ys && Keeps(cotMeas, cotModel, x, b)
  {
    if ys != [] {
      PairsWithExact(cotMeas, cotModel, x, ys[1..]);
      assert forall b :: b in ys <==> b == ys[0] || b in ys[1..];
    }
  }

  lemma {:induction false} PairsExact(cotMeas: seq<Float>, cotModel: seq<Float>, xs: seq<nat>, ys: seq<nat>)
    requires |cotMeas| == |cotModel|
    requires AllPass(cotMeas, cotModel, xs) && AllPass(cotMeas, cotModel, ys)
    ensures forall a, b :: (a, b) in Pairs(cotMeas, cotModel, xs, ys) <==>
      a in xs && b in ys && Keeps(cotMeas, cotModel, a, b)
  {
    if xs != [] {
      PairsWithExact(cotMeas, cotModel, xs[0], ys);
      PairsExact(cotMeas, cotModel, xs[1..], ys);
      assert forall a :: a in xs <==> a == xs[0] || a in xs[1..];
    }
  }

  /** Lines 175-177: a pair is selected if and only if both positions pass the cot threshold,
      x < y, the model cotangents differ by more than ZERO_THRESHOLD, and the model and the
      measured differences have the same (non-zero) sign. */
  lemma IndexTuplesExact(cotMeas: seq<Float>, cotModel: seq<Float>)
    requires |cotMeas| == |cotModel|
    ensures forall x: nat, y: nat :: (x, y) in IndexTuples(cotMeas, cotModel) <==>
      x < y < |cotMeas| && Passes(cotMeas, cotModel, x) && Passes(cotMeas, cotModel, y) &&
      Abs(cotModel[x].v - cotModel[y].v) > ZERO_THRESHOLD &&
      ((cotModel[x].v - cotModel[y].v > 0.0 && cotMeas[x].v - cotMeas[y].v > 0.0) ||
       (cotModel[x].v - cotModel[y].v < 0.0 && cotMeas[x].v - cotMeas[y].v < 0.0))
  {
    PassingPositionsExact(cotMeas, cotModel, |cotMeas|);
    var ps := PassingPositions(cotMeas, cotModel, |cotMeas|);
    PairsExact(cotMeas, cotModel, ps, ps);
  }

  /** Lexicographic order on pairs. */
  predicate LexLess(p: (nat, nat), q: (nat, nat))
  {
    p.0 < q.0 || (p.0 == q.0 && p.1 < q.1)
  }

  ghost predicate Increasing(ps: seq<nat>)
  {
    forall i, j :: 0 <= i < j < |ps| ==> ps[i] < ps[j]
  }

  lemma TailAboveHead(ps: seq<nat>, y: nat)
    requires Increasing(ps) && ps != [] && y in ps[1..]
    ensures y in ps && ps[0] < y
  {
    var k :| 0 <= k < |ps[1..]| && ps[1..][k] == y;
    assert ps[k + 1] == y;
  }

  lemma {:induction false} PairsWithSorted(cotMeas: seq<Float>, cotModel: seq<Float>, x: nat, ys: seq<nat>)
    requires |cotMeas| == |cotModel| && x < |cotMeas| && Passes(cotMeas, cotModel, x)
    requires AllPass(cotMeas, cotModel, ys) && Increasing(ys)
    ensures forall i :: 0 <= i < |PairsWith(cotMeas, cotModel, x, ys)| ==>
      PairsWith(cotMeas, cotModel, x, ys)[i].0 == x && PairsWith(cotMeas, cotModel, x, ys)[i].1 in ys
    ensures forall i, j :: 0 <= i < j < |PairsWith(cotMeas, cotModel, x, ys)| ==>
      PairsWith(cotMeas, cotModel, x, ys)[i].1 < PairsWith(cotMeas, cotModel, x, ys)[j].1
  {
    if ys != [] {
      PairsWithSorted(cotMeas, cotModel, x, ys[1..]);
      var head: seq<(nat, nat)> := if Keeps(cotMeas, cotModel, x, ys[0]) then [(x, ys[0])] else [];
      var rest := PairsWith(cotMeas, cotModel, x, ys[1..]);
      assert PairsWith(cotMeas, cotModel, x, ys) == head + rest;
      forall i | 0 <= i < |rest| ensures rest[i].1 in ys && ys[0] < rest[i].1 {
        TailAboveHead(ys, rest[i].1);
      }
    }
  }

  lemma {:induction false} PairsSorted(cotMeas: seq<Float>, cotModel: seq<Float>, xs: seq<nat>, ys: seq<nat>)
    requires |cotMeas| == |cotModel|
    requires AllPass(cotMeas, cotModel, xs) && AllPass(cotMeas, cotModel, ys)
    requires Increasing(xs) && Increasing(ys)
    ensures forall i :: 0 <= i < |Pairs(cotMeas, cotModel, xs, ys)| ==>
      Pairs(cotMeas, cotModel, xs, ys)[i].0 in xs
    ensures forall i, j :: 0 <= i < j < |Pairs(cotMeas, cotModel, xs, ys)| ==>
      LexLess(Pairs(cotMeas, cotModel, xs, ys)[i], Pairs(cotMeas, cotModel, xs, ys)[j])
  {
    if xs != [] {
      PairsWithSorted(cotMeas, cotModel, xs[0], ys);
      PairsSorted(cotMeas, cotModel, xs[1..], ys);
      var a := PairsWith(cotMeas, cotModel, xs[0], ys);
      var b := Pairs(cotMeas, cotModel, xs[1..], ys);
      assert Pairs(cotMeas, cotModel, xs, ys) == a + b;
      forall i | 0 <= i < |b| ensures b[i].0 in xs && xs[0] < b[i].0 {
        TailAboveHead(xs, b[i].0);
      }
    }
  }

  /** The comprehension lists the pairs in lexicographic order, so no pair is listed twice. */
  lemma IndexTuplesSorted(cotMeas: seq<Float>, cotModel: seq<Float>)
    requires |cotMeas| == |cotModel|
    ensures forall i, j :: 0 <= i < j < |IndexTuples(cotMeas, cotModel)| ==>
      LexLess(IndexTuples(cotMeas, cotModel)[i], IndexTuples(cotMeas, cotModel)[j])
  {
    PassingPositionsExact(cotMeas, cotModel, |cotMeas|);
    var ps := PassingPositions(cotMeas, cotModel, |cotMeas|);
    PairsSorted(cotMeas, cotModel, ps, ps);
  }

  /** The probed BPM, whose model cotangent is not finite, is never part of a combination. */
  lemma ProbedBpmNeverPaired(cotMeas: seq<Float>, cotModel: seq<Float>, m: nat)
    requires |cotMeas| == |cotModel| && m < |cotModel| && cotModel[m].NaN?
    ensures forall i :: 0 <= i < |IndexTuples(cotMeas, cotModel)| ==>
      IndexTuples(cotMeas, cotModel)[i].0 != m && IndexTuples(cotMeas, cotModel)[i].1 != m
  {
    IndexTuplesExact(cotMeas, cotModel);
  }
}
