/** The cleaning and moving average of BBQ tune data (tune_analysis/bbq_tools.py): the cut
    masks, the guard against too few remaining points, the check of the fine-cleaning
    parameters, the blanking of cut points in a copy and the alignment of the centred moving
    average. A series is a sequence of `Float` (NaN included); a mask is true where a point is
    cut. The interpolation over the index is a parameter. */
module BbqTools {
  import opened Wrappers
  import opened PyOps
  import opened Floats

  /** The exceptions `get_moving_average` raises. */
  datatype BbqError =
    | NotImplemented  // only one of the fine-cleaning parameters is set (lines 44-46)
    | TooFewPoints    // "Too many points have been filtered" (lines 93-96)
    | NoneOperand     // `data_mav - None`: a fine length is given, a fine cut is None

  // ----- the cut masks (lines 48-58, 63-65) -----

  /** `data_series <= min_val`, or all false when there is no bound. */
  function BelowMask(data: seq<Float>, minVal: Option<real>): (m: seq<bool>)
    ensures |m| == |data|
  {
    seq(|data|, i requires 0 <= i < |data| => minVal.Some? && Le(data[i], Fin(minVal.value)))
  }

  /** `data_series >= max_val`, or all false when there is no bound. */
  function AboveMask(data: seq<Float>, maxVal: Option<real>): (m: seq<bool>)
    ensures |m| == |data|
  {
    seq(|data|, i requires 0 <= i < |data| => maxVal.Some? && Ge(data[i], Fin(maxVal.value)))
  }

  /** `min_mask | max_mask | data_series.isna()`. */
  function CombinedMask(below: seq<bool>, above: seq<bool>, data: seq<Float>): (m: seq<bool>)
    requires |below| == |above| == |data|
    ensures |m| == |data|
  {
    seq(|data|, i requires 0 <= i < |data| => below[i] || above[i] || data[i].IsNa())
  }

  function CutMask(data: seq<Float>, minVal: Option<real>, maxVal: Option<real>): (m: seq<bool>)
    ensures |m| == |data|
  {
    CombinedMask(BelowMask(data, minVal), AboveMask(data, maxVal), data)
  }

  /** A point is kept exactly when it is a number strictly between the bounds that are given:
      the bounds themselves are cut and an absent bound cuts nothing. */
  lemma KeptStrictlyInside(data: seq<Float>, minVal: Option<real>, maxVal: Option<real>, i: nat)
    requires i < |data|
    ensures !CutMask(data, minVal, maxVal)[i] <==>
      data[i].Fin? &&
      (minVal.None? || data[i].v > minVal.value) &&
      (maxVal.None? || data[i].v < maxVal.value)
  {
  }

  /** The fine pass cuts relative to the first average: `data <= mav - cut` or
      `data >= mav + cut`, or NaN. */
  function FineMask(data: seq<Float>, mav: seq<Float>, fineCut: real): (m: seq<bool>)
    requires |mav| == |data|
    ensures |m| == |data|
  {
    var below := seq(|data|, i requires 0 <= i < |data| => Le(data[i], Sub(mav[i], Fin(fineCut))));
    var above := seq(|data|, i requires 0 <= i < |data| => Ge(data[i], Add(mav[i], Fin(fineCut))));
    CombinedMask(below, above, data)
  }

  /** The fine pass keeps a number exactly when it is closer than the fine cut to the average;
      where the average itself is NaN both comparisons are false and the number is kept. */
  lemma FineKeptNearAverage(data: seq<Float>, mav: seq<Float>, fineCut: real, i: nat)
    requires |mav| == |data| && i < |data|
    ensures !FineMask(data, mav, fineCut)[i] <==>
      data[i].Fin? && (mav[i].NaN? || Abs(data[i].v - mav[i].v) < fineCut)
  {
    var d := data[i];
    var m := mav[i];
    assert FineMask(data, mav, fineCut)[i] ==
      (Le(d, Sub(m, Fin(fineCut))) || Ge(d, Add(m, Fin(fineCut))) || d.IsNa());
    if d.Fin? && m.Fin? {
      assert Sub(m, Fin(fineCut)) == Fin(m.v - fineCut);
      assert Add(m, Fin(fineCut)) == Fin(m.v + fineCut);
    }
  }

  // ----- the guard (lines 93-96) -----

  /** `sum(~mask)`: the number of points kept. */
  function CountKept(mask: seq<bool>): nat
  {
    if mask == [] then 0 else CountKept(mask[..|mask| - 1]) + (if mask[|mask| - 1] then 0 else 1)
  }

  lemma {:induction false} CountKeptIsMultiplicity(mask: seq<bool>)
    ensures CountKept(mask) == multiset(mask)[false]
    ensures CountKept(mask) <= |mask|
  {
    if mask != [] {
      var n := |mask|;
      CountKeptIsMultiplicity(mask[..n - 1]);
      assert mask == mask[..n - 1] + [mask[n - 1]];
    }
  }

  /** `_is_almost_empty_mask`: an error when the kept points do not exceed the window length. */
  function CheckEnoughPoints(mask: seq<bool>, avLength: int): (r: Result<(), BbqError>)
    ensures r.Err? <==> multiset(mask)[false] <= avLength
    ensures r.Err? ==> r.error == TooFewPoints
  {
    CountKeptIsMultiplicity(mask);
    if CountKept(mask) <= avLength then Err(TooFewPoints) else Ok(())
  }

  // ----- the interpolated moving average (lines 75-90) -----

  /** `data[clean_mask] = NaN` on a copy: the cut points become NaN, the others are kept. */
  function Blanked(data: seq<Float>, mask: seq<bool>): (r: seq<Float>)
    requires |mask| == |data|
    ensures |r| == |data|
  {
    seq(|data|, i requires 0 <= i < |data| => if mask[i] then NaN else data[i])
  }

  /** The copy carries exactly the kept values: every cut point is NaN and every other point is
      the original. */
  lemma BlankedKeepsUncut(data: seq<Float>, mask: seq<bool>)
    requires |mask| == |data|
    ensures forall i :: 0 <= i < |data| ==> (mask[i] ==> Blanked(data, mask)[i].NaN?)
    ensures forall i :: 0 <= i < |data| ==> (!mask[i] ==> Blanked(data, mask)[i] == data[i])
    ensures forall i :: 0 <= i < |data| && Blanked(data, mask)[i].Fin? ==> !mask[i]
  {
  }

  /** `fillna(method="bfill")`: a NaN takes the next value. */
  function BackFill(xs: seq<Float>): (r: seq<Float>)
    ensures |r| == |xs|
  {
    if xs == [] then []
    else
      var rest := BackFill(xs[1..]);
      [if xs[0].NaN? && rest != [] then rest[0] else xs[0]] + rest
  }

  /** `fillna(method="ffill")`: a NaN takes the previous value. */
  function ForwardFill(xs: seq<Float>): (r: seq<Float>)
    ensures |r| == |xs|
  {
    if xs == [] then []
    else
      var init := ForwardFill(xs[..|xs| - 1]);
      init + [if xs[|xs| - 1].NaN? && init != [] then init[|init| - 1] else xs[|xs| - 1]]
  }

  /** After a backward fill, a point is a number exactly when a number follows it (or is it);
      numbers are kept. */
  lemma {:induction false} BackFillAt(xs: seq<Float>, i: nat)
    requires i < |xs|
    ensures BackFill(xs)[i].Fin? <==> exists j :: i <= j < |xs| && xs[j].Fin?
    ensures xs[i].Fin? ==> BackFill(xs)[i] == xs[i]
  {
    var rest := xs[1..];
    if i > 0 {
      BackFillAt(rest, i - 1);
      assert BackFill(xs)[i] == BackFill(rest)[i - 1];
      FollowingShift(xs, i);
    } else if xs[0].NaN? && |xs| > 1 {
      BackFillAt(rest, 0);
      assert BackFill(xs)[0] == BackFill(rest)[0];
      FollowingShift(xs, 1);
    }
  }

  lemma FollowingShift(xs: seq<Float>, i: nat)
    requires 1 <= i < |xs|
    ensures (exists j :: i - 1 <= j < |xs| - 1 && xs[1..][j].Fin?) <==>
            (exists j :: i <= j < |xs| && xs[j].Fin?)
    ensures xs[0].NaN? && i == 1 ==>
            ((exists j :: i <= j < |xs| && xs[j].Fin?) <==> (exists j :: 0 <= j < |xs| && xs[j].Fin?))
  {
    if exists j :: i - 1 <= j < |xs| - 1 && xs[1..][j].Fin? {
      var j :| i - 1 <= j < |xs| - 1 && xs[1..][j].Fin?;
      assert xs[j + 1].Fin?;
    }
    if exists j :: i <= j < |xs| && xs[j].Fin? {
      var j :| i <= j < |xs| && xs[j].Fin?;
      assert xs[1..][j - 1].Fin?;
    }
  }

  /** After a forward fill, a point is a number exactly when a number precedes it (or is it). */
  lemma {:induction false} ForwardFillAt(xs: seq<Float>, i: nat)
    requires i < |xs|
    ensures ForwardFill(xs)[i].Fin? <==> exists j :: 0 <= j <= i && xs[j].Fin?
  {
    var n := |xs|;
    var init := xs[..n - 1];
    if i < n - 1 {
      ForwardFillAt(init, i);
      assert ForwardFill(xs)[i] == ForwardFill(init)[i];
      assert forall j :: 0 <= j <= i ==> init[j] == xs[j];
    } else if xs[n - 1].NaN? && n > 1 {
      ForwardFillAt(init, n - 2);
      assert ForwardFill(xs)[i] == ForwardFill(init)[n - 2];
      assert forall j :: 0 <= j <= n - 2 ==> init[j] == xs[j];
    }
  }

  /** `.fillna(method="bfill").fillna(method="ffill")`. */
  function Fill(xs: seq<Float>): (r: seq<Float>)
    ensures |r| == |xs|
  {
    ForwardFill(BackFill(xs))
  }

  /** The two fills leave no NaN as soon as the series holds one number. */
  lemma FillLeavesNoNaN(xs: seq<Float>)
    requires exists j :: 0 <= j < |xs| && xs[j].Fin?
    ensures forall i :: 0 <= i < |xs| ==> Fill(xs)[i].Fin?
  {
    BackFillAt(xs, 0);
    forall i | 0 <= i < |xs| ensures Fill(xs)[i].Fin? {
      ForwardFillAt(BackFill(xs), i);
    }
  }

  /** The mean of a window, NaN when it holds a NaN (pandas' default `min_periods`). */
  function WindowMean(w: seq<Float>): Float
  {
    if w != [] && forall k :: 0 <= k < |w| ==> w[k].Fin? then
      Fin(Sum(seq(|w|, k requires 0 <= k < |w| && w[k].Fin? => w[k].v)) / (|w| as real))
    else NaN
  }

  /** `rolling(length).mean()`: the mean of the `length` values ending at each point, NaN
      while fewer precede it. */
  function RollingMean(xs: seq<Float>, length: nat): (r: seq<Float>)
    ensures |r| == |xs|
  {
    seq(|xs|, j requires 0 <= j < |xs| =>
      if length >= 1 && j + 1 >= length then WindowMean(xs[j + 1 - length .. j + 1]) else NaN)
  }

  /** `Series.shift(periods)`: the value at i comes from `i - periods`, NaN where that is outside. */
  function Shift(xs: seq<Float>, periods: int): (r: seq<Float>)
    ensures |r| == |xs|
  {
    seq(|xs|, i requires 0 <= i < |xs| => if 0 <= i - periods < |xs| then xs[i - periods] else NaN)
  }

  /** Python's `int()` of a half: truncation toward zero. */
  function TruncHalf(n: int): int
  {
    if n >= 0 then n / 2 else -((-n) / 2)
  }

  /** Line 83: `-int((length - 1) / 2)`. */
  function CentringShift(length: nat): int
  {
    -TruncHalf(length - 1)
  }

  /** The centred moving average before the end fills. */
  function CentredMean(xs: seq<Float>, length: nat): (r: seq<Float>)
    ensures |r| == |xs|
  {
    Shift(RollingMean(xs, length), CentringShift(length))
  }

  /** The averaged value at i covers ceil((length-1)/2) points before it and floor((length-1)/2)
      after it: `length` points in all. */
  lemma CentredWindow(xs: seq<Float>, length: nat, i: nat)
    requires length >= 1
    requires length / 2 <= i && i + (length - 1) / 2 < |xs|
    ensures length / 2 + (length - 1) / 2 + 1 == length
    ensures CentredMean(xs, length)[i] == WindowMean(xs[i - length / 2 .. i + (length - 1) / 2 + 1])
  {
    var h := (length - 1) / 2;
    assert TruncHalf(length - 1) == h;
    assert i + h + 1 - length == i - length / 2;
  }

  /** `_get_interpolated_moving_average` (the mean; the standard deviation is not modelled):
      blank the cut points in a copy, interpolate and fill, then take the centred mean and fill
      its ends. */
  function MovingAverage(data: seq<Float>, cut: seq<bool>, length: nat,
                         interpolate: seq<Float> -> seq<Float>): (r: seq<Float>)
    requires |cut| == |data|
    requires forall xs :: |interpolate(xs)| == |xs|
    ensures |r| == |data|
  {
    var filled := Fill(interpolate(Blanked(data, cut)));
    Fill(CentredMean(filled, length))
  }

  // ----- get_moving_average (lines 25-69) -----

  /** Python truthiness of an optional number: None and 0 are false. */
  predicate TruthyLength(x: Option<nat>)
  {
    x.Some? && x.value != 0
  }

  predicate TruthyCut(x: Option<real>)
  {
    x.Some? && x.value != 0.0
  }

  /** The moving average and the mask of the points cut, or the exception raised. */
  function GetMovingAverage(data: seq<Float>, length: nat, minVal: Option<real>, maxVal: Option<real>,
                            fineLength: Option<nat>, fineCut: Option<real>,
                            interpolate: seq<Float> -> seq<Float>): (r: Result<(seq<Float>, seq<bool>), BbqError>)
    requires forall xs :: |interpolate(xs)| == |xs|
    ensures r.Ok? ==> TruthyLength(fineLength) == TruthyCut(fineCut)
    ensures r.Ok? ==> |r.value.0| == |data| && |r.value.1| == |data|
    ensures r.Ok? ==> multiset(r.value.1)[false] > (if fineLength.Some? then fineLength.value else length)
  {
    if TruthyLength(fineLength) != TruthyCut(fineCut) then Err(NotImplemented)
    else
      var cut := CutMask(data, minVal, maxVal);
      var guard := CheckEnoughPoints(cut, length);
      if guard.Err? then Err(guard.error)
      else
        var mav := MovingAverage(data, cut, length, interpolate);
        if fineLength.None? then Ok((mav, cut))
        else if fineCut.None? then Err(NoneOperand)
        else
          var fine := FineMask(data, mav, fineCut.value);
          var fineGuard := CheckEnoughPoints(fine, fineLength.value);
          if fineGuard.Err? then Err(fineGuard.error)
          else Ok((MovingAverage(data, fine, fineLength.value, interpolate), fine))
  }

  /** The mask of the fine pass: points too far from the first average are cut. */
  function FinePassMask(data: seq<Float>, cut: seq<bool>, length: nat, fineCut: real,
                        interpolate: seq<Float> -> seq<Float>): (m: seq<bool>)
    requires |cut| == |data|
    requires forall xs :: |interpolate(xs)| == |xs|
    ensures |m| == |data|
  {
    FineMask(data, MovingAverage(data, cut, length, interpolate), fineCut)
  }

  /** Fine cleaning needs both parameters or neither. The guard applies to the first pass and,
      when a fine length is given, to the fine pass; a fine length without a fine cut fails on
      `data_mav - None`. The result is the first pass when no fine length is given, otherwise
      the fine pass over the fine mask, which cuts around the first average. Each outcome is
      stated in both directions. */
  lemma MovingAverageOutcome(data: seq<Float>, length: nat, minVal: Option<real>, maxVal: Option<real>,
                             fineLength: Option<nat>, fineCut: Option<real>,
                             interpolate: seq<Float> -> seq<Float>)
    requires forall xs :: |interpolate(xs)| == |xs|
    ensures var r := GetMovingAverage(data, length, minVal, maxVal, fineLength, fineCut, interpolate);
      r == Err(NotImplemented) <==> TruthyLength(fineLength) != TruthyCut(fineCut)
    ensures var r := GetMovingAverage(data, length, minVal, maxVal, fineLength, fineCut, interpolate);
            var cut := CutMask(data, minVal, maxVal);
      r == Err(TooFewPoints) <==>
        TruthyLength(fineLength) == TruthyCut(fineCut) &&
        (multiset(cut)[false] <= length ||
         (fineLength.Some? && fineCut.Some? &&
          multiset(FinePassMask(data, cut, length, fineCut.value, interpolate))[false] <= fineLength.value))
    ensures var r := GetMovingAverage(data, length, minVal, maxVal, fineLength, fineCut, interpolate);
            var cut := CutMask(data, minVal, maxVal);
      r == Err(NoneOperand) <==>
        TruthyLength(fineLength) == TruthyCut(fineCut) && multiset(cut)[false] > length &&
        fineLength.Some? && fineCut.None?
    ensures var r := GetMovingAverage(data, length, minVal, maxVal, fineLength, fineCut, interpolate);
            var cut := CutMask(data, minVal, maxVal);
      fineLength.None? && TruthyLength(fineLength) == TruthyCut(fineCut) && multiset(cut)[false] > length ==>
        r == Ok((MovingAverage(data, cut, length, interpolate), cut))
    ensures var r := GetMovingAverage(data, length, minVal, maxVal, fineLength, fineCut, interpolate);
            var cut := CutMask(data, minVal, maxVal);
      fineLength.Some? && fineCut.Some? && TruthyLength(fineLength) == TruthyCut(fineCut) &&
      multiset(cut)[false] > length ==>
        var fine := FinePassMask(data, cut, length, fineCut.value, interpolate);
        multiset(fine)[false] > fineLength.value ==>
          r == Ok((MovingAverage(data, fine, fineLength.value, interpolate), fine))
  {
  }
}
