/** The bookkeeping of the iterative global correction (correction/handler.py): which
    correctors survive, which measurement files are read for which optics parameter, the option
    checks of the two correction methods, the joined measurement vectors and the text and signs
    of the change-parameter files and the knob. The response matrices, the pseudo-inverse, the
    matching pursuit and the MAD-X runs are not modelled: a correction step enters as a function
    parameter. */
module CorrectionHandler {
  import opened Wrappers
  import opened PyOps

  /** A corrector variable with its accumulated change (one row of the DELTA frame). */
  datatype Var = Var(name: string, delta: real)

  function Names(vs: seq<Var>): (r: seq<string>)
    ensures |r| == |vs| && forall i :: 0 <= i < |vs| ==> r[i] == vs[i].name
  {
    seq(|vs|, i requires 0 <= i < |vs| => vs[i].name)
  }

  // ----- _filter_by_strength (lines 264-267) -----

  /** `delta.loc[delta[DELTA].abs() > min_strength]`. */
  function Stronger(delta: seq<Var>, minStrength: real): (r: seq<Var>)
    ensures |r| <= |delta|
    ensures forall i :: 0 <= i < |r| ==> Abs(r[i].delta) > minStrength
  {
    if delta == [] then [] else KeptIfStrong(delta[0], minStrength) + Stronger(delta[1..], minStrength)
  }

  /** One corrector through the filter. */
  function KeptIfStrong(v: Var, minStrength: real): seq<Var>
  {
    if Abs(v.delta) > minStrength then [v] else []
  }

  /** A corrector is kept exactly when its change exceeds the minimum strength strictly. */
  lemma {:induction false} StrongerExact(delta: seq<Var>, minStrength: real)
    ensures forall v :: v in Stronger(delta, minStrength) <==> v in delta && Abs(v.delta) > minStrength
  {
    if delta != [] {
      StrongerExact(delta[1..], minStrength);
      assert delta == [delta[0]] + delta[1..];
    }
  }

  /** The filter works corrector by corrector and keeps their order: filtering a concatenation
      is concatenating the filtered parts. */
  lemma {:induction false} StrongerAppend(a: seq<Var>, b: seq<Var>, minStrength: real)
    ensures Stronger(a + b, minStrength) == Stronger(a, minStrength) + Stronger(b, minStrength)
  {
    if a != [] {
      StrongerAppend(a[1..], b, minStrength);
      var head := KeptIfStrong(a[0], minStrength);
      var rest := Stronger(a[1..], minStrength);
      var sb := Stronger(b, minStrength);
      assert (a + b)[0] == a[0] && (a + b)[1..] == a[1..] + b;
      assert Stronger(a + b, minStrength) == head + (rest + sb);
      assert head + (rest + sb) == (head + rest) + sb;
    } else {
      assert a + b == b;
    }
  }

  /** `resp_matrix.loc[:, labels]`: the response columns of the given variables, in the order of
      the labels; a label that is not a column raises KeyError. */
  function Columns(resp: map<string, seq<real>>, labels: seq<string>): (r: Result<seq<seq<real>>, string>)
    ensures r.Ok? ==> |r.value| == |labels| && forall k :: 0 <= k < |labels| ==> labels[k] in resp && r.value[k] == resp[labels[k]]
    ensures r.Err? <==> exists k :: 0 <= k < |labels| && labels[k] !in resp
    ensures r.Err? ==> r.error in labels && r.error !in resp
  {
    if labels == [] then Ok([])
    else if labels[0] !in resp then Err(labels[0])
    else match Columns(resp, labels[1..])
      case Err(e) => Err(e)
      case Ok(rest) => Ok([resp[labels[0]]] + rest)
  }

  /** `_filter_by_strength`: the kept changes, the response restricted to their columns and
      their names. */
  function FilterByStrength(delta: seq<Var>, resp: map<string, seq<real>>, minStrength: real)
    : (r: Result<(seq<Var>, seq<seq<real>>, seq<string>), string>)
    ensures r.Ok? ==> |r.value.0| <= |delta| && |r.value.1| == |r.value.0| && r.value.2 == Names(r.value.0)
    ensures r.Err? ==> r.error !in resp
  {
    var kept := Stronger(delta, minStrength);
    match Columns(resp, Names(kept))
    case Err(e) => Err(e)
    case Ok(cols) => Ok((kept, cols, Names(kept)))
  }

  /** When every corrector has a response column (the response is built over the variable list),
      the filter never raises, and the changes, the response columns and the variable list are
      all restricted to the same correctors, in the same order. */
  lemma FilterByStrengthSameSet(delta: seq<Var>, resp: map<string, seq<real>>, minStrength: real)
    requires forall v :: v in delta ==> v.name in resp
    ensures FilterByStrength(delta, resp, minStrength).Ok?
    ensures var r := FilterByStrength(delta, resp, minStrength).value;
      r.0 == Stronger(delta, minStrength) && r.2 == Names(r.0) && |r.1| == |r.0| &&
      forall k :: 0 <= k < |r.0| ==> r.1[k] == resp[r.0[k].name]
  {
    StrongerExact(delta, minStrength);
  }

  // ----- _get_measurment_data (lines 131-154) -----

  /** `[k for k in keys if w_dict[k] != 0]`; a key without a weight raises KeyError. */
  function WeightedKeys(keys: seq<string>, weights: map<string, real>): (r: Result<seq<string>, string>)
    ensures r.Ok? ==> forall k :: k in r.value ==> k in keys && k in weights && weights[k] != 0.0
    ensures r.Err? ==> r.error in keys && r.error !in weights
  {
    if keys == [] then Ok([])
    else if keys[0] !in weights then Err(keys[0])
    else match WeightedKeys(keys[1..], weights)
      case Err(e) => Err(e)
      case Ok(rest) => Ok((if weights[keys[0]] != 0.0 then [keys[0]] else []) + rest)
  }

  /** The comprehension raises on the first key without a weight; otherwise it keeps exactly the
      keys of non-zero weight, coupling keys included, in their order. */
  lemma {:induction false} WeightedKeysExact(keys: seq<string>, weights: map<string, real>)
    ensures WeightedKeys(keys, weights).Err? <==> exists i :: 0 <= i < |keys| && keys[i] !in weights
    ensures WeightedKeys(keys, weights).Err? ==>
      exists i :: 0 <= i < |keys| && keys[i] !in weights && WeightedKeys(keys, weights).error == keys[i] &&
        forall j :: 0 <= j < i ==> keys[j] in weights
    ensures WeightedKeys(keys, weights).Ok? ==>
      forall k :: k in WeightedKeys(keys, weights).value <==> k in keys && weights[k] != 0.0
  {
    if keys != [] {
      WeightedKeysExact(keys[1..], weights);
      assert keys == [keys[0]] + keys[1..];
      if keys[0] in weights && WeightedKeys(keys[1..], weights).Err? {
        var i :| 0 <= i < |keys[1..]| && keys[1..][i] !in weights &&
          WeightedKeys(keys[1..], weights).error == keys[1..][i] &&
          forall j :: 0 <= j < i ==> keys[1..][j] in weights;
        assert keys[i + 1] == keys[1..][i];
      }
    }
  }

  /** The measurement files; the file-name stems and the extension are constants of another
      module and stay symbolic. */
  datatype Stem = PhaseStem | DispersionStem | NormDispStem | BetaStem(fileName: string)

  /** Where a measurement comes from: the file of a stem and a plane letter, or the fractional
      tunes Q1 and Q2 read from a phase file, with a fixed error. */
  datatype Source = Read(stem: Stem, plane: char) | Tunes(stem: Stem, plane: char, error: real)

  const COUPLING_KEYS: seq<string> := ["F1001R", "F1001I", "F1010R", "F1010I"]
  const TUNE_ERROR: real := 0.001

  predicate StartsWith(s: string, p: string)
  {
    |p| <= |s| && s[..|p|] == p
  }

  /** `str.lower()` on one character (ASCII letters). */
  function Lower(c: char): (r: char)
    ensures 'A' <= c <= 'Z' ==> 'a' <= r <= 'z'
    ensures !('A' <= c <= 'Z') ==> r == c
  {
    if 'A' <= c <= 'Z' then (c as int - 'A' as int + 'a' as int) as char else c
  }

  /** The plane letter of a key: its last character, lower-cased. */
  function PlaneOf(key: string): char
    requires key != []
  {
    Lower(key[|key| - 1])
  }

  /** Which source an optics parameter is read from, by the first test of the chain in lines
      136-153 that it passes; None for the coupling keys and for keys no test accepts. */
  function Dispatch(key: string, betaFileName: string): (r: Option<Source>)
    ensures r.Some? && r.value.Read? ==> key != [] && r.value.plane == PlaneOf(key)
  {
    if StartsWith(key, "MU") then Some(Read(PhaseStem, PlaneOf(key)))
    else if StartsWith(key, "D") then Some(Read(DispersionStem, PlaneOf(key)))
    else if key == "NDX" then Some(Read(NormDispStem, PlaneOf(key)))
    else if key in COUPLING_KEYS then None
    else if key == "Q" then Some(Tunes(PhaseStem, 'x', TUNE_ERROR))
    else if StartsWith(key, "BET") then Some(Read(BetaStem(betaFileName), PlaneOf(key)))
    else None
  }

  /** The measurement dictionary the loop builds from the kept keys. */
  function Measurements(kept: seq<string>, betaFileName: string): (r: map<string, Source>)
    ensures forall k :: k in r ==> k in kept
    ensures forall k :: k in r && r[k].Read? ==> k != [] && r[k].plane == PlaneOf(k)
  {
    map k | k in kept && Dispatch(k, betaFileName).Some? :: Dispatch(k, betaFileName).value
  }

  /** Every kept key of a known kind gets its source: the phase file for "MU…", the dispersion
      file for "D…", the normalised-dispersion file for "NDX", the fractional tunes of the x
      phase file for "Q" and the beta file for "BET…", each file with the key's plane letter; the
      coupling keys stay in the key list but get no measurement. */
  lemma MeasurementsBySource(kept: seq<string>, betaFileName: string, key: string)
    requires key in kept
    ensures StartsWith(key, "MU") ==> Measurements(kept, betaFileName)[key] == Read(PhaseStem, PlaneOf(key))
    ensures StartsWith(key, "D") ==> Measurements(kept, betaFileName)[key] == Read(DispersionStem, PlaneOf(key))
    ensures key == "NDX" ==> Measurements(kept, betaFileName)[key] == Read(NormDispStem, 'x')
    ensures key == "Q" ==> Measurements(kept, betaFileName)[key] == Tunes(PhaseStem, 'x', TUNE_ERROR)
    ensures StartsWith(key, "BET") ==>
      Measurements(kept, betaFileName)[key] == Read(BetaStem(betaFileName), PlaneOf(key))
    ensures key in COUPLING_KEYS ==> key !in Measurements(kept, betaFileName)
  {
    assert "NDX"[2] == 'X';
    if key in COUPLING_KEYS {
      assert key[0] == 'F' && |key| == 6;
      assert !StartsWith(key, "MU") && !StartsWith(key, "D");
    } else if StartsWith(key, "D") {
      assert key[0] == 'D';
      assert !StartsWith(key, "MU");
    } else if StartsWith(key, "BET") {
      assert key[0] == 'B';
      assert !StartsWith(key, "MU") && !StartsWith(key, "D") && key != "NDX" && key != "Q";
    }
  }

  /** Reading one more key adds its source, if it has one. */
  lemma MeasurementsStep(prefix: seq<string>, key: string, betaFileName: string)
    ensures Measurements(prefix + [key], betaFileName) ==
      if Dispatch(key, betaFileName).Some?
      then Measurements(prefix, betaFileName)[key := Dispatch(key, betaFileName).value]
      else Measurements(prefix, betaFileName)
  {
  }

  /** Lines 133-154: the keys of non-zero weight, and for each of them the measurement it reads;
      a key without a weight raises KeyError. */
  method GetMeasurementData(keys: seq<string>, weights: map<string, real>, betaFileName: string)
    returns (r: Result<(seq<string>, map<string, Source>), string>)
    ensures r.Err? <==> WeightedKeys(keys, weights).Err?
    ensures r.Err? ==> r.error == WeightedKeys(keys, weights).error
    ensures r.Ok? ==> r.value.0 == WeightedKeys(keys, weights).value &&
                      r.value.1 == Measurements(r.value.0, betaFileName)
  {
    var filtered := WeightedKeys(keys, weights);
    if filtered.Err? {
      return Err(filtered.error);
    }
    var kept := filtered.value;
    var measurement: map<string, Source> := map[];
    var i := 0;
    while i < |kept|
      invariant 0 <= i <= |kept|
      invariant measurement == Measurements(kept[..i], betaFileName)
    {
      var key := kept[i];
      if StartsWith(key, "MU") {
        measurement := measurement[key := Read(PhaseStem, PlaneOf(key))];
      } else if StartsWith(key, "D") {
        measurement := measurement[key := Read(DispersionStem, PlaneOf(key))];
      } else if key == "NDX" {
        measurement := measurement[key := Read(NormDispStem, PlaneOf(key))];
      } else if key in COUPLING_KEYS {
      } else if key == "Q" {
        measurement := measurement[key := Tunes(PhaseStem, 'x', TUNE_ERROR)];
      } else if StartsWith(key, "BET") {
        measurement := measurement[key := Read(BetaStem(betaFileName), PlaneOf(key))];
      }
      MeasurementsStep(kept[..i], key, betaFileName);
      assert kept[..i + 1] == kept[..i] + [key];
      i := i + 1;
    }
    assert kept[..|kept|] == kept;
    r := Ok((kept, measurement));
  }

  // ----- _load_fullresponse and _get_varlist (lines 114-128, 161-165) -----

  /** `[var for resp in full_response_data.values() for var in resp]`: the variables (columns)
      of every loaded response, in dictionary order. */
  function LoadedVars(responses: seq<seq<string>>): (r: seq<string>)
    ensures forall v :: v in r ==> exists q :: q in responses && v in q
  {
    if responses == [] then [] else responses[0] + LoadedVars(responses[1..])
  }

  lemma {:induction false} LoadedVarsExact(responses: seq<seq<string>>)
    ensures forall v :: v in LoadedVars(responses) <==> exists r :: r in responses && v in r
  {
    if responses != [] {
      LoadedVarsExact(responses[1..]);
      assert responses == [responses[0]] + responses[1..];
    }
  }

  lemma {:induction false} LoadedHas(responses: seq<seq<string>>, r: seq<string>, v: string)
    requires r in responses && v in r
    ensures v in LoadedVars(responses)
  {
    if responses[0] != r {
      assert r in responses[1..];
      LoadedHas(responses[1..], r, v);
    }
  }

  lemma {:induction false} LoadedFrom(responses: seq<seq<string>>, v: string)
    requires v in LoadedVars(responses)
    ensures exists r :: r in responses && v in r
  {
    if v !in responses[0] {
      LoadedFrom(responses[1..], v);
      var r :| r in responses[1..] && v in r;
      assert r in responses;
    }
  }

  const NO_VARIABLES_FOUND := "None of the given variables found in response matrix. Are you using the right categories?"
  const NO_VARIABLES_GIVEN := "No variables found! Make sure your categories are valid!"
  const SVD_CUT_NEEDED := "svd_cut setting needed for pseudo inverse method."
  const N_CORRECTORS_NEEDED := "n_correctors setting needed for orthogonal matching pursuit."

  /** The check of `_load_fullresponse` on the loaded responses (one list of variables per
      optics parameter). */
  function CheckFullResponse(responses: seq<seq<string>>, variables: seq<string>)
    : (r: Result<seq<seq<string>>, string>)
    ensures r.Ok? ==> r.value == responses
    ensures variables == [] ==> r == Err(NO_VARIABLES_FOUND)
  {
    if exists v :: v in variables && v in LoadedVars(responses) then Ok(responses)
    else Err(NO_VARIABLES_FOUND)
  }

  /** ValueError exactly when no requested variable is a column of any loaded response (in
      particular when no variable is requested at all). */
  lemma FullResponseRaises(responses: seq<seq<string>>, variables: seq<string>)
    ensures CheckFullResponse(responses, variables).Err? <==>
      forall v, r :: v in variables && r in responses ==> v !in r
    ensures CheckFullResponse(responses, variables).Ok? ==> CheckFullResponse(responses, variables).value == responses
  {
    if CheckFullResponse(responses, variables).Err? {
      forall v, r | v in variables && r in responses ensures v !in r {
        if v in r {
          LoadedHas(responses, r, v);
        }
      }
    } else {
      var v :| v in variables && v in LoadedVars(responses);
      LoadedFrom(responses, v);
    }
  }

  function GetVarlist(variables: seq<string>): (r: Result<seq<string>, string>)
    ensures r.Err? <==> variables == []
    ensures r.Ok? ==> r.value == variables
  {
    if |variables| == 0 then Err(NO_VARIABLES_GIVEN) else Ok(variables)
  }

  // ----- _get_method_fun and the option checks (lines 198-214) -----

  /** The two correction methods with the option each needs. */
  datatype Method = PseudoInverse(svdCut: real) | MatchingPursuit(nCorrectors: int)

  datatype MethodError = UnknownMethod(name: string) | MissingOption(message: string)

  /** `_get_method_fun(method)` followed by the option check the chosen function starts with. */
  function MethodFun(name: string, svdCut: Option<real>, nCorrectors: Option<int>): (r: Result<Method, MethodError>)
    ensures r.Ok? ==> name == "pinv" || name == "omp"
    ensures r.Err? && r.error.UnknownMethod? <==> name != "pinv" && name != "omp"
  {
    if name == "pinv" then
      (if svdCut.None? then Err(MissingOption(SVD_CUT_NEEDED))
       else Ok(PseudoInverse(svdCut.value)))
    else if name == "omp" then
      (if nCorrectors.None? then Err(MissingOption(N_CORRECTORS_NEEDED))
       else Ok(MatchingPursuit(nCorrectors.value)))
    else Err(UnknownMethod(name))
  }

  /** Only "pinv" and "omp" are methods; each succeeds exactly when its own option is set and
      carries that option's value. */
  lemma MethodFunChoice(name: string, svdCut: Option<real>, nCorrectors: Option<int>)
    ensures MethodFun(name, svdCut, nCorrectors).Ok? <==>
      (name == "pinv" && svdCut.Some?) || (name == "omp" && nCorrectors.Some?)
    ensures MethodFun(name, svdCut, nCorrectors) == Err(UnknownMethod(name)) <==> name != "pinv" && name != "omp"
    ensures MethodFun(name, svdCut, nCorrectors).Ok? ==>
      (MethodFun(name, svdCut, nCorrectors).value.PseudoInverse? <==> name == "pinv")
    ensures name == "pinv" && svdCut.Some? ==> MethodFun(name, svdCut, nCorrectors) == Ok(PseudoInverse(svdCut.value))
    ensures name == "omp" && nCorrectors.Some? ==>
      MethodFun(name, svdCut, nCorrectors) == Ok(MatchingPursuit(nCorrectors.value))
  {
    assert "pinv"[0] != "omp"[0];
  }

  // ----- _join_columns (lines 259-261) -----

  /** What `_join_columns` raises: KeyError for a key without a measurement or a measurement
      without the column, ValueError from `np.concatenate` when there is nothing to join. */
  datatype JoinError = JoinKeyError(name: string) | NothingToJoin

  /** The list comprehension `[meas[key].loc[:, col].values for key in keys]`, concatenated:
      the lookups run in key order and the first one that fails raises KeyError. */
  function ColumnsOf(col: string, meas: map<string, map<string, seq<real>>>, keys: seq<string>)
    : (r: Result<seq<real>, JoinError>)
    ensures r.Err? ==> r.error.JoinKeyError? && (r.error.name == col || r.error.name in keys)
  {
    if keys == [] then Ok([])
    else if keys[0] !in meas then Err(JoinKeyError(keys[0]))
    else if col !in meas[keys[0]] then Err(JoinKeyError(col))
    else match ColumnsOf(col, meas, keys[1..])
      case Err(e) => Err(e)
      case Ok(rest) => Ok(meas[keys[0]][col] + rest)
  }

  /** `np.concatenate([...], axis=0)`: the columns one after the other, and ValueError on an
      empty list of keys. */
  function JoinColumns(col: string, meas: map<string, map<string, seq<real>>>, keys: seq<string>)
    : (r: Result<seq<real>, JoinError>)
    ensures keys == [] ==> r == Err(NothingToJoin)
    ensures r.Err? && r.error.JoinKeyError? ==> r.error.name == col || r.error.name in keys
  {
    match ColumnsOf(col, meas, keys)
    case Err(e) => Err(e)
    case Ok(v) => if keys == [] then Err(NothingToJoin) else Ok(v)
  }

  /** Whether every key has a measurement with the column. */
  predicate Joinable(col: string, meas: map<string, map<string, seq<real>>>, keys: seq<string>)
  {
    forall k :: k in keys ==> k in meas && col in meas[k]
  }

  /** The total length of the columns of `keys`. */
  function JoinedLength(col: string, meas: map<string, map<string, seq<real>>>, keys: seq<string>): nat
    requires Joinable(col, meas, keys)
  {
    if keys == [] then 0 else |meas[keys[0]][col]| + JoinedLength(col, meas, keys[1..])
  }

  lemma {:induction false} ColumnsOfLength(col: string, meas: map<string, map<string, seq<real>>>, keys: seq<string>)
    ensures ColumnsOf(col, meas, keys).Ok? <==> Joinable(col, meas, keys)
    ensures Joinable(col, meas, keys) ==> |ColumnsOf(col, meas, keys).value| == JoinedLength(col, meas, keys)
  {
    if keys != [] {
      ColumnsOfLength(col, meas, keys[1..]);
      assert keys == [keys[0]] + keys[1..];
    }
  }

  /** The join raises ValueError on no keys and KeyError when some key lacks its measurement or
      column; otherwise its length is the sum of the per-key lengths. */
  lemma JoinColumnsLength(col: string, meas: map<string, map<string, seq<real>>>, keys: seq<string>)
    ensures keys == [] ==> JoinColumns(col, meas, keys) == Err(NothingToJoin)
    ensures JoinColumns(col, meas, keys).Ok? <==> keys != [] && Joinable(col, meas, keys)
    ensures keys != [] && Joinable(col, meas, keys) ==>
      |JoinColumns(col, meas, keys).value| == JoinedLength(col, meas, keys)
  {
    ColumnsOfLength(col, meas, keys);
  }

  lemma {:induction false} ColumnsOfAppend(col: string, meas: map<string, map<string, seq<real>>>,
                                           a: seq<string>, b: seq<string>)
    requires Joinable(col, meas, a + b)
    ensures ColumnsOf(col, meas, a + b).Ok? && ColumnsOf(col, meas, a).Ok? && ColumnsOf(col, meas, b).Ok?
    ensures ColumnsOf(col, meas, a + b).value == ColumnsOf(col, meas, a).value + ColumnsOf(col, meas, b).value
  {
    ColumnsOfLength(col, meas, a + b);
    ColumnsOfLength(col, meas, b);
    if a == [] {
      assert a + b == b;
    } else {
      assert (a + b)[1..] == a[1..] + b;
      assert (a + b)[0] == a[0];
      ColumnsOfAppend(col, meas, a[1..], b);
    }
  }

  /** The join is a concatenation in key order: joining two non-empty key lists one after the
      other is joining their concatenation. */
  lemma JoinColumnsAppend(col: string, meas: map<string, map<string, seq<real>>>,
                          a: seq<string>, b: seq<string>)
    requires a != [] && b != [] && Joinable(col, meas, a + b)
    ensures JoinColumns(col, meas, a + b).Ok? && JoinColumns(col, meas, a).Ok? && JoinColumns(col, meas, b).Ok?
    ensures JoinColumns(col, meas, a + b).value == JoinColumns(col, meas, a).value + JoinColumns(col, meas, b).value
  {
    ColumnsOfAppend(col, meas, a, b);
  }

  // ----- writeparams and write_knob (lines 231-243) -----

  /** One line of a change-parameter file: `{var} = {var} {value:+e};`; the scientific
      formatting of the value is a parameter. */
  function ParamLine(v: Var, fmt: real -> string): string
  {
    v.name + " = " + v.name + " " + fmt(v.delta) + ";\n"
  }

  /** `-delta`: the same correctors with opposite changes. */
  function Negated(delta: seq<Var>): (r: seq<Var>)
    ensures |r| == |delta|
  {
    seq(|delta|, i requires 0 <= i < |delta| => Var(delta[i].name, -delta[i].delta))
  }

  /** Negating twice gives back the changes, and the negated file undoes the change file
      corrector by corrector. */
  lemma NegatedUndoes(delta: seq<Var>)
    ensures Negated(Negated(delta)) == delta
    ensures Names(Negated(delta)) == Names(delta)
    ensures forall i :: 0 <= i < |delta| ==> delta[i].delta + Negated(delta)[i].delta == 0.0
  {
    assert Negated(Negated(delta)) == delta;
  }

  /** The text of a change-parameter file: one line per corrector, in the order of the DELTA
      frame. This is the specification of `WriteParams`, and the form in which `Correct`
      states what it writes. */
  function ParamFile(delta: seq<Var>, fmt: real -> string): (r: seq<string>)
    ensures |r| == |delta| && forall i :: 0 <= i < |delta| ==> r[i] == ParamLine(delta[i], fmt)
  {
    seq(|delta|, i requires 0 <= i < |delta| => ParamLine(delta[i], fmt))
  }

  /** Lines 239-243, the loop of `writeparams`: it writes exactly `ParamFile(delta, fmt)`, one
      line per corrector, in the order of the DELTA frame. */
  method WriteParams(delta: seq<Var>, fmt: real -> string) returns (lines: seq<string>)
    ensures lines == ParamFile(delta, fmt)
    ensures |lines| == |delta|
    ensures forall i :: 0 <= i < |delta| ==> lines[i] == ParamLine(delta[i], fmt)
  {
    lines := [];
    for i := 0 to |delta|
      invariant |lines| == i
      invariant forall k :: 0 <= k < i ==> lines[k] == ParamLine(delta[k], fmt)
    {
      var v := delta[i];
      lines := lines + [v.name + " = " + v.name + " " + fmt(v.delta) + ";\n"];
    }
  }

  /** Every line names its corrector twice and ends with ";": it reads `name = name <change>;`. */
  lemma ParamLineShape(v: Var, fmt: real -> string)
    ensures StartsWith(ParamLine(v, fmt), v.name + " = " + v.name + " ")
    ensures |ParamLine(v, fmt)| >= 2 && ParamLine(v, fmt)[|ParamLine(v, fmt)| - 2..] == ";\n"
  {
    var p := v.name + " = " + v.name + " ";
    assert ParamLine(v, fmt) == p + (fmt(v.delta) + ";\n");
  }

  // ----- the iteration of `correct` (lines 46-86) -----

  /** `delta += step`: the frames share the corrector index, so values add position by
      position. */
  function AddStep(delta: seq<Var>, step: seq<real>): (r: seq<Var>)
    requires |step| == |delta|
    ensures Names(r) == Names(delta)
  {
    seq(|delta|, i requires 0 <= i < |delta| => Var(delta[i].name, delta[i].delta + step[i]))
  }

  /** The changes after `k` iterations: zero for every variable before the first, then each
      iteration adds its step (computed on the current variable list) and drops the weak
      correctors. */
  function AfterIterations(vars: seq<string>, k: nat, step: (nat, seq<string>) -> seq<real>,
                           minStrength: real): seq<Var>
    requires forall it: nat, vs: seq<string> :: |step(it, vs)| == |vs|
  {
    if k == 0 then seq(|vars|, i requires 0 <= i < |vars| => Var(vars[i], 0.0))
    else
      var before := AfterIterations(vars, k - 1, step, minStrength);
      Stronger(AddStep(before, step(k - 1, Names(before))), minStrength)
  }

  /** After at least one iteration every remaining corrector is one of the original variables
      and its accumulated change exceeds the minimum strength. */
  lemma {:induction false} AfterIterationsStrong(vars: seq<string>, k: nat,
                                                 step: (nat, seq<string>) -> seq<real>, minStrength: real)
    requires forall it: nat, vs: seq<string> :: |step(it, vs)| == |vs|
    ensures forall v :: v in AfterIterations(vars, k, step, minStrength) ==> v.name in vars
    ensures k > 0 ==> forall v :: v in AfterIterations(vars, k, step, minStrength) ==> Abs(v.delta) > minStrength
  {
    if k > 0 {
      AfterIterationsStrong(vars, k - 1, step, minStrength);
      var before := AfterIterations(vars, k - 1, step, minStrength);
      var added := AddStep(before, step(k - 1, Names(before)));
      StrongerExact(added, minStrength);
      AddStepKeepsNames(before, step(k - 1, Names(before)), vars);
    } else {
      InitialNames(vars, step, minStrength);
    }
  }

  lemma AddStepKeepsNames(before: seq<Var>, st: seq<real>, vars: seq<string>)
    requires |st| == |before| && forall u :: u in before ==> u.name in vars
    ensures forall v :: v in AddStep(before, st) ==> v.name in vars
  {
    forall v | v in AddStep(before, st) ensures v.name in vars {
      var i :| 0 <= i < |before| && AddStep(before, st)[i] == v;
      assert before[i] in before;
    }
  }

  lemma InitialNames(vars: seq<string>, step: (nat, seq<string>) -> seq<real>, minStrength: real)
    requires forall it: nat, vs: seq<string> :: |step(it, vs)| == |vs|
    ensures forall v :: v in AfterIterations(vars, 0, step, minStrength) ==> v.name in vars
  {
    forall v | v in AfterIterations(vars, 0, step, minStrength) ensures v.name in vars {
      var i :| 0 <= i < |vars| && AfterIterations(vars, 0, step, minStrength)[i] == v;
    }
  }

  /** What one run of `correct` leaves behind. */
  datatype Outcome = Outcome(delta: seq<Var>, modelUpdates: seq<nat>, changeLines: seq<string>,
                             correctLines: seq<string>, knob: seq<Var>)

  /** Lines 46-86: `max_iter + 1` iterations; from the second one on the model is first updated
      from the change file (the iteration numbers are recorded); each iteration adds its step,
      drops the weak correctors and rewrites the change file (+delta) and the correct file
      (-delta); the knob receives -delta. */
  method Correct(vars: seq<string>, maxIter: nat, step: (nat, seq<string>) -> seq<real>,
                 minStrength: real, fmt: real -> string) returns (out: Outcome)
    requires forall it: nat, vs: seq<string> :: |step(it, vs)| == |vs|
    ensures out.delta == AfterIterations(vars, maxIter + 1, step, minStrength)
    ensures |out.modelUpdates| == maxIter && forall i :: 0 <= i < maxIter ==> out.modelUpdates[i] == i + 1
    ensures out.changeLines == ParamFile(out.delta, fmt)
    ensures out.correctLines == ParamFile(Negated(out.delta), fmt)
    ensures out.knob == Negated(out.delta)
  {
    var delta := AfterIterations(vars, 0, step, minStrength);
    var varsList := vars;
    var updates: seq<nat> := [];
    var changeLines: seq<string> := [];
    var correctLines: seq<string> := [];
    for iteration := 0 to maxIter + 1
      invariant delta == AfterIterations(vars, iteration, step, minStrength)
      invariant varsList == Names(delta)
      invariant |updates| == if iteration == 0 then 0 else iteration - 1
      invariant forall i :: 0 <= i < |updates| ==> updates[i] == i + 1
      invariant iteration > 0 ==> changeLines == ParamFile(delta, fmt)
      invariant iteration > 0 ==> correctLines == ParamFile(Negated(delta), fmt)
    {
      if iteration > 0 {
        updates := updates + [iteration];
      }
      delta := Stronger(AddStep(delta, step(iteration, varsList)), minStrength);
      varsList := Names(delta);
      changeLines := WriteParams(delta, fmt);
      correctLines := WriteParams(Negated(delta), fmt);
      assert changeLines == ParamFile(delta, fmt);
      assert correctLines == ParamFile(Negated(delta), fmt);
    }
    out := Outcome(delta, updates, changeLines, correctLines, Negated(delta));
  }
}
