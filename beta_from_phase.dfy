/** The bookkeeping of `calculate` and `n_bpm_method` in beta_from_phase.py around the physics:
    the choice of the error method (lines 61-74), the output header (lines 363-368) and the
    per-BPM results table with its NCOMB filter (lines 134-136, 192-208). */
module BetaFromPhase {
  import opened Wrappers
  import opened Uncertainties

  const METH_3BPM: string := "3BPM method"
  const METH_A_NBPM: string := "Analytical N-BPM method"
  const METH_NO_ERR: string := "No Errors"
  const VERSION: string := "2019.0.a"
  const RCOND: real := 0.0000000001

  /** The two exceptions `calculate` can raise before any beta is computed. */
  datatype CalcError = IOError | KeyError(key: string)

  // ----- the error method (lines 61-74) -----

  /** `errorDefs` is the content of the error-definition file, None when the accelerator has no
      such file. */
  function ErrorMethod(threeBpm: bool, errorDefs: Option<seq<ErrorDef>>, elems: seq<Element>,
                       matches: (string, string) -> bool): (r: Result<string, CalcError>)
    ensures r.Ok? ==> r.value == METH_3BPM || r.value == METH_A_NBPM || r.value == METH_NO_ERR
    ensures r == Ok(METH_3BPM) <==> threeBpm
    ensures r == Err(IOError) <==> !threeBpm && errorDefs.None?
    ensures r.Err? && r.error.KeyError? ==> !HasName(elems, r.error.key)
  {
    if threeBpm then Ok(METH_3BPM)
    else match errorDefs
      case None => Err(IOError)
      case Some(defs) =>
        match Assigned(elems, defs, matches, Doubled)
        case Err(key) => Err(KeyError(key))
        case Ok(kept) => Ok(if exists x :: x in kept && HasError(x) then METH_A_NBPM else METH_NO_ERR)
  }

  /** The 3-BPM flag wins; otherwise a missing error-definition file raises IOError, a `key:`
      definition naming no element raises KeyError, and the analytical N-BPM method is used
      exactly when some element of the lattice received a dK1, dX or KdS error. */
  lemma ErrorMethodChoice(threeBpm: bool, errorDefs: Option<seq<ErrorDef>>, elems: seq<Element>,
                          matches: (string, string) -> bool)
    ensures threeBpm ==> ErrorMethod(threeBpm, errorDefs, elems, matches) == Ok(METH_3BPM)
    ensures !threeBpm && errorDefs.None? ==> ErrorMethod(threeBpm, errorDefs, elems, matches) == Err(IOError)
    ensures !threeBpm && errorDefs.Some? ==>
      (ErrorMethod(threeBpm, errorDefs, elems, matches).Err? <==>
        FirstMissing(errorDefs.value, elems).Some?)
    ensures !threeBpm && errorDefs.Some? ==>
      (ErrorMethod(threeBpm, errorDefs, elems, matches) == Ok(METH_A_NBPM) <==>
        FirstMissing(errorDefs.value, elems).None? &&
        exists j :: 0 <= j < |elems| && HasError(RowAfter(elems[j], errorDefs.value, matches, Doubled)))
    ensures !threeBpm && errorDefs.Some? ==>
      (ErrorMethod(threeBpm, errorDefs, elems, matches) == Ok(METH_NO_ERR) <==>
        FirstMissing(errorDefs.value, elems).None? &&
        forall j :: 0 <= j < |elems| ==> !HasError(RowAfter(elems[j], errorDefs.value, matches, Doubled)))
  {
    if !threeBpm && errorDefs.Some? {
      MethodFromDefinitions(errorDefs.value, elems, matches);
    }
  }

  /** With an error-definition file: KeyError exactly when a `key:` label is missing, else the
      method says whether any element received an error. */
  lemma MethodFromDefinitions(defs: seq<ErrorDef>, elems: seq<Element>,
                              matches: (string, string) -> bool)
    ensures ErrorMethod(false, Some(defs), elems, matches).Err? <==> FirstMissing(defs, elems).Some?
    ensures ErrorMethod(false, Some(defs), elems, matches) == Ok(METH_A_NBPM) <==>
      FirstMissing(defs, elems).None? &&
      exists j :: 0 <= j < |elems| && HasError(RowAfter(elems[j], defs, matches, Doubled))
    ensures ErrorMethod(false, Some(defs), elems, matches) == Ok(METH_NO_ERR) <==>
      FirstMissing(defs, elems).None? &&
      forall j :: 0 <= j < |elems| ==> !HasError(RowAfter(elems[j], defs, matches, Doubled))
  {
    if FirstMissing(defs, elems).None? {
      KeptRowsKeepEveryError(elems, defs, matches, Doubled);
      assert Assigned(elems, defs, matches, Doubled) == Ok(KeepMarked(Mark(Rows(elems, defs, matches, Doubled))));
    }
  }

  // ----- the header (lines 363-368) -----

  /** A header value of the output file. */
  datatype HeaderValue = Text(text: string) | Number(x: real) | Count(n: int)

  /** The keys `_get_header` writes. */
  const FIXED_KEYS: set<string> := {"BetaAlgorithmVersion", "RCond", "RangeOfBPMs", "ErrorsFrom:", "RMS_BETABEAT"}

  /** `_get_header` on a copy of the common header; `rmsText` is the beta-beating already
      formatted with three decimals. */
  function Header(common: map<string, HeaderValue>, errorMethod: string, rangeOfBpms: int,
                  rmsText: string): (r: map<string, HeaderValue>)
    ensures r.Keys == common.Keys + FIXED_KEYS
    ensures forall k :: k in common && k !in FIXED_KEYS ==> r[k] == common[k]
    ensures r["RangeOfBPMs"] == Text("Adjacent") <==> errorMethod == METH_3BPM
    ensures errorMethod != METH_3BPM ==> r["RangeOfBPMs"] == Count(rangeOfBpms)
    ensures r["ErrorsFrom:"] == Text(errorMethod)
    ensures r["RMS_BETABEAT"] == Text(rmsText + " %")
    ensures r["BetaAlgorithmVersion"] == Text(VERSION) && r["RCond"] == Number(RCOND)
  {
    common["BetaAlgorithmVersion" := Text(VERSION)]["RCond" := Number(RCOND)]
      ["RangeOfBPMs" := if errorMethod == METH_3BPM then Text("Adjacent") else Count(rangeOfBpms)]
      ["ErrorsFrom:" := Text(errorMethod)]["RMS_BETABEAT" := Text(rmsText + " %")]
  }

  // ----- the per-BPM results and the NCOMB filter (lines 134-136, 192-208) -----

  /** What the N-BPM loop has for one probed BPM once its combinations are evaluated: the beta
      and alpha of each combination and the two covariance matrices T·V·Tᵀ. */
  datatype ProbeFit = ProbeFit(betas: seq<real>, alphas: seq<real>,
                               vBeta: seq<seq<real>>, vAlpha: seq<seq<real>>)

  /** `np.any(matrix)`. */
  predicate AnyNonzero(v: seq<seq<real>>)
  {
    exists i, j :: 0 <= i < |v| && 0 <= j < |v[i]| && v[i][j] != 0.0
  }

  /** `_covariant_weighting` (a pseudo-inverse) is a parameter giving the weighted value and its
      error, or None for the ValueError it raises when the entries of the pseudo-inverse sum to
      zero (lines 316-317). */
  type Weighting = (seq<seq<real>>, seq<real>) -> Option<(real, real)>

  /** The exception that leaves `n_bpm_method`: the weighting's ValueError is not caught. */
  datatype NBpmError = ValueError

  /** Line 192: a BPM gets results only when both covariance matrices have a non-zero entry. */
  predicate Covaried(f: ProbeFit)
  {
    AnyNonzero(f.vBeta) && AnyNonzero(f.vAlpha)
  }

  /** One row of the result table. */
  datatype BetaRow = BetaRow(bpm: nat, beta: real, betaErr: real, alpha: real, alphaErr: real,
                             nComb: nat)

  /** Lines 192-194: a BPM whose matrices are both non-zero is weighted, and the weighting of
      its betas or of its alphas raises. */
  predicate Fails(f: ProbeFit, w: Weighting)
  {
    Covaried(f) && (w(f.vBeta, f.betas).None? || w(f.vAlpha, f.alphas).None?)
  }

  /** Row `bpm` of the table once the loop has run: the weighted results, or the zeros the table
      was created with when the BPM was skipped. */
  function RowOf(bpm: nat, f: ProbeFit, w: Weighting): BetaRow
    requires !Fails(f, w)
  {
    if Covaried(f) then
      var b := w(f.vBeta, f.betas).value;
      var a := w(f.vAlpha, f.alphas).value;
      BetaRow(bpm, b.0, b.1, a.0, a.1, |f.betas|)
    else BetaRow(bpm, 0.0, 0.0, 0.0, 0.0, 0)
  }

  function Table(fits: seq<ProbeFit>, w: Weighting): (t: seq<BetaRow>)
    requires forall k :: 0 <= k < |fits| ==> !Fails(fits[k], w)
    ensures |t| == |fits|
  {
    seq(|fits|, k requires 0 <= k < |fits| => RowOf(k, fits[k], w))
  }

  /** What `n_bpm_method` returns: the ValueError of the first failing weighting, otherwise the
      rows with NCOMB > 0. */
  function NBpmOutcome(fits: seq<ProbeFit>, w: Weighting): (r: Result<seq<BetaRow>, NBpmError>)
    ensures r.Ok? <==> forall k :: 0 <= k < |fits| ==> !Fails(fits[k], w)
  {
    if exists k :: 0 <= k < |fits| && Fails(fits[k], w) then Err(ValueError)
    else Ok(WithCombinations(Table(fits, w)))
  }

  /** `beta_df.loc[beta_df["NCOMB"] > 0]`. */
  function WithCombinations(t: seq<BetaRow>): seq<BetaRow>
  {
    if t == [] then [] else (if t[0].nComb > 0 then [t[0]] else []) + WithCombinations(t[1..])
  }

  /** The filter keeps exactly the rows with NCOMB > 0, in table order. */
  lemma {:induction false} WithCombinationsExact(t: seq<BetaRow>)
    requires forall a, b :: 0 <= a < b < |t| ==> t[a].bpm < t[b].bpm
    ensures forall r :: r in WithCombinations(t) <==> r in t && r.nComb > 0
    ensures forall a, b :: 0 <= a < b < |WithCombinations(t)| ==>
      WithCombinations(t)[a].bpm < WithCombinations(t)[b].bpm
  {
    if t != [] {
      WithCombinationsExact(t[1..]);
      assert forall r :: r in t[1..] ==> t[0].bpm < r.bpm;
    }
  }

  /** The table raises ValueError exactly when some weighted BPM's weighting fails; otherwise
      the returned rows are exactly the BPMs that were weighted and have at least one
      combination, each with its own weighted results, in BPM order. */
  lemma KeptRows(fits: seq<ProbeFit>, w: Weighting)
    ensures NBpmOutcome(fits, w) == Err(ValueError) <==> exists k :: 0 <= k < |fits| && Fails(fits[k], w)
    ensures NBpmOutcome(fits, w).Ok? ==>
      (forall r :: r in NBpmOutcome(fits, w).value <==>
        r.bpm < |fits| && Covaried(fits[r.bpm]) && |fits[r.bpm].betas| > 0 && r == RowOf(r.bpm, fits[r.bpm], w)) &&
      (forall a, b :: 0 <= a < b < |NBpmOutcome(fits, w).value| ==>
        NBpmOutcome(fits, w).value[a].bpm < NBpmOutcome(fits, w).value[b].bpm)
  {
    if NBpmOutcome(fits, w).Ok? {
      KeptRowsOfTable(fits, w);
    }
  }

  lemma KeptRowsOfTable(fits: seq<ProbeFit>, w: Weighting)
    requires forall k :: 0 <= k < |fits| ==> !Fails(fits[k], w)
    ensures forall r :: r in WithCombinations(Table(fits, w)) <==>
      r.bpm < |fits| && Covaried(fits[r.bpm]) && |fits[r.bpm].betas| > 0 && r == RowOf(r.bpm, fits[r.bpm], w)
    ensures forall a, b :: 0 <= a < b < |WithCombinations(Table(fits, w))| ==>
      WithCombinations(Table(fits, w))[a].bpm < WithCombinations(Table(fits, w))[b].bpm
  {
    var t := Table(fits, w);
    WithCombinationsExact(t);
    forall r | r in t ensures r.bpm < |fits| && r == RowOf(r.bpm, fits[r.bpm], w) {
      var k :| 0 <= k < |t| && t[k] == r;
    }
    forall r: BetaRow | r.bpm < |fits| && Covaried(fits[r.bpm]) && |fits[r.bpm].betas| > 0 &&
               r == RowOf(r.bpm, fits[r.bpm], w)
      ensures r in WithCombinations(t)
    {
      assert t[r.bpm] == r;
    }
  }

  /** When each covariance matrix has one row per combination (as T·V·Tᵀ does), a BPM is
      returned exactly when both of its matrices are non-zero. */
  lemma KeptIffCovaried(fits: seq<ProbeFit>, w: Weighting, i: nat)
    requires i < |fits| && |fits[i].vBeta| == |fits[i].betas|
    ensures NBpmOutcome(fits, w).Ok? ==>
      (Covaried(fits[i]) <==> RowOf(i, fits[i], w) in NBpmOutcome(fits, w).value)
  {
    if NBpmOutcome(fits, w).Err? {
      return;
    }
    KeptRowsOfTable(fits, w);
    if Covaried(fits[i]) {
      var a, b :| 0 <= a < |fits[i].vBeta| && 0 <= b < |fits[i].vBeta[a]| && fits[i].vBeta[a][b] != 0.0;
      assert Table(fits, w)[i] == RowOf(i, fits[i], w);
    }
  }

  /** Row k of the `betas_alfas` array together with its NCOMB entry. */
  function TableRow(betasAlfas: array2<real>, nComb: array<nat>, k: nat): BetaRow
    requires betasAlfas.Length0 == nComb.Length && betasAlfas.Length1 == 4 && k < nComb.Length
    reads betasAlfas, nComb
  {
    BetaRow(k, betasAlfas[k, 0], betasAlfas[k, 1], betasAlfas[k, 2], betasAlfas[k, 3], nComb[k])
  }

  /** Lines 134-136 and 142-208: the results table starts at zero, the row of every weighted BPM
      is filled in, and only the rows with NCOMB > 0 are returned; a failing weighting raises
      out of the loop. */
  method NBpmTable(fits: seq<ProbeFit>, w: Weighting) returns (rows: Result<seq<BetaRow>, NBpmError>)
    ensures rows == NBpmOutcome(fits, w)
  {
    var n := |fits|;
    var betasAlfas := new real[n, 4]((_, _) => 0.0);
    var nComb := new nat[n](_ => 0);
    var indx := 0;
    while indx < n
      invariant 0 <= indx <= n
      invariant forall k :: 0 <= k < indx ==> !Fails(fits[k], w)
      invariant forall k :: 0 <= k < indx ==> TableRow(betasAlfas, nComb, k) == RowOf(k, fits[k], w)
      invariant forall k :: indx <= k < n ==> TableRow(betasAlfas, nComb, k) == BetaRow(k, 0.0, 0.0, 0.0, 0.0, 0)
    {
      var failed := FillRow(betasAlfas, nComb, fits[indx], w, indx);
      if failed {
        assert Fails(fits[indx], w);
        return Err(ValueError);
      }
      indx := indx + 1;
    }
    var table := seq(n, k reads betasAlfas, nComb requires 0 <= k < n => TableRow(betasAlfas, nComb, k));
    FilledTable(fits, w, table);
    rows := Ok(WithCombinations(table));
  }

  /** One pass of the loop body for the BPM at `indx`: a failing weighting is reported, and
      otherwise that BPM's row is written when it is covaried; the other rows are kept. */
  method FillRow(betasAlfas: array2<real>, nComb: array<nat>, f: ProbeFit, w: Weighting, indx: nat)
    returns (failed: bool)
    requires betasAlfas.Length0 == nComb.Length && betasAlfas.Length1 == 4 && indx < nComb.Length
    requires TableRow(betasAlfas, nComb, indx) == BetaRow(indx, 0.0, 0.0, 0.0, 0.0, 0)
    modifies betasAlfas, nComb
    ensures failed <==> Fails(f, w)
    ensures !failed ==> TableRow(betasAlfas, nComb, indx) == RowOf(indx, f, w)
    ensures forall k :: 0 <= k < nComb.Length && k != indx ==>
      TableRow(betasAlfas, nComb, k) == old(TableRow(betasAlfas, nComb, k))
  {
    if AnyNonzero(f.vBeta) && AnyNonzero(f.vAlpha) {
      var b := w(f.vBeta, f.betas);
      var a := w(f.vAlpha, f.alphas);
      if b.None? || a.None? {
        return true;
      }
      StoreRow(betasAlfas, nComb, RowOf(indx, f, w));
    }
    failed := false;
  }

  /** Once every row is filled without a failure, the table is the one `NBpmOutcome` filters. */
  lemma FilledTable(fits: seq<ProbeFit>, w: Weighting, table: seq<BetaRow>)
    requires forall k :: 0 <= k < |fits| ==> !Fails(fits[k], w)
    requires |table| == |fits| && forall k :: 0 <= k < |fits| ==> table[k] == RowOf(k, fits[k], w)
    ensures NBpmOutcome(fits, w) == Ok(WithCombinations(table))
  {
    assert table == Table(fits, w);
  }

  /** `betas_alfas[indx, :] = …` and `ncomb[indx] = …`: one row written, the others kept. */
  method StoreRow(betasAlfas: array2<real>, nComb: array<nat>, r: BetaRow)
    requires betasAlfas.Length0 == nComb.Length && betasAlfas.Length1 == 4 && r.bpm < nComb.Length
    modifies betasAlfas, nComb
    ensures forall k :: 0 <= k < nComb.Length ==>
      TableRow(betasAlfas, nComb, k) == if k == r.bpm then r else old(TableRow(betasAlfas, nComb, k))
  {
    betasAlfas[r.bpm, 0] := r.beta;
    betasAlfas[r.bpm, 1] := r.betaErr;
    betasAlfas[r.bpm, 2] := r.alpha;
    betasAlfas[r.bpm, 3] := r.alphaErr;
    nComb[r.bpm] := r.nComb;
  }
}
