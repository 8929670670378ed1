# omc3 bookkeeping core, modelled and verified in Dafny

omc3 is a beam-optics analysis package for the LHC. Most of it is floating-point physics:
cotangents of phase advances, pseudo-inverses, SciPy fits and square roots. This project models
the discrete bookkeeping around that physics and proves what the code promises about it.
The physics itself enters as function parameters.

Five source files are modelled:

- **Beta from phase** (`omc3/optics_measurements/beta_from_phase.py`). Modules `PhaseTilt`,
  `NBpmWindow`, `NBpmCombinations`, `SensitivityLine`, `Uncertainties` and `BetaFromPhase`:
  - the in-place "tilt and slice" of the phase-advance matrix used by the 3-BPM method;
  - the circular window of BPMs around the probed BPM in the N-BPM method, with its tune
    corrections and the matching window of lattice elements;
  - the selection of BPM pairs (`index_tuples`);
  - the layout of the per-combination sensitivity lines against the covariance diagonal;
  - the assignment of systematic errors from an error-definition file, including the
    "last definition wins" rule, the cyclic roll of KdS and the final row filter;
  - the choice of the error method, the output header and the NCOMB filter of the results
    table.
- **Global correction** (`omc3/correction/handler.py`). Module `CorrectionHandler`:
  - the corrector strength filter;
  - the weight filter and the file dispatch of measurement keys;
  - the response and variable-list checks;
  - the method lookup with its option checks;
  - the joining of measurement columns;
  - the change-parameter files and the knob with their signs;
  - the accumulation of changes over the iterations of `correct`.
- **K-modulation** (`omc3/kmod/kmod_analysis.py`). Module `KmodAnalysis`:
  - the ± unit-perturbation sign table;
  - the reduction of perturbed results to an error;
  - `calc_betastar` with its column reordering, and `calc_beta_inst`;
  - the focusing/defocusing order of the two magnets;
  - the 17 waist fits;
  - the magnet frame, a class whose headers `calc_tune` and `calc_k` update in place, and the
    fit input built from it.
- **BBQ cleaning** (`omc3/tune_analysis/bbq_tools.py`). Module `BbqTools`:
  - the cut masks with inclusive bounds and NaN;
  - the "too few points" guard;
  - the check of the fine-cleaning parameters;
  - the blanking of cut points in a copy, and the fills;
  - the alignment of the centred moving average.
- **Detuning polynomial** (`omc3/tune_analysis/detuning_tools.py`). Module `DetuningTools`:
  evaluation of the polynomial, whose coefficient index is the power, checked against Horner's
  scheme, and the initial guess of the fit.

Shared conventions live in `common.dfy`:

- `Wrappers`: `Option` and `Result`, with one `Result` error for each exception the Python code
  raises;
- `PyOps`: Python slices, `np.roll`, `np.sign` and sums;
- `Floats`: a value that is a finite real or NaN, with numpy's comparisons, under which NaN
  compares false.

## Model

| member | source | states |
|---|---|---|
| PhaseTilt.TuneCorners | omc3/optics_measurements/beta_from_phase.py:478-479 | the corrected matrix keeps the input's shape |
| PhaseTilt.TuneCornersEntry | omc3/optics_measurements/beta_from_phase.py:478-479 | when the corners are disjoint (n ≥ 2s), the tune is added to the bottom-left s×s block, subtracted from the top-right block, and every other entry is unchanged |
| PhaseTilt.AddBlockInPlace | omc3/optics_measurements/beta_from_phase.py:478-479 | the in-place `matrix[rlo:rhi, clo:chi] += d` leaves the array equal to the block-updated old rows |
| PhaseTilt.TiltIndex | omc3/optics_measurements/beta_from_phase.py:477-480 | `circulant(invrange)[invrange]` is an n×n table of column indices in 0..n-1 |
| PhaseTilt.Circulant | omc3/optics_measurements/beta_from_phase.py:477 | `circulant(c)` is a square table of the length of c |
| PhaseTilt.CirculantColumns | omc3/optics_measurements/beta_from_phase.py:477 | the first column of the circulant is c, and column j is `np.roll(c, j)` |
| PhaseTilt.TiltIndexIsCyclicSum | omc3/optics_measurements/beta_from_phase.py:477-480 | the index table picks column (r + j) mod n in row j |
| PhaseTilt.GatherTiltAt | omc3/optics_measurements/beta_from_phase.py:480 | the fancy-indexed matrix holds `mat[j][(r+j) mod n]` at (r, j) |
| PhaseTilt.TiltSliceAt | omc3/optics_measurements/beta_from_phase.py:480-481 | after the roll by s and the slice to w rows, entry (r, j) is `mat[j][(j + r − s) mod n]` |
| PhaseTilt.TiltSlice | omc3/optics_measurements/beta_from_phase.py:480-481 | the roll and the row slice leave min(w, n) rows |
| PhaseTilt.TiltSliceRow | omc3/optics_measurements/beta_from_phase.py:480-481 | row r of the slice is row (r − s) mod n of the gathered matrix |
| PhaseTilt.GatherTiltShifted | omc3/optics_measurements/beta_from_phase.py:480 | row a mod n of the gathered matrix reads row j of the input at column (j + a) mod n |
| PhaseTilt.TiltSliceEntry | omc3/optics_measurements/beta_from_phase.py:465-481 | the result has min(w, n) rows of length n, and entry (r, j) is row j of the input read at column (j + r − s) mod n |
| PhaseTilt.TiltSliceDiagonal | omc3/optics_measurements/beta_from_phase.py:480-481 | row s of the result is the diagonal of the corrected input |
| PhaseTilt.TiltColumnIsRotatedRow | omc3/optics_measurements/beta_from_phase.py:468-475 | without the slice, column j of the result is a permutation (rotation) of row j of the input |
| PhaseTilt.TiltSliceMatrix | omc3/optics_measurements/beta_from_phase.py:465-481 | the input array is corrected in place (and nothing else changes), and the result is the tilted slice of the corrected matrix |
| NBpmWindow.WindowLayout | omc3/optics_measurements/beta_from_phase.py:137-164 | whichever branch runs, the window has 2m+1 entries; entry k is BPM (indx − m + k) mod n, adjusted by −tune when it wrapped from the end and by +tune when it wrapped from the start; the probed BPM sits unadjusted at position m |
| NBpmWindow.WindowLow | omc3/optics_measurements/beta_from_phase.py:147-148 | the branch for indx < m lays the window out as above |
| NBpmWindow.LowWindowEntry | omc3/optics_measurements/beta_from_phase.py:148 | entry k of the concatenation `row[n+indx−m:] − tune, row[:indx+m+1]` |
| NBpmWindow.WindowHigh | omc3/optics_measurements/beta_from_phase.py:153-154 | the branch for indx + m ≥ n lays the window out as above |
| NBpmWindow.HighWindowEntry | omc3/optics_measurements/beta_from_phase.py:154 | entry k of the concatenation `row[indx−m:], row[:indx+m+1−n] + tune` |
| NBpmWindow.WindowMiddle | omc3/optics_measurements/beta_from_phase.py:159-160 | the interior branch lays the window out as above |
| NBpmWindow.InteriorWindowUnadjusted | omc3/optics_measurements/beta_from_phase.py:159-160 | an interior window is the plain slice indx−m..indx+m, with no entry adjusted |
| NBpmWindow.Window | omc3/optics_measurements/beta_from_phase.py:147-164 | every entry of the window, in all three branches, is a column of the phase row |
| NBpmWindow.SliceInRing | omc3/optics_measurements/beta_from_phase.py:148-160 | a Python slice of the row reads only its columns |
| NBpmWindow.BranchesInRing | omc3/optics_measurements/beta_from_phase.py:147-164 | each branch's concatenation reads only columns of the row |
| NBpmWindow.SliceDistinct | omc3/optics_measurements/beta_from_phase.py:163 | a run of distinct element names repeats none |
| NBpmWindow.WrappedDistinct | omc3/optics_measurements/beta_from_phase.py:151-157 | the two pieces of a wrapped `outer_elmts` repeat no name when they do not overlap |
| NBpmWindow.OuterDistinct | omc3/optics_measurements/beta_from_phase.py:144-163 | `outer_elmts` repeats no name |
| NBpmWindow.GetLoc | omc3/optics_measurements/beta_from_phase.py:144-145 | `index.get_loc(name)` is the first position holding the name, and None (KeyError) iff the index does not hold it |
| NBpmWindow.GetLocDistinct | omc3/optics_measurements/beta_from_phase.py:144-145 | on distinct labels, `get_loc` of the label at position i is i |
| NBpmWindow.OuterElements | omc3/optics_measurements/beta_from_phase.py:144-163 | `outer_elmts` raises KeyError iff the first or the last window BPM is not a row of `elements` (the error names that BPM); otherwise it holds only rows of `elements` |
| NBpmWindow.LocsIn | omc3/optics_measurements/beta_from_phase.py:165 | the list of `get_loc` positions succeeds iff every name is in `outer_elmts`, and then position k is `get_loc` of name k; otherwise the KeyError names a missing name |
| NBpmWindow.MissingBpmRaises | omc3/optics_measurements/beta_from_phase.py:144-165 | a window BPM that is not a row of `elements` (not UNC-marked by the error assignment) makes the lookups raise KeyError for one of the window's BPMs |
| NBpmWindow.WindowIndex | omc3/optics_measurements/beta_from_phase.py:143-164 | window entry k is BPM b0+k or b0+k−n with b0 = (indx−m) mod n, and the wrapped branches run iff the window crosses the end of the ring |
| NBpmWindow.OuterPosAt | omc3/optics_measurements/beta_from_phase.py:151-163 | on lattice-ordered tables, window BPM k sits in `outer_elmts` at its row counted from the first BPM's row, across the wrap |
| NBpmWindow.ElementWindowHoldsBpms | omc3/optics_measurements/beta_from_phase.py:144-165 | with distinct element names in lattice order: the lookups succeed iff every window BPM is a row of `elements`; then there are 2m+1 positions, position k holds window BPM k in `outer_elmts`, and the positions strictly increase |
| NBpmCombinations.PassingPositionsExact | omc3/optics_measurements/beta_from_phase.py:170-175 | `loc_range[patter] + m` holds exactly the positions that pass the cot threshold on both cotangents, in increasing order |
| NBpmCombinations.PassingPositions | omc3/optics_measurements/beta_from_phase.py:170-175 | at most one position per index below the bound |
| NBpmCombinations.PassingPositionsMembers | omc3/optics_measurements/beta_from_phase.py:170-175 | a position is kept iff it is below the bound and passes on both cotangents |
| NBpmCombinations.PassingPositionsSorted | omc3/optics_measurements/beta_from_phase.py:170-175 | the kept positions increase and stay below the bound |
| NBpmCombinations.Pairs | omc3/optics_measurements/beta_from_phase.py:175-177 | every pair takes its x from the outer list and its y from the inner one |
| NBpmCombinations.IndexTuples | omc3/optics_measurements/beta_from_phase.py:170-177 | every selected pair (x, y) has x < y inside the window |
| NBpmCombinations.PairsWithExact | omc3/optics_measurements/beta_from_phase.py:175-177 | the inner loop yields (x, y) exactly for the y that pass the filter |
| NBpmCombinations.PairsExact | omc3/optics_measurements/beta_from_phase.py:175-177 | the double loop yields exactly the passing pairs accepted by the filter |
| NBpmCombinations.IndexTuplesExact | omc3/optics_measurements/beta_from_phase.py:170-177 | (x, y) is selected iff: both positions pass; x < y; the model cotangents differ by more than ZERO_THRESHOLD; and the model and measured differences have the same non-zero sign |
| NBpmCombinations.PairsWithSorted | omc3/optics_measurements/beta_from_phase.py:175 | the inner loop lists its pairs by increasing y |
| NBpmCombinations.PairsSorted | omc3/optics_measurements/beta_from_phase.py:175 | the double loop lists its pairs in lexicographic order |
| NBpmCombinations.IndexTuplesSorted | omc3/optics_measurements/beta_from_phase.py:175-177 | `index_tuples` is strictly lexicographically increasing, so it has no duplicates |
| NBpmCombinations.ProbedBpmNeverPaired | omc3/optics_measurements/beta_from_phase.py:169-175 | the probed BPM, whose model cotangent is not finite, is in no combination |
| SensitivityLine.BuildLine | omc3/optics_measurements/beta_from_phase.py:252-293 | the line built by zeros, the two phase assignments and the slice updates in program order holds `LineValue` at every position |
| SensitivityLine.SliceBlockAt | omc3/optics_measurements/beta_from_phase.py:284-293 | a slice update adds f·w[e] at off+e for the elements of its slice, and nothing outside them |
| SensitivityLine.EightBlocksFit | omc3/optics_measurements/beta_from_phase.py:249-293 | with the offset at most 2m+1, all eight slices stay inside the line of length 4·lng+2m+1 |
| SensitivityLine.BetaLine | omc3/optics_measurements/beta_from_phase.py:249-293 | `betaline` has length 4·lng+2m+1, and every entry is the phase terms plus the eight beta slices |
| SensitivityLine.AlphaLine | omc3/optics_measurements/beta_from_phase.py:249-307 | `alfaline` has length 4·lng+2m+1, and every entry is the phase terms plus the eight alpha slices |
| SensitivityLine.ContributionByGroup | omc3/optics_measurements/beta_from_phase.py:284-293 | the eight updates add up group by group (dK1, dX, KdS, mKdS) |
| SensitivityLine.GroupPairIn | omc3/optics_measurements/beta_from_phase.py:284-293 | at element e of group t, the group's two slices add their x and y terms |
| SensitivityLine.GroupPairOut | omc3/optics_measurements/beta_from_phase.py:284-293 | outside its lng positions, a group's two slices add nothing |
| SensitivityLine.GroupEntry | omc3/optics_measurements/beta_from_phase.py:275-293 | at element e of group g, only group g contributes |
| SensitivityLine.BelowBlocks | omc3/optics_measurements/beta_from_phase.py:275-293 | below off1 no slice update contributes |
| SensitivityLine.BetaLayout | omc3/optics_measurements/beta_from_phase.py:275-293 | the beta slices follow the group layout: factors fac1 and fac2 (negated for mKdS), with K2L on the dX group only |
| SensitivityLine.BetaLinePhases | omc3/optics_measurements/beta_from_phase.py:275-282 | for any offset of the first slice, every position below it holds the phase term at ix, the one at iy, and zero elsewhere; with the as-written offset range_of_bpms this covers all 2m+1 window positions when range_of_bpms is odd, and all but position 2m when it is even (see Findings) |
| SensitivityLine.BetaLineEntry | omc3/optics_measurements/beta_from_phase.py:275-293 | for any offset, at element e of group g the beta line holds the phase term of that position (non-zero only at ix or iy) plus fac1·bet_sin_ix[e] and fac2·bet_sin_iy[e], each only where its slice covers e (with K2L for dX, negated for mKdS); once the offset is past the window (above 2m) the phase term is absent |
| SensitivityLine.BetaLineQuadrupoleTerms | omc3/optics_measurements/beta_from_phase.py:275-293 | for any offset, the slice updates put a longitudinal misalignment in twice with opposite signs (KdS at the quadrupole, mKdS in front of it), and the KdS update equals the dK1 update; the line entries themselves do so when the offset is above 2m |
| SensitivityLine.MisalignmentTermsOpposite | omc3/optics_measurements/beta_from_phase.py:275-293 | for any offset, the mKdS update of each element is the negated KdS update; the line entries are too from offset 2m on, which includes the as-written offset range_of_bpms for odd and even ranges |
| SensitivityLine.GroupTermsOpposite | omc3/optics_measurements/beta_from_phase.py:290-293 | the element terms of the mKdS group are those of the KdS group, negated |
| SensitivityLine.MisalignmentTermIsGradientTerm | omc3/optics_measurements/beta_from_phase.py:275-291 | for any offset, the KdS update of each element equals its dK1 update; the line entries are equal when the offset is above 2m (at the offset 2m of an even range_of_bpms the first dK1 entry also holds the phase term of iy = 2m) |
| SensitivityLine.BetaGroupsAlike | omc3/optics_measurements/beta_from_phase.py:284-293 | the dK1 and KdS groups share factors and weights, and mKdS has the same weights with negated factors |
| SensitivityLine.DiagonalLayout | omc3/optics_measurements/beta_from_phase.py:171-173 | the diagonal has the line's length 4·lng+2m+1, and the error of element e of group g sits at 2m+1+g·lng+e |
| SensitivityLine.AsWrittenAlignedIffOdd | omc3/optics_measurements/beta_from_phase.py:275 | `off1 = range_of_bpms` matches the offset of the diagonal of lines 171-173, 2m+1 iff range_of_bpms is odd |
| SensitivityLine.EvenRangeMisaligned | omc3/optics_measurements/beta_from_phase.py:275-285 | for range_of_bpms = 10 the first dK1 term lands on the (lines 171-173) diagonal's last squared phase error, on top of the phase term at iy = 10 |
| SensitivityLine.IntendedBaseAligned | omc3/optics_measurements/beta_from_phase.py:275-293 | with the offset 2m+1, every element term of the beta line lands on the entry of the diagonal of lines 171-173 of the same element and error source |
| Uncertainties.BeforeColon | omc3/optics_measurements/beta_from_phase.py:339 | the label of `patt.split(":")[1]` is the longest colon-free prefix of the rest of the pattern |
| Uncertainties.FirstMissing | omc3/optics_measurements/beta_from_phase.py:337-345 | finds the first `key:` definition whose label is not in the table, and None iff there is none |
| Uncertainties.LastMatch | omc3/optics_measurements/beta_from_phase.py:335-351 | finds the last definition of a kind that selects the element, and None iff there is none |
| Uncertainties.LastDefinitionWins | omc3/optics_measurements/beta_from_phase.py:333-351 | applying the definitions in file order leaves each row as the last applicable definition of each kind sets it: dK1, dX (under the given dX rule: doubled as written, squared as corrected) and UNC from the last selecting definition; BPMdS from the last BPM one; KdS from the last non-BPM one; zero where none applies |
| Uncertainties.RowAfterStep | omc3/optics_measurements/beta_from_phase.py:335-351 | one more definition updates exactly the rows it selects |
| Uncertainties.UpdateRow | omc3/optics_measurements/beta_from_phase.py:340-350 | one definition marks the row, keeps its name, K1L and mKdS, leaves KdS on a BPM definition and BPMdS on any other |
| Uncertainties.RowAfter | omc3/optics_measurements/beta_from_phase.py:333-351 | the row keeps the element's name and K1L, and a row that no definition selected is the zero row |
| Uncertainties.KeepMarked | omc3/optics_measurements/beta_from_phase.py:359 | keeps exactly the rows with UNC set |
| Uncertainties.KeepMarkedAppend | omc3/optics_measurements/beta_from_phase.py:359 | the filter keeps row order: filtering a concatenation concatenates the filtered parts |
| Uncertainties.MarkExact | omc3/optics_measurements/beta_from_phase.py:355-357 | mKdS of element i is the KdS of its cyclic predecessor (element 0 gets the last one's); UNC is raised iff the row was selected or its cyclic successor has dK1 above 1e-12; nothing else changes |
| Uncertainties.MarkReadsRolls | omc3/optics_measurements/beta_from_phase.py:355-357 | the same stated through `np.roll(KdS, 1)` and `np.roll(dK1, -1)` |
| Uncertainties.Mark | omc3/optics_measurements/beta_from_phase.py:355-357 | marking keeps the length and the names, and a marked row stays marked |
| Uncertainties.RollPrevious | omc3/optics_measurements/beta_from_phase.py:355 | `np.roll(s, 1)[i]` is the cyclic predecessor of i |
| Uncertainties.RollNext | omc3/optics_measurements/beta_from_phase.py:356 | `np.roll(s, -1)[i]` is the cyclic successor of i |
| Uncertainties.AssignUncertainties | omc3/optics_measurements/beta_from_phase.py:322-359 | the loop over definitions, under the given dX rule, returns the KeyError of the first missing `key:` label, or the marked rows of the fully assigned table |
| Uncertainties.Assigned | omc3/optics_measurements/beta_from_phase.py:322-359 | a KeyError names a label that no element has; otherwise the kept rows are marked and no more than the elements |
| Uncertainties.KeepMarkedNone | omc3/optics_measurements/beta_from_phase.py:359 | a table without marked rows keeps nothing |
| Uncertainties.NoDefinitionsKeepNothing | omc3/optics_measurements/beta_from_phase.py:333-359 | without definitions no element is kept |
| Uncertainties.UnselectedRowHasNoError | omc3/optics_measurements/beta_from_phase.py:333-351 | a row with a dK1, dX or KdS error was selected by some definition |
| Uncertainties.KeptRowsKeepEveryError | omc3/optics_measurements/beta_from_phase.py:355-359 | the kept rows carry an error iff some element of the full table does, so the test of lines 69-70 reads the same either way |
| Uncertainties.ErrorRowKept | omc3/optics_measurements/beta_from_phase.py:356-359 | a marked row with an error stays marked and is kept |
| Uncertainties.DXAsWrittenIsNotAVariance | omc3/optics_measurements/beta_from_phase.py:346 | as written, dX = 0.5 stores 1.0 where the variance is 0.25, and a negative dX gives a negative diagonal entry |
| Uncertainties.DXVariance | omc3/optics_measurements/beta_from_phase.py:345-350 | the corrected dX column is a variance and is never negative |
| Uncertainties.DoubledTableHasNegativeEntry | omc3/optics_measurements/beta_from_phase.py:346 | as written, one `key:MQ` definition with dX = −0.001 leaves −0.002 in the dX column of the table |
| Uncertainties.SquaredTableIsVariance | omc3/optics_measurements/beta_from_phase.py:333-351 | under the corrected rule every error column of every assigned row (dK1, KdS, dX, BPMdS) is non-negative |
| BetaFromPhase.ErrorMethodChoice | omc3/optics_measurements/beta_from_phase.py:61-74 | the 3-BPM flag wins; otherwise a missing definition file raises IOError and a missing `key:` label raises KeyError; otherwise the method is "Analytical N-BPM" iff some element received a dK1, dX or KdS error, else "No Errors" |
| BetaFromPhase.MethodFromDefinitions | omc3/optics_measurements/beta_from_phase.py:65-74 | with a definition file: KeyError iff a label is missing, and the two methods exactly as above |
| BetaFromPhase.ErrorMethod | omc3/optics_measurements/beta_from_phase.py:61-74 | the result is one of the three method names; 3-BPM iff the flag is set; IOError iff the flag is not set and there is no definition file; a KeyError names a label no element has |
| BetaFromPhase.Header | omc3/optics_measurements/beta_from_phase.py:362-369 | a copy of the common header plus the five fixed keys, other keys unchanged; RangeOfBPMs is "Adjacent" iff the method is 3-BPM, and range_of_bpms otherwise; ErrorsFrom, version and RCond are set, and RMS_BETABEAT is the formatted value followed by " %" |
| BetaFromPhase.WithCombinationsExact | omc3/optics_measurements/beta_from_phase.py:208 | the filter keeps exactly the rows with NCOMB > 0, in table order |
| BetaFromPhase.KeptRows | omc3/optics_measurements/beta_from_phase.py:134-208 | the method raises ValueError iff the weighting fails for some BPM with both matrices non-zero; otherwise the returned rows are exactly the BPMs with both covariance matrices non-zero and at least one combination, each with its weighted results, in BPM order |
| BetaFromPhase.KeptIffCovaried | omc3/optics_measurements/beta_from_phase.py:192-208 | when each matrix has a row per combination and the method does not raise, a BPM is returned iff both matrices are non-zero |
| BetaFromPhase.NBpmOutcome | omc3/optics_measurements/beta_from_phase.py:134-208 | the method returns rows iff no covaried BPM's weighting fails |
| BetaFromPhase.NBpmTable | omc3/optics_measurements/beta_from_phase.py:134-208 | the arrays start at zero; the loop stops with ValueError at the first BPM whose weighting fails, and otherwise fills the rows of weighted BPMs and skips the others, returning the NCOMB > 0 rows |
| BetaFromPhase.FillRow | omc3/optics_measurements/beta_from_phase.py:192-201 | one loop pass reports a failure iff the BPM is covaried and a weighting fails; otherwise a covaried BPM's row is written with its weighted results, and every other row is unchanged |
| BetaFromPhase.StoreRow | omc3/optics_measurements/beta_from_phase.py:195-201 | writing one BPM's row and NCOMB leaves every other row unchanged |
| CorrectionHandler.StrongerExact | omc3/correction/handler.py:264-266 | a corrector is kept iff \|delta\| > min_strength (strict) |
| CorrectionHandler.StrongerAppend | omc3/correction/handler.py:266 | the filter keeps order: filtering a concatenation concatenates the filtered parts |
| CorrectionHandler.Stronger | omc3/correction/handler.py:266 | every kept corrector has \|delta\| > min_strength, and none is added |
| CorrectionHandler.Columns | omc3/correction/handler.py:267 | `resp_matrix.loc[:, labels]` gives the labels' columns in label order, and KeyError iff a label is missing |
| CorrectionHandler.FilterByStrengthSameSet | omc3/correction/handler.py:264-267 | when every corrector has a column, the filter does not raise, and delta, the response columns and the variable list are restricted to the same correctors in the same order |
| CorrectionHandler.FilterByStrength | omc3/correction/handler.py:264-267 | on success the response keeps one column per kept corrector and the variable list is their names; a KeyError names a kept corrector without a column |
| CorrectionHandler.WeightedKeysExact | omc3/correction/handler.py:134 | KeyError iff some key has no weight (reported for the first such key); otherwise exactly the keys of non-zero weight are kept, in order |
| CorrectionHandler.WeightedKeys | omc3/correction/handler.py:134 | kept keys are requested keys with a non-zero weight; a KeyError names a requested key without a weight |
| CorrectionHandler.Lower | omc3/correction/handler.py:137-153 | lower-casing maps ASCII A–Z into a–z and leaves other characters alone |
| CorrectionHandler.Dispatch | omc3/correction/handler.py:136-153 | a read source carries the key's lower-cased last character as its plane |
| CorrectionHandler.MeasurementsBySource | omc3/correction/handler.py:136-153 | "MU…" reads the phase file and "D…" the dispersion file; "NDX" reads the normalised-dispersion file; "Q" reads the fractional tunes of the x phase file with error 0.001; "BET…" reads beta_file_name; coupling keys get no measurement |
| CorrectionHandler.MeasurementsStep | omc3/correction/handler.py:135-153 | one more key adds its source if it has one |
| CorrectionHandler.Measurements | omc3/correction/handler.py:135-153 | only kept keys get a measurement, and a file read is in the plane of the key's last character |
| CorrectionHandler.GetMeasurementData | omc3/correction/handler.py:131-154 | the loop raises iff a weight is missing; otherwise it returns the filtered keys (coupling keys included) and their measurement dictionary |
| CorrectionHandler.LoadedVarsExact | omc3/correction/handler.py:122 | the flattened list holds exactly the variables of some loaded response |
| CorrectionHandler.LoadedVars | omc3/correction/handler.py:122 | every flattened variable comes from some loaded response |
| CorrectionHandler.FullResponseRaises | omc3/correction/handler.py:114-128 | ValueError iff no requested variable occurs in any loaded response; otherwise the responses are returned unchanged |
| CorrectionHandler.CheckFullResponse | omc3/correction/handler.py:114-128 | success returns the responses unchanged, and an empty variable list always raises ValueError |
| CorrectionHandler.GetVarlist | omc3/correction/handler.py:161-165 | ValueError iff the variable list is empty, else the list itself |
| CorrectionHandler.MethodFunChoice | omc3/correction/handler.py:198-214 | only "pinv" and "omp" are methods; pinv succeeds iff svd_cut is set and omp iff n_correctors is set, each carrying its option's value |
| CorrectionHandler.MethodFun | omc3/correction/handler.py:198-214 | a method is only "pinv" or "omp", and the unknown-method KeyError occurs iff the name is neither |
| CorrectionHandler.JoinColumnsLength | omc3/correction/handler.py:259-261 | an empty key list raises ValueError (`np.concatenate` of nothing); otherwise the join succeeds iff every key has the column, and its length is the sum of the per-key lengths |
| CorrectionHandler.JoinColumnsAppend | omc3/correction/handler.py:259-261 | for two non-empty key lists, the join of their concatenation succeeds and is the concatenation of the two joins, so columns follow key order |
| CorrectionHandler.JoinColumns | omc3/correction/handler.py:259-261 | no keys raises ValueError, and a KeyError names the column or a key |
| CorrectionHandler.ColumnsOf | omc3/correction/handler.py:261 | a KeyError names the column or one of the keys |
| CorrectionHandler.NegatedUndoes | omc3/correction/handler.py:84 | −delta (also the knob of line 233) keeps the correctors and order, is an involution, and cancels delta corrector by corrector |
| CorrectionHandler.ParamFile | omc3/correction/handler.py:239-243 | one line per corrector, in delta order |
| CorrectionHandler.WriteParams | omc3/correction/handler.py:239-243 | the loop emits one `ParamLine` per corrector in delta order |
| CorrectionHandler.ParamLineShape | omc3/correction/handler.py:243 | each line reads `name = name <value>;` and ends with ";\n" |
| CorrectionHandler.AddStep | omc3/correction/handler.py:77-78 | `delta += step` keeps the corrector index |
| CorrectionHandler.AfterIterationsStrong | omc3/correction/handler.py:46-80 | after at least one iteration, every remaining corrector is an original variable whose accumulated change exceeds min_strength |
| CorrectionHandler.Correct | omc3/correction/handler.py:46-86 | max_iter+1 iterations; the model is updated only in iterations 1..max_iter; the change file holds +delta, the correct file holds −delta, and the knob gets −delta |
| KmodAnalysis.ReturnSignForErr | omc3/kmod/kmod_analysis.py:12-18 | a fresh (2n+1)×n array equal to the sign table |
| KmodAnalysis.SignTableRows | omc3/kmod/kmod_analysis.py:14-16 | row 0 is all zeros, row 2k+1 is +e_k and row 2k+2 is −e_k |
| KmodAnalysis.RowsOfSignTable | omc3/kmod/kmod_analysis.py:12-18 | an array with the table's entries has the table as rows |
| KmodAnalysis.InstSignIsSignTable | omc3/kmod/kmod_analysis.py:46 | the literal table of `calc_beta_inst` equals `return_sign_for_err(2)` |
| KmodAnalysis.Deviations | omc3/kmod/kmod_analysis.py:31 | one squared deviation per +perturbation row (rows 1, 3, …); the same reduction recurs at lines 61 and 216-217 |
| KmodAnalysis.DeviationIsSquare | omc3/kmod/kmod_analysis.py:31 | the maximum of \|d\| with itself, squared, is d² |
| KmodAnalysis.SumNonNegative | omc3/kmod/kmod_analysis.py:31 | a sum of squares is non-negative, and zero iff every term is |
| KmodAnalysis.SquaredErrorVanishes | omc3/kmod/kmod_analysis.py:31 | the squared error is non-negative, and zero when every +perturbation row equals row 0, whatever the −perturbation rows hold |
| KmodAnalysis.SquaredError | omc3/kmod/kmod_analysis.py:31 | the squared error is never negative |
| KmodAnalysis.Perturbed | omc3/kmod/kmod_analysis.py:26-59 | one evaluation per sign row |
| KmodAnalysis.TwoQuantityError | omc3/kmod/kmod_analysis.py:22-31 | with `return_sign_for_err(2)`: the value is f(a, b), and the squared error is (f(a+σa, b) − f)² + (f(a, b+σb) − f)² |
| KmodAnalysis.TwoQuantityErrorInst | omc3/kmod/kmod_analysis.py:46-61 | the same with the literal table |
| KmodAnalysis.Assign | omc3/kmod/kmod_analysis.py:33-34 | assigning an existing column keeps the width, and a new column is appended; afterwards the column exists and reads the assigned value, and every other column exists and reads as before |
| KmodAnalysis.AssignedValues | omc3/kmod/kmod_analysis.py:33-34 | an overwrite in place or an append makes the column read the assigned value and leaves every other column's value |
| KmodAnalysis.AssignedOther | omc3/kmod/kmod_analysis.py:33-34 | a column other than the assigned one keeps its value |
| KmodAnalysis.ReorderPermutes | omc3/kmod/kmod_analysis.py:36-38 | with ≥5 columns: the first stays, the last four follow, the rest keep their order, and the result is a permutation |
| KmodAnalysis.ReorderShortDuplicates | omc3/kmod/kmod_analysis.py:36-38 | with 1–4 columns the first column is listed twice |
| KmodAnalysis.Reorder | omc3/kmod/kmod_analysis.py:36-38 | the first column stays first; the reorder keeps the count for at least five columns and adds one otherwise |
| KmodAnalysis.AddBetastar | omc3/kmod/kmod_analysis.py:24-34 | one plane's pass keeps the waist columns of both planes, so the second pass reads the same inputs |
| KmodAnalysis.AfterPlanes | omc3/kmod/kmod_analysis.py:24-34 | the table after the first i planes still has the waist columns |
| KmodAnalysis.CalcBetastar | omc3/kmod/kmod_analysis.py:20-40 | the loop over PLANES followed by the reorder |
| KmodAnalysis.AfterBothPlanes | omc3/kmod/kmod_analysis.py:24-34 | the loop is X then Y |
| KmodAnalysis.AddBetastarAppends | omc3/kmod/kmod_analysis.py:33-34 | on a table without them, betastar and its error are appended in that order |
| KmodAnalysis.BetastarColumns | omc3/kmod/kmod_analysis.py:20-40 | on the table `analyse` builds at lines 245-247, the result is: the label, the betastar columns of X then Y, then the waist columns in their order |
| KmodAnalysis.BetastarValues | omc3/kmod/kmod_analysis.py:26-31 | each plane's betastar is f(β_w, w), with the squared error of the two one-sided perturbations |
| KmodAnalysis.InstrumentBetaTerms | omc3/kmod/kmod_analysis.py:50-61 | the instrument beta is f at the distance from the waist (the Y waist mirrored), with the same two-term squared error |
| KmodAnalysis.InstrumentBeta | omc3/kmod/kmod_analysis.py:50-59 | five evaluations, the first being the formula at the waist's beta and the distance of the instrument from the waist |
| KmodAnalysis.CalcBetaInst | omc3/kmod/kmod_analysis.py:42-66 | the name, then for X and Y the unperturbed beta at the instrument and its squared error, which is never negative |
| KmodAnalysis.ReturnDfOrders | omc3/kmod/kmod_analysis.py:176-188 | a pair is returned iff the polarities are +1 and −1 in some order; it is a permutation of the inputs with the plane's focusing polarity (X: +1, Y: −1) first |
| KmodAnalysis.ReturnDf | omc3/kmod/kmod_analysis.py:176-188 | a pair is returned iff the polarities are +1 and −1 in some order |
| KmodAnalysis.WaistFits | omc3/kmod/kmod_analysis.py:205-214 | exactly 17 fits |
| KmodAnalysis.WaistFitsAreUnitPerturbations | omc3/kmod/kmod_analysis.py:205-217 | fit 0 is unperturbed, fits 2k+1 and 2k+2 are ±1 unit of error source k, and the errors vanish when the + fits reproduce the nominal one |
| KmodAnalysis.GetBetaWaist | omc3/kmod/kmod_analysis.py:203-219 | TypeError iff the polarities do not order the magnets; otherwise the nominal values are those of row 0, each with the squared error over the + fits |
| KmodAnalysis.FitColumns | omc3/kmod/kmod_analysis.py:214-217 | the two columns of `results` are the two components of the fits |
| KmodAnalysis.CleanedValues | omc3/kmod/kmod_analysis.py:127-141 | the values kept by where-cleaned-then-dropna are no more than the rows |
| KmodAnalysis.CleanedValuesMembers | omc3/kmod/kmod_analysis.py:127-141 | a value is kept iff some row is cleaned in the plane and holds that number (not NaN) in the column |
| KmodAnalysis.CleanedValuesSingle | omc3/kmod/kmod_analysis.py:127-141 | one row yields its value iff it is cleaned and a number, and nothing otherwise |
| KmodAnalysis.CleanedValuesAppend | omc3/kmod/kmod_analysis.py:127-141 | the filter keeps row order: the kept values of a concatenation are the concatenation of the kept values |
| KmodAnalysis.AverageBounds | omc3/kmod/kmod_analysis.py:127-135 | an average of values between two bounds is finite and lies between them |
| KmodAnalysis.Average | omc3/kmod/kmod_analysis.py:127 | `np.average` is NaN iff there are no values |
| KmodAnalysis.MagnetFrame.CalcTune | omc3/kmod/kmod_analysis.py:125-130 | each plane's tune header becomes the average tune over the rows cleaned in that plane; the rows and the other headers are unchanged |
| KmodAnalysis.MagnetFrame.CalcK | omc3/kmod/kmod_analysis.py:132-137 | K ends up as the average over the Y-cleaned rows (the X-cleaned average is overwritten); nothing else changes |
| KmodAnalysis.MagnetFrame.FitInput | omc3/kmod/kmod_analysis.py:139-146 | 2 rows, each as long as the cleaned K values; row 1 is constant and equal to the plane's tune header |
| KmodAnalysis.FitInputScaled | omc3/kmod/kmod_analysis.py:142-143 | row 0 is finite and equals sign·(k_j − K̄)·LENGTH, with sign = POLARITY in X and −POLARITY in Y |
| KmodAnalysis.FitInputEntry | omc3/kmod/kmod_analysis.py:143 | one entry of row 0, as above |
| KmodAnalysis.FitInputCentred | omc3/kmod/kmod_analysis.py:132-146 | when K̄ is the average over the plane's own cleaned rows (always for Y after `calc_k`), row 0 sums to zero |
| KmodAnalysis.SumScaledShift | omc3/kmod/kmod_analysis.py:143 | Σ c·(x_j − m) = c·(Σ x_j − n·m) |
| KmodAnalysis.CentredSum | omc3/kmod/kmod_analysis.py:143 | scaled deviations from the mean sum to zero |
| BbqTools.KeptStrictlyInside | omc3/tune_analysis/bbq_tools.py:48-58 | a point is kept iff it is a number strictly inside the given bounds; the bounds themselves are cut, and an absent bound cuts nothing |
| BbqTools.FineKeptNearAverage | omc3/tune_analysis/bbq_tools.py:63-65 | the fine pass keeps a number iff it is closer than fine_cut to the first average, or the average is NaN |
| BbqTools.CountKeptIsMultiplicity | omc3/tune_analysis/bbq_tools.py:93-96 | the guard's `sum(~cut_mask)` is the number of uncut points, at most the series' length |
| BbqTools.BlankedKeepsUncut | omc3/tune_analysis/bbq_tools.py:77-78 | the copy is NaN exactly at the cut points and equal to the input elsewhere; the input is a value and is not changed |
| BbqTools.BackFillAt | omc3/tune_analysis/bbq_tools.py:81-87 | after bfill, a point is a number iff a number follows it, and numbers are kept |
| BbqTools.ForwardFillAt | omc3/tune_analysis/bbq_tools.py:81-87 | after ffill, a point is a number iff a number precedes it |
| BbqTools.FillLeavesNoNaN | omc3/tune_analysis/bbq_tools.py:81-87 | bfill then ffill leave no NaN once the series holds a number |
| BbqTools.Shift | omc3/tune_analysis/bbq_tools.py:86 | `shift` keeps the length |
| BbqTools.CentredWindow | omc3/tune_analysis/bbq_tools.py:83-86 | the value at i averages ceil((length−1)/2) points before it and floor((length−1)/2) after it, length points in all |
| BbqTools.MovingAverage | omc3/tune_analysis/bbq_tools.py:75-90 | the moving average has the series' length |
| BbqTools.MovingAverageOutcome | omc3/tune_analysis/bbq_tools.py:25-96 | each outcome in both directions: NotImplementedError iff exactly one fine parameter is truthy; otherwise ValueError iff the first pass keeps at most `length` points or a fine pass runs and keeps at most fine_length points; TypeError (`data_mav - None`) iff fine_length is set without fine_cut; the result is the first pass when fine_length is None, and otherwise the moving average over the fine mask, which cuts around the first average |
| BbqTools.GetMovingAverage | omc3/tune_analysis/bbq_tools.py:25-69 | a result only when the fine parameters agree in truthiness; the average and the mask have the series' length, and the mask keeps more points than the window length of the last pass |
| BbqTools.CheckEnoughPoints | omc3/tune_analysis/bbq_tools.py:93-96 | ValueError iff the number of kept points is at most the window length |
| BbqTools.FinePassMask | omc3/tune_analysis/bbq_tools.py:63-65 | the fine mask has the series' length |
| DetuningTools.PolyFun | omc3/tune_analysis/detuning_tools.py:26-30 | the evaluation succeeds iff beta has an entry at index order |
| DetuningTools.TermsIsHorner | omc3/tune_analysis/detuning_tools.py:29 | the generator sum of the first n terms equals Horner's scheme on beta[..n] |
| DetuningTools.Terms | omc3/tune_analysis/detuning_tools.py:29 | at x = 0 a non-empty sum is its first coefficient (x⁰ is 1) |
| DetuningTools.PolyFunIsHorner | omc3/tune_analysis/detuning_tools.py:26-30 | `poly_func(beta, x)` is Σ_{i≤order} beta[i]·x^i, computed independently by Horner's scheme |
| DetuningTools.PolyFunIgnoresHigherCoefficients | omc3/tune_analysis/detuning_tools.py:29 | coefficients with index above order are ignored |
| DetuningTools.PolyFunOffset | omc3/tune_analysis/detuning_tools.py:8-29 | at x = 0 the value is the offset beta[0] |
| DetuningTools.PolyFunLinear | omc3/tune_analysis/detuning_tools.py:8-29 | order 1 is beta[0] + beta[1]·x |
| DetuningTools.Beta0 | omc3/tune_analysis/detuning_tools.py:49 | the initial guess has order+1 entries: 0, then order ones |
| DetuningTools.Beta0FitsModel | omc3/tune_analysis/detuning_tools.py:47-49 | the initial guess is valid for the model of the same order and vanishes at x = 0 |

## Left out

Not modelled at all:

- The physics formulas:
  - the cotangents, sines and beta/alpha values of the N-BPM and 3-BPM methods;
  - `average_beta_*`, `fit_prec`, `fit_approx`, `chi2`;
  - `_rms`, the RMS beta-beating.

  They are floating point with no discrete content. Where the bookkeeping needs their values,
  they are parameters.
- Foreign numerical code, which has no visible semantics here:
  - `np.linalg.pinv` in `_covariant_weighting` and `_pseudo_inverse`;
  - scikit-learn's matching pursuit;
  - `scipy.optimize.curve_fit` and `minimize` (`do_fit`, `get_av_beta`, the simplex in
    `get_beta_waist`);
  - the ODR run of `do_odr`.

  A correction step, a weighting and a waist fit enter as function parameters.
- The regular-expression engine of `_assign_uncertainties`. It is the predicate
  `matches(pattern, name)`.
- pandas' `interpolate("index")`. It is a length-preserving function parameter of
  `BbqTools.MovingAverage`.
- I/O, which is left to the caller:
  - `tfs.read` and `tfs.write`, pickle loading, and the file writes of `writeparams` and
    `write_knob` (the written lines are modelled);
  - the MAD-X run of `_create_corrected_model`;
  - time stamps, logging and `os.path`.
- `omc3/optics_measurements/constants.py` is not part of this model: the file-name stems and
  the extension stay symbolic (`CorrectionHandler.Stem`).
- Float formatting (`{:+e}`, `{:.3f} %`). It is a parameter, or text supplied by the caller.
- `three_bpm_method`, `betas_alphas_from_phase` and `calc_beta_at_instruments`: only the table
  operations and physics listed above. `_tilt_slice_matrix`, which the 3-BPM method calls, is
  modelled.
- The correction plumbing is only a frame for the accumulation and sign bookkeeping modelled in
  `CorrectionHandler.Correct`:
  - `_calculate_delta`, `_join_responses`, `_maybe_add_coupling_to_model` and `_print_rms`;
  - the filters and model appenders;
  - `correct`'s model and response updates;
  - `analyse`, which only sequences the modelled kmod steps.
- The arithmetic of `_covariant_weighting`. It is a parameter that returns the weighted value
  or fails; a failure stands for its `ValueError` on a zero weight sum (lines 316-317), which
  the N-BPM loop does not catch.

Modelled, but weaker or narrower than the source:

- KmodAnalysis.SquaredError: errors are kept squared, because the final `np.sqrt` is a real
  square root. This applies to `TwoQuantityError`, `BetastarValues`, `InstrumentBetaTerms`,
  `GetBetaWaist` and `CalcBetastar` as well.
- KmodAnalysis.SquaredErrorVanishes: states only that equal +perturbation rows give a zero
  error. The converse holds through `SumNonNegative` but is not restated for the reduction.
- KmodAnalysis.CalcBetastar: requires the waist columns of both planes. A missing column would
  raise KeyError in the source; `analyse` always creates them.
- KmodAnalysis.MagnetFrame.FitInput: the frame is a value of headers and rows.
  - The NaN results of an empty average are kept as NaN.
  - Integer/float dtype distinctions of the headers are not modelled.
- BbqTools.MovingAverage: the standard deviation `std_mav` is not modelled. The mean and the
  mask are.
- SensitivityLine.BetaLine: the slice updates require that every slice fits in the line. This
  always holds for base ≤ 2m+1 (`EightBlocksFit`); numpy would raise a broadcast error
  otherwise.
- SensitivityLine.AlphaLine: modelled as written, including its asymmetry with the beta line:
  - the dX group carries K2L times the beta weights, while the other three groups use the
    alpha weights;
  - the KdS group also carries K2L, so the mKdS group is not its negation.

  No property beyond its layout is claimed.
- NBpmWindow.ElementWindowHoldsBpms: requires distinct element names and the BPMs in the same
  order in both tables. On duplicate labels `get_loc` returns a slice or mask, which is not
  modelled; `MissingBpmRaises` covers the KeyError without these requirements.
- NBpmWindow.WindowLayout: requires 2m < n, a range_of_bpms smaller than the number of BPMs.
  For larger ranges the source's slices overlap or wrap more than once, which is not modelled.
  The same requirement holds for the other window lemmas.
- CorrectionHandler.Lower: lower-cases ASCII letters only. Python's `str.lower` also maps
  non-ASCII capitals; measurement keys are ASCII.
- DetuningTools.PolyFun: `np.power` is modelled for a scalar x only. Array arguments are
  element-wise applications of the same function.
- CorrectionHandler.Correct: the step of each iteration is a function of the iteration number
  and the current variable list. The measurement and response updates that it stands for are
  not modelled.

## Findings

| source | as written | input that shows it | evidently intended | confidence | as-written member | corrected member |
|---|---|---|---|---|---|---|
| omc3/optics_measurements/beta_from_phase.py:346 | the dX column is `dX*2`, while every other error column is a square (a variance on the covariance diagonal) | dX = 0.5 stores 1.0 instead of 0.25; dX = −0.001 puts a negative variance on the diagonal | `dX**2`, as for dK1, KdS and BPMdS | medium, not executed | Uncertainties.DoubledTableHasNegativeEntry | Uncertainties.SquaredTableIsVariance |
| omc3/optics_measurements/beta_from_phase.py:275 | `off1 = range_of_bpms`, while the diagonal (lines 171-173) starts its dK1 block at 2m+1 with m = range_of_bpms div 2 | range_of_bpms = 10: the first dK1 term of the beta line lands at position 10, on the squared phase error of the last window BPM and on the phase term of iy = 10 | `off1 = 2 * m + 1`, so the line matches the diagonal for every range | low-medium, not executed | SensitivityLine.EvenRangeMisaligned | SensitivityLine.IntendedBaseAligned |
