/** `_assign_uncertainties` (beta_from_phase.py, lines 324-359): the systematic-error columns of
    the element table, filled from a list of error definitions.

    Each definition selects elements either by name (a pattern `key:<name>`) or by a regular
    expression; the regular-expression engine is not modelled and enters as the predicate
    `matches(pattern, name)` (true when the pattern is found in the name). */
module Uncertainties {
  import opened Wrappers
  import opened PyOps

  /** One row of the error-definition file. */
  datatype ErrorDef = ErrorDef(pattern: string, dK1: real, dS: real, dX: real, mainField: string)

  /** One element of the lattice: its name (the table index) and its integrated strength K1L. */
  datatype Element = Element(name: string, k1l: real)

  /** An element together with its error columns. */
  datatype ErrRow = ErrRow(name: string, k1l: real, unc: bool, dK1: real, kdS: real,
                           mkdS: real, dX: real, bpmdS: real)

  /** The threshold on |dK1| of the following element (line 356). */
  const DK1_THRESHOLD: real := 0.000000000001

  // ----- selection of the rows a definition applies to -----

  predicate IsKey(p: string)
  {
    |p| >= 4 && p[..4] == "key:"
  }

  /** The characters of `s` before its first ':' (all of `s` when it has none). */
  function BeforeColon(s: string): (r: string)
    ensures |r| <= |s| && r == s[..|r|]
    ensures ':' !in r
    ensures |r| < |s| ==> s[|r|] == ':'
  {
    if s == [] || s[0] == ':' then [] else [s[0]] + BeforeColon(s[1..])
  }

  /** `patt.split(":")[1]` for a pattern starting with "key:". */
  function KeyLabel(p: string): string
    requires IsKey(p)
  {
    BeforeColon(p[4..])
  }

  /** Whether definition `d` applies to the element called `name`. */
  predicate Selects(d: ErrorDef, name: string, matches: (string, string) -> bool)
  {
    if IsKey(d.pattern) then name == KeyLabel(d.pattern) else matches(d.pattern, name)
  }

  predicate HasName(elems: seq<Element>, name: string)
  {
    exists j :: 0 <= j < |elems| && elems[j].name == name
  }

  /** A `key:` definition whose label is not in the table: `twiss_full.loc[label, "K1L"]` raises
      KeyError. */
  predicate MissingKey(d: ErrorDef, elems: seq<Element>)
  {
    IsKey(d.pattern) && !HasName(elems, KeyLabel(d.pattern))
  }

  /** The first definition that raises, if any. */
  function FirstMissing(defs: seq<ErrorDef>, elems: seq<Element>): (r: Option<nat>)
    ensures r.Some? ==> r.value < |defs| && MissingKey(defs[r.value], elems) &&
                        forall k :: 0 <= k < r.value ==> !MissingKey(defs[k], elems)
    ensures r.None? <==> forall k :: 0 <= k < |defs| ==> !MissingKey(defs[k], elems)
  {
    if defs == [] then None
    else if MissingKey(defs[0], elems) then Some(0)
    else match FirstMissing(defs[1..], elems)
      case None => None
      case Some(k) => Some(k + 1)
  }

  // ----- what one definition does to a selected row (lines 345-350) -----

  /** The dX column as the corrected model fills it: the squared misalignment, like every other
      error column. */
  function DXVariance(dx: real): (r: real)
    ensures r >= 0.0
  {
    Sq(dx)
  }

  /** The dX column as the source fills it, `errdefs.loc[indx, "dX"]*2`. */
  function DXAsWritten(dx: real): real
  {
    dx * 2.0
  }

  /** Which dX column the table carries: the source's doubled misalignment, or the corrected
      squared one. */
  datatype DXRule = Doubled | Squared

  function DXEntry(rule: DXRule, dx: real): real
  {
    match rule
    case Doubled => DXAsWritten(dx)
    case Squared => DXVariance(dx)
  }

  /** One selecting definition: the row is marked and its dK1 and dX are overwritten, with KdS
      for a non-BPM definition or BPMdS for a BPM one; the other error column, mKdS and the
      element's name and strength stay. */
  function UpdateRow(r: ErrRow, d: ErrorDef, rule: DXRule): (u: ErrRow)
    ensures u.name == r.name && u.k1l == r.k1l && u.unc && u.mkdS == r.mkdS
    ensures d.mainField == "BPM" ==> u.kdS == r.kdS
    ensures d.mainField != "BPM" ==> u.bpmdS == r.bpmdS
  {
    var r1 := r.(dK1 := Weighted(d.dK1, r.k1l), dX := DXEntry(rule, d.dX), unc := true);
    if d.mainField == "BPM" then r1.(bpmdS := Sq(d.dS)) else r1.(kdS := Weighted(d.dS, r.k1l))
  }

  /** `twiss_full.assign(UNC=False, dK1=0, KdS=0, mKdS=0, dX=0, BPMdS=0)` for one element. */
  function Initial(e: Element): ErrRow
  {
    ErrRow(e.name, e.k1l, false, 0.0, 0.0, 0.0, 0.0, 0.0)
  }

  /** The row of element `e` after the definitions `defs`, applied in order. */
  function RowAfter(e: Element, defs: seq<ErrorDef>, matches: (string, string) -> bool, rule: DXRule): (r: ErrRow)
    ensures r.name == e.name && r.k1l == e.k1l
    ensures !r.unc ==> r == Initial(e)
  {
    if defs == [] then Initial(e)
    else
      var prev := RowAfter(e, defs[..|defs| - 1], matches, rule);
      if Selects(defs[|defs| - 1], e.name, matches) then UpdateRow(prev, defs[|defs| - 1], rule) else prev
  }

  // ----- the reference definition: the last applicable definition decides -----

  datatype Kind = AnyDef | BpmDef | OtherDef

  predicate OfKind(d: ErrorDef, k: Kind)
  {
    match k
    case AnyDef => true
    case BpmDef => d.mainField == "BPM"
    case OtherDef => d.mainField != "BPM"
  }

  /** The index of the last definition of kind `k` that selects `name`. */
  function LastMatch(defs: seq<ErrorDef>, name: string, matches: (string, string) -> bool, k: Kind)
    : (r: Option<nat>)
    ensures r.Some? ==>
      (r.value < |defs| && Selects(defs[r.value], name, matches) && OfKind(defs[r.value], k) &&
       forall j :: r.value < j < |defs| ==> !(Selects(defs[j], name, matches) && OfKind(defs[j], k)))
    ensures r.None? ==> forall j :: 0 <= j < |defs| ==> !(Selects(defs[j], name, matches) && OfKind(defs[j], k))
  {
    if defs == [] then None
    else if Selects(defs[|defs| - 1], name, matches) && OfKind(defs[|defs| - 1], k) then Some(|defs| - 1)
    else LastMatch(defs[..|defs| - 1], name, matches, k)
  }

  /** The row that the last applicable definitions give: dK1, dX and UNC come from the last
      definition that selects the element, BPMdS from the last such BPM definition and KdS from
      the last such non-BPM definition; a column no definition wrote keeps its initial zero. */
  function LastWins(e: Element, defs: seq<ErrorDef>, matches: (string, string) -> bool, rule: DXRule): ErrRow
  {
    var any := LastMatch(defs, e.name, matches, AnyDef);
    var bpm := LastMatch(defs, e.name, matches, BpmDef);
    var other := LastMatch(defs, e.name, matches, OtherDef);
    ErrRow(e.name, e.k1l, any.Some?,
           if any.Some? then Weighted(defs[any.value].dK1, e.k1l) else 0.0,
           if other.Some? then Weighted(defs[other.value].dS, e.k1l) else 0.0,
           0.0,
           if any.Some? then DXEntry(rule, defs[any.value].dX) else 0.0,
           if bpm.Some? then Sq(defs[bpm.value].dS) else 0.0)
  }

  /** The variance of a relative error `a` scaled by the strength `k`. */
  function Weighted(a: real, k: real): (r: real)
    ensures r >= 0.0
  {
    Sq(a * k)
  }

  /** Applying the definitions one after the other, in file order, leaves each row as if only
      the last applicable definition of each kind had been applied. */
  lemma {:induction false} LastDefinitionWins(e: Element, defs: seq<ErrorDef>,
                                              matches: (string, string) -> bool, rule: DXRule)
    ensures RowAfter(e, defs, matches, rule) == LastWins(e, defs, matches, rule)
  {
    if defs != [] {
      var init := defs[..|defs| - 1];
      var d := defs[|defs| - 1];
      LastDefinitionWins(e, init, matches, rule);
      assert forall k :: 0 <= k < |init| ==> defs[k] == init[k];
      if Selects(d, e.name, matches) {
        assert LastMatch(defs, e.name, matches, AnyDef) == Some(|defs| - 1);
        if d.mainField != "BPM" {
          assert LastMatch(defs, e.name, matches, OtherDef) == Some(|defs| - 1);
          assert LastMatch(defs, e.name, matches, BpmDef) == LastMatch(init, e.name, matches, BpmDef);
        } else {
          assert LastMatch(defs, e.name, matches, BpmDef) == Some(|defs| - 1);
          assert LastMatch(defs, e.name, matches, OtherDef) == LastMatch(init, e.name, matches, OtherDef);
        }
      } else {
        assert LastMatch(defs, e.name, matches, AnyDef) == LastMatch(init, e.name, matches, AnyDef);
        assert LastMatch(defs, e.name, matches, BpmDef) == LastMatch(init, e.name, matches, BpmDef);
        assert LastMatch(defs, e.name, matches, OtherDef) == LastMatch(init, e.name, matches, OtherDef);
      }
    }
  }

  // ----- the final roll and filter (lines 354-358) -----

  /** The rows whose UNC flag is set, in table order (`twiss_full.loc[twiss_full["UNC"]]`). */
  function KeepMarked(t: seq<ErrRow>): (r: seq<ErrRow>)
    ensures forall x :: x in r <==> x in t && x.unc
    ensures |r| <= |t|
  {
    if t == [] then []
    else (if t[0].unc then [t[0]] else []) + KeepMarked(t[1..])
  }

  /** The mask keeps table order and repeated rows: selecting from two tables one after the
      other is selecting from each and concatenating. */
  lemma {:induction false} KeepMarkedAppend(a: seq<ErrRow>, b: seq<ErrRow>)
    ensures KeepMarked(a + b) == KeepMarked(a) + KeepMarked(b)
  {
    if a == [] {
      assert a + b == b;
    } else {
      assert (a + b)[0] == a[0];
      assert (a + b)[1..] == a[1..] + b;
      KeepMarkedAppend(a[1..], b);
    }
  }

  /** Lines 354-356 on the whole table: mKdS is KdS rolled by one, and an element is also
      marked when the element after it (cyclically) has a dK1 error. */
  function Mark(t: seq<ErrRow>): (r: seq<ErrRow>)
    ensures |r| == |t|
    ensures forall i :: 0 <= i < |t| ==> r[i].name == t[i].name && (t[i].unc ==> r[i].unc)
  {
    var kds := Roll(KdSColumn(t), 1);
    var next := Roll(DK1Column(t), -1);
    seq(|t|, i requires 0 <= i < |t| => Flagged(t[i], kds[i], next[i]))
  }

  function KdSColumn(t: seq<ErrRow>): (r: seq<real>)
    ensures |r| == |t|
  {
    seq(|t|, i requires 0 <= i < |t| => t[i].kdS)
  }

  function DK1Column(t: seq<ErrRow>): (r: seq<real>)
    ensures |r| == |t|
  {
    seq(|t|, i requires 0 <= i < |t| => t[i].dK1)
  }

  /** One row after the roll: its mKdS, and its UNC flag raised by the next element's dK1. */
  function Flagged(row: ErrRow, mkdS: real, nextDK1: real): ErrRow
  {
    row.(mkdS := mkdS, unc := Abs(nextDK1) > DK1_THRESHOLD || row.unc)
  }

  /** mKdS of element i is the KdS of the element before it, cyclically (element 0 gets the
      last element's value); an element is kept exactly when it was selected by a definition or
      its cyclic successor has |dK1| above the threshold; nothing else changes. */
  lemma MarkExact(t: seq<ErrRow>, i: nat)
    requires i < |t|
    ensures Mark(t)[i].mkdS == t[if i == 0 then |t| - 1 else i - 1].kdS
    ensures Mark(t)[i].unc <==> t[i].unc || Abs(t[if i == |t| - 1 then 0 else i + 1].dK1) > DK1_THRESHOLD
    ensures Mark(t)[i] == t[i].(mkdS := Mark(t)[i].mkdS, unc := Mark(t)[i].unc)
  {
    MarkFlags(t, i);
    MarkKeepsRest(t, i);
  }

  lemma MarkFlags(t: seq<ErrRow>, i: nat)
    requires i < |t|
    ensures Mark(t)[i].mkdS == t[if i == 0 then |t| - 1 else i - 1].kdS
    ensures Mark(t)[i].unc <==> t[i].unc || Abs(t[if i == |t| - 1 then 0 else i + 1].dK1) > DK1_THRESHOLD
  {
    MarkReadsRolls(t, i);
    RolledKdS(t, i);
    RolledDK1(t, i);
  }

  lemma MarkReadsRolls(t: seq<ErrRow>, i: nat)
    requires i < |t|
    ensures Mark(t)[i].mkdS == Roll(KdSColumn(t), 1)[i]
    ensures Mark(t)[i].unc <==> t[i].unc || Abs(Roll(DK1Column(t), -1)[i]) > DK1_THRESHOLD
  {
  }

  lemma RolledKdS(t: seq<ErrRow>, i: nat)
    requires i < |t|
    ensures Roll(KdSColumn(t), 1)[i] == t[if i == 0 then |t| - 1 else i - 1].kdS
  {
    RollPrevious(KdSColumn(t), i);
  }

  lemma RolledDK1(t: seq<ErrRow>, i: nat)
    requires i < |t|
    ensures Roll(DK1Column(t), -1)[i] == t[if i == |t| - 1 then 0 else i + 1].dK1
  {
    RollNext(DK1Column(t), i);
  }

  lemma MarkKeepsRest(t: seq<ErrRow>, i: nat)
    requires i < |t|
    ensures Mark(t)[i] == t[i].(mkdS := Mark(t)[i].mkdS, unc := Mark(t)[i].unc)
  {
  }

  /** `np.roll(s, 1)` puts the cyclic predecessor at each index. */
  lemma RollPrevious(s: seq<real>, i: nat)
    requires i < |s|
    ensures Roll(s, 1)[i] == s[if i == 0 then |s| - 1 else i - 1]
  {
    if i == 0 {
      ModUnique(i - 1, -1, |s| - 1, |s|);
    } else {
      ModUnique(i - 1, 0, i - 1, |s|);
    }
  }

  /** `np.roll(s, -1)` puts the cyclic successor at each index. */
  lemma RollNext(s: seq<real>, i: nat)
    requires i < |s|
    ensures Roll(s, -1)[i] == s[if i == |s| - 1 then 0 else i + 1]
  {
    if i == |s| - 1 {
      ModUnique(i + 1, 1, 0, |s|);
    } else {
      ModUnique(i + 1, 0, i + 1, |s|);
    }
  }

  // ----- the procedure -----

  /** The table of every element after all definitions, before the roll and the filter. */
  function Rows(elems: seq<Element>, defs: seq<ErrorDef>, matches: (string, string) -> bool, rule: DXRule)
    : (r: seq<ErrRow>)
    ensures |r| == |elems|
  {
    seq(|elems|, j requires 0 <= j < |elems| => RowAfter(elems[j], defs, matches, rule))
  }

  /** What `_assign_uncertainties` returns: the KeyError of the first `key:` definition whose
      label is not in the table, otherwise the marked rows. */
  function Assigned(elems: seq<Element>, defs: seq<ErrorDef>, matches: (string, string) -> bool, rule: DXRule)
    : (r: Result<seq<ErrRow>, string>)
    ensures r.Err? ==> !HasName(elems, r.error)
    ensures r.Ok? ==> |r.value| <= |elems| && forall x :: x in r.value ==> x.unc
  {
    match FirstMissing(defs, elems)
    case Some(k) => Err(KeyLabel(defs[k].pattern))
    case None => Ok(KeepMarked(Mark(Rows(elems, defs, matches, rule))))
  }

  /** Lines 340-358: all error columns start at zero; each definition, in file order,
      overwrites the columns of the rows it selects; a `key:` definition whose label is not in
      the table raises KeyError (the label is returned); finally mKdS and UNC are derived and
      only the marked rows are kept. */
  method AssignUncertainties(elems: seq<Element>, defs: seq<ErrorDef>,
                             matches: (string, string) -> bool, rule: DXRule)
    returns (r: Result<seq<ErrRow>, string>)
    ensures r == Assigned(elems, defs, matches, rule)
  {
    var table := seq(|elems|, j requires 0 <= j < |elems| => Initial(elems[j]));
    var i := 0;
    while i < |defs|
      invariant 0 <= i <= |defs|
      invariant forall k :: 0 <= k < i ==> !MissingKey(defs[k], elems)
      invariant |table| == |elems|
      invariant forall j :: 0 <= j < |elems| ==> table[j] == RowAfter(elems[j], defs[..i], matches, rule)
    {
      var d := defs[i];
      if IsKey(d.pattern) && !HasName(elems, KeyLabel(d.pattern)) {
        FirstMissingIs(defs, elems, i);
        return Err(KeyLabel(d.pattern));
      }
      table := seq(|table|, j requires 0 <= j < |table| =>
        if Selects(d, elems[j].name, matches) then UpdateRow(table[j], d, rule) else table[j]);
      forall j | 0 <= j < |elems| ensures table[j] == RowAfter(elems[j], defs[..i + 1], matches, rule) {
        RowAfterStep(elems[j], defs, i, matches, rule);
      }
      i := i + 1;
    }
    assert defs[..|defs|] == defs;
    assert table == Rows(elems, defs, matches, rule);
    r := Ok(KeepMarked(Mark(table)));
  }

  /** One more definition: RowAfter on the prefix of length i + 1. */
  lemma RowAfterStep(e: Element, defs: seq<ErrorDef>, i: nat, matches: (string, string) -> bool, rule: DXRule)
    requires i < |defs|
    ensures RowAfter(e, defs[..i + 1], matches, rule) ==
      if Selects(defs[i], e.name, matches) then UpdateRow(RowAfter(e, defs[..i], matches, rule), defs[i], rule)
      else RowAfter(e, defs[..i], matches, rule)
  {
    assert defs[..i + 1][..i] == defs[..i];
  }

  lemma FirstMissingIs(defs: seq<ErrorDef>, elems: seq<Element>, i: nat)
    requires i < |defs| && MissingKey(defs[i], elems)
    requires forall k :: 0 <= k < i ==> !MissingKey(defs[k], elems)
    ensures FirstMissing(defs, elems) == Some(i)
  {
    var f := FirstMissing(defs, elems);
    assert f.Some?;
  }

  /** A table in which no row is marked keeps nothing. */
  lemma {:induction false} KeepMarkedNone(t: seq<ErrRow>)
    requires forall i :: 0 <= i < |t| ==> !t[i].unc
    ensures KeepMarked(t) == []
  {
    if t != [] {
      KeepMarkedNone(t[1..]);
    }
  }

  /** Without any definition nothing is marked, so no element is kept. */
  lemma NoDefinitionsKeepNothing(elems: seq<Element>, matches: (string, string) -> bool, rule: DXRule)
    ensures KeepMarked(Mark(Rows(elems, [], matches, rule))) == []
  {
    var t := Rows(elems, [], matches, rule);
    var m := Mark(t);
    forall i | 0 <= i < |m| ensures !m[i].unc {
      MarkExact(t, i);
      assert t[i] == Initial(elems[i]);
      var nx := (i + 1) % |t|;
      assert t[nx] == Initial(elems[nx]);
    }
    KeepMarkedNone(m);
  }

  /** A row carrying a dK1, dX or KdS error (`nonzero()` on the three columns). */
  predicate HasError(x: ErrRow)
  {
    x.dK1 != 0.0 || x.dX != 0.0 || x.kdS != 0.0
  }

  /** A row no definition selected carries no error. */
  lemma UnselectedRowHasNoError(e: Element, defs: seq<ErrorDef>, matches: (string, string) -> bool, rule: DXRule)
    ensures HasError(RowAfter(e, defs, matches, rule)) ==> RowAfter(e, defs, matches, rule).unc
  {
    LastDefinitionWins(e, defs, matches, rule);
    var other := LastMatch(defs, e.name, matches, OtherDef);
    if other.Some? {
      assert Selects(defs[other.value], e.name, matches);
    }
  }

  /** The final filter never drops an error: the kept rows carry a dK1, dX or KdS error exactly
      when some element of the full table does. */
  lemma {:induction false} KeptRowsKeepEveryError(elems: seq<Element>, defs: seq<ErrorDef>,
                                                  matches: (string, string) -> bool, rule: DXRule)
    ensures (exists x :: x in KeepMarked(Mark(Rows(elems, defs, matches, rule))) && HasError(x)) <==>
            (exists j :: 0 <= j < |elems| && HasError(RowAfter(elems[j], defs, matches, rule)))
  {
    if j :| 0 <= j < |elems| && HasError(RowAfter(elems[j], defs, matches, rule)) {
      ErrorElementKept(elems, defs, matches, rule, j);
    }
    if x :| x in KeepMarked(Mark(Rows(elems, defs, matches, rule))) && HasError(x) {
      KeptErrorFromTable(elems, defs, matches, rule, x);
    }
  }

  lemma ErrorElementKept(elems: seq<Element>, defs: seq<ErrorDef>, matches: (string, string) -> bool, rule: DXRule, j: nat)
    requires j < |elems| && HasError(RowAfter(elems[j], defs, matches, rule))
    ensures exists x :: x in KeepMarked(Mark(Rows(elems, defs, matches, rule))) && HasError(x)
  {
    UnselectedRowHasNoError(elems[j], defs, matches, rule);
    ErrorRowKept(Rows(elems, defs, matches, rule), j);
  }

  /** A kept row with an error has the errors of its element's row in the table. */
  lemma KeptErrorFromTable(elems: seq<Element>, defs: seq<ErrorDef>, matches: (string, string) -> bool, rule: DXRule, x: ErrRow)
    requires x in KeepMarked(Mark(Rows(elems, defs, matches, rule))) && HasError(x)
    ensures exists j :: 0 <= j < |elems| && HasError(RowAfter(elems[j], defs, matches, rule))
  {
    var t := Rows(elems, defs, matches, rule);
    var m := Mark(t);
    assert x in m;
    var i :| 0 <= i < |m| && m[i] == x;
    MarkKeepsRest(t, i);
    assert HasError(t[i]);
  }

  /** A row with an error stays marked, so the filter keeps it with its errors. */
  lemma ErrorRowKept(t: seq<ErrRow>, j: nat)
    requires j < |t| && HasError(t[j]) && t[j].unc
    ensures Mark(t)[j] in KeepMarked(Mark(t)) && HasError(Mark(t)[j])
  {
    MarkExact(t, j);
  }

  // ----- the dX column as written -----

  /** Every error column is a variance (a square) except dX, which the source doubles: for a
      misalignment of 0.5 it stores 1.0 instead of 0.25, and a negative misalignment gives a
      negative entry on the covariance diagonal. */
  lemma DXAsWrittenIsNotAVariance()
    ensures DXAsWritten(0.5) == 1.0 && DXVariance(0.5) == 0.25
    ensures DXAsWritten(-0.001) < 0.0
  {
  }

  /** The table as the source fills it: a single definition with a misalignment of -0.001
      leaves -0.002, a negative variance, on the selected element's dX entry. */
  lemma DoubledTableHasNegativeEntry(matches: (string, string) -> bool)
    ensures RowAfter(Element("MQ", 1.0), [ErrorDef("key:MQ", 0.0, 0.0, -0.001, "MQ")],
                     matches, Doubled).dX == -0.002
  {
    var d := ErrorDef("key:MQ", 0.0, 0.0, -0.001, "MQ");
    assert KeyLabel(d.pattern) == "MQ" by {
      assert d.pattern[4..] == "MQ";
      assert BeforeColon("MQ") == ['M'] + BeforeColon("Q");
      assert BeforeColon("Q") == ['Q'] + BeforeColon("");
    }
    assert [d][..0] == [];
  }

  /** The corrected table is a table of variances: under the squared rule every error column
      of every element is non-negative, whatever the definitions. */
  lemma SquaredTableIsVariance(e: Element, defs: seq<ErrorDef>, matches: (string, string) -> bool)
    ensures var r := RowAfter(e, defs, matches, Squared);
      r.dK1 >= 0.0 && r.kdS >= 0.0 && r.dX >= 0.0 && r.bpmdS >= 0.0
  {
    LastDefinitionWins(e, defs, matches, Squared);
  }
}
