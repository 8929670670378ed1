/** The circular window of BPMs around a probed BPM in the N-BPM method (`n_bpm_method`,
    lines 143-164). Each window is built by the source with one of three branches of slices
    and concatenations; the lemmas prove that all three build the same cyclic window
    (column (i + k) mod n for k = -m..m) with the tune added or subtracted exactly on the
    entries that wrapped around the ring. */
module NBpmWindow {
  import opened Wrappers
  import opened PyOps

  /** A window entry: the BPM (column of the phase matrix) it comes from and its value. */
  datatype Entry = Entry(col: nat, value: real)

  /** A series together with its positional index, as pandas carries it through slicing. */
  function Indexed(row: seq<real>): (r: seq<Entry>)
    ensures |r| == |row|
  {
    seq(|row|, i requires 0 <= i < |row| => Entry(i, row[i]))
  }

  /** `series + d` on an indexed series: the values move, the index labels stay. */
  function Shifted(es: seq<Entry>, d: real): (r: seq<Entry>)
    ensures |r| == |es|
  {
    seq(|es|, k requires 0 <= k < |es| => Entry(es[k].col, es[k].value + d))
  }

  /** Lines 147-164 for one series: `row` is the probed BPM's row of the measured phase matrix
      (shift = tune), its row of errors (shift = 0) or the model phase column (shift = model
      tune); `indx` is the probed BPM and `m` = range_of_bpms div 2. */
  function Window(row: seq<real>, indx: nat, m: nat, shift: real): (r: seq<Entry>)
    requires indx < |row|
    ensures InRing(r, |row|)
  {
    BranchesInRing(row, indx, m, shift);
    if indx < m then WrappedBelow(row, indx, m, shift)
    else if indx + m >= |row| then WrappedAbove(row, indx, m, shift)
    else Inside(row, indx, m)
  }

  /** Lines 147-150: the window starts before BPM 0, so its head comes from the end of the
      ring with the tune subtracted. */
  function WrappedBelow(row: seq<real>, indx: nat, m: nat, shift: real): seq<Entry>
    requires indx < |row| && indx < m
  {
    var n := |row|;
    var ix := Indexed(row);
    Shifted(PySlice(ix, n + indx - m, n), -shift) + PySlice(ix, 0, indx + m + 1)
  }

  /** Lines 153-156: the window runs past the last BPM, so its tail comes from the start of
      the ring with the tune added. */
  function WrappedAbove(row: seq<real>, indx: nat, m: nat, shift: real): seq<Entry>
    requires indx < |row| && m <= indx
  {
    var n := |row|;
    var ix := Indexed(row);
    PySlice(ix, indx - m, n) + Shifted(PySlice(ix, 0, indx + m + 1 - n), shift)
  }

  /** Lines 159-162: the window lies inside the ring. */
  function Inside(row: seq<real>, indx: nat, m: nat): seq<Entry>
    requires m <= indx && indx + m < |row|
  {
    var ix := Indexed(row);
    seq(2 * m + 1, k requires 0 <= k < 2 * m + 1 => ix[indx - m + k])
  }

  /** Every entry carries the label of one of the n BPMs of the ring. */
  predicate InRing(es: seq<Entry>, n: nat)
  {
    forall k :: 0 <= k < |es| ==> es[k].col < n
  }

  lemma SliceInRing(row: seq<real>, lo: int, hi: int, d: real)
    ensures InRing(PySlice(Indexed(row), lo, hi), |row|)
    ensures InRing(Shifted(PySlice(Indexed(row), lo, hi), d), |row|)
  {
    var ix := Indexed(row);
    PySliceWithin(ix, lo, hi);
    forall x | x in ix ensures x.col < |row| {
      var i :| 0 <= i < |ix| && ix[i] == x;
    }
  }

  /** Each of the three branches takes its entries from the ring. */
  lemma BranchesInRing(row: seq<real>, indx: nat, m: nat, shift: real)
    requires indx < |row|
    ensures indx < m ==> InRing(WrappedBelow(row, indx, m, shift), |row|)
    ensures m <= indx ==> InRing(WrappedAbove(row, indx, m, shift), |row|)
    ensures m <= indx && indx + m < |row| ==> InRing(Inside(row, indx, m), |row|)
  {
    var n := |row|;
    if indx < m {
      SliceInRing(row, n + indx - m, n, -shift);
      SliceInRing(row, 0, indx + m + 1, 0.0);
    }
    if m <= indx {
      SliceInRing(row, indx - m, n, 0.0);
      SliceInRing(row, 0, indx + m + 1 - n, shift);
    }
  }

  /** What an entry at unwrapped position `p` = indx - m + k gets added: minus the tune when it
      wrapped from the end of the ring, plus the tune when it wrapped from the start. */
  function WrapAdjust(n: nat, p: int, shift: real): real
  {
    if p < 0 then -shift else if p >= n then shift else 0.0
  }

  /** When the window fits in the ring (2m + 1 <= n) every branch gives 2m + 1 entries, entry k
      is BPM (indx - m + k) mod n with its value adjusted by the tune exactly when it wrapped;
      the probed BPM sits in the middle, unadjusted. */
  lemma {:induction false} WindowLayout(row: seq<real>, indx: nat, m: nat, shift: real)
    requires indx < |row| && 2 * m < |row|
    ensures var w := Window(row, indx, m, shift);
      |w| == 2 * m + 1 &&
      (forall k :: 0 <= k < |w| ==>
        w[k].col == (indx - m + k) % |row| &&
        w[k].value == row[w[k].col] + WrapAdjust(|row|, indx - m + k, shift)) &&
      w[m] == Entry(indx, row[indx])
  {
    var n := |row|;
    if indx < m {
      WindowLow(row, indx, m, shift);
    } else if indx + m >= n {
      WindowHigh(row, indx, m, shift);
    } else {
      WindowMiddle(row, indx, m, shift);
    }
    ModUnique(indx, 0, indx, n);
  }

  /** Entry k of the window is BPM (indx - m + k) mod n with its wrap adjustment. */
  ghost predicate LaidOut(w: seq<Entry>, row: seq<real>, indx: nat, m: nat, shift: real)
    requires |row| > 0
  {
    |w| == 2 * m + 1 &&
    forall k :: 0 <= k < |w| ==>
      w[k].col == (indx - m + k) % |row| &&
      w[k].value == row[w[k].col] + WrapAdjust(|row|, indx - m + k, shift)
  }

  lemma WindowLow(row: seq<real>, indx: nat, m: nat, shift: real)
    requires indx < |row| && 2 * m < |row| && indx < m
    ensures LaidOut(Window(row, indx, m, shift), row, indx, m, shift)
  {
    var w := Window(row, indx, m, shift);
    WindowLowAt(row, indx, m, shift, 0);
    forall k | 0 <= k < |w|
      ensures w[k].col == (indx - m + k) % |row|
      ensures w[k].value == row[w[k].col] + WrapAdjust(|row|, indx - m + k, shift)
    {
      WindowLowAt(row, indx, m, shift, k);
    }
  }

  lemma WindowLowAt(row: seq<real>, indx: nat, m: nat, shift: real, k: nat)
    requires indx < |row| && 2 * m < |row| && indx < m && k <= 2 * m
    ensures var w := Window(row, indx, m, shift);
      |w| == 2 * m + 1 &&
      w[k].col == (indx - m + k) % |row| &&
      w[k].value == row[w[k].col] + WrapAdjust(|row|, indx - m + k, shift)
  {
    LowWindowEntry(row, indx, m, shift, k);
    Wrapped(indx - m + k, |row|);
  }

  /** A position at most one ring length off the ring wraps by adding or subtracting n. */
  lemma Wrapped(p: int, n: nat)
    requires n > 0 && -(n as int) <= p < 2 * n
    ensures p % n == if p < 0 then p + n else if p >= n then p - n else p
  {
    if p < 0 {
      ModUnique(p, -1, p + n, n);
    } else if p >= n {
      ModUnique(p, 1, p - n, n);
    } else {
      ModUnique(p, 0, p, n);
    }
  }

  /** Entry k of the branch for a window that wraps below the first BPM. */
  lemma LowWindowEntry(row: seq<real>, indx: nat, m: nat, shift: real, k: nat)
    requires indx < |row| && 2 * m < |row| && indx < m && k <= 2 * m
    ensures var w := WrappedBelow(row, indx, m, shift);
      var n := |row|;
      |w| == 2 * m + 1 &&
      w[k] == if k < m - indx then Entry(n + indx - m + k, row[n + indx - m + k] - shift)
              else Entry(indx - m + k, row[indx - m + k])
  {
    var n := |row|;
    var ix := Indexed(row);
    assert PySlice(ix, n + indx - m, n) == ix[n + indx - m..];
    assert PySlice(ix, 0, indx + m + 1) == ix[..indx + m + 1];
  }

  lemma WindowHigh(row: seq<real>, indx: nat, m: nat, shift: real)
    requires indx < |row| && 2 * m < |row| && m <= indx && indx + m >= |row|
    ensures LaidOut(Window(row, indx, m, shift), row, indx, m, shift)
  {
    var w := Window(row, indx, m, shift);
    WindowHighAt(row, indx, m, shift, 0);
    forall k | 0 <= k < |w|
      ensures w[k].col == (indx - m + k) % |row|
      ensures w[k].value == row[w[k].col] + WrapAdjust(|row|, indx - m + k, shift)
    {
      WindowHighAt(row, indx, m, shift, k);
    }
  }

  lemma WindowHighAt(row: seq<real>, indx: nat, m: nat, shift: real, k: nat)
    requires indx < |row| && 2 * m < |row| && m <= indx && indx + m >= |row| && k <= 2 * m
    ensures var w := Window(row, indx, m, shift);
      |w| == 2 * m + 1 &&
      w[k].col == (indx - m + k) % |row| &&
      w[k].value == row[w[k].col] + WrapAdjust(|row|, indx - m + k, shift)
  {
    HighWindowEntry(row, indx, m, shift, k);
    Wrapped(indx - m + k, |row|);
  }

  /** Entry k of the branch for a window that wraps past the last BPM. */
  lemma HighWindowEntry(row: seq<real>, indx: nat, m: nat, shift: real, k: nat)
    requires indx < |row| && 2 * m < |row| && m <= indx && indx + m >= |row| && k <= 2 * m
    ensures var w := WrappedAbove(row, indx, m, shift);
      var n := |row|;
      |w| == 2 * m + 1 &&
      w[k] == if indx - m + k < n then Entry(indx - m + k, row[indx - m + k])
              else Entry(indx - m + k - n, row[indx - m + k - n] + shift)
  {
    var n := |row|;
    var ix := Indexed(row);
    assert PySlice(ix, indx - m, n) == ix[indx - m..];
    assert PySlice(ix, 0, indx + m + 1 - n) == ix[..indx + m + 1 - n];
  }

  lemma WindowMiddle(row: seq<real>, indx: nat, m: nat, shift: real)
    requires indx < |row| && 2 * m < |row| && m <= indx && indx + m < |row|
    ensures LaidOut(Window(row, indx, m, shift), row, indx, m, shift)
  {
    var n := |row|;
    var w := Window(row, indx, m, shift);
    forall k | 0 <= k < |w|
      ensures w[k].col == (indx - m + k) % n
      ensures w[k].value == row[w[k].col] + WrapAdjust(n, indx - m + k, shift)
    {
      ModUnique(indx - m + k, 0, indx - m + k, n);
    }
  }

  /** A window away from both ends of the ring is a plain slice: no entry is tune-adjusted. */
  lemma InteriorWindowUnadjusted(row: seq<real>, indx: nat, m: nat, shift: real)
    requires indx < |row| && 2 * m < |row|
    requires m <= indx && indx + m < |row|
    ensures var w := Window(row, indx, m, shift);
      |w| == 2 * m + 1 &&
      forall k :: 0 <= k < |w| ==> w[k] == Entry(indx - m + k, row[indx - m + k])
  {
    WindowLayout(row, indx, m, shift);
    var w := Window(row, indx, m, shift);
    forall k | 0 <= k < |w| ensures w[k] == Entry(indx - m + k, row[indx - m + k]) {
      ModUnique(indx - m + k, 0, indx - m + k, |row|);
    }
  }

  // ----- the window of lattice elements (lines 144-145, 151, 157, 163, 165) -----

  /** `index.get_loc(name)`: the first position holding `name`, None (KeyError) when the index
      does not hold it. */
  function GetLoc(names: seq<string>, name: string): (r: Option<nat>)
    ensures r.Some? ==> r.value < |names| && names[r.value] == name
    ensures r.Some? ==> forall j :: 0 <= j < r.value ==> names[j] != name
    ensures r.None? <==> name !in names
  {
    if names == [] then None
    else if names[0] == name then Some(0)
    else
      assert names == [names[0]] + names[1..];
      match GetLoc(names[1..], name)
      case None => None
      case Some(j) => Some(j + 1)
  }

  /** An index whose labels are pairwise different, as the element names of a lattice are. */
  predicate Distinct(names: seq<string>)
  {
    forall i, j :: 0 <= i < j < |names| ==> names[i] != names[j]
  }

  /** On distinct labels `get_loc` finds each label at its own position. */
  lemma GetLocDistinct(names: seq<string>, i: nat)
    requires Distinct(names) && i < |names|
    ensures GetLoc(names, names[i]) == Some(i)
  {
    var r := GetLoc(names, names[i]);
    assert r.Some?;
  }

  /** The position of a label that the index holds. */
  function Loc(names: seq<string>, name: string): (r: nat)
    requires name in names
    ensures r < |names| && names[r] == name
  {
    GetLoc(names, name).value
  }

  /** The BPMs that are rows of `elements` come there in the order of the model: both tables
      list the ring in the same direction. */
  predicate InLatticeOrder(elems: seq<string>, bpms: seq<string>)
  {
    forall a, b :: 0 <= a < b < |bpms| && bpms[a] in elems && bpms[b] in elems ==>
      Loc(elems, bpms[a]) < Loc(elems, bpms[b])
  }

  /** Window entry k holds BPM (indx - m + k) mod n: the labels of `outer_meas_phase_adv`. */
  function WindowBpm(bpms: seq<string>, indx: nat, m: nat, k: nat): string
    requires indx < |bpms|
  {
    bpms[(indx - m + k) % |bpms|]
  }

  function WindowNames(bpms: seq<string>, indx: nat, m: nat): (r: seq<string>)
    requires indx < |bpms|
    ensures |r| == 2 * m + 1
    ensures forall k :: 0 <= k <= 2 * m ==> r[k] == WindowBpm(bpms, indx, m, k)
  {
    seq(2 * m + 1, k requires 0 <= k <= 2 * m => WindowBpm(bpms, indx, m, k))
  }

  /** `outer_elmts`: the rows of `elements` from the window's first BPM to its last one, across
      the end of the table when the window wraps. The lookups of lines 144-145 raise KeyError
      (carrying the BPM's name) when the first or the last BPM is not a row of `elements`. */
  function OuterElements(elems: seq<string>, bpms: seq<string>, indx: nat, m: nat)
    : (r: Result<seq<string>, string>)
    requires indx < |bpms|
    ensures r.Err? <==> WindowBpm(bpms, indx, m, 0) !in elems || WindowBpm(bpms, indx, m, 2 * m) !in elems
    ensures r.Err? ==> r.error == WindowBpm(bpms, indx, m, 0) || r.error == WindowBpm(bpms, indx, m, 2 * m)
    ensures r.Ok? ==> forall x :: x in r.value ==> x in elems
  {
    match GetLoc(elems, WindowBpm(bpms, indx, m, 0))
    case None => Err(WindowBpm(bpms, indx, m, 0))
    case Some(first) =>
      match GetLoc(elems, WindowBpm(bpms, indx, m, 2 * m))
      case None => Err(WindowBpm(bpms, indx, m, 2 * m))
      case Some(last) =>
        if indx < m || indx + m >= |bpms| then Ok(elems[first..] + elems[..last + 1])
        else PySliceWithin(elems, first, last + 1); Ok(PySlice(elems, first, last + 1))
  }

  /** Line 165 on a list of names: the `get_loc` position of each, or the KeyError of the first
      name `outer` does not hold. */
  function LocsIn(outer: seq<string>, names: seq<string>): (r: Result<seq<nat>, string>)
    ensures r.Ok? <==> forall k :: 0 <= k < |names| ==> names[k] in outer
    ensures r.Ok? ==> (|r.value| == |names| &&
      forall k :: 0 <= k < |names| ==> GetLoc(outer, names[k]) == Some(r.value[k]))
    ensures r.Err? ==> r.error in names && r.error !in outer
  {
    if names == [] then Ok([])
    else match GetLoc(outer, names[0])
      case None => Err(names[0])
      case Some(j) =>
        match LocsIn(outer, names[1..])
        case Err(e) => Err(e)
        case Ok(rest) =>
          assert forall k :: 1 <= k < |names| ==> names[k] == names[1..][k - 1];
          Ok([j] + rest)
  }

  /** `bpms_inds_elements`: where each window BPM sits in `outer_elmts`, or the KeyError of
      lines 144-145 or 165. */
  function BpmLocs(elems: seq<string>, bpms: seq<string>, indx: nat, m: nat)
    : Result<seq<nat>, string>
    requires indx < |bpms|
  {
    match OuterElements(elems, bpms, indx, m)
    case Err(e) => Err(e)
    case Ok(outer) => LocsIn(outer, WindowNames(bpms, indx, m))
  }

  /** A window BPM that is not a row of `elements` (the error assignment kept only the marked
      rows) makes the lookups raise; a KeyError always names a window BPM. */
  lemma MissingBpmRaises(elems: seq<string>, bpms: seq<string>, indx: nat, m: nat, k: nat)
    requires indx < |bpms| && k <= 2 * m
    requires WindowBpm(bpms, indx, m, k) !in elems
    ensures BpmLocs(elems, bpms, indx, m).Err?
    ensures BpmLocs(elems, bpms, indx, m).error in WindowNames(bpms, indx, m)
  {
    var names := WindowNames(bpms, indx, m);
    assert names[0] == WindowBpm(bpms, indx, m, 0);
    assert names[2 * m] == WindowBpm(bpms, indx, m, 2 * m);
    match OuterElements(elems, bpms, indx, m)
    case Err(e) =>
    case Ok(outer) =>
      assert names[k] !in outer;
  }

  /** The window starts at BPM b0 = (indx - m) mod n and goes on cyclically; the source takes
      a wrapping branch exactly when it passes the last BPM. */
  lemma WindowIndex(n: nat, indx: nat, m: nat, k: nat)
    requires indx < n && 2 * m < n && k <= 2 * m
    ensures var b0 := (indx - m) % n;
      (indx - m + k) % n == (if b0 + k < n then b0 + k else b0 + k - n) &&
      ((indx < m || indx + m >= n) <==> b0 + 2 * m >= n)
  {
    if indx < m {
      ModUnique(indx - m, -1, indx - m + n, n);
      if indx - m + k < 0 { ModUnique(indx - m + k, -1, indx - m + k + n, n); }
      else { ModUnique(indx - m + k, 0, indx - m + k, n); }
    } else {
      ModUnique(indx - m, 0, indx - m, n);
      if indx - m + k < n { ModUnique(indx - m + k, 0, indx - m + k, n); }
      else { ModUnique(indx - m + k, 1, indx - m + k - n, n); }
    }
  }

  /** Where window entry k lies in `outer_elmts`: its row counted from the first BPM's row, on
      the second piece after the whole first piece when the window wraps. */
  function OuterPos(elems: seq<string>, bpms: seq<string>, indx: nat, m: nat, k: nat): int
    requires indx < |bpms| && k <= 2 * m
    requires forall j :: 0 <= j <= 2 * m ==> WindowBpm(bpms, indx, m, j) in elems
  {
    var first := Loc(elems, WindowBpm(bpms, indx, m, 0));
    var p := Loc(elems, WindowBpm(bpms, indx, m, k));
    if (indx - m) % |bpms| + k < |bpms| then p - first else |elems| - first + p
  }

  /** The rows of entries k < l are in window order: within a piece by the lattice order, and
      the second piece (from row 0 to the last BPM) lies before the first. */
  lemma LocsAlongWindow(elems: seq<string>, bpms: seq<string>, indx: nat, m: nat, k: nat, l: nat)
    requires indx < |bpms| && 2 * m < |bpms| && k < l <= 2 * m
    requires InLatticeOrder(elems, bpms)
    requires forall j :: 0 <= j <= 2 * m ==> WindowBpm(bpms, indx, m, j) in elems
    ensures var n := |bpms|;
      var b0 := (indx - m) % n;
      var pk := Loc(elems, WindowBpm(bpms, indx, m, k));
      var pl := Loc(elems, WindowBpm(bpms, indx, m, l));
      (b0 + l < n || b0 + k >= n ==> pk < pl) &&
      (b0 + k < n <= b0 + l ==> pl < pk)
  {
    var n := |bpms|;
    WindowIndex(n, indx, m, k);
    WindowIndex(n, indx, m, l);
    var bk := (indx - m + k) % n;
    var bl := (indx - m + l) % n;
    assert WindowBpm(bpms, indx, m, k) == bpms[bk];
    assert WindowBpm(bpms, indx, m, l) == bpms[bl];
  }

  /** The first BPM's row starts the first piece, and the last BPM's row ends the second. */
  lemma PiecesBounded(elems: seq<string>, bpms: seq<string>, indx: nat, m: nat, k: nat)
    requires indx < |bpms| && 2 * m < |bpms| && k <= 2 * m
    requires InLatticeOrder(elems, bpms)
    requires forall j :: 0 <= j <= 2 * m ==> WindowBpm(bpms, indx, m, j) in elems
    ensures var n := |bpms|;
      var b0 := (indx - m) % n;
      var first := Loc(elems, WindowBpm(bpms, indx, m, 0));
      var last := Loc(elems, WindowBpm(bpms, indx, m, 2 * m));
      var p := Loc(elems, WindowBpm(bpms, indx, m, k));
      (b0 + k < n ==> first <= p) && (b0 + k >= n || b0 + 2 * m < n ==> p <= last) &&
      (b0 + 2 * m >= n ==> last < first)
  {
    var n := |bpms|;
    var b0 := (indx - m) % n;
    if 0 < k { LocsAlongWindow(elems, bpms, indx, m, 0, k); }
    if k < 2 * m { LocsAlongWindow(elems, bpms, indx, m, k, 2 * m); }
    if b0 + 2 * m >= n && 0 < 2 * m { LocsAlongWindow(elems, bpms, indx, m, 0, 2 * m); }
  }

  /** Entry k sits in `outer_elmts` at OuterPos, and its name is there. */
  lemma OuterPosAt(elems: seq<string>, bpms: seq<string>, indx: nat, m: nat, k: nat)
    requires indx < |bpms| && 2 * m < |bpms| && k <= 2 * m
    requires InLatticeOrder(elems, bpms)
    requires forall j :: 0 <= j <= 2 * m ==> WindowBpm(bpms, indx, m, j) in elems
    ensures var outer := OuterElements(elems, bpms, indx, m).value;
      0 <= OuterPos(elems, bpms, indx, m, k) < |outer| &&
      outer[OuterPos(elems, bpms, indx, m, k)] == WindowBpm(bpms, indx, m, k)
  {
    var n := |bpms|;
    WindowIndex(n, indx, m, 0);
    PiecesBounded(elems, bpms, indx, m, k);
    PiecesBounded(elems, bpms, indx, m, 0);
  }

  /** `outer_elmts` repeats no name: its pieces are disjoint runs of distinct rows. */
  lemma OuterDistinct(elems: seq<string>, bpms: seq<string>, indx: nat, m: nat)
    requires indx < |bpms| && 2 * m < |bpms|
    requires Distinct(elems) && InLatticeOrder(elems, bpms)
    requires forall j :: 0 <= j <= 2 * m ==> WindowBpm(bpms, indx, m, j) in elems
    ensures Distinct(OuterElements(elems, bpms, indx, m).value)
  {
    var n := |bpms|;
    var outer := OuterElements(elems, bpms, indx, m).value;
    var first := Loc(elems, WindowBpm(bpms, indx, m, 0));
    var last := Loc(elems, WindowBpm(bpms, indx, m, 2 * m));
    WindowIndex(n, indx, m, 0);
    PiecesBounded(elems, bpms, indx, m, 0);
    if indx < m || indx + m >= n {
      assert last < first;
      assert outer == elems[first..] + elems[..last + 1];
      WrappedDistinct(elems, first, last);
    } else {
      assert outer == elems[first..last + 1];
      SliceDistinct(elems, first, last + 1);
    }
  }

  /** A run of distinct labels repeats none. */
  lemma SliceDistinct(elems: seq<string>, lo: nat, hi: nat)
    requires Distinct(elems) && lo <= hi <= |elems|
    ensures Distinct(elems[lo..hi])
  {
    var s := elems[lo..hi];
    forall i, j | 0 <= i < j < |s| ensures s[i] != s[j] {
      assert s[i] == elems[lo + i] && s[j] == elems[lo + j];
    }
  }

  /** The tail from `first` followed by the head up to `last` repeats no label when the two
      pieces do not overlap. */
  lemma WrappedDistinct(elems: seq<string>, first: nat, last: nat)
    requires Distinct(elems) && last < first < |elems|
    ensures Distinct(elems[first..] + elems[..last + 1])
  {
    var s := elems[first..] + elems[..last + 1];
    forall i, j | 0 <= i < j < |s| ensures s[i] != s[j] {
      var ei := if i < |elems| - first then first + i else i - (|elems| - first);
      var ej := if j < |elems| - first then first + j else j - (|elems| - first);
      assert s[i] == elems[ei] && s[j] == elems[ej];
      assert ei != ej;
    }
  }

  /** With the two tables in lattice order, the lookups raise exactly when some window BPM is
      not a row of `elements`; otherwise every window BPM is found in `outer_elmts`, at a
      position that holds its name and grows along the window. */
  lemma ElementWindowHoldsBpms(elems: seq<string>, bpms: seq<string>, indx: nat, m: nat)
    requires indx < |bpms| && 2 * m < |bpms|
    requires Distinct(elems) && InLatticeOrder(elems, bpms)
    ensures var r := BpmLocs(elems, bpms, indx, m);
      (r.Ok? <==> forall k :: 0 <= k <= 2 * m ==> WindowBpm(bpms, indx, m, k) in elems) &&
      (r.Ok? ==> (|r.value| == 2 * m + 1 &&
        (forall k :: 0 <= k <= 2 * m ==>
          r.value[k] < |OuterElements(elems, bpms, indx, m).value| &&
          OuterElements(elems, bpms, indx, m).value[r.value[k]] == WindowBpm(bpms, indx, m, k)) &&
        (forall k, l :: 0 <= k < l <= 2 * m ==> r.value[k] < r.value[l])))
  {
    if k :| 0 <= k <= 2 * m && WindowBpm(bpms, indx, m, k) !in elems {
      MissingBpmRaises(elems, bpms, indx, m, k);
    } else {
      WindowHoldsAll(elems, bpms, indx, m);
    }
  }

  /** The positive half: every window BPM is a row of `elements`. */
  lemma WindowHoldsAll(elems: seq<string>, bpms: seq<string>, indx: nat, m: nat)
    requires indx < |bpms| && 2 * m < |bpms|
    requires Distinct(elems) && InLatticeOrder(elems, bpms)
    requires forall j :: 0 <= j <= 2 * m ==> WindowBpm(bpms, indx, m, j) in elems
    ensures var r := BpmLocs(elems, bpms, indx, m);
      r.Ok? && |r.value| == 2 * m + 1 &&
      (forall k :: 0 <= k <= 2 * m ==> r.value[k] == OuterPos(elems, bpms, indx, m, k)) &&
      (forall k, l :: 0 <= k < l <= 2 * m ==> r.value[k] < r.value[l])
  {
    var outer := OuterElements(elems, bpms, indx, m).value;
    var names := WindowNames(bpms, indx, m);
    OuterDistinct(elems, bpms, indx, m);
    forall k | 0 <= k <= 2 * m
      ensures names[k] in outer && GetLoc(outer, names[k]) == Some(OuterPos(elems, bpms, indx, m, k))
    {
      OuterPosAt(elems, bpms, indx, m, k);
      GetLocDistinct(outer, OuterPos(elems, bpms, indx, m, k));
    }
    var r := LocsIn(outer, names);
    assert r.Ok?;
    forall k, l | 0 <= k < l <= 2 * m ensures r.value[k] < r.value[l] {
      assert GetLoc(outer, names[k]) == Some(r.value[k]);
      assert GetLoc(outer, names[l]) == Some(r.value[l]);
      OuterPosIncreasing(elems, bpms, indx, m, k, l);
    }
  }

  lemma OuterPosIncreasing(elems: seq<string>, bpms: seq<string>, indx: nat, m: nat, k: nat, l: nat)
    requires indx < |bpms| && 2 * m < |bpms| && k < l <= 2 * m
    requires InLatticeOrder(elems, bpms)
    requires forall j :: 0 <= j <= 2 * m ==> WindowBpm(bpms, indx, m, j) in elems
    ensures OuterPos(elems, bpms, indx, m, k) < OuterPos(elems, bpms, indx, m, l)
  {
    LocsAlongWindow(elems, bpms, indx, m, k, l);
    OuterPosAt(elems, bpms, indx, m, l);
  }
}
