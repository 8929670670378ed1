/** The "tilt and slice" of a BPM x BPM phase-advance matrix used by the 3-BPM method
    (`_tilt_slice_matrix`). The numpy pipeline is written out step by step: the corner tune
    corrections (done in place on the caller's array), the index matrix
    `circulant(invrange)[invrange]`, the gather `matrix[arange(n), idx]`, the row roll and the
    final row slice. The lemmas then prove what the docstring's picture promises: every column
    of the input is rotated upwards one step more than the previous one. */
module PhaseTilt {
  import opened PyOps

  type Matrix = seq<seq<real>>

  ghost predicate IsSquare(mat: Matrix)
  {
    forall i :: 0 <= i < |mat| ==> |mat[i]| == |mat|
  }

  /** `matrix[rlo:rhi, clo:chi] += d` on a value copy of the matrix. */
  function AddBlock(mat: Matrix, rlo: nat, rhi: nat, clo: nat, chi: nat, d: real): (r: Matrix)
    ensures |r| == |mat| && forall i :: 0 <= i < |mat| ==> |r[i]| == |mat[i]|
  {
    seq(|mat|, i requires 0 <= i < |mat| =>
      seq(|mat[i]|, j requires 0 <= j < |mat[i]| =>
        if rlo <= i < rhi && clo <= j < chi then mat[i][j] + d else mat[i][j]))
  }

  /** Lines 478-479: the tune is added to the bottom-left `s` x `s` corner and then subtracted
      from the top-right one. */
  function TuneCorners(mat: Matrix, s: nat, tune: real): (r: Matrix)
    requires s <= |mat|
    ensures |r| == |mat| && forall i :: 0 <= i < |mat| ==> |r[i]| == |mat[i]|
  {
    var n := |mat|;
    AddBlock(AddBlock(mat, n - s, n, 0, s, tune), 0, s, n - s, n, -tune)
  }

  /** `np.arange(n)[::-1]`, called `invrange` in the source. */
  function InvRange(n: nat): (r: seq<int>)
    ensures |r| == n && forall i :: 0 <= i < n ==> 0 <= r[i] < n
  {
    seq(n, i requires 0 <= i < n => n - 1 - i)
  }

  /** `scipy.linalg.circulant(c)`: the matrix whose first column is `c`, each further column
      being the previous one rotated down by one. */
  function Circulant(c: seq<int>): (r: seq<seq<int>>)
    ensures |r| == |c| && forall i :: 0 <= i < |c| ==> |r[i]| == |c|
  {
    seq(|c|, i requires 0 <= i < |c| => seq(|c|, j requires 0 <= j < |c| => c[(i - j) % |c|]))
  }

  /** The first column of the circulant is `c`, and column j is `c` rotated down by j
      (`np.roll(c, j)`). */
  lemma CirculantColumns(c: seq<int>)
    ensures forall i :: 0 <= i < |c| ==> Circulant(c)[i][0] == c[i]
    ensures forall i, j :: 0 <= i < |c| && 0 <= j < |c| ==> Circulant(c)[i][j] == Roll(c, j)[i]
  {
    forall i | 0 <= i < |c| ensures Circulant(c)[i][0] == c[i] {
      ModUnique(i - 0, 0, i, |c|);
    }
  }

  /** `circulant(invrange)[invrange]`: the rows of the circulant taken in reverse order. */
  function TiltIndex(n: nat): (r: seq<seq<int>>)
    ensures |r| == n && forall i :: 0 <= i < n ==> |r[i]| == n
    ensures forall i, j :: 0 <= i < n && 0 <= j < n ==> 0 <= r[i][j] < n
  {
    var c := Circulant(InvRange(n));
    var inv := InvRange(n);
    seq(n, r requires 0 <= r < n => c[inv[r]])
  }

  /** `matrix[np.arange(n), idx]`: the row index broadcasts along the last axis, so entry
      (r, j) is read from row j at column `idx[r][j]`. */
  function Gather(mat: Matrix, idx: seq<seq<int>>): (r: Matrix)
    requires IsSquare(mat)
    requires |idx| == |mat| && forall r :: 0 <= r < |idx| ==> |idx[r]| == |mat|
    requires forall r, j :: 0 <= r < |idx| && 0 <= j < |mat| ==> 0 <= idx[r][j] < |mat|
    ensures |r| == |mat|
  {
    seq(|mat|, r requires 0 <= r < |mat| =>
      seq(|mat|, j requires 0 <= j < |mat| => mat[j][idx[r][j]]))
  }

  /** Line 480-481 after the corner correction: `np.roll(gathered, s, axis=0)[:w]`. */
  function TiltSlice(mat: Matrix, s: nat, w: nat): (r: Matrix)
    requires IsSquare(mat)
    ensures |r| == if w <= |mat| then w else |mat|
  {
    var n := |mat|;
    PySlice(Roll(Gather(mat, TiltIndex(n)), s), 0, w)
  }

  /** The index matrix picks column (r + j) mod n in row j. */
  lemma TiltIndexIsCyclicSum(n: nat)
    ensures forall r, j :: 0 <= r < n && 0 <= j < n ==> TiltIndex(n)[r][j] == (r + j) % n
  {
    forall r, j | 0 <= r < n && 0 <= j < n
      ensures TiltIndex(n)[r][j] == (r + j) % n
    {
      var inv := InvRange(n);
      assert TiltIndex(n)[r] == Circulant(inv)[n - 1 - r];
      assert Circulant(inv)[n - 1 - r][j] == inv[(n - 1 - r - j) % n];
      if r + j < n {
        ModUnique(r + j, 0, r + j, n);
        ModUnique(n - 1 - r - j, 0, n - 1 - r - j, n);
      } else {
        ModUnique(r + j, 1, r + j - n, n);
        ModUnique(n - 1 - r - j, -1, 2 * n - 1 - r - j, n);
      }
    }
  }

  lemma GatherTiltAt(mat: Matrix, r: int, j: int)
    requires IsSquare(mat) && 0 <= r < |mat| && 0 <= j < |mat|
    ensures |Gather(mat, TiltIndex(|mat|))[r]| == |mat|
    ensures Gather(mat, TiltIndex(|mat|))[r][j] == mat[j][(r + j) % |mat|]
  {
    TiltIndexIsCyclicSum(|mat|);
  }

  lemma TiltSliceAt(mat: Matrix, s: nat, w: nat, r: int, j: int)
    requires IsSquare(mat) && 0 <= r < w && r < |mat| && 0 <= j < |mat|
    ensures |TiltSlice(mat, s, w)| == if w <= |mat| then w else |mat|
    ensures |TiltSlice(mat, s, w)[r]| == |mat|
    ensures TiltSlice(mat, s, w)[r][j] == mat[j][(j + r - s) % |mat|]
  {
    TiltSliceRow(mat, s, w, r);
    GatherTiltShifted(mat, r - s, j);
  }

  /** Row `a mod n` of the gathered matrix reads row j at column (j + a) mod n. */
  lemma GatherTiltShifted(mat: Matrix, a: int, j: int)
    requires IsSquare(mat) && 0 <= j < |mat|
    ensures |Gather(mat, TiltIndex(|mat|))[a % |mat|]| == |mat|
    ensures Gather(mat, TiltIndex(|mat|))[a % |mat|][j] == mat[j][(j + a) % |mat|]
  {
    GatherTiltAt(mat, a % |mat|, j);
    ModFold(a, j, |mat|);
  }

  /** Row r of the slice is row (r - s) mod n of the gathered matrix. */
  lemma TiltSliceRow(mat: Matrix, s: nat, w: nat, r: int)
    requires IsSquare(mat) && 0 <= r < w && r < |mat|
    ensures TiltSlice(mat, s, w)[r] == Gather(mat, TiltIndex(|mat|))[(r - s) % |mat|]
  {
    var n := |mat|;
    var g := Gather(mat, TiltIndex(n));
    var rolled := Roll(g, s);
    assert TiltSlice(mat, s, w) == rolled[..SliceBound(w, n)];
    assert rolled[r] == g[(r - s) % n];
  }

  /** `_tilt_slice_matrix` yields min(w, n) rows (the row slice stops at n), each as long as
      the input, and entry (r, j) is row j of the input read at column (j + r - s) mod n. */
  lemma TiltSliceEntry(mat: Matrix, s: nat, w: nat)
    requires IsSquare(mat)
    ensures |TiltSlice(mat, s, w)| == if w <= |mat| then w else |mat|
    ensures forall r, j :: 0 <= r < |TiltSlice(mat, s, w)| && 0 <= j < |mat| ==>
      |TiltSlice(mat, s, w)[r]| == |mat| && TiltSlice(mat, s, w)[r][j] == mat[j][(j + r - s) % |mat|]
  {
    var n := |mat|;
    var t := TiltSlice(mat, s, w);
    forall r, j | 0 <= r < |t| && 0 <= j < n
      ensures |t[r]| == n && t[r][j] == mat[j][(j + r - s) % n]
    {
      TiltSliceAt(mat, s, w, r, j);
    }
  }

  /** Row `s` of the tilted matrix is the diagonal of the (corrected) input. */
  lemma TiltSliceDiagonal(mat: Matrix, s: nat, w: nat)
    requires IsSquare(mat)
    requires s < w && s < |mat|
    ensures forall j :: 0 <= j < |mat| ==> TiltSlice(mat, s, w)[s][j] == mat[j][j]
  {
    TiltSliceEntry(mat, s, w);
    forall j | 0 <= j < |mat| ensures TiltSlice(mat, s, w)[s][j] == mat[j][j] {
      ModUnique(j + s - s, 0, j, |mat|);
    }
  }

  /** Tilting moves entries only within a column: without the slice (w = n), column j of the
      result holds exactly the entries of row j of the input (a rotation of that row). */
  lemma TiltColumnIsRotatedRow(mat: Matrix, s: nat, j: nat)
    requires IsSquare(mat)
    requires j < |mat|
    ensures var t := TiltSlice(mat, s, |mat|);
      |t| == |mat| &&
      multiset(seq(|mat|, r requires 0 <= r < |mat| => t[r][j])) == multiset(mat[j])
  {
    var n := |mat|;
    var t := TiltSlice(mat, s, n);
    if n > 0 {
      TiltSliceAt(mat, s, n, 0, j);
    }
    var col := seq(n, r requires 0 <= r < n => t[r][j]);
    var k := (j - s) % n;
    var row := mat[j];
    forall r | 0 <= r < n ensures col[r] == (row[k..] + row[..k])[r] {
      TiltSliceAt(mat, s, n, r, j);
      RotationIndex(n, j - s, r);
    }
    assert col == row[k..] + row[..k];
    RotationKeepsMultiset(row, k);
  }

  /** Reading at (d + r) mod n walks the rotation that starts at d mod n. */
  lemma RotationIndex(n: nat, d: int, r: nat)
    requires r < n
    ensures var k := d % n;
      (d + r) % n == if r < n - k then k + r else k + r - n
  {
    var k := d % n;
    ModFold(d, r, n);
    if r < n - k {
      ModUnique(k + r, 0, k + r, n);
    } else {
      ModUnique(k + r, 1, k + r - n, n);
    }
  }

  /** With the two corners disjoint (n >= 2s, the source's use has n >= 4), the correction adds
      the tune to the bottom-left corner, subtracts it from the top-right one and changes
      nothing else. */
  lemma TuneCornersEntry(mat: Matrix, s: nat, tune: real)
    requires IsSquare(mat) && 2 * s <= |mat|
    ensures var n := |mat|; var c := TuneCorners(mat, s, tune);
      forall i, j :: 0 <= i < n && 0 <= j < n ==>
        c[i][j] == if i >= n - s && j < s then mat[i][j] + tune
                   else if i < s && j >= n - s then mat[i][j] - tune
                   else mat[i][j]
  {
  }

  /** The numpy array seen as rows. */
  function Rows(a: array2<real>): (r: Matrix)
    reads a
    ensures |r| == a.Length0 && forall i :: 0 <= i < a.Length0 ==> |r[i]| == a.Length1
  {
    seq(a.Length0, i requires 0 <= i < a.Length0 reads a =>
      seq(a.Length1, j requires 0 <= j < a.Length1 reads a => a[i, j]))
  }

  lemma RowsAre(a: array2<real>, m: Matrix)
    requires |m| == a.Length0 && forall i :: 0 <= i < |m| ==> |m[i]| == a.Length1
    requires forall i, j :: 0 <= i < a.Length0 && 0 <= j < a.Length1 ==> a[i, j] == m[i][j]
    ensures Rows(a) == m
  {
    forall i | 0 <= i < |m| ensures Rows(a)[i] == m[i] {
    }
  }

  /** The vectorised in-place update `matrix[rlo:rhi, clo:chi] += d`. */
  method AddBlockInPlace(matrix: array2<real>, rlo: nat, rhi: nat, clo: nat, chi: nat, d: real)
    requires rhi <= matrix.Length0 && chi <= matrix.Length1
    modifies matrix
    ensures Rows(matrix) == AddBlock(old(Rows(matrix)), rlo, rhi, clo, chi, d)
  {
    ghost var before := Rows(matrix);
    forall i, j | rlo <= i < rhi && clo <= j < chi {
      matrix[i, j] := matrix[i, j] + d;
    }
    ghost var after := AddBlock(before, rlo, rhi, clo, chi, d);
    assert forall i, j :: 0 <= i < matrix.Length0 && 0 <= j < matrix.Length1 ==>
      matrix[i, j] == after[i][j];
    RowsAre(matrix, after);
  }

  /** `_tilt_slice_matrix(matrix, slice_shift, slice_width, tune)`: corrects the corners of the
      caller's array in place and returns the tilted slice of the corrected matrix. */
  method TiltSliceMatrix(matrix: array2<real>, s: nat, w: nat, tune: real) returns (res: Matrix)
    requires matrix.Length0 == matrix.Length1 && s <= matrix.Length0
    modifies matrix
    ensures IsSquare(Rows(matrix))
    ensures Rows(matrix) == TuneCorners(old(Rows(matrix)), s, tune)
    ensures res == TiltSlice(Rows(matrix), s, w)
  {
    var n := matrix.Length0;
    AddBlockInPlace(matrix, n - s, n, 0, s, tune);
    AddBlockInPlace(matrix, 0, s, n - s, n, -tune);
    res := TiltSlice(Rows(matrix), s, w);
  }
}
