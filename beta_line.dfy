/** The sensitivity lines of one BPM combination in the N-BPM method
    (`calculate_beta_alpha_from_single_combination`, lines 249-307) and their layout against the
    diagonal of the covariance matrix (`diag` in `n_bpm_method`, lines 171-173).

    A line has one entry per squared phase error of the 2m + 1 window BPMs, followed by four
    blocks of `lng` entries, one per lattice element of the window and per error source (dK1,
    dX, KdS, mKdS). The numbers written into the line are physics (sines, betas, cotangents) and
    are inputs here: `wx[e]`, `wy[e]` stand for `bet_sin_ix`, `bet_sin_iy` at element e and
    `ax[e]`, `ay[e]` for the bracket `.5 * (bet_sin * denomalf + bet_sin / betmdl1 * dif_cot_meas)`
    of the alpha line. */
module SensitivityLine {
  import opened PyOps

  /** `line[start:start + |values|] += values`; a `-=` is a block of negated values. */
  datatype Block = Block(start: nat, values: seq<real>)

  /** What block `b` adds at line position `p`. */
  function BlockAt(b: Block, p: nat): real
  {
    if b.start <= p < b.start + |b.values| then b.values[p - b.start] else 0.0
  }

  /** What the blocks, applied one after the other, add at position `p`. */
  function Contribution(blocks: seq<Block>, p: nat): real
  {
    if blocks == [] then 0.0
    else Contribution(blocks[..|blocks| - 1], p) + BlockAt(blocks[|blocks| - 1], p)
  }

  /** Every block lies inside a line of length `len`: numpy would raise a broadcast error for a
      slice that runs past the end of the line. */
  ghost predicate Fits(blocks: seq<Block>, len: nat)
  {
    forall k :: 0 <= k < |blocks| ==> blocks[k].start + |blocks[k].values| <= len
  }

  /** The two phase-uncertainty assignments `line[ix] = vx; line[iy] = vy`. */
  function PhaseTerm(ix: nat, vx: real, iy: nat, vy: real, p: nat): real
  {
    if p == iy then vy else if p == ix then vx else 0.0
  }

  /** The value the line holds at `p` once everything is written. */
  function LineValue(ix: nat, vx: real, iy: nat, vy: real, blocks: seq<Block>, p: nat): real
  {
    PhaseTerm(ix, vx, iy, vy, p) + Contribution(blocks, p)
  }

  /** `np.zeros(len)`, the two assignments, then the slice updates in program order. */
  method BuildLine(len: nat, ix: nat, vx: real, iy: nat, vy: real, blocks: seq<Block>)
    returns (line: seq<real>)
    requires ix < len && iy < len
    requires Fits(blocks, len)
    ensures |line| == len
    ensures forall p :: 0 <= p < len ==> line[p] == LineValue(ix, vx, iy, vy, blocks, p)
  {
    var a := new real[len](_ => 0.0);
    a[ix] := vx;
    a[iy] := vy;
    var i := 0;
    while i < |blocks|
      invariant 0 <= i <= |blocks|
      invariant forall p :: 0 <= p < len ==>
        a[p] == PhaseTerm(ix, vx, iy, vy, p) + Contribution(blocks[..i], p)
    {
      var b := blocks[i];
      var j := 0;
      while j < |b.values|
        invariant 0 <= j <= |b.values|
        invariant forall p :: 0 <= p < len ==>
          a[p] == PhaseTerm(ix, vx, iy, vy, p) + Contribution(blocks[..i], p) +
                  (if b.start <= p < b.start + j then b.values[p - b.start] else 0.0)
      {
        a[b.start + j] := a[b.start + j] + b.values[j];
        j := j + 1;
      }
      assert blocks[..i + 1][..i] == blocks[..i];
      i := i + 1;
    }
    assert blocks[..|blocks|] == blocks;
    line := a[..];
  }

  // ----- the blocks of one combination -----

  function Scale(c: real, s: seq<real>): (r: seq<real>)
    ensures |r| == |s| && forall i :: 0 <= i < |s| ==> r[i] == c * s[i]
  {
    seq(|s|, i requires 0 <= i < |s| => c * s[i])
  }

  function Times(a: seq<real>, b: seq<real>): (r: seq<real>)
    requires |a| == |b|
    ensures |r| == |a| && forall i :: 0 <= i < |a| ==> r[i] == a[i] * b[i]
  {
    seq(|a|, i requires 0 <= i < |a| => a[i] * b[i])
  }

  function Min(a: nat, b: nat): nat { if a <= b then a else b }
  function Max(a: nat, b: nat): nat { if a <= b then b else a }

  /** `line[off + lo:off + hi] += f * w[lo:hi]`; the source's `line[...] -= f * w[lo:hi]` is
      the block with factor -f. */
  function SliceBlock(off: nat, lo: nat, hi: nat, f: real, w: seq<real>): Block
    requires lo <= hi <= |w|
  {
    Block(off + lo, Scale(f, w[lo..hi]))
  }

  /** `c * w[e]` when element e lies in lo..hi-1, else nothing. */
  function Part(c: real, w: seq<real>, lo: nat, hi: nat, e: nat): real
    requires e < |w|
  {
    if lo <= e < hi then c * w[e] else 0.0
  }

  /** A slice block adds `f * w[e]` at `off + e` for the elements e of its slice, and nothing
      outside off..off+|w|-1. */
  lemma SliceBlockAt(off: nat, lo: nat, hi: nat, f: real, w: seq<real>, p: nat)
    requires lo <= hi <= |w|
    ensures off <= p < off + |w| ==> BlockAt(SliceBlock(off, lo, hi, f, w), p) == Part(f, w, lo, hi, p - off)
    ensures (p < off || off + |w| <= p) ==> BlockAt(SliceBlock(off, lo, hi, f, w), p) == 0.0
  {
  }

  /** `line_length = 4 * lng + 2 * m + 1` */
  function LineLength(m: nat, lng: nat): nat { 4 * lng + 2 * m + 1 }

  /** The position of one combination: window positions ix, iy of the two other BPMs (m is the
      probed one) and the element positions of the three BPMs in the element window. */
  datatype Combination = Combination(m: nat, ix: nat, iy: nat, xloc: nat, yloc: nat, mloc: nat)
  {
    /** `xmloc1, xmloc2 = min(xloc_r, mloc), max(xloc_r, mloc)`, likewise for y. */
    function X1(): nat { Min(xloc, mloc) }
    function X2(): nat { Max(xloc, mloc) }
    function Y1(): nat { Min(yloc, mloc) }
    function Y2(): nat { Max(yloc, mloc) }
    /** `fac1 = -np.sign(c[0] - m)` */
    function Fac1(): real { -(SignInt(ix - m) as real) }
    /** `fac2 = np.sign(c[1] - m)` */
    function Fac2(): real { SignInt(iy - m) as real }
  }

  ghost predicate ValidComb(c: Combination, lng: nat)
  {
    c.ix < c.iy <= 2 * c.m && c.xloc < lng && c.yloc < lng && c.mloc < lng
  }

  /** The eight slice updates of the beta line, in program order (lines 282-293); `base` is
      `off1`, and `off2`..`off4` follow it at distance lng. The dX group carries the K2L factor
      and the mKdS group is subtracted. */
  function BetaBlocks(c: Combination, lng: nat, base: nat, wx: seq<real>, wy: seq<real>, k2: seq<real>)
    : seq<Block>
    requires ValidComb(c, lng) && |wx| == lng && |wy| == lng && |k2| == lng
  {
    [ SliceBlock(base, c.X1(), c.X2(), c.Fac1(), wx),
      SliceBlock(base, c.Y1(), c.Y2(), c.Fac2(), wy),
      SliceBlock(base + lng, c.X1(), c.X2(), c.Fac1(), Times(k2, wx)),
      SliceBlock(base + lng, c.Y1(), c.Y2(), c.Fac2(), Times(k2, wy)),
      SliceBlock(base + 2 * lng, c.X1(), c.X2(), c.Fac1(), wx),
      SliceBlock(base + 2 * lng, c.Y1(), c.Y2(), c.Fac2(), wy),
      SliceBlock(base + 3 * lng, c.X1(), c.X2(), -c.Fac1(), wx),
      SliceBlock(base + 3 * lng, c.Y1(), c.Y2(), -c.Fac2(), wy) ]
  }

  /** The eight slice updates of the alpha line (lines 297-307). Unlike the beta line, the dX
      group uses the beta weights `wx`, `wy`, and the KdS group (but not the mKdS group)
      carries the K2L factor. */
  function AlphaBlocks(c: Combination, lng: nat, base: nat, wx: seq<real>, wy: seq<real>,
                       ax: seq<real>, ay: seq<real>, k2: seq<real>): seq<Block>
    requires ValidComb(c, lng) && |wx| == lng && |wy| == lng && |ax| == lng && |ay| == lng
    requires |k2| == lng
  {
    [ SliceBlock(base, c.X1(), c.X2(), c.Fac1(), ax),
      SliceBlock(base, c.Y1(), c.Y2(), c.Fac2(), ay),
      SliceBlock(base + lng, c.X1(), c.X2(), c.Fac1(), Times(k2, wx)),
      SliceBlock(base + lng, c.Y1(), c.Y2(), c.Fac2(), Times(k2, wy)),
      SliceBlock(base + 2 * lng, c.X1(), c.X2(), c.Fac1(), Times(k2, ax)),
      SliceBlock(base + 2 * lng, c.Y1(), c.Y2(), c.Fac2(), Times(k2, ay)),
      SliceBlock(base + 3 * lng, c.X1(), c.X2(), -c.Fac1(), ax),
      SliceBlock(base + 3 * lng, c.Y1(), c.Y2(), -c.Fac2(), ay) ]
  }

  /** Blocks for element slices of the four groups at base + k * lng fit in the line whenever
      base <= 2m + 1. */
  lemma EightBlocksFit(bs: seq<Block>, base: nat, lng: nat, m: nat)
    requires |bs| == 8 && base <= 2 * m + 1
    requires forall k :: 0 <= k < 8 ==> bs[k].start + |bs[k].values| <= base + 4 * lng
    ensures Fits(bs, LineLength(m, lng))
  {
  }

  /** `betaline` of lines 277-293; `base` is the offset `off1` (`range_of_bpms` as written). */
  method BetaLine(c: Combination, lng: nat, base: nat, vx: real, vy: real,
                  wx: seq<real>, wy: seq<real>, k2: seq<real>) returns (line: seq<real>)
    requires ValidComb(c, lng) && |wx| == lng && |wy| == lng && |k2| == lng
    requires base <= 2 * c.m + 1
    ensures |line| == LineLength(c.m, lng)
    ensures forall p :: 0 <= p < |line| ==>
      line[p] == LineValue(c.ix, vx, c.iy, vy, BetaBlocks(c, lng, base, wx, wy, k2), p)
  {
    var bs := BetaBlocks(c, lng, base, wx, wy, k2);
    EightBlocksFit(bs, base, lng, c.m);
    line := BuildLine(LineLength(c.m, lng), c.ix, vx, c.iy, vy, bs);
  }

  /** `alfaline` of lines 278-307. */
  method AlphaLine(c: Combination, lng: nat, base: nat, vx: real, vy: real, wx: seq<real>,
                   wy: seq<real>, ax: seq<real>, ay: seq<real>, k2: seq<real>)
    returns (line: seq<real>)
    requires ValidComb(c, lng) && |wx| == lng && |wy| == lng && |ax| == lng && |ay| == lng
    requires |k2| == lng && base <= 2 * c.m + 1
    ensures |line| == LineLength(c.m, lng)
    ensures forall p :: 0 <= p < |line| ==>
      line[p] == LineValue(c.ix, vx, c.iy, vy, AlphaBlocks(c, lng, base, wx, wy, ax, ay, k2), p)
  {
    var bs := AlphaBlocks(c, lng, base, wx, wy, ax, ay, k2);
    EightBlocksFit(bs, base, lng, c.m);
    line := BuildLine(LineLength(c.m, lng), c.ix, vx, c.iy, vy, bs);
  }

  // ----- what the line holds, element by element -----

  lemma ContributionStep(bs: seq<Block>, k: nat, p: nat)
    requires k < |bs|
    ensures Contribution(bs[..k + 1], p) == Contribution(bs[..k], p) + BlockAt(bs[k], p)
  {
    assert bs[..k + 1][..k] == bs[..k];
  }

  lemma Contribution8(bs: seq<Block>, p: nat)
    requires |bs| == 8
    ensures Contribution(bs, p) ==
      BlockAt(bs[0], p) + BlockAt(bs[1], p) + BlockAt(bs[2], p) + BlockAt(bs[3], p) +
      BlockAt(bs[4], p) + BlockAt(bs[5], p) + BlockAt(bs[6], p) + BlockAt(bs[7], p)
  {
    assert bs[..0] == [];
    ContributionStep(bs, 0, p);
    ContributionStep(bs, 1, p);
    ContributionStep(bs, 2, p);
    ContributionStep(bs, 3, p);
    ContributionStep(bs, 4, p);
    ContributionStep(bs, 5, p);
    ContributionStep(bs, 6, p);
    ContributionStep(bs, 7, p);
    assert bs[..8] == bs;
  }

  /** What the x-slice and the y-slice of group t add at position p. */
  function PairAt(bs: seq<Block>, t: nat, p: nat): real
    requires |bs| == 8 && t < 4
  {
    BlockAt(bs[2 * t], p) + BlockAt(bs[2 * t + 1], p)
  }

  lemma ContributionByGroup(bs: seq<Block>, p: nat)
    requires |bs| == 8
    ensures Contribution(bs, p) == PairAt(bs, 0, p) + PairAt(bs, 1, p) + PairAt(bs, 2, p) + PairAt(bs, 3, p)
  {
    Contribution8(bs, p);
  }

  /** The position of element e of error group g (0 = dK1, 1 = dX, 2 = KdS, 3 = mKdS). */
  function GroupPos(base: nat, lng: nat, g: nat, e: nat): nat
    requires g < 4
  {
    if g == 0 then base + e
    else if g == 1 then base + lng + e
    else if g == 2 then base + 2 * lng + e
    else base + 3 * lng + e
  }

  /** Eight blocks laid out as the source lays them out: for each group t an x-slice and a
      y-slice at offset base + t * lng, with factors `fx[t]`, `fy[t]` and weights `wx[t]`,
      `wy[t]`. */
  ghost predicate GroupLayout(bs: seq<Block>, base: nat, lng: nat, lx: nat, hx: nat, ly: nat,
                              hy: nat, fx: seq<real>, wx: seq<seq<real>>, fy: seq<real>,
                              wy: seq<seq<real>>)
  {
    |bs| == 8 && |fx| == 4 && |wx| == 4 && |fy| == 4 && |wy| == 4 &&
    lx <= hx <= lng && ly <= hy <= lng &&
    forall t :: 0 <= t < 4 ==>
      |wx[t]| == lng && |wy[t]| == lng &&
      bs[2 * t] == SliceBlock(GroupPos(base, lng, t, 0), lx, hx, fx[t], wx[t]) &&
      bs[2 * t + 1] == SliceBlock(GroupPos(base, lng, t, 0), ly, hy, fy[t], wy[t])
  }

  /** The two blocks of group t add the group's terms for element p - off at position p. */
  lemma GroupPairIn(bs: seq<Block>, base: nat, lng: nat, lx: nat, hx: nat, ly: nat, hy: nat,
                    fx: seq<real>, wx: seq<seq<real>>, fy: seq<real>, wy: seq<seq<real>>,
                    t: nat, e: nat)
    requires GroupLayout(bs, base, lng, lx, hx, ly, hy, fx, wx, fy, wy) && t < 4 && e < lng
    ensures PairAt(bs, t, GroupPos(base, lng, t, e)) ==
      Part(fx[t], wx[t], lx, hx, e) + Part(fy[t], wy[t], ly, hy, e)
  {
    var off := GroupPos(base, lng, t, 0);
    SliceBlockAt(off, lx, hx, fx[t], wx[t], GroupPos(base, lng, t, e));
    SliceBlockAt(off, ly, hy, fy[t], wy[t], GroupPos(base, lng, t, e));
  }

  /** Outside the elements of group t its two blocks add nothing. */
  lemma GroupPairOut(bs: seq<Block>, base: nat, lng: nat, lx: nat, hx: nat, ly: nat, hy: nat,
                     fx: seq<real>, wx: seq<seq<real>>, fy: seq<real>, wy: seq<seq<real>>,
                     t: nat, p: nat)
    requires GroupLayout(bs, base, lng, lx, hx, ly, hy, fx, wx, fy, wy) && t < 4
    requires p < GroupPos(base, lng, t, 0) || GroupPos(base, lng, t, 0) + lng <= p
    ensures PairAt(bs, t, p) == 0.0
  {
    var off := GroupPos(base, lng, t, 0);
    SliceBlockAt(off, lx, hx, fx[t], wx[t], p);
    SliceBlockAt(off, ly, hy, fy[t], wy[t], p);
  }

  /** At element e of group g only the two blocks of group g contribute. */
  lemma GroupEntry(bs: seq<Block>, base: nat, lng: nat, lx: nat, hx: nat, ly: nat, hy: nat,
                   fx: seq<real>, wx: seq<seq<real>>, fy: seq<real>, wy: seq<seq<real>>,
                   g: nat, e: nat)
    requires GroupLayout(bs, base, lng, lx, hx, ly, hy, fx, wx, fy, wy) && g < 4 && e < lng
    ensures Contribution(bs, GroupPos(base, lng, g, e)) ==
      Part(fx[g], wx[g], lx, hx, e) + Part(fy[g], wy[g], ly, hy, e)
  {
    var p := GroupPos(base, lng, g, e);
    ContributionByGroup(bs, p);
    GroupPairIn(bs, base, lng, lx, hx, ly, hy, fx, wx, fy, wy, g, e);
    if g != 0 { GroupPairOut(bs, base, lng, lx, hx, ly, hy, fx, wx, fy, wy, 0, p); }
    if g != 1 { GroupPairOut(bs, base, lng, lx, hx, ly, hy, fx, wx, fy, wy, 1, p); }
    if g != 2 { GroupPairOut(bs, base, lng, lx, hx, ly, hy, fx, wx, fy, wy, 2, p); }
    if g != 3 { GroupPairOut(bs, base, lng, lx, hx, ly, hy, fx, wx, fy, wy, 3, p); }
  }

  /** Below `base` only the two phase assignments are present. */
  lemma BelowBlocks(bs: seq<Block>, base: nat, lng: nat, lx: nat, hx: nat, ly: nat, hy: nat,
                    fx: seq<real>, wx: seq<seq<real>>, fy: seq<real>, wy: seq<seq<real>>, p: nat)
    requires GroupLayout(bs, base, lng, lx, hx, ly, hy, fx, wx, fy, wy) && p < base
    ensures Contribution(bs, p) == 0.0
  {
    ContributionByGroup(bs, p);
    GroupPairOut(bs, base, lng, lx, hx, ly, hy, fx, wx, fy, wy, 0, p);
    GroupPairOut(bs, base, lng, lx, hx, ly, hy, fx, wx, fy, wy, 1, p);
    GroupPairOut(bs, base, lng, lx, hx, ly, hy, fx, wx, fy, wy, 2, p);
    GroupPairOut(bs, base, lng, lx, hx, ly, hy, fx, wx, fy, wy, 3, p);
  }

  /** The x-factors of the beta line's groups: `fac1` three times, then `-fac1` (`-=`). */
  function BetaFx(c: Combination): seq<real> { [c.Fac1(), c.Fac1(), c.Fac1(), -c.Fac1()] }
  function BetaFy(c: Combination): seq<real> { [c.Fac2(), c.Fac2(), c.Fac2(), -c.Fac2()] }
  /** The weights of the beta line's groups: only dX carries `K2L`. */
  function BetaW(k2: seq<real>, w: seq<real>): seq<seq<real>>
    requires |k2| == |w|
  {
    [w, Times(k2, w), w, w]
  }

  lemma BetaLayout(c: Combination, lng: nat, base: nat, wx: seq<real>, wy: seq<real>, k2: seq<real>)
    requires ValidComb(c, lng) && |wx| == lng && |wy| == lng && |k2| == lng
    ensures GroupLayout(BetaBlocks(c, lng, base, wx, wy, k2), base, lng, c.X1(), c.X2(), c.Y1(),
                        c.Y2(), BetaFx(c), BetaW(k2, wx), BetaFy(c), BetaW(k2, wy))
  {
  }

  /** Below the first slice the beta line holds the phase terms at ix and iy and nothing else.
      At the offset 2m + 1 these are all 2m + 1 window positions; at the offset the source
      writes for an even range_of_bpms (2m), all but position 2m. */
  lemma BetaLinePhases(c: Combination, lng: nat, base: nat, vx: real, vy: real,
                       wx: seq<real>, wy: seq<real>, k2: seq<real>, p: nat)
    requires ValidComb(c, lng) && |wx| == lng && |wy| == lng && |k2| == lng
    requires p < base
    ensures LineValue(c.ix, vx, c.iy, vy, BetaBlocks(c, lng, base, wx, wy, k2), p) ==
      (if p == c.ix then vx else if p == c.iy then vy else 0.0)
  {
    BetaLayout(c, lng, base, wx, wy, k2);
    BelowBlocks(BetaBlocks(c, lng, base, wx, wy, k2), base, lng, c.X1(), c.X2(), c.Y1(), c.Y2(),
                BetaFx(c), BetaW(k2, wx), BetaFy(c), BetaW(k2, wy), p);
  }

  /** At element e of group g the beta line holds, on top of any phase term written at that
      position, the sum of what the x-slice and the y-slice of group g put there:
      `fac1 * bet_sin_ix[e]` and `fac2 * bet_sin_iy[e]` (times K2L for dX, negated for mKdS),
      each only when the slice covers e. Past the window (offset above 2m) no phase term is
      there. */
  lemma BetaLineEntry(c: Combination, lng: nat, base: nat, vx: real, vy: real,
                      wx: seq<real>, wy: seq<real>, k2: seq<real>, g: nat, e: nat)
    requires ValidComb(c, lng) && |wx| == lng && |wy| == lng && |k2| == lng && g < 4 && e < lng
    ensures var p := GroupPos(base, lng, g, e);
      LineValue(c.ix, vx, c.iy, vy, BetaBlocks(c, lng, base, wx, wy, k2), p) ==
        PhaseTerm(c.ix, vx, c.iy, vy, p) +
        Part(BetaFx(c)[g], BetaW(k2, wx)[g], c.X1(), c.X2(), e) +
        Part(BetaFy(c)[g], BetaW(k2, wy)[g], c.Y1(), c.Y2(), e)
    ensures base > 2 * c.m ==>
      LineValue(c.ix, vx, c.iy, vy, BetaBlocks(c, lng, base, wx, wy, k2), GroupPos(base, lng, g, e)) ==
        Part(BetaFx(c)[g], BetaW(k2, wx)[g], c.X1(), c.X2(), e) +
        Part(BetaFy(c)[g], BetaW(k2, wy)[g], c.Y1(), c.Y2(), e)
  {
    BetaLayout(c, lng, base, wx, wy, k2);
    GroupEntry(BetaBlocks(c, lng, base, wx, wy, k2), base, lng, c.X1(), c.X2(), c.Y1(), c.Y2(),
               BetaFx(c), BetaW(k2, wx), BetaFy(c), BetaW(k2, wy), g, e);
  }

  /** A quadrupole's longitudinal misalignment enters the beta line twice, with opposite signs:
      once at the quadrupole (KdS) and once at the element in front of it (mKdS); and the KdS
      entry equals the dK1 entry. The slice updates do so at any offset; the whole line does
      once the offset is past the window. */
  lemma BetaLineQuadrupoleTerms(c: Combination, lng: nat, base: nat, vx: real, vy: real,
                                wx: seq<real>, wy: seq<real>, k2: seq<real>, e: nat)
    requires ValidComb(c, lng) && |wx| == lng && |wy| == lng && |k2| == lng && e < lng
    ensures var bs := BetaBlocks(c, lng, base, wx, wy, k2);
      Contribution(bs, GroupPos(base, lng, 3, e)) == -Contribution(bs, GroupPos(base, lng, 2, e)) &&
      Contribution(bs, GroupPos(base, lng, 2, e)) == Contribution(bs, GroupPos(base, lng, 0, e))
    ensures var bs := BetaBlocks(c, lng, base, wx, wy, k2);
      base > 2 * c.m ==>
        LineValue(c.ix, vx, c.iy, vy, bs, GroupPos(base, lng, 3, e)) ==
          -LineValue(c.ix, vx, c.iy, vy, bs, GroupPos(base, lng, 2, e)) &&
        LineValue(c.ix, vx, c.iy, vy, bs, GroupPos(base, lng, 2, e)) ==
          LineValue(c.ix, vx, c.iy, vy, bs, GroupPos(base, lng, 0, e))
  {
    MisalignmentTermsOpposite(c, lng, base, vx, vy, wx, wy, k2, e);
    MisalignmentTermIsGradientTerm(c, lng, base, vx, vy, wx, wy, k2, e);
  }

  /** The mKdS entry of an element is its KdS entry negated: in the slice updates at any
      offset, and in the whole line from offset 2m on, which covers the offset the source
      writes for every range_of_bpms. */
  lemma MisalignmentTermsOpposite(c: Combination, lng: nat, base: nat, vx: real, vy: real,
                                  wx: seq<real>, wy: seq<real>, k2: seq<real>, e: nat)
    requires ValidComb(c, lng) && |wx| == lng && |wy| == lng && |k2| == lng && e < lng
    ensures var bs := BetaBlocks(c, lng, base, wx, wy, k2);
      Contribution(bs, GroupPos(base, lng, 3, e)) == -Contribution(bs, GroupPos(base, lng, 2, e))
    ensures var bs := BetaBlocks(c, lng, base, wx, wy, k2);
      base >= 2 * c.m ==>
        LineValue(c.ix, vx, c.iy, vy, bs, GroupPos(base, lng, 3, e)) ==
          -LineValue(c.ix, vx, c.iy, vy, bs, GroupPos(base, lng, 2, e))
  {
    BetaLineEntry(c, lng, base, vx, vy, wx, wy, k2, 2, e);
    BetaLineEntry(c, lng, base, vx, vy, wx, wy, k2, 3, e);
    GroupTermsOpposite(c, k2, wx, wy, e);
  }

  /** The element terms of the mKdS group are those of the KdS group, negated. */
  lemma GroupTermsOpposite(c: Combination, k2: seq<real>, wx: seq<real>, wy: seq<real>, e: nat)
    requires |k2| == |wx| == |wy| && e < |wx|
    ensures Part(BetaFx(c)[3], BetaW(k2, wx)[3], c.X1(), c.X2(), e) +
            Part(BetaFy(c)[3], BetaW(k2, wy)[3], c.Y1(), c.Y2(), e) ==
      -(Part(BetaFx(c)[2], BetaW(k2, wx)[2], c.X1(), c.X2(), e) +
        Part(BetaFy(c)[2], BetaW(k2, wy)[2], c.Y1(), c.Y2(), e))
  {
    BetaGroupsAlike(c, k2, wx, wy);
    NegPart(c.Fac1(), wx, c.X1(), c.X2(), e);
    NegPart(c.Fac2(), wy, c.Y1(), c.Y2(), e);
  }

  /** The KdS entry of an element equals its dK1 entry: in the slice updates at any offset,
      and in the whole line once the offset is past the window. At the offset 2m of an even
      range_of_bpms the first dK1 entry also holds the phase term of iy = 2m. */
  lemma MisalignmentTermIsGradientTerm(c: Combination, lng: nat, base: nat, vx: real, vy: real,
                                       wx: seq<real>, wy: seq<real>, k2: seq<real>, e: nat)
    requires ValidComb(c, lng) && |wx| == lng && |wy| == lng && |k2| == lng && e < lng
    ensures var bs := BetaBlocks(c, lng, base, wx, wy, k2);
      Contribution(bs, GroupPos(base, lng, 2, e)) == Contribution(bs, GroupPos(base, lng, 0, e))
    ensures var bs := BetaBlocks(c, lng, base, wx, wy, k2);
      base > 2 * c.m ==>
        LineValue(c.ix, vx, c.iy, vy, bs, GroupPos(base, lng, 2, e)) ==
          LineValue(c.ix, vx, c.iy, vy, bs, GroupPos(base, lng, 0, e))
  {
    BetaLineEntry(c, lng, base, vx, vy, wx, wy, k2, 0, e);
    BetaLineEntry(c, lng, base, vx, vy, wx, wy, k2, 2, e);
    BetaGroupsAlike(c, k2, wx, wy);
  }

  /** The dK1 and KdS groups of the beta line have the same factors and weights, and the mKdS
      group has the same weights with negated factors. */
  lemma BetaGroupsAlike(c: Combination, k2: seq<real>, wx: seq<real>, wy: seq<real>)
    requires |k2| == |wx| == |wy|
    ensures BetaFx(c)[0] == BetaFx(c)[2] == c.Fac1() && BetaFx(c)[3] == -c.Fac1()
    ensures BetaFy(c)[0] == BetaFy(c)[2] == c.Fac2() && BetaFy(c)[3] == -c.Fac2()
    ensures BetaW(k2, wx)[0] == BetaW(k2, wx)[2] == BetaW(k2, wx)[3] == wx
    ensures BetaW(k2, wy)[0] == BetaW(k2, wy)[2] == BetaW(k2, wy)[3] == wy
  {
  }

  lemma NegPart(f: real, w: seq<real>, lo: nat, hi: nat, e: nat)
    requires e < |w|
    ensures Part(-f, w, lo, hi, e) == -Part(f, w, lo, hi, e)
  {
  }

  // ----- the covariance diagonal (lines 171-173) -----

  /** `diag`: squared phase errors of the window BPMs, then dK1, dX, KdS, mKdS of its elements. */
  function Diagonal(errSq: seq<real>, dK1: seq<real>, dX: seq<real>, kdS: seq<real>,
                    mkdS: seq<real>): seq<real>
  {
    errSq + dK1 + dX + kdS + mkdS
  }

  /** The diagonal has the line's length, and the error of element e of group g sits at
      2m + 1 + g * lng + e. */
  lemma DiagonalLayout(m: nat, base: nat, errSq: seq<real>, dK1: seq<real>, dX: seq<real>,
                       kdS: seq<real>, mkdS: seq<real>, g: nat, e: nat)
    requires |errSq| == 2 * m + 1 && base == 2 * m + 1
    requires |dX| == |dK1| && |kdS| == |dK1| && |mkdS| == |dK1|
    requires g < 4 && e < |dK1|
    ensures |Diagonal(errSq, dK1, dX, kdS, mkdS)| == LineLength(m, |dK1|)
    ensures GroupPos(base, |dK1|, g, e) < LineLength(m, |dK1|)
    ensures Diagonal(errSq, dK1, dX, kdS, mkdS)[GroupPos(base, |dK1|, g, e)] ==
      [dK1, dX, kdS, mkdS][g][e]
  {
  }

  /** The offset `off1` as the source writes it. */
  function AsWrittenBase(rangeOfBpms: nat): nat { rangeOfBpms }

  /** The offset at which the diagonal's dK1 block starts: 2m + 1 with m = range_of_bpms div 2. */
  function IntendedBase(rangeOfBpms: nat): nat
  {
    2 * (rangeOfBpms / 2) + 1
  }

  /** The written offset lines up with the diagonal exactly when range_of_bpms is odd. */
  lemma AsWrittenAlignedIffOdd(rangeOfBpms: nat)
    ensures AsWrittenBase(rangeOfBpms) == IntendedBase(rangeOfBpms) <==> rangeOfBpms % 2 == 1
  {
    ModUnique(rangeOfBpms, rangeOfBpms / 2, rangeOfBpms % 2, 2);
  }

  /** With range_of_bpms = 10 (m = 5) the beta line as written puts the dK1 term of the first
      element at position 10, where the diagonal holds the squared phase error of the last
      window BPM, and that position also holds the phase term of iy = 10. The example takes the
      elements in lattice order: xloc = 0, mloc = 1, yloc = 2. */
  lemma EvenRangeMisaligned(wx: seq<real>, wy: seq<real>, k2: seq<real>, errSq: seq<real>,
                            dK1: seq<real>, dX: seq<real>, kdS: seq<real>, mkdS: seq<real>)
    requires |wx| == 3 && |wy| == 3 && |k2| == 3 && |errSq| == 11
    requires |dK1| == 3 && |dX| == 3 && |kdS| == 3 && |mkdS| == 3
    ensures Diagonal(errSq, dK1, dX, kdS, mkdS)[AsWrittenBase(10)] == errSq[10]
    ensures LineValue(0, 1.0, 10, 2.0,
      BetaBlocks(Combination(5, 0, 10, 0, 2, 1), 3, AsWrittenBase(10), wx, wy, k2), 10) == 2.0 + wx[0]
  {
    var c := Combination(5, 0, 10, 0, 2, 1);
    BetaLayout(c, 3, 10, wx, wy, k2);
    GroupEntry(BetaBlocks(c, 3, 10, wx, wy, k2), 10, 3, c.X1(), c.X2(), c.Y1(), c.Y2(),
               BetaFx(c), BetaW(k2, wx), BetaFy(c), BetaW(k2, wy), 0, 0);
  }

  /** With the intended offset every element term of the beta line lands on the diagonal entry
      of the same element and error source, whatever range_of_bpms is. */
  lemma IntendedBaseAligned(rangeOfBpms: nat, c: Combination, lng: nat, vx: real, vy: real,
                            wx: seq<real>, wy: seq<real>, k2: seq<real>, errSq: seq<real>,
                            dK1: seq<real>, dX: seq<real>, kdS: seq<real>, mkdS: seq<real>,
                            g: nat, e: nat)
    requires c.m == rangeOfBpms / 2 && ValidComb(c, lng)
    requires |wx| == lng && |wy| == lng && |k2| == lng && |errSq| == 2 * c.m + 1
    requires |dK1| == lng && |dX| == lng && |kdS| == lng && |mkdS| == lng && g < 4 && e < lng
    ensures var p := GroupPos(IntendedBase(rangeOfBpms), lng, g, e);
      p < |Diagonal(errSq, dK1, dX, kdS, mkdS)| &&
      Diagonal(errSq, dK1, dX, kdS, mkdS)[p] == [dK1, dX, kdS, mkdS][g][e] &&
      LineValue(c.ix, vx, c.iy, vy, BetaBlocks(c, lng, IntendedBase(rangeOfBpms), wx, wy, k2), p) ==
        Part(BetaFx(c)[g], BetaW(k2, wx)[g], c.X1(), c.X2(), e) +
        Part(BetaFy(c)[g], BetaW(k2, wy)[g], c.Y1(), c.Y2(), e)
  {
    var base := IntendedBase(rangeOfBpms);
    DiagonalLayout(c.m, base, errSq, dK1, dX, kdS, mkdS, g, e);
    BetaLineEntry(c, lng, base, vx, vy, wx, wy, k2, g, e);
  }
}
