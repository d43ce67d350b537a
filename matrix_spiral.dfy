/**
 * Spiral copy of a rectangular matrix: the outer ring clockwise from the
 * top-left corner (top row left to right, right column downwards, bottom row
 * right to left, left column upwards), then the ring inside it, and so on.
 *
 * The visiting order is defined on cell positions, ring by ring with the same
 * boundary updates as the loop; `SpiralCopy` is proved to return the matrix
 * entries in that order, and the lemmas show that the order visits every
 * cell exactly once.
 */
module MatrixSpiral {

  /** A cell position: (row, column). */
  type Pos = (int, int)

  /** The rows `top..btm` and columns `left..right` (all bounds inclusive) still to copy. */
  datatype Bounds = Bounds(top: int, btm: int, left: int, right: int)

  /** Bounds the loop can reach: possibly empty, but by at most one row or column. */
  predicate Proper(b: Bounds) {
    b.top <= b.btm + 1 && b.left <= b.right + 1
  }

  /** The loop condition: at least one row and one column are left. */
  predicate Open(b: Bounds) {
    b.top <= b.btm && b.left <= b.right
  }

  predicate InRect(p: Pos, b: Bounds) {
    b.top <= p.0 <= b.btm && b.left <= p.1 <= b.right
  }

  function Area(b: Bounds): int {
    (b.btm - b.top + 1) * (b.right - b.left + 1)
  }

  /** Row `r`, columns `lo..hi`, left to right when `forward`, else right to left. */
  function HRun(r: int, lo: int, hi: int, forward: bool): (ps: seq<Pos>)
    ensures |ps| == if lo <= hi then hi - lo + 1 else 0
  {
    seq(if lo <= hi then hi - lo + 1 else 0, k => if forward then (r, lo + k) else (r, hi - k))
  }

  /** Column `c`, rows `lo..hi`, downwards when `forward`, else upwards. */
  function VRun(c: int, lo: int, hi: int, forward: bool): (ps: seq<Pos>)
    ensures |ps| == if lo <= hi then hi - lo + 1 else 0
  {
    seq(if lo <= hi then hi - lo + 1 else 0, k => if forward then (lo + k, c) else (hi - k, c))
  }

  /** The bounds after one pass of the loop body. */
  function Inner(b: Bounds): (i: Bounds)
    requires Open(b)
    ensures i.right == b.right - 1
  {
    var top1 := b.top + 1;
    var right1 := b.right - 1;
    Bounds(top1,
           if top1 <= b.btm then b.btm - 1 else b.btm,
           if b.left <= right1 then b.left + 1 else b.left,
           right1)
  }

  /** The uppermost row, left to right. */
  function TopRun(b: Bounds): seq<Pos>
    requires Open(b)
  {
    HRun(b.top, b.left, b.right, true)
  }

  /** The rightmost column, downwards from below the top row to above the bottom row. */
  function RightRun(b: Bounds): seq<Pos>
    requires Open(b)
  {
    VRun(b.right, b.top + 1, b.btm - 1, true)
  }

  /** The lowermost row, right to left, when a row is left below the top one. */
  function BottomRun(b: Bounds): seq<Pos>
    requires Open(b)
  {
    if b.top + 1 <= b.btm then HRun(b.btm, b.left, b.right, false) else []
  }

  /** The leftmost column, upwards to below the top row, when a column is left beside the right one. */
  function LeftRun(b: Bounds): seq<Pos>
    requires Open(b)
  {
    if b.left <= b.right - 1 then VRun(b.left, b.top + 1, Inner(b).btm, false) else []
  }

  /** One pass of the loop body. */
  function Ring(b: Bounds): seq<Pos>
    requires Open(b)
  {
    TopRun(b) + RightRun(b) + BottomRun(b) + LeftRun(b)
  }

  /** Positions in the order the loop copies them. */
  function Spiral(b: Bounds): seq<Pos>
    decreases b.right - b.left + 1
  {
    if Open(b) then Ring(b) + Spiral(Inner(b)) else []
  }

  predicate Rectangular(m: seq<seq<int>>) {
    |m| > 0 && forall i :: 0 <= i < |m| ==> |m[i]| == |m[0]|
  }

  function Whole(m: seq<seq<int>>): Bounds
    requires |m| > 0
  {
    Bounds(0, |m| - 1, 0, |m[0]| - 1)
  }

  /** The entry at `p`, or 0 off the matrix (never used: every visited position is a cell). */
  function At(m: seq<seq<int>>, p: Pos): int {
    if 0 <= p.0 < |m| && 0 <= p.1 < |m[p.0]| then m[p.0][p.1] else 0
  }

  /** The entries at the positions `ps`, in order. */
  function Values(m: seq<seq<int>>, ps: seq<Pos>): (vs: seq<int>)
    ensures |vs| == |ps|
  {
    seq(|ps|, k requires 0 <= k < |ps| => At(m, ps[k]))
  }

  /** The entries of `m` in spiral order. */
  function SpiralOrder(m: seq<seq<int>>): seq<int>
    requires |m| > 0
  {
    Values(m, Spiral(Whole(m)))
  }

  // ---------------------------------------------------------------------
  // Exactly once
  // ---------------------------------------------------------------------

  lemma {:induction false} HRunCount(r: int, lo: int, hi: int, forward: bool, p: Pos)
    ensures multiset(HRun(r, lo, hi, forward))[p] == if p.0 == r && lo <= p.1 <= hi then 1 else 0
    decreases hi - lo
  {
    if lo <= hi {
      if forward {
        HRunCount(r, lo, hi - 1, forward, p);
        assert HRun(r, lo, hi, forward) == HRun(r, lo, hi - 1, forward) + [(r, hi)];
      } else {
        HRunCount(r, lo + 1, hi, forward, p);
        assert HRun(r, lo, hi, forward) == HRun(r, lo + 1, hi, forward) + [(r, lo)];
      }
    }
  }

  lemma {:induction false} VRunCount(c: int, lo: int, hi: int, forward: bool, p: Pos)
    ensures multiset(VRun(c, lo, hi, forward))[p] == if p.1 == c && lo <= p.0 <= hi then 1 else 0
    decreases hi - lo
  {
    if lo <= hi {
      if forward {
        VRunCount(c, lo, hi - 1, forward, p);
        assert VRun(c, lo, hi, forward) == VRun(c, lo, hi - 1, forward) + [(hi, c)];
      } else {
        VRunCount(c, lo + 1, hi, forward, p);
        assert VRun(c, lo, hi, forward) == VRun(c, lo + 1, hi, forward) + [(lo, c)];
      }
    }
  }

  /** How often each run of a pass visits `p`. */
  lemma RunCounts(b: Bounds, p: Pos)
    requires Open(b)
    ensures multiset(TopRun(b))[p] == if p.0 == b.top && b.left <= p.1 <= b.right then 1 else 0
    ensures multiset(RightRun(b))[p] == if p.1 == b.right && b.top + 1 <= p.0 <= b.btm - 1 then 1 else 0
    ensures multiset(BottomRun(b))[p] == if b.top + 1 <= b.btm && p.0 == b.btm && b.left <= p.1 <= b.right then 1 else 0
    ensures multiset(LeftRun(b))[p] == if b.left <= b.right - 1 && p.1 == b.left && b.top + 1 <= p.0 <= Inner(b).btm then 1 else 0
  {
    HRunCount(b.top, b.left, b.right, true, p);
    VRunCount(b.right, b.top + 1, b.btm - 1, true, p);
    HRunCount(b.btm, b.left, b.right, false, p);
    VRunCount(b.left, b.top + 1, Inner(b).btm, false, p);
  }

  /** One pass copies exactly the cells of the border: those of the rectangle outside the inner one. */
  lemma RingCount(b: Bounds, p: Pos)
    requires Open(b)
    ensures Proper(Inner(b))
    ensures InRect(p, Inner(b)) ==> InRect(p, b)
    ensures multiset(Ring(b))[p] == if InRect(p, b) && !InRect(p, Inner(b)) then 1 else 0
  {
    var t, r, bt, l := TopRun(b), RightRun(b), BottomRun(b), LeftRun(b);
    assert multiset(Ring(b)) == multiset(t) + multiset(r) + multiset(bt) + multiset(l);
    RunCounts(b, p);
  }

  /** The spiral order visits each cell of the rectangle exactly once, and nothing else. */
  lemma {:induction false} SpiralCount(b: Bounds, p: Pos)
    requires Proper(b)
    ensures multiset(Spiral(b))[p] == if InRect(p, b) then 1 else 0
    decreases b.right - b.left + 1
  {
    if Open(b) {
      RingCount(b, p);
      SpiralCount(Inner(b), p);
    }
  }

  /** One pass copies the area between the rectangle and the inner one. */
  lemma RingLength(b: Bounds)
    requires Open(b)
    ensures |Ring(b)| == Area(b) - Area(Inner(b))
  {
    var h, w := b.btm - b.top + 1, b.right - b.left + 1;
    var i := Inner(b);
    if h == 1 {
      assert Area(i) == 0 * (i.right - i.left + 1);
      assert Area(b) == w;
    } else if w == 1 {
      assert Area(i) == (h - 2) * 0;
      assert Area(b) == h;
    } else {
      assert Area(i) == (h - 2) * (w - 2);
      assert Area(b) == h * w;
    }
  }

  /** The spiral order is as long as the rectangle's area. */
  lemma {:induction false} SpiralLength(b: Bounds)
    requires Proper(b)
    ensures |Spiral(b)| == Area(b)
    decreases b.right - b.left + 1
  {
    if Open(b) {
      RingLength(b);
      RingCount(b, (0, 0));
      SpiralLength(Inner(b));
    } else if b.top == b.btm + 1 {
      assert Area(b) == 0 * (b.right - b.left + 1);
    } else {
      assert Area(b) == (b.btm - b.top + 1) * 0;
    }
  }

  lemma SpiralCountAll(b: Bounds)
    requires Proper(b)
    ensures forall p: Pos :: multiset(Spiral(b))[p] == if InRect(p, b) then 1 else 0
  {
    forall p: Pos
      ensures multiset(Spiral(b))[p] == if InRect(p, b) then 1 else 0
    {
      SpiralCount(b, p);
    }
  }

  /** Positions each visited at most once and only inside `rows` x `cols` are cells of that grid. */
  lemma VisitedAreCells(s: seq<Pos>, rows: int, cols: int)
    requires forall p: Pos :: multiset(s)[p] == if 0 <= p.0 < rows && 0 <= p.1 < cols then 1 else 0
    ensures forall k :: 0 <= k < |s| ==> 0 <= s[k].0 < rows && 0 <= s[k].1 < cols
  {
    forall k | 0 <= k < |s|
      ensures 0 <= s[k].0 < rows && 0 <= s[k].1 < cols
    {
      assert s[k] in multiset(s);
    }
  }

  /** A rectangular matrix's spiral order has rows times columns positions. */
  lemma SpiralOrderLength(m: seq<seq<int>>)
    requires Rectangular(m)
    ensures |Spiral(Whole(m))| == |m| * |m[0]|
  {
    var b := Whole(m);
    var rows, cols := |m|, |m[0]|;
    assert b.btm - b.top + 1 == rows && b.right - b.left + 1 == cols;
    assert Area(b) == rows * cols;
    SpiralLength(b);
  }

  /**
   * Every cell of a rectangular matrix is visited exactly once, and every
   * visited position is a cell.
   */
  lemma EachCellOnce(m: seq<seq<int>>)
    requires Rectangular(m)
    ensures forall p: Pos :: multiset(Spiral(Whole(m)))[p] == if 0 <= p.0 < |m| && 0 <= p.1 < |m[0]| then 1 else 0
    ensures forall k :: 0 <= k < |Spiral(Whole(m))| ==>
              0 <= Spiral(Whole(m))[k].0 < |m| && 0 <= Spiral(Whole(m))[k].1 < |m[0]|
  {
    var b := Whole(m);
    SpiralCountAll(b);
    assert forall p: Pos :: InRect(p, b) <==> 0 <= p.0 < |m| && 0 <= p.1 < |m[0]|;
    VisitedAreCells(Spiral(b), |m|, |m[0]|);
  }

  // ---------------------------------------------------------------------
  // The loop
  // ---------------------------------------------------------------------

  lemma ValuesConcat(m: seq<seq<int>>, ps: seq<Pos>, qs: seq<Pos>)
    ensures Values(m, ps + qs) == Values(m, ps) + Values(m, qs)
  {
  }

  lemma ValuesSnoc(m: seq<seq<int>>, ps: seq<Pos>, p: Pos)
    ensures Values(m, ps + [p]) == Values(m, ps) + [At(m, p)]
  {
  }

  lemma HRunExtend(r: int, lo: int, hi: int)
    requires lo <= hi + 1
    ensures HRun(r, lo, hi + 1, true) == HRun(r, lo, hi, true) + [(r, hi + 1)]
    ensures HRun(r, lo - 1, hi, false) == HRun(r, lo, hi, false) + [(r, lo - 1)]
  {
  }

  lemma VRunExtend(c: int, lo: int, hi: int)
    requires lo <= hi + 1
    ensures VRun(c, lo, hi + 1, true) == VRun(c, lo, hi, true) + [(hi + 1, c)]
    ensures VRun(c, lo - 1, hi, false) == VRun(c, lo, hi, false) + [(lo - 1, c)]
  {
  }

  /** Appends row `row`, columns `lo..hi`, left to right. */
  method CopyRowRight(m: seq<seq<int>>, acc: seq<int>, row: int, lo: int, hi: int) returns (result: seq<int>)
    requires Rectangular(m) && 0 <= row < |m| && 0 <= lo && hi < |m[0]|
    ensures result == acc + Values(m, HRun(row, lo, hi, true))
  {
    result := acc;
    var i := lo;
    while i < hi + 1
      invariant lo <= i <= hi + 1 || (i == lo && hi < lo)
      invariant result == acc + Values(m, HRun(row, lo, i - 1, true))
    {
      HRunExtend(row, lo, i - 1);
      ValuesSnoc(m, HRun(row, lo, i - 1, true), (row, i));
      result := result + [m[row][i]];
      i := i + 1;
    }
  }

  /** Appends column `col`, rows `lo..hi`, top to bottom. */
  method CopyColumnDown(m: seq<seq<int>>, acc: seq<int>, col: int, lo: int, hi: int) returns (result: seq<int>)
    requires Rectangular(m) && 0 <= col < |m[0]| && 0 <= lo && hi < |m|
    ensures result == acc + Values(m, VRun(col, lo, hi, true))
  {
    result := acc;
    var i := lo;
    while i < hi + 1
      invariant lo <= i <= hi + 1 || (i == lo && hi < lo)
      invariant result == acc + Values(m, VRun(col, lo, i - 1, true))
    {
      VRunExtend(col, lo, i - 1);
      ValuesSnoc(m, VRun(col, lo, i - 1, true), (i, col));
      result := result + [m[i][col]];
      i := i + 1;
    }
  }

  /** Appends row `row`, columns `hi` down to `lo`. */
  method CopyRowLeft(m: seq<seq<int>>, acc: seq<int>, row: int, lo: int, hi: int) returns (result: seq<int>)
    requires Rectangular(m) && 0 <= row < |m| && 0 <= lo && hi < |m[0]|
    ensures result == acc + Values(m, HRun(row, lo, hi, false))
  {
    result := acc;
    var i := hi;
    while i > lo - 1
      invariant lo - 1 <= i <= hi || (i == hi && hi < lo)
      invariant result == acc + Values(m, HRun(row, i + 1, hi, false))
    {
      HRunExtend(row, i + 1, hi);
      ValuesSnoc(m, HRun(row, i + 1, hi, false), (row, i));
      result := result + [m[row][i]];
      i := i - 1;
    }
  }

  /** Appends column `col`, rows `hi` up to `lo`. */
  method CopyColumnUp(m: seq<seq<int>>, acc: seq<int>, col: int, lo: int, hi: int) returns (result: seq<int>)
    requires Rectangular(m) && 0 <= col < |m[0]| && 0 <= lo && hi < |m|
    ensures result == acc + Values(m, VRun(col, lo, hi, false))
  {
    result := acc;
    var i := hi;
    while i > lo - 1
      invariant lo - 1 <= i <= hi || (i == hi && hi < lo)
      invariant result == acc + Values(m, VRun(col, i + 1, hi, false))
    {
      VRunExtend(col, i + 1, hi);
      ValuesSnoc(m, VRun(col, i + 1, hi, false), (i, col));
      result := result + [m[i][col]];
      i := i - 1;
    }
  }

  /** Appending the values of four runs appends the values of their concatenation. */
  lemma RunsValues(m: seq<seq<int>>, start: seq<int>, r1: seq<Pos>, r2: seq<Pos>, r3: seq<Pos>, r4: seq<Pos>)
    ensures start + Values(m, r1) + Values(m, r2) + Values(m, r3) + Values(m, r4)
         == start + Values(m, r1 + r2 + r3 + r4)
  {
    ValuesConcat(m, r1 + r2 + r3, r4);
    ValuesConcat(m, r1 + r2, r3);
    ValuesConcat(m, r1, r2);
  }

  /** The four runs of a pass, appended one after the other, append the pass's ring. */
  lemma PassValues(m: seq<seq<int>>, b: Bounds,
                   start: seq<int>, v1: seq<int>, v2: seq<int>, v3: seq<int>, result: seq<int>)
    requires Open(b)
    requires v1 == start + Values(m, TopRun(b)) && v2 == v1 + Values(m, RightRun(b))
    requires v3 == v2 + Values(m, BottomRun(b)) && result == v3 + Values(m, LeftRun(b))
    ensures result == start + Values(m, Ring(b))
  {
    RunsValues(m, start, TopRun(b), RightRun(b), BottomRun(b), LeftRun(b));
  }

  /**
   * One pass of the loop body on the bounds `(topRow, btmRow, leftCol,
   * rightCol)`: appends the ring's entries and returns the inner bounds.
   */
  method CopyPass(m: seq<seq<int>>, acc: seq<int>, topRow: int, btmRow: int, leftCol: int, rightCol: int)
    returns (result: seq<int>, top: int, btm: int, left: int, right: int)
    requires Rectangular(m)
    requires 0 <= topRow <= btmRow < |m| && 0 <= leftCol <= rightCol < |m[0]|
    ensures var b := Bounds(topRow, btmRow, leftCol, rightCol);
      result == acc + Values(m, Ring(b)) && Bounds(top, btm, left, right) == Inner(b)
  {
    ghost var b := Bounds(topRow, btmRow, leftCol, rightCol);
    top, btm, left, right := topRow, btmRow, leftCol, rightCol;
    result := CopyRowRight(m, acc, top, left, right);
    assert result == acc + Values(m, TopRun(b));
    ghost var v1 := result;
    top := top + 1;
    result := CopyColumnDown(m, result, right, top, btm - 1);
    assert result == v1 + Values(m, RightRun(b));
    right := right - 1;
    ghost var v2 := result;
    if top <= btm {
      result := CopyRowLeft(m, result, btm, left, right + 1);
      btm := btm - 1;
    }
    assert result == v2 + Values(m, BottomRun(b));
    ghost var v3 := result;
    if left <= right {
      result := CopyColumnUp(m, result, left, top, btm);
      left := left + 1;
    }
    assert result == v3 + Values(m, LeftRun(b));
    PassValues(m, b, acc, v1, v2, v3, result);
  }

  /** Appending a ring and moving to the inner bounds keeps the spiral order split at the copied prefix. */
  lemma SpiralStep(m: seq<seq<int>>, done: seq<Pos>, b: Bounds, acc: seq<int>, result: seq<int>)
    requires Open(b) && acc == Values(m, done) && result == acc + Values(m, Ring(b))
    ensures result == Values(m, done + Ring(b))
    ensures done + Spiral(b) == (done + Ring(b)) + Spiral(Inner(b))
  {
    ValuesConcat(m, done, Ring(b));
  }

  /**
   * `spiral_copy`: returns the entries in spiral order; as many as the
   * matrix has cells, the first row first.
   */
  method SpiralCopy(inputMatrix: seq<seq<int>>) returns (result: seq<int>)
    requires Rectangular(inputMatrix)
    ensures result == SpiralOrder(inputMatrix)
    ensures |result| == |inputMatrix| * |inputMatrix[0]|
    ensures forall j :: 0 <= j < |inputMatrix[0]| ==> result[j] == inputMatrix[0][j]
  {
    var m := inputMatrix;
    var numRows := |m|;
    var numCols := |m[0]|;
    var topRow, btmRow := 0, numRows - 1;
    var leftCol, rightCol := 0, numCols - 1;
    result := [];
    ghost var done: seq<Pos> := [];
    SpiralStart(m);
    while topRow <= btmRow && leftCol <= rightCol
      invariant 0 <= topRow <= btmRow + 1 <= numRows
      invariant 0 <= leftCol <= rightCol + 1 <= numCols
      invariant result == Values(m, done)
      invariant Spiral(Whole(m)) == done + Spiral(Bounds(topRow, btmRow, leftCol, rightCol))
      decreases rightCol - leftCol
    {
      ghost var b := Bounds(topRow, btmRow, leftCol, rightCol);
      ghost var acc := result;
      result, topRow, btmRow, leftCol, rightCol := CopyPass(m, result, topRow, btmRow, leftCol, rightCol);
      SpiralStep(m, done, b, acc, result);
      done := done + Ring(b);
    }
    SpiralEnd(m, done, Bounds(topRow, btmRow, leftCol, rightCol));
    SpiralOrderLength(m);
    FirstRowFirst(m);
  }

  /** Before the first pass nothing is done and the bounds are the whole matrix. */
  lemma SpiralStart(m: seq<seq<int>>)
    requires |m| > 0
    ensures Spiral(Whole(m)) == [] + Spiral(Bounds(0, |m| - 1, 0, |m[0]| - 1))
  {
  }

  /** Once the bounds have closed, the positions done are the whole spiral. */
  lemma SpiralEnd(m: seq<seq<int>>, done: seq<Pos>, b: Bounds)
    requires |m| > 0 && !Open(b) && Spiral(Whole(m)) == done + Spiral(b)
    ensures Spiral(Whole(m)) == done
  {
    assert Spiral(b) == [];
  }

  /** The first pass starts with the whole first row, left to right. */
  lemma FirstRowFirst(m: seq<seq<int>>)
    requires Rectangular(m)
    ensures |Spiral(Whole(m))| >= |m[0]|
    ensures forall j :: 0 <= j < |m[0]| ==> Spiral(Whole(m))[j] == (0, j)
  {
    var b := Whole(m);
    if Open(b) {
      var row := TopRun(b);
      assert Spiral(b) == row + (RightRun(b) + BottomRun(b) + LeftRun(b) + Spiral(Inner(b)));
    }
  }

  /** The spiral order of a 4 x 5 rectangle: the outer ring, then the inner 2 x 3 one. */
  lemma ExamplePositions()
    ensures Spiral(Bounds(0, 3, 0, 4))
         == [(0, 0), (0, 1), (0, 2), (0, 3), (0, 4), (1, 4), (2, 4), (3, 4), (3, 3), (3, 2), (3, 1), (3, 0), (2, 0), (1, 0),
             (1, 1), (1, 2), (1, 3), (2, 3), (2, 2), (2, 1)]
  {
    var b := Bounds(0, 3, 0, 4);
    var i := Inner(b);
    assert i == Bounds(1, 2, 1, 3);
    assert Inner(i) == Bounds(2, 1, 2, 2);
    assert Spiral(Inner(i)) == [];
    assert Ring(i) == [(1, 1), (1, 2), (1, 3), (2, 3), (2, 2), (2, 1)];
    assert Ring(b) == [(0, 0), (0, 1), (0, 2), (0, 3), (0, 4), (1, 4), (2, 4), (3, 4), (3, 3), (3, 2), (3, 1), (3, 0), (2, 0), (1, 0)];
  }

  /** The example: a 4 x 5 matrix of 1..20. */
  lemma Example()
    ensures SpiralOrder([[1, 2, 3, 4, 5], [6, 7, 8, 9, 10], [11, 12, 13, 14, 15], [16, 17, 18, 19, 20]])
         == [1, 2, 3, 4, 5, 10, 15, 20, 19, 18, 17, 16, 11, 6, 7, 8, 9, 14, 13, 12]
  {
    var m := [[1, 2, 3, 4, 5], [6, 7, 8, 9, 10], [11, 12, 13, 14, 15], [16, 17, 18, 19, 20]];
    assert Whole(m) == Bounds(0, 3, 0, 4);
    ExamplePositions();
  }
}
