/** Day 14, `cycle` as a specification: four rounds of (tilt north, quarter
    turn), what a round keeps (the shape, the `#` cells up to rotation,
    the number of `O`s) and why the vector of `O` positions determines the
    whole grid once it has been cycled. */
module Day14Cycle {
  import opened Common
  import opened Text
  import opened Day14Grid
  import opened Day14Tilt

  // ---------------------------------------------------------------------
  // Rounds and cycles
  // ---------------------------------------------------------------------

  /** A grid `perform` accepts whose first row is not empty, so that the
      quarter turn is again such a grid. */
  predicate Turnable(g: Grid<char>)
  {
    Wide(g) && |g[0]| >= 1
  }

  type TGrid = g: Grid<char> | Turnable(g) witness [['#']]

  lemma {:induction false} RotatePrefixTall<T>(g: Grid<T>, k: nat, fill: T)
    requires 1 <= k <= |g|
    ensures |RotatePrefix(g, k, fill)| >= |g[0]|
    decreases k
  {
    if k > 1 {
      RotatePrefixTall(g, k - 1, fill);
    }
  }

  /** One round of `cycle`: tilt north, then turn a quarter clockwise (new
      cells are the byte 0). */
  function Round(g: TGrid): (r: TGrid)
    ensures Rect(r, |g|)
  {
    var t := TiltGrid(g);
    RotatePrefixTall(t, |t|, 0 as char);
    Rotate(t, 0 as char)
  }

  /** `cycle`: four rounds, i.e. tilting north, west, south and east. */
  function CycleSpec(g: TGrid): TGrid
  {
    Round(Round(Round(Round(g))))
  }

  /** k cycles. */
  function CycleN(g: TGrid, k: nat): TGrid
  {
    Iterate(CycleSpec, g, k)
  }

  // ---------------------------------------------------------------------
  // Columns of a tilted grid
  // ---------------------------------------------------------------------

  /** Column j of the tilted grid is column j tilted. */
  lemma TiltGridCol(g: Grid<char>, j: nat)
    requires Wide(g) && j < |g[0]|
    ensures Col(TiltGrid(g), j) == TiltCol(Col(g, j))
  {
    var t := TiltGrid(g);
    var c := TiltCol(Col(g, j));
    forall i | 0 <= i < |g| ensures Col(t, j)[i] == c[i] {
      assert t[i][j] == c[i];
    }
  }

  lemma TiltGridTwiceCell(g: Grid<char>, i: nat, j: nat)
    requires Wide(g) && i < |g| && j < |g[i]|
    ensures TiltGrid(TiltGrid(g))[i][j] == TiltGrid(g)[i][j]
  {
    var t := TiltGrid(g);
    if j < |g[0]| {
      TiltGridCol(g, j);
      TiltIdempotent(Col(g, j));
      assert TiltGrid(t)[i][j] == TiltCol(Col(t, j))[i];
    }
  }

  /** Tilting an already tilted grid changes nothing. */
  lemma TiltGridIdempotent(g: Grid<char>)
    requires Wide(g)
    ensures TiltGrid(TiltGrid(g)) == TiltGrid(g)
  {
    var t := TiltGrid(g);
    var tt := TiltGrid(t);
    forall i | 0 <= i < |g| ensures tt[i] == t[i] {
      forall j | 0 <= j < |g[i]| ensures tt[i][j] == t[i][j] {
        TiltGridTwiceCell(g, i, j);
      }
    }
  }

  // ---------------------------------------------------------------------
  // The `#` mask and clean cells
  // ---------------------------------------------------------------------

  function IsHash(c: char): bool
  {
    c == '#'
  }

  /** Where the `#` cells are. */
  function Mask(g: Grid<char>): (r: Grid<bool>)
    ensures |r| == |g| && forall i :: 0 <= i < |g| ==> |r[i]| == |g[i]|
  {
    MapGrid(g, IsHash)
  }

  predicate IsCell(c: char)
  {
    c == '#' || c == 'O' || c == '.'
  }

  /** The first k cells of the row are `#`, `O` or `.`. */
  predicate CleanRow(row: seq<char>, k: nat)
    requires k <= |row|
  {
    k == 0 || (CleanRow(row, k - 1) && IsCell(row[k - 1]))
  }

  /** The first n rows are clean. */
  predicate CleanRows(g: Grid<char>, n: nat)
    requires n <= |g|
  {
    n == 0 || (CleanRows(g, n - 1) && CleanRow(g[n - 1], |g[n - 1]|))
  }

  /** Every cell is `#`, `O` or `.` (stated row by row, so that the
      three-way case split on a cell is made only where a proof asks for
      it). */
  predicate Clean(g: Grid<char>)
  {
    CleanRows(g, |g|)
  }

  lemma {:induction false} CleanRowIntro(row: seq<char>, k: nat)
    requires k <= |row| && forall j :: 0 <= j < k ==> IsCell(row[j])
    ensures CleanRow(row, k)
    decreases k
  {
    if k > 0 {
      CleanRowIntro(row, k - 1);
    }
  }

  lemma {:induction false} CleanRowCell(row: seq<char>, k: nat, j: nat)
    requires k <= |row| && CleanRow(row, k) && j < k
    ensures IsCell(row[j])
    decreases k
  {
    if j < k - 1 {
      CleanRowCell(row, k - 1, j);
    }
  }

  lemma {:induction false} CleanRowsIntro(g: Grid<char>, n: nat)
    requires n <= |g| && forall i, j :: 0 <= i < n && 0 <= j < |g[i]| ==> IsCell(g[i][j])
    ensures CleanRows(g, n)
    decreases n
  {
    if n > 0 {
      CleanRowsIntro(g, n - 1);
      CleanRowIntro(g[n - 1], |g[n - 1]|);
    }
  }

  lemma {:induction false} CleanRowsCell(g: Grid<char>, n: nat, i: nat, j: nat)
    requires n <= |g| && CleanRows(g, n) && i < n && j < |g[i]|
    ensures IsCell(g[i][j])
    decreases n
  {
    if i < n - 1 {
      CleanRowsCell(g, n - 1, i, j);
    } else {
      CleanRowCell(g[i], |g[i]|, j);
    }
  }

  /** A grid all of whose cells are `#`, `O` or `.` is clean. */
  lemma CleanIntro(g: Grid<char>)
    requires forall i, j :: 0 <= i < |g| && 0 <= j < |g[i]| ==> IsCell(g[i][j])
    ensures Clean(g)
  {
    CleanRowsIntro(g, |g|);
  }

  /** Each cell of a clean grid is `#`, `O` or `.`. */
  lemma CleanCell(g: Grid<char>, i: nat, j: nat)
    requires Clean(g) && i < |g| && j < |g[i]|
    ensures IsCell(g[i][j])
  {
    CleanRowsCell(g, |g|, i, j);
  }

  /** An h × w grid whose border is all `#`. */
  predicate Good(g: Grid<char>, h: nat, w: nat)
  {
    |g| == h && Rect(g, w) && Framed(Mask(g), w)
  }

  lemma GoodTurnable(g: Grid<char>, h: nat, w: nat)
    requires Good(g, h, w)
    ensures Turnable(g) && h >= 2 && w >= 2
  {
  }

  lemma TiltGridMaskCell(g: Grid<char>, i: nat, j: nat)
    requires Wide(g) && i < |g| && j < |g[i]|
    ensures TiltGrid(g)[i][j] == '#' <==> g[i][j] == '#'
  {
    if j < |g[0]| {
      TiltKeepsHashes(Col(g, j));
    }
  }

  /** A tilt keeps every `#` and makes no new one. */
  lemma TiltGridMask(g: Grid<char>)
    requires Wide(g)
    ensures Mask(TiltGrid(g)) == Mask(g)
  {
    var a, b := Mask(TiltGrid(g)), Mask(g);
    forall i | 0 <= i < |g| ensures a[i] == b[i] {
      forall j | 0 <= j < |g[i]| ensures a[i][j] == b[i][j] {
        TiltGridMaskCell(g, i, j);
      }
    }
  }

  lemma TiltGridCleanCol(g: Grid<char>, h: nat, w: nat, j: nat)
    requires Good(g, h, w) && j < w
    ensures forall i :: 0 <= i < h ==> IsCell(TiltGrid(g)[i][j])
  {
    var col := Col(g, j);
    assert Mask(g)[0][j] && Mask(g)[h - 1][j];
    TiltClean(col);
    TiltGridCol(g, j);
    forall i | 0 <= i < h ensures IsCell(TiltGrid(g)[i][j]) {
      assert TiltGrid(g)[i][j] == Col(TiltGrid(g), j)[i];
    }
  }

  /** In a grid framed by `#`, every tilted cell is `#`, `O` or `.`. */
  lemma TiltGridClean(g: Grid<char>, h: nat, w: nat)
    requires Good(g, h, w)
    ensures Clean(TiltGrid(g))
  {
    forall i, j | 0 <= i < h && 0 <= j < w ensures IsCell(TiltGrid(g)[i][j]) {
      TiltGridCleanCol(g, h, w, j);
    }
    CleanIntro(TiltGrid(g));
  }

  /** Tilting a framed grid keeps its shape and mask and leaves only `#`,
      `O` and `.` cells. */
  lemma TiltGood(g: Grid<char>, h: nat, w: nat)
    requires Good(g, h, w)
    ensures Good(TiltGrid(g), h, w) && Clean(TiltGrid(g)) && Mask(TiltGrid(g)) == Mask(g)
  {
    TiltGridMask(g);
    TiltGridClean(g, h, w);
  }

  lemma RotateMask(t: Grid<char>, h: nat, w: nat)
    requires Good(t, h, w)
    ensures Mask(Rotate(t, 0 as char)) == Rotate(Mask(t), false)
  {
    RotateMap(t, w, IsHash, 0 as char, false);
  }

  lemma RotateClean(t: Grid<char>, h: nat, w: nat)
    requires |t| == h >= 1 && Rect(t, w) && Clean(t)
    ensures Clean(Rotate(t, 0 as char))
  {
    RotateCell(t, w, 0 as char);
    var r := Rotate(t, 0 as char);
    forall i, j | 0 <= i < |r| && 0 <= j < |r[i]| ensures IsCell(r[i][j]) {
      assert r[i][j] == t[h - 1 - j][i];
      CleanCell(t, h - 1 - j, i);
    }
    CleanIntro(r);
  }

  /** A quarter turn of a clean framed h × w grid is a clean framed w × h
      grid whose mask is the old mask turned. */
  lemma RotateGood(t: Grid<char>, h: nat, w: nat)
    requires Good(t, h, w) && Clean(t)
    ensures Good(Rotate(t, 0 as char), w, h) && Clean(Rotate(t, 0 as char))
    ensures Mask(Rotate(t, 0 as char)) == Rotate(Mask(t), false)
  {
    RotateQuarter(t, w, 0 as char);
    RotateMask(t, h, w);
    RotateFramed(Mask(t), w);
    RotateClean(t, h, w);
  }

  /** A round of a framed h × w grid is a framed w × h grid, clean, whose
      mask is the old mask turned a quarter. */
  lemma RoundGood(g: TGrid, h: nat, w: nat)
    requires Good(g, h, w)
    ensures Good(Round(g), w, h) && Clean(Round(g))
    ensures Mask(Round(g)) == Rotate(Mask(g), false)
  {
    TiltGood(g, h, w);
    RotateGood(TiltGrid(g), h, w);
  }

  /** Four rounds give a clean framed grid of the same shape. */
  lemma CycleGood(g: TGrid, h: nat, w: nat)
    requires Good(g, h, w)
    ensures Good(CycleSpec(g), h, w) && Clean(CycleSpec(g))
  {
    var g1 := Round(g);
    RoundGood(g, h, w);
    var g2 := Round(g1);
    RoundGood(g1, w, h);
    var g3 := Round(g2);
    RoundGood(g2, h, w);
    RoundGood(g3, w, h);
  }

  /** Four rounds keep every `#` where it was. */
  lemma CycleMask(g: TGrid, h: nat, w: nat)
    requires Good(g, h, w)
    ensures Mask(CycleSpec(g)) == Mask(g)
  {
    var g1 := Round(g);
    RoundGood(g, h, w);
    var g2 := Round(g1);
    RoundGood(g1, w, h);
    var g3 := Round(g2);
    RoundGood(g2, h, w);
    RoundGood(g3, w, h);
    RotateFour(Mask(g), w, false);
  }

  /** Every number of cycles keeps the shape. */
  lemma CycleNGood(g: TGrid, h: nat, w: nat, k: nat)
    requires Good(g, h, w)
    ensures Good(CycleN(g, k), h, w)
  {
    var inv := (y: TGrid) => Good(y, h, w);
    forall y: TGrid | inv(y) ensures inv(CycleSpec(y)) {
      CycleGood(y, h, w);
    }
    IterateInvariant(CycleSpec, g, k, inv);
  }

  /** Every number of cycles keeps every `#` where it was. */
  lemma CycleNMask(g: TGrid, h: nat, w: nat, k: nat)
    requires Good(g, h, w)
    ensures Mask(CycleN(g, k)) == Mask(g)
  {
    var inv := (y: TGrid) => Good(y, h, w) && Mask(y) == Mask(g);
    forall y: TGrid | inv(y) ensures inv(CycleSpec(y)) {
      CycleGood(y, h, w);
      CycleMask(y, h, w);
    }
    IterateInvariant(CycleSpec, g, k, inv);
  }

  /** After one or more cycles every cell is clean, and the shape and the
      `#` cells are those of the start. */
  lemma CycleNClean(g: TGrid, h: nat, w: nat, k: nat)
    requires Good(g, h, w) && k >= 1
    ensures Clean(CycleN(g, k))
  {
    var inv := (y: TGrid) => Good(y, h, w) && Clean(y);
    forall y: TGrid | inv(y) ensures inv(CycleSpec(y)) {
      CycleGood(y, h, w);
    }
    CycleGood(g, h, w);
    IterateFromOne(CycleSpec, g, k, inv);
  }

  // ---------------------------------------------------------------------
  // The vector of `O` positions
  // ---------------------------------------------------------------------

  /** The `O` positions of row i among its first k cells. */
  function ORow(row: seq<char>, i: nat, k: nat): seq<(nat, nat)>
    requires k <= |row|
  {
    if k == 0 then []
    else ORow(row, i, k - 1) + (if row[k - 1] == 'O' then [(i, k - 1)] else [])
  }

  /** The `O` positions of the first n rows, in row-major order. */
  function ORows(g: Grid<char>, n: nat): seq<(nat, nat)>
    requires n <= |g|
  {
    if n == 0 then [] else ORows(g, n - 1) + ORow(g[n - 1], n - 1, |g[n - 1]|)
  }

  /** `o_vector`: every `O` position, row by row. */
  function OVec(g: Grid<char>): seq<(nat, nat)>
  {
    ORows(g, |g|)
  }

  lemma {:induction false} ORowMember(row: seq<char>, i: nat, k: nat, a: nat, b: nat)
    requires k <= |row|
    ensures (a, b) in ORow(row, i, k) <==> a == i && b < k && row[b] == 'O'
    decreases k
  {
    if k > 0 {
      ORowMember(row, i, k - 1, a, b);
    }
  }

  lemma {:induction false} ORowsMember(g: Grid<char>, n: nat, a: nat, b: nat)
    requires n <= |g|
    ensures (a, b) in ORows(g, n) <==> a < n && b < |g[a]| && g[a][b] == 'O'
    decreases n
  {
    if n > 0 {
      ORowsMember(g, n - 1, a, b);
      ORowMember(g[n - 1], n - 1, |g[n - 1]|, a, b);
    }
  }

  /** (a, b) is listed exactly when cell (a, b) is an `O`. */
  lemma OVecMember(g: Grid<char>, a: nat, b: nat)
    ensures (a, b) in OVec(g) <==> a < |g| && b < |g[a]| && g[a][b] == 'O'
  {
    ORowsMember(g, |g|, a, b);
  }

  lemma SameOVecCell(x: Grid<char>, y: Grid<char>, h: nat, w: nat, i: nat, j: nat)
    requires Good(x, h, w) && Good(y, h, w) && Mask(x) == Mask(y) && Clean(x) && Clean(y)
    requires OVec(x) == OVec(y) && i < h && j < w
    ensures x[i][j] == y[i][j]
  {
    OVecMember(x, i, j);
    OVecMember(y, i, j);
    assert Mask(x)[i][j] == Mask(y)[i][j];
    CleanCell(x, i, j);
    CleanCell(y, i, j);
  }

  /** Two clean grids of the same shape and the same `#` cells are equal
      as soon as their `O` vectors are: the `O` vector is a faithful
      fingerprint of a cycled grid. */
  lemma SameOVec(x: Grid<char>, y: Grid<char>, h: nat, w: nat)
    requires Good(x, h, w) && Good(y, h, w) && Mask(x) == Mask(y) && Clean(x) && Clean(y)
    requires OVec(x) == OVec(y)
    ensures x == y
  {
    forall i | 0 <= i < h ensures x[i] == y[i] {
      forall j | 0 <= j < w ensures x[i][j] == y[i][j] {
        SameOVecCell(x, y, h, w, i, j);
      }
    }
  }

  /** Two cycled states of one framed grid with the same `O` vector are
      the same state. */
  lemma CycledOVec(g: TGrid, h: nat, w: nat, a: nat, b: nat)
    requires Good(g, h, w) && a >= 1 && b >= 1 && OVec(CycleN(g, a)) == OVec(CycleN(g, b))
    ensures CycleN(g, a) == CycleN(g, b)
  {
    CycleNGood(g, h, w, a);
    CycleNGood(g, h, w, b);
    CycleNMask(g, h, w, a);
    CycleNMask(g, h, w, b);
    CycleNClean(g, h, w, a);
    CycleNClean(g, h, w, b);
    SameOVec(CycleN(g, a), CycleN(g, b), h, w);
  }

  // ---------------------------------------------------------------------
  // The number of `O`s
  // ---------------------------------------------------------------------

  /** `O`s in the first n rows. */
  function RowsO(g: Grid<char>, n: nat): nat
    requires n <= |g|
  {
    if n == 0 then 0 else RowsO(g, n - 1) + CountO(g[n - 1])
  }

  /** `O`s of the grid. */
  function GridO(g: Grid<char>): nat
  {
    RowsO(g, |g|)
  }

  /** `O`s in the first n cells of each of the first k columns. */
  function ColsO(g: Grid<char>, w: nat, n: nat, k: nat): nat
    requires Rect(g, w) && n <= |g| && k <= w
  {
    if k == 0 then 0 else ColsO(g, w, n, k - 1) + CountUpTo(Col(g, k - 1), n)
  }

  lemma {:induction false} ColsOStep(g: Grid<char>, w: nat, n: nat, k: nat)
    requires Rect(g, w) && 1 <= n <= |g| && k <= w
    ensures ColsO(g, w, n, k) == ColsO(g, w, n - 1, k) + CountUpTo(g[n - 1], k)
    decreases k
  {
    if k > 0 {
      ColsOStep(g, w, n, k - 1);
      assert Col(g, k - 1)[n - 1] == g[n - 1][k - 1];
    }
  }

  /** Counting by rows or by columns gives the same number. */
  lemma {:induction false} RowsColsO(g: Grid<char>, w: nat, n: nat)
    requires Rect(g, w) && n <= |g|
    ensures ColsO(g, w, n, w) == RowsO(g, n)
    decreases n
  {
    if n == 0 {
      ColsOZero(g, w, w);
    } else {
      RowsColsO(g, w, n - 1);
      ColsOStep(g, w, n, w);
    }
  }

  lemma {:induction false} ColsOZero(g: Grid<char>, w: nat, k: nat)
    requires Rect(g, w) && k <= w
    ensures ColsO(g, w, 0, k) == 0
    decreases k
  {
    if k > 0 {
      ColsOZero(g, w, k - 1);
    }
  }

  /** ColsO depends only on the columns' counts. */
  lemma {:induction false} ColsOSame(x: Grid<char>, y: Grid<char>, w: nat, n: nat, k: nat)
    requires Rect(x, w) && Rect(y, w) && n <= |x| == |y| && k <= w
    requires forall j :: 0 <= j < k ==> CountUpTo(Col(x, j), n) == CountUpTo(Col(y, j), n)
    ensures ColsO(x, w, n, k) == ColsO(y, w, n, k)
    decreases k
  {
    if k > 0 {
      ColsOSame(x, y, w, n, k - 1);
    }
  }

  lemma ColTiltCount(g: Grid<char>, w: nat, j: nat)
    requires Rect(g, w) && |g| >= 1 && j < w
    ensures Rect(TiltGrid(g), w) && CountUpTo(Col(TiltGrid(g), j), |g|) == CountUpTo(Col(g, j), |g|)
  {
    TiltGridCol(g, j);
    TiltKeepsTotal(Col(g, j));
  }

  /** A tilt keeps the number of `O`s of a rectangular grid. */
  lemma TiltGridKeepsO(g: Grid<char>, w: nat)
    requires Rect(g, w) && |g| >= 1
    ensures GridO(TiltGrid(g)) == GridO(g)
  {
    var t := TiltGrid(g);
    forall j | 0 <= j < w ensures CountUpTo(Col(t, j), |g|) == CountUpTo(Col(g, j), |g|) {
      ColTiltCount(g, w, j);
    }
    ColsOSame(t, g, w, |g|, w);
    RowsColsO(g, w, |g|);
    RowsColsO(TiltGrid(g), w, |g|);
  }

  lemma {:induction false} CountReverse(s: seq<char>)
    ensures CountO(Reverse(s)) == CountO(s)
    decreases |s|
  {
    if s != [] {
      CountReverse(s[1..]);
      CountAppend(Reverse(s[1..]), [s[0]]);
      CountAppend([s[0]], s[1..]);
      assert [s[0]] + s[1..] == s;
    }
  }

  lemma {:induction false} RowsORotate(g: Grid<char>, w: nat, k: nat)
    requires Rect(g, w) && |g| >= 1 && k <= w
    ensures |Rotate(g, 0 as char)| == w && RowsO(Rotate(g, 0 as char), k) == ColsO(g, w, |g|, k)
    decreases k
  {
    RotateCell(g, w, 0 as char);
    if k > 0 {
      RowsORotate(g, w, k - 1);
      var r := Rotate(g, 0 as char);
      assert r[k - 1] == Reverse(Col(g, k - 1));
      CountReverse(Col(g, k - 1));
    }
  }

  /** A quarter turn keeps the number of `O`s of a rectangular grid. */
  lemma RotateKeepsO(g: Grid<char>, w: nat)
    requires Rect(g, w) && |g| >= 1
    ensures GridO(Rotate(g, 0 as char)) == GridO(g)
  {
    RowsORotate(g, w, w);
    RowsColsO(g, w, |g|);
  }

  /** A round, and so a cycle, keeps the number of `O`s of a framed
      grid. */
  lemma RoundKeepsO(g: TGrid, h: nat, w: nat)
    requires Good(g, h, w)
    ensures GridO(Round(g)) == GridO(g)
  {
    TiltGridKeepsO(g, w);
    RotateKeepsO(TiltGrid(g), w);
  }

  lemma CycleKeepsO(g: TGrid, h: nat, w: nat)
    requires Good(g, h, w)
    ensures GridO(CycleSpec(g)) == GridO(g)
  {
    GoodTurnable(g, h, w);
    var g1 := Round(g);
    RoundGood(g, h, w);
    RoundKeepsO(g, h, w);
    var g2 := Round(g1);
    RoundGood(g1, w, h);
    RoundKeepsO(g1, w, h);
    var g3 := Round(g2);
    RoundGood(g2, h, w);
    RoundKeepsO(g2, h, w);
    RoundKeepsO(g3, w, h);
    assert CycleSpec(g) == Round(g3);
  }
}
