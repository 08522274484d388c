/** Day 14 (Parabolic Reflector Dish), grid geometry: the quarter-turn
    `rotate` fold and what it does to cells. */
module Day14Grid {

  type Grid<T> = seq<seq<T>>

  /** Every row has `w` cells. */
  predicate Rect<T>(g: Grid<T>, w: nat)
  {
    forall i :: 0 <= i < |g| ==> |g[i]| == w
  }

  function Max(a: nat, b: nat): nat { if a < b then b else a }

  /** One step of the `rotate` fold for row i of n: element j lands at
      position n - 1 - i of output row j, a fresh row of `fill`s being
      created when output row j does not exist yet. */
  function Place<T>(v: Grid<T>, i: nat, row: seq<T>, n: nat, fill: T): (r: Grid<T>)
    requires i < n && Rect(v, n)
    ensures |r| == Max(|v|, |row|) && Rect(r, n)
  {
    seq(Max(|v|, |row|), j requires 0 <= j < Max(|v|, |row|) =>
      if j < |row| then (if j < |v| then v[j][n - 1 - i := row[j]] else seq(n, _ => fill)[n - 1 - i := row[j]])
      else v[j])
  }

  /** The fold over the first k rows. */
  function RotatePrefix<T>(g: Grid<T>, k: nat, fill: T): (r: Grid<T>)
    requires k <= |g|
    ensures Rect(r, |g|)
  {
    if k == 0 then [] else Place(RotatePrefix(g, k - 1, fill), k - 1, g[k - 1], |g|, fill)
  }

  /** `rotate`: the fold over all rows (new rows start as `fill`s, the
      byte 0 in the source). */
  function Rotate<T>(g: Grid<T>, fill: T): Grid<T>
  {
    RotatePrefix(g, |g|, fill)
  }

  lemma {:induction false} RotatePrefixCells<T>(g: Grid<T>, w: nat, k: nat, fill: T)
    requires 1 <= k <= |g| && Rect(g, w)
    ensures |RotatePrefix(g, k, fill)| == w
    ensures forall j, i :: 0 <= j < w && 0 <= i < k ==> RotatePrefix(g, k, fill)[j][|g| - 1 - i] == g[i][j]
    decreases k
  {
    var n := |g|;
    if k > 1 {
      RotatePrefixCells(g, w, k - 1, fill);
      var prev := RotatePrefix(g, k - 1, fill);
      var r := RotatePrefix(g, k, fill);
      forall j, i | 0 <= j < w && 0 <= i < k ensures r[j][n - 1 - i] == g[i][j] {
        assert r[j] == prev[j][n - 1 - (k - 1) := g[k - 1][j]];
      }
    }
  }

  /** On a non-empty rectangular grid `rotate` is a clockwise quarter
      turn: out[j][n - 1 - i] == in[i][j], with the dimensions swapped. */
  lemma RotateQuarter<T>(g: Grid<T>, w: nat, fill: T)
    requires |g| >= 1 && Rect(g, w)
    ensures |Rotate(g, fill)| == w && Rect(Rotate(g, fill), |g|)
    ensures forall j, i :: 0 <= j < w && 0 <= i < |g| ==> Rotate(g, fill)[j][|g| - 1 - i] == g[i][j]
  {
    RotatePrefixCells(g, w, |g|, fill);
  }

  /** The same statement, indexed by output cell. */
  lemma RotateCell<T>(g: Grid<T>, w: nat, fill: T)
    requires |g| >= 1 && Rect(g, w)
    ensures |Rotate(g, fill)| == w && Rect(Rotate(g, fill), |g|)
    ensures forall a, b :: 0 <= a < w && 0 <= b < |g| ==> Rotate(g, fill)[a][b] == g[|g| - 1 - b][a]
  {
    RotateQuarter(g, w, fill);
    var r := Rotate(g, fill);
    forall a, b | 0 <= a < w && 0 <= b < |g| ensures r[a][b] == g[|g| - 1 - b][a] {
      assert r[a][|g| - 1 - (|g| - 1 - b)] == g[|g| - 1 - b][a];
    }
  }

  /** Two quarter turns are a half turn. */
  lemma RotateHalf<T>(g: Grid<T>, w: nat, fill: T)
    requires |g| >= 1 && w >= 1 && Rect(g, w)
    ensures |Rotate(Rotate(g, fill), fill)| == |g| && Rect(Rotate(Rotate(g, fill), fill), w)
    ensures forall a, b :: 0 <= a < |g| && 0 <= b < w ==>
      Rotate(Rotate(g, fill), fill)[a][b] == g[|g| - 1 - a][w - 1 - b]
  {
    var n := |g|;
    var r1 := Rotate(g, fill);
    RotateCell(g, w, fill);
    RotateCell(r1, n, fill);
    var r2 := Rotate(r1, fill);
    forall a, b | 0 <= a < n && 0 <= b < w ensures r2[a][b] == g[n - 1 - a][w - 1 - b] {
      assert r2[a][b] == r1[w - 1 - b][a];
    }
  }

  lemma HalfTurnTwice<T>(g: Grid<T>, h: Grid<T>, k: Grid<T>, w: nat)
    requires Rect(g, w) && |h| == |g| && Rect(h, w) && |k| == |g| && Rect(k, w)
    requires forall a, b :: 0 <= a < |g| && 0 <= b < w ==> h[a][b] == g[|g| - 1 - a][w - 1 - b]
    requires forall a, b :: 0 <= a < |g| && 0 <= b < w ==> k[a][b] == h[|g| - 1 - a][w - 1 - b]
    ensures k == g
  {
    var n := |g|;
    forall i | 0 <= i < n ensures k[i] == g[i] {
      forall j | 0 <= j < w ensures k[i][j] == g[i][j] {
        assert k[i][j] == h[n - 1 - i][w - 1 - j];
      }
    }
  }

  /** Four quarter turns give the grid back. */
  lemma RotateFour<T>(g: Grid<T>, w: nat, fill: T)
    requires |g| >= 1 && w >= 1 && Rect(g, w)
    ensures Rotate(Rotate(Rotate(Rotate(g, fill), fill), fill), fill) == g
  {
    var r2 := Rotate(Rotate(g, fill), fill);
    RotateHalf(g, w, fill);
    RotateHalf(r2, w, fill);
    HalfTurnTwice(g, r2, Rotate(Rotate(r2, fill), fill), w);
  }

  /** A cell-wise image of a grid. */
  function MapGrid<T, U>(g: Grid<T>, f: T -> U): (r: Grid<U>)
    ensures |r| == |g| && forall i :: 0 <= i < |g| ==> |r[i]| == |g[i]|
    ensures forall i, j :: 0 <= i < |g| && 0 <= j < |g[i]| ==> r[i][j] == f(g[i][j])
  {
    seq(|g|, i requires 0 <= i < |g| => seq(|g[i]|, j requires 0 <= j < |g[i]| => f(g[i][j])))
  }

  /** Rotation commutes with a cell-wise image. */
  lemma RotateMap<T, U>(g: Grid<T>, w: nat, f: T -> U, fill: T, fill': U)
    requires |g| >= 1 && Rect(g, w)
    ensures MapGrid(Rotate(g, fill), f) == Rotate(MapGrid(g, f), fill')
  {
    var m := MapGrid(g, f);
    RotateCell(g, w, fill);
    RotateCell(m, w, fill');
    var a := MapGrid(Rotate(g, fill), f);
    var b := Rotate(m, fill');
    assert |a| == |b|;
    forall x | 0 <= x < |a| ensures a[x] == b[x] {
      assert |a[x]| == |b[x]|;
    }
  }

  /** Every cell on the grid's border satisfies the mask. */
  predicate Framed(g: Grid<bool>, w: nat)
  {
    Rect(g, w) && |g| >= 2 && w >= 2
    && (forall j :: 0 <= j < w ==> g[0][j] && g[|g| - 1][j])
    && (forall i :: 0 <= i < |g| ==> g[i][0] && g[i][w - 1])
  }

  /** A quarter turn keeps a full frame. */
  lemma RotateFramed(g: Grid<bool>, w: nat)
    requires Framed(g, w)
    ensures Framed(Rotate(g, false), |g|)
  {
    var n := |g|;
    var r := Rotate(g, false);
    RotateCell(g, w, false);
    forall j | 0 <= j < n ensures r[0][j] && r[w - 1][j] {
      assert r[0][j] == g[n - 1 - j][0];
      assert r[w - 1][j] == g[n - 1 - j][w - 1];
    }
    forall i | 0 <= i < w ensures r[i][0] && r[i][n - 1] {
      assert r[i][0] == g[n - 1][i];
      assert r[i][n - 1] == g[0][i];
    }
  }
}
