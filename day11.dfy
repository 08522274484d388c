/** Day 11 (Cosmic Expansion): the sum of the distances between every pair
    of galaxies (`#`) once every empty row and column is widened `k` times. */
module Day11 {
  import opened Common
  import opened Text

  /** A galaxy's (row, column). */
  type Pos = (nat, nat)

  /** The parsed image: the galaxies in reading order and the indices of
      the empty rows and columns. */
  datatype Universe = Universe(galaxies: seq<Pos>, rows: seq<nat>, cols: seq<nat>)

  /** The lines as bytes (`c as u8`). */
  function Grid(lines: seq<string>): seq<string>
  {
    seq(|lines|, i requires 0 <= i < |lines| => Bytes(lines[i]))
  }

  /** Every line has exactly `m` cells. */
  predicate Rect(grid: seq<string>, m: nat)
  {
    forall i :: 0 <= i < |grid| ==> |grid[i]| == m
  }

  predicate Increasing(s: seq<nat>)
  {
    forall a, b :: 0 <= a < b < |s| ==> s[a] < s[b]
  }

  /** The cells j.. up to m of a line are all `.`. */
  predicate DotsFrom(line: string, m: nat, j: nat)
    requires m <= |line|
  {
    forall c :: j <= c < m ==> line[c] == '.'
  }

  /** Rows i.. up to n of a grid have `.` in column j. */
  predicate DotColumnFrom(grid: seq<string>, j: nat, n: nat, i: nat)
    requires n <= |grid| && forall r :: 0 <= r < n ==> j < |grid[r]|
  {
    forall r :: i <= r < n ==> grid[r][j] == '.'
  }

  // ---------------------------------------------------------------------
  // `parse_input`
  // ---------------------------------------------------------------------

  /** `(0..m).map(|j| &line[j]).all(|c| c == &b'.')` from j on: false at the
      first cell that is not `.`, None (out of bounds) when the line ends
      before m. */
  function RowScan(line: string, m: nat, j: nat): Option<bool>
    decreases m - j
  {
    if j >= m then Some(true)
    else if j >= |line| then None
    else if line[j] != '.' then Some(false)
    else RowScan(line, m, j + 1)
  }

  /** `(0..n).map(|i| &lines[i][j]).all(|c| c == &b'.')` from row i on. */
  function ColScan(grid: seq<string>, j: nat, n: nat, i: nat): Option<bool>
    requires n <= |grid|
    decreases n - i
  {
    if i >= n then Some(true)
    else if j >= |grid[i]| then None
    else if grid[i][j] != '.' then Some(false)
    else ColScan(grid, j, n, i + 1)
  }

  /** On a line of at least m cells the row scan never fails and says
      whether the cells up to m are all `.`. */
  lemma {:induction false} RowScanAll(line: string, m: nat, j: nat)
    requires m <= |line|
    ensures RowScan(line, m, j) == Some(j > m || DotsFrom(line, m, j))
    decreases m - j
  {
    if j < m && line[j] == '.' {
      RowScanAll(line, m, j + 1);
    }
  }

  /** On rows that all reach column j the column scan never fails and says
      whether the column is all `.`. */
  lemma {:induction false} ColScanAll(grid: seq<string>, j: nat, n: nat, i: nat)
    requires n <= |grid| && forall r :: 0 <= r < n ==> j < |grid[r]|
    ensures ColScan(grid, j, n, i) == Some(i > n || DotColumnFrom(grid, j, n, i))
    decreases n - i
  {
    if i < n && grid[i][j] == '.' {
      ColScanAll(grid, j, n, i + 1);
    }
  }

  /** The indices of the empty rows among the first k. */
  function EmptyRowsUpTo(grid: seq<string>, m: nat, k: nat): Option<seq<nat>>
    requires k <= |grid|
  {
    if k == 0 then Some([])
    else
      match EmptyRowsUpTo(grid, m, k - 1)
      case None => None
      case Some(rs) =>
        match RowScan(grid[k - 1], m, 0)
        case None => None
        case Some(empty) => Some(if empty then rs + [k - 1] else rs)
  }

  /** The indices of the empty columns among the first k. */
  function EmptyColsUpTo(grid: seq<string>, n: nat, k: nat): Option<seq<nat>>
    requires n <= |grid|
  {
    if k == 0 then Some([])
    else
      match EmptyColsUpTo(grid, n, k - 1)
      case None => None
      case Some(cs) =>
        match ColScan(grid, k - 1, n, 0)
        case None => None
        case Some(empty) => Some(if empty then cs + [k - 1] else cs)
  }

  /** The `#` cells among the first k of row i, left to right. */
  function RowGalaxies(line: string, i: nat, k: nat): seq<Pos>
    requires k <= |line|
  {
    if k == 0 then []
    else RowGalaxies(line, i, k - 1) + (if line[k - 1] == '#' then [(i, k - 1)] else [])
  }

  /** The galaxies of the first n rows in reading order. */
  function GalaxiesUpTo(grid: seq<string>, n: nat): seq<Pos>
    requires n <= |grid|
  {
    if n == 0 then [] else GalaxiesUpTo(grid, n - 1) + RowGalaxies(grid[n - 1], n - 1, |grid[n - 1]|)
  }

  /** `parse_input`: an empty input panics on `lines[0]`, and so does a
      scan that runs off a short line. */
  function Parse(lines: seq<string>): Option<Universe>
  {
    var grid := Grid(lines);
    if |grid| == 0 then None
    else
      match EmptyRowsUpTo(grid, |grid[0]|, |grid|)
      case None => None
      case Some(rows) =>
        match EmptyColsUpTo(grid, |grid|, |grid[0]|)
        case None => None
        case Some(cols) => Some(Universe(GalaxiesUpTo(grid, |grid|), rows, cols))
  }

  /** `parse_input`: the grid's shape, then its three loops. */
  method ParseInput(lines: seq<string>) returns (r: Option<Universe>)
    ensures r == Parse(lines)
  {
    var grid := Grid(lines);
    if |grid| == 0 {
      return None;
    }
    var rows := CollectEmptyRows(grid, |grid[0]|);
    if rows.None? {
      return None;
    }
    var cols := CollectEmptyCols(grid, |grid|, |grid[0]|);
    if cols.None? {
      return None;
    }
    var galaxies := CollectGalaxies(grid);
    return Some(Universe(galaxies, rows.value, cols.value));
  }

  /** The loop pushing every empty row onto `expanded_rows`. */
  method CollectEmptyRows(grid: seq<string>, m: nat) returns (r: Option<seq<nat>>)
    ensures r == EmptyRowsUpTo(grid, m, |grid|)
  {
    var rows: seq<nat> := [];
    for i := 0 to |grid|
      invariant EmptyRowsUpTo(grid, m, i) == Some(rows)
    {
      var empty := RowScan(grid[i], m, 0);
      if empty.None? {
        RowsNone(grid, m, i + 1);
        return None;
      }
      if empty.value {
        rows := rows + [i];
      }
    }
    return Some(rows);
  }

  /** The loop pushing every empty column onto `expanded_cols`. */
  method CollectEmptyCols(grid: seq<string>, n: nat, m: nat) returns (r: Option<seq<nat>>)
    requires n <= |grid|
    ensures r == EmptyColsUpTo(grid, n, m)
  {
    var cols: seq<nat> := [];
    for j := 0 to m
      invariant EmptyColsUpTo(grid, n, j) == Some(cols)
    {
      var empty := ColScan(grid, j, n, 0);
      if empty.None? {
        ColsNone(grid, n, j + 1, m);
        return None;
      }
      if empty.value {
        cols := cols + [j];
      }
    }
    return Some(cols);
  }

  /** The loop extending `galaxies` with each row's `#` cells. */
  method CollectGalaxies(grid: seq<string>) returns (galaxies: seq<Pos>)
    ensures galaxies == GalaxiesUpTo(grid, |grid|)
  {
    galaxies := [];
    for i := 0 to |grid|
      invariant galaxies == GalaxiesUpTo(grid, i)
    {
      galaxies := galaxies + RowGalaxies(grid[i], i, |grid[i]|);
    }
  }

  /** A failed row scan fails the whole row pass. */
  lemma {:induction false} RowsNone(grid: seq<string>, m: nat, k: nat)
    requires k <= |grid| && EmptyRowsUpTo(grid, m, k).None?
    ensures EmptyRowsUpTo(grid, m, |grid|).None?
    decreases |grid| - k
  {
    if k < |grid| {
      RowsNone(grid, m, k + 1);
    }
  }

  /** A failed column scan fails the whole column pass. */
  lemma {:induction false} ColsNone(grid: seq<string>, n: nat, k: nat, m: nat)
    requires n <= |grid| && k <= m && EmptyColsUpTo(grid, n, k).None?
    ensures EmptyColsUpTo(grid, n, m).None?
    decreases m - k
  {
    if k < m {
      ColsNone(grid, n, k + 1, m);
    }
  }

  // ---------------------------------------------------------------------
  // What the parser finds
  // ---------------------------------------------------------------------

  /** On a rectangular grid the row pass succeeds and lists, in increasing
      order, exactly the rows whose cells are all `.`. */
  lemma {:induction false} EmptyRowsExact(grid: seq<string>, m: nat, k: nat)
    requires k <= |grid| && Rect(grid, m)
    ensures EmptyRowsUpTo(grid, m, k).Some?
    ensures Increasing(EmptyRowsUpTo(grid, m, k).value)
    ensures forall i: nat :: i in EmptyRowsUpTo(grid, m, k).value <==> i < k && DotsFrom(grid[i], m, 0)
    decreases k
  {
    if k > 0 {
      EmptyRowsExact(grid, m, k - 1);
      RowScanAll(grid[k - 1], m, 0);
      var rs := EmptyRowsUpTo(grid, m, k - 1).value;
      var empty := DotsFrom(grid[k - 1], m, 0);
      var r := if empty then rs + [k - 1] else rs;
      assert EmptyRowsUpTo(grid, m, k) == Some(r);
      forall i: nat
        ensures i in r <==> i < k && DotsFrom(grid[i], m, 0)
      {
        assert i in r <==> i in rs || (empty && i == k - 1);
      }
      assert forall t :: 0 <= t < |rs| ==> rs[t] in rs;
      AppendIncreasing(rs, k - 1);
    }
  }

  /** On a rectangular grid the column pass succeeds and lists, in
      increasing order, exactly the columns whose cells are all `.`. */
  lemma {:induction false} EmptyColsExact(grid: seq<string>, m: nat, k: nat)
    requires k <= m && Rect(grid, m)
    ensures EmptyColsUpTo(grid, |grid|, k).Some?
    ensures Increasing(EmptyColsUpTo(grid, |grid|, k).value)
    ensures forall j: nat :: j in EmptyColsUpTo(grid, |grid|, k).value <==> j < k && DotColumnFrom(grid, j, |grid|, 0)
    decreases k
  {
    if k > 0 {
      EmptyColsExact(grid, m, k - 1);
      ColScanAll(grid, k - 1, |grid|, 0);
      var cs := EmptyColsUpTo(grid, |grid|, k - 1).value;
      var empty := DotColumnFrom(grid, k - 1, |grid|, 0);
      var r := if empty then cs + [k - 1] else cs;
      assert EmptyColsUpTo(grid, |grid|, k) == Some(r);
      forall j: nat
        ensures j in r <==> j < k && DotColumnFrom(grid, j, |grid|, 0)
      {
        assert j in r <==> j in cs || (empty && j == k - 1);
      }
      assert forall t :: 0 <= t < |cs| ==> cs[t] in cs;
      AppendIncreasing(cs, k - 1);
    }
  }

  lemma AppendIncreasing(s: seq<nat>, x: nat)
    requires Increasing(s) && forall t :: 0 <= t < |s| ==> s[t] < x
    ensures Increasing(s + [x])
  {
  }

  /** `a` comes before `b` in reading order. */
  predicate Before(a: Pos, b: Pos)
  {
    a.0 < b.0 || (a.0 == b.0 && a.1 < b.1)
  }

  predicate ReadingOrder(gs: seq<Pos>)
  {
    forall a, b :: 0 <= a < b < |gs| ==> Before(gs[a], gs[b])
  }

  /** Every galaxy found in the first k cells of row i is a `#` cell there. */
  lemma {:induction false} RowGalaxiesSound(line: string, i: nat, k: nat)
    requires k <= |line|
    ensures forall t :: 0 <= t < |RowGalaxies(line, i, k)| ==>
      RowGalaxies(line, i, k)[t].0 == i && RowGalaxies(line, i, k)[t].1 < k && line[RowGalaxies(line, i, k)[t].1] == '#'
    decreases k
  {
    if k > 0 {
      RowGalaxiesSound(line, i, k - 1);
    }
  }

  /** Every `#` among the first k cells of row i is found. */
  lemma {:induction false} RowGalaxiesComplete(line: string, i: nat, k: nat)
    requires k <= |line|
    ensures forall j :: 0 <= j < k && line[j] == '#' ==> (i, j) in RowGalaxies(line, i, k)
    decreases k
  {
    if k > 0 {
      RowGalaxiesComplete(line, i, k - 1);
    }
  }

  /** The galaxies of a row are found left to right. */
  lemma {:induction false} RowGalaxiesOrder(line: string, i: nat, k: nat)
    requires k <= |line|
    ensures ReadingOrder(RowGalaxies(line, i, k))
    decreases k
  {
    if k > 0 {
      RowGalaxiesOrder(line, i, k - 1);
      RowGalaxiesSound(line, i, k - 1);
    }
  }

  /** Every galaxy found in the first n rows is a `#` cell. */
  lemma {:induction false} GalaxiesSound(grid: seq<string>, n: nat)
    requires n <= |grid|
    ensures forall t :: 0 <= t < |GalaxiesUpTo(grid, n)| ==> IsGalaxy(grid, n, GalaxiesUpTo(grid, n)[t])
    decreases n
  {
    if n > 0 {
      GalaxiesSound(grid, n - 1);
      RowGalaxiesSound(grid[n - 1], n - 1, |grid[n - 1]|);
      var init := GalaxiesUpTo(grid, n - 1);
      var row := RowGalaxies(grid[n - 1], n - 1, |grid[n - 1]|);
      assert forall t :: 0 <= t < |init| ==> IsGalaxy(grid, n, init[t]);
      assert forall t :: 0 <= t < |row| ==> IsGalaxy(grid, n, row[t]);
      assert forall t :: 0 <= t < |init + row| ==> (init + row)[t] == if t < |init| then init[t] else row[t - |init|];
    }
  }

  /** (i, j) is a `#` cell of the first n rows. */
  predicate IsGalaxy(grid: seq<string>, n: nat, p: Pos)
    requires n <= |grid|
  {
    p.0 < n && p.1 < |grid[p.0]| && grid[p.0][p.1] == '#'
  }

  /** Every `#` cell of the first n rows is found. */
  lemma {:induction false} GalaxiesComplete(grid: seq<string>, n: nat)
    requires n <= |grid|
    ensures forall p: Pos :: IsGalaxy(grid, n, p) ==> p in GalaxiesUpTo(grid, n)
    decreases n
  {
    if n > 0 {
      GalaxiesComplete(grid, n - 1);
      RowGalaxiesComplete(grid[n - 1], n - 1, |grid[n - 1]|);
      var init := GalaxiesUpTo(grid, n - 1);
      var row := RowGalaxies(grid[n - 1], n - 1, |grid[n - 1]|);
      forall p: Pos | IsGalaxy(grid, n, p)
        ensures p in init + row
      {
        if p.0 < n - 1 {
          assert IsGalaxy(grid, n - 1, p);
        } else {
          assert p in row;
        }
      }
    }
  }

  /** The galaxies are found in reading order. */
  lemma {:induction false} GalaxiesOrder(grid: seq<string>, n: nat)
    requires n <= |grid|
    ensures ReadingOrder(GalaxiesUpTo(grid, n))
    decreases n
  {
    if n > 0 {
      GalaxiesOrder(grid, n - 1);
      GalaxiesSound(grid, n - 1);
      RowGalaxiesOrder(grid[n - 1], n - 1, |grid[n - 1]|);
      RowGalaxiesSound(grid[n - 1], n - 1, |grid[n - 1]|);
      var init := GalaxiesUpTo(grid, n - 1);
      var row := RowGalaxies(grid[n - 1], n - 1, |grid[n - 1]|);
      var all := init + row;
      forall a, b | 0 <= a < b < |all| ensures Before(all[a], all[b]) {
        if b < |init| {
          assert all[a] == init[a] && all[b] == init[b];
        } else if a < |init| {
          assert all[a] == init[a] && all[b] == row[b - |init|];
          assert IsGalaxy(grid, n - 1, init[a]);
        } else {
          assert all[a] == row[a - |init|] && all[b] == row[b - |init|];
        }
      }
    }
  }

  /** A galaxy is on no empty row or column. */
  predicate Clear(u: Universe, g: Pos)
  {
    g.0 !in u.rows && g.1 !in u.cols
  }

  /** What `solve` relies on: sorted empty lines and no galaxy on them. */
  predicate WellFormed(u: Universe)
  {
    Increasing(u.rows) && Increasing(u.cols) && forall t :: 0 <= t < |u.galaxies| ==> Clear(u, u.galaxies[t])
  }

  /** A non-empty rectangular image parses, and no galaxy lies on an empty
      row or column, so every `binary_search` in `solve` misses and its
      `unwrap` cannot panic. */
  lemma ParsedWellFormed(lines: seq<string>)
    requires |lines| > 0 && Rect(Grid(lines), |lines[0]|)
    ensures Parse(lines).Some? && WellFormed(Parse(lines).value)
  {
    var grid := Grid(lines);
    var n, m := |grid|, |grid[0]|;
    EmptyRowsExact(grid, m, n);
    EmptyColsExact(grid, m, m);
    GalaxiesSound(grid, n);
    var u := Parse(lines).value;
    forall t | 0 <= t < |u.galaxies| ensures Clear(u, u.galaxies[t]) {
      var g := u.galaxies[t];
      assert IsGalaxy(grid, n, g);
      assert !DotsFrom(grid[g.0], m, 0);
      assert !DotColumnFrom(grid, g.1, n, 0);
    }
  }

  // ---------------------------------------------------------------------
  // `binary_search` and the expanded distance
  // ---------------------------------------------------------------------

  /** `binary_search(&x).err().unwrap()` on a sorted list, from position t:
      the insertion point of x, or None (the `unwrap` panics) when x is
      present. */
  function SearchFrom(s: seq<nat>, x: nat, t: nat): Option<nat>
    requires t <= |s|
    decreases |s| - t
  {
    if t == |s| then Some(t)
    else if s[t] == x then None
    else if s[t] > x then Some(t)
    else SearchFrom(s, x, t + 1)
  }

  function Search(s: seq<nat>, x: nat): Option<nat>
  {
    SearchFrom(s, x, 0)
  }

  lemma {:induction false} SearchFromSplits(s: seq<nat>, x: nat, t: nat)
    requires t <= |s| && Increasing(s) && forall u :: 0 <= u < t ==> s[u] < x
    ensures SearchFrom(s, x, t).None? <==> x in s
    ensures SearchFrom(s, x, t).Some? ==> var p := SearchFrom(s, x, t).value;
      p <= |s| && (forall u :: 0 <= u < p ==> s[u] < x) && (forall u :: p <= u < |s| ==> s[u] > x)
    decreases |s| - t
  {
    if t < |s| && s[t] < x {
      SearchFromSplits(s, x, t + 1);
    }
  }

  /** On a strictly increasing list the search panics exactly when x is
      present, and otherwise returns the point that splits the list into
      the values below x and those above it. */
  lemma SearchSplits(s: seq<nat>, x: nat)
    requires Increasing(s)
    ensures Search(s, x).None? <==> x in s
    ensures Search(s, x).Some? ==> var p := Search(s, x).value;
      p <= |s| && (forall u :: 0 <= u < p ==> s[u] < x) && (forall u :: p <= u < |s| ==> s[u] > x)
  {
    SearchFromSplits(s, x, 0);
  }

  lemma {:induction false} SearchFromAtLeast(s: seq<nat>, x: nat, t: nat)
    requires t <= |s| && SearchFrom(s, x, t).Some?
    ensures t <= SearchFrom(s, x, t).value <= |s|
    decreases |s| - t
  {
    if t < |s| && s[t] < x {
      SearchFromAtLeast(s, x, t + 1);
    }
  }

  /** A larger value is inserted no earlier. */
  lemma {:induction false} SearchFromMonotone(s: seq<nat>, a: nat, b: nat, t: nat)
    requires t <= |s| && a <= b && SearchFrom(s, a, t).Some? && SearchFrom(s, b, t).Some?
    ensures SearchFrom(s, a, t).value <= SearchFrom(s, b, t).value
    decreases |s| - t
  {
    if t < |s| && s[t] < a {
      SearchFromMonotone(s, a, b, t + 1);
    } else {
      SearchFromAtLeast(s, b, t);
    }
  }

  /** The number of entries among the first k strictly between a and b. */
  function CountBetween(s: seq<nat>, a: nat, b: nat, k: nat): nat
    requires k <= |s|
  {
    if k == 0 then 0 else CountBetween(s, a, b, k - 1) + (if a < s[k - 1] < b then 1 else 0)
  }

  lemma {:induction false} CountWindow(s: seq<nat>, a: nat, b: nat, p: nat, q: nat, k: nat)
    requires p <= q <= |s| && k <= |s|
    requires forall u :: 0 <= u < p ==> s[u] < a
    requires forall u :: p <= u < q ==> a < s[u] < b
    requires forall u :: q <= u < |s| ==> s[u] > b
    ensures CountBetween(s, a, b, k) == if k <= p then 0 else if k <= q then k - p else q - p
    decreases k
  {
    if k > 0 {
      CountWindow(s, a, b, p, q, k - 1);
    }
  }

  /** Between two values missing from a strictly increasing list, the
      difference of their insertion points counts the entries strictly
      between them. */
  lemma SearchDifference(s: seq<nat>, a: nat, b: nat)
    requires Increasing(s) && a <= b && a !in s && b !in s
    ensures Search(s, a).Some? && Search(s, b).Some?
    ensures Search(s, a).value <= Search(s, b).value
    ensures Search(s, b).value - Search(s, a).value == CountBetween(s, a, b, |s|)
  {
    SearchSplits(s, a);
    SearchSplits(s, b);
    var p, q := Search(s, a).value, Search(s, b).value;
    SearchFromMonotone(s, a, b, 0);
    CountWindow(s, a, b, p, q, |s|);
  }

  function MinN(a: nat, b: nat): nat { if a < b then a else b }
  function MaxN(a: nat, b: nat): nat { if a < b then b else a }

  /** The inner closure of `solve`: the distance between two galaxies with
      every empty line between them counted k times. A galaxy on an empty
      line panics in `unwrap`, and a negative difference of insertion
      points underflows. */
  function Dist(u: Universe, g1: Pos, g2: Pos, k: nat): Option<nat>
    requires k >= 1
  {
    var iMin, iMax := MinN(g1.0, g2.0), MaxN(g1.0, g2.0);
    var erLeft, erRight := Search(u.rows, iMin), Search(u.rows, iMax);
    var jMin, jMax := MinN(g1.1, g2.1), MaxN(g1.1, g2.1);
    var ecLeft, ecRight := Search(u.cols, jMin), Search(u.cols, jMax);
    if erLeft.None? || erRight.None? || ecLeft.None? || ecRight.None? then None
    else if erRight.value < erLeft.value || ecRight.value < ecLeft.value then None
    else Some(Span(iMin, iMax, erLeft.value, erRight.value, k) + Span(jMin, jMax, ecLeft.value, ecRight.value, k))
  }

  /** One axis of the distance: `(max - min) + (k - 1) * (right - left)`. */
  function Span(lo: nat, hi: nat, left: nat, right: nat, k: nat): nat
    requires lo <= hi && left <= right && k >= 1
  {
    (hi - lo) + (k - 1) * (right - left)
  }

  /** The expanded distance between two galaxies off the empty lines:
      |di| + |dj| plus k - 1 for every empty row and every empty column
      strictly between them. */
  function Expanded(u: Universe, g1: Pos, g2: Pos, k: nat): nat
    requires k >= 1
  {
    Abs(g1.0 - g2.0) + Abs(g1.1 - g2.1)
      + Widen(k, CountBetween(u.rows, MinN(g1.0, g2.0), MaxN(g1.0, g2.0), |u.rows|))
      + Widen(k, CountBetween(u.cols, MinN(g1.1, g2.1), MaxN(g1.1, g2.1), |u.cols|))
  }

  /** The k - 1 extra copies of each of c empty lines. */
  function Widen(k: nat, c: nat): nat
    requires k >= 1
  {
    (k - 1) * c
  }

  /** `solve`'s arithmetic computes the expanded distance. */
  lemma DistExpanded(u: Universe, g1: Pos, g2: Pos, k: nat)
    requires k >= 1 && Increasing(u.rows) && Increasing(u.cols) && Clear(u, g1) && Clear(u, g2)
    ensures Dist(u, g1, g2, k) == Some(Expanded(u, g1, g2, k))
  {
    SearchDifference(u.rows, MinN(g1.0, g2.0), MaxN(g1.0, g2.0));
    SearchDifference(u.cols, MinN(g1.1, g2.1), MaxN(g1.1, g2.1));
  }

  /** With k = 1 the expanded distance is the Manhattan distance. */
  lemma ExpandedManhattan(u: Universe, g1: Pos, g2: Pos)
    ensures Expanded(u, g1, g2, 1) == Abs(g1.0 - g2.0) + Abs(g1.1 - g2.1)
  {
  }

  /** The distance is the same in both directions, and 0 to itself. */
  lemma ExpandedSymmetric(u: Universe, g1: Pos, g2: Pos, k: nat)
    requires k >= 1
    ensures Expanded(u, g1, g2, k) == Expanded(u, g2, g1, k)
    ensures Expanded(u, g1, g1, k) == 0
  {
    CountNone(u.rows, g1.0, |u.rows|);
    CountNone(u.cols, g1.1, |u.cols|);
  }

  lemma {:induction false} CountNone(s: seq<nat>, a: nat, k: nat)
    requires k <= |s|
    ensures CountBetween(s, a, a, k) == 0
    decreases k
  {
    if k > 0 {
      CountNone(s, a, k - 1);
    }
  }

  lemma MulMonotone(a: nat, b: nat, c: nat)
    requires a <= b
    ensures a * c <= b * c
  {
  }

  /** A wider expansion never shortens a distance. */
  lemma ExpandedMonotone(u: Universe, g1: Pos, g2: Pos, k1: nat, k2: nat)
    requires 1 <= k1 <= k2
    ensures Expanded(u, g1, g2, k1) <= Expanded(u, g1, g2, k2)
  {
    MulMonotone(k1 - 1, k2 - 1, CountBetween(u.rows, MinN(g1.0, g2.0), MaxN(g1.0, g2.0), |u.rows|));
    MulMonotone(k1 - 1, k2 - 1, CountBetween(u.cols, MinN(g1.1, g2.1), MaxN(g1.1, g2.1), |u.cols|));
  }

  // ---------------------------------------------------------------------
  // `solve`: the sum over pairs
  // ---------------------------------------------------------------------

  /** `Iterator::sum` over the first n values, where a panicking value
      (None) panics the whole sum. */
  function OptSum(s: seq<Option<nat>>, n: nat): Option<nat>
    requires n <= |s|
  {
    if n == 0 then Some(0)
    else
      match OptSum(s, n - 1)
      case None => None
      case Some(a) =>
        match s[n - 1]
        case None => None
        case Some(b) => Some(a + b)
  }

  /** The sum of the first n values. */
  function NatSum(s: seq<nat>, n: nat): nat
    requires n <= |s|
  {
    if n == 0 then 0 else NatSum(s, n - 1) + s[n - 1]
  }

  /** A sum of values none of which panics is their plain sum. */
  lemma {:induction false} OptSumSome(s: seq<Option<nat>>, vals: seq<nat>, n: nat)
    requires n <= |s| == |vals| && forall t :: 0 <= t < |s| ==> s[t] == Some(vals[t])
    ensures OptSum(s, n) == Some(NatSum(vals, n))
    decreases n
  {
    if n > 0 {
      OptSumSome(s, vals, n - 1);
    }
  }

  lemma {:induction false} NatSumMonotone(a: seq<nat>, b: seq<nat>, n: nat)
    requires n <= |a| == |b| && forall t :: 0 <= t < |a| ==> a[t] <= b[t]
    ensures NatSum(a, n) <= NatSum(b, n)
    decreases n
  {
    if n > 0 {
      NatSumMonotone(a, b, n - 1);
    }
  }

  /** A leading 0 adds nothing to a sum. */
  lemma {:induction false} NatSumDropZero(s: seq<nat>, n: nat)
    requires 1 <= n <= |s| && s[0] == 0
    ensures NatSum(s, n) == NatSum(s[1..], n - 1)
    decreases n
  {
    if n > 1 {
      NatSumDropZero(s, n - 1);
    }
  }

  /** The inner iterator: galaxy i paired with itself and every later
      galaxy (`skip(galaxy_ind_1)`). */
  function Distances(u: Universe, k: nat, i: nat): seq<Option<nat>>
    requires k >= 1 && i < |u.galaxies|
  {
    var rest := u.galaxies[i..];
    seq(|rest|, t requires 0 <= t < |rest| => Dist(u, u.galaxies[i], rest[t], k))
  }

  /** The outer iterator: one inner sum per galaxy. */
  function RowSums(u: Universe, k: nat): seq<Option<nat>>
    requires k >= 1
  {
    seq(|u.galaxies|, i requires 0 <= i < |u.galaxies| => OptSum(Distances(u, k, i), |u.galaxies| - i))
  }

  /** `solve` on the parsed image. */
  function Solve(u: Universe, k: nat): Option<nat>
    requires k >= 1
  {
    OptSum(RowSums(u, k), |u.galaxies|)
  }

  /** The expanded distances from galaxy i to itself and every later
      galaxy. */
  function ExpandedRow(u: Universe, k: nat, i: nat): seq<nat>
    requires k >= 1 && i < |u.galaxies|
  {
    var rest := u.galaxies[i..];
    seq(|rest|, t requires 0 <= t < |rest| => Expanded(u, u.galaxies[i], rest[t], k))
  }

  /** The expanded distance sum of every galaxy's row. */
  function ExpandedRows(u: Universe, k: nat): seq<nat>
    requires k >= 1
  {
    seq(|u.galaxies|, i requires 0 <= i < |u.galaxies| => NatSum(ExpandedRow(u, k, i), |u.galaxies| - i))
  }

  /** The sum of the expanded distances over every pair i <= j of galaxies,
      each pair taken once. */
  function PairsTotal(u: Universe, k: nat): nat
    requires k >= 1
  {
    NatSum(ExpandedRows(u, k), |u.galaxies|)
  }

  /** One inner sum of a well-formed image is its row of expanded
      distances added up. */
  lemma RowExpanded(u: Universe, k: nat, i: nat)
    requires k >= 1 && WellFormed(u) && i < |u.galaxies|
    ensures OptSum(Distances(u, k, i), |u.galaxies| - i) == Some(NatSum(ExpandedRow(u, k, i), |u.galaxies| - i))
  {
    var ds, es := Distances(u, k, i), ExpandedRow(u, k, i);
    forall t | 0 <= t < |ds|
      ensures ds[t] == Some(es[t])
    {
      DistExpanded(u, u.galaxies[i], u.galaxies[i + t], k);
    }
    OptSumSome(ds, es, |ds|);
  }

  /** On a well-formed image `solve` never panics: it is the sum of the
      expanded distances over every pair of galaxies taken once. */
  lemma SolvePairs(u: Universe, k: nat)
    requires k >= 1 && WellFormed(u)
    ensures Solve(u, k) == Some(PairsTotal(u, k))
  {
    var sums, rows := RowSums(u, k), ExpandedRows(u, k);
    forall i | 0 <= i < |sums|
      ensures sums[i] == Some(rows[i])
    {
      RowExpanded(u, k, i);
    }
    OptSumSome(sums, rows, |sums|);
  }

  /** The self-pair contributes 0: each row may as well start after its
      own galaxy. */
  lemma SelfPairZero(u: Universe, k: nat, i: nat)
    requires k >= 1 && i < |u.galaxies|
    ensures NatSum(ExpandedRow(u, k, i), |u.galaxies| - i)
         == NatSum(ExpandedRow(u, k, i)[1..], |u.galaxies| - i - 1)
  {
    ExpandedSymmetric(u, u.galaxies[i], u.galaxies[i], k);
    NatSumDropZero(ExpandedRow(u, k, i), |u.galaxies| - i);
  }

  lemma RowMonotone(u: Universe, k1: nat, k2: nat, i: nat)
    requires 1 <= k1 <= k2 && i < |u.galaxies|
    ensures NatSum(ExpandedRow(u, k1, i), |u.galaxies| - i) <= NatSum(ExpandedRow(u, k2, i), |u.galaxies| - i)
  {
    var e1, e2 := ExpandedRow(u, k1, i), ExpandedRow(u, k2, i);
    forall t | 0 <= t < |e1|
      ensures e1[t] <= e2[t]
    {
      ExpandedMonotone(u, u.galaxies[i], u.galaxies[i + t], k1, k2);
    }
    NatSumMonotone(e1, e2, |e1|);
  }

  /** The total is non-decreasing in the expansion factor. */
  lemma PairsTotalMonotone(u: Universe, k1: nat, k2: nat)
    requires 1 <= k1 <= k2
    ensures PairsTotal(u, k1) <= PairsTotal(u, k2)
  {
    var rows1, rows2 := ExpandedRows(u, k1), ExpandedRows(u, k2);
    forall i | 0 <= i < |rows1|
      ensures rows1[i] <= rows2[i]
    {
      RowMonotone(u, k1, k2, i);
    }
    NatSumMonotone(rows1, rows2, |rows1|);
  }

  // ---------------------------------------------------------------------
  // The two parts
  // ---------------------------------------------------------------------

  /** `solve(file, k)`: parse, then sum over the pairs. */
  function Answer(lines: seq<string>, k: nat): Option<nat>
    requires k >= 1
  {
    match Parse(lines)
    case None => None
    case Some(u) => Solve(u, k)
  }

  method SolveLines(lines: seq<string>, k: nat) returns (r: Option<nat>)
    requires k >= 1
    ensures r == Answer(lines, k)
  {
    var u := ParseInput(lines);
    if u.None? {
      return None;
    }
    return Solve(u.value, k);
  }

  /** On a non-empty rectangular image both parts are defined, and the
      answer grows with the expansion factor. */
  lemma AnswerMonotone(lines: seq<string>, k1: nat, k2: nat)
    requires |lines| > 0 && Rect(Grid(lines), |lines[0]|) && 1 <= k1 <= k2
    ensures Answer(lines, k1).Some? && Answer(lines, k2).Some?
    ensures Answer(lines, k1).value <= Answer(lines, k2).value
  {
    ParsedWellFormed(lines);
    var u := Parse(lines).value;
    SolvePairs(u, k1);
    SolvePairs(u, k2);
    PairsTotalMonotone(u, k1, k2);
  }

  /** Part 1: empty lines count twice. */
  method Part1(lines: seq<string>) returns (r: Option<nat>)
    ensures r == Answer(lines, 2)
  {
    r := SolveLines(lines, 2);
  }

  /** Part 2: empty lines count a million times. */
  method Part2(lines: seq<string>) returns (r: Option<nat>)
    ensures r == Answer(lines, 1000000)
  {
    r := SolveLines(lines, 1000000);
  }
}
