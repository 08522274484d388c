/** Day 10 (Pipe Maze): a grid of pipe tiles, each connecting some of the
    four directions. A depth-first search from the start records the longest
    path that runs into an already visited tile; part 1 is half its length.
    Part 2 marks that path and counts, row by row, the tiles off it that a
    scan line finds enclosed. */
module Day10 {
  import opened Common
  import opened Text

  /** A cell (row, column). */
  type Point = (int, int)

  /** The directions a tile connects toward: `[up, right, down, left]`. */
  datatype Tile = Tile(up: bool, right: bool, down: bool, left: bool)
  {
    /** Whether the tile connects toward direction d. */
    function Has(d: nat): bool
      requires d < 4
    {
      if d == 0 then up else if d == 1 then right else if d == 2 then down else left
    }
  }

  /** Ground: no connections. */
  const Ground := Tile(false, false, false, false)

  /** The tile grid, row by row. */
  type Grid = seq<seq<Tile>>

  /** `adjacent_to`: the direction pointing back. */
  function Opposite(d: nat): (r: nat)
    requires d < 4
    ensures r < 4
  {
    (d + 2) % 4
  }

  /** Going back is an involution, and never the same direction. */
  lemma OppositeInvolution(d: nat)
    requires d < 4
    ensures Opposite(Opposite(d)) == d && Opposite(d) != d
  {
  }

  /** `DIRS`: one step up, right, down or left. */
  function Move(p: Point, d: nat): Point
    requires d < 4
  {
    if d == 0 then (p.0 - 1, p.1)
    else if d == 1 then (p.0, p.1 + 1)
    else if d == 2 then (p.0 + 1, p.1)
    else (p.0, p.1 - 1)
  }

  /** Stepping back from a step returns to the start. */
  lemma MoveOpposite(p: Point, d: nat)
    requires d < 4
    ensures Move(Move(p, d), Opposite(d)) == p
  {
  }

  // ---------------------------------------------------------------------
  // Parsing
  // ---------------------------------------------------------------------

  /** One tile; the start reads as no connections until it is fixed up, and
      any other character is unreachable. */
  function ParseTile(c: char): Option<Tile>
  {
    if c == '|' then Some(Tile(true, false, true, false))
    else if c == '-' then Some(Tile(false, true, false, true))
    else if c == 'L' then Some(Tile(true, true, false, false))
    else if c == 'J' then Some(Tile(true, false, false, true))
    else if c == '7' then Some(Tile(false, false, true, true))
    else if c == 'F' then Some(Tile(false, true, true, false))
    else if c == '.' || c == 'S' then Some(Ground)
    else None
  }

  /** How many directions a tile connects toward. */
  function Ways(t: Tile): nat
  {
    (if t.up then 1 else 0) + (if t.right then 1 else 0) + (if t.down then 1 else 0) + (if t.left then 1 else 0)
  }

  /** Every pipe connects exactly two directions, and the two it names;
      ground and the unfixed start connect none. */
  lemma TileWays(c: char)
    ensures c in "|-LJ7F" ==> ParseTile(c).Some? && Ways(ParseTile(c).value) == 2
    ensures (c == '.' || c == 'S') ==> ParseTile(c) == Some(Ground)
    ensures c !in "|-LJ7F.S" ==> ParseTile(c).None?
    ensures c == '|' ==> ParseTile(c).value.up && ParseTile(c).value.down
    ensures c == '-' ==> ParseTile(c).value.right && ParseTile(c).value.left
    ensures c == 'L' ==> ParseTile(c).value.up && ParseTile(c).value.right
    ensures c == 'J' ==> ParseTile(c).value.up && ParseTile(c).value.left
    ensures c == '7' ==> ParseTile(c).value.down && ParseTile(c).value.left
    ensures c == 'F' ==> ParseTile(c).value.right && ParseTile(c).value.down
  {
  }

  /** One row of tiles. */
  function ParseRow(line: string): (r: Option<seq<Tile>>)
    ensures r.Some? <==> forall j :: 0 <= j < |line| ==> ParseTile(line[j]).Some?
    ensures r.Some? ==> |r.value| == |line| && forall j :: 0 <= j < |line| ==> ParseTile(line[j]) == Some(r.value[j])
  {
    var opts := seq(|line|, j requires 0 <= j < |line| => ParseTile(line[j]));
    CollectExact(opts);
    assert forall j :: 0 <= j < |line| ==> (opts[j].Some? <==> ParseTile(line[j]).Some?);
    Collect(opts)
  }

  /** All rows, before the start is fixed up. */
  function ParseRows(lines: seq<string>): (r: Option<Grid>)
    ensures r.Some? <==> forall i :: 0 <= i < |lines| ==> ParseRow(lines[i]).Some?
    ensures r.Some? ==> |r.value| == |lines| && forall i :: 0 <= i < |lines| ==> ParseRow(lines[i]) == Some(r.value[i])
  {
    var opts := seq(|lines|, i requires 0 <= i < |lines| => ParseRow(lines[i]));
    CollectExact(opts);
    assert forall i :: 0 <= i < |lines| ==> (opts[i].Some? <==> ParseRow(lines[i]).Some?);
    Collect(opts)
  }

  /** Whether the start connects toward direction d: the neighbour must lie
      inside the grid and point back. The column test reads `to_j < limit`;
      the code compares `to_j <= m`, that is `limit == m + 1`. A negative
      coordinate wraps to a huge `usize` and fails the test; a neighbour
      the test lets through but the row does not have panics (None). */
  function StartLink(grid: Grid, start: Point, d: nat, limit: int): Option<bool>
    requires d < 4
  {
    var to := Move(start, d);
    if !(0 <= to.0 < |grid|) then Some(false)
    else if !(0 <= to.1 < limit) then Some(false)
    else if to.1 >= |grid[to.0]| then None
    else Some(grid[to.0][to.1].Has(Opposite(d)))
  }

  /** The fix-up of the start tile, direction by direction. */
  function FixStart(grid: Grid, start: Point, limit: int): (r: Option<Grid>)
    requires 0 <= start.0 < |grid| && 0 <= start.1 < |grid[start.0]|
    ensures r.Some? <==> forall d :: 0 <= d < 4 ==> StartLink(grid, start, d, limit).Some?
    ensures r.Some? ==> |r.value| == |grid| && forall i :: 0 <= i < |grid| ==> |r.value[i]| == |grid[i]|
    ensures r.Some? ==> forall i, j :: 0 <= i < |grid| && 0 <= j < |grid[i]| && (i, j) != start ==> r.value[i][j] == grid[i][j]
    ensures r.Some? ==> forall d :: 0 <= d < 4 ==> r.value[start.0][start.1].Has(d) == StartLink(grid, start, d, limit).value
  {
    var links := seq(4, d requires 0 <= d < 4 => StartLink(grid, start, d, limit));
    if exists d :: 0 <= d < 4 && links[d].None? then None
    else
      var t := Tile(links[0].value, links[1].value, links[2].value, links[3].value);
      Some(grid[start.0 := grid[start.0][start.1 := t]])
  }

  /** `parse_input` with the column test `to_j < limit`: the start is the
      last `S` in reading order; no lines (`lines[0]`), an unknown
      character, or no `S` at all panics. */
  function ParseWith(lines: seq<string>, limit: int): (r: Option<(Point, Grid)>)
    ensures r.Some? ==> |r.value.1| == |lines| > 0
  {
    if lines == [] then None
    else
      match ParseRows(lines)
      case None => None
      case Some(grid) =>
        var start := LastCell(lines, 'S');
        if start == (-1, -1) then None
        else
          match FixStart(grid, start, limit)
          case None => None
          case Some(fixed) => Some((start, fixed))
  }

  /** `parse_input` as written: the column test is `to_j <= m`, with `m`
      the length of the first line. */
  function ParseAsWritten(lines: seq<string>): Option<(Point, Grid)>
  {
    if lines == [] then None else ParseWith(lines, |lines[0]| + 1)
  }

  /** `parse_input` with the column test `to_j < m`. */
  function Parse(lines: seq<string>): (r: Option<(Point, Grid)>)
    ensures r.Some? ==> |r.value.1| == |lines| > 0
  {
    if lines == [] then None else ParseWith(lines, |lines[0]|)
  }

  /** A start in the last column of a one-line grid: the code as written
      tests the cell one past the row's end and panics; with `to_j < m` the
      grid parses and the start connects nowhere. */
  lemma StartOnLastColumn()
    ensures ParseAsWritten(["S"]).None?
    ensures Parse(["S"]) == Some(((0, 0), [[Ground]]))
  {
    ParseSingleStart();
    FixSingleStart();
  }

  /** The one-line grid "S" parses to one unconnected tile, its start. */
  lemma ParseSingleStart()
    ensures ParseRows(["S"]) == Some([[Ground]]) && LastCell(["S"], 'S') == (0, 0)
  {
    assert "S"[0] == 'S' && ["S"][0] == "S";
    assert ParseTile('S') == Some(Ground);
    assert ParseRow("S").Some? && |ParseRow("S").value| == 1 && ParseRow("S").value[0] == Ground;
    var row := ParseRow("S").value;
    assert row == [row[0]];
    assert ParseRows(["S"]).Some? && |ParseRows(["S"]).value| == 1;
    var rows := ParseRows(["S"]).value;
    assert rows == [rows[0]];
    assert LastIn("S", 'S') == 0;
  }

  /** Its fix-up panics with the test `to_j <= 1` and leaves the tile
      unconnected with `to_j < 1`. */
  lemma FixSingleStart()
    ensures FixStart([[Ground]], (0, 0), 2).None?
    ensures FixStart([[Ground]], (0, 0), 1) == Some([[Ground]])
  {
    var grid: Grid := [[Ground]];
    assert StartLink(grid, (0, 0), 1, 2).None?;
    assert forall d :: 0 <= d < 4 ==> StartLink(grid, (0, 0), d, 1) == Some(false);
    var fixed: Grid := FixStart(grid, (0, 0), 1).value;
    var t: Tile := fixed[0][0];
    assert !t.Has(0) && !t.Has(1) && !t.Has(2) && !t.Has(3);
    assert t == Ground;
    assert fixed[0] == [t];
    assert fixed == [fixed[0]];
  }

  /** With `to_j < m` every parsed grid has its start inside, and the
      start connects toward d exactly when the neighbour lies inside the
      first line's width and points back. */
  lemma ParseMeaning(lines: seq<string>)
    requires Parse(lines).Some?
    ensures var (start, grid) := Parse(lines).value;
      |grid| == |lines| && 0 <= start.0 < |grid| && 0 <= start.1 < |grid[start.0]| && lines[start.0][start.1] == 'S'
      && forall d :: 0 <= d < 4 ==>
        (grid[start.0][start.1].Has(d) <==>
          var to := Move(start, d);
          0 <= to.0 < |lines| && 0 <= to.1 < |lines[0]| && 0 <= to.1 < |lines[to.0]|
          && ParseTile(lines[to.0][to.1]).value.Has(Opposite(d)))
  {
    var grid0: Grid := ParseRows(lines).value;
    var start := LastCell(lines, 'S');
    var fixed: Grid := FixStart(grid0, start, |lines[0]|).value;
    assert Parse(lines) == Some((start, fixed));
    forall d | 0 <= d < 4
      ensures fixed[start.0][start.1].Has(d) <==>
        var to := Move(start, d);
        0 <= to.0 < |lines| && 0 <= to.1 < |lines[0]| && 0 <= to.1 < |lines[to.0]|
        && ParseTile(lines[to.0][to.1]).value.Has(Opposite(d))
    {
      LinkMeaning(lines, grid0, start, d);
    }
  }

  /** The start's link toward d, read back in terms of the lines. */
  lemma LinkMeaning(lines: seq<string>, grid: Grid, start: Point, d: nat)
    requires lines != [] && d < 4 && ParseRows(lines) == Some(grid)
    requires StartLink(grid, start, d, |lines[0]|).Some?
    ensures StartLink(grid, start, d, |lines[0]|).value <==>
      var to := Move(start, d);
      0 <= to.0 < |lines| && 0 <= to.1 < |lines[0]| && 0 <= to.1 < |lines[to.0]|
      && ParseTile(lines[to.0][to.1]).value.Has(Opposite(d))
  {
    var to := Move(start, d);
    if 0 <= to.0 < |lines| && 0 <= to.1 < |lines[to.0]| {
      assert ParseRow(lines[to.0]) == Some(grid[to.0]);
      assert ParseTile(lines[to.0][to.1]) == Some(grid[to.0][to.1]);
    }
  }

  // ---------------------------------------------------------------------
  // The search
  // ---------------------------------------------------------------------

  /** The cells of the `used` matrix: every row of the grid, the first
      line's width. */
  function Cells(n: nat, width: nat): set<Point>
  {
    set i, j | 0 <= i < n && 0 <= j < width :: (i, j)
  }

  /** A tile of the grid (`mtx.get(i)?.get(j)?`). */
  predicate InGrid(grid: Grid, p: Point)
  {
    0 <= p.0 < |grid| && 0 <= p.1 < |grid[p.0]|
  }

  /** The tile at a connects toward d, and its neighbour there points back. */
  predicate Linked(grid: Grid, a: Point, d: nat)
    requires d < 4
  {
    InGrid(grid, a) && InGrid(grid, Move(a, d))
    && grid[a.0][a.1].Has(d) && grid[Move(a, d).0][Move(a, d).1].Has(Opposite(d))
  }

  /** One step of the search can go from a to b. */
  predicate Adjacent(grid: Grid, a: Point, b: Point)
  {
    exists d :: 0 <= d < 4 && Linked(grid, a, d) && Move(a, d) == b
  }

  /** The link is symmetric: each tile points at the other. */
  lemma AdjacentSymmetric(grid: Grid, a: Point, b: Point)
    requires Adjacent(grid, a, b)
    ensures Adjacent(grid, b, a)
  {
    var d :| 0 <= d < 4 && Linked(grid, a, d) && Move(a, d) == b;
    MoveOpposite(a, d);
    OppositeInvolution(d);
    assert Linked(grid, b, Opposite(d)) && Move(b, Opposite(d)) == a;
  }

  /** The first `filter_map`: the linked neighbours, in direction order. */
  function Candidates(grid: Grid, cur: Point): (r: seq<Point>)
    ensures forall k :: 0 <= k < |r| ==> Adjacent(grid, cur, r[k])
  {
    var opts := seq(4, d requires 0 <= d < 4 => if Linked(grid, cur, d) then Some(Move(cur, d)) else None);
    PresentMembers(opts);
    assert forall x :: Some(x) in opts ==> Adjacent(grid, cur, x);
    Present(opts)
  }

  /** Consecutive cells of a path are linked. */
  predicate Chain(grid: Grid, p: seq<Point>)
  {
    forall k :: 0 <= k < |p| - 1 ==> Adjacent(grid, p[k], p[k + 1])
  }

  /** No cell occurs twice. */
  predicate Distinct(p: seq<Point>)
  {
    forall a, b :: 0 <= a < b < |p| ==> p[a] != p[b]
  }

  /** Every cell of the path lies in `cells`. */
  predicate Within(p: seq<Point>, cells: set<Point>)
  {
    forall k :: 0 <= k < |p| ==> p[k] in cells
  }

  /** The path ends next to a visited cell other than the one it came
      from: the search ran into its own trail. */
  predicate Closes(grid: Grid, p: seq<Point>, used: set<Point>)
  {
    p == [] || exists to :: Adjacent(grid, p[|p| - 1], to) && to in used && (|p| < 2 || to != p[|p| - 2])
  }

  /** The second `filter_map`, over the linked neighbours of `cur` with
      `p` the path including `cur`: a neighbour outside the `used` matrix
      is dropped; a visited one other than the parent records `p` when it
      beats the best depth; an unvisited one is kept for the recursion. */
  method Filter(grid: Grid, width: nat, cur: Point, par: Point, depth: nat, u: set<Point>, p: seq<Point>,
                ans0: seq<Point>, best0: nat)
    returns (dirs: seq<Point>, ans: seq<Point>, best: nat)
    ensures forall t :: 0 <= t < |dirs| ==> dirs[t] in Cells(|grid|, width) && dirs[t] !in u && Adjacent(grid, cur, dirs[t])
    ensures (ans == ans0 && best == best0)
      || (ans == p && best == depth + 1 && best0 < best
          && exists to :: Adjacent(grid, cur, to) && to in u && to != par)
  {
    var cands := Candidates(grid, cur);
    dirs := [];
    ans, best := ans0, best0;
    var k := 0;
    while k < |cands|
      invariant k <= |cands|
      invariant forall t :: 0 <= t < |dirs| ==> dirs[t] in Cells(|grid|, width) && dirs[t] !in u && Adjacent(grid, cur, dirs[t])
      invariant (ans == ans0 && best == best0)
        || (ans == p && best == depth + 1 && best0 < best
            && exists to :: Adjacent(grid, cur, to) && to in u && to != par)
    {
      var to := cands[k];
      if 0 <= to.0 < |grid| && 0 <= to.1 < width {
        assert to in Cells(|grid|, width);
        if to in u {
          if to != par && depth + 1 > best {
            best := depth + 1;
            ans := p;
          }
        } else {
          dirs := dirs + [to];
        }
      }
      k := k + 1;
    }
  }

  /** Visiting more cells keeps a path closing. */
  lemma ClosesMore(grid: Grid, p: seq<Point>, a: set<Point>, b: set<Point>)
    requires a <= b && Closes(grid, p, a)
    ensures Closes(grid, p, b)
  {
    if p != [] {
      var to :| Adjacent(grid, p[|p| - 1], to) && to in a && (|p| < 2 || to != p[|p| - 2]);
      assert to in b;
    }
  }

  /** `p` is a simple chain of linked cells inside `cells`, all visited. */
  predicate Trail(grid: Grid, cells: set<Point>, p: seq<Point>, used: set<Point>)
  {
    Chain(grid, p) && Within(p, cells) && Distinct(p) && Within(p, used)
  }

  /** A recorded answer is a simple chain of linked cells inside `cells`
      that runs into the visited trail. */
  predicate Good(grid: Grid, cells: set<Point>, ans: seq<Point>, used: set<Point>)
  {
    Chain(grid, ans) && Within(ans, cells) && Distinct(ans) && Closes(grid, ans, used)
  }

  /** `p` is a prefix of `a`. */
  predicate Extends(a: seq<Point>, p: seq<Point>)
  {
    |p| <= |a| && a[..|p|] == p
  }

  lemma ExtendsDrop(a: seq<Point>, p: seq<Point>, c: Point)
    requires Extends(a, p + [c])
    ensures Extends(a, p)
  {
    assert a[..|p|] == a[..|p| + 1][..|p|];
  }

  /** Stepping from the end of a trail to a linked, unvisited cell in range
      gives a longer trail once that cell is visited. */
  lemma TrailStep(grid: Grid, cells: set<Point>, p: seq<Point>, u: set<Point>, uu: set<Point>, c: Point)
    requires Trail(grid, cells, p, u) && u <= uu
    requires p != [] && Adjacent(grid, p[|p| - 1], c) && c !in u && c in cells
    ensures Trail(grid, cells, p + [c], uu + {c})
  {
    var q := p + [c];
    assert forall k :: 0 <= k < |p| ==> q[k] == p[k];
  }
  /** What the filter's outcome means for the search's promises. */
  lemma AfterFilter(grid: Grid, cells: set<Point>, cur: Point, par: Point, depth: nat, used: set<Point>,
                    path: seq<Point>, pathAns: seq<Point>, mx: nat, ans: seq<Point>, best: nat)
    requires (ans == pathAns && best == mx)
      || (ans == path + [cur] && best == depth + 1 && mx < best
          && exists to :: Adjacent(grid, cur, to) && to in used + {cur} && to != par)
    ensures (ans == pathAns && best == mx) || (mx < best && Extends(ans, path + [cur]))
    ensures depth == |path| && |pathAns| == mx ==> |ans| == best
    ensures Trail(grid, cells, path + [cur], used + {cur}) && (path != [] ==> par == path[|path| - 1])
      && Good(grid, cells, pathAns, used)
      ==> Good(grid, cells, ans, used + {cur})
  {
    if ans == pathAns && best == mx {
      if Good(grid, cells, pathAns, used) {
        ClosesMore(grid, pathAns, used, used + {cur});
      }
    } else {
      assert ans[..|ans|] == ans;
    }
  }

  /** `dfs`: mark `cur` used and push it, filter its linked neighbours,
      search the kept ones, then pop. The results are the new `used`,
      `path`, `path_ans` and `mx`: the path is as it was, the search only
      visits cells in range, and a new answer is the current path
      continued, a trail that runs into itself, of length `mx`. */
  method Dfs(grid: Grid, width: nat, cur: Point, par: Point, depth: nat,
             used: set<Point>, path: seq<Point>, pathAns: seq<Point>, mx: nat)
    returns (used': set<Point>, path': seq<Point>, pathAns': seq<Point>, mx': nat)
    requires cur in Cells(|grid|, width)
    ensures path' == path
    ensures used + {cur} <= used' <= used + Cells(|grid|, width)
    ensures (pathAns' == pathAns && mx' == mx) || (mx < mx' && Extends(pathAns', path + [cur]))
    ensures depth == |path| && |pathAns| == mx ==> |pathAns'| == mx'
    ensures Trail(grid, Cells(|grid|, width), path + [cur], used + {cur})
      && (path != [] ==> par == path[|path| - 1]) && Good(grid, Cells(|grid|, width), pathAns, used)
      ==> Good(grid, Cells(|grid|, width), pathAns', used')
    decreases |Cells(|grid|, width) - used - {cur}|, 1
  {
    ghost var cells := Cells(|grid|, width);
    var u := used + {cur};
    var p := path + [cur];
    var dirs, ans, best := Filter(grid, width, cur, par, depth, u, p, pathAns, mx);
    AfterFilter(grid, cells, cur, par, depth, used, path, pathAns, mx, ans, best);
    assert cells - u == cells - used - {cur};
    used', ans, best := VisitAll(grid, width, cur, depth, dirs, u, p, ans, best);
    path', pathAns', mx' := path, ans, best;
  }

  /** The `for` loop of `dfs` over the kept neighbours `dirs` of `cur`,
      searching each in turn with `p` the path up to `cur`, even one an
      earlier search has visited meanwhile. */
  method VisitAll(grid: Grid, width: nat, cur: Point, depth: nat, dirs: seq<Point>,
                  u: set<Point>, p: seq<Point>, ans0: seq<Point>, best0: nat)
    returns (uu: set<Point>, ans: seq<Point>, best: nat)
    requires p != [] && p[|p| - 1] == cur && cur in u
    requires forall t :: 0 <= t < |dirs| ==> dirs[t] in Cells(|grid|, width) && dirs[t] !in u && Adjacent(grid, cur, dirs[t])
    ensures u <= uu <= u + Cells(|grid|, width)
    ensures (ans == ans0 && best == best0) || (best0 < best && Extends(ans, p))
    ensures depth + 1 == |p| && |ans0| == best0 ==> |ans| == best
    ensures Trail(grid, Cells(|grid|, width), p, u) && Good(grid, Cells(|grid|, width), ans0, u)
      ==> Good(grid, Cells(|grid|, width), ans, uu)
    decreases |Cells(|grid|, width) - u|, 0
  {
    ghost var cells := Cells(|grid|, width);
    uu, ans, best := u, ans0, best0;
    var i := 0;
    while i < |dirs|
      invariant i <= |dirs|
      invariant Progress(grid, cells, depth, p, u, ans0, best0, uu, ans, best)
    {
      var c := dirs[i];
      RemoveSmaller(cells - uu - {c}, cells - u, c);
      ghost var uu0, ans1, best1 := uu, ans, best;
      var pp;
      uu, pp, ans, best := Dfs(grid, width, c, cur, depth + 1, uu, p, ans, best);
      ChildDone(grid, cells, depth, p, c, u, ans0, best0, uu0, ans1, best1, uu, ans, best);
      i := i + 1;
    }
  }

  /** The promises of `VisitAll`, kept after each searched neighbour. */
  predicate Progress(grid: Grid, cells: set<Point>, depth: nat, p: seq<Point>, u: set<Point>,
                     ans0: seq<Point>, best0: nat, uu: set<Point>, ans: seq<Point>, best: nat)
  {
    && u <= uu <= u + cells
    && ((ans == ans0 && best == best0) || (best0 < best && Extends(ans, p)))
    && (depth + 1 == |p| && |ans0| == best0 ==> |ans| == best)
    && (Trail(grid, cells, p, u) && Good(grid, cells, ans0, u) ==> Good(grid, cells, ans, uu))
  }

  /** Searching one more kept neighbour c keeps the promises. */
  lemma ChildDone(grid: Grid, cells: set<Point>, depth: nat, p: seq<Point>, c: Point, u: set<Point>,
                  ans0: seq<Point>, best0: nat, uu0: set<Point>, ans1: seq<Point>, best1: nat,
                  uu: set<Point>, ans: seq<Point>, best: nat)
    requires p != [] && c in cells && c !in u && Adjacent(grid, p[|p| - 1], c)
    requires Progress(grid, cells, depth, p, u, ans0, best0, uu0, ans1, best1)
    requires uu0 + {c} <= uu <= uu0 + cells
    requires (ans == ans1 && best == best1) || (best1 < best && Extends(ans, p + [c]))
    requires depth + 1 == |p| && |ans1| == best1 ==> |ans| == best
    requires Trail(grid, cells, p + [c], uu0 + {c}) && Good(grid, cells, ans1, uu0)
      ==> Good(grid, cells, ans, uu)
    ensures Progress(grid, cells, depth, p, u, ans0, best0, uu, ans, best)
  {
    if Trail(grid, cells, p, u) {
      TrailStep(grid, cells, p, u, uu0, c);
    }
    if !(ans == ans1 && best == best1) {
      ExtendsDrop(ans, p, c);
    }
  }

  // ---------------------------------------------------------------------
  // Part 1
  // ---------------------------------------------------------------------

  /** What the search from `start` can record: nothing, or a simple chain
      of linked cells inside the `used` matrix, starting at `start`, that
      ends next to a cell other than the one it came from. */
  predicate Loop(grid: Grid, start: Point, ans: seq<Point>)
    requires grid != []
  {
    var cells := Cells(|grid|, |grid[0]|);
    (ans == [] || ans[0] == start) && Good(grid, cells, ans, cells)
  }

  /** `dfs` from the start with no parent (`(-1, -1)`), depth 0, nothing
      used and empty paths: the recorded path and `mx`, its length. */
  method Search(grid: Grid, start: Point) returns (ans: seq<Point>, mx: nat)
    requires grid != [] && start in Cells(|grid|, |grid[0]|)
    ensures |ans| == mx && Loop(grid, start, ans)
  {
    var cells := Cells(|grid|, |grid[0]|);
    assert Trail(grid, cells, [] + [start], {} + {start});
    var used, path;
    used, path, ans, mx := Dfs(grid, |grid[0]|, start, (-1, -1), 0, {}, [], [], 0);
    if ans != [] {
      assert ans[0] == ans[..1][0];
    }
    ClosesMore(grid, ans, used, cells);
  }

  /** `part1`: half the length of the recorded path; None where parsing
      panics or the start lies beyond the first line's width (the `used`
      matrix is indexed there). */
  method Part1(lines: seq<string>) returns (r: Option<nat>)
    ensures r.None? <==> Parse(lines).None? || Parse(lines).value.0.1 >= |Parse(lines).value.1[0]|
    ensures r.Some? ==> exists ans :: Loop(Parse(lines).value.1, Parse(lines).value.0, ans) && r.value == |ans| / 2
  {
    var parsed := Parse(lines);
    if parsed.None? {
      return None;
    }
    var start, grid := parsed.value.0, parsed.value.1;
    if start.1 >= |grid[0]| {
      return None;
    }
    ParseMeaning(lines);
    assert start in Cells(|grid|, |grid[0]|);
    var ans, mx := Search(grid, start);
    r := Some(mx / 2);
  }

  // ---------------------------------------------------------------------
  // Part 2
  // ---------------------------------------------------------------------

  /** The flags of a row scan and the cells counted so far in the row. */
  datatype Scan = Scan(enclosed: bool, inDown: bool, inUp: bool, count: nat)

  const Fresh := Scan(false, false, false, 0)

  /** The `match` on a tile of the path, arms in the code's order: whether
      the row crosses the loop here, and the new `in_down` and `in_up`.
      A pipe entered from below (`F`) and left upward (`J`), or the other
      way round, crosses; one that turns back does not. None where an
      `assert!` fails or the tile is `unreachable!`. */
  function PathStep(t: Tile, inDown: bool, inUp: bool): Option<(bool, bool, bool)>
  {
    if t == Ground then Some((false, inDown, inUp))
    else if t == Tile(true, false, true, false) then Some((true, inDown, inUp))
    else if t == Tile(false, true, false, true) then Some((false, inDown, inUp))
    else if t.up && t.right then Some((false, inDown, true))
    else if t.up && t.left then
      if inUp then Some((false, inDown, false))
      else if !inDown then None
      else Some((true, false, inUp))
    else if t.right && t.down then Some((false, true, inUp))
    else if t.down && t.left then
      if inDown then Some((false, false, inUp))
      else if !inUp then None
      else Some((true, inDown, false))
    else None
  }

  /** One cell of the scan: a path tile toggles `enclosed` when crossed; any
      other cell counts when enclosed. */
  function Step(t: Tile, on: bool, s: Scan): Option<Scan>
  {
    if on then
      match PathStep(t, s.inDown, s.inUp)
      case None => None
      case Some((crossed, inDown, inUp)) => Some(Scan(s.enclosed != crossed, inDown, inUp, s.count))
    else Some(s.(count := s.count + if s.enclosed then 1 else 0))
  }

  /** The scan of the first k cells of a row, `on` marking path cells. */
  function ScanPrefix(row: seq<Tile>, on: seq<bool>, k: nat): Option<Scan>
    requires k <= |row| == |on|
  {
    if k == 0 then Some(Fresh)
    else
      match ScanPrefix(row, on, k - 1)
      case None => None
      case Some(s) => Step(row[k - 1], on[k - 1], s)
  }

  /** A failed scan stays failed. */
  lemma {:induction false} ScanPrefixNone(row: seq<Tile>, on: seq<bool>, k: nat, n: nat)
    requires k <= n <= |row| == |on| && ScanPrefix(row, on, k).None?
    ensures ScanPrefix(row, on, n).None?
    decreases n - k
  {
    if k < n {
      ScanPrefixNone(row, on, k + 1, n);
    }
  }

  /** Path tiles among the first k cells that connect upward. */
  function Ups(row: seq<Tile>, on: seq<bool>, k: nat): nat
    requires k <= |row| == |on|
  {
    if k == 0 then 0 else Ups(row, on, k - 1) + if on[k - 1] && row[k - 1].up then 1 else 0
  }

  /** Cells off the path among the first k. */
  function Offs(on: seq<bool>, k: nat): nat
    requires k <= |on|
  {
    if k == 0 then 0 else Offs(on, k - 1) + if on[k - 1] then 0 else 1
  }

  /** The scan is ray casting: as long as no `L`-shaped path tile is met
      while `in_up` is set, `enclosed` says whether an odd number of path
      tiles to the left connect upward, corrected by `in_up` while the
      row runs along a pipe that came from above; and only cells off the
      path are counted. */
  lemma {:induction false} ScanParity(row: seq<Tile>, on: seq<bool>, k: nat)
    requires k <= |row| == |on| && ScanPrefix(row, on, k).Some?
    requires forall t :: 0 <= t < k && on[t] && row[t].up && row[t].right && ScanPrefix(row, on, t).Some? ==>
      !ScanPrefix(row, on, t).value.inUp
    ensures var s := ScanPrefix(row, on, k).value;
      s.enclosed == ((Ups(row, on, k) % 2 == 1) != s.inUp) && s.count <= Offs(on, k)
  {
    if k > 0 {
      ScanParity(row, on, k - 1);
    }
  }

  /** Cells before the first path tile of a row are never counted. */
  lemma {:induction false} NothingBeforePath(row: seq<Tile>, on: seq<bool>, k: nat)
    requires k <= |row| == |on|
    requires forall t :: 0 <= t < k ==> !on[t]
    ensures ScanPrefix(row, on, k) == Some(Fresh)
  {
    if k > 0 {
      NothingBeforePath(row, on, k - 1);
    }
  }

  /** The cells of the recorded path (the `on_path` matrix). */
  function Marks(ans: seq<Point>): set<Point>
  {
    set k | 0 <= k < |ans| :: ans[k]
  }

  /** `on_path` along row i. */
  function OnRow(row: seq<Tile>, i: int, marks: set<Point>): (on: seq<bool>)
    ensures |on| == |row|
  {
    seq(|row|, j requires 0 <= j < |row| => (i, j) in marks)
  }

  /** The count over rows 0..n; None where a scan fails or a row is longer
      than the `on_path` matrix is wide. */
  function CountRows(grid: Grid, width: nat, marks: set<Point>, n: nat): Option<nat>
    requires n <= |grid|
  {
    if n == 0 then Some(0)
    else
      match CountRows(grid, width, marks, n - 1)
      case None => None
      case Some(c) =>
        var row := grid[n - 1];
        if |row| > width then None
        else
          match ScanPrefix(row, OnRow(row, n - 1, marks), |row|)
          case None => None
          case Some(s) => Some(c + s.count)
  }

  /** A failed count stays failed. */
  lemma {:induction false} CountRowsNone(grid: Grid, width: nat, marks: set<Point>, k: nat, n: nat)
    requires k <= n <= |grid| && CountRows(grid, width, marks, k).None?
    ensures CountRows(grid, width, marks, n).None?
    decreases n - k
  {
    if k < n {
      CountRowsNone(grid, width, marks, k + 1, n);
    }
  }

  /** The inner `for` loop of `part2` over one row with its flags. */
  method ScanRow(row: seq<Tile>, i: int, marks: set<Point>, width: nat) returns (r: Option<Scan>)
    ensures r == if |row| > width then None else ScanPrefix(row, OnRow(row, i, marks), |row|)
  {
    ghost var on := OnRow(row, i, marks);
    var enclosed, inDown, inUp, count := false, false, false, 0;
    var j := 0;
    while j < |row|
      invariant j <= |row| && j <= width
      invariant ScanPrefix(row, on, j) == Some(Scan(enclosed, inDown, inUp, count))
    {
      if j >= width {
        return None;
      }
      if (i, j) in marks {
        var step := PathStep(row[j], inDown, inUp);
        if step.None? {
          ScanPrefixNone(row, on, j + 1, |row|);
          return None;
        }
        var crossed;
        crossed, inDown, inUp := step.value.0, step.value.1, step.value.2;
        enclosed := enclosed != crossed;
      } else {
        count := count + if enclosed then 1 else 0;
      }
      j := j + 1;
    }
    r := Some(Scan(enclosed, inDown, inUp, count));
  }

  /** `part2`: the enclosed cells counted over the recorded path; None where
      parsing or the search panics, as in part 1, or the count does. */
  method Part2(lines: seq<string>) returns (r: Option<nat>)
    ensures Parse(lines).None? ==> r.None?
    ensures Parse(lines).Some? ==>
      var (start, grid) := Parse(lines).value;
      (start.1 >= |grid[0]| ==> r.None?)
      && (start.1 < |grid[0]| ==> exists ans :: Loop(grid, start, ans) && r == CountRows(grid, |grid[0]|, Marks(ans), |grid|))
  {
    var parsed := Parse(lines);
    if parsed.None? {
      return None;
    }
    var start, grid := parsed.value.0, parsed.value.1;
    var width := |grid[0]|;
    if start.1 >= width {
      return None;
    }
    ParseMeaning(lines);
    assert start in Cells(|grid|, width);
    var ans, mx := Search(grid, start);
    r := CountAll(grid, width, Marks(ans));
  }

  /** The outer `for` loop of `part2`, summing the rows' counts. */
  method CountAll(grid: Grid, width: nat, marks: set<Point>) returns (r: Option<nat>)
    ensures r == CountRows(grid, width, marks, |grid|)
  {
    var cnt := 0;
    var i := 0;
    while i < |grid|
      invariant i <= |grid|
      invariant CountRows(grid, width, marks, i) == Some(cnt)
    {
      var s := ScanRow(grid[i], i, marks, width);
      if s.None? {
        CountRowsNone(grid, width, marks, i + 1, |grid|);
        return None;
      }
      cnt := cnt + s.value.count;
      i := i + 1;
    }
    r := Some(cnt);
  }
}
