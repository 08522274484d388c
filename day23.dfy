/** Day 23 (A Long Walk): a grid of forest, path and slope tiles. A
    depth-first search from the second cell of the first row to the
    second-to-last cell of the last row marks the cells of the current
    path in a `used` grid, clears each mark again on the way back, and
    returns the longest distance to the target; a branch that gets stuck
    is worth `i32::MIN` plus what it walked. Part 1 may only go down a
    slope in its own direction. Part 2 ignores slopes and first compresses
    every corridor into one weighted step between junctions. */
module Day23 {
  import opened Common

  /** A cell (row, column); a step off the grid may go negative. */
  type Cell = (int, int)

  /** `Direction`: a (row, column) offset. */
  type Direction = (int, int)

  /** `DIRS`: up, right, down, left. */
  const Dirs: seq<Direction> := [(-1, 0), (0, 1), (1, 0), (0, -1)]

  /** `i32::MIN`, the value of a branch that cannot go on. */
  const Min: int := -0x8000_0000

  /** `Type`: what a tile is. */
  datatype Tile = Forest | Path | Slope(dir: Direction)

  /** The tiles, row by row. */
  type Grid = seq<seq<Tile>>

  /** A `(usize, usize, i32)` step: where it leads and how far it is. */
  datatype Step = Step(to: Cell, dist: int)

  /** The precomputed steps of each cell, `None` where there are none. */
  type Table = seq<seq<Option<seq<Step>>>>

  /** The cell one step from c in direction d. */
  function Add(c: Cell, d: Direction): Cell
  {
    (c.0 + d.0, c.1 + d.1)
  }

  /** `mtx.get(i)?.get(j)?` succeeds: a negative coordinate becomes a huge
      `usize` and fails too. */
  predicate InGrid(grid: Grid, c: Cell)
  {
    0 <= c.0 < |grid| && 0 <= c.1 < |grid[c.0]|
  }

  // ---------------------------------------------------------------------
  // Parsing
  // ---------------------------------------------------------------------

  /** One character as a tile; any other character is `unreachable!`. */
  function ParseTile(c: char): Option<Tile>
  {
    match c
    case '#' => Some(Forest)
    case '.' => Some(Path)
    case '<' => Some(Slope((0, -1)))
    case '>' => Some(Slope((0, 1)))
    case 'v' => Some(Slope((1, 0)))
    case '^' => Some(Slope((-1, 0)))
    case _ => None
  }

  /** The character a tile is drawn with, for the tiles the input has. */
  function Show(t: Tile): char
    requires t.Slope? ==> t.dir in Dirs
  {
    match t
    case Forest => '#'
    case Path => '.'
    case Slope(d) => if d == (0, -1) then '<' else if d == (0, 1) then '>' else if d == (1, 0) then 'v' else '^'
  }

  /** Every tile is read back from its character, and the characters read
      are exactly the six tile characters. */
  lemma ParseShow(t: Tile, c: char)
    requires t.Slope? ==> t.dir in Dirs
    ensures ParseTile(Show(t)) == Some(t)
    ensures ParseTile(c).Some? <==> c in "#.<>v^"
    ensures ParseTile(c).Some? ==> Show(ParseTile(c).value) == c
  {
  }

  /** One line as its tiles; None if some character is `unreachable!`. */
  function ParseRow(line: string): (r: Option<seq<Tile>>)
    ensures r.Some? <==> forall j :: 0 <= j < |line| ==> ParseTile(line[j]).Some?
    ensures r.Some? ==> |r.value| == |line| && forall j :: 0 <= j < |line| ==> ParseTile(line[j]) == Some(r.value[j])
  {
    if line == [] then Some([])
    else
      match ParseRow(line[..|line| - 1])
      case None => None
      case Some(front) =>
        match ParseTile(line[|line| - 1])
        case None => None
        case Some(t) => Some(front + [t])
  }

  /** `parse_input`: every line as its tiles. */
  function ParseGrid(lines: seq<string>): (r: Option<Grid>)
    ensures r.Some? <==> forall i :: 0 <= i < |lines| ==> ParseRow(lines[i]).Some?
    ensures r.Some? ==> |r.value| == |lines| && forall i :: 0 <= i < |lines| ==> ParseRow(lines[i]) == Some(r.value[i])
  {
    if lines == [] then Some([])
    else
      match ParseGrid(lines[..|lines| - 1])
      case None => None
      case Some(front) =>
        match ParseRow(lines[|lines| - 1])
        case None => None
        case Some(row) => Some(front + [row])
  }

  // ---------------------------------------------------------------------
  // The steps out of a cell
  // ---------------------------------------------------------------------

  /** The `filter_map` over `DIRS` from direction k on: each neighbour in
      the grid that is not forest, at distance 1. */
  function OpenFrom(grid: Grid, c: Cell, k: nat): seq<Step>
    requires k <= 4
    decreases 4 - k, 1
  {
    if k == 4 then [] else OpenAt(grid, c, k)
  }

  /** Direction k itself, then the directions after it. */
  function OpenAt(grid: Grid, c: Cell, k: nat): seq<Step>
    requires k < 4
    decreases 4 - k, 0
  {
    var to := Add(c, Dirs[k]);
    (if InGrid(grid, to) && grid[to.0][to.1] != Forest then [Step(to, 1)] else []) + OpenFrom(grid, c, k + 1)
  }

  /** The neighbours of c a path tile may step to. */
  function Open(grid: Grid, c: Cell): seq<Step>
  {
    OpenFrom(grid, c, 0)
  }

  /** b is one of the four neighbours of a. */
  predicate Adjacent(a: Cell, b: Cell)
  {
    exists k :: 0 <= k < 4 && b == Add(a, Dirs[k])
  }

  /** The open steps are exactly the neighbours in the grid that are not
      forest, each at distance 1, and there are at most four. */
  lemma OpenMeaning(grid: Grid, c: Cell)
    ensures |Open(grid, c)| <= 4
    ensures forall x :: x in Open(grid, c) <==>
      x.dist == 1 && Adjacent(c, x.to) && InGrid(grid, x.to) && grid[x.to.0][x.to.1] != Forest
  {
    OpenFromMeaning(grid, c, 0);
  }

  lemma {:induction false} OpenFromMeaning(grid: Grid, c: Cell, k: nat)
    requires k <= 4
    ensures |OpenFrom(grid, c, k)| <= 4 - k
    ensures forall x :: x in OpenFrom(grid, c, k) <==>
      (x.dist == 1 && InGrid(grid, x.to) && grid[x.to.0][x.to.1] != Forest
        && exists d :: k <= d < 4 && x.to == Add(c, Dirs[d]))
    decreases 4 - k
  {
    if k < 4 {
      OpenFromMeaning(grid, c, k + 1);
      forall x
        ensures x in OpenFrom(grid, c, k) <==>
          (x.dist == 1 && InGrid(grid, x.to) && grid[x.to.0][x.to.1] != Forest
            && exists d :: k <= d < 4 && x.to == Add(c, Dirs[d]))
      {
        if x.dist == 1 && InGrid(grid, x.to) && grid[x.to.0][x.to.1] != Forest
          && exists d :: k <= d < 4 && x.to == Add(c, Dirs[d])
        {
          var d :| k <= d < 4 && x.to == Add(c, Dirs[d]);
          if d > k {
            assert x in OpenFrom(grid, c, k + 1);
          }
        }
      }
    }
  }

  /** `Type::next` without a precomputed entry: a path tile, or a slope
      when slopes do not matter, steps to its open neighbours; a slope
      that matters steps one cell its own way, wherever that lands; forest
      is `unreachable!`, as is indexing `mtx` outside the grid. */
  function Tiles(grid: Grid, c: Cell, slopes: bool): Option<seq<Step>>
  {
    if !InGrid(grid, c) then None
    else
      match grid[c.0][c.1]
      case Path => Some(Open(grid, c))
      case Slope(d) => if slopes then Some([Step(Add(c, d), 1)]) else Some(Open(grid, c))
      case Forest => None
  }

  /** `Type::next` with the precomputed table: an entry for the cell wins
      over the tiles; the table is indexed first, so a cell outside it
      panics. */
  function Next(grid: Grid, table: Table, c: Cell, slopes: bool): Option<seq<Step>>
  {
    if !InGrid(grid, c) then None
    else if !(c.0 < |table| && c.1 < |table[c.0]|) then None
    else if table[c.0][c.1].Some? then table[c.0][c.1]
    else Tiles(grid, c, slopes)
  }

  /** What the steps out of a cell are, tile by tile. */
  lemma NextMeaning(grid: Grid, table: Table, c: Cell, slopes: bool)
    requires InGrid(grid, c) && c.0 < |table| && c.1 < |table[c.0]|
    ensures table[c.0][c.1].Some? ==> Next(grid, table, c, slopes) == table[c.0][c.1]
    ensures table[c.0][c.1].None? && grid[c.0][c.1] == Forest ==> Next(grid, table, c, slopes).None?
    ensures table[c.0][c.1].None? && (grid[c.0][c.1] == Path || (grid[c.0][c.1].Slope? && !slopes)) ==>
      Next(grid, table, c, slopes).Some? && forall x :: x in Next(grid, table, c, slopes).value <==>
        x.dist == 1 && Adjacent(c, x.to) && InGrid(grid, x.to) && grid[x.to.0][x.to.1] != Forest
    ensures table[c.0][c.1].None? && grid[c.0][c.1].Slope? && slopes ==>
      Next(grid, table, c, slopes) == Some([Step(Add(c, grid[c.0][c.1].dir), 1)])
  {
    OpenMeaning(grid, c);
  }

  // ---------------------------------------------------------------------
  // The longest walk
  // ---------------------------------------------------------------------

  /** The cells of an n by m `used` grid. */
  function Cells(n: nat, m: nat): set<Cell>
  {
    set i, j | 0 <= i < n && 0 <= j < m :: (i, j)
  }

  /** c indexes an n by m grid. */
  predicate Inside(n: nat, m: nat, c: Cell)
  {
    0 <= c.0 < n && 0 <= c.1 < m
  }

  /** The cells of the grid are the cells inside it. */
  lemma CellsMeaning(n: nat, m: nat, c: Cell)
    ensures c in Cells(n, m) <==> Inside(n, m, c)
  {
    if Inside(n, m, c) {
      assert c == (c.0, c.1);
    }
  }

  /** `dfs_main` from cur with the cells of `used` marked: 0 at the target;
      otherwise marking cur, which panics outside the `used` grid, and
      going on from there. */
  function Longest(grid: Grid, table: Table, slopes: bool, n: nat, m: nat, target: Cell, cur: Cell,
                   used: set<Cell>): Option<int>
    requires used <= Cells(n, m) && cur !in used
    decreases |Cells(n, m) - used|, 1
  {
    if cur == target then Some(0)
    else if !Inside(n, m, cur) then None
    else Expand(grid, table, slopes, n, m, target, cur, used)
  }

  /** The rest of `dfs_main` from a marked cell: the best of the steps to
      unmarked cells, each worth its distance plus the search from there,
      starting from `i32::MIN`. */
  function Expand(grid: Grid, table: Table, slopes: bool, n: nat, m: nat, target: Cell, cur: Cell,
                  used: set<Cell>): Option<int>
    requires used <= Cells(n, m) && cur !in used && Inside(n, m, cur)
    decreases |Cells(n, m) - used|, 0
  {
    match Next(grid, table, cur, slopes)
    case None => None
    case Some(tos) =>
      CellsMeaning(n, m, cur);
      RemoveSmaller(Cells(n, m) - (used + {cur}), Cells(n, m) - used, cur);
      BestOf(grid, table, slopes, n, m, target, tos, |tos|, used + {cur})
  }

  /** The `for` loop over the first k steps, with `seen` marked. */
  function BestOf(grid: Grid, table: Table, slopes: bool, n: nat, m: nat, target: Cell, tos: seq<Step>, k: nat,
                  seen: set<Cell>): Option<int>
    requires k <= |tos| && seen <= Cells(n, m)
    decreases |Cells(n, m) - seen|, 2, k
  {
    if k == 0 then Some(Min)
    else
      match BestOf(grid, table, slopes, n, m, target, tos, k - 1, seen)
      case None => None
      case Some(mx) =>
        var s := tos[k - 1];
        if !Inside(n, m, s.to) then None
        else if s.to in seen then Some(mx)
        else
          match Longest(grid, table, slopes, n, m, target, s.to, seen)
          case None => None
          case Some(v) => Some(if mx < s.dist + v then s.dist + v else mx)
  }

  /** `used` marks exactly the cells of `seen`. */
  ghost predicate Marks(used: array2<bool>, seen: set<Cell>)
    reads used
  {
    && seen <= Cells(used.Length0, used.Length1)
    && forall i, j :: 0 <= i < used.Length0 && 0 <= j < used.Length1 ==> (used[i, j] <==> (i, j) in seen)
  }

  /** The search from a cell other than the target, one level down. */
  lemma LongestStep(grid: Grid, table: Table, slopes: bool, n: nat, m: nat, target: Cell, cur: Cell,
                    used: set<Cell>)
    requires used <= Cells(n, m) && cur !in used && cur != target && Inside(n, m, cur)
    ensures Next(grid, table, cur, slopes).None? ==> Longest(grid, table, slopes, n, m, target, cur, used).None?
    ensures Next(grid, table, cur, slopes).Some? ==>
      var tos := Next(grid, table, cur, slopes).value;
      Longest(grid, table, slopes, n, m, target, cur, used) == BestOf(grid, table, slopes, n, m, target, tos, |tos|, used + {cur})
  {
    assert Longest(grid, table, slopes, n, m, target, cur, used) == Expand(grid, table, slopes, n, m, target, cur, used);
  }

  /** One turn of the loop: a step outside the grid panics, a marked cell
      is skipped, and an unmarked one counts with what the search from it
      returns, or panics with it. */
  lemma BestOfStep(grid: Grid, table: Table, slopes: bool, n: nat, m: nat, target: Cell, tos: seq<Step>, k: nat,
                   seen: set<Cell>, mx: int)
    requires k < |tos| && seen <= Cells(n, m)
    requires BestOf(grid, table, slopes, n, m, target, tos, k, seen) == Some(mx)
    ensures !Inside(n, m, tos[k].to) ==> BestOf(grid, table, slopes, n, m, target, tos, |tos|, seen).None?
    ensures tos[k].to in seen ==> BestOf(grid, table, slopes, n, m, target, tos, k + 1, seen) == Some(mx)
    ensures Inside(n, m, tos[k].to) && tos[k].to !in seen ==>
      var v := Longest(grid, table, slopes, n, m, target, tos[k].to, seen);
      && (v.None? ==> BestOf(grid, table, slopes, n, m, target, tos, |tos|, seen).None?)
      && (v.Some? ==> BestOf(grid, table, slopes, n, m, target, tos, k + 1, seen)
                        == Some(if mx < tos[k].dist + v.value then tos[k].dist + v.value else mx))
  {
    if BestOf(grid, table, slopes, n, m, target, tos, k + 1, seen).None? {
      BestOfNone(grid, table, slopes, n, m, target, tos, k + 1, |tos|, seen);
    }
  }

  /** Once the loop has panicked it stays panicked. */
  lemma {:induction false} BestOfNone(grid: Grid, table: Table, slopes: bool, n: nat, m: nat, target: Cell,
                                      tos: seq<Step>, k: nat, k': nat, seen: set<Cell>)
    requires k <= k' <= |tos| && seen <= Cells(n, m)
    requires BestOf(grid, table, slopes, n, m, target, tos, k, seen).None?
    ensures BestOf(grid, table, slopes, n, m, target, tos, k', seen).None?
    decreases k' - k
  {
    if k < k' {
      BestOfNone(grid, table, slopes, n, m, target, tos, k, k' - 1, seen);
    }
  }

  /** `dfs_main`: the search, marking cur in `used` and clearing it again
      before it returns. */
  method DfsMain(grid: Grid, table: Table, slopes: bool, target: Cell, cur: Cell, used: array2<bool>,
                 ghost seen: set<Cell>)
    returns (r: Option<int>)
    requires Marks(used, seen) && cur !in seen
    modifies used
    ensures r == Longest(grid, table, slopes, used.Length0, used.Length1, target, cur, seen)
    ensures r.Some? ==> forall i, j :: 0 <= i < used.Length0 && 0 <= j < used.Length1 ==> used[i, j] == old(used[i, j])
    decreases |Cells(used.Length0, used.Length1) - seen|, 0
  {
    if cur == target {
      return Some(0);
    }
    var n, m := used.Length0, used.Length1;
    if !(0 <= cur.0 < n && 0 <= cur.1 < m) {
      return None;
    }
    used[cur.0, cur.1] := true;
    var next := Next(grid, table, cur, slopes);
    LongestStep(grid, table, slopes, n, m, target, cur, seen);
    if next.None? {
      return None;
    }
    CellsMeaning(n, m, cur);
    RemoveSmaller(Cells(n, m) - (seen + {cur}), Cells(n, m) - seen, cur);
    r := Visit(grid, table, slopes, target, cur, next.value, used, seen + {cur});
    if r.Some? {
      used[cur.0, cur.1] := false;
    }
  }

  /** The `for` loop of `dfs_main` over the steps out of cur, which is
      marked: the best value, starting from `i32::MIN`. */
  method Visit(grid: Grid, table: Table, slopes: bool, target: Cell, cur: Cell, tos: seq<Step>,
               used: array2<bool>, ghost marked: set<Cell>)
    returns (r: Option<int>)
    requires Marks(used, marked) && cur in marked
    modifies used
    ensures r == BestOf(grid, table, slopes, used.Length0, used.Length1, target, tos, |tos|, marked)
    ensures r.Some? ==> forall i, j :: 0 <= i < used.Length0 && 0 <= j < used.Length1 ==> used[i, j] == old(used[i, j])
    decreases |Cells(used.Length0, used.Length1) - marked|, 1
  {
    var n, m := used.Length0, used.Length1;
    var mx := Min;
    var k := 0;
    while k < |tos|
      invariant k <= |tos| && Marks(used, marked)
      invariant forall i, j :: 0 <= i < n && 0 <= j < m ==> used[i, j] == old(used[i, j])
      invariant BestOf(grid, table, slopes, n, m, target, tos, k, marked) == Some(mx)
    {
      var s := tos[k];
      BestOfStep(grid, table, slopes, n, m, target, tos, k, marked, mx);
      if !(0 <= s.to.0 < n && 0 <= s.to.1 < m) {
        return None;
      }
      assert s.to == (s.to.0, s.to.1);
      if !used[s.to.0, s.to.1] {
        var v := DfsMain(grid, table, slopes, target, s.to, used, marked);
        if v.None? {
          return None;
        }
        mx := if mx < s.dist + v.value then s.dist + v.value else mx;
      }
      k := k + 1;
    }
    r := Some(mx);
  }

  // ---------------------------------------------------------------------
  // What the search finds
  // ---------------------------------------------------------------------

  /** The steps out of each cell, as a function of the cell. */
  function Steps(grid: Grid, table: Table, slopes: bool): Cell -> Option<seq<Step>>
  {
    c => Next(grid, table, c, slopes)
  }

  /** The search may take step s from cur: cur is not the target, s is
      one of its steps, and it lands in the grid on an unmarked cell. */
  predicate Admissible(next: Cell -> Option<seq<Step>>, n: nat, m: nat, target: Cell, cur: Cell,
                       used: set<Cell>, s: Step)
  {
    && cur != target && Inside(n, m, cur)
    && next(cur).Some? && s in next(cur).value
    && Inside(n, m, s.to) && s.to !in used + {cur}
  }

  /** cur is stuck: every one of its steps lands on a marked cell. */
  predicate Stuck(next: Cell -> Option<seq<Step>>, n: nat, m: nat, cur: Cell, used: set<Cell>)
  {
    && Inside(n, m, cur) && next(cur).Some?
    && forall x :: x in next(cur).value ==> x.to in used + {cur}
  }

  /** The walk s from cur, marking as it goes, ends where the search
      stops with value v: at the target worth the distance walked, or
      stuck worth `i32::MIN` plus the distance walked. */
  ghost predicate Scores(next: Cell -> Option<seq<Step>>, n: nat, m: nat, target: Cell, cur: Cell,
                         used: set<Cell>, s: seq<Step>, v: int)
    decreases |s|, 1
  {
    Walk(next, n, m, target, cur, used, s, v)
  }

  /** The first step of the walk, or where it ends. */
  ghost predicate Walk(next: Cell -> Option<seq<Step>>, n: nat, m: nat, target: Cell, cur: Cell,
                       used: set<Cell>, s: seq<Step>, v: int)
    decreases |s|, 0
  {
    if s == [] then
      (cur == target && v == 0) || (cur != target && Stuck(next, n, m, cur, used) && v == Min)
    else
      && Admissible(next, n, m, target, cur, used, s[0])
      && Scores(next, n, m, target, s[0].to, used + {cur}, s[1..], v - s[0].dist)
  }

  /** The walk s from cur reaches the target, never entering a marked
      cell or one it has already been on. */
  ghost predicate Reaches(next: Cell -> Option<seq<Step>>, n: nat, m: nat, target: Cell, cur: Cell,
                          used: set<Cell>, s: seq<Step>)
    decreases |s|
  {
    if s == [] then cur == target
    else
      && Admissible(next, n, m, target, cur, used, s[0])
      && Reaches(next, n, m, target, s[0].to, used + {cur}, s[1..])
  }

  /** The distance a walk covers. */
  function Length(s: seq<Step>): int
  {
    if s == [] then 0 else s[0].dist + Length(s[1..])
  }

  /** A walk to the target scores its length. */
  lemma {:induction false} ReachesScores(next: Cell -> Option<seq<Step>>, n: nat, m: nat, target: Cell,
                                         cur: Cell, used: set<Cell>, s: seq<Step>)
    requires Reaches(next, n, m, target, cur, used, s)
    ensures Scores(next, n, m, target, cur, used, s, Length(s))
    decreases |s|
  {
    if s != [] {
      ReachesScores(next, n, m, target, s[0].to, used + {cur}, s[1..]);
    }
  }

  /** Every step out of every cell has a non-negative distance. */
  ghost predicate NonNegative(grid: Grid, table: Table, slopes: bool)
  {
    forall c :: Next(grid, table, c, slopes).Some? ==>
      forall x :: x in Next(grid, table, c, slopes).value ==> x.dist >= 0
  }

  /** v is what the search promises: no walk scores more, and some walk
      scores exactly v. */
  ghost predicate Optimal(next: Cell -> Option<seq<Step>>, n: nat, m: nat, target: Cell, cur: Cell,
                          used: set<Cell>, v: int)
  {
    && (forall s, w :: Scores(next, n, m, target, cur, used, s, w) ==> w <= v)
    && exists s :: Scores(next, n, m, target, cur, used, s, v)
  }

  /** The loop's running best never drops below `i32::MIN`. */
  lemma {:induction false} BestOfAtLeastMin(grid: Grid, table: Table, slopes: bool, n: nat, m: nat, target: Cell,
                                            tos: seq<Step>, k: nat, seen: set<Cell>)
    requires k <= |tos| && seen <= Cells(n, m)
    requires BestOf(grid, table, slopes, n, m, target, tos, k, seen).Some?
    ensures BestOf(grid, table, slopes, n, m, target, tos, k, seen).value >= Min
  {
    if k > 0 {
      BestOfAtLeastMin(grid, table, slopes, n, m, target, tos, k - 1, seen);
    }
  }

  /** The loop's best is at least what each unmarked step among the first
      k is worth. */
  lemma {:induction false} BestOfCovers(grid: Grid, table: Table, slopes: bool, n: nat, m: nat, target: Cell,
                                        tos: seq<Step>, k: nat, seen: set<Cell>, j: nat)
    requires j < k <= |tos| && seen <= Cells(n, m)
    requires BestOf(grid, table, slopes, n, m, target, tos, k, seen).Some?
    requires Inside(n, m, tos[j].to) && tos[j].to !in seen
    ensures Longest(grid, table, slopes, n, m, target, tos[j].to, seen).Some?
    ensures BestOf(grid, table, slopes, n, m, target, tos, k, seen).value >=
      tos[j].dist + Longest(grid, table, slopes, n, m, target, tos[j].to, seen).value
  {
    if j < k - 1 {
      BestOfCovers(grid, table, slopes, n, m, target, tos, k - 1, seen, j);
    }
  }

  /** With non-negative distances, the loop's best is `i32::MIN` when
      every step among the first k is marked, and otherwise what one
      unmarked step is worth. */
  lemma {:induction false} BestOfWitness(grid: Grid, table: Table, slopes: bool, n: nat, m: nat, target: Cell,
                                         tos: seq<Step>, k: nat, seen: set<Cell>)
    requires k <= |tos| && seen <= Cells(n, m)
    requires forall x :: x in tos ==> x.dist >= 0
    requires BestOf(grid, table, slopes, n, m, target, tos, k, seen).Some?
    ensures (forall j :: 0 <= j < k ==> tos[j].to in seen) ==>
      BestOf(grid, table, slopes, n, m, target, tos, k, seen).value == Min
    ensures (exists j :: 0 <= j < k && tos[j].to !in seen) ==>
      exists j :: 0 <= j < k && tos[j].to !in seen && Inside(n, m, tos[j].to)
        && Longest(grid, table, slopes, n, m, target, tos[j].to, seen).Some?
        && BestOf(grid, table, slopes, n, m, target, tos, k, seen).value ==
           tos[j].dist + Longest(grid, table, slopes, n, m, target, tos[j].to, seen).value
  {
    if k > 0 {
      BestOfWitness(grid, table, slopes, n, m, target, tos, k - 1, seen);
      var s := tos[k - 1];
      assert s in tos;
      if s.to !in seen {
        var v := Longest(grid, table, slopes, n, m, target, s.to, seen).value;
        LongestAtLeastMin(grid, table, slopes, n, m, target, s.to, seen);
      }
    }
  }

  /** The search never returns less than `i32::MIN`. */
  lemma LongestAtLeastMin(grid: Grid, table: Table, slopes: bool, n: nat, m: nat, target: Cell, cur: Cell,
                          used: set<Cell>)
    requires used <= Cells(n, m) && cur !in used
    requires Longest(grid, table, slopes, n, m, target, cur, used).Some?
    ensures Longest(grid, table, slopes, n, m, target, cur, used).value >= Min
  {
    if cur != target {
      var tos := Next(grid, table, cur, slopes).value;
      BestOfAtLeastMin(grid, table, slopes, n, m, target, tos, |tos|, used + {cur});
    }
  }

  /** A stuck cell other than the target is worth `i32::MIN`. */
  lemma StuckIsMin(grid: Grid, table: Table, slopes: bool, n: nat, m: nat, target: Cell, cur: Cell,
                   used: set<Cell>)
    requires used <= Cells(n, m) && cur !in used && cur != target
    requires Stuck(Steps(grid, table, slopes), n, m, cur, used)
    ensures Longest(grid, table, slopes, n, m, target, cur, used) == Some(Min)
  {
    var tos := Next(grid, table, cur, slopes).value;
    StuckLoop(grid, table, slopes, n, m, target, tos, |tos|, used + {cur});
  }

  lemma {:induction false} StuckLoop(grid: Grid, table: Table, slopes: bool, n: nat, m: nat, target: Cell,
                                     tos: seq<Step>, k: nat, seen: set<Cell>)
    requires k <= |tos| && seen <= Cells(n, m)
    requires forall x :: x in tos ==> x.to in seen
    ensures BestOf(grid, table, slopes, n, m, target, tos, k, seen) == Some(Min)
  {
    if k > 0 {
      StuckLoop(grid, table, slopes, n, m, target, tos, k - 1, seen);
      assert tos[k - 1] in tos;
    }
  }

  /** No walk from cur scores more than the search returns. */
  lemma {:induction false} LongestUpper(grid: Grid, table: Table, slopes: bool, n: nat, m: nat, target: Cell,
                                        cur: Cell, used: set<Cell>, s: seq<Step>, w: int)
    requires used <= Cells(n, m) && cur !in used
    requires Longest(grid, table, slopes, n, m, target, cur, used).Some?
    requires Scores(Steps(grid, table, slopes), n, m, target, cur, used, s, w)
    ensures w <= Longest(grid, table, slopes, n, m, target, cur, used).value
    decreases |s|, 2
  {
    if s == [] {
      if cur != target {
        LongestAtLeastMin(grid, table, slopes, n, m, target, cur, used);
      }
    } else {
      UpperStep(grid, table, slopes, n, m, target, cur, used, s, w);
    }
  }

  /** The same for a walk with a first step. */
  lemma {:induction false} UpperStep(grid: Grid, table: Table, slopes: bool, n: nat, m: nat, target: Cell,
                                     cur: Cell, used: set<Cell>, s: seq<Step>, w: int)
    requires used <= Cells(n, m) && cur !in used && s != []
    requires Longest(grid, table, slopes, n, m, target, cur, used).Some?
    requires Scores(Steps(grid, table, slopes), n, m, target, cur, used, s, w)
    ensures w <= Longest(grid, table, slopes, n, m, target, cur, used).value
    decreases |s|, 1
  {
    ScoresHead(Steps(grid, table, slopes), n, m, target, cur, used, s, w);
    LongestStep(grid, table, slopes, n, m, target, cur, used);
    var tos := Next(grid, table, cur, slopes).value;
    ExpandUpper(grid, table, slopes, n, m, target, cur, used, tos, s, w);
  }

  /** The same, one level down: a walk whose first step is one of the
      loop's steps scores no more than the loop returns. */
  lemma {:induction false} ExpandUpper(grid: Grid, table: Table, slopes: bool, n: nat, m: nat, target: Cell,
                                       cur: Cell, used: set<Cell>, tos: seq<Step>, s: seq<Step>, w: int)
    requires used <= Cells(n, m) && cur !in used && Inside(n, m, cur) && s != [] && s[0] in tos
    requires BestOf(grid, table, slopes, n, m, target, tos, |tos|, used + {cur}).Some?
    requires Scores(Steps(grid, table, slopes), n, m, target, cur, used, s, w)
    ensures w <= BestOf(grid, table, slopes, n, m, target, tos, |tos|, used + {cur}).value
    decreases |s|, 0
  {
    ScoresTail(Steps(grid, table, slopes), n, m, target, cur, used, s, w);
    CellsMeaning(n, m, cur);
    var j :| 0 <= j < |tos| && tos[j] == s[0];
    BestOfCovers(grid, table, slopes, n, m, target, tos, |tos|, used + {cur}, j);
    LongestUpper(grid, table, slopes, n, m, target, s[0].to, used + {cur}, s[1..], w - s[0].dist);
  }

  /** The first step of a walk is one the search may take, and the rest
      is a walk from where it lands. */
  lemma ScoresHead(next: Cell -> Option<seq<Step>>, n: nat, m: nat, target: Cell, cur: Cell,
                   used: set<Cell>, s: seq<Step>, w: int)
    requires s != [] && Scores(next, n, m, target, cur, used, s, w)
    ensures Admissible(next, n, m, target, cur, used, s[0])
    ensures Scores(next, n, m, target, s[0].to, used + {cur}, s[1..], w - s[0].dist)
  {
    assert Walk(next, n, m, target, cur, used, s, w);
  }

  /** The part of that which does not look at cur's own steps. */
  lemma ScoresTail(next: Cell -> Option<seq<Step>>, n: nat, m: nat, target: Cell, cur: Cell,
                   used: set<Cell>, s: seq<Step>, w: int)
    requires s != [] && Scores(next, n, m, target, cur, used, s, w)
    ensures Inside(n, m, s[0].to) && s[0].to !in used + {cur}
    ensures Scores(next, n, m, target, s[0].to, used + {cur}, s[1..], w - s[0].dist)
  {
    ScoresHead(next, n, m, target, cur, used, s, w);
  }

  /** With non-negative distances, some walk from cur scores exactly what
      the search returns. */
  lemma {:induction false} LongestAttained(grid: Grid, table: Table, slopes: bool, n: nat, m: nat, target: Cell,
                                           cur: Cell, used: set<Cell>)
    returns (s: seq<Step>)
    requires used <= Cells(n, m) && cur !in used && NonNegative(grid, table, slopes)
    requires Longest(grid, table, slopes, n, m, target, cur, used).Some?
    ensures Scores(Steps(grid, table, slopes), n, m, target, cur, used, s, Longest(grid, table, slopes, n, m, target, cur, used).value)
    decreases |Cells(n, m) - used|, 1
  {
    if cur == target {
      return [];
    }
    LongestStep(grid, table, slopes, n, m, target, cur, used);
    var tos := Next(grid, table, cur, slopes).value;
    s := ExpandAttained(grid, table, slopes, n, m, target, cur, used, tos);
  }

  /** The same, one level down: some walk from cur scores what the loop
      over its steps returns. */
  lemma {:induction false} ExpandAttained(grid: Grid, table: Table, slopes: bool, n: nat, m: nat, target: Cell,
                                          cur: Cell, used: set<Cell>, tos: seq<Step>)
    returns (s: seq<Step>)
    requires used <= Cells(n, m) && cur !in used && cur != target && Inside(n, m, cur)
    requires NonNegative(grid, table, slopes) && Next(grid, table, cur, slopes) == Some(tos)
    requires BestOf(grid, table, slopes, n, m, target, tos, |tos|, used + {cur}).Some?
    ensures Scores(Steps(grid, table, slopes), n, m, target, cur, used, s,
                   BestOf(grid, table, slopes, n, m, target, tos, |tos|, used + {cur}).value)
    decreases |Cells(n, m) - used|, 0
  {
    var seen := used + {cur};
    var v := BestOf(grid, table, slopes, n, m, target, tos, |tos|, seen).value;
    if forall x :: x in tos ==> x.to in seen {
      StuckLoop(grid, table, slopes, n, m, target, tos, |tos|, seen);
      assert Stuck(Steps(grid, table, slopes), n, m, cur, used);
      return [];
    }
    var x :| x in tos && x.to !in seen;
    var i :| 0 <= i < |tos| && tos[i] == x;
    assert forall x :: x in tos ==> x.dist >= 0;
    BestOfWitness(grid, table, slopes, n, m, target, tos, |tos|, seen);
    var j :| 0 <= j < |tos| && tos[j].to !in seen && Inside(n, m, tos[j].to)
      && Longest(grid, table, slopes, n, m, target, tos[j].to, seen).Some?
      && v == tos[j].dist + Longest(grid, table, slopes, n, m, target, tos[j].to, seen).value;
    CellsMeaning(n, m, cur);
    RemoveSmaller(Cells(n, m) - seen, Cells(n, m) - used, cur);
    var rest := LongestAttained(grid, table, slopes, n, m, target, tos[j].to, seen);
    assert tos[j] in tos;
    ScoresCons(Steps(grid, table, slopes), n, m, target, cur, used, tos[j], rest,
               Longest(grid, table, slopes, n, m, target, tos[j].to, seen).value, v);
    s := [tos[j]] + rest;
  }

  /** A step the search may take, followed by a walk from where it lands. */
  lemma ScoresCons(next: Cell -> Option<seq<Step>>, n: nat, m: nat, target: Cell, cur: Cell,
                   used: set<Cell>, x: Step, rest: seq<Step>, w: int, v: int)
    requires Admissible(next, n, m, target, cur, used, x)
    requires Scores(next, n, m, target, x.to, used + {cur}, rest, w) && v == x.dist + w
    ensures Scores(next, n, m, target, cur, used, [x] + rest, v)
  {
    var s := [x] + rest;
    assert s[0] == x && s[1..] == rest;
    assert Admissible(next, n, m, target, cur, used, s[0]);
    assert Scores(next, n, m, target, s[0].to, used + {cur}, s[1..], v - s[0].dist);
  }

  /** So the search returns the best score of all the walks from cur. */
  lemma LongestOptimal(grid: Grid, table: Table, slopes: bool, n: nat, m: nat, target: Cell, cur: Cell,
                       used: set<Cell>)
    requires used <= Cells(n, m) && cur !in used && NonNegative(grid, table, slopes)
    requires Longest(grid, table, slopes, n, m, target, cur, used).Some?
    ensures Optimal(Steps(grid, table, slopes), n, m, target, cur, used, Longest(grid, table, slopes, n, m, target, cur, used).value)
  {
    var s := LongestAttained(grid, table, slopes, n, m, target, cur, used);
    forall s', w | Scores(Steps(grid, table, slopes), n, m, target, cur, used, s', w)
      ensures w <= Longest(grid, table, slopes, n, m, target, cur, used).value
    {
      LongestUpper(grid, table, slopes, n, m, target, cur, used, s', w);
    }
  }

  // ---------------------------------------------------------------------
  // Compressing the corridors (part 2)
  // ---------------------------------------------------------------------

  /** `tos.iter().any(|x| used[x.0][x.1])` from step k on, with `seen`
      marked: the first marked step makes it true, and a step outside the
      `used` grid before that panics. */
  function AnyUsed(n: nat, m: nat, tos: seq<Step>, k: nat, seen: set<Cell>): Option<bool>
    requires k <= |tos|
    decreases |tos| - k
  {
    if k == |tos| then Some(false)
    else if !Inside(n, m, tos[k].to) then None
    else if tos[k].to in seen then Some(true)
    else AnyUsed(n, m, tos, k + 1, seen)
  }

  /** `any` is false exactly when every step from k on lands inside the
      grid on an unmarked cell, and true only when one lands on a marked
      cell. */
  lemma {:induction false} AnyUsedMeaning(n: nat, m: nat, tos: seq<Step>, k: nat, seen: set<Cell>)
    requires k <= |tos|
    ensures AnyUsed(n, m, tos, k, seen) == Some(false) <==>
      forall i :: k <= i < |tos| ==> Inside(n, m, tos[i].to) && tos[i].to !in seen
    ensures AnyUsed(n, m, tos, k, seen) == Some(true) ==> exists i :: k <= i < |tos| && tos[i].to in seen
    decreases |tos| - k
  {
    if k < |tos| {
      AnyUsedMeaning(n, m, tos, k + 1, seen);
    }
  }

  /** The `fold` at a junction with no marked neighbour: each unmarked
      one among the first k steps, at distance 0. */
  function Fanout(tos: seq<Step>, k: nat, seen: set<Cell>): seq<Step>
    requires k <= |tos|
  {
    if k == 0 then []
    else Fanout(tos, k - 1, seen) + (if tos[k - 1].to in seen then [] else [Step(tos[k - 1].to, 0)])
  }

  /** The fan-out holds, at distance 0, exactly the unmarked cells the
      first k steps lead to. */
  lemma {:induction false} FanoutMeaning(tos: seq<Step>, k: nat, seen: set<Cell>)
    requires k <= |tos|
    ensures |Fanout(tos, k, seen)| <= k
    ensures forall x :: x in Fanout(tos, k, seen) <==>
      x.dist == 0 && x.to !in seen && exists i :: 0 <= i < k && tos[i].to == x.to
  {
    if k > 0 {
      FanoutMeaning(tos, k - 1, seen);
      var before := Fanout(tos, k - 1, seen);
      var last := if tos[k - 1].to in seen then [] else [Step(tos[k - 1].to, 0)];
      assert Fanout(tos, k, seen) == before + last;
      forall x | x in Fanout(tos, k, seen)
        ensures x.dist == 0 && x.to !in seen && exists i :: 0 <= i < k && tos[i].to == x.to
      {
        if x in before {
          var i :| 0 <= i < k - 1 && tos[i].to == x.to;
          assert 0 <= i < k && tos[i].to == x.to;
        } else {
          assert x in last;
          assert tos[k - 1].to == x.to;
        }
      }
      forall x: Step | x.dist == 0 && x.to !in seen && exists i :: 0 <= i < k && tos[i].to == x.to
        ensures x in Fanout(tos, k, seen)
      {
        var i :| 0 <= i < k && tos[i].to == x.to;
        if i < k - 1 {
          assert x in before;
        } else {
          assert x == Step(tos[k - 1].to, 0);
          assert x in last;
        }
      }
    }
  }

  /** `.map(|(i, j, dist)| (i, j, dist + 1))`. */
  function Bump(r: seq<Step>): seq<Step>
  {
    seq(|r|, i requires 0 <= i < |r| => Step(r[i].to, r[i].dist + 1))
  }

  /** `dfs_compress` from cur with the cells of `used` marked: marking cur
      panics outside the `used` grid. */
  function Compress(grid: Grid, n: nat, m: nat, target: Cell, cur: Cell, used: set<Cell>): Option<seq<Step>>
    requires used <= Cells(n, m) && cur !in used
    decreases |Cells(n, m) - used|, 1
  {
    if !Inside(n, m, cur) then None
    else Enter(grid, n, m, target, cur, used)
  }

  /** `used[cur] = true`: the rest of `dfs_compress` runs with cur
      marked. */
  function Enter(grid: Grid, n: nat, m: nat, target: Cell, cur: Cell, used: set<Cell>): Option<seq<Step>>
    requires used <= Cells(n, m) && cur !in used && Inside(n, m, cur)
    decreases |Cells(n, m) - used|, 0
  {
    CellsMeaning(n, m, cur);
    RemoveSmaller(Cells(n, m) - (used + {cur}), Cells(n, m) - used, cur);
    Spread(grid, n, m, target, cur, used + {cur})
  }

  /** The rest of `dfs_compress` once cur is marked: the open neighbours
      of cur, ignoring slopes (forest is `unreachable!`), are gathered;
      the target then adds itself at distance 0. */
  function Spread(grid: Grid, n: nat, m: nat, target: Cell, cur: Cell, seen: set<Cell>): Option<seq<Step>>
    requires seen <= Cells(n, m)
    decreases |Cells(n, m) - seen|, 4
  {
    match Tiles(grid, cur, false)
    case None => None
    case Some(tos) =>
      match Gather(grid, n, m, target, cur, tos, seen)
      case None => None
      case Some(r) => Some(if cur == target then r + [Step(target, 0)] else r)
  }

  /** The `if tos.len() > 2` of `dfs_compress`, with `seen` marked: a
      junction stops the walk, as one step back to itself when one of its
      neighbours is marked and as its unmarked neighbours at distance 0
      otherwise; a corridor is followed. */
  function Gather(grid: Grid, n: nat, m: nat, target: Cell, cur: Cell, tos: seq<Step>, seen: set<Cell>)
    : Option<seq<Step>>
    requires seen <= Cells(n, m)
    decreases |Cells(n, m) - seen|, 3
  {
    if |tos| > 2 then
      match AnyUsed(n, m, tos, 0, seen)
      case None => None
      case Some(b) => Some(if b then [Step(cur, 1)] else Fanout(tos, |tos|, seen))
    else Follow(grid, n, m, target, tos, |tos|, seen)
  }

  /** The `flat_map` over the first k steps of a corridor: each unmarked
      neighbour is compressed from, and what it reaches is one step
      further; a step outside the `used` grid panics. */
  function Follow(grid: Grid, n: nat, m: nat, target: Cell, tos: seq<Step>, k: nat, seen: set<Cell>)
    : Option<seq<Step>>
    requires k <= |tos| && seen <= Cells(n, m)
    decreases |Cells(n, m) - seen|, 2, k
  {
    if k == 0 then Some([])
    else
      match Follow(grid, n, m, target, tos, k - 1, seen)
      case None => None
      case Some(acc) =>
        var x := tos[k - 1];
        if !Inside(n, m, x.to) then None
        else if x.to in seen then Some(acc)
        else
          match Compress(grid, n, m, target, x.to, seen)
          case None => None
          case Some(r) => Some(acc + Bump(r))
  }

  /** The `any` of `dfs_compress`, scanning `used` left to right. */
  method AnyMarked(tos: seq<Step>, used: array2<bool>, ghost marked: set<Cell>) returns (r: Option<bool>)
    requires Marks(used, marked)
    ensures r == AnyUsed(used.Length0, used.Length1, tos, 0, marked)
  {
    var n, m := used.Length0, used.Length1;
    var k := 0;
    while k < |tos|
      invariant k <= |tos|
      invariant AnyUsed(n, m, tos, 0, marked) == AnyUsed(n, m, tos, k, marked)
    {
      var x := tos[k];
      if !(0 <= x.to.0 < n && 0 <= x.to.1 < m) {
        return None;
      }
      assert x.to == (x.to.0, x.to.1);
      if used[x.to.0, x.to.1] {
        return Some(true);
      }
      k := k + 1;
    }
    r := Some(false);
  }

  /** The `fold` of `dfs_compress`, pushing the unmarked neighbours; the
      `any` before it has already found every one inside `used`. */
  method Unmarked(tos: seq<Step>, used: array2<bool>, ghost marked: set<Cell>) returns (v: seq<Step>)
    requires Marks(used, marked)
    requires forall x :: x in tos ==> Inside(used.Length0, used.Length1, x.to)
    ensures v == Fanout(tos, |tos|, marked)
  {
    v := [];
    var k := 0;
    while k < |tos|
      invariant k <= |tos| && v == Fanout(tos, k, marked)
    {
      var x := tos[k];
      assert x in tos && x.to == (x.to.0, x.to.1);
      if !used[x.to.0, x.to.1] {
        v := v + [Step(x.to, 0)];
      }
      k := k + 1;
    }
  }

  /** One turn of the `flat_map`: a step outside the grid panics, a
      marked cell adds nothing, and an unmarked one adds what the
      compression from it reaches, one step further, or panics with it. */
  lemma FollowStep(grid: Grid, n: nat, m: nat, target: Cell, tos: seq<Step>, k: nat, seen: set<Cell>,
                   acc: seq<Step>)
    requires k < |tos| && seen <= Cells(n, m)
    requires Follow(grid, n, m, target, tos, k, seen) == Some(acc)
    ensures !Inside(n, m, tos[k].to) ==> Follow(grid, n, m, target, tos, |tos|, seen).None?
    ensures tos[k].to in seen ==> Follow(grid, n, m, target, tos, k + 1, seen) == Some(acc)
    ensures Inside(n, m, tos[k].to) && tos[k].to !in seen ==>
      var c := Compress(grid, n, m, target, tos[k].to, seen);
      && (c.None? ==> Follow(grid, n, m, target, tos, |tos|, seen).None?)
      && (c.Some? ==> Follow(grid, n, m, target, tos, k + 1, seen) == Some(acc + Bump(c.value)))
  {
    if Follow(grid, n, m, target, tos, k + 1, seen).None? {
      FollowNone(grid, n, m, target, tos, k + 1, |tos|, seen);
    }
  }

  /** Once the `flat_map` has panicked it stays panicked. */
  lemma {:induction false} FollowNone(grid: Grid, n: nat, m: nat, target: Cell, tos: seq<Step>, k: nat, k': nat,
                                      seen: set<Cell>)
    requires k <= k' <= |tos| && seen <= Cells(n, m)
    requires Follow(grid, n, m, target, tos, k, seen).None?
    ensures Follow(grid, n, m, target, tos, k', seen).None?
    decreases k' - k
  {
    if k < k' {
      FollowNone(grid, n, m, target, tos, k, k' - 1, seen);
    }
  }

  /** The `flat_map` of `dfs_compress` over a corridor's steps. */
  method FollowSteps(grid: Grid, target: Cell, tos: seq<Step>, used: array2<bool>, ghost marked: set<Cell>)
    returns (r: Option<seq<Step>>)
    requires Marks(used, marked)
    modifies used
    ensures r == Follow(grid, used.Length0, used.Length1, target, tos, |tos|, marked)
    ensures r.Some? ==> forall i, j :: 0 <= i < used.Length0 && 0 <= j < used.Length1 ==> used[i, j] == old(used[i, j])
    decreases |Cells(used.Length0, used.Length1) - marked|, 1
  {
    var n, m := used.Length0, used.Length1;
    var acc := [];
    var k := 0;
    while k < |tos|
      invariant k <= |tos| && Marks(used, marked)
      invariant forall i, j :: 0 <= i < n && 0 <= j < m ==> used[i, j] == old(used[i, j])
      invariant Follow(grid, n, m, target, tos, k, marked) == Some(acc)
    {
      var x := tos[k];
      FollowStep(grid, n, m, target, tos, k, marked, acc);
      if !(0 <= x.to.0 < n && 0 <= x.to.1 < m) {
        return None;
      }
      assert x.to == (x.to.0, x.to.1);
      if !used[x.to.0, x.to.1] {
        var c := DfsCompress(grid, target, x.to, used, marked);
        if c.None? {
          return None;
        }
        acc := acc + Bump(c.value);
      }
      k := k + 1;
    }
    r := Some(acc);
  }

  /** The `if tos.len() > 2` of `dfs_compress`, cur being marked. */
  method GatherSteps(grid: Grid, target: Cell, cur: Cell, tos: seq<Step>, used: array2<bool>,
                     ghost marked: set<Cell>)
    returns (r: Option<seq<Step>>)
    requires Marks(used, marked)
    modifies used
    ensures r == Gather(grid, used.Length0, used.Length1, target, cur, tos, marked)
    ensures r.Some? ==> forall i, j :: 0 <= i < used.Length0 && 0 <= j < used.Length1 ==> used[i, j] == old(used[i, j])
    decreases |Cells(used.Length0, used.Length1) - marked|, 2
  {
    if |tos| > 2 {
      var any := AnyMarked(tos, used, marked);
      if any.None? {
        return None;
      }
      if any.value {
        return Some([Step(cur, 1)]);
      }
      AnyUsedMeaning(used.Length0, used.Length1, tos, 0, marked);
      var v := Unmarked(tos, used, marked);
      return Some(v);
    }
    r := FollowSteps(grid, target, tos, used, marked);
  }

  /** The compression from a cell inside the grid, one level down. */
  lemma CompressStep(grid: Grid, n: nat, m: nat, target: Cell, cur: Cell, used: set<Cell>)
    requires used <= Cells(n, m) && cur !in used && Inside(n, m, cur)
    ensures Tiles(grid, cur, false).None? ==> Compress(grid, n, m, target, cur, used).None?
    ensures Tiles(grid, cur, false).Some? ==>
      var g := Gather(grid, n, m, target, cur, Tiles(grid, cur, false).value, used + {cur});
      && (g.None? ==> Compress(grid, n, m, target, cur, used).None?)
      && (g.Some? ==> Compress(grid, n, m, target, cur, used) ==
                        Some(if cur == target then g.value + [Step(target, 0)] else g.value))
  {
    CellsMeaning(n, m, cur);
    assert Compress(grid, n, m, target, cur, used) == Enter(grid, n, m, target, cur, used);
    assert Enter(grid, n, m, target, cur, used) == Spread(grid, n, m, target, cur, used + {cur});
  }

  /** `dfs_compress`: the compression from cur, marking it in `used` and
      clearing it again before it returns. */
  method DfsCompress(grid: Grid, target: Cell, cur: Cell, used: array2<bool>, ghost seen: set<Cell>)
    returns (r: Option<seq<Step>>)
    requires Marks(used, seen) && cur !in seen
    modifies used
    ensures r == Compress(grid, used.Length0, used.Length1, target, cur, seen)
    ensures r.Some? ==> forall i, j :: 0 <= i < used.Length0 && 0 <= j < used.Length1 ==> used[i, j] == old(used[i, j])
    decreases |Cells(used.Length0, used.Length1) - seen|, 0
  {
    var n, m := used.Length0, used.Length1;
    if !(0 <= cur.0 < n && 0 <= cur.1 < m) {
      return None;
    }
    used[cur.0, cur.1] := true;
    var tiles := Tiles(grid, cur, false);
    CompressStep(grid, n, m, target, cur, seen);
    if tiles.None? {
      return None;
    }
    CellsMeaning(n, m, cur);
    RemoveSmaller(Cells(n, m) - (seen + {cur}), Cells(n, m) - seen, cur);
    var found := GatherSteps(grid, target, cur, tiles.value, used, seen + {cur});
    if found.None? {
      return None;
    }
    used[cur.0, cur.1] := false;
    var path := found.value;
    if cur == target {
      path := path + [Step(target, 0)];
    }
    r := Some(path);
  }

  // ---------------------------------------------------------------------
  // Both parts
  // ---------------------------------------------------------------------

  /** Every step of a tile is one cell long. */
  lemma TilesUnit(grid: Grid, c: Cell, slopes: bool)
    requires Tiles(grid, c, slopes).Some?
    ensures forall x :: x in Tiles(grid, c, slopes).value ==> x.dist == 1
  {
    OpenMeaning(grid, c);
  }

  /** Every step the compression finds has a non-negative distance. */
  lemma {:induction false} CompressNonNeg(grid: Grid, n: nat, m: nat, target: Cell, cur: Cell, used: set<Cell>)
    requires used <= Cells(n, m) && cur !in used
    requires Compress(grid, n, m, target, cur, used).Some?
    ensures forall x :: x in Compress(grid, n, m, target, cur, used).value ==> x.dist >= 0
    decreases |Cells(n, m) - used|, 1
  {
    CellsMeaning(n, m, cur);
    CompressStep(grid, n, m, target, cur, used);
    RemoveSmaller(Cells(n, m) - (used + {cur}), Cells(n, m) - used, cur);
    GatherNonNeg(grid, n, m, target, cur, Tiles(grid, cur, false).value, used + {cur});
  }

  lemma {:induction false} GatherNonNeg(grid: Grid, n: nat, m: nat, target: Cell, cur: Cell, tos: seq<Step>,
                                        seen: set<Cell>)
    requires seen <= Cells(n, m) && Gather(grid, n, m, target, cur, tos, seen).Some?
    ensures forall x :: x in Gather(grid, n, m, target, cur, tos, seen).value ==> x.dist >= 0
    decreases |Cells(n, m) - seen|, 3
  {
    if |tos| > 2 {
      FanoutMeaning(tos, |tos|, seen);
    } else {
      FollowNonNeg(grid, n, m, target, tos, |tos|, seen);
    }
  }

  lemma {:induction false} FollowNonNeg(grid: Grid, n: nat, m: nat, target: Cell, tos: seq<Step>, k: nat,
                                        seen: set<Cell>)
    requires k <= |tos| && seen <= Cells(n, m) && Follow(grid, n, m, target, tos, k, seen).Some?
    ensures forall x :: x in Follow(grid, n, m, target, tos, k, seen).value ==> x.dist >= 0
    decreases |Cells(n, m) - seen|, 2, k
  {
    if k > 0 {
      FollowNonNeg(grid, n, m, target, tos, k - 1, seen);
      var x := tos[k - 1];
      if Inside(n, m, x.to) && x.to !in seen {
        CompressNonNeg(grid, n, m, target, x.to, seen);
        var r := Compress(grid, n, m, target, x.to, seen).value;
        assert forall i :: 0 <= i < |r| ==> r[i] in r;
      }
    }
  }

  /** `vec![vec![None; m]; n]`: a table with no entries. */
  function Blank(n: nat, m: nat): Table
  {
    seq(n, _ => seq(m, _ => None))
  }

  /** With no entries every step is one tile long. */
  lemma BlankNonNeg(grid: Grid, n: nat, m: nat, slopes: bool)
    ensures NonNegative(grid, Blank(n, m), slopes)
  {
    forall c | Next(grid, Blank(n, m), c, slopes).Some?
      ensures forall x :: x in Next(grid, Blank(n, m), c, slopes).value ==> x.dist >= 0
    {
      TilesUnit(grid, c, slopes);
    }
  }

  /** What `part2` stores for cell (i, j): nothing for forest, the
      compression from it otherwise; `mtx[i][j]` past the end of a short
      row panics, as does the compression. */
  function Entry(grid: Grid, n: nat, m: nat, target: Cell, i: nat, j: nat): Option<Option<seq<Step>>>
    requires i < |grid|
  {
    if j >= |grid[i]| then None
    else if grid[i][j] == Forest then Some(None)
    else
      match Compress(grid, n, m, target, (i, j), {})
      case None => None
      case Some(c) => Some(Some(c))
  }

  /** The first j entries of row i, in the order `part2` fills them in,
      or `None` if one of them panics. */
  function RowFrom(grid: Grid, n: nat, m: nat, target: Cell, i: nat, j: nat): Option<seq<Option<seq<Step>>>>
    requires i < |grid|
  {
    if j == 0 then Some([])
    else
      match RowFrom(grid, n, m, target, i, j - 1)
      case None => None
      case Some(acc) =>
        match Entry(grid, n, m, target, i, j - 1)
        case None => None
        case Some(e) => Some(acc + [e])
  }

  /** The first k rows `part2` fills in, or `None` if a cell panics. */
  function Rows(grid: Grid, n: nat, m: nat, target: Cell, k: nat): Option<Table>
    requires k <= |grid|
  {
    if k == 0 then Some([])
    else
      match Rows(grid, n, m, target, k - 1)
      case None => None
      case Some(acc) =>
        match RowFrom(grid, n, m, target, k - 1, m)
        case None => None
        case Some(row) => Some(acc + [row])
  }

  /** The n by m table `part2` fills in, or `None` if a cell panics.
      Each compression starts from an unmarked grid, since the one
      before it cleared its marks. */
  function Compressed(grid: Grid, target: Cell): Option<Table>
    requires |grid| > 0
  {
    Rows(grid, |grid|, |grid[0]|, target, |grid|)
  }

  /** A row holds the entries of its cells, and it panics exactly when
      one of them does. */
  lemma {:induction false} RowFromMeaning(grid: Grid, n: nat, m: nat, target: Cell, i: nat, j: nat)
    requires i < |grid|
    ensures RowFrom(grid, n, m, target, i, j).Some? <==>
      forall b :: 0 <= b < j ==> Entry(grid, n, m, target, i, b).Some?
    ensures RowFrom(grid, n, m, target, i, j).Some? ==>
      var row := RowFrom(grid, n, m, target, i, j).value;
      |row| == j && forall b :: 0 <= b < j ==> Entry(grid, n, m, target, i, b) == Some(row[b])
  {
    if j > 0 {
      RowFromMeaning(grid, n, m, target, i, j - 1);
    }
  }

  /** The table holds the rows, and it panics exactly when one of them
      does. */
  lemma {:induction false} RowsMeaning(grid: Grid, n: nat, m: nat, target: Cell, k: nat)
    requires k <= |grid|
    ensures Rows(grid, n, m, target, k).None? ==> exists a :: 0 <= a < k && RowFrom(grid, n, m, target, a, m).None?
    ensures Rows(grid, n, m, target, k).Some? ==>
      var t := Rows(grid, n, m, target, k).value;
      |t| == k && forall a :: 0 <= a < k ==> RowFrom(grid, n, m, target, a, m) == Some(t[a])
  {
    if k > 0 {
      RowsMeaning(grid, n, m, target, k - 1);
    }
  }

  /** The steps of the compressed table are never negative. */
  lemma CompressedNonNeg(grid: Grid, target: Cell)
    requires |grid| > 0 && Compressed(grid, target).Some?
    ensures NonNegative(grid, Compressed(grid, target).value, false)
  {
    var n, m := |grid|, |grid[0]|;
    var t := Compressed(grid, target).value;
    RowsMeaning(grid, n, m, target, n);
    forall c | Next(grid, t, c, false).Some?
      ensures forall x :: x in Next(grid, t, c, false).value ==> x.dist >= 0
    {
      if InGrid(grid, c) && c.0 < |t| && c.1 < |t[c.0]| && t[c.0][c.1].Some? {
        assert c == (c.0, c.1);
        RowFromMeaning(grid, n, m, target, c.0, m);
        assert Entry(grid, n, m, target, c.0, c.1) == Some(t[c.0][c.1]);
        CompressNonNeg(grid, n, m, target, c, {});
      } else {
        TilesUnit(grid, c, false);
      }
    }
  }

  /** The start (0, 1) and target (n - 1, m - 2) of both parts, `None`
      where `mtx[0]` or `m - 2` panics. */
  function Ends(grid: Grid): Option<(Cell, Cell)>
  {
    if |grid| == 0 || |grid[0]| < 2 then None else Some(((0, 1), (|grid| - 1, |grid[0]| - 2)))
  }

  /** `part1` on a parsed grid: the search going down slopes only their
      own way, with no precomputed steps. */
  function Sloped(grid: Grid): Option<int>
  {
    match Ends(grid)
    case None => None
    case Some((start, target)) => Longest(grid, Blank(|grid|, |grid[0]|), true, |grid|, |grid[0]|, target, start, {})
  }

  /** `part2` on a parsed grid: the search ignoring slopes, over the
      compressed table. */
  function Flattened(grid: Grid): Option<int>
  {
    match Ends(grid)
    case None => None
    case Some((start, target)) =>
      match Compressed(grid, target)
      case None => None
      case Some(t) => Longest(grid, t, false, |grid|, |grid[0]|, target, start, {})
  }

  /** `part1`, on the lines already read: the longest walk, going down
      slopes their own way only. */
  method Part1(lines: seq<string>) returns (r: Option<int>)
    ensures r == (match ParseGrid(lines) case None => None case Some(grid) => Sloped(grid))
    ensures r.Some? ==>
      var grid := ParseGrid(lines).value;
      var n, m := |grid|, |grid[0]|;
      Optimal(Steps(grid, Blank(n, m), true), n, m, (n - 1, m - 2), (0, 1), {}, r.value)
  {
    var parsed := ParseGrid(lines);
    if parsed.None? {
      return None;
    }
    var grid := parsed.value;
    if |grid| == 0 || |grid[0]| < 2 {
      return None;
    }
    var n, m := |grid|, |grid[0]|;
    var used := new bool[n, m]((i, j) => false);
    r := DfsMain(grid, Blank(n, m), true, (n - 1, m - 2), (0, 1), used, {});
    if r.Some? {
      BlankNonNeg(grid, n, m, true);
      LongestOptimal(grid, Blank(n, m), true, n, m, (n - 1, m - 2), (0, 1), {});
    }
  }

  /** The nested loop of `part2`: every non-forest cell is compressed
      from, with `used` unmarked before and after. */
  method CompressAll(grid: Grid, target: Cell, used: array2<bool>) returns (t: Option<Table>)
    requires |grid| > 0 && used.Length0 == |grid| && used.Length1 == |grid[0]| && Marks(used, {})
    modifies used
    ensures t == Compressed(grid, target)
    ensures t.Some? ==> Marks(used, {})
  {
    var n, m := |grid|, |grid[0]|;
    var compressed := Blank(n, m);
    for i := 0 to n
      invariant Marks(used, {}) && |compressed| == n
      invariant Rows(grid, n, m, target, i) == Some(compressed[..i])
      invariant forall a :: i <= a < n ==> compressed[a] == Blank(n, m)[a]
    {
      var row := CompressRow(grid, target, i, used, compressed[i]);
      if row.None? {
        RowsNone(grid, n, m, target, i + 1, n);
        return None;
      }
      compressed := compressed[i := row.value];
      assert compressed[..i + 1] == compressed[..i] + [row.value];
    }
    assert compressed[..n] == compressed;
    t := Some(compressed);
  }

  /** Once a row has panicked the table does too. */
  lemma {:induction false} RowsNone(grid: Grid, n: nat, m: nat, target: Cell, k: nat, k': nat)
    requires k <= k' <= |grid| && Rows(grid, n, m, target, k).None?
    ensures Rows(grid, n, m, target, k').None?
    decreases k' - k
  {
    if k < k' {
      RowsNone(grid, n, m, target, k, k' - 1);
    }
  }

  /** The inner loop of `part2`, filling in row i in place. */
  method CompressRow(grid: Grid, target: Cell, i: nat, used: array2<bool>, blank: seq<Option<seq<Step>>>)
    returns (row: Option<seq<Option<seq<Step>>>>)
    requires |grid| > 0 && i < |grid| && used.Length0 == |grid| && used.Length1 == |grid[0]| && Marks(used, {})
    requires |blank| == |grid[0]| && forall b :: 0 <= b < |blank| ==> blank[b].None?
    modifies used
    ensures row == RowFrom(grid, |grid|, |grid[0]|, target, i, |grid[0]|)
    ensures row.Some? ==> Marks(used, {})
  {
    var n, m := |grid|, |grid[0]|;
    var cells := blank;
    for j := 0 to m
      invariant Marks(used, {}) && |cells| == m
      invariant RowFrom(grid, n, m, target, i, j) == Some(cells[..j])
      invariant forall b :: j <= b < m ==> cells[b].None?
    {
      if j >= |grid[i]| {
        assert Entry(grid, n, m, target, i, j).None?;
        RowNone(grid, n, m, target, i, j + 1, m);
        return None;
      }
      if grid[i][j] != Forest {
        var c := DfsCompress(grid, target, (i, j), used, {});
        if c.None? {
          assert Entry(grid, n, m, target, i, j).None?;
          RowNone(grid, n, m, target, i, j + 1, m);
          return None;
        }
        cells := cells[j := Some(c.value)];
      }
      assert Entry(grid, n, m, target, i, j) == Some(cells[j]);
      assert cells[..j + 1] == cells[..j] + [cells[j]];
    }
    assert cells[..m] == cells;
    row := Some(cells);
  }

  /** Once a cell has panicked its row does too. */
  lemma {:induction false} RowNone(grid: Grid, n: nat, m: nat, target: Cell, i: nat, j: nat, j': nat)
    requires i < |grid| && j <= j' && RowFrom(grid, n, m, target, i, j).None?
    ensures RowFrom(grid, n, m, target, i, j').None?
    decreases j' - j
  {
    if j < j' {
      RowNone(grid, n, m, target, i, j, j' - 1);
    }
  }

  /** `part2`, on the lines already read: every non-forest cell is
      compressed in a nested loop, then the longest walk ignoring slopes
      is searched over the compressed table. */
  method Part2(lines: seq<string>) returns (r: Option<int>)
    ensures r == (match ParseGrid(lines) case None => None case Some(grid) => Flattened(grid))
    ensures r.Some? ==>
      var grid := ParseGrid(lines).value;
      var n, m := |grid|, |grid[0]|;
      Optimal(Steps(grid, Compressed(grid, (n - 1, m - 2)).value, false), n, m, (n - 1, m - 2), (0, 1), {}, r.value)
  {
    var parsed := ParseGrid(lines);
    if parsed.None? {
      return None;
    }
    r := SearchFlat(parsed.value);
  }

  /** `part2` once the grid is parsed. */
  method SearchFlat(grid: Grid) returns (r: Option<int>)
    ensures r == Flattened(grid)
    ensures r.Some? ==>
      var n, m := |grid|, |grid[0]|;
      Optimal(Steps(grid, Compressed(grid, (n - 1, m - 2)).value, false), n, m, (n - 1, m - 2), (0, 1), {}, r.value)
  {
    if |grid| == 0 || |grid[0]| < 2 {
      return None;
    }
    var n, m := |grid|, |grid[0]|;
    var target := (n - 1, m - 2);
    var used := new bool[n, m]((i, j) => false);
    var table := CompressAll(grid, target, used);
    if table.None? {
      return None;
    }
    var compressed := table.value;
    r := DfsMain(grid, compressed, false, target, (0, 1), used, {});
    if r.Some? {
      CompressedNonNeg(grid, target);
      LongestOptimal(grid, compressed, false, n, m, target, (0, 1), {});
    }
  }
}
