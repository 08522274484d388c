/** Day 21 (Step Counter): from the start plot the gardener takes exactly
    64 steps, each to an up, right, down or left neighbour that is not
    rock; part 1 counts the plots where a walk can end. The step is a set
    expansion: the next set holds every walkable neighbour of every member. */
module Day21 {
  import opened Common
  import opened Text

  datatype Tile = Start | Plot | Rock

  /** A position (row, column); the row of a missing start is -1. */
  type Point = (int, int)

  /** The number of steps of part 1. */
  const Steps: nat := 64

  // ---------------------------------------------------------------------
  // Parsing
  // ---------------------------------------------------------------------

  function ParseTile(c: char): Option<Tile>
  {
    if c == '.' then Some(Plot) else if c == 'S' then Some(Start) else if c == '#' then Some(Rock) else None
  }

  /** One row of tiles; an unknown character is unreachable. */
  function ParseRow(line: string): (r: Option<seq<Tile>>)
    ensures r.Some? ==> |r.value| == |line| && forall j :: 0 <= j < |line| ==> ParseTile(line[j]) == Some(r.value[j])
  {
    var opts := seq(|line|, j requires 0 <= j < |line| => ParseTile(line[j]));
    CollectExact(opts);
    Collect(opts)
  }

  /** The grid, row by row. */
  function ParseGrid(lines: seq<string>): Option<seq<seq<Tile>>>
  {
    Collect(seq(|lines|, i requires 0 <= i < |lines| => ParseRow(lines[i])))
  }

  // ---------------------------------------------------------------------
  // One step
  // ---------------------------------------------------------------------

  /** `DIRS`: up, right, down, left. */
  function Move(p: Point, d: int): Point
  {
    if d == 0 then (p.0 - 1, p.1)
    else if d == 1 then (p.0, p.1 + 1)
    else if d == 2 then (p.0 + 1, p.1)
    else (p.0, p.1 - 1)
  }

  /** Inside the grid (rows may differ in length) and not rock: the `get`
      lookups fail for negative or too large coordinates. */
  predicate Walkable(grid: seq<seq<Tile>>, p: Point)
  {
    0 <= p.0 < |grid| && 0 <= p.1 < |grid[p.0]| && grid[p.0][p.1] != Rock
  }

  /** The walkable neighbours of one position. */
  function Neighbours(grid: seq<seq<Tile>>, cur: Point): set<Point>
  {
    set d | 0 <= d < 4 && Walkable(grid, Move(cur, d)) :: Move(cur, d)
  }

  /** The positions one step away from some member of `s`. */
  function Next(grid: seq<seq<Tile>>, s: set<Point>): set<Point>
  {
    set cur, d | cur in s && 0 <= d < 4 && Walkable(grid, Move(cur, d)) :: Move(cur, d)
  }

  /** The positions where a walk of exactly k steps can end. */
  function Reach(grid: seq<seq<Tile>>, start: Point, k: nat): set<Point>
  {
    if k == 0 then {start} else Next(grid, Reach(grid, start, k - 1))
  }

  /** Adding one member adds its neighbours. */
  lemma NextAdd(grid: seq<seq<Tile>>, s: set<Point>, cur: Point)
    ensures Next(grid, s + {cur}) == Next(grid, s) + Neighbours(grid, cur)
  {
    forall p | p in Next(grid, s + {cur})
      ensures p in Next(grid, s) + Neighbours(grid, cur)
    {
      var c, d :| c in s + {cur} && 0 <= d < 4 && Walkable(grid, Move(c, d)) && p == Move(c, d);
      if c != cur {
        assert c in s;
      }
    }
  }

  /** One step: for every member, insert its walkable neighbours into a
      fresh set. */
  method Expand(grid: seq<seq<Tile>>, hm: set<Point>) returns (next: set<Point>)
    ensures next == Next(grid, hm)
  {
    next := {};
    var rest := hm;
    while rest != {}
      invariant rest <= hm
      invariant next == Next(grid, hm - rest)
      decreases |rest|
    {
      var cur :| cur in rest;
      NextAdd(grid, hm - rest, cur);
      assert hm - (rest - {cur}) == (hm - rest) + {cur};
      next := next + Neighbours(grid, cur);
      rest := rest - {cur};
    }
    assert hm - rest == hm;
  }

  /** The `for _ in 1..=steps` loop: expand, then swap the sets. */
  method Walk(grid: seq<seq<Tile>>, start: Point, steps: nat) returns (hm: set<Point>)
    ensures hm == Reach(grid, start, steps)
  {
    hm := {start};
    var i := 0;
    while i < steps
      invariant i <= steps
      invariant hm == Reach(grid, start, i)
    {
      hm := Expand(grid, hm);
      i := i + 1;
    }
  }

  /** Part 1: how many positions a walk of 64 steps can end on. */
  method Part1(lines: seq<string>) returns (r: Option<nat>)
    ensures r == match ParseGrid(lines)
      case None => None
      case Some(grid) => Some(|Reach(grid, LastCell(lines, 'S'), Steps)|)
  {
    var grid := ParseGrid(lines);
    if grid.None? {
      return None;
    }
    var hm := Walk(grid.value, LastCell(lines, 'S'), Steps);
    return Some(|hm|);
  }

  // ---------------------------------------------------------------------
  // What the walk preserves
  // ---------------------------------------------------------------------

  /** The parity of a position's coordinate sum. */
  function Parity(p: Point): int
  {
    (p.0 + p.1) % 2
  }

  /** Every step changes the parity, so after k steps every position has
      the start's parity plus k. */
  lemma {:induction false} ReachParity(grid: seq<seq<Tile>>, start: Point, k: nat)
    ensures forall p :: p in Reach(grid, start, k) ==> Parity(p) == (start.0 + start.1 + k) % 2
    decreases k
  {
    if k > 0 {
      ReachParity(grid, start, k - 1);
      forall p | p in Reach(grid, start, k)
        ensures Parity(p) == (start.0 + start.1 + k) % 2
      {
        var c, d :| c in Reach(grid, start, k - 1) && 0 <= d < 4 && Walkable(grid, Move(c, d)) && p == Move(c, d);
        assert Parity(c) == (start.0 + start.1 + k - 1) % 2;
        MoveParity(c, d, start.0 + start.1 + k - 1);
      }
    }
  }

  /** A move changes the parity. */
  lemma MoveParity(c: Point, d: int, x: int)
    requires Parity(c) == x % 2
    ensures Parity(Move(c, d)) == (x + 1) % 2
  {
    var m := Move(c, d);
    assert m.0 + m.1 == c.0 + c.1 + 1 || m.0 + m.1 == c.0 + c.1 - 1;
  }

  /** The walkable positions of the grid. */
  function Open(grid: seq<seq<Tile>>): set<Point>
  {
    set i, j | 0 <= i < |grid| && 0 <= j < |grid[i]| && grid[i][j] != Rock :: (i, j)
  }

  /** After at least one step every position is walkable, so the set never
      holds more positions than the grid has non-rock cells. */
  lemma ReachBound(grid: seq<seq<Tile>>, start: Point, k: nat)
    requires k >= 1
    ensures Reach(grid, start, k) <= Open(grid)
    ensures |Reach(grid, start, k)| <= |Open(grid)|
  {
    forall p | p in Reach(grid, start, k)
      ensures p in Open(grid)
    {
      var c, d :| c in Reach(grid, start, k - 1) && 0 <= d < 4 && Walkable(grid, Move(c, d)) && p == Move(c, d);
      assert p == (p.0, p.1);
    }
    SubsetSize(Reach(grid, start, k), Open(grid));
  }
}
