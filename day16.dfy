/** Day 16 (The Floor Will Be Lava): a beam enters a grid of empty space
    `.`, splitters `|` `-` and mirrors `/` `\`. `solve` follows every beam
    with a queue, remembering each (tile, direction) pair it has entered,
    and counts the tiles entered at all. Part 1 starts left of the top-left
    tile; part 2 takes the best of every entry along the edges. */
module Day16 {
  import opened Common
  import opened Text

  // ---------------------------------------------------------------------
  // Tiles
  // ---------------------------------------------------------------------

  /** The four directions of `DIRS`, in that order. */
  datatype Dir = Up | Right | Down | Left

  type Point = (int, int)

  /** A beam at a point, travelling in a direction. */
  type State = (Point, Dir)

  /** `UP`, `RIGHT`, `DOWN`, `LEFT` as (row, column) steps. */
  function Delta(d: Dir): Point
  {
    match d
    case Up => (-1, 0)
    case Right => (0, 1)
    case Down => (1, 0)
    case Left => (0, -1)
  }

  function Move(p: Point, d: Dir): Point
  {
    (p.0 + Delta(d).0, p.1 + Delta(d).1)
  }

  /** The mirror `/`. */
  function Slash(d: Dir): Dir
  {
    match d
    case Up => Right
    case Right => Up
    case Down => Left
    case Left => Down
  }

  /** The mirror `\`. */
  function Backslash(d: Dir): Dir
  {
    match d
    case Up => Left
    case Right => Down
    case Down => Right
    case Left => Up
  }

  /** The directions in which a beam leaves a tile it entered travelling
      in direction d; None for a character that is no tile (`unreachable!`). */
  function Turn(c: char, d: Dir): (r: Option<seq<Dir>>)
  {
    if c == '.' then Some([d])
    else if c == '|' then (if d == Left || d == Right then Some([Up, Down]) else Some([d]))
    else if c == '-' then (if d == Up || d == Down then Some([Left, Right]) else Some([d]))
    else if c == '/' then Some([Slash(d)])
    else if c == '\\' then Some([Backslash(d)])
    else None
  }

  /** Both mirrors undo themselves, and a beam leaving a mirror is never
      turned back the way it came. */
  lemma MirrorsInvolutive(d: Dir)
    ensures Slash(Slash(d)) == d && Backslash(Backslash(d)) == d
    ensures Slash(d) != d && Backslash(d) != d
  {
  }

  /** Empty space passes a beam straight on; a splitter met on its flat
      side splits the beam in two, perpendicular, and met end-on passes it;
      a mirror turns it by a right angle. */
  lemma TurnFacts(c: char, d: Dir)
    ensures c == '.' ==> Turn(c, d) == Some([d])
    ensures c == '|' ==> Turn(c, d) == if Delta(d).0 == 0 then Some([Up, Down]) else Some([d])
    ensures c == '-' ==> Turn(c, d) == if Delta(d).1 == 0 then Some([Left, Right]) else Some([d])
    ensures c in {'/', '\\'} ==> (
      Turn(c, d).Some? && |Turn(c, d).value| == 1
      && Delta(Turn(c, d).value[0]).0 == Delta(d).1 * (if c == '/' then -1 else 1)
      && Delta(Turn(c, d).value[0]).1 == Delta(d).0 * (if c == '/' then -1 else 1))
    ensures Turn(c, d).None? <==> c !in {'.', '|', '-', '/', '\\'}
  {
  }

  // ---------------------------------------------------------------------
  // The grid
  // ---------------------------------------------------------------------

  /** Inside the n x m grid, m being the length of the first row. */
  predicate Inside(lines: seq<string>, p: Point)
    requires |lines| > 0
  {
    0 <= p.0 < |lines| && 0 <= p.1 < |lines[0]|
  }

  /** A tile the beam cannot enter without a panic: past the end of a
      short row, or not one of the five tile characters. */
  predicate Bad(lines: seq<string>, p: Point)
    requires |lines| > 0
  {
    Inside(lines, p) && (p.1 >= |lines[p.0]| || Turn(lines[p.0][p.1], Up).None?)
  }

  /** The directions in which a beam that entered p travelling in d leaves
      it (none outside the grid or on a bad tile). */
  function Leaves(lines: seq<string>, e: State): seq<Dir>
    requires |lines| > 0
  {
    var (p, d) := e;
    if Inside(lines, p) && p.1 < |lines[p.0]| && Turn(lines[p.0][p.1], d).Some? then Turn(lines[p.0][p.1], d).value
    else []
  }

  /** The state a queued beam enters: the next tile, same direction. */
  function Enter(x: State): State
  {
    (Move(x.0, x.1), x.1)
  }

  /** The queue entries a tile pushes: one per leaving direction, in
      order. */
  function Beams(p: Point, ds: seq<Dir>): (r: seq<State>)
    ensures |r| == |ds| && forall k :: 0 <= k < |ds| ==> r[k] == (p, ds[k])
  {
    seq(|ds|, k requires 0 <= k < |ds| => (p, ds[k]))
  }

  // ---------------------------------------------------------------------
  // What `solve` computes
  // ---------------------------------------------------------------------

  /** S holds the state the start beam enters, when that is inside, and
      whatever a beam in S leads to inside the grid. */
  ghost predicate Closed(lines: seq<string>, start: State, S: set<State>)
    requires |lines| > 0
  {
    (Inside(lines, Enter(start).0) ==> Enter(start) in S)
    && forall e :: e in S ==>
      forall k :: 0 <= k < |Leaves(lines, e)| && Inside(lines, Move(e.0, Leaves(lines, e)[k])) ==>
        Enter((e.0, Leaves(lines, e)[k])) in S
  }

  /** The states the beams reach: the least closed set. */
  ghost predicate Least(lines: seq<string>, start: State, S: set<State>)
    requires |lines| > 0
  {
    Closed(lines, start, S) && forall T :: Closed(lines, start, T) ==> S <= T
  }

  /** No reached state is on a bad tile. */
  ghost predicate Good(lines: seq<string>, S: set<State>)
    requires |lines| > 0
  {
    forall e :: e in S ==> !Bad(lines, e.0)
  }

  /** The energized tiles of a set of states. */
  function Cells(S: set<State>): set<Point>
  {
    set e: State | e in S :: e.0
  }

  /** The answer of `solve` for a start: the number of tiles in the least
      closed set; None (a panic) for an empty grid or when beams reach a
      bad tile. */
  ghost function Energy(lines: seq<string>, start: State): Option<nat>
  {
    if |lines| == 0 then None
    else if exists S :: Least(lines, start, S) && Good(lines, S) then Some(|Cells(Reached(lines, start))|)
    else None
  }

  /** The least closed set, when it avoids bad tiles. */
  ghost function Reached(lines: seq<string>, start: State): (S: set<State>)
    requires |lines| > 0 && exists S :: Least(lines, start, S) && Good(lines, S)
    ensures Least(lines, start, S) && Good(lines, S)
  {
    var S :| Least(lines, start, S) && Good(lines, S);
    S
  }

  /** There is only one least closed set. */
  lemma LeastUnique(lines: seq<string>, start: State, S: set<State>, T: set<State>)
    requires |lines| > 0 && Least(lines, start, S) && Least(lines, start, T)
    ensures S == T
  {
  }

  /** The tiles of the grid. */
  function GridCells(n: nat, m: nat): set<Point>
  {
    set i, j | 0 <= i < n && 0 <= j < m :: (i, j)
  }

  function RowCells(i: int, m: nat): set<Point>
  {
    set j | 0 <= j < m :: (i, j)
  }

  lemma {:induction false} RowCellsCount(i: int, m: nat)
    ensures |RowCells(i, m)| == m
    decreases m
  {
    if m > 0 {
      RowCellsCount(i, m - 1);
      assert RowCells(i, m) == RowCells(i, m - 1) + {(i, m - 1)};
    }
  }

  /** An n x m grid has n * m tiles. */
  lemma {:induction false} GridCellsCount(n: nat, m: nat)
    ensures |GridCells(n, m)| == n * m
    decreases n
  {
    if n > 0 {
      GridCellsCount(n - 1, m);
      RowCellsCount(n - 1, m);
      GridCellsSplit(n, m);
      DisjointCount(GridCells(n - 1, m), RowCells(n - 1, m));
      RowStep(n, m);
    }
  }

  lemma DisjointCount<T>(a: set<T>, b: set<T>)
    requires a !! b
    ensures |a + b| == |a| + |b|
  {
  }

  lemma RowStep(n: nat, m: nat)
    requires n > 0
    ensures (n - 1) * m + m == n * m
  {
  }

  lemma GridCellsSplit(n: nat, m: nat)
    requires n > 0
    ensures GridCells(n, m) == GridCells(n - 1, m) + RowCells(n - 1, m)
    ensures GridCells(n - 1, m) !! RowCells(n - 1, m)
  {
    forall p | p in GridCells(n, m)
      ensures p in GridCells(n - 1, m) + RowCells(n - 1, m)
    {
      if p.0 < n - 1 {
        assert p in GridCells(n - 1, m);
      } else {
        assert p in RowCells(n - 1, m);
      }
    }
  }

  /** A subset is no larger. */
  lemma SubsetCount<T>(a: set<T>, b: set<T>)
    requires a <= b
    ensures |a| <= |b|
  {
    assert b == a + (b - a);
  }

  /** The states of a closed set that lie inside the grid form a closed
      set too. */
  lemma InsidePart(lines: seq<string>, start: State, S: set<State>)
    requires |lines| > 0 && Closed(lines, start, S)
    ensures Closed(lines, start, set e: State | e in S && Inside(lines, e.0))
  {
  }

  /** At most every tile is energized, and the start outside the grid is
      not counted. */
  lemma EnergyBound(lines: seq<string>, start: State)
    ensures Energy(lines, start).Some? ==> Energy(lines, start).value <= |lines| * |lines[0]|
  {
    if Energy(lines, start).Some? {
      var S := Reached(lines, start);
      InsidePart(lines, start, S);
      assert Cells(S) <= GridCells(|lines|, |lines[0]|) by {
        forall p | p in Cells(S)
          ensures p in GridCells(|lines|, |lines[0]|)
        {
          var e: State :| e in S && e.0 == p;
          assert e in set e': State | e' in S && Inside(lines, e'.0);
        }
      }
      GridCellsCount(|lines|, |lines[0]|);
      SubsetCount(Cells(S), GridCells(|lines|, |lines[0]|));
    }
  }

  // ---------------------------------------------------------------------
  // `solve`
  // ---------------------------------------------------------------------

  /** Every state inside the grid. */
  function AllStates(lines: seq<string>): set<State>
    requires |lines| > 0
  {
    set i, j, d: Dir | 0 <= i < |lines| && 0 <= j < |lines[0]| && d in {Up, Right, Down, Left} :: ((i, j), d)
  }

  /** `energized` records exactly the states in `seen`: a tile maps to the
      directions it was entered in, and only entered tiles appear. */
  ghost predicate Records(energized: map<Point, set<Dir>>, seen: set<State>)
  {
    (forall p :: p in energized ==> energized[p] != {})
    && (forall p, d :: p in energized && d in energized[p] ==> (p, d) in seen)
    && (forall e :: e in seen ==> e.0 in energized && e.1 in energized[e.0])
  }

  /** Everything entered or about to be entered lies in every closed set. */
  ghost predicate Sound(lines: seq<string>, start: State, seen: set<State>, q: seq<State>)
    requires |lines| > 0
  {
    forall T :: Closed(lines, start, T) ==>
      seen <= T && forall k :: 0 <= k < |q| && Inside(lines, Enter(q[k]).0) ==> Enter(q[k]) in T
  }

  /** The state a beam x leads to is outside, entered already, or x is
      still queued. */
  predicate Covered(lines: seq<string>, seen: set<State>, q: seq<State>, x: State)
    requires |lines| > 0
  {
    !Inside(lines, Enter(x).0) || Enter(x) in seen || x in q
  }

  /** Nothing the start or an entered state leads to has been lost. */
  ghost predicate Pending(lines: seq<string>, start: State, seen: set<State>, q: seq<State>)
    requires |lines| > 0
  {
    Covered(lines, seen, q, start)
    && forall e :: e in seen ==>
      forall k :: 0 <= k < |Leaves(lines, e)| ==> Covered(lines, seen, q, (e.0, Leaves(lines, e)[k]))
  }

  /** Dropping a beam that leaves the grid or repeats an entered state. */
  lemma Skip(lines: seq<string>, start: State, seen: set<State>, q: seq<State>)
    requires |lines| > 0 && |q| > 0 && Sound(lines, start, seen, q) && Pending(lines, start, seen, q)
    requires !Inside(lines, Enter(q[0]).0) || Enter(q[0]) in seen
    ensures Sound(lines, start, seen, q[1..]) && Pending(lines, start, seen, q[1..])
  {
    forall T | Closed(lines, start, T)
      ensures forall k :: 0 <= k < |q[1..]| && Inside(lines, Enter(q[1..][k]).0) ==> Enter(q[1..][k]) in T
    {
      forall k | 0 <= k < |q[1..]| && Inside(lines, Enter(q[1..][k]).0)
        ensures Enter(q[1..][k]) in T
      {
        assert q[1..][k] == q[k + 1];
      }
    }
    forall x | Covered(lines, seen, q, x)
      ensures Covered(lines, seen, q[1..], x)
    {
      if x in q && x != q[0] {
        var k :| 0 <= k < |q| && q[k] == x;
        assert q[1..][k - 1] == x;
      }
    }
  }

  /** Entering a new state and queueing the beams leaving it. */
  lemma Visit(lines: seq<string>, start: State, seen: set<State>, q: seq<State>)
    requires |lines| > 0 && |q| > 0 && Sound(lines, start, seen, q) && Pending(lines, start, seen, q)
    requires Inside(lines, Enter(q[0]).0)
    ensures var e := Enter(q[0]);
      var q' := q[1..] + Beams(e.0, Leaves(lines, e));
      Sound(lines, start, seen + {e}, q') && Pending(lines, start, seen + {e}, q')
  {
    var e := Enter(q[0]);
    var ds := Leaves(lines, e);
    var q' := q[1..] + Beams(e.0, ds);
    forall T | Closed(lines, start, T)
      ensures seen + {e} <= T
      ensures forall k :: 0 <= k < |q'| && Inside(lines, Enter(q'[k]).0) ==> Enter(q'[k]) in T
    {
      assert e in T;
      forall k | 0 <= k < |q'| && Inside(lines, Enter(q'[k]).0)
        ensures Enter(q'[k]) in T
      {
        if k < |q| - 1 {
          assert q'[k] == q[k + 1];
        } else {
          assert q'[k] == (e.0, ds[k - (|q| - 1)]);
        }
      }
    }
    forall x | Covered(lines, seen, q, x)
      ensures Covered(lines, seen + {e}, q', x)
    {
      if x in q && x != q[0] {
        var k :| 0 <= k < |q| && q[k] == x;
        assert q'[k - 1] == x;
      }
    }
    forall k | 0 <= k < |ds|
      ensures Covered(lines, seen + {e}, q', (e.0, ds[k]))
    {
      assert q'[|q| - 1 + k] == (e.0, ds[k]);
    }
  }

  /** Once the queue is empty, the entered states are the least closed
      set. */
  lemma Finish(lines: seq<string>, start: State, seen: set<State>)
    requires |lines| > 0 && Sound(lines, start, seen, []) && Pending(lines, start, seen, []) && Good(lines, seen)
    ensures Energy(lines, start) == Some(|Cells(seen)|)
  {
    assert Closed(lines, start, seen);
    assert Least(lines, start, seen);
    LeastUnique(lines, start, seen, Reached(lines, start));
  }

  /** A beam about to enter a bad tile dooms every closed set, so `solve`
      panics. */
  lemma Doomed(lines: seq<string>, start: State, seen: set<State>, q: seq<State>)
    requires |lines| > 0 && |q| > 0 && Sound(lines, start, seen, q)
    requires Inside(lines, Enter(q[0]).0) && Bad(lines, Enter(q[0]).0)
    ensures Energy(lines, start) == None
  {
    forall S | Closed(lines, start, S)
      ensures !Good(lines, S)
    {
      assert Enter(q[0]) in S;
    }
  }

  /** The energized tiles are the tiles of the recorded states. */
  lemma RecordedCells(energized: map<Point, set<Dir>>, seen: set<State>)
    requires Records(energized, seen)
    ensures energized.Keys == Cells(seen)
  {
    forall p | p in energized
      ensures p in Cells(seen)
    {
      var d :| d in energized[p];
      assert (p, d) in seen;
    }
  }

  /** What holds before each pop of the queue. */
  ghost predicate Searching(lines: seq<string>, start: State, energized: map<Point, set<Dir>>, seen: set<State>, q: seq<State>)
    requires |lines| > 0
  {
    Records(energized, seen) && seen <= AllStates(lines) && |seen| <= |AllStates(lines)| && Good(lines, seen)
    && Sound(lines, start, seen, q) && Pending(lines, start, seen, q)
  }

  /** `energized` after entering tile p in direction d. */
  function Mark(energized: map<Point, set<Dir>>, p: Point, d: Dir): map<Point, set<Dir>>
  {
    if p in energized then energized[p := energized[p] + {d}] else energized[p := {d}]
  }

  /** Entering a new state inside the grid on a good tile keeps the search
      invariant and grows the set of entered states. */
  lemma Marked(lines: seq<string>, start: State, energized: map<Point, set<Dir>>, seen: set<State>, q: seq<State>)
    requires |lines| > 0 && |q| > 0 && Searching(lines, start, energized, seen, q)
    requires Inside(lines, Enter(q[0]).0) && !Bad(lines, Enter(q[0]).0) && Enter(q[0]) !in seen
    ensures var e := Enter(q[0]);
      && Searching(lines, start, Mark(energized, e.0, e.1), seen + {e}, q[1..] + Beams(e.0, Leaves(lines, e)))
      && |seen + {e}| > |seen|
  {
    var e := Enter(q[0]);
    Visit(lines, start, seen, q);
    RecordsMark(energized, seen, e);
    InAllStates(lines, e);
    SubsetCount(seen + {e}, AllStates(lines));
  }

  lemma RecordsMark(energized: map<Point, set<Dir>>, seen: set<State>, e: State)
    requires Records(energized, seen)
    ensures Records(Mark(energized, e.0, e.1), seen + {e})
  {
    var m := Mark(energized, e.0, e.1);
    forall p, d | p in m && d in m[p]
      ensures (p, d) in seen + {e}
    {
      if p != e.0 || d != e.1 {
        assert p in energized && d in energized[p];
      }
    }
    forall x | x in seen + {e}
      ensures x.0 in m && x.1 in m[x.0]
    {
      if x != e {
        assert x.0 in energized && x.1 in energized[x.0];
      }
    }
  }

  lemma InAllStates(lines: seq<string>, e: State)
    requires |lines| > 0 && Inside(lines, e.0)
    ensures e in AllStates(lines)
  {
    var (i, j, d) := (e.0.0, e.0.1, e.1);
    assert d in {Up, Right, Down, Left} by {
      match d
      case Up =>
      case Right =>
      case Down =>
      case Left =>
    }
    assert ((i, j), d) in AllStates(lines);
  }

  /** One pass of the `while let` loop: pop a beam, drop it if it leaves
      the grid or repeats, otherwise record the tile and queue what leaves
      it; `ok` is false when the tile panics. */
  method Pop(lines: seq<string>, start: State, energized: map<Point, set<Dir>>, ghost seen: set<State>, q: seq<State>)
    returns (ok: bool, energized': map<Point, set<Dir>>, ghost seen': set<State>, q': seq<State>)
    requires |lines| > 0 && |q| > 0 && Searching(lines, start, energized, seen, q)
    ensures !ok ==> Energy(lines, start) == None
    ensures ok ==> Searching(lines, start, energized', seen', q')
    ensures ok ==> |seen'| > |seen| || (seen' == seen && |q'| < |q|)
  {
    var (pos, dir) := q[0];
    var next := Move(pos, dir);
    if !Inside(lines, next) || (next in energized && dir in energized[next]) {
      Skip(lines, start, seen, q);
      return true, energized, seen, q[1..];
    }
    if next.1 >= |lines[next.0]| || Turn(lines[next.0][next.1], dir).None? {
      Doomed(lines, start, seen, q);
      return false, energized, seen, q;
    }
    Marked(lines, start, energized, seen, q);
    energized' := if next in energized then energized[next := energized[next] + {dir}] else energized[next := {dir}];
    seen' := seen + {(next, dir)};
    q' := q[1..] + Beams(next, Turn(lines[next.0][next.1], dir).value);
    ok := true;
  }

  /** `solve`: the queue of beams and the `energized` map of the
      directions each tile was entered in. */
  method Solve(lines: seq<string>, start: State) returns (r: Option<nat>)
    ensures r == Energy(lines, start)
  {
    if |lines| == 0 {
      return None;
    }
    var energized: map<Point, set<Dir>> := map[];
    ghost var seen: set<State> := {};
    var q := [start];
    while |q| > 0
      invariant Searching(lines, start, energized, seen, q)
      decreases |AllStates(lines)| - |seen|, |q|
    {
      var ok;
      ok, energized, seen, q := Pop(lines, start, energized, seen, q);
      if !ok {
        return None;
      }
    }
    RecordedCells(energized, seen);
    Finish(lines, start, seen);
    r := Some(|energized|);
  }

  // ---------------------------------------------------------------------
  // The two parts
  // ---------------------------------------------------------------------

  /** Part 1: the beam enters the top-left tile heading right, on the
      lines read as bytes. */
  method Part1(lines: seq<string>) returns (r: Option<nat>)
    ensures r == Energy(ByteLines(lines), ((0, -1), Right))
    ensures r.Some? ==> r.value <= |lines| * |lines[0]|
  {
    var grid := ByteLines(lines);
    r := Solve(grid, ((0, -1), Right));
    EnergyBound(grid, ((0, -1), Right));
  }

  function At(i: int, j: int, d: Dir): State
  {
    ((i, j), d)
  }

  /** The entries of part 2, in the order they are chained: for each row,
      from the left heading right and from the right heading left; then
      for each column, from above heading down and from below heading up. */
  function EdgeStarts(n: nat, m: nat): (r: seq<State>)
  {
    var rows := seq(2 * n, k requires 0 <= k < 2 * n => if k % 2 == 0 then At(k / 2, -1, Right) else At(k / 2, m, Left));
    var columns := seq(2 * m, k requires 0 <= k < 2 * m => if k % 2 == 0 then At(-1, k / 2, Down) else At(n, k / 2, Up));
    rows + columns
  }

  /** There are 2n + 2m entries, each just outside the grid and heading
      into it, and every way in from an edge is among them. */
  lemma EdgeStartsFacts(n: nat, m: nat)
    ensures |EdgeStarts(n, m)| == 2 * n + 2 * m
    ensures n > 0 && m > 0 ==> forall k :: 0 <= k < |EdgeStarts(n, m)| ==>
      var (p, d) := EdgeStarts(n, m)[k];
      !(0 <= p.0 < n && 0 <= p.1 < m) && (0 <= Move(p, d).0 < n && 0 <= Move(p, d).1 < m)
    ensures forall i :: 0 <= i < n ==> ((i, -1), Right) in EdgeStarts(n, m) && ((i, m), Left) in EdgeStarts(n, m)
    ensures forall j :: 0 <= j < m ==> ((-1, j), Down) in EdgeStarts(n, m) && ((n, j), Up) in EdgeStarts(n, m)
  {
    if n > 0 && m > 0 {
      EdgeStartsInward(n, m);
    }
    EdgeStartsCover(n, m);
  }

  lemma EdgeStartsInward(n: nat, m: nat)
    requires n > 0 && m > 0
    ensures forall k :: 0 <= k < |EdgeStarts(n, m)| ==>
      var (p, d) := EdgeStarts(n, m)[k];
      !(0 <= p.0 < n && 0 <= p.1 < m) && (0 <= Move(p, d).0 < n && 0 <= Move(p, d).1 < m)
  {
    var r := EdgeStarts(n, m);
    forall k | 0 <= k < |r|
      ensures var (p, d) := r[k];
        !(0 <= p.0 < n && 0 <= p.1 < m) && (0 <= Move(p, d).0 < n && 0 <= Move(p, d).1 < m)
    {
      if k < 2 * n {
        assert r[k] == if k % 2 == 0 then At(k / 2, -1, Right) else At(k / 2, m, Left);
      } else {
        var c := k - 2 * n;
        assert r[k] == if c % 2 == 0 then At(-1, c / 2, Down) else At(n, c / 2, Up);
      }
    }
  }

  lemma EdgeStartsCover(n: nat, m: nat)
    ensures forall i :: 0 <= i < n ==> ((i, -1), Right) in EdgeStarts(n, m) && ((i, m), Left) in EdgeStarts(n, m)
    ensures forall j :: 0 <= j < m ==> ((-1, j), Down) in EdgeStarts(n, m) && ((n, j), Up) in EdgeStarts(n, m)
  {
    var r := EdgeStarts(n, m);
    forall i | 0 <= i < n
      ensures ((i, -1), Right) in r && ((i, m), Left) in r
    {
      assert r[2 * i] == ((i, -1), Right);
      assert r[2 * i + 1] == ((i, m), Left);
    }
    forall j | 0 <= j < m
      ensures ((-1, j), Down) in r && ((n, j), Up) in r
    {
      assert r[2 * n + 2 * j] == ((-1, j), Down);
      assert r[2 * n + 2 * j + 1] == ((n, j), Up);
    }
  }

  /** The energy of each start. */
  ghost function Energies(lines: seq<string>, starts: seq<State>): (r: seq<Option<nat>>)
    ensures |r| == |starts|
  {
    seq(|starts|, k requires 0 <= k < |starts| => Energy(lines, starts[k]))
  }

  /** `max` with `unwrap_or(0)` over some results, None once any is. */
  function MaxOf(es: seq<Option<nat>>): Option<nat>
  {
    if |es| == 0 then Some(0)
    else
      match (MaxOf(es[..|es| - 1]), es[|es| - 1])
      case (Some(a), Some(b)) => Some(if a < b then b else a)
      case _ => None
  }

  /** The best energy over some starts. */
  ghost function BestOf(lines: seq<string>, starts: seq<State>): Option<nat>
  {
    MaxOf(Energies(lines, starts))
  }

  /** BestOf fails exactly when some start panics, and otherwise is the
      energy of some start (or 0 without any) and at least every start's. */
  lemma BestOfFacts(lines: seq<string>, starts: seq<State>)
    ensures BestOf(lines, starts).None? <==> exists k :: 0 <= k < |starts| && Energy(lines, starts[k]).None?
    ensures BestOf(lines, starts).Some? ==>
      forall k :: 0 <= k < |starts| ==> Energy(lines, starts[k]).value <= BestOf(lines, starts).value
    ensures BestOf(lines, starts).Some? ==>
      BestOf(lines, starts).value == 0 || exists k :: 0 <= k < |starts| && Energy(lines, starts[k]) == BestOf(lines, starts)
  {
    var es := Energies(lines, starts);
    MaxOfNone(es);
    MaxOfAbove(es);
    MaxOfAttained(es);
    assert forall k :: 0 <= k < |starts| ==> es[k] == Energy(lines, starts[k]);
  }

  lemma {:induction false} MaxOfNone(es: seq<Option<nat>>)
    ensures MaxOf(es).Some? <==> forall k :: 0 <= k < |es| ==> es[k].Some?
  {
    if |es| > 0 {
      var init := es[..|es| - 1];
      MaxOfNone(init);
      assert forall k :: 0 <= k < |init| ==> init[k] == es[k];
    }
  }

  lemma {:induction false} MaxOfAbove(es: seq<Option<nat>>)
    ensures MaxOf(es).Some? ==> forall k :: 0 <= k < |es| ==> es[k].Some? && es[k].value <= MaxOf(es).value
  {
    if |es| > 0 {
      var init := es[..|es| - 1];
      MaxOfAbove(init);
      assert forall k :: 0 <= k < |init| ==> init[k] == es[k];
    }
  }

  lemma {:induction false} MaxOfAttained(es: seq<Option<nat>>)
    ensures MaxOf(es).Some? ==> MaxOf(es).value == 0 || exists k :: 0 <= k < |es| && es[k] == MaxOf(es)
  {
    if |es| > 0 {
      var init := es[..|es| - 1];
      MaxOfAttained(init);
      assert forall k :: 0 <= k < |init| ==> init[k] == es[k];
    }
  }

  lemma BestOfStep(lines: seq<string>, starts: seq<State>, k: nat)
    requires k < |starts|
    ensures BestOf(lines, starts[..k + 1]) ==
      match (BestOf(lines, starts[..k]), Energy(lines, starts[k]))
      case (Some(a), Some(b)) => Some(if a < b then b else a)
      case _ => None
  {
    var es := Energies(lines, starts[..k + 1]);
    assert es[..k] == Energies(lines, starts[..k]);
    assert es[k] == Energy(lines, starts[k]);
  }

  /** The `map(solve).max()` over a list of starts. */
  method Best(lines: seq<string>, starts: seq<State>) returns (r: Option<nat>)
    ensures r == BestOf(lines, starts)
  {
    var best := 0;
    for k := 0 to |starts|
      invariant BestOf(lines, starts[..k]) == Some(best)
    {
      var e := Solve(lines, starts[k]);
      if e.None? {
        BestOfFacts(lines, starts);
        return None;
      }
      BestOfStep(lines, starts, k);
      best := if best < e.value then e.value else best;
    }
    assert starts[..|starts|] == starts;
    r := Some(best);
  }

  /** Part 2: `solve` from every edge entry, keeping the largest. */
  method Part2(lines: seq<string>) returns (r: Option<nat>)
    ensures r == if |lines| == 0 then None else BestOf(ByteLines(lines), EdgeStarts(|lines|, |lines[0]|))
    ensures r.Some? ==> r.value <= |lines| * |lines[0]|
  {
    if |lines| == 0 {
      return None;
    }
    var grid := ByteLines(lines);
    var starts := EdgeStarts(|lines|, |lines[0]|);
    r := Best(grid, starts);
    BestBound(grid, starts);
    assert |grid| == |lines| && |grid[0]| == |lines[0]|;
  }

  /** The best energy is at most the number of tiles. */
  lemma BestBound(grid: seq<string>, starts: seq<State>)
    requires |grid| > 0
    ensures BestOf(grid, starts).Some? ==> BestOf(grid, starts).value <= |grid| * |grid[0]|
  {
    BestOfFacts(grid, starts);
    var r := BestOf(grid, starts);
    if r.Some? && r.value != 0 {
      var k :| 0 <= k < |starts| && Energy(grid, starts[k]) == r;
      EnergyBound(grid, starts[k]);
    }
  }
}
