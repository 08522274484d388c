/** Day 17 (Clumsy Crucible): a grid of heat-loss digits. A crucible starts
    in the top-left corner and may not reverse; it goes straight at most
    `MAX_STEPS` cells in a row, and every turn moves it `MIN_STEPS` cells at
    once. A Dijkstra-style search over (cell, streak, direction) states,
    with a priority queue and a table of best recorded losses, gives the
    least heat loss at the bottom-right corner, not counting the first
    cell. Part 1 uses 1 and 3, part 2 uses 4 and 10. */
module Day17 {
  import opened Common
  import opened Text

  /** A cell (row, column), as `i32` coordinates. */
  type Point = (int, int)

  /** The loss digits, row by row. */
  type Grid = seq<seq<int>>

  /** `DIRS`: up, right, down, left. */
  function Delta(d: nat): Point
    requires d < 4
  {
    if d == 0 then (-1, 0) else if d == 1 then (0, 1) else if d == 2 then (1, 0) else (0, -1)
  }

  /** k cells from p in direction d. */
  function Shift(p: Point, d: nat, k: int): Point
    requires d < 4
  {
    (p.0 + k * Delta(d).0, p.1 + k * Delta(d).1)
  }

  /** `lines.get(i)?.get(j)?` succeeds: a negative coordinate becomes a
      huge `usize` and fails too. */
  predicate InGrid(grid: Grid, p: Point)
  {
    0 <= p.0 < |grid| && 0 <= p.1 < |grid[p.0]|
  }

  // ---------------------------------------------------------------------
  // Parsing
  // ---------------------------------------------------------------------

  /** `((c as u8) - b'0') as i32`: the byte minus 48; a byte below `'0'`
      overflows the `u8` subtraction and panics. */
  function Digit(c: char): (r: Option<int>)
    ensures r.Some? <==> ByteChar(c) as int >= 48
    ensures r.Some? ==> 0 <= r.value < 208 && r.value == ByteChar(c) as int - 48
  {
    var b := ByteChar(c) as int;
    if b < 48 then None else Some(b - 48)
  }

  /** One line as its digits; None if some character panics. */
  function ParseRow(line: string): (r: Option<seq<int>>)
    ensures r.Some? <==> forall j :: 0 <= j < |line| ==> Digit(line[j]).Some?
    ensures r.Some? ==> |r.value| == |line| && forall j :: 0 <= j < |line| ==> Digit(line[j]) == Some(r.value[j])
  {
    var opts := seq(|line|, j requires 0 <= j < |line| => Digit(line[j]));
    CollectExact(opts);
    assert forall j :: 0 <= j < |line| ==> (opts[j].Some? <==> Digit(line[j]).Some?);
    Collect(opts)
  }

  /** Every line as its digits (`parse_input`). */
  function ParseGrid(lines: seq<string>): (r: Option<Grid>)
    ensures r.Some? <==> forall i :: 0 <= i < |lines| ==> ParseRow(lines[i]).Some?
    ensures r.Some? ==> |r.value| == |lines| && forall i :: 0 <= i < |lines| ==> ParseRow(lines[i]) == Some(r.value[i])
  {
    var opts := seq(|lines|, i requires 0 <= i < |lines| => ParseRow(lines[i]));
    CollectExact(opts);
    assert forall i :: 0 <= i < |lines| ==> (opts[i].Some? <==> ParseRow(lines[i]).Some?);
    Collect(opts)
  }

  // ---------------------------------------------------------------------
  // Moves
  // ---------------------------------------------------------------------

  /** `MIN_STEPS` and `MAX_STEPS`. */
  datatype Rules = Rules(min: nat, max: nat)

  const Part1Rules := Rules(1, 3)
  const Part2Rules := Rules(4, 10)

  predicate Sensible(rules: Rules)
  {
    1 <= rules.min <= rules.max
  }

  /** A queue entry: the loss so far, the streak, the cell, and the index
      of the direction it came in by. */
  datatype Entry = Entry(loss: int, streak: int, pos: Point, dir: nat)

  /** A candidate step: the direction taken, the landing cell and the loss
      of the cells entered. */
  datatype Move = Move(dir: nat, to: Point, loss: int)

  /** The `1..=MIN_STEPS` sum of a turn: the losses of the first k cells in
      direction d from p; a cell outside the grid panics. */
  function TurnLoss(grid: Grid, p: Point, d: nat, k: nat): Option<int>
    requires d < 4
  {
    if k == 0 then Some(0)
    else
      match TurnLoss(grid, p, d, k - 1)
      case None => None
      case Some(s) =>
        var q := Shift(p, d, k);
        if InGrid(grid, q) then Some(s + grid[q.0][q.1]) else None
  }

  /** The `filter_map` closure for direction `ind`: `Some(None)` drops it,
      `None` panics. Reversing is dropped, going straight once the streak
      reaches `MAX_STEPS` is dropped, a turn moves `MIN_STEPS` cells and
      a straight step one, each dropped if it lands outside the grid. */
  function MoveFor(grid: Grid, rules: Rules, e: Entry, ind: nat): Option<Option<Move>>
    requires ind < 4
  {
    if ind == (e.dir + 2) % 4 then Some(None)
    else if ind == e.dir && e.streak == rules.max then Some(None)
    else if ind != e.dir then
      var to := Shift(e.pos, ind, rules.min);
      if !InGrid(grid, to) then Some(None)
      else
        match TurnLoss(grid, e.pos, ind, rules.min)
        case None => None
        case Some(loss) => Some(Some(Move(ind, to, loss)))
    else
      var to := Shift(e.pos, ind, 1);
      if !InGrid(grid, to) then Some(None)
      else Some(Some(Move(ind, to, grid[to.0][to.1])))
  }

  /** The candidate steps from e in directions ind..3, in direction
      order; None if one of them panics. */
  function MovesFrom(grid: Grid, rules: Rules, e: Entry, ind: nat): Option<seq<Move>>
    requires ind <= 4
    decreases 4 - ind
  {
    if ind == 4 then Some([])
    else
      match MoveFor(grid, rules, e, ind)
      case None => None
      case Some(opt) =>
        match MovesFrom(grid, rules, e, ind + 1)
        case None => None
        case Some(rest) => Some((if opt.Some? then [opt.value] else []) + rest)
  }

  /** The candidate steps from e, the `filter_map` over all four
      directions. */
  function Moves(grid: Grid, rules: Rules, e: Entry): Option<seq<Move>>
  {
    MovesFrom(grid, rules, e, 0)
  }

  /** The streak after a step: one more going straight, `MIN_STEPS` after
      a turn. */
  function NextStreak(rules: Rules, e: Entry, mv: Move): int
  {
    if mv.dir == e.dir then e.streak + 1 else rules.min
  }

  /** The entry a step leads to. */
  function Advance(rules: Rules, e: Entry, mv: Move): Entry
  {
    Entry(e.loss + mv.loss, NextStreak(rules, e, mv), mv.to, mv.dir)
  }

  /** How many cells a step in direction ind moves: one going straight,
      `MIN_STEPS` on a turn. */
  function Span(rules: Rules, e: Entry, ind: nat): int
  {
    if ind == e.dir then 1 else rules.min
  }

  /** A step the rules allow from e: it does not reverse, goes straight
      only below `MAX_STEPS`, lands `Span` cells away inside the grid, and
      loses what the cells it enters hold. */
  predicate Allowed(grid: Grid, rules: Rules, e: Entry, mv: Move)
  {
    && mv.dir < 4
    && mv.dir != (e.dir + 2) % 4
    && !(mv.dir == e.dir && e.streak == rules.max)
    && mv.to == Shift(e.pos, mv.dir, Span(rules, e, mv.dir))
    && InGrid(grid, mv.to)
    && Span(rules, e, mv.dir) >= 0
    && TurnLoss(grid, e.pos, mv.dir, Span(rules, e, mv.dir)) == Some(mv.loss)
  }

  /** The steps generated are exactly the allowed ones. */
  lemma MovesMeaning(grid: Grid, rules: Rules, e: Entry)
    requires Moves(grid, rules, e).Some?
    ensures forall mv :: mv in Moves(grid, rules, e).value <==> Allowed(grid, rules, e, mv)
  {
    MovesFromMeaning(grid, rules, e, 0);
  }

  /** The steps generated from direction ind on are exactly the allowed
      ones in those directions. */
  lemma {:induction false} MovesFromMeaning(grid: Grid, rules: Rules, e: Entry, ind: nat)
    requires ind <= 4 && MovesFrom(grid, rules, e, ind).Some?
    ensures forall mv :: mv in MovesFrom(grid, rules, e, ind).value <==> Allowed(grid, rules, e, mv) && ind <= mv.dir
    decreases 4 - ind
  {
    if ind < 4 {
      MovesFromMeaning(grid, rules, e, ind + 1);
      var opt := MoveFor(grid, rules, e, ind).value;
      forall mv
        ensures mv in MovesFrom(grid, rules, e, ind).value <==> Allowed(grid, rules, e, mv) && ind <= mv.dir
      {
        MoveForMeaning(grid, rules, e, ind, mv);
      }
    }
  }

  /** The closure for one direction yields exactly the allowed step in
      that direction. */
  lemma MoveForMeaning(grid: Grid, rules: Rules, e: Entry, ind: nat, mv: Move)
    requires ind < 4
    ensures MoveFor(grid, rules, e, ind) == Some(Some(mv)) <==> Allowed(grid, rules, e, mv) && mv.dir == ind
  {
    if ind == e.dir && InGrid(grid, Shift(e.pos, ind, 1)) {
      var to := Shift(e.pos, ind, 1);
      assert TurnLoss(grid, e.pos, ind, 1) == Some(0 + grid[to.0][to.1]);
    }
  }

  /** Every row as long as the first. */
  predicate Rectangular(grid: Grid)
  {
    grid != [] && forall i :: 0 <= i < |grid| ==> |grid[i]| == |grid[0]|
  }

  /** On a rectangular grid the turn sum never panics: the cells between
      two cells inside lie inside. */
  lemma {:induction false} TurnLossInside(grid: Grid, p: Point, d: nat, n: nat, k: nat)
    requires Rectangular(grid) && d < 4 && k <= n
    requires InGrid(grid, p) && InGrid(grid, Shift(p, d, n))
    ensures TurnLoss(grid, p, d, k).Some?
  {
    if k > 0 {
      TurnLossInside(grid, p, d, n, k - 1);
      ShiftBetween(p, d, k, n);
      var q := Shift(p, d, k);
      assert 0 <= q.0 < |grid| && 0 <= q.1 < |grid[0]|;
    }
  }

  /** A cell k steps along lies between the start and the cell n steps
      along, for k <= n. */
  lemma ShiftBetween(p: Point, d: nat, k: nat, n: nat)
    requires d < 4 && k <= n
    ensures var q, r := Shift(p, d, k), Shift(p, d, n);
      (p.0 <= q.0 <= r.0 || r.0 <= q.0 <= p.0) && (p.1 <= q.1 <= r.1 || r.1 <= q.1 <= p.1)
  {
    if d == 0 {
      assert Shift(p, d, k) == (p.0 - k, p.1) && Shift(p, d, n) == (p.0 - n, p.1);
    } else if d == 1 {
      assert Shift(p, d, k) == (p.0, p.1 + k) && Shift(p, d, n) == (p.0, p.1 + n);
    } else if d == 2 {
      assert Shift(p, d, k) == (p.0 + k, p.1) && Shift(p, d, n) == (p.0 + n, p.1);
    } else {
      assert Shift(p, d, k) == (p.0, p.1 - k) && Shift(p, d, n) == (p.0, p.1 - n);
    }
  }

  /** So on a rectangular grid no step from a cell inside panics. */
  lemma MovesInside(grid: Grid, rules: Rules, e: Entry)
    requires Rectangular(grid) && InGrid(grid, e.pos)
    ensures Moves(grid, rules, e).Some?
  {
    MovesFromInside(grid, rules, e, 0);
  }

  /** Likewise from direction ind on. */
  lemma {:induction false} MovesFromInside(grid: Grid, rules: Rules, e: Entry, ind: nat)
    requires Rectangular(grid) && InGrid(grid, e.pos) && ind <= 4
    ensures MovesFrom(grid, rules, e, ind).Some?
    decreases 4 - ind
  {
    if ind < 4 {
      MovesFromInside(grid, rules, e, ind + 1);
      var to := Shift(e.pos, ind, rules.min);
      if InGrid(grid, to) {
        TurnLossInside(grid, e.pos, ind, rules.min, rules.min);
      }
    }
  }

  /** The streak after an allowed step lies in `MIN_STEPS..=MAX_STEPS`, so
      it always indexes the `ans` table. */
  lemma NextStreakBounds(grid: Grid, rules: Rules, e: Entry, mv: Move)
    requires Sensible(rules) && 0 <= e.streak <= rules.max && Allowed(grid, rules, e, mv)
    ensures mv.dir == e.dir ==> NextStreak(rules, e, mv) == e.streak + 1
    ensures mv.dir != e.dir ==> NextStreak(rules, e, mv) == rules.min
    ensures 1 <= NextStreak(rules, e, mv) <= rules.max
  {
  }

  // ---------------------------------------------------------------------
  // The priority queue
  // ---------------------------------------------------------------------

  /** The heap's order on `(Reverse(loss), Reverse(streak), pos, dir)`:
      a pops before b. */
  predicate Above(a: Entry, b: Entry)
  {
    a.loss < b.loss
    || (a.loss == b.loss && a.streak < b.streak)
    || (a.loss == b.loss && a.streak == b.streak && a.pos.0 > b.pos.0)
    || (a.loss == b.loss && a.streak == b.streak && a.pos.0 == b.pos.0 && a.pos.1 > b.pos.1)
    || (a.loss == b.loss && a.streak == b.streak && a.pos == b.pos && a.dir > b.dir)
  }

  /** The first entry among q[..k] that no other entry there pops before. */
  function Top(q: seq<Entry>, k: nat): (b: nat)
    requires 0 < k <= |q|
    ensures b < k && forall i :: 0 <= i < k ==> !Above(q[i], q[b])
  {
    if k == 1 then 0
    else
      var b := Top(q, k - 1);
      if Above(q[k - 1], q[b]) then k - 1 else b
  }

  /** `prio.pop()`: the entry that pops first and the queue without it. */
  method Pop(q: seq<Entry>) returns (e: Entry, rest: seq<Entry>)
    requires q != []
    ensures var b := Top(q, |q|); e == q[b] && rest == q[..b] + q[b + 1..]
  {
    var b := 0;
    var k := 1;
    while k < |q|
      invariant 1 <= k <= |q| && b == Top(q, k)
    {
      if Above(q[k], q[b]) {
        b := k;
      }
      k := k + 1;
    }
    e, rest := q[b], q[..b] + q[b + 1..];
  }

  // ---------------------------------------------------------------------
  // Relaxation
  // ---------------------------------------------------------------------

  /** A slot of the `ans` table: `ans[i][j][streak][dir]`. */
  type Slot = (Point, int, nat)

  /** The recorded losses; a missing slot is `None`. */
  type Table = map<Slot, int>

  /** The `found_best_case` loop from streak s: some recorded loss for the
      landing cell and direction with streak in `s..=e.streak` is at most
      the new loss. Reading a streak beyond `MAX_STEPS` panics. */
  function Found(table: Table, rules: Rules, e: Entry, mv: Move, s: int): Option<bool>
    decreases e.streak + 1 - s
  {
    if s > e.streak then Some(false)
    else if s > rules.max then None
    else if (mv.to, s, mv.dir) in table && e.loss + mv.loss >= table[(mv.to, s, mv.dir)] then Some(true)
    else Found(table, rules, e, mv, s + 1)
  }

  /** One pass of the `for` loop over the steps: a landing cell beyond the
      table's width panics; the new state is recorded and queued unless
      `found_best_case`; storing beyond `MAX_STEPS` panics. */
  function Relax(width: nat, rules: Rules, e: Entry, mv: Move, table: Table, prio: seq<Entry>)
    : Option<(Table, seq<Entry>)>
  {
    if mv.to.1 >= width then None
    else
      match Found(table, rules, e, mv, rules.min)
      case None => None
      case Some(true) => Some((table, prio))
      case Some(false) =>
        var next := Advance(rules, e, mv);
        if next.streak > rules.max then None
        else Some((table[(mv.to, next.streak, mv.dir) := next.loss], prio + [next]))
  }

  /** The `for` loop over the first k steps. */
  function RelaxAll(width: nat, rules: Rules, e: Entry, moves: seq<Move>, k: nat, table: Table, prio: seq<Entry>)
    : Option<(Table, seq<Entry>)>
    requires k <= |moves|
  {
    if k == 0 then Some((table, prio))
    else
      match RelaxAll(width, rules, e, moves, k - 1, table, prio)
      case None => None
      case Some((t, q)) => Relax(width, rules, e, moves[k - 1], t, q)
  }

  /** One round of the `while let` loop: pop, generate the steps, relax. */
  function Round(grid: Grid, width: nat, rules: Rules, table: Table, prio: seq<Entry>): Option<(Table, seq<Entry>)>
    requires prio != []
  {
    var b := Top(prio, |prio|);
    var e := prio[b];
    match Moves(grid, rules, e)
    case None => None
    case Some(moves) => RelaxAll(width, rules, e, moves, |moves|, table, prio[..b] + prio[b + 1..])
  }

  /** The `while let` loop until the queue is empty, for at most `fuel`
      rounds; None if a round panics or the fuel runs out. */
  function Run(grid: Grid, width: nat, rules: Rules, table: Table, prio: seq<Entry>, fuel: nat): Option<Table>
    decreases fuel, 2
  {
    if prio == [] then Some(table) else Continue(grid, width, rules, table, prio, fuel)
  }

  /** The loop with a nonempty queue: out of fuel, or one more round. */
  function Continue(grid: Grid, width: nat, rules: Rules, table: Table, prio: seq<Entry>, fuel: nat): Option<Table>
    requires prio != []
    decreases fuel, 1
  {
    if fuel == 0 then None else Proceed(grid, width, rules, table, prio, fuel)
  }

  /** One round, then the rest of the loop. */
  function Proceed(grid: Grid, width: nat, rules: Rules, table: Table, prio: seq<Entry>, fuel: nat): Option<Table>
    requires prio != [] && fuel > 0
    decreases fuel, 0
  {
    match Round(grid, width, rules, table, prio)
    case None => None
    case Some((t, q)) => Run(grid, width, rules, t, q, fuel - 1)
  }

  /** The `found_best_case` loop, breaking at the first recorded loss that
      is no worse. */
  method FindBest(table: Table, rules: Rules, e: Entry, mv: Move) returns (r: Option<bool>)
    ensures r == Found(table, rules, e, mv, rules.min)
  {
    var s: int := rules.min;
    while s <= e.streak
      invariant Found(table, rules, e, mv, s) == Found(table, rules, e, mv, rules.min)
      decreases e.streak + 1 - s
    {
      if s > rules.max {
        return None;
      }
      if (mv.to, s, mv.dir) in table && e.loss + mv.loss >= table[(mv.to, s, mv.dir)] {
        return Some(true);
      }
      s := s + 1;
    }
    r := Some(false);
  }

  /** The `for` loop over the steps from e. */
  method RelaxSteps(width: nat, rules: Rules, e: Entry, moves: seq<Move>, table0: Table, prio0: seq<Entry>)
    returns (r: Option<(Table, seq<Entry>)>)
    ensures r == RelaxAll(width, rules, e, moves, |moves|, table0, prio0)
  {
    var table, prio := table0, prio0;
    var k := 0;
    while k < |moves|
      invariant k <= |moves|
      invariant RelaxAll(width, rules, e, moves, k, table0, prio0) == Some((table, prio))
    {
      var mv := moves[k];
      if mv.to.1 >= width {
        RelaxAllNone(width, rules, e, moves, k + 1, |moves|, table0, prio0);
        return None;
      }
      var found := FindBest(table, rules, e, mv);
      if found.None? {
        RelaxAllNone(width, rules, e, moves, k + 1, |moves|, table0, prio0);
        return None;
      }
      if !found.value {
        var next := Advance(rules, e, mv);
        if next.streak > rules.max {
          RelaxAllNone(width, rules, e, moves, k + 1, |moves|, table0, prio0);
          return None;
        }
        table := table[(mv.to, next.streak, mv.dir) := next.loss];
        prio := prio + [next];
      }
      k := k + 1;
    }
    r := Some((table, prio));
  }

  /** A panic in the loop over the steps ends it. */
  lemma {:induction false} RelaxAllNone(width: nat, rules: Rules, e: Entry, moves: seq<Move>, k: nat, n: nat,
                                        table: Table, prio: seq<Entry>)
    requires k <= n <= |moves| && RelaxAll(width, rules, e, moves, k, table, prio).None?
    ensures RelaxAll(width, rules, e, moves, n, table, prio).None?
    decreases n - k
  {
    if k < n {
      RelaxAllNone(width, rules, e, moves, k + 1, n, table, prio);
    }
  }

  /** The loop with a nonempty queue, one round at a time. */
  lemma RunRound(grid: Grid, width: nat, rules: Rules, table: Table, prio: seq<Entry>, fuel: nat)
    requires prio != []
    ensures fuel == 0 ==> Run(grid, width, rules, table, prio, fuel).None?
    ensures fuel > 0 ==>
      Run(grid, width, rules, table, prio, fuel) ==
        (match Round(grid, width, rules, table, prio)
         case None => None
         case Some((t, q)) => Run(grid, width, rules, t, q, fuel - 1))
  {
    if fuel > 0 {
      assert Continue(grid, width, rules, table, prio, fuel) == Proceed(grid, width, rules, table, prio, fuel);
    }
  }

  /** The `while let` loop of `solve`, for at most `fuel` rounds. */
  method Search(grid: Grid, width: nat, rules: Rules, table0: Table, prio0: seq<Entry>, fuel: nat)
    returns (r: Option<Table>)
    ensures r == Run(grid, width, rules, table0, prio0, fuel)
  {
    var table, prio, left := table0, prio0, fuel;
    while prio != []
      invariant Run(grid, width, rules, table, prio, left) == Run(grid, width, rules, table0, prio0, fuel)
      decreases left
    {
      RunRound(grid, width, rules, table, prio, left);
      if left == 0 {
        return None;
      }
      var e, rest := Pop(prio);
      var moves := Moves(grid, rules, e);
      if moves.None? {
        return None;
      }
      var next := RelaxSteps(width, rules, e, moves.value, table, rest);
      if next.None? {
        return None;
      }
      table, prio := next.value.0, next.value.1;
      left := left - 1;
    }
    r := Some(table);
  }

  // ---------------------------------------------------------------------
  // What the search keeps
  // ---------------------------------------------------------------------

  /** A recorded loss for the landing cell and direction with streak t that
      is no better than the new one. */
  predicate NoWorse(table: Table, e: Entry, mv: Move, t: int)
  {
    (mv.to, t, mv.dir) in table && e.loss + mv.loss >= table[(mv.to, t, mv.dir)]
  }

  /** `found_best_case` holds exactly when some streak in `s..=streak`
      has a recorded loss no better than the new one; it cannot panic while
      the streak is at most `MAX_STEPS`. */
  lemma {:induction false} FoundMeaning(table: Table, rules: Rules, e: Entry, mv: Move, s: int)
    ensures e.streak <= rules.max ==> Found(table, rules, e, mv, s).Some?
    ensures Found(table, rules, e, mv, s).Some? ==>
      (Found(table, rules, e, mv, s).value <==> exists t :: s <= t <= e.streak && NoWorse(table, e, mv, t))
    decreases e.streak + 1 - s
  {
    if s <= e.streak && s <= rules.max && !NoWorse(table, e, mv, s) {
      FoundMeaning(table, rules, e, mv, s + 1);
      assert forall t :: s <= t <= e.streak && NoWorse(table, e, mv, t) ==> s + 1 <= t;
    }
  }

  /** Relaxing one step from an entry whose streak is in range: it panics
      only for a landing cell beyond the table's width; otherwise the
      table and queue stay as they were when a recorded loss with streak
      in `MIN_STEPS..=streak` is no better, and else the new state is
      recorded in its slot and queued, nothing else changing. */
  lemma RelaxMeaning(width: nat, rules: Rules, e: Entry, mv: Move, table: Table, prio: seq<Entry>)
    requires Sensible(rules) && 0 <= e.streak <= rules.max
    requires !(mv.dir == e.dir && e.streak == rules.max)
    ensures Relax(width, rules, e, mv, table, prio).None? <==> mv.to.1 >= width
    ensures mv.to.1 < width && (exists t :: rules.min <= t <= e.streak && NoWorse(table, e, mv, t)) ==>
      Relax(width, rules, e, mv, table, prio) == Some((table, prio))
    ensures mv.to.1 < width && !(exists t :: rules.min <= t <= e.streak && NoWorse(table, e, mv, t)) ==>
      var next := Advance(rules, e, mv);
      rules.min <= next.streak <= rules.max || next.streak == e.streak + 1 <= rules.max
    ensures mv.to.1 < width && !(exists t :: rules.min <= t <= e.streak && NoWorse(table, e, mv, t)) ==>
      var next := Advance(rules, e, mv);
      Relax(width, rules, e, mv, table, prio)
        == Some((table[(mv.to, next.streak, mv.dir) := e.loss + mv.loss], prio + [next]))
  {
    FoundMeaning(table, rules, e, mv, rules.min);
  }

  /** Every queued entry has a streak within the table, a known direction
      and a cell inside the grid. */
  predicate Bounded(grid: Grid, rules: Rules, prio: seq<Entry>)
  {
    forall k :: 0 <= k < |prio| ==> 0 <= prio[k].streak <= rules.max && prio[k].dir < 4 && InGrid(grid, prio[k].pos)
  }

  /** A round keeps the queue bounded, so the search never reads or
      stores `ans` beyond `MAX_STEPS`, and on a rectangular grid a round
      never panics. */
  lemma RoundBounded(grid: Grid, rules: Rules, table: Table, prio: seq<Entry>)
    requires Sensible(rules) && prio != [] && Bounded(grid, rules, prio)
    ensures Rectangular(grid) ==> Round(grid, Width(grid), rules, table, prio).Some?
    ensures Round(grid, Width(grid), rules, table, prio).Some? ==>
      Bounded(grid, rules, Round(grid, Width(grid), rules, table, prio).value.1)
  {
    var b := Top(prio, |prio|);
    var e := prio[b];
    var rest := prio[..b] + prio[b + 1..];
    assert forall k :: 0 <= k < |rest| ==> rest[k] in prio;
    if Rectangular(grid) {
      MovesInside(grid, rules, e);
    }
    if Moves(grid, rules, e).Some? {
      var moves := Moves(grid, rules, e).value;
      MovesMeaning(grid, rules, e);
      RelaxAllBounded(grid, rules, e, moves, |moves|, table, rest);
    }
  }

  lemma {:induction false} RelaxAllBounded(grid: Grid, rules: Rules, e: Entry, moves: seq<Move>, k: nat,
                                           table: Table, prio: seq<Entry>)
    requires Sensible(rules) && k <= |moves| && Bounded(grid, rules, prio) && 0 <= e.streak <= rules.max
    requires forall mv :: mv in moves ==> Allowed(grid, rules, e, mv)
    ensures Rectangular(grid) ==> RelaxAll(Width(grid), rules, e, moves, k, table, prio).Some?
    ensures RelaxAll(Width(grid), rules, e, moves, k, table, prio).Some? ==>
      Bounded(grid, rules, RelaxAll(Width(grid), rules, e, moves, k, table, prio).value.1)
  {
    if k > 0 {
      RelaxAllBounded(grid, rules, e, moves, k - 1, table, prio);
      var mv := moves[k - 1];
      assert Allowed(grid, rules, e, mv);
      match RelaxAll(Width(grid), rules, e, moves, k - 1, table, prio)
      case None =>
      case Some((t, q)) =>
        RelaxMeaning(Width(grid), rules, e, mv, t, q);
        NextStreakBounds(grid, rules, e, mv);
        if Relax(Width(grid), rules, e, mv, t, q).Some? {
          var q' := Relax(Width(grid), rules, e, mv, t, q).value.1;
          assert q' == q || q' == q + [Advance(rules, e, mv)];
        }
    }
  }

  /** A legal route: it begins at a seed and every entry follows from the
      one before by an allowed step. */
  ghost predicate Route(grid: Grid, rules: Rules, starts: seq<Entry>, r: seq<Entry>)
  {
    && |r| > 0
    && r[0] in starts
    && forall k :: 0 <= k < |r| - 1 ==> Follows(grid, rules, r[k], r[k + 1])
  }

  /** f is where an allowed step from e leads. */
  ghost predicate Follows(grid: Grid, rules: Rules, e: Entry, f: Entry)
  {
    exists mv :: Allowed(grid, rules, e, mv) && f == Advance(rules, e, mv)
  }

  /** Some legal route ends in e: its loss is what the route's cells hold. */
  ghost predicate Reached(grid: Grid, rules: Rules, starts: seq<Entry>, e: Entry)
  {
    exists r :: Route(grid, rules, starts, r) && r[|r| - 1] == e
  }

  /** The entry a recorded slot stands for. */
  function AtSlot(table: Table, slot: Slot): Entry
    requires slot in table
  {
    Entry(table[slot], slot.1, slot.0, slot.2)
  }

  /** Every queued entry and every recorded loss comes from a legal route. */
  ghost predicate Sound(grid: Grid, rules: Rules, starts: seq<Entry>, table: Table, prio: seq<Entry>)
  {
    (forall k :: 0 <= k < |prio| ==> Reached(grid, rules, starts, prio[k])) && SoundTable(grid, rules, starts, table)
  }

  /** Every recorded loss comes from a legal route. */
  ghost predicate SoundTable(grid: Grid, rules: Rules, starts: seq<Entry>, table: Table)
  {
    forall slot :: slot in table ==> Reached(grid, rules, starts, AtSlot(table, slot))
  }

  /** A route continues by an allowed step. */
  lemma ReachedStep(grid: Grid, rules: Rules, starts: seq<Entry>, e: Entry, mv: Move)
    requires Reached(grid, rules, starts, e) && Allowed(grid, rules, e, mv)
    ensures Reached(grid, rules, starts, Advance(rules, e, mv))
  {
    var r :| Route(grid, rules, starts, r) && r[|r| - 1] == e;
    var r' := r + [Advance(rules, e, mv)];
    assert forall k :: 0 <= k < |r| ==> r'[k] == r[k];
    assert Follows(grid, rules, r'[|r| - 1], r'[|r|]);
    assert Route(grid, rules, starts, r');
  }

  lemma {:induction false} RelaxAllSound(grid: Grid, width: nat, rules: Rules, starts: seq<Entry>, e: Entry,
                                         moves: seq<Move>, k: nat, table: Table, prio: seq<Entry>)
    requires k <= |moves| && Sound(grid, rules, starts, table, prio) && Reached(grid, rules, starts, e)
    requires forall mv :: mv in moves ==> Allowed(grid, rules, e, mv)
    requires RelaxAll(width, rules, e, moves, k, table, prio).Some?
    ensures var (t, q) := RelaxAll(width, rules, e, moves, k, table, prio).value; Sound(grid, rules, starts, t, q)
  {
    if k > 0 {
      RelaxAllSound(grid, width, rules, starts, e, moves, k - 1, table, prio);
      var (t, q) := RelaxAll(width, rules, e, moves, k - 1, table, prio).value;
      var mv := moves[k - 1];
      var next := Advance(rules, e, mv);
      ReachedStep(grid, rules, starts, e, mv);
      var (t', q') := Relax(width, rules, e, mv, t, q).value;
      if t' != t {
        assert t' == t[(mv.to, next.streak, mv.dir) := next.loss] && q' == q + [next];
        assert AtSlot(t', (mv.to, next.streak, mv.dir)) == next;
        assert forall slot :: slot in t' && slot != (mv.to, next.streak, mv.dir) ==> slot in t && AtSlot(t', slot) == AtSlot(t, slot);
      } else {
        assert q' == q || q' == q + [next];
      }
    }
  }

  /** A round keeps the search sound. */
  lemma RoundSound(grid: Grid, width: nat, rules: Rules, starts: seq<Entry>, table: Table, prio: seq<Entry>)
    requires prio != [] && Sound(grid, rules, starts, table, prio)
    requires Round(grid, width, rules, table, prio).Some?
    ensures var (t, q) := Round(grid, width, rules, table, prio).value; Sound(grid, rules, starts, t, q)
  {
    var b := Top(prio, |prio|);
    var e := prio[b];
    var rest := prio[..b] + prio[b + 1..];
    assert forall k :: 0 <= k < |rest| ==> rest[k] in prio;
    assert forall x :: x in prio ==> Reached(grid, rules, starts, x);
    var moves := Moves(grid, rules, e).value;
    MovesMeaning(grid, rules, e);
    RelaxAllSound(grid, width, rules, starts, e, moves, |moves|, table, rest);
  }

  /** So is the whole search: every loss it records is the loss of a
      legal route. */
  lemma {:induction false} RunSound(grid: Grid, width: nat, rules: Rules, starts: seq<Entry>, table: Table,
                                    prio: seq<Entry>, fuel: nat, result: Table)
    requires Sound(grid, rules, starts, table, prio) && Run(grid, width, rules, table, prio, fuel) == Some(result)
    ensures SoundTable(grid, rules, starts, result)
    decreases fuel
  {
    if prio != [] {
      var t, q := RunStep(grid, width, rules, starts, table, prio, fuel, result);
      RunSound(grid, width, rules, starts, t, q, fuel - 1, result);
    }
  }

  /** One round of a search that goes on: the next table and queue, from
      which the rest of the search ends the same way. */
  lemma RunStep(grid: Grid, width: nat, rules: Rules, starts: seq<Entry>, table: Table, prio: seq<Entry>, fuel: nat,
                result: Table)
    returns (t: Table, q: seq<Entry>)
    requires prio != [] && Sound(grid, rules, starts, table, prio)
    requires Run(grid, width, rules, table, prio, fuel) == Some(result)
    ensures fuel > 0 && Sound(grid, rules, starts, t, q) && Run(grid, width, rules, t, q, fuel - 1) == Some(result)
  {
    assert Continue(grid, width, rules, table, prio, fuel) == Some(result);
    assert Proceed(grid, width, rules, table, prio, fuel) == Some(result);
    RoundSound(grid, width, rules, starts, table, prio);
    var next := Round(grid, width, rules, table, prio).value;
    t, q := next.0, next.1;
  }

  // ---------------------------------------------------------------------
  // The answer
  // ---------------------------------------------------------------------

  /** `ans` at a slot. */
  function Recorded(table: Table, slot: Slot): Option<int>
  {
    if slot in table then Some(table[slot]) else None
  }

  /** The recorded losses of the corner cell for streaks below n, streak
      by streak and direction by direction. */
  function CornerLosses(table: Table, corner: Point, n: nat): (r: seq<int>)
    ensures forall x :: x in r <==>
      exists s, d :: 0 <= s < n && 0 <= d < 4 && Recorded(table, (corner, s, d)) == Some(x)
  {
    if n == 0 then []
    else
      var s := n - 1;
      var opts := [Recorded(table, (corner, s, 0)), Recorded(table, (corner, s, 1)),
                   Recorded(table, (corner, s, 2)), Recorded(table, (corner, s, 3))];
      PresentMembers(opts);
      CornerLosses(table, corner, n - 1) + Present(opts)
  }

  /** The answer extraction: the least loss recorded at the last cell of
      the last row of `ans` (n rows of the first line's width m), minus the
      first cell's loss; an empty grid or first line panics at `expect`,
      and the `unwrap` panics if nothing was recorded there. */
  function Answer(grid: Grid, rules: Rules, table: Table): (r: Option<int>)
  {
    if grid == [] || grid[0] == [] then None
    else
      var losses := CornerLosses(table, (|grid| - 1, |grid[0]| - 1), rules.max + 1);
      if losses == [] then None else Some(MinOf(losses) - grid[0][0])
  }

  /** The corner of the `ans` table. */
  function Corner(grid: Grid): Point
  {
    if grid == [] then (-1, -1) else (|grid| - 1, |grid[0]| - 1)
  }

  /** The answer is the least recorded loss at the corner, less the first
      cell's, and is missing exactly when no loss is recorded there. */
  lemma AnswerMeaning(grid: Grid, rules: Rules, table: Table)
    requires grid != [] && grid[0] != []
    ensures Answer(grid, rules, table).Some? <==>
      exists s, d :: 0 <= s <= rules.max && 0 <= d < 4 && (Corner(grid), s, d) in table
    ensures Answer(grid, rules, table).Some? ==>
      (exists s, d :: 0 <= s <= rules.max && 0 <= d < 4 && (Corner(grid), s, d) in table
        && table[(Corner(grid), s, d)] == Answer(grid, rules, table).value + grid[0][0])
      && forall s, d :: 0 <= s <= rules.max && 0 <= d < 4 && (Corner(grid), s, d) in table ==>
        Answer(grid, rules, table).value + grid[0][0] <= table[(Corner(grid), s, d)]
  {
    var corner := Corner(grid);
    var losses := CornerLosses(table, corner, rules.max + 1);
    if exists s, d :: 0 <= s <= rules.max && 0 <= d < 4 && (corner, s, d) in table {
      var s, d :| 0 <= s <= rules.max && 0 <= d < 4 && (corner, s, d) in table;
      assert Recorded(table, (corner, s, d)) == Some(table[(corner, s, d)]);
      assert table[(corner, s, d)] in losses;
    }
    if losses != [] {
      var m := MinOf(losses);
      assert m in losses;
      forall s, d | 0 <= s <= rules.max && 0 <= d < 4 && (corner, s, d) in table
        ensures m <= table[(corner, s, d)]
      {
        assert Recorded(table, (corner, s, d)) == Some(table[(corner, s, d)]);
        assert table[(corner, s, d)] in losses;
      }
    }
  }

  /** `solve`: the search, then the answer extraction. */
  method Solve(grid: Grid, rules: Rules, table: Table, prio: seq<Entry>, fuel: nat) returns (r: Option<int>)
    ensures r == match Run(grid, Width(grid), rules, table, prio, fuel)
      case None => None
      case Some(t) => Answer(grid, rules, t)
  {
    var t := Search(grid, Width(grid), rules, table, prio, fuel);
    if t.None? {
      return None;
    }
    r := Answer(grid, rules, t.value);
  }

  /** The width of the `ans` table: the first line's length. */
  function Width(grid: Grid): nat
  {
    if grid == [] then 0 else |grid[0]|
  }

  /** Every seeded slot holds a seed. */
  lemma {:induction false} SeededFrom(starts: seq<Entry>)
    ensures forall slot :: slot in Seeded(starts) ==> AtSlot(Seeded(starts), slot) in starts
  {
    if starts != [] {
      var init := starts[..|starts| - 1];
      SeededFrom(init);
      assert forall x :: x in init ==> x in starts;
    }
  }

  /** So the seeded search starts sound. */
  lemma SeededSound(grid: Grid, rules: Rules, starts: seq<Entry>)
    ensures Sound(grid, rules, starts, Seeded(starts), starts)
  {
    SeededFrom(starts);
    forall x | x in starts
      ensures Reached(grid, rules, starts, x)
    {
      assert Route(grid, rules, starts, [x]);
    }
  }

  /** The answer, plus the first cell's loss, is the loss of a legal route
      from a seed to the corner. */
  lemma AnswerIsRoute(grid: Grid, rules: Rules, starts: seq<Entry>, fuel: nat)
    requires grid != [] && grid[0] != []
    requires Run(grid, Width(grid), rules, Seeded(starts), starts, fuel).Some?
    requires Answer(grid, rules, Run(grid, Width(grid), rules, Seeded(starts), starts, fuel).value).Some?
    ensures ReachesCorner(grid, rules, starts,
      Answer(grid, rules, Run(grid, Width(grid), rules, Seeded(starts), starts, fuel).value).value + grid[0][0])
  {
    SeededSound(grid, rules, starts);
    var t := Run(grid, Width(grid), rules, Seeded(starts), starts, fuel).value;
    RunSound(grid, Width(grid), rules, starts, Seeded(starts), starts, fuel, t);
    SoundAnswer(grid, rules, starts, t);
  }

  /** The answer read from a sound table is the loss of a legal route. */
  lemma SoundAnswer(grid: Grid, rules: Rules, starts: seq<Entry>, t: Table)
    requires grid != [] && grid[0] != []
    requires SoundTable(grid, rules, starts, t) && Answer(grid, rules, t).Some?
    ensures ReachesCorner(grid, rules, starts, Answer(grid, rules, t).value + grid[0][0])
  {
    AnswerMeaning(grid, rules, t);
    var v := Answer(grid, rules, t).value;
    var s, d :| 0 <= s <= rules.max && 0 <= d < 4 && (Corner(grid), s, d) in t && t[(Corner(grid), s, d)] == v + grid[0][0];
    var slot: Slot := (Corner(grid), s, d);
    assert Reached(grid, rules, starts, AtSlot(t, slot));
    var r: seq<Entry> :| Route(grid, rules, starts, r) && r[|r| - 1] == AtSlot(t, slot);
    assert r[|r| - 1].pos == Corner(grid) && r[|r| - 1].loss == v + grid[0][0];
  }

  /** Some legal route from a seed ends at the corner with this loss. */
  ghost predicate ReachesCorner(grid: Grid, rules: Rules, starts: seq<Entry>, loss: int)
  {
    exists r: seq<Entry> :: Route(grid, rules, starts, r) && r[|r| - 1].pos == Corner(grid) && r[|r| - 1].loss == loss
  }

  // ---------------------------------------------------------------------
  // The two parts
  // ---------------------------------------------------------------------

  /** The seed of part 1: the top-left cell, streak 0, heading right. */
  function Starts1(grid: Grid): seq<Entry>
    requires grid != [] && grid[0] != []
  {
    [Entry(grid[0][0], 0, (0, 0), 1)]
  }

  /** The seeds of part 2: five cells along the first row heading right,
      and five down the first column heading down, each with streak 4. */
  function Starts2(grid: Grid): seq<Entry>
    requires |grid| >= 5 && |grid[0]| >= 5 && forall i :: 0 <= i < 5 ==> grid[i] != []
  {
    [Entry(Sum(grid[0][..5]), 4, (0, 4), 1),
     Entry(Sum(seq(5, i requires 0 <= i < 5 => grid[i][0])), 4, (4, 0), 2)]
  }

  /** The table holding exactly the seeds. */
  function Seeded(starts: seq<Entry>): Table
  {
    if starts == [] then map[]
    else
      var e := starts[|starts| - 1];
      Seeded(starts[..|starts| - 1])[(e.pos, e.streak, e.dir) := e.loss]
  }

  /** `part1`: MIN_STEPS 1, MAX_STEPS 3, for at most `fuel` rounds. */
  method Part1(lines: seq<string>, fuel: nat) returns (r: Option<int>)
    ensures ParseGrid(lines).None? || lines == [] || lines[0] == [] ==> r.None?
    ensures ParseGrid(lines).Some? && lines != [] && lines[0] != [] ==>
      var grid := ParseGrid(lines).value;
      (r == match Run(grid, Width(grid), Part1Rules, Seeded(Starts1(grid)), Starts1(grid), fuel)
        case None => None
        case Some(t) => Answer(grid, Part1Rules, t))
      && (r.Some? ==> ReachesCorner(grid, Part1Rules, Starts1(grid), r.value + grid[0][0]))
  {
    var parsed := ParseGrid(lines);
    if parsed.None? || |parsed.value| == 0 || |parsed.value[0]| == 0 {
      return None;
    }
    var grid := parsed.value;
    var starts := Starts1(grid);
    r := Solve(grid, Part1Rules, Seeded(starts), starts, fuel);
    if r.Some? {
      AnswerIsRoute(grid, Part1Rules, starts, fuel);
    }
  }

  /** `part2`: MIN_STEPS 4, MAX_STEPS 10, seeded after the first turn
      either way; the seed sums panic on a grid smaller than 5 by 5. */
  method Part2(lines: seq<string>, fuel: nat) returns (r: Option<int>)
    ensures ParseGrid(lines).None? ==> r.None?
    ensures ParseGrid(lines).Some? ==>
      var grid := ParseGrid(lines).value;
      if |grid| >= 5 && |grid[0]| >= 5 && (forall i :: 0 <= i < 5 ==> grid[i] != []) then
        (r == match Run(grid, Width(grid), Part2Rules, Seeded(Starts2(grid)), Starts2(grid), fuel)
          case None => None
          case Some(t) => Answer(grid, Part2Rules, t))
        && (r.Some? ==> ReachesCorner(grid, Part2Rules, Starts2(grid), r.value + grid[0][0]))
      else r.None?
  {
    var parsed := ParseGrid(lines);
    if parsed.None? {
      return None;
    }
    var grid := parsed.value;
    if !(|grid| >= 5 && |grid[0]| >= 5 && (forall i :: 0 <= i < 5 ==> grid[i] != [])) {
      return None;
    }
    var starts := Starts2(grid);
    r := Solve(grid, Part2Rules, Seeded(starts), starts, fuel);
    if r.Some? {
      AnswerIsRoute(grid, Part2Rules, starts, fuel);
    }
  }
}
