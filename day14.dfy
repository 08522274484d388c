/** Day 14: the platform of round (`O`) and cube (`#`) rocks. Part 1 tilts
    the padded grid north once and reports the load; part 2 runs a billion
    spin cycles, jumping ahead as soon as a state repeats. */
module Day14 {
  import opened Common
  import opened Text
  import opened Day14Grid
  import opened Day14Tilt
  import opened Day14Cycle

  /** `parse_input`: each line as its bytes. */
  function Parse(input: seq<string>): (g: Grid<char>)
    ensures |g| == |input|
    ensures forall i :: 0 <= i < |input| ==> g[i] == Bytes(input[i])
  {
    seq(|input|, i requires 0 <= i < |input| => Bytes(input[i]))
  }

  /** A row of m `#`. */
  function Wall(m: nat): (r: seq<char>)
    ensures |r| == m && forall k :: 0 <= k < m ==> r[k] == '#'
  {
    seq(m, _ => '#')
  }

  /** A row with a `#` added at both ends. */
  function Border(row: seq<char>): (r: seq<char>)
    ensures |r| == |row| + 2 && r[0] == '#' && r[|row| + 1] == '#'
    ensures forall k :: 0 <= k < |row| ==> r[k + 1] == row[k]
  {
    ['#'] + row + ['#']
  }

  /** The rows before the side walls: a wall as wide as the first row
      above and below the grid. */
  function Stack(g: Grid<char>): (r: Grid<char>)
    requires |g| >= 1
    ensures |r| == |g| + 2
  {
    [Wall(|g[0]|)] + g + [Wall(|g[0]|)]
  }

  /** The grid framed by `#`: a wall of `#` above and below, then a `#` at
      both ends of every row. */
  function Pad(g: Grid<char>): (r: Grid<char>)
    requires |g| >= 1
    ensures |r| == |g| + 2
  {
    var rows := Stack(g);
    seq(|rows|, i requires 0 <= i < |rows| => Border(rows[i]))
  }

  /** The padding loop of `part1` and `part2`. */
  method PadLines(g: Grid<char>) returns (lines: Grid<char>)
    requires |g| >= 1
    ensures lines == Pad(g)
  {
    var m := |g[0]|;
    var rows := [Wall(m)] + g + [Wall(m)];
    lines := rows;
    for i := 0 to |lines|
      invariant |lines| == |rows|
      invariant forall k :: 0 <= k < |rows| ==> lines[k] == if k < i then Border(rows[k]) else rows[k]
    {
      lines := lines[i := Border(lines[i])];
    }
  }

  /** Every line at least as long as the first. */
  predicate LongLines(input: seq<string>)
  {
    forall i :: 0 <= i < |input| ==> |input[i]| >= |input[0]|
  }

  /** Every line as long as the first. */
  predicate SameWidth(input: seq<string>)
  {
    forall i :: 0 <= i < |input| ==> |input[i]| == |input[0]|
  }

  /** The padded grid is one `perform` accepts exactly when no line is
      shorter than the first. */
  lemma PadWide(input: seq<string>)
    requires |input| >= 1
    ensures Wide(Pad(Parse(input))) <==> LongLines(input)
  {
    var g := Parse(input);
    var p := Pad(g);
    if LongLines(input) {
      forall i | 0 <= i < |p| ensures |p[i]| >= |p[0]| {
        assert Stack(g)[i] == if i == 0 || i == |g| + 1 then Wall(|g[0]|) else g[i - 1];
      }
    } else {
      var i :| 0 <= i < |input| && |input[i]| < |input[0]|;
      assert Stack(g)[i + 1] == g[i];
      assert |p[i + 1]| < |p[0]|;
    }
  }

  lemma PadRow(g: Grid<char>, i: nat)
    requires |g| >= 1 && i < |g| + 2
    ensures Pad(g)[i] == Border(if i == 0 || i == |g| + 1 then Wall(|g[0]|) else g[i - 1])
  {
    var s := Stack(g);
    assert s[i] == if i == 0 || i == |g| + 1 then Wall(|g[0]|) else g[i - 1];
  }

  /** Padding a rectangular h × m grid gives an (h + 2) × (m + 2) grid. */
  lemma PadRect(input: seq<string>)
    requires |input| >= 1 && SameWidth(input)
    ensures Rect(Pad(Parse(input)), |input[0]| + 2)
  {
    var g := Parse(input);
    forall i | 0 <= i < |g| + 2 ensures |Pad(g)[i]| == |input[0]| + 2 {
      PadRow(g, i);
    }
  }

  /** The top and bottom rows of the padded grid are all `#`. */
  lemma PadTopBottom(g: Grid<char>, j: nat)
    requires |g| >= 1 && j < |g[0]| + 2
    ensures Pad(g)[0][j] == '#' && Pad(g)[|g| + 1][j] == '#'
  {
    PadRow(g, 0);
    PadRow(g, |g| + 1);
    if 0 < j < |g[0]| + 1 {
      assert Pad(g)[0][j] == Wall(|g[0]|)[j - 1];
      assert Pad(g)[|g| + 1][j] == Wall(|g[0]|)[j - 1];
    }
  }

  /** Padding a rectangular h × m grid gives an (h + 2) × (m + 2) grid
      framed by `#`. */
  lemma PadGood(input: seq<string>)
    requires |input| >= 1 && SameWidth(input)
    ensures Good(Pad(Parse(input)), |input| + 2, |input[0]| + 2)
  {
    var g := Parse(input);
    var p := Pad(g);
    var w := |input[0]| + 2;
    PadRect(input);
    var mk := Mask(p);
    forall j | 0 <= j < w ensures mk[0][j] && mk[|p| - 1][j] {
      PadTopBottom(g, j);
    }
    forall i | 0 <= i < |p| ensures mk[i][0] && mk[i][w - 1] {
      PadRow(g, i);
    }
  }

  // ---------------------------------------------------------------------
  // What the load means
  // ---------------------------------------------------------------------

  /** Σ (n - 1 - i) over the `O` cells lo ≤ i < hi of a column of n. */
  function RangeLoad(col: seq<char>, lo: nat, hi: nat): nat
    requires lo <= hi <= |col|
    decreases hi
  {
    if hi == lo then 0
    else RangeLoad(col, lo, hi - 1) + (if col[hi - 1] == 'O' then |col| - 1 - (hi - 1) else 0)
  }

  /** The load of a whole column: every `O` weighs its distance to the
      bottom row. */
  function NorthLoad(col: seq<char>): nat
  {
    RangeLoad(col, 0, |col|)
  }

  lemma {:induction false} RangeLoadSplit(col: seq<char>, a: nat, b: nat, c: nat)
    requires a <= b <= c <= |col|
    ensures RangeLoad(col, a, c) == RangeLoad(col, a, b) + RangeLoad(col, b, c)
    decreases c
  {
    if c > b {
      RangeLoadSplit(col, a, b, c - 1);
    }
  }

  lemma {:induction false} WindowLoadRange(col: seq<char>, top: nat, i: nat)
    requires top < i <= |col|
    ensures WindowLoad(col, top, i) == RangeLoad(col, top + 1, i)
    decreases i
  {
    if i > top + 1 {
      WindowLoadRange(col, top, i - 1);
    }
  }

  /** The windows from the t-th `#` on cover every cell up to the last `#`;
      the `#` cells between them weigh nothing. */
  lemma {:induction false} WindowsLoadRange(col: seq<char>, hs: seq<nat>, t: nat)
    requires Increasing(hs) && (forall u :: 0 <= u < |hs| ==> hs[u] < |col|)
    requires forall u :: 0 <= u < |hs| ==> col[hs[u]] == '#'
    requires t + 1 < |hs|
    ensures WindowsLoad(col, hs, t) == RangeLoad(col, hs[t] + 1, hs[|hs| - 1])
    decreases |hs| - t
  {
    assert hs[t] < hs[t + 1];
    WindowLoadRange(col, hs[t], hs[t + 1]);
    if t + 2 < |hs| {
      assert hs[t + 1] < hs[|hs| - 1];
      WindowsLoadRange(col, hs, t + 1);
      RangeLoadSplit(col, hs[t] + 1, hs[t + 1], hs[|hs| - 1]);
      RangeLoadSplit(col, hs[t + 1], hs[t + 1] + 1, hs[|hs| - 1]);
    }
  }

  /** In a column that starts and ends with `#`, the first `#` is the top
      cell and the last is the bottom cell. */
  lemma FramedHashes(col: seq<char>)
    requires |col| >= 2 && col[0] == '#' && col[|col| - 1] == '#'
    ensures var hs := Hashes(col); |hs| >= 2 && hs[0] == 0 && hs[|hs| - 1] == |col| - 1
  {
    var hs := Hashes(col);
    HashesExact(col);
    assert 0 in hs && |col| - 1 in hs;
    var a :| 0 <= a < |hs| && hs[a] == 0;
    var b :| 0 <= b < |hs| && hs[b] == |col| - 1;
  }

  /** For a column framed by `#`, the windowed load `perform` adds up is
      the load of every `O` of the column. */
  lemma FramedColLoad(col: seq<char>)
    requires |col| >= 2 && col[0] == '#' && col[|col| - 1] == '#'
    ensures ColLoad(col) == NorthLoad(col)
  {
    var hs := Hashes(col);
    var n := |col|;
    FramedHashes(col);
    HashesExact(col);
    WindowsLoadRange(col, hs, 0);
    RangeLoadSplit(col, 0, 1, n);
    RangeLoadSplit(col, 1, n - 1, n);
  }

  /** The load of the first k columns, each counted in full. */
  function NorthLoads(g: Grid<char>, w: nat, k: nat): nat
    requires Rect(g, w) && k <= w
  {
    if k == 0 then 0 else NorthLoads(g, w, k - 1) + NorthLoad(Col(g, k - 1))
  }

  /** A column of a framed grid starts and ends with `#`. */
  lemma FramedColumn(g: Grid<char>, h: nat, w: nat, c: nat)
    requires Good(g, h, w) && c < w
    ensures ColLoad(Col(g, c)) == NorthLoad(Col(g, c))
  {
    assert Mask(g)[0][c] && Mask(g)[h - 1][c];
    FramedColLoad(Col(g, c));
  }

  lemma {:induction false} FramedLoadCols(g: Grid<char>, h: nat, w: nat, k: nat)
    requires Good(g, h, w) && k <= w
    ensures Wide(g) && LoadCols(g, k) == NorthLoads(g, w, k)
    decreases k
  {
    GoodTurnable(g, h, w);
    if k > 0 {
      FramedLoadCols(g, h, w, k - 1);
      FramedColumn(g, h, w, k - 1);
    }
  }

  /** The load `perform` reports for a grid framed by `#` is the total
      load: every `O` weighs its distance to the south edge. */
  lemma FramedLoad(g: Grid<char>, h: nat, w: nat)
    requires Good(g, h, w)
    ensures Wide(g) && Load(g) == NorthLoads(g, w, w)
  {
    FramedLoadCols(g, h, w, w);
  }

  // ---------------------------------------------------------------------
  // Part 1
  // ---------------------------------------------------------------------

  /** `part1`: pad, tilt north once, report the load. Without a first line,
      or with a line shorter than the first, the source panics (None). */
  method Part1(input: seq<string>) returns (r: Option<nat>)
    ensures r.Some? <==> input != [] && LongLines(input)
    ensures r.Some? ==> r.value == Load(TiltGrid(Pad(Parse(input))))
  {
    if input == [] {
      return None;
    }
    var g := Parse(input);
    var lines := PadLines(g);
    PadWide(input);
    if !Wide(lines) {
      return None;
    }
    var _, ans := Perform(lines, true);
    return Some(ans);
  }

  /** On a rectangular input, part 1 is the total north load of the tilted
      padded grid, and the tilt keeps the number of `O`s. */
  lemma Part1Meaning(input: seq<string>)
    requires |input| >= 1 && SameWidth(input)
    ensures var p := Pad(Parse(input)); var w := |input[0]| + 2;
      Wide(p) && Rect(TiltGrid(p), w) &&
      Load(TiltGrid(p)) == NorthLoads(TiltGrid(p), w, w) &&
      GridO(TiltGrid(p)) == GridO(p)
  {
    var p := Pad(Parse(input));
    PadGood(input);
    TiltGood(p, |input| + 2, |input[0]| + 2);
    FramedLoad(TiltGrid(p), |input| + 2, |input[0]| + 2);
    TiltGridKeepsO(p, |input[0]| + 2);
  }

  // ---------------------------------------------------------------------
  // Part 2
  // ---------------------------------------------------------------------

  /** `cycle`: four times tilt north with `perform`, then `rotate`. */
  method Cycle(g: TGrid) returns (lines: TGrid)
    ensures lines == CycleSpec(g)
  {
    lines := g;
    for k := 0 to 4
      invariant lines == Iterate(Round, g, k)
    {
      var tilted, _ := Perform(lines, true);
      var turned := Rotate(tilted, 0 as char);
      assert turned == Round(lines);
      IterateNext(Round, g, k, k + 1);
      lines := turned;
    }
  }

  /** The index `part2` jumps to once cycle c repeats cycle s: the last
      index up to n that is s + 1 plus a multiple of the period c - s. */
  method NewIndex(n: nat, s: nat, c: nat) returns (j: nat)
    requires s < c < n
    ensures c < j <= n && n - j < c - s
    ensures Multiple(j - (s + 1), c - s)
  {
    var len := c - s;
    var periods := (n - 1 - s) / len;
    j := periods * len + s + 1;
    JumpFacts(n - 1 - s, len, periods);
    MultipleOf(periods, len);
  }

  lemma JumpFacts(x: nat, len: nat, q: nat)
    requires 1 <= len <= x && q == x / len
    ensures q * len <= x < q * len + len && len <= q * len
  {
    assert x == q * len + x % len;
    if q > 0 {
      MulAtLeast(q, len);
    }
  }

  const Billion: nat := 1_000_000_000

  /** `part2`: cycle the padded grid a billion times. After each cycle the
      vector of `O` positions is compared with the first one seen twice;
      on a match, the state repeats with period L = c - s and the loop
      jumps to the last index below a billion congruent to s + 1 modulo
      L. The answer is the load of the final state. */
  method Part2(input: seq<string>) returns (r: Option<nat>)
    ensures r.Some? <==> input != [] && SameWidth(input)
    ensures r.Some? ==> r.value == Load(CycleN(Pad(Parse(input)), Billion))
  {
    if input == [] || !SameWidth(input) {
      return None;
    }
    var g := Parse(input);
    ghost var h, w := |input| + 2, |input[0]| + 2;
    var padded := PadLines(g);
    PadGood(input);
    GoodTurnable(padded, h, w);
    var ans := Spin(padded, h, w);
    return Some(ans);
  }

  /** One pass of the `part2` loop before the `O` vector is taken: a
      spin cycle, then the load of the result. */
  method Turn(ghost p: TGrid, g: TGrid, ghost k: nat, ghost n: nat) returns (lines: TGrid, ans: nat)
    requires g == CycleN(p, k) && n == k + 1
    ensures lines == CycleN(p, n) && ans == Load(lines)
  {
    lines := Cycle(g);
    IterateNext(CycleSpec, p, k, n);
    lines, ans := Perform(lines, false);
  }

  /** The loop of `part2` on the padded grid: a billion cycles, skipping
      ahead by whole periods once an `O` vector repeats. */
  method Spin(p: TGrid, ghost h: nat, ghost w: nat) returns (ans: nat)
    requires Good(p, h, w)
    ensures ans == Load(CycleN(p, Billion))
  {
    var lines: TGrid := p;
    ans := 0;
    var first: Option<(nat, seq<(nat, nat)>)> := None;
    var seen: set<seq<(nat, nat)>> := {};
    var cur: nat := 0;
    ghost var firstAt: nat := 0;
    while cur < Billion
      invariant cur <= Billion
      invariant lines == CycleN(p, cur)
      invariant cur > 0 ==> ans == Load(lines)
      invariant first.Some? ==> first.value.0 < cur && firstAt == first.value.0 + 1
      invariant first.Some? ==> first.value.1 == OVec(CycleN(p, firstAt))
      decreases Billion - cur
    {
      var next := cur + 1;
      lines, ans := Turn(p, lines, cur, next);
      var oVector := OVec(lines);
      if first.Some? && first.value.1 == oVector {
        var s := first.value.0;
        cur := Skip(p, h, w, s, cur, next, firstAt);
        continue;
      }
      if oVector in seen && first.None? {
        first := Some((cur, oVector));
        firstAt := next;
      } else {
        seen := seen + {oVector};
      }
      cur := next;
    }
  }

  /** The jump of `part2`: once the state after cur + 1 cycles shows the
      `O` vector first recorded after s + 1 cycles, the loop moves on to
      `NewIndex`, whose state is the current one. */
  method Skip(ghost p: TGrid, ghost h: nat, ghost w: nat, s: nat, cur: nat, ghost a: nat, ghost b: nat)
    returns (j: nat)
    requires Good(p, h, w) && s < cur < Billion && a == cur + 1 && b == s + 1
    requires OVec(CycleN(p, a)) == OVec(CycleN(p, b))
    ensures cur < j <= Billion && CycleN(p, j) == CycleN(p, a)
  {
    j := NewIndex(Billion, s, cur);
    JumpLands(p, h, w, s, cur, a, b, j);
  }

  /** When the state after a = c + 1 cycles shows the `O` vector of the
      state after b = s + 1 cycles, the state after b plus any multiple of
      the period c - s cycles is the current state. */
  lemma JumpLands(p: TGrid, h: nat, w: nat, s: nat, c: nat, a: nat, b: nat, j: nat)
    requires Good(p, h, w) && s < c < j && a == c + 1 && b == s + 1
    requires Multiple(j - (s + 1), c - s)
    requires OVec(CycleN(p, a)) == OVec(CycleN(p, b))
    ensures CycleN(p, j) == CycleN(p, a)
  {
    CycledOVec(p, h, w, a, b);
    IterateRepeat(CycleSpec, p, s, c, a, b, j);
  }

  /** Every cycle keeps the number of `O`s of the padded grid. */
  lemma Part2KeepsO(input: seq<string>, k: nat)
    requires |input| >= 1 && SameWidth(input)
    ensures var p := Pad(Parse(input)); Turnable(p) && GridO(CycleN(p, k)) == GridO(p)
  {
    var h, w := |input| + 2, |input[0]| + 2;
    PadGood(input);
    GoodTurnable(Pad(Parse(input)), h, w);
    var p: TGrid := Pad(Parse(input));
    var inv := (y: TGrid) => Good(y, h, w) && GridO(y) == GridO(p);
    forall y: TGrid | inv(y) ensures inv(CycleSpec(y)) {
      CycleGood(y, h, w);
      CycleKeepsO(y, h, w);
    }
    IterateInvariant(CycleSpec, p, k, inv);
  }
}
