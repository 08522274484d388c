/** Day 3 (Gear Ratios): an engine schematic of digits, `.` and symbols.
    Symbols are recorded and blanked out; every remaining run of digits is
    a number. Part 1 adds the numbers next to a symbol (diagonals and the
    number's own cells included); part 2 collects, per symbol, the set of
    adjacent values and adds the products of the sets of exactly two. */
module Day3 {
  import opened Common
  import opened Text

  /** A cell (row, column). */
  type Point = (int, int)

  /** `u32::MAX`: a longer digit run does not parse and is skipped. */
  const U32Max: nat := 0xFFFF_FFFF

  // ---------------------------------------------------------------------
  // Extracting the symbols
  // ---------------------------------------------------------------------

  /** Anything that is neither an ASCII digit nor `.`. */
  predicate IsSymbol(c: char)
  {
    !IsDigit(c) && c != '.'
  }

  /** A line with its symbols replaced by `.`. */
  function Clean(line: string): (r: string)
    ensures |r| == |line|
    ensures forall j :: 0 <= j < |line| ==> r[j] == if IsSymbol(line[j]) then '.' else line[j]
  {
    seq(|line|, j requires 0 <= j < |line| => if IsSymbol(line[j]) then '.' else line[j])
  }

  /** The symbol cells of row `i` before column `upto`. */
  function RowSymbols(line: string, i: int, upto: nat): set<Point>
    requires upto <= |line|
  {
    set j | 0 <= j < upto && IsSymbol(line[j]) :: (i, j)
  }

  /** The symbol cells of the first n rows. */
  function SymbolsBefore(lines: seq<string>, n: nat): set<Point>
    requires n <= |lines|
  {
    if n == 0 then {} else SymbolsBefore(lines, n - 1) + RowSymbols(lines[n - 1], n - 1, |lines[n - 1]|)
  }

  /** A cell is recorded exactly when it holds a symbol. */
  lemma {:induction false} SymbolsBeforeMembers(lines: seq<string>, n: nat, p: Point)
    requires n <= |lines|
    ensures p in SymbolsBefore(lines, n) <==>
      0 <= p.0 < n && 0 <= p.1 < |lines[p.0]| && IsSymbol(lines[p.0][p.1])
    decreases n
  {
    if n > 0 {
      SymbolsBeforeMembers(lines, n - 1, p);
      if p.0 == n - 1 && 0 <= p.1 < |lines[p.0]| && IsSymbol(lines[p.0][p.1]) {
        assert p == (n - 1, p.1);
        assert p in RowSymbols(lines[n - 1], n - 1, |lines[n - 1]|);
      }
    }
  }

  /** `extract_symbols`, one character at a time: each symbol cell is
      recorded and the symbol replaced by `.` in place. */
  method ExtractSymbols(lines: seq<string>) returns (clean: seq<string>, symbols: set<Point>)
    ensures |clean| == |lines|
    ensures forall i :: 0 <= i < |lines| ==> clean[i] == Clean(lines[i])
    ensures symbols == SymbolsBefore(lines, |lines|)
  {
    clean := lines;
    symbols := {};
    var i := 0;
    while i < |lines|
      invariant i <= |lines| && |clean| == |lines|
      invariant forall k :: 0 <= k < i ==> clean[k] == Clean(lines[k])
      invariant forall k :: i <= k < |lines| ==> clean[k] == lines[k]
      invariant symbols == SymbolsBefore(lines, i)
    {
      var line := lines[i];
      var out := "";
      var j := 0;
      while j < |line|
        invariant j <= |line| && |out| == j
        invariant forall t :: 0 <= t < j ==> out[t] == if IsSymbol(line[t]) then '.' else line[t]
        invariant symbols == SymbolsBefore(lines, i) + RowSymbols(line, i, j)
      {
        if IsSymbol(line[j]) {
          symbols := symbols + {(i, j)};
          out := out + ['.'];
        } else {
          out := out + [line[j]];
        }
        RowSymbolsNext(line, i, j);
        j := j + 1;
      }
      assert out == Clean(line);
      clean := clean[i := out];
      i := i + 1;
    }
  }

  lemma RowSymbolsNext(line: string, i: int, j: nat)
    requires j < |line|
    ensures RowSymbols(line, i, j + 1) == RowSymbols(line, i, j) + if IsSymbol(line[j]) then {(i, j)} else {}
  {
  }

  /** After extraction, the lines hold only digits and `.`, keep their
      lengths and digits, and the symbols are exactly the symbol cells. */
  lemma ExtractMeaning(lines: seq<string>, p: Point)
    ensures forall i, j :: 0 <= i < |lines| && 0 <= j < |lines[i]| ==>
      (IsDigit(Clean(lines[i])[j]) || Clean(lines[i])[j] == '.') && (IsDigit(lines[i][j]) ==> Clean(lines[i])[j] == lines[i][j])
    ensures p in SymbolsBefore(lines, |lines|) <==>
      0 <= p.0 < |lines| && 0 <= p.1 < |lines[p.0]| && IsSymbol(lines[p.0][p.1])
  {
    SymbolsBeforeMembers(lines, |lines|, p);
  }

  /** The lines after extraction. */
  function Cleaned(lines: seq<string>): (r: seq<string>)
    ensures |r| == |lines| && forall i :: 0 <= i < |lines| ==> r[i] == Clean(lines[i])
  {
    seq(|lines|, i requires 0 <= i < |lines| => Clean(lines[i]))
  }

  /** The recorded symbol cells. */
  function Symbols(lines: seq<string>): set<Point>
  {
    SymbolsBefore(lines, |lines|)
  }

  // ---------------------------------------------------------------------
  // Numbers and their columns
  // ---------------------------------------------------------------------

  /** `str::parse::<u32>`: digits whose value fits 32 bits. */
  function Parse32(s: string): (r: Option<nat>)
    ensures r.Some? ==> r.value <= U32Max
  {
    match ParseNat(s)
    case None => None
    case Some(n) => if n <= U32Max then Some(n) else None
  }

  /** The column where piece k of a line split on `.` starts: every earlier
      piece and the `.` after it come first. */
  function StartCol(pieces: seq<seq<char>>, k: nat): nat
    requires k <= |pieces|
  {
    if k == 0 then 0 else |pieces[0]| + 1 + StartCol(pieces[1..], k - 1)
  }

  /** The loops advance `pos` by the length of each piece plus one. */
  lemma {:induction false} StartColNext(pieces: seq<seq<char>>, k: nat)
    requires k < |pieces|
    ensures StartCol(pieces, k + 1) == StartCol(pieces, k) + |pieces[k]| + 1
    decreases k
  {
    if k > 0 {
      StartColNext(pieces[1..], k - 1);
    }
  }

  /** Piece k sits in the joined text at its start column. */
  lemma {:induction false} JoinPieceAt(pieces: seq<seq<char>>, sep: char, k: nat)
    requires k < |pieces|
    ensures StartCol(pieces, k) + |pieces[k]| <= |Join(pieces, sep)|
    ensures Join(pieces, sep)[StartCol(pieces, k)..StartCol(pieces, k) + |pieces[k]|] == pieces[k]
    decreases k
  {
    if |pieces| > 1 {
      var rest := pieces[1..];
      assert Join(pieces, sep) == pieces[0] + [sep] + Join(rest, sep);
      if k > 0 {
        JoinPieceAt(rest, sep, k - 1);
        var a := StartCol(rest, k - 1);
        assert StartCol(pieces, k) == |pieces[0]| + 1 + a;
        assert Join(pieces, sep)[|pieces[0]| + 1 + a..|pieces[0]| + 1 + a + |pieces[k]|]
          == Join(rest, sep)[a..a + |pieces[k]|];
      }
    }
  }

  /** The pieces of a line split on `.` start where `pos` says: piece k is
      the text of the line from its start column on. */
  lemma PieceAt(line: string, k: nat)
    requires k < |Split(line, '.')|
    ensures var pieces := Split(line, '.');
      StartCol(pieces, k) + |pieces[k]| <= |line|
      && line[StartCol(pieces, k)..StartCol(pieces, k) + |pieces[k]|] == pieces[k]
  {
    SplitJoin(line, '.');
    JoinPieceAt(Split(line, '.'), '.', k);
  }

  /** The nine cells the loops test at column `col`: the row offsets -1,
      0, 1, and within each the column offsets -1, 0, 1. */
  function Ring(row: int, col: int): seq<Point>
  {
    [(row - 1, col - 1), (row - 1, col), (row - 1, col + 1),
     (row, col - 1), (row, col), (row, col + 1),
     (row + 1, col - 1), (row + 1, col), (row + 1, col + 1)]
  }

  /** The cells the loops test around a number of `len` cells at column
      `pos` of row `row`, in loop order: the ring of each column of the
      number in turn. */
  function Around(row: int, pos: int, len: nat): (r: seq<Point>)
    ensures |r| == 9 * len
    decreases len
  {
    if len == 0 then [] else Around(row, pos, len - 1) + Ring(row, pos + len - 1)
  }

  /** Where the loops stand at column `col` and offsets `di`, `dj`. */
  lemma {:induction false} AroundAt(row: int, pos: int, len: nat, col: int, di: int, dj: int)
    requires pos <= col < pos + len && -1 <= di <= 1 && -1 <= dj <= 1
    ensures 0 <= 9 * (col - pos) + 3 * (di + 1) + (dj + 1) < 9 * len
    ensures Around(row, pos, len)[9 * (col - pos) + 3 * (di + 1) + (dj + 1)] == (row + di, col + dj)
    decreases len
  {
    var t := 9 * (col - pos) + 3 * (di + 1) + (dj + 1);
    var before := Around(row, pos, len - 1);
    assert Around(row, pos, len) == before + Ring(row, pos + len - 1);
    if col < pos + len - 1 {
      AroundAt(row, pos, len - 1, col, di, dj);
      assert Around(row, pos, len)[t] == before[t];
    } else {
      assert Around(row, pos, len)[t] == Ring(row, col)[3 * (di + 1) + (dj + 1)];
    }
  }

  /** The ring of a column holds exactly the cells at most one row and one
      column away. */
  lemma RingMembers(row: int, col: int, p: Point)
    ensures p in Ring(row, col) <==> row - 1 <= p.0 <= row + 1 && col - 1 <= p.1 <= col + 1
  {
    if row - 1 <= p.0 <= row + 1 && col - 1 <= p.1 <= col + 1 {
      var k := 3 * (p.0 - row + 1) + (p.1 - col + 1);
      assert Ring(row, col)[k] == p;
    }
  }

  /** The cells tested are the number's own cells and their eight
      neighbours: the rows just above to just below, and the columns from
      one before the number to one after it. */
  lemma {:induction false} AroundMembers(row: int, pos: int, len: nat, p: Point)
    ensures p in Around(row, pos, len) <==>
      len > 0 && row - 1 <= p.0 <= row + 1 && pos - 1 <= p.1 <= pos + len
    decreases len
  {
    if len > 0 {
      AroundMembers(row, pos, len - 1, p);
      RingMembers(row, pos + len - 1, p);
      assert Around(row, pos, len) == Around(row, pos, len - 1) + Ring(row, pos + len - 1);
    }
  }

  // ---------------------------------------------------------------------
  // Part 1: numbers next to a symbol
  // ---------------------------------------------------------------------

  /** Some cell of `cells` holds a symbol. */
  predicate Touching(symbols: set<Point>, cells: seq<Point>)
  {
    exists t :: 0 <= t < |cells| && cells[t] in symbols
  }

  /** Whether the number of `len` cells at (row, pos) touches a symbol: the
      labelled loop over its columns and the two offsets, left as soon as
      one tested cell is a symbol. */
  method Touches(symbols: set<Point>, row: int, pos: int, len: nat) returns (b: bool)
    ensures b == Touching(symbols, Around(row, pos, len))
  {
    ghost var cells := Around(row, pos, len);
    var col := pos;
    while col < pos + len
      invariant pos <= col <= pos + len
      invariant forall t :: 0 <= t < 9 * (col - pos) ==> cells[t] !in symbols
    {
      var di := -1;
      while di < 2
        invariant -1 <= di <= 2
        invariant forall t :: 0 <= t < 9 * (col - pos) + 3 * (di + 1) ==> cells[t] !in symbols
      {
        var dj := -1;
        while dj < 2
          invariant -1 <= dj <= 2
          invariant forall t :: 0 <= t < 9 * (col - pos) + 3 * (di + 1) + (dj + 1) ==> cells[t] !in symbols
        {
          AroundAt(row, pos, len, col, di, dj);
          if (row + di, col + dj) in symbols {
            return true;
          }
          dj := dj + 1;
        }
        di := di + 1;
      }
      col := col + 1;
    }
    return false;
  }

  /** What piece k of a cleaned row adds in part 1: its value when it is a
      non-empty `u32` touching a symbol, otherwise nothing. */
  function Value1(symbols: set<Point>, row: int, pieces: seq<string>, k: nat): nat
    requires k < |pieces|
  {
    if pieces[k] == [] then 0
    else
      match Parse32(pieces[k])
      case None => 0
      case Some(n) => if Touching(symbols, Around(row, StartCol(pieces, k), |pieces[k]|)) then n else 0
  }

  /** The contributions of the pieces of one cleaned row. */
  function Values1(symbols: set<Point>, row: int, line: string): (r: seq<int>)
    ensures |r| == |Split(line, '.')|
  {
    var pieces := Split(line, '.');
    seq(|pieces|, k requires 0 <= k < |pieces| => Value1(symbols, row, pieces, k))
  }

  /** The part 1 answer over cleaned lines. */
  function Total1(clean: seq<string>, symbols: set<Point>): int
  {
    Sum(seq(|clean|, i requires 0 <= i < |clean| => Sum(Values1(symbols, i, clean[i]))))
  }

  /** Adding one more element to a prefix sum. */
  lemma SumPrefixNext(s: seq<int>, k: nat)
    requires k < |s|
    ensures Sum(s[..k + 1]) == Sum(s[..k]) + s[k]
  {
    assert s[..k + 1][..k] == s[..k];
  }

  /** One row of part 1: walk the pieces with `pos` at each one's start. */
  method ScanRow1(symbols: set<Point>, row: int, line: string, sum0: int) returns (sum: int)
    ensures sum == sum0 + Sum(Values1(symbols, row, line))
  {
    var pieces := Split(line, '.');
    ghost var vals := Values1(symbols, row, line);
    sum := sum0;
    var pos := 0;
    var k := 0;
    while k < |pieces|
      invariant k <= |pieces|
      invariant pos == StartCol(pieces, k)
      invariant sum == sum0 + Sum(vals[..k])
    {
      SumPrefixNext(vals, k);
      StartColNext(pieces, k);
      var str := pieces[k];
      if str == [] {
        pos := pos + 1;
      } else {
        var numLen := |str|;
        var number := Parse32(str);
        if number.Some? {
          var touches := Touches(symbols, row, pos, numLen);
          if touches {
            sum := sum + number.value;
          }
        }
        pos := pos + numLen;
        pos := pos + 1;
      }
      k := k + 1;
    }
    assert vals[..k] == vals;
  }

  /** Part 1: the sum of the numbers next to a symbol, each counted once. */
  method Part1(lines: seq<string>) returns (sum: int)
    ensures sum == Total1(Cleaned(lines), Symbols(lines))
  {
    var clean, symbols := ExtractSymbols(lines);
    assert clean == Cleaned(lines);
    ghost var rows := seq(|clean|, i requires 0 <= i < |clean| => Sum(Values1(symbols, i, clean[i])));
    sum := 0;
    var i := 0;
    while i < |clean|
      invariant i <= |clean|
      invariant sum == Sum(rows[..i])
    {
      SumPrefixNext(rows, i);
      sum := ScanRow1(symbols, i, clean[i], sum);
      i := i + 1;
    }
    assert rows[..i] == rows;
  }

  /** A number counts in part 1 exactly when it parses and some symbol lies
      in the box from the row above to the row below and from the column
      before it to the column after it. */
  lemma Value1Meaning(symbols: set<Point>, row: int, pieces: seq<string>, k: nat)
    requires k < |pieces|
    ensures var start := StartCol(pieces, k);
      Value1(symbols, row, pieces, k) ==
        if Parse32(pieces[k]).Some? && exists p :: p in symbols && row - 1 <= p.0 <= row + 1 && start - 1 <= p.1 <= start + |pieces[k]|
        then Parse32(pieces[k]).value else 0
  {
    var start := StartCol(pieces, k);
    var cells := Around(row, start, |pieces[k]|);
    if exists p :: p in symbols && row - 1 <= p.0 <= row + 1 && start - 1 <= p.1 <= start + |pieces[k]| {
      var p :| p in symbols && row - 1 <= p.0 <= row + 1 && start - 1 <= p.1 <= start + |pieces[k]|;
      if Parse32(pieces[k]).Some? {
        AroundMembers(row, start, |pieces[k]|, p);
        var t :| 0 <= t < |cells| && cells[t] == p;
        assert Touching(symbols, cells);
      }
    }
    if Touching(symbols, cells) {
      var t :| 0 <= t < |cells| && cells[t] in symbols;
      AroundMembers(row, start, |pieces[k]|, cells[t]);
    }
  }

  // ---------------------------------------------------------------------
  // Part 2: gear ratios
  // ---------------------------------------------------------------------

  /** `symbol_numbers`: for each symbol, the values of the numbers seen next
      to it. */
  type Gears = map<Point, set<nat>>

  /** The values recorded for a cell, none when it has no entry. */
  function Get(m: Gears, p: Point): set<nat>
  {
    if p in m then m[p] else {}
  }

  /** `entry(to).or_insert(HashSet::new()).insert(number)` for every tested
      cell that holds a symbol, in loop order. */
  function AddAround(m: Gears, symbols: set<Point>, n: nat, cells: seq<Point>, t: nat): Gears
    requires t <= |cells|
    decreases t
  {
    if t == 0 then m
    else
      var prev := AddAround(m, symbols, n, cells, t - 1);
      var to := cells[t - 1];
      if to in symbols then prev[to := Get(prev, to) + {n}] else prev
  }

  /** Recording one number adds it to exactly the symbols among the cells,
      creating their entries if needed, and changes nothing else. */
  lemma {:induction false} AddAroundMeaning(m: Gears, symbols: set<Point>, n: nat, cells: seq<Point>, t: nat, p: Point)
    requires t <= |cells|
    ensures p in AddAround(m, symbols, n, cells, t) <==> p in m || (p in symbols && p in cells[..t])
    ensures Get(AddAround(m, symbols, n, cells, t), p) == Get(m, p) + if p in symbols && p in cells[..t] then {n} else {}
    decreases t
  {
    if t > 0 {
      AddAroundMeaning(m, symbols, n, cells, t - 1, p);
      assert cells[..t] == cells[..t - 1] + [cells[t - 1]];
      assert p in cells[..t] <==> p in cells[..t - 1] || p == cells[t - 1];
    }
  }

  /** p lies from the row above to the row below and from the column
      before to the column after a number of `len` cells at (row, pos). */
  predicate InBox(p: Point, row: int, pos: int, len: nat)
  {
    row - 1 <= p.0 <= row + 1 && pos - 1 <= p.1 <= pos + len
  }

  /** Piece k of a row is a number next to symbol cell p. */
  predicate Adjacent(symbols: set<Point>, p: Point, row: int, pieces: seq<string>, k: nat)
    requires k < |pieces|
  {
    pieces[k] != [] && Parse32(pieces[k]).Some? && p in symbols
    && InBox(p, row, StartCol(pieces, k), |pieces[k]|)
  }

  /** Recording piece k of a row. */
  function AddPiece(m: Gears, symbols: set<Point>, row: int, pieces: seq<string>, k: nat): Gears
    requires k < |pieces|
  {
    if pieces[k] == [] then m
    else
      match Parse32(pieces[k])
      case None => m
      case Some(n) =>
        var cells := Around(row, StartCol(pieces, k), |pieces[k]|);
        AddAround(m, symbols, n, cells, |cells|)
  }

  /** Recording the first k pieces of a row. */
  function AddPieces(m: Gears, symbols: set<Point>, row: int, pieces: seq<string>, k: nat): Gears
    requires k <= |pieces|
    decreases k
  {
    if k == 0 then m else AddPiece(AddPieces(m, symbols, row, pieces, k - 1), symbols, row, pieces, k - 1)
  }

  /** Recording the first i cleaned rows, starting from an empty map. */
  function AddRows(clean: seq<string>, symbols: set<Point>, i: nat): Gears
    requires i <= |clean|
    decreases i
  {
    if i == 0 then map[]
    else
      var pieces := Split(clean[i - 1], '.');
      AddPieces(AddRows(clean, symbols, i - 1), symbols, i - 1, pieces, |pieces|)
  }

  /** The map part 2 builds from the input. */
  function GearMap(lines: seq<string>): Gears
  {
    AddRows(Cleaned(lines), Symbols(lines), |lines|)
  }

  /** What piece k adds for p. */
  function NearValue(symbols: set<Point>, p: Point, row: int, pieces: seq<string>, k: nat): set<nat>
    requires k < |pieces|
  {
    if Adjacent(symbols, p, row, pieces, k) then {Parse32(pieces[k]).value} else {}
  }

  /** The values of the first k pieces of a row that are next to p. */
  function RowNear(symbols: set<Point>, p: Point, row: int, pieces: seq<string>, k: nat): set<nat>
    requires k <= |pieces|
    decreases k
  {
    if k == 0 then {} else RowNear(symbols, p, row, pieces, k - 1) + NearValue(symbols, p, row, pieces, k - 1)
  }

  /** For each cleaned row, the values of its numbers next to p. */
  function RowSets(clean: seq<string>, symbols: set<Point>, p: Point): (r: seq<set<nat>>)
    ensures |r| == |clean|
  {
    seq(|clean|, i requires 0 <= i < |clean| =>
      var pieces := Split(clean[i], '.');
      RowNear(symbols, p, i, pieces, |pieces|))
  }

  /** The values of all numbers of the first i cleaned rows next to p. */
  function Near(clean: seq<string>, symbols: set<Point>, p: Point, i: nat): set<nat>
    requires i <= |clean|
  {
    UnionAll(RowSets(clean, symbols, p)[..i])
  }

  /** Each recorded piece adds its value to the symbols next to it. */
  lemma {:induction false} AddPiecesMeaning(m: Gears, symbols: set<Point>, row: int, pieces: seq<string>, k: nat, p: Point)
    requires k <= |pieces|
    ensures p in AddPieces(m, symbols, row, pieces, k) <==> p in m || RowNear(symbols, p, row, pieces, k) != {}
    ensures Get(AddPieces(m, symbols, row, pieces, k), p) == Get(m, p) + RowNear(symbols, p, row, pieces, k)
    decreases k
  {
    if k > 0 {
      var prev := AddPieces(m, symbols, row, pieces, k - 1);
      AddPiecesMeaning(m, symbols, row, pieces, k - 1, p);
      AddPieceMeaning(prev, symbols, row, pieces, k - 1, p);
      assert AddPieces(m, symbols, row, pieces, k) == AddPiece(prev, symbols, row, pieces, k - 1);
      var before, added := RowNear(symbols, p, row, pieces, k - 1), NearValue(symbols, p, row, pieces, k - 1);
      assert RowNear(symbols, p, row, pieces, k) == before + added;
      assert Get(AddPieces(m, symbols, row, pieces, k), p) == (Get(m, p) + before) + added;
      assert (Get(m, p) + before) + added == Get(m, p) + (before + added);
    }
  }

  lemma AddPieceMeaning(m: Gears, symbols: set<Point>, row: int, pieces: seq<string>, k: nat, p: Point)
    requires k < |pieces|
    ensures p in AddPiece(m, symbols, row, pieces, k) <==> p in m || Adjacent(symbols, p, row, pieces, k)
    ensures Get(AddPiece(m, symbols, row, pieces, k), p) == Get(m, p) + NearValue(symbols, p, row, pieces, k)
  {
    if pieces[k] != [] && Parse32(pieces[k]).Some? {
      var cells := Around(row, StartCol(pieces, k), |pieces[k]|);
      AddAroundMeaning(m, symbols, Parse32(pieces[k]).value, cells, |cells|, p);
      assert cells[..|cells|] == cells;
      AroundMembers(row, StartCol(pieces, k), |pieces[k]|, p);
    }
  }

  /** The map holds, for each symbol, the values of all numbers next to it,
      and has an entry exactly for the symbols next to some number. */
  lemma {:induction false} AddRowsMeaning(clean: seq<string>, symbols: set<Point>, i: nat, p: Point)
    requires i <= |clean|
    ensures p in AddRows(clean, symbols, i) <==> Near(clean, symbols, p, i) != {}
    ensures Get(AddRows(clean, symbols, i), p) == Near(clean, symbols, p, i)
    decreases i
  {
    if i > 0 {
      AddRowsMeaning(clean, symbols, i - 1, p);
      var pieces := Split(clean[i - 1], '.');
      var prev := AddRows(clean, symbols, i - 1);
      assert AddRows(clean, symbols, i) == AddPieces(prev, symbols, i - 1, pieces, |pieces|);
      AddPiecesMeaning(prev, symbols, i - 1, pieces, |pieces|, p);
      var rs := RowSets(clean, symbols, p);
      assert rs[..i][..i - 1] == rs[..i - 1];
    }
  }

  /** The values of a row next to p are those of its pieces next to p. */
  lemma {:induction false} RowNearMembers(symbols: set<Point>, p: Point, row: int, pieces: seq<string>, k: nat, x: nat)
    requires k <= |pieces|
    ensures x in RowNear(symbols, p, row, pieces, k) <==>
      exists j :: 0 <= j < k && Adjacent(symbols, p, row, pieces, j) && x == Parse32(pieces[j]).value
    decreases k
  {
    if k > 0 {
      RowNearMembers(symbols, p, row, pieces, k - 1, x);
    }
  }

  /** Piece j of cleaned row r is a number of value x next to p. */
  predicate NumberNear(clean: seq<string>, symbols: set<Point>, p: Point, r: int, j: int, x: nat)
  {
    0 <= r < |clean| && 0 <= j < |Split(clean[r], '.')| && Adjacent(symbols, p, r, Split(clean[r], '.'), j)
    && x == Parse32(Split(clean[r], '.')[j]).value
  }

  lemma RowNumberNear(clean: seq<string>, symbols: set<Point>, p: Point, r: nat, x: nat) returns (j: int)
    requires r < |clean| && x in RowNear(symbols, p, r, Split(clean[r], '.'), |Split(clean[r], '.')|)
    ensures NumberNear(clean, symbols, p, r, j, x)
  {
    var pieces := Split(clean[r], '.');
    RowNearMembers(symbols, p, r, pieces, |pieces|, x);
    j :| 0 <= j < |pieces| && Adjacent(symbols, p, r, pieces, j) && x == Parse32(pieces[j]).value;
  }

  lemma NumberNearRow(clean: seq<string>, symbols: set<Point>, p: Point, r: int, j: int, x: nat)
    requires NumberNear(clean, symbols, p, r, j, x)
    ensures x in RowNear(symbols, p, r, Split(clean[r], '.'), |Split(clean[r], '.')|)
  {
    var pieces := Split(clean[r], '.');
    RowNearMembers(symbols, p, r, pieces, |pieces|, x);
  }

  /** The values next to p are those of the numbers, in any row and piece,
      whose box holds p. */
  lemma NearMembers(clean: seq<string>, symbols: set<Point>, p: Point, x: nat)
    ensures x in Near(clean, symbols, p, |clean|) <==> exists r, j :: NumberNear(clean, symbols, p, r, j, x)
  {
    var rs := RowSets(clean, symbols, p);
    assert rs[..|clean|] == rs;
    UnionAllMembers(rs, x);
    if x in Near(clean, symbols, p, |clean|) {
      var r :| 0 <= r < |rs| && x in rs[r];
      var j := RowNumberNear(clean, symbols, p, r, x);
    }
    if exists r, j :: NumberNear(clean, symbols, p, r, j, x) {
      var r, j :| NumberNear(clean, symbols, p, r, j, x);
      NumberNearRow(clean, symbols, p, r, j, x);
      assert x in rs[r];
    }
  }

  /** `into_iter().product()` over a set of values, in whatever order the
      set yields them. */
  ghost function SetProduct(v: set<nat>): nat
    decreases |v|
  {
    if v == {} then 1
    else
      var a :| a in v;
      a * SetProduct(v - {a})
  }

  /** Two distinct members make up a set of two. */
  lemma PairIs(v: set<nat>, a: nat, b: nat)
    requires |v| == 2 && a in v && b in v && a != b
    ensures v == {a, b}
  {
    forall c | c in v
      ensures c == a || c == b
    {
      if c != a && c != b {
        assert |{a, b, c}| == 3;
        SubsetSize({a, b, c}, v);
      }
    }
  }

  /** The product of a set of two is the product of its two values,
      whichever is taken first. */
  lemma RatioOf(v: set<nat>, a: nat, b: nat)
    requires |v| == 2 && a in v && b in v && a != b
    ensures SetProduct(v) == a * b
  {
    PairIs(v, a, b);
    var x :| x in v && SetProduct(v) == x * SetProduct(v - {x});
    var y := if x == a then b else a;
    assert v - {x} == {y};
    SingletonProduct(y);
    var rest := SetProduct(v - {x});
    assert rest == y;
    assert SetProduct(v) == x * y;
    if x != a {
      assert x == b && y == a;
    }
  }

  /** The product of a single value is that value. */
  lemma SingletonProduct(y: nat)
    ensures SetProduct({y}) == y
  {
    var z :| z in {y} && SetProduct({y}) == z * SetProduct({y} - {z});
    assert {y} - {z} == {};
  }

  /** What a symbol adds to part 2. */
  ghost function Contribution(m: Gears, p: Point): nat
    requires p in m
  {
    if |m[p]| == 2 then SetProduct(m[p]) else 0
  }

  /** The sum of the contributions of some of the map's keys; the order the
      `HashMap` yields them in does not matter (see `GearSumRemove`). */
  ghost function GearSum(m: Gears, keys: set<Point>): nat
    requires keys <= m.Keys
    decreases |keys|
  {
    if keys == {} then 0
    else
      var p :| p in keys;
      Contribution(m, p) + GearSum(m, keys - {p})
  }

  /** Any key may be taken first. */
  lemma {:induction false} GearSumRemove(m: Gears, keys: set<Point>, p: Point)
    requires keys <= m.Keys && p in keys
    ensures GearSum(m, keys) == Contribution(m, p) + GearSum(m, keys - {p})
    decreases |keys|
  {
    var q :| q in keys && GearSum(m, keys) == Contribution(m, q) + GearSum(m, keys - {q});
    if q != p {
      GearSumRemove(m, keys - {q}, p);
      GearSumRemove(m, keys - {p}, q);
      assert keys - {q} - {p} == keys - {p} - {q};
    }
  }

  /** Record number n, `len` cells at (row, pos), with the same three loops
      as part 1 but without leaving early. */
  method RecordAround(m0: Gears, symbols: set<Point>, n: nat, row: int, pos: int, len: nat) returns (m: Gears)
    ensures m == AddAround(m0, symbols, n, Around(row, pos, len), 9 * len)
  {
    ghost var cells := Around(row, pos, len);
    m := m0;
    var col := pos;
    while col < pos + len
      invariant pos <= col <= pos + len
      invariant m == AddAround(m0, symbols, n, cells, 9 * (col - pos))
    {
      var di := -1;
      while di < 2
        invariant -1 <= di <= 2
        invariant m == AddAround(m0, symbols, n, cells, 9 * (col - pos) + 3 * (di + 1))
      {
        m := RecordOffsets(m, m0, symbols, n, row, pos, len, col, di);
        di := di + 1;
      }
      col := col + 1;
    }
  }

  /** The innermost loop of `RecordAround`: the three column offsets at
      one row offset. */
  method RecordOffsets(m1: Gears, ghost m0: Gears, symbols: set<Point>, n: nat, row: int, pos: int, len: nat, col: int, di: int)
    returns (m: Gears)
    requires pos <= col < pos + len && -1 <= di <= 1
    requires m1 == AddAround(m0, symbols, n, Around(row, pos, len), 9 * (col - pos) + 3 * (di + 1))
    ensures m == AddAround(m0, symbols, n, Around(row, pos, len), 9 * (col - pos) + 3 * (di + 1) + 3)
  {
    ghost var cells := Around(row, pos, len);
    m := m1;
    var dj := -1;
    while dj < 2
      invariant -1 <= dj <= 2
      invariant m == AddAround(m0, symbols, n, cells, 9 * (col - pos) + 3 * (di + 1) + (dj + 1))
    {
      AroundAt(row, pos, len, col, di, dj);
      var to := (row + di, col + dj);
      if to in symbols {
        var entry := if to in m then m[to] else {};
        m := m[to := entry + {n}];
      }
      dj := dj + 1;
    }
  }

  /** One row of part 2. */
  method ScanRow2(m0: Gears, symbols: set<Point>, row: int, line: string) returns (m: Gears)
    ensures m == AddPieces(m0, symbols, row, Split(line, '.'), |Split(line, '.')|)
  {
    var pieces := Split(line, '.');
    m := m0;
    var pos := 0;
    var k := 0;
    while k < |pieces|
      invariant k <= |pieces|
      invariant pos == StartCol(pieces, k)
      invariant m == AddPieces(m0, symbols, row, pieces, k)
    {
      StartColNext(pieces, k);
      var str := pieces[k];
      if str == [] {
        pos := pos + 1;
      } else {
        m := RecordPiece(m, symbols, row, pieces, k, pos);
        pos := pos + |str|;
        pos := pos + 1;
      }
      k := k + 1;
    }
  }

  /** A non-empty piece of part 2's row: recorded when it parses. */
  method RecordPiece(m0: Gears, symbols: set<Point>, row: int, pieces: seq<string>, k: nat, pos: int)
    returns (m: Gears)
    requires k < |pieces| && pieces[k] != [] && pos == StartCol(pieces, k)
    ensures m == AddPiece(m0, symbols, row, pieces, k)
  {
    m := m0;
    var number := Parse32(pieces[k]);
    if number.Some? {
      m := RecordAround(m, symbols, number.value, row, pos, |pieces[k]|);
    }
  }

  /** Part 2: build the map, then add the products of the value sets of
      size two, taking the keys in any order. */
  method Part2(lines: seq<string>) returns (sum: int)
    ensures sum == GearSum(GearMap(lines), GearMap(lines).Keys)
  {
    var m := BuildMap(lines);
    sum := SumGears(m);
  }

  /** Part 2's map: the symbols are found, then every cleaned row is
      recorded. */
  method BuildMap(lines: seq<string>) returns (m: Gears)
    ensures m == GearMap(lines)
  {
    var clean, symbols := ExtractSymbols(lines);
    assert clean == Cleaned(lines);
    m := RecordRows(clean, symbols);
  }

  /** The loop over the rows that fills `symbol_numbers`. */
  method RecordRows(clean: seq<string>, symbols: set<Point>) returns (m: Gears)
    ensures m == AddRows(clean, symbols, |clean|)
  {
    m := map[];
    var i := 0;
    while i < |clean|
      invariant i <= |clean|
      invariant m == AddRows(clean, symbols, i)
    {
      m := ScanRow2(m, symbols, i, clean[i]);
      i := i + 1;
    }
  }

  /** `filter(len == 2).map(product).sum()` over the map's entries. */
  method SumGears(m: Gears) returns (sum: int)
    ensures sum == GearSum(m, m.Keys)
  {
    sum := 0;
    var keys := m.Keys;
    while keys != {}
      invariant keys <= m.Keys
      invariant sum + GearSum(m, keys) == GearSum(m, m.Keys)
      decreases |keys|
    {
      var p :| p in keys;
      GearSumRemove(m, keys, p);
      var value := m[p];
      if |value| == 2 {
        var a :| a in value;
        assert value == (value - {a}) + {a};
        var b :| b in value - {a};
        RatioOf(value, a, b);
        sum := sum + a * b;
      }
      keys := keys - {p};
    }
  }

  /** The map part 2 builds: a value is recorded for p exactly when a
      number of that value lies next to the symbol at p, and p has an entry
      exactly when something is recorded for it. */
  lemma GearMapMeaning(lines: seq<string>, p: Point, x: nat)
    ensures x in Get(GearMap(lines), p) <==> exists r, j :: NumberNear(Cleaned(lines), Symbols(lines), p, r, j, x)
    ensures p in GearMap(lines) <==> Get(GearMap(lines), p) != {}
  {
    AddRowsMeaning(Cleaned(lines), Symbols(lines), |lines|, p);
    NearMembers(Cleaned(lines), Symbols(lines), p, x);
  }

  /** A symbol with exactly two distinct values next to it adds their
      product to part 2; any other symbol adds nothing. */
  lemma GearMeaning(lines: seq<string>, p: Point)
    ensures p in GearMap(lines) && |GearMap(lines)[p]| == 2 ==>
      exists a, b :: a != b && GearMap(lines)[p] == {a, b} && Contribution(GearMap(lines), p) == a * b
    ensures p in GearMap(lines) && |GearMap(lines)[p]| != 2 ==> Contribution(GearMap(lines), p) == 0
  {
    var m := GearMap(lines);
    if p in m && |m[p]| == 2 {
      var a :| a in m[p];
      assert m[p] == (m[p] - {a}) + {a};
      var b :| b in m[p] - {a};
      RatioOf(m[p], a, b);
      PairIs(m[p], a, b);
    }
  }
}
