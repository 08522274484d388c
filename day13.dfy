/** Day 13 (Point of Incidence): the mirror line of each pattern, found
    column-wise on the pattern and row-wise on its transpose, with an exact
    number of mismatches (0 in part 1, one smudge in part 2). */
module Day13 {
  import opened Common
  import opened Text

  type Matrix<T> = seq<seq<T>>

  // ---------------------------------------------------------------------
  // `rotate`: the transpose fold
  // ---------------------------------------------------------------------

  /** `for_each` body: element x of column j is pushed onto column j, or
      starts a new column when there is none yet. */
  function Push<T>(v: Matrix<T>, j: nat, x: T): Matrix<T>
  {
    if j < |v| then v[j := v[j] + [x]] else v + [[x]]
  }

  /** The first k elements of `row` pushed onto their columns. */
  function AddRowUpTo<T>(v: Matrix<T>, row: seq<T>, k: nat): Matrix<T>
    requires k <= |row|
  {
    if k == 0 then v else Push(AddRowUpTo(v, row, k - 1), k - 1, row[k - 1])
  }

  /** One step of the fold: the whole row pushed. */
  function AddRow<T>(v: Matrix<T>, row: seq<T>): Matrix<T>
  {
    AddRowUpTo(v, row, |row|)
  }

  /** Pushing a row of w entries onto w columns extends each column by its
      entry. */
  lemma {:induction false} AddRowUpToExtends<T>(v: Matrix<T>, row: seq<T>, k: nat)
    requires k <= |row| <= |v|
    ensures |AddRowUpTo(v, row, k)| == |v|
    ensures forall j :: 0 <= j < |v| ==> AddRowUpTo(v, row, k)[j] == if j < k then v[j] + [row[j]] else v[j]
    decreases k
  {
    if k > 0 {
      AddRowUpToExtends(v, row, k - 1);
    }
  }

  /** Pushing a row of w entries onto no columns starts w columns. */
  lemma {:induction false} AddRowUpToStarts<T>(row: seq<T>, k: nat)
    requires k <= |row|
    ensures |AddRowUpTo([], row, k)| == k
    ensures forall j :: 0 <= j < k ==> AddRowUpTo([], row, k)[j] == [row[j]]
    decreases k
  {
    if k > 0 {
      AddRowUpToStarts(row, k - 1);
    }
  }

  /** The first `n` rows folded into columns, starting from no columns. */
  function RotateUpTo<T>(m: Matrix<T>, n: nat): Matrix<T>
    requires n <= |m|
  {
    if n == 0 then [] else AddRow(RotateUpTo(m, n - 1), m[n - 1])
  }

  /** `rotate`: every row folded into columns. */
  function Rotate<T>(m: Matrix<T>): Matrix<T>
  {
    RotateUpTo(m, |m|)
  }

  /** Every row has `w` entries. */
  predicate Rectangular<T>(m: Matrix<T>, w: nat)
  {
    forall i :: 0 <= i < |m| ==> |m[i]| == w
  }

  /** Folding the first n >= 1 rows of a rectangular matrix gives their
      transpose. */
  lemma {:induction false} RotateUpToTransposes<T>(m: Matrix<T>, w: nat, n: nat)
    requires 1 <= n <= |m| && Rectangular(m, w)
    ensures |RotateUpTo(m, n)| == w
    ensures forall j :: 0 <= j < w ==> |RotateUpTo(m, n)[j]| == n
    ensures forall j, i :: 0 <= j < w && 0 <= i < n ==> RotateUpTo(m, n)[j][i] == m[i][j]
    decreases n
  {
    if n == 1 {
      assert RotateUpTo(m, 0) == [];
      AddRowUpToStarts(m[0], |m[0]|);
    } else {
      RotateUpToTransposes(m, w, n - 1);
      var prev := RotateUpTo(m, n - 1);
      AddRowUpToExtends(prev, m[n - 1], w);
      var r := RotateUpTo(m, n);
      forall j | 0 <= j < w
        ensures |r[j]| == n && forall i :: 0 <= i < n ==> r[j][i] == m[i][j]
      {
        assert r[j] == prev[j] + [m[n - 1][j]];
      }
    }
  }

  /** On a non-empty rectangular matrix `rotate` is the transpose:
      out[j][i] == in[i][j]. */
  lemma RotateTransposes<T>(m: Matrix<T>, w: nat)
    requires |m| >= 1 && Rectangular(m, w)
    ensures |Rotate(m)| == w && Rectangular(Rotate(m), |m|)
    ensures forall j, i :: 0 <= j < w && 0 <= i < |m| ==> Rotate(m)[j][i] == m[i][j]
  {
    RotateUpToTransposes(m, w, |m|);
  }

  /** Transposing twice gives the matrix back (rectangular, no empty
      dimension). */
  lemma RotateTwice<T>(m: Matrix<T>, w: nat)
    requires |m| >= 1 && w >= 1 && Rectangular(m, w)
    ensures Rotate(Rotate(m)) == m
  {
    RotateTransposes(m, w);
    var t := Rotate(m);
    RotateTransposes(t, |m|);
    var tt := Rotate(t);
    assert |tt| == |m|;
    forall i | 0 <= i < |m| ensures tt[i] == m[i] {
      assert |tt[i]| == w;
      forall j | 0 <= j < w ensures tt[i][j] == m[i][j] {
        assert tt[i][j] == t[j][i];
      }
    }
  }

  /** The unit test's example: a 4 x 2 matrix becomes 2 x 4. */
  lemma RotateExample()
    ensures Rotate([[1, 2], [3, 4], [5, 6], [7, 8]]) == [[1, 3, 5, 7], [2, 4, 6, 8]]
  {
    var m := [[1, 2], [3, 4], [5, 6], [7, 8]];
    RotateTransposes(m, 2);
    var r := Rotate(m);
    assert r[0] == [1, 3, 5, 7] by {
      assert |r[0]| == 4;
      assert r[0][0] == m[0][0] && r[0][1] == m[1][0] && r[0][2] == m[2][0] && r[0][3] == m[3][0];
    }
    assert r[1] == [2, 4, 6, 8] by {
      assert |r[1]| == 4;
      assert r[1][0] == m[0][1] && r[1][1] == m[1][1] && r[1][2] == m[2][1] && r[1][3] == m[3][1];
    }
  }

  // ---------------------------------------------------------------------
  // Mismatches and the mirror search
  // ---------------------------------------------------------------------

  function MinNat(a: nat, b: nat): nat { if a < b then a else b }

  /** The number of t < n with row[i - 1 - t] != row[i + t]. */
  function MismatchUpTo(row: string, i: nat, n: nat): (c: nat)
    requires n <= i && i + n <= |row|
    ensures c <= n
  {
    if n == 0 then 0
    else MismatchUpTo(row, i, n - 1) + (if row[i - n] != row[i + n - 1] then 1 else 0)
  }

  /** The mismatches of a row folded at i (1 <= i < |row|): the pairs
      (i - 1 - t, i + t) on the shorter side. */
  function Mismatch(row: string, i: nat): nat
    requires 1 <= i < |row|
  {
    MismatchUpTo(row, i, MinNat(i, |row| - i))
  }

  /** The row reads the same outwards from the fold at i on its shorter
      side: each cell a left of the fold equals its image 2i - 1 - a. */
  predicate Mirrors(row: string, i: nat)
    requires 1 <= i < |row|
  {
    forall a :: i - MinNat(i, |row| - i) <= a < i ==> row[a] == row[2 * i - 1 - a]
  }

  lemma {:induction false} MismatchUpToZero(row: string, i: nat, n: nat)
    requires n <= i && i + n <= |row|
    ensures MismatchUpTo(row, i, n) == 0 <==> forall a :: i - n <= a < i ==> row[a] == row[2 * i - 1 - a]
    decreases n
  {
    if n > 0 {
      MismatchUpToZero(row, i, n - 1);
    }
  }

  /** No mismatch at a fold means the row mirrors there, and back. */
  lemma MismatchZero(row: string, i: nat)
    requires 1 <= i < |row|
    ensures Mismatch(row, i) == 0 <==> Mirrors(row, i)
  {
    MismatchUpToZero(row, i, MinNat(i, |row| - i));
  }

  /** Every row is long enough to be folded at i. */
  predicate LongEnough(pattern: Matrix<char>, i: nat)
  {
    forall p :: 0 <= p < |pattern| ==> i < |pattern[p]|
  }

  /** The mismatches of every row at fold i. */
  function Costs(pattern: Matrix<char>, i: nat): (r: seq<int>)
    requires 1 <= i && LongEnough(pattern, i)
    ensures |r| == |pattern|
  {
    seq(|pattern|, p requires 0 <= p < |pattern| => Mismatch(pattern[p], i))
  }

  /** The lazy search over `line_indx` from `c` on: the first fold whose
      summed mismatches equal `smudges`, or 0; a row too short for a fold
      that is examined is an out-of-bounds panic. */
  function Scan(pattern: Matrix<char>, smudges: nat, lineLen: nat, c: nat): (r: Option<nat>)
    decreases lineLen - c
  {
    if c + 1 >= lineLen then Some(0)
    else if !LongEnough(pattern, c + 1) then None
    else if Fits(pattern, smudges, c + 1) then Some(c + 1)
    else Scan(pattern, smudges, lineLen, c + 1)
  }

  /** `solve`: an empty pattern panics on `pattern[0]` and an empty first
      row on `line_len - 1`. */
  function Solve(pattern: Matrix<char>, smudges: nat): Option<nat>
  {
    if |pattern| == 0 || |pattern[0]| == 0 then None
    else Scan(pattern, smudges, |pattern[0]|, 0)
  }

  /** Sum(costs) with the fold's validity folded in. */
  predicate Fits(pattern: Matrix<char>, smudges: nat, i: nat)
  {
    1 <= i && LongEnough(pattern, i) && Sum(Costs(pattern, i)) == smudges
  }

  /** The scan returns the smallest fold in (c, lineLen) whose mismatches
      total `smudges`, or 0 when there is none; it only fails when a row is
      too short for a fold examined before the answer. */
  lemma ScanSmallest(pattern: Matrix<char>, smudges: nat, lineLen: nat, c: nat)
    requires Scan(pattern, smudges, lineLen, c).Some?
    ensures var r := Scan(pattern, smudges, lineLen, c).value;
      (r == 0 ==> forall i :: c < i < lineLen ==> !Fits(pattern, smudges, i))
      && (r != 0 ==> c < r < lineLen && Fits(pattern, smudges, r)
                     && forall i :: c < i < r ==> !Fits(pattern, smudges, i))
  {
    var r := Scan(pattern, smudges, lineLen, c).value;
    ScanBefore(pattern, smudges, lineLen, c);
    if r != 0 {
      ScanFound(pattern, smudges, lineLen, c);
    }
  }

  /** The folds the scan passes over do not fit. */
  lemma {:induction false} ScanBefore(pattern: Matrix<char>, smudges: nat, lineLen: nat, c: nat)
    requires Scan(pattern, smudges, lineLen, c).Some?
    ensures var r := Scan(pattern, smudges, lineLen, c).value;
      forall i :: c < i < (if r == 0 then lineLen else r) ==> !Fits(pattern, smudges, i)
    decreases lineLen - c
  {
    if c + 1 < lineLen && LongEnough(pattern, c + 1) && !Fits(pattern, smudges, c + 1) {
      ScanBefore(pattern, smudges, lineLen, c + 1);
    }
  }

  /** A non-zero answer is a fold that fits. */
  lemma {:induction false} ScanFound(pattern: Matrix<char>, smudges: nat, lineLen: nat, c: nat)
    requires Scan(pattern, smudges, lineLen, c).Some? && Scan(pattern, smudges, lineLen, c).value != 0
    ensures var r := Scan(pattern, smudges, lineLen, c).value;
      c < r < lineLen && Fits(pattern, smudges, r)
    decreases lineLen - c
  {
    if c + 1 < lineLen && LongEnough(pattern, c + 1) && !Fits(pattern, smudges, c + 1) {
      ScanFound(pattern, smudges, lineLen, c + 1);
    }
  }

  /** `solve` finds the first mirror line, counted from 1, at which the
      pattern has exactly `smudges` mismatches, or 0 when there is none. */
  lemma SolveSmallest(pattern: Matrix<char>, smudges: nat)
    requires Solve(pattern, smudges).Some?
    ensures var r := Solve(pattern, smudges).value;
      (r == 0 ==> forall i :: 0 < i < |pattern[0]| ==> !Fits(pattern, smudges, i))
      && (r != 0 ==> r < |pattern[0]| && Fits(pattern, smudges, r)
                     && forall i :: 0 < i < r ==> !Fits(pattern, smudges, i))
  {
    ScanSmallest(pattern, smudges, |pattern[0]|, 0);
  }

  /** With no smudge allowed, the line found mirrors every row exactly. */
  lemma PerfectMirror(pattern: Matrix<char>)
    requires Solve(pattern, 0).Some? && Solve(pattern, 0).value != 0
    ensures forall p :: 0 <= p < |pattern| ==>
      Solve(pattern, 0).value < |pattern[p]| && Mirrors(pattern[p], Solve(pattern, 0).value)
  {
    var r := Solve(pattern, 0).value;
    SolveSmallest(pattern, 0);
    var costs := Costs(pattern, r);
    forall p | 0 <= p < |pattern| ensures Mirrors(pattern[p], r) {
      ZeroSum(costs, p);
      MismatchZero(pattern[p], r);
    }
  }

  /** In a sum of non-negative terms that is 0, every term is 0. */
  lemma {:induction false} ZeroSum(s: seq<int>, p: nat)
    requires forall k :: 0 <= k < |s| ==> s[k] >= 0
    requires Sum(s) == 0 && p < |s|
    ensures s[p] == 0
    decreases |s|
  {
    SumNonNegative(s[..|s| - 1]);
    if p < |s| - 1 {
      ZeroSum(s[..|s| - 1], p);
    }
  }

  // ---------------------------------------------------------------------
  // Parsing and the two parts
  // ---------------------------------------------------------------------

  /** The patterns: blocks of lines between empty lines, as bytes. */
  function Patterns(lines: seq<string>): (r: seq<Matrix<char>>)
    ensures |r| == |SplitOn(lines, {[]})|
  {
    var blocks := SplitOn(lines, {[]});
    seq(|blocks|, b requires 0 <= b < |blocks| =>
      seq(|blocks[b]|, i requires 0 <= i < |blocks[b]| => Bytes(blocks[b][i])))
  }

  /** A pattern scores its column split plus 100 times the split of its
      transpose; None if either search panics. */
  function Score(pattern: Matrix<char>, smudges: nat): Option<nat>
  {
    match Solve(pattern, smudges)
    case None => None
    case Some(cols) =>
      match Solve(Rotate(pattern), smudges)
      case None => None
      case Some(rows) => Some(cols + 100 * rows)
  }

  /** The score of every pattern. */
  function Scores(patterns: seq<Matrix<char>>, smudges: nat): (r: seq<Option<nat>>)
    ensures |r| == |patterns|
  {
    seq(|patterns|, k requires 0 <= k < |patterns| => Score(patterns[k], smudges))
  }

  /** The first `n` scores added up; None once one of them is a panic. */
  function SumScores(scores: seq<Option<nat>>, n: nat): Option<nat>
    requires n <= |scores|
  {
    if n == 0 then Some(0)
    else
      match SumScores(scores, n - 1)
      case None => None
      case Some(t) =>
        match scores[n - 1]
        case None => None
        case Some(s) => Some(t + s)
  }

  function Total(patterns: seq<Matrix<char>>, smudges: nat): Option<nat>
  {
    SumScores(Scores(patterns, smudges), |patterns|)
  }

  /** The `for` loop of both parts: `ans` accumulates each pattern's
      score; a panicking pattern stops everything. */
  method Solution(lines: seq<string>, smudges: nat) returns (r: Option<nat>)
    ensures r == Total(Patterns(lines), smudges)
  {
    r := SumPatterns(Patterns(lines), smudges);
  }

  /** The loop itself, over the parsed patterns. */
  method SumPatterns(patterns: seq<Matrix<char>>, smudges: nat) returns (r: Option<nat>)
    ensures r == Total(patterns, smudges)
  {
    var ans: nat := 0;
    for i := 0 to |patterns|
      invariant SumScores(Scores(patterns, smudges), i) == Some(ans)
    {
      var ok;
      ok, ans := AddScore(patterns, smudges, i, ans);
      if !ok {
        return None;
      }
    }
    return Some(ans);
  }

  /** The loop body: `solve` on the pattern and on its transpose, added to
      `ans`; false when it panics, and then so does the whole run. */
  method AddScore(patterns: seq<Matrix<char>>, smudges: nat, i: nat, ans: nat) returns (ok: bool, ans': nat)
    requires i < |patterns| && SumScores(Scores(patterns, smudges), i) == Some(ans)
    ensures ok ==> SumScores(Scores(patterns, smudges), i + 1) == Some(ans')
    ensures !ok ==> Total(patterns, smudges).None?
  {
    ghost var scores := Scores(patterns, smudges);
    var s := Score(patterns[i], smudges);
    assert scores[i] == s;
    if s.None? {
      SumNone(scores, i + 1);
      return false, ans;
    }
    SumStep(scores, i, ans);
    return true, ans + s.value;
  }

  lemma SumStep(scores: seq<Option<nat>>, i: nat, ans: nat)
    requires i < |scores| && SumScores(scores, i) == Some(ans) && scores[i].Some?
    ensures SumScores(scores, i + 1) == Some(ans + scores[i].value)
  {
  }

  /** Once a prefix panics, so does the whole run. */
  lemma {:induction false} SumNone(scores: seq<Option<nat>>, i: nat)
    requires i <= |scores| && SumScores(scores, i).None?
    ensures SumScores(scores, |scores|).None?
    decreases |scores| - i
  {
    if i < |scores| {
      SumNone(scores, i + 1);
    }
  }

  /** Part 1: exact mirrors. */
  method Part1(lines: seq<string>) returns (r: Option<nat>)
    ensures r == Total(Patterns(lines), 0)
  {
    r := Solution(lines, 0);
  }

  /** Part 2: mirrors with exactly one smudge. */
  method Part2(lines: seq<string>) returns (r: Option<nat>)
    ensures r == Total(Patterns(lines), 1)
  {
    r := Solution(lines, 1);
  }
}
