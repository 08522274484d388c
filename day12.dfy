/** Day 12 (Hot Springs): counting the ways to place runs of damaged springs
    (`#`) into a row where some springs are unknown (`?`), with a memoised
    recursion over (position, next group). */
module Day12 {
  import opened Common
  import opened Text

  predicate CanBeDamaged(c: char)
  {
    c == '#' || c == '?'
  }

  predicate CanBeOperational(c: char)
  {
    c == '.' || c == '?'
  }

  /** `is_valid_prefix` as a predicate: a run of `n - 1` damaged springs
      followed by one operational spring fits at `cur`. */
  predicate ValidPrefix(p: string, cur: nat, n: nat)
    requires n >= 1
  {
    cur + n <= |p|
    && (forall k :: cur <= k < cur + n - 1 ==> CanBeDamaged(p[k]))
    && CanBeOperational(p[cur + n - 1])
  }

  /** `is_valid_prefix`: scans the run, returning early at the first cell
      that cannot be damaged, then checks the closing cell. */
  method IsValidPrefix(p: string, cur: nat, n: nat) returns (ok: bool)
    requires n >= 1
    ensures ok <==> ValidPrefix(p, cur, n)
    ensures |p| < cur + n ==> !ok
  {
    if |p| < cur + n {
      return false;
    }
    for ind := 0 to n - 1
      invariant forall k :: cur <= k < cur + ind ==> CanBeDamaged(p[k])
    {
      var symb := p[cur + ind];
      if !(symb == '#' || symb == '?') {
        return false;
      }
    }
    var last := p[cur + n - 1];
    if !(last == '.' || last == '?') {
      return false;
    }
    return true;
  }

  /** The unmemoised recursion: the number of arrangements of the rest of
      the row from `cur` with groups `g..` still to place. At the end of the
      row it is 1 iff every group was placed. Otherwise it adds the ways
      with the next group (and its closing operational spring) placed here
      and the ways with this spring operational. */
  function Count(p: string, groups: seq<nat>, cur: nat, g: nat): nat
    requires cur <= |p| && g <= |groups|
    decreases |p| - cur
  {
    if cur == |p| then (if g == |groups| then 1 else 0)
    else
      (if g < |groups| && cur + groups[g] + 1 <= |p| && ValidPrefix(p, cur, groups[g] + 1)
       then Count(p, groups, cur + groups[g] + 1, g + 1) else 0)
      + (if ValidPrefix(p, cur, 1) then Count(p, groups, cur + 1, g) else 0)
  }

  /** With every group placed, the rest of the row has exactly one
      arrangement (all operational) when every remaining cell can be
      operational, and none otherwise. */
  lemma {:induction false} CountNoGroupsLeft(p: string, groups: seq<nat>, cur: nat)
    requires cur <= |p|
    ensures Count(p, groups, cur, |groups|) == if forall k :: cur <= k < |p| ==> CanBeOperational(p[k]) then 1 else 0
    decreases |p| - cur
  {
    if cur < |p| {
      CountNoGroupsLeft(p, groups, cur + 1);
    }
  }

  /** With groups still to place, a row that has run out has no
      arrangement; more generally the row must be long enough to hold the
      next group and its closing spring. */
  lemma {:induction false} CountNeedsRoom(p: string, groups: seq<nat>, cur: nat, g: nat)
    requires cur <= |p| && g < |groups|
    requires |p| - cur < groups[g] + 1
    ensures Count(p, groups, cur, g) == 0
    decreases |p| - cur
  {
    if cur < |p| {
      CountNeedsRoom(p, groups, cur + 1, g);
    }
  }

  /** A memo table of the right shape whose filled entries agree with the
      unmemoised recursion. */
  predicate Memo(p: string, groups: seq<nat>, dp: array2<Option<nat>>)
    reads dp
  {
    dp.Length0 == |p| + 1 && dp.Length1 == |groups| + 1
    && forall i, j :: 0 <= i < dp.Length0 && 0 <= j < dp.Length1 && dp[i, j].Some?
         ==> dp[i, j].value == Count(p, groups, i, j)
  }

  /** `please_find_a_solution`: the memoised recursion. Every index it
      touches is in bounds, its answer is the unmemoised count, and the
      table stays consistent (memoisation is transparent). */
  method Solve(cur: nat, g: nat, p: string, groups: seq<nat>, dp: array2<Option<nat>>) returns (ans: nat)
    requires cur <= |p| && g <= |groups|
    requires Memo(p, groups, dp)
    modifies dp
    ensures Memo(p, groups, dp)
    ensures ans == Count(p, groups, cur, g)
    decreases |p| - cur
  {
    if dp[cur, g].Some? {
      return dp[cur, g].value;
    }
    if cur == |p| {
      return if g == |groups| then 1 else 0;
    }
    ans := 0;
    if g < |groups| {
      var next := groups[g];
      if cur + next + 1 <= |p| {
        var ok := IsValidPrefix(p, cur, next + 1);
        if ok {
          var sub := Solve(cur + next + 1, g + 1, p, groups, dp);
          ans := ans + sub;
        }
      }
    }
    var ok := IsValidPrefix(p, cur, 1);
    if ok {
      var sub := Solve(cur + 1, g, p, groups, dp);
      ans := ans + sub;
    }
    dp[cur, g] := Some(ans);
  }

  /** Runs the memoised recursion from the start on a fresh table. */
  method Arrangements(p: string, groups: seq<nat>) returns (n: nat)
    ensures n == Count(p, groups, 0, 0)
  {
    var dp := new Option<nat>[|p| + 1, |groups| + 1]((_, _) => None);
    n := Solve(0, 0, p, groups, dp);
  }

  // ---------------------------------------------------------------------
  // Input and the two parts
  // ---------------------------------------------------------------------

  /** The group sizes: comma-separated pieces that parse as numbers; the
      others are dropped (`filter_map`). */
  function Sizes(pieces: seq<string>): (r: seq<nat>)
    ensures |r| <= |pieces|
  {
    if pieces == [] then []
    else
      var init := Sizes(pieces[..|pieces| - 1]);
      match ParseNat(pieces[|pieces| - 1])
      case None => init
      case Some(n) => init + [n]
  }

  /** One row: the first word is the pattern, the second the sizes; a line
      with fewer than two words panics. */
  function ParseRow(line: string): (r: Option<(string, seq<nat>)>)
    ensures r.Some? <==> |Words(line)| >= 2
  {
    var words := Words(line);
    if |words| < 2 then None
    else Some((Bytes(words[0]), Sizes(Split(words[1], ','))))
  }

  /** Well-formed sizes survive parsing unchanged. */
  lemma {:induction false} SizesOfNumbers(ns: seq<nat>)
    ensures Sizes(seq(|ns|, k requires 0 <= k < |ns| => NatToDecimal(ns[k]))) == ns
    decreases |ns|
  {
    if ns != [] {
      var texts := seq(|ns|, k requires 0 <= k < |ns| => NatToDecimal(ns[k]));
      assert texts[..|texts| - 1] == seq(|ns| - 1, k requires 0 <= k < |ns| - 1 => NatToDecimal(ns[..|ns| - 1][k]));
      SizesOfNumbers(ns[..|ns| - 1]);
      NatToDecimalRoundTrip(ns[|ns| - 1]);
      assert ns == ns[..|ns| - 1] + [ns[|ns| - 1]];
    }
  }

  /** The part 2 row: five copies of the pattern joined by `?`, where the
      last of the five appended `?` becomes `.`, then one more `.`. */
  function Unfold(p: string): string
  {
    var q := p + "?";
    var five := q + q + q + q + q;
    five[..|five| - 1] + "." + "."
  }

  lemma UnfoldShape(p: string)
    ensures Unfold(p) == p + "?" + p + "?" + p + "?" + p + "?" + p + ".."
  {
    var q := p + "?";
    var five := q + q + q + q + q;
    assert five[..|five| - 1] == p + "?" + p + "?" + p + "?" + p + "?" + p;
  }

  function Repeat5<T>(s: seq<T>): (r: seq<T>)
    ensures |r| == 5 * |s|
  {
    s + s + s + s + s
  }

  /** The arrangements of one row: with a `.` appended in part 1, unfolded
      in part 2. */
  function RowCount(row: (string, seq<nat>), unfold: bool): nat
  {
    var (p, groups) := row;
    if unfold then Count(Unfold(p), Repeat5(groups), 0, 0) else Count(p + ".", groups, 0, 0)
  }

  /** The sum over the first `n` rows of their arrangements. */
  function TotalUpTo(rows: seq<(string, seq<nat>)>, n: nat, unfold: bool): nat
    requires n <= |rows|
  {
    if n == 0 then 0 else TotalUpTo(rows, n - 1, unfold) + RowCount(rows[n - 1], unfold)
  }

  function Total(rows: seq<(string, seq<nat>)>, unfold: bool): nat
  {
    TotalUpTo(rows, |rows|, unfold)
  }

  /** The first `n` lines parsed, None once one of them does not parse. */
  function ParseRowsUpTo(lines: seq<string>, n: nat): (r: Option<seq<(string, seq<nat>)>>)
    requires n <= |lines|
    ensures r.Some? ==> |r.value| == n
    ensures r.Some? <==> forall k :: 0 <= k < n ==> ParseRow(lines[k]).Some?
  {
    if n == 0 then Some([])
    else
      match ParseRowsUpTo(lines, n - 1)
      case None => None
      case Some(init) =>
        match ParseRow(lines[n - 1])
        case None => None
        case Some(row) => Some(init + [row])
  }

  function ParseRows(lines: seq<string>): (r: Option<seq<(string, seq<nat>)>>)
    ensures r.Some? ==> |r.value| == |lines|
    ensures r.Some? <==> forall k :: 0 <= k < |lines| ==> ParseRow(lines[k]).Some?
  {
    ParseRowsUpTo(lines, |lines|)
  }

  /** Both parts: each row (with a `.` appended in part 1, unfolded in
      part 2) solved on its own memo table, and the counts summed. */
  method Solution(lines: seq<string>, unfold: bool) returns (r: Option<nat>)
    ensures r.Some? <==> ParseRows(lines).Some?
    ensures r.Some? ==> r.value == Total(ParseRows(lines).value, unfold)
  {
    var rows := ParseRows(lines);
    if rows.None? {
      return None;
    }
    var total := SumRows(rows.value, unfold);
    return Some(total);
  }

  /** The loop over the parsed rows. */
  method SumRows(rows: seq<(string, seq<nat>)>, unfold: bool) returns (total: nat)
    ensures total == Total(rows, unfold)
  {
    total := 0;
    for i := 0 to |rows|
      invariant total == TotalUpTo(rows, i, unfold)
    {
      var (p, groups) := rows[i];
      var n;
      if unfold {
        n := Arrangements(Unfold(p), Repeat5(groups));
      } else {
        n := Arrangements(p + ".", groups);
      }
      total := total + n;
    }
  }

  method Part1(lines: seq<string>) returns (r: Option<nat>)
    ensures r.Some? <==> ParseRows(lines).Some?
    ensures r.Some? ==> r.value == Total(ParseRows(lines).value, false)
  {
    r := Solution(lines, false);
  }

  method Part2(lines: seq<string>) returns (r: Option<nat>)
    ensures r.Some? <==> ParseRows(lines).Some?
    ensures r.Some? ==> r.value == Total(ParseRows(lines).value, true)
  {
    r := Solution(lines, true);
  }
}
