/** Day 9 (Mirage Maintenance): extrapolating a sequence forwards and
    backwards from its table of repeated differences. */
module Day9 {
  import opened Common
  import opened Text

  /** `line.windows(2).map(|x| x[1] - x[0])`: one differencing step. */
  function Diff(line: seq<int>): (r: seq<int>)
    ensures |line| > 0 ==> |r| == |line| - 1
    ensures |line| == 0 ==> r == []
  {
    if |line| < 2 then [] else seq(|line| - 1, k requires 0 <= k < |line| - 1 => line[k + 1] - line[k])
  }

  predicate AllZero(line: seq<int>)
  {
    forall k :: 0 <= k < |line| ==> line[k] == 0
  }

  /** The last element of each level, top level first, until a level is all
      zeros (the empty level counts as all zeros). */
  function Tails(line: seq<int>): seq<int>
    decreases |line|
  {
    if AllZero(line) then [] else [line[|line| - 1]] + Tails(Diff(line))
  }

  /** The first element of each level, top level first. */
  function Heads(line: seq<int>): seq<int>
    decreases |line|
  {
    if AllZero(line) then [] else [line[0]] + Heads(Diff(line))
  }

  /** The reference extrapolation: the value after the line, chosen so that
      the difference table gains one entry at every level. */
  function Next(line: seq<int>): int
    decreases |line|
  {
    if AllZero(line) then 0 else line[|line| - 1] + Next(Diff(line))
  }

  /** The value before the line. */
  function Prev(line: seq<int>): int
    decreases |line|
  {
    if AllZero(line) then 0 else line[0] - Prev(Diff(line))
  }

  lemma DiffOfZero(line: seq<int>)
    requires AllZero(line)
    ensures AllZero(Diff(line))
  {
  }

  lemma DiffAppend(line: seq<int>, n: int)
    requires |line| > 0
    ensures Diff(line + [n]) == Diff(line) + [n - line[|line| - 1]]
  {
    var ext := line + [n];
    assert Diff(ext)[|line| - 1] == n - line[|line| - 1];
    assert forall k :: 0 <= k < |line| - 1 ==> Diff(ext)[k] == Diff(line)[k];
  }

  lemma DiffPrepend(n: int, line: seq<int>)
    requires |line| > 0
    ensures Diff([n] + line) == [line[0] - n] + Diff(line)
  {
    var ext := [n] + line;
    assert Diff(ext)[0] == line[0] - n;
    assert forall k :: 1 <= k < |line| ==> Diff(ext)[k] == Diff(line)[k - 1];
  }

  lemma NextStep(line: seq<int>)
    requires |line| > 0
    ensures Next(line) - line[|line| - 1] == Next(Diff(line))
  {
    if AllZero(line) {
      DiffOfZero(line);
    }
  }

  lemma PrevStep(line: seq<int>)
    requires |line| > 0
    ensures line[0] - Prev(line) == Prev(Diff(line))
  {
    if AllZero(line) {
      DiffOfZero(line);
    }
  }

  /** The forward extrapolation extends every level: the line with `Next`
      appended has as differences the old differences with their own
      `Next` appended. */
  lemma NextExtends(line: seq<int>)
    requires |line| > 0
    ensures Diff(line + [Next(line)]) == Diff(line) + [Next(Diff(line))]
  {
    var n, m := Next(line), Next(Diff(line));
    DiffAppend(line, n);
    NextStep(line);
    var d := n - line[|line| - 1];
    assert d == m;
    assert Diff(line + [n]) == Diff(line) + [d];
  }

  /** The backward extrapolation extends every level at the front. */
  lemma PrevExtends(line: seq<int>)
    requires |line| > 0
    ensures Diff([Prev(line)] + line) == [Prev(Diff(line))] + Diff(line)
  {
    var p, m := Prev(line), Prev(Diff(line));
    DiffPrepend(p, line);
    PrevStep(line);
    var d := line[0] - p;
    assert d == m;
    assert Diff([p] + line) == [d] + Diff(line);
  }

  /** An all-zero line contributes nothing in either direction. */
  lemma ZeroLine(line: seq<int>)
    requires AllZero(line)
    ensures Tails(line) == [] && Heads(line) == [] && Next(line) == 0 && Prev(line) == 0
  {
  }

  /** a, a + d, ..., a + (n - 1) d */
  function Arithmetic(a: int, d: int, n: nat): (r: seq<int>)
    ensures |r| == n
  {
    seq(n, k requires 0 <= k < n => a + k * d)
  }

  lemma ConstantLine(c: int, n: nat)
    requires n > 0
    ensures Next(Arithmetic(c, 0, n)) == c && Prev(Arithmetic(c, 0, n)) == c
  {
    var line := Arithmetic(c, 0, n);
    assert Diff(line) == Arithmetic(0, 0, n - 1);
    if c != 0 {
      assert line[0] != 0;
    }
  }

  /** A line with constant difference d extrapolates to last + d forwards
      and to first - d backwards. */
  lemma ArithmeticLine(a: int, d: int, n: nat)
    requires n >= 2
    ensures Next(Arithmetic(a, d, n)) == a + (n - 1) * d + d
    ensures Prev(Arithmetic(a, d, n)) == a - d
  {
    var line := Arithmetic(a, d, n);
    assert Diff(line) == Arithmetic(d, 0, n - 1) by {
      forall k | 0 <= k < n - 1 ensures Diff(line)[k] == d {
        assert line[k + 1] - line[k] == (a + (k + 1) * d) - (a + k * d);
      }
    }
    ConstantLine(d, n - 1);
    if AllZero(line) {
      assert line[0] == 0 && line[1] == 0;
    } else {
      assert line[n - 1] == a + (n - 1) * d;
    }
  }

  // ---------------------------------------------------------------------
  // The loops and the folds of each part
  // ---------------------------------------------------------------------

  /** One level of the recorded values: the line's own value, then those
      of its differences. */
  function Recorded(line: seq<int>, atEnd: bool): seq<int>
  {
    if atEnd then Tails(line) else Heads(line)
  }

  lemma RecordedStep(done: seq<int>, line: seq<int>, atEnd: bool)
    requires !AllZero(line)
    ensures done + Recorded(line, atEnd) == (done + [if atEnd then line[|line| - 1] else line[0]]) + Recorded(Diff(line), atEnd)
  {
    var x := if atEnd then line[|line| - 1] else line[0];
    assert Recorded(line, atEnd) == [x] + Recorded(Diff(line), atEnd);
    assert done + ([x] + Recorded(Diff(line), atEnd)) == (done + [x]) + Recorded(Diff(line), atEnd);
  }

  /** The `while` loop: records the last (or the first) element of each
      level until the level is all zeros. */
  method Record(line0: seq<int>, atEnd: bool) returns (recorded: seq<int>)
    ensures recorded == Recorded(line0, atEnd)
  {
    var line := line0;
    recorded := [];
    while !AllZero(line)
      invariant recorded + Recorded(line, atEnd) == Recorded(line0, atEnd)
      decreases |line|
    {
      var x := if atEnd then line[|line| - 1] else line[0];
      RecordedStep(recorded, line, atEnd);
      recorded := recorded + [x];
      line := Diff(line);
    }
    assert recorded + [] == recorded;
  }

  /** `fold(vec![], |v, x| v.push(v.last() + x)).last()`: the running sum,
      0 for no values. */
  function RightMost(xs: seq<int>): int
  {
    if xs == [] then 0 else RightMost(xs[..|xs| - 1]) + xs[|xs| - 1]
  }

  /** `fold(vec![], |v, x| v.push(x - v.last())).last()`. */
  function LeftMost(xs: seq<int>): int
  {
    if xs == [] then 0 else xs[|xs| - 1] - LeftMost(xs[..|xs| - 1])
  }

  lemma RightMostPush(ys: seq<int>, x: int)
    ensures RightMost(ys + [x]) == RightMost(ys) + x
  {
    assert (ys + [x])[..|ys|] == ys;
  }

  lemma LeftMostPush(ys: seq<int>, x: int)
    ensures LeftMost(ys + [x]) == x - LeftMost(ys)
  {
    assert (ys + [x])[..|ys|] == ys;
  }

  /** The addition fold over the reversed values is their sum, counted
      from the front. */
  lemma {:induction false} RightMostReverse(xs: seq<int>)
    ensures RightMost(Reverse(xs)) == Front(xs)
    decreases |xs|
  {
    if xs != [] {
      RightMostReverse(xs[1..]);
      RightMostPush(Reverse(xs[1..]), xs[0]);
    }
  }

  /** The subtraction fold over the reversed values is their alternating
      sum. */
  lemma {:induction false} LeftMostReverse(xs: seq<int>)
    ensures LeftMost(Reverse(xs)) == Alternating(xs)
    decreases |xs|
  {
    if xs != [] {
      LeftMostReverse(xs[1..]);
      LeftMostPush(Reverse(xs[1..]), xs[0]);
    }
  }

  /** The sum first₀ + (first₁ + (first₂ + …)). */
  function Front(xs: seq<int>): int
  {
    if xs == [] then 0 else xs[0] + Front(xs[1..])
  }

  /** Summing from the front or from the back gives the same. */
  lemma {:induction false} FrontSum(xs: seq<int>)
    ensures Front(xs) == Sum(xs)
    decreases |xs|
  {
    if xs != [] {
      FrontSum(xs[1..]);
      SumAppend([xs[0]], xs[1..]);
      assert [xs[0]] + xs[1..] == xs;
      assert Sum([xs[0]]) == xs[0] by {
        assert [xs[0]][..0] == [];
      }
    }
  }

  /** The tails added up are the forward extrapolation. */
  lemma {:induction false} FrontTails(line: seq<int>)
    ensures Front(Tails(line)) == Next(line)
    decreases |line|
  {
    if !AllZero(line) {
      FrontTails(Diff(line));
      assert Tails(line)[1..] == Tails(Diff(line));
    }
  }

  /** The heads alternately subtracted are the backward extrapolation. */
  lemma {:induction false} AlternatingHeads(line: seq<int>)
    ensures Alternating(Heads(line)) == Prev(line)
    decreases |line|
  {
    if !AllZero(line) {
      AlternatingHeads(Diff(line));
      assert Heads(line)[1..] == Heads(Diff(line));
    }
  }

  /** Part 1 per line: the reversed tails folded by addition are the
      forward extrapolation, i.e. the sum of the recorded tails. */
  lemma RightMostTails(line: seq<int>)
    ensures RightMost(Reverse(Tails(line))) == Next(line)
    ensures RightMost(Reverse(Tails(line))) == Sum(Tails(line))
  {
    RightMostReverse(Tails(line));
    FrontTails(line);
    FrontSum(Tails(line));
  }

  /** The alternating sum first₀ - (first₁ - (first₂ - …)). */
  function Alternating(hs: seq<int>): int
  {
    if hs == [] then 0 else hs[0] - Alternating(hs[1..])
  }

  /** Part 2 per line: the reversed heads folded by subtraction are the
      backward extrapolation, i.e. the alternating sum of the heads. */
  lemma LeftMostHeads(line: seq<int>)
    ensures LeftMost(Reverse(Heads(line))) == Prev(line)
    ensures LeftMost(Reverse(Heads(line))) == Alternating(Heads(line))
  {
    LeftMostReverse(Heads(line));
    AlternatingHeads(line);
  }

  /** `split_whitespace().filter_map(parse::<i64>)`: words that are not
      numbers are dropped. */
  function ParseLine(words: seq<string>): (r: seq<int>)
    ensures |r| <= |words|
  {
    if words == [] then []
    else
      var init := ParseLine(words[..|words| - 1]);
      match ParseInt(words[|words| - 1])
      case None => init
      case Some(v) => init + [v]
  }

  function Lines(lines: seq<string>): (r: seq<seq<int>>)
    ensures |r| == |lines|
  {
    seq(|lines|, k requires 0 <= k < |lines| => ParseLine(Words(lines[k])))
  }

  /** The extrapolated values of every line, forwards or backwards. */
  function Values(ls: seq<seq<int>>, forwards: bool): (r: seq<int>)
    ensures |r| == |ls|
  {
    seq(|ls|, k requires 0 <= k < |ls| => if forwards then Next(ls[k]) else Prev(ls[k]))
  }

  /** The body of each part's fold for one line: record the levels, then
      fold them back in reverse. */
  method LineValue(line: seq<int>, forwards: bool) returns (v: int)
    ensures v == if forwards then Next(line) else Prev(line)
  {
    var recorded := Record(line, forwards);
    if forwards {
      RightMostTails(line);
      v := RightMost(Reverse(recorded));
    } else {
      LeftMostHeads(line);
      v := LeftMost(Reverse(recorded));
    }
  }

  /** Both parts: the outer fold adds each line's value to `ans`. */
  method Solve(lines: seq<string>, forwards: bool) returns (ans: int)
    ensures ans == Sum(Values(Lines(lines), forwards))
  {
    var ls := Lines(lines);
    ghost var vals := Values(ls, forwards);
    ans := 0;
    for i := 0 to |ls|
      invariant ans == Sum(vals[..i])
    {
      var v := LineValue(ls[i], forwards);
      assert vals[..i + 1][..i] == vals[..i] && vals[i] == v;
      ans := ans + v;
    }
    assert vals[..|ls|] == vals;
  }

  /** Part 1: the sum of the forward extrapolations. */
  method Part1(lines: seq<string>) returns (ans: int)
    ensures ans == Sum(Values(Lines(lines), true))
  {
    ans := Solve(lines, true);
  }

  /** Part 2: the sum of the backward extrapolations. */
  method Part2(lines: seq<string>) returns (ans: int)
    ensures ans == Sum(Values(Lines(lines), false))
  {
    ans := Solve(lines, false);
  }
}
