/** Day 8 (Haunted Wasteland): a network of nodes, each with a left and a
    right successor, is walked following a cyclic list of `L`/`R`
    instructions. Part 1 counts the steps from `AAA` to `ZZZ`; part 2 walks
    from every node ending in `A` to a node ending in `Z` and combines the
    counts with the least-common-multiple fold. */
module Day8 {
  import opened Common
  import opened Text
  import opened Arith

  /** The successors of a node: index 0 is left, index 1 is right. */
  type Rules = map<string, (string, string)>

  // ---------------------------------------------------------------------
  // Parsing
  // ---------------------------------------------------------------------

  /** One instruction character: `L` is 0, `R` is 1, anything else is
      unreachable. */
  function Instruction(c: char): Option<nat>
  {
    if c == 'L' then Some(0) else if c == 'R' then Some(1) else None
  }

  /** The instruction line, character by character. */
  function ParseInstructions(line: string): (r: Option<seq<nat>>)
    ensures r.Some? <==> forall k :: 0 <= k < |line| ==> line[k] == 'L' || line[k] == 'R'
    ensures r.Some? ==> |r.value| == |line| && forall k :: 0 <= k < |line| ==> r.value[k] == if line[k] == 'L' then 0 else 1
  {
    var opts := seq(|line|, k requires 0 <= k < |line| => Instruction(line[k]));
    CollectExact(opts);
    assert forall k :: 0 <= k < |line| ==> (opts[k].Some? <==> line[k] == 'L' || line[k] == 'R');
    Collect(opts)
  }

  /** One rule `FROM = (LEFT, RIGHT)`: split on `=`, the trimmed first piece
      names the node, and the second piece, stripped of spaces and
      parentheses, splits on ", " into the two successors. A missing piece
      panics. */
  function ParseRule(line: string): Option<(string, (string, string))>
  {
    var pieces := Split(line, '=');
    if |pieces| < 2 then None
    else
      var to := SplitStr(TrimMatches(pieces[1], {' ', '(', ')'}), ", ");
      if |to| < 2 then None else Some((Trim(pieces[0]), (to[0], to[1])))
  }

  /** The input without blank lines: the instructions and then one rule per
      line, later rules for a node replacing earlier ones. */
  function ParseInput(lines: seq<string>): Option<(seq<nat>, Rules)>
  {
    var kept := NonEmpty(lines);
    if kept == [] then None
    else
      match ParseInstructions(kept[0])
      case None => None
      case Some(instructions) =>
        var rest := kept[1..];
        match InsertAll(seq(|rest|, k requires 0 <= k < |rest| => ParseRule(rest[k])))
        case None => None
        case Some(rules) => Some((instructions, rules))
  }

  /** A node name: non-empty, without whitespace, parentheses, `=` or `,`. */
  predicate Name(s: string)
  {
    s != [] && forall k :: 0 <= k < |s| ==> s[k] !in {'(', ')', '=', ','} && !IsWhitespace(s[k])
  }

  /** A rule written in the puzzle's format parses to its node and its two
      successors. */
  lemma ParseRuleFormat(a: string, b: string, c: string)
    requires Name(a) && Name(b) && Name(c)
    ensures ParseRule(a + " = (" + b + ", " + c + ")") == Some((a, (b, c)))
  {
    var line := a + " = (" + b + ", " + c + ")";
    var right := " (" + b + ", " + c + ")";
    assert line == (a + " ") + ['='] + right;
    SplitOnFirst(a + " ", '=', right, {'='});
    SplitOnNone(right, {'='});
    assert Split(line, '=') == [a + " ", right];
    TrimName(a);
    StripParens(b, c);
    SplitStrPair(b, c);
  }

  /** Trimming a name followed by a space gives the name. */
  lemma TrimName(a: string)
    requires Name(a)
    ensures Trim(a + " ") == a
  {
    var s := a + " ";
    var strip := set ch: char | ch in s && IsWhitespace(ch);
    assert ' ' in strip;
    assert s[..|s| - 1] == a;
    forall ch | ch in a
      ensures ch !in strip
    {
    }
    assert TrimMatches(s, strip) == TrimMatches(a, strip);
  }

  /** Stripping spaces and parentheses off " (b, c)" leaves "b, c". */
  lemma StripParens(b: string, c: string)
    requires Name(b) && Name(c)
    ensures TrimMatches(" (" + b + ", " + c + ")", {' ', '(', ')'}) == b + ", " + c
  {
    var strip := {' ', '(', ')'};
    var s := " (" + b + ", " + c + ")";
    var t := b + ", " + c;
    assert s[1..] == "(" + b + ", " + c + ")";
    assert s[1..][1..] == t + ")";
    assert t[0] == b[0] && t[|t| - 1] == c[|c| - 1];
    assert t[0] !in strip && t[|t| - 1] !in strip;
    TrimClosing(t, ')', strip);
    assert TrimMatches(s[1..], strip) == TrimMatches(t + ")", strip);
  }

  /** A closing character to strip after a kept text goes. */
  lemma TrimClosing(t: string, ch: char, strip: set<char>)
    requires t != [] && t[0] !in strip && t[|t| - 1] !in strip && ch in strip
    ensures TrimMatches(t + [ch], strip) == t
  {
    assert (t + [ch])[..|t|] == t;
    assert (t + [ch])[0] == t[0];
  }

  /** Splitting "b, c" on ", " gives b and c. */
  lemma SplitStrPair(b: string, c: string)
    requires Name(b) && Name(c)
    ensures SplitStr(b + ", " + c, ", ") == [b, c]
  {
    SplitStrNoSep(c);
    SplitStrAfter(b, c);
  }

  /** A name holds no ", ". */
  lemma {:induction false} SplitStrNoSep(c: string)
    requires forall k :: 0 <= k < |c| ==> c[k] != ','
    ensures SplitStr(c, ", ") == [c]
    decreases |c|
  {
    if |c| >= 2 {
      SplitStrNoSep(c[1..]);
      assert [c[0]] + c[1..] == c;
    }
  }

  /** A name followed by ", " and more splits off as the first piece. */
  lemma {:induction false} SplitStrAfter(b: string, c: string)
    requires forall k :: 0 <= k < |b| ==> b[k] != ','
    requires SplitStr(c, ", ") == [c]
    ensures SplitStr(b + ", " + c, ", ") == [b, c]
    decreases |b|
  {
    var s := b + ", " + c;
    if b == [] {
      assert s[..2] == ", " && s[2..] == c;
    } else {
      SplitStrAfter(b[1..], c);
      var t := b[1..] + ", " + c;
      assert [b[0]] + b[1..] == b;
      assert s == [b[0]] + t;
      SplitStrCons(b[0], t);
    }
  }

  /** A character other than ',' in front joins the first piece. */
  lemma SplitStrCons(ch: char, t: string)
    requires ch != ',' && |t| >= 1
    ensures SplitStr([ch] + t, ", ") == [[ch] + SplitStr(t, ", ")[0]] + SplitStr(t, ", ")[1..]
  {
    var s := [ch] + t;
    assert s[1..] == t;
    assert s[..2][0] == ch;
  }

  // ---------------------------------------------------------------------
  // Walking
  // ---------------------------------------------------------------------

  /** The successor chosen by an instruction. */
  function Choose(next: (string, string), d: nat): string
  {
    if d == 0 then next.0 else next.1
  }

  /** One step from node `cur` at instruction `ind`: follow the instruction
      and advance the index cyclically. A node without a rule, or an empty
      instruction list, panics. */
  function Step(rules: Rules, instructions: seq<nat>, cur: string, ind: nat): (r: Option<(string, nat)>)
    ensures r.Some? ==> r.value.1 < |instructions|
  {
    if cur !in rules || ind >= |instructions| then None
    else Some((Choose(rules[cur], instructions[ind]), (ind + 1) % |instructions|))
  }

  /** The state after k steps, None once a step panics. */
  function Trace(rules: Rules, instructions: seq<nat>, cur: string, ind: nat, k: nat): Option<(string, nat)>
    decreases k
  {
    if k == 0 then Some((cur, ind))
    else
      match Step(rules, instructions, cur, ind)
      case None => None
      case Some((next, ind')) => Trace(rules, instructions, next, ind', k - 1)
  }

  /** The number of steps until a node satisfies `goal`, walking at most
      `fuel` steps; None when a step panics or the fuel runs out. */
  function StepsUntil(rules: Rules, instructions: seq<nat>, goal: string -> bool, cur: string, ind: nat, fuel: nat): Option<nat>
    decreases fuel
  {
    if goal(cur) then Some(0)
    else if fuel == 0 then None
    else
      match Step(rules, instructions, cur, ind)
      case None => None
      case Some((next, ind')) =>
        match StepsUntil(rules, instructions, goal, next, ind', fuel - 1)
        case None => None
        case Some(n) => Some(n + 1)
  }

  /** After exactly n steps, and within the fuel, the walk stands on a goal
      node, having passed none before. */
  predicate Reaches(rules: Rules, instructions: seq<nat>, goal: string -> bool, cur: string, ind: nat, fuel: nat, n: nat)
  {
    n <= fuel && Trace(rules, instructions, cur, ind, n).Some? && goal(Trace(rules, instructions, cur, ind, n).value.0)
    && forall j :: 0 <= j < n ==> Trace(rules, instructions, cur, ind, j).Some? && !goal(Trace(rules, instructions, cur, ind, j).value.0)
  }

  /** A count of n steps means the walk reaches a goal node after n steps
      and passes none before; and a walk that reaches a goal within the fuel
      without panicking is counted. */
  lemma {:induction false} StepsUntilMeaning(rules: Rules, instructions: seq<nat>, goal: string -> bool, cur: string, ind: nat, fuel: nat, n: nat)
    ensures StepsUntil(rules, instructions, goal, cur, ind, fuel) == Some(n) <==> Reaches(rules, instructions, goal, cur, ind, fuel, n)
    decreases fuel
  {
    if goal(cur) {
      if n > 0 {
        assert Trace(rules, instructions, cur, ind, 0) == Some((cur, ind));
      }
    } else if fuel > 0 && n > 0 {
      match Step(rules, instructions, cur, ind)
      case None =>
        assert Trace(rules, instructions, cur, ind, n).None?;
      case Some((next, ind')) =>
        StepsUntilMeaning(rules, instructions, goal, next, ind', fuel - 1, n - 1);
        ReachesShift(rules, instructions, goal, cur, ind, next, ind', fuel, n);
    }
  }

  /** Reaching a goal in n steps is reaching it in n - 1 steps from the
      successor. */
  lemma ReachesShift(rules: Rules, instructions: seq<nat>, goal: string -> bool, cur: string, ind: nat, next: string, ind': nat, fuel: nat, n: nat)
    requires !goal(cur) && fuel > 0 && n > 0
    requires Step(rules, instructions, cur, ind) == Some((next, ind'))
    ensures Reaches(rules, instructions, goal, cur, ind, fuel, n) <==> Reaches(rules, instructions, goal, next, ind', fuel - 1, n - 1)
  {
    forall j | 0 < j <= n
      ensures Trace(rules, instructions, cur, ind, j) == Trace(rules, instructions, next, ind', j - 1)
    {
    }
    if Reaches(rules, instructions, goal, next, ind', fuel - 1, n - 1) {
      forall j | 0 <= j < n
        ensures Trace(rules, instructions, cur, ind, j).Some? && !goal(Trace(rules, instructions, cur, ind, j).value.0)
      {
        if j > 0 {
          assert Trace(rules, instructions, cur, ind, j) == Trace(rules, instructions, next, ind', j - 1);
        }
      }
    }
    if Reaches(rules, instructions, goal, cur, ind, fuel, n) {
      forall j | 0 <= j < n - 1
        ensures Trace(rules, instructions, next, ind', j).Some? && !goal(Trace(rules, instructions, next, ind', j).value.0)
      {
        assert Trace(rules, instructions, cur, ind, j + 1) == Trace(rules, instructions, next, ind', j);
      }
    }
  }

  /** A walk counted up to an intermediate state. */
  function Plus(o: Option<nat>, k: nat): Option<nat>
  {
    match o
    case None => None
    case Some(n) => Some(n + k)
  }

  /** The `while` loop of both parts: step until the goal holds, counting
      the steps, with the instruction index kept below the number of
      instructions. */
  method Walk(rules: Rules, instructions: seq<nat>, goal: string -> bool, start: string, fuel: nat) returns (r: Option<nat>)
    ensures r == StepsUntil(rules, instructions, goal, start, 0, fuel)
  {
    var cur := start;
    var ind: nat, cnt: nat := 0, 0;
    while !goal(cur)
      invariant cnt <= fuel
      invariant |instructions| > 0 ==> ind < |instructions|
      invariant StepsUntil(rules, instructions, goal, start, 0, fuel) == Plus(StepsUntil(rules, instructions, goal, cur, ind, fuel - cnt), cnt)
      decreases fuel - cnt
    {
      if cnt == fuel || cur !in rules || |instructions| == 0 {
        return None;
      }
      cur := Choose(rules[cur], instructions[ind]);
      ind := (ind + 1) % |instructions|;
      cnt := cnt + 1;
    }
    return Some(cnt);
  }

  // ---------------------------------------------------------------------
  // The two parts
  // ---------------------------------------------------------------------

  /** `ends_with` for a one-character suffix. */
  predicate EndsWith(s: string, c: char)
  {
    |s| > 0 && s[|s| - 1] == c
  }

  /** Part 1: the steps from `AAA` until `ZZZ`. */
  method Part1(lines: seq<string>, fuel: nat) returns (r: Option<nat>)
    ensures r == match ParseInput(lines)
      case None => None
      case Some((instructions, rules)) => StepsUntil(rules, instructions, s => s == "ZZZ", "AAA", 0, fuel)
  {
    match ParseInput(lines)
    case None => return None;
    case Some((instructions, rules)) =>
      r := Walk(rules, instructions, s => s == "ZZZ", "AAA", fuel);
  }

  /** The start nodes listed in some order: every node ending in `A`, each
      once. */
  predicate Enumerates(order: seq<string>, rules: Rules)
  {
    (forall k :: 0 <= k < |order| ==> order[k] in rules && EndsWith(order[k], 'A'))
    && (forall s :: s in rules && EndsWith(s, 'A') ==> s in order)
    && forall j, k :: 0 <= j < k < |order| ==> order[j] != order[k]
  }

  /** A node ending in `Z`, the goal of part 2. */
  predicate AtEnd(s: string)
  {
    EndsWith(s, 'Z')
  }

  /** The walk from each start node to a node ending in `Z`. */
  function Walks(rules: Rules, instructions: seq<nat>, order: seq<string>, fuel: nat): (r: seq<Option<nat>>)
    ensures |r| == |order|
    ensures forall k :: 0 <= k < |order| ==> r[k] == StepsUntil(rules, instructions, AtEnd, order[k], 0, fuel)
  {
    seq(|order|, k requires 0 <= k < |order| => StepsUntil(rules, instructions, AtEnd, order[k], 0, fuel))
  }

  /** The walk lengths from the given start nodes, combined by the
      least-common-multiple fold. */
  function Combined(rules: Rules, instructions: seq<nat>, order: seq<string>, fuel: nat): Option<nat>
  {
    match Collect(Walks(rules, instructions, order, fuel))
    case None => None
    case Some(counts) => LcmFold(counts)
  }

  /** The walks one after another; a walk that panics or runs out of fuel
      ends the computation. */
  method WalkAll(rules: Rules, instructions: seq<nat>, order: seq<string>, fuel: nat) returns (r: Option<seq<nat>>)
    ensures r == Collect(Walks(rules, instructions, order, fuel))
  {
    var walks := Walks(rules, instructions, order, fuel);
    var counts: seq<nat> := [];
    var i := 0;
    while i < |order|
      invariant i <= |order|
      invariant Collect(walks[..i]) == Some(counts)
    {
      var c := Walk(rules, instructions, AtEnd, order[i], fuel);
      assert walks[..i + 1] == walks[..i] + [c];
      CollectSnoc(walks[..i], c);
      if c.None? {
        CollectExact(walks);
        return None;
      }
      counts := counts + [c.value];
      i := i + 1;
    }
    assert walks[..|order|] == walks;
    return Some(counts);
  }

  /** Part 2 with the start nodes in the order `order` (the map's iteration
      order): each walk runs until a node ending in `Z`, and the counts are
      folded with `ans * x / gcd(ans, x)`. */
  method Part2(lines: seq<string>, order: seq<string>, fuel: nat) returns (r: Option<nat>)
    requires ParseInput(lines).Some? ==> Enumerates(order, ParseInput(lines).value.1)
    ensures r == match ParseInput(lines)
      case None => None
      case Some((instructions, rules)) => Combined(rules, instructions, order, fuel)
  {
    match ParseInput(lines)
    case None => return None;
    case Some((instructions, rules)) =>
      var counts := WalkAll(rules, instructions, order, fuel);
      if counts.None? {
        return None;
      }
      r := LcmLoop(counts.value);
  }

  /** Every walk length divides the part 2 answer. */
  lemma CombinedMultiple(rules: Rules, instructions: seq<nat>, order: seq<string>, fuel: nat, k: nat)
    requires Combined(rules, instructions, order, fuel).Some? && k < |order|
    ensures var n := StepsUntil(rules, instructions, AtEnd, order[k], 0, fuel);
      n.Some? && Divides(n.value, Combined(rules, instructions, order, fuel).value)
  {
    var walks := Walks(rules, instructions, order, fuel);
    CollectExact(walks);
    var counts := Collect(walks).value;
    LcmFoldMultiple(counts, k);
  }
}
