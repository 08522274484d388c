/** Day 19 (Aplenty): workflows of comparison rules that send a part rating
    from workflow to workflow until it is accepted ("A") or rejected; part 2
    pushes whole boxes of ratings through the same rules, narrowing one
    interval per rule. */
module Day19 {
  import opened Common
  import opened Text

  datatype Part = X | M | A | S

  /** `Part::indx`. */
  function Index(p: Part): (i: nat)
    ensures i < 4
  {
    match p
    case X => 0
    case M => 1
    case A => 2
    case S => 3
  }

  /** The four categories have distinct indices. */
  lemma IndexInjective(p: Part, q: Part)
    requires Index(p) == Index(q)
    ensures p == q
  {
  }

  /** `Part::from`: exactly one of the letters x, m, a, s; anything else
      fails an assertion or reaches `unreachable!`. */
  function ParsePart(s: string): (r: Option<Part>)
    ensures r.Some? <==> s == "x" || s == "m" || s == "a" || s == "s"
  {
    if |s| != 1 then None
    else if s == "x" then Some(X)
    else if s == "m" then Some(M)
    else if s == "a" then Some(A)
    else if s == "s" then Some(S)
    else None
  }

  function PartName(p: Part): string
  {
    match p
    case X => "x"
    case M => "m"
    case A => "a"
    case S => "s"
  }

  lemma ParsePartName(p: Part)
    ensures ParsePart(PartName(p)) == Some(p)
  {
  }

  datatype RuleType = Le | Ge

  datatype Rule = Rule(t: RuleType, part: Part, value: int, next: string)

  /** `Rule::reverse`: the complementary comparison. */
  function Reverse(r: Rule): Rule
  {
    match r.t
    case Le => r.(t := Ge, value := r.value - 1)
    case Ge => r.(t := Le, value := r.value + 1)
  }

  /** Reversing twice gives the rule back, with its part and target kept. */
  lemma ReverseInvolution(r: Rule)
    ensures Reverse(Reverse(r)) == r
    ensures Reverse(r).part == r.part && Reverse(r).next == r.next
  {
  }

  /** The comparison `Rule::next` performs on the rating of the rule's part. */
  predicate Fires(r: Rule, v: int)
  {
    match r.t
    case Le => v < r.value
    case Ge => v > r.value
  }

  /** A rule and its reverse fire on complementary ratings. */
  lemma ReverseFires(r: Rule, v: int)
    ensures Fires(Reverse(r), v) <==> !Fires(r, v)
  {
  }

  /** A closed interval of ratings. */
  datatype Range = Range(left: int, right: int)

  predicate InRange(v: int, rg: Range)
  {
    rg.left <= v <= rg.right
  }

  function Width(rg: Range): int
  {
    rg.right - rg.left + 1
  }

  /** `Range::apply_rule`: the sub-interval on which the rule fires, or
      `None` when it is empty. */
  function ApplyRule(rg: Range, r: Rule): Option<Range>
  {
    match r.t
    case Le =>
      var right := if rg.right < r.value - 1 then rg.right else r.value - 1;
      if rg.left <= right then Some(Range(rg.left, right)) else None
    case Ge =>
      var left := if rg.left > r.value + 1 then rg.left else r.value + 1;
      if left <= rg.right then Some(Range(left, rg.right)) else None
  }

  /** A rating lies in the narrowed interval iff it lies in the interval and
      the rule fires on it; `None` means no rating in the interval fires. */
  lemma ApplyRuleMembership(rg: Range, r: Rule, v: int)
    ensures ApplyRule(rg, r).Some? ==> (InRange(v, ApplyRule(rg, r).value) <==> InRange(v, rg) && Fires(r, v))
    ensures ApplyRule(rg, r).None? ==> !(InRange(v, rg) && Fires(r, v))
  {
  }

  /** `apply_rule` is `None` exactly when the narrowed interval is empty, and
      a narrowed interval is never empty. */
  lemma ApplyRuleEmpty(rg: Range, r: Rule)
    ensures ApplyRule(rg, r).None? <==> forall v :: InRange(v, rg) ==> !Fires(r, v)
    ensures ApplyRule(rg, r).Some? ==> Width(ApplyRule(rg, r).value) >= 1
  {
    if ApplyRule(rg, r).Some? {
      var u := ApplyRule(rg, r).value;
      ApplyRuleMembership(rg, r, u.left);
    }
  }

  /** A rule and its reverse split an interval into two disjoint pieces that
      cover it, so their widths add up. */
  lemma SplitCovers(rg: Range, r: Rule, v: int)
    requires InRange(v, rg)
    ensures ApplyRule(rg, r).Some? || ApplyRule(rg, Reverse(r)).Some?
    ensures !(ApplyRule(rg, r).Some? && InRange(v, ApplyRule(rg, r).value)
              && ApplyRule(rg, Reverse(r)).Some? && InRange(v, ApplyRule(rg, Reverse(r)).value))
    ensures (ApplyRule(rg, r).Some? && InRange(v, ApplyRule(rg, r).value))
            || (ApplyRule(rg, Reverse(r)).Some? && InRange(v, ApplyRule(rg, Reverse(r)).value))
  {
    ApplyRuleMembership(rg, r, v);
    ApplyRuleMembership(rg, Reverse(r), v);
    ReverseFires(r, v);
  }

  function WidthOr0(o: Option<Range>): int
  {
    if o.Some? then Width(o.value) else 0
  }

  lemma SplitWidths(rg: Range, r: Rule)
    requires Width(rg) >= 1
    ensures WidthOr0(ApplyRule(rg, r)) + WidthOr0(ApplyRule(rg, Reverse(r))) == Width(rg)
  {
  }

  // ---------------------------------------------------------------------
  // Parsing
  // ---------------------------------------------------------------------

  datatype Workflow = Workflow(rules: seq<Rule>, out: string)

  /** One comma-separated entry of a workflow: the rules it adds (a
      definition containing both `<` and `>` adds one rule for each), or a
      fallback target when it has no `:`. */
  datatype Entry = Rules(rules: seq<Rule>) | Fallback(target: string)

  /** `p<v` or `p>v` split on the comparison character: the part, then the
      value parsed as an `i128`. */
  function ParseCondition(def: string, c: char, t: RuleType, to: string): Option<seq<Rule>>
  {
    var pieces := Split(def, c);
    if |pieces| < 2 then None
    else
      match ParsePart(pieces[0])
      case None => None
      case Some(p) =>
        match ParseInt(pieces[1])
        case None => None
        case Some(v) => Some([Rule(t, p, v, to)])
  }

  function ParseEntry(s: string): Option<Entry>
  {
    var pieces := Split(s, ':');
    var def := pieces[0];
    if |pieces| >= 2 then
      var le := if '<' in def then ParseCondition(def, '<', Le, pieces[1]) else Some([]);
      var ge := if '>' in def then ParseCondition(def, '>', Ge, pieces[1]) else Some([]);
      if le.None? || ge.None? then None else Some(Rules(le.value + ge.value))
    else Some(Fallback(def))
  }

  /** The text of a rule as the puzzle writes it. */
  function RuleText(r: Rule): string
  {
    PartName(r.part) + [Symbol(r.t)] + IntToDecimal(r.value) + ":" + r.next
  }

  /** The comparison character of a rule type. */
  function Symbol(t: RuleType): char
  {
    if t == Le then '<' else '>'
  }

  lemma ConditionRoundTrip(r: Rule)
    ensures ParseCondition(PartName(r.part) + [Symbol(r.t)] + IntToDecimal(r.value), Symbol(r.t), r.t, r.next) == Some([r])
  {
    var c := Symbol(r.t);
    var digits := IntToDecimal(r.value);
    SplitOnFirst(PartName(r.part), c, digits, {c});
    SplitOnNone(digits, {c});
    IntToDecimalRoundTrip(r.value);
    ParsePartName(r.part);
  }

  /** The condition part of a rule's text. */
  function ConditionText(r: Rule): string
  {
    PartName(r.part) + [Symbol(r.t)] + IntToDecimal(r.value)
  }

  /** The condition holds its own comparison character and not the other. */
  lemma ConditionSymbols(r: Rule)
    ensures Symbol(r.t) in ConditionText(r)
    ensures Symbol(if r.t == Le then Ge else Le) !in ConditionText(r)
  {
    var def := ConditionText(r);
    var other := Symbol(if r.t == Le then Ge else Le);
    assert def[|PartName(r.part)|] == Symbol(r.t);
    assert forall k :: 0 <= k < |def| ==> def[k] != other;
  }

  /** A rule's text splits at `:` into its condition and its target. */
  lemma SplitRuleText(r: Rule)
    requires ':' !in r.next
    ensures Split(RuleText(r), ':') == [ConditionText(r), r.next]
  {
    var def := ConditionText(r);
    assert RuleText(r) == def + [':'] + r.next;
    SplitOnFirst(def, ':', r.next, {':'});
    SplitOnNone(r.next, {':'});
  }

  /** `p<v:next` parses to a `Le` rule and `p>v:next` to a `Ge` rule. */
  lemma ParseEntryRoundTrip(r: Rule)
    requires ':' !in r.next
    ensures ParseEntry(RuleText(r)) == Some(Rules([r]))
  {
    SplitRuleText(r);
    ConditionSymbols(r);
    ConditionRoundTrip(r);
    if r.t == Le {
      assert ParseEntry(RuleText(r)) == Some(Rules([r] + []));
      assert [r] + [] == [r];
    } else {
      assert ParseEntry(RuleText(r)) == Some(Rules([] + [r]));
      assert [] + [r] == [r];
    }
  }

  /** An entry without `:` is the fallback target. */
  lemma ParseFallback(target: string)
    requires ':' !in target
    ensures ParseEntry(target) == Some(Fallback(target))
  {
    SplitOnNone(target, {':'});
  }

  /** Folds the entries of a workflow: rules are appended in order, and the
      last fallback wins (the empty name when there is none). */
  function CollectEntries(entries: seq<Entry>): Workflow
  {
    if entries == [] then Workflow([], "")
    else
      var w := CollectEntries(entries[..|entries| - 1]);
      match entries[|entries| - 1]
      case Rules(rs) => w.(rules := w.rules + rs)
      case Fallback(t) => w.(out := t)
  }

  function ParseEntries(texts: seq<string>): (r: Option<seq<Entry>>)
    ensures r.Some? ==> |r.value| == |texts|
  {
    if texts == [] then Some([])
    else
      match ParseEntries(texts[..|texts| - 1])
      case None => None
      case Some(init) =>
        match ParseEntry(texts[|texts| - 1])
        case None => None
        case Some(e) => Some(init + [e])
  }

  /** `name{entries}`: split on the braces, the name first. */
  function ParseWorkflowLine(line: string): Option<(string, Workflow)>
  {
    var pieces := SplitOn(line, {'{', '}'});
    if |pieces| < 2 then None
    else
      match ParseEntries(Split(pieces[1], ','))
      case None => None
      case Some(entries) => Some((pieces[0], CollectEntries(entries)))
  }

  type Item = map<Part, int>

  /** `{x=..,m=..}`: braces trimmed, then `part=value` pairs; a repeated part
      keeps its last value. */
  function ParseItem(line: string): Option<Item>
  {
    ParseAssignments(Split(TrimMatches(line, {'{', '}'}), ','))
  }

  function ParseAssignments(texts: seq<string>): Option<Item>
  {
    if texts == [] then Some(map[])
    else
      match ParseAssignments(texts[..|texts| - 1])
      case None => None
      case Some(item) =>
        var pieces := Split(texts[|texts| - 1], '=');
        if |pieces| < 2 then None
        else
          match ParsePart(pieces[0])
          case None => None
          case Some(p) =>
            match ParseInt(pieces[1])
            case None => None
            case Some(v) => Some(item[p := v])
  }

  /** The input as the workflow block and the item block (slices between
      empty lines); later blocks are ignored. */
  datatype Input = Input(workflows: map<string, Workflow>, items: seq<Item>)

  /** The workflow map of the first block, one line per workflow. */
  function WorkflowMap(first: seq<string>): Option<map<string, Workflow>>
  {
    InsertAll(seq(|first|, k requires 0 <= k < |first| => ParseWorkflowLine(first[k])))
  }



  /** The workflow loop of `parse_input`: one insertion per line. */
  method ParseWorkflows(first: seq<string>) returns (r: Option<map<string, Workflow>>)
    ensures r == WorkflowMap(first)
  {
    ghost var ws := seq(|first|, k requires 0 <= k < |first| => ParseWorkflowLine(first[k]));
    var workflows: map<string, Workflow> := map[];
    for i := 0 to |first|
      invariant InsertAll(ws[..i]) == Some(workflows)
    {
      var w := ParseWorkflowLine(first[i]);
      assert w == ws[i];
      InsertStep(ws, i);
      if w.None? {
        InsertAllSome(ws);
        return None;
      }
      workflows := workflows[w.value.0 := w.value.1];
    }
    assert ws[..|first|] == ws;
    return Some(workflows);
  }

  /** The items of the second block, in order; None once a line fails. */
  function ItemList(second: seq<string>): Option<seq<Item>>
  {
    Collect(seq(|second|, k requires 0 <= k < |second| => ParseItem(second[k])))
  }

  /** The item loop of `parse_input`: one item per line, in order. */
  method ParseItems(second: seq<string>) returns (r: Option<seq<Item>>)
    ensures r == ItemList(second)
  {
    ghost var opts := seq(|second|, k requires 0 <= k < |second| => ParseItem(second[k]));
    CollectExact(opts);
    var items: seq<Item> := [];
    for i := 0 to |second|
      invariant |items| == i
      invariant forall k :: 0 <= k < i ==> Some(items[k]) == ParseItem(second[k])
    {
      var item := ParseItem(second[i]);
      if item.None? {
        assert opts[i].None?;
        return None;
      }
      items := items + [item.value];
    }
    assert Collect(opts).value == items;
    return Some(items);
  }

  /** The workflows of the first block (empty lines separate blocks) and
      the items of the second; None where `parse_input` panics: a bad line,
      or no second block. */
  function InputOf(lines: seq<string>): Option<Input>
  {
    var blocks := SplitOn(lines, {[]});
    match WorkflowMap(blocks[0])
    case None => None
    case Some(workflows) =>
      if |blocks| < 2 then None
      else
        match ItemList(blocks[1])
        case None => None
        case Some(items) => Some(Input(workflows, items))
  }

  /** `parse_input`. */
  method ParseInput(lines: seq<string>) returns (r: Option<Input>)
    ensures r == InputOf(lines)
  {
    var blocks := SplitOn(lines, {[]});
    var workflows := ParseWorkflows(blocks[0]);
    if workflows.None? || |blocks| < 2 {
      return None;
    }
    var items := ParseItems(blocks[1]);
    if items.None? {
      return None;
    }
    return Some(Input(workflows.value, items.value));
  }

  // ---------------------------------------------------------------------
  // Part 1: following one item through the workflows
  // ---------------------------------------------------------------------

  /** The index of the first rule that fires on the item. */
  function FirstFiring(rules: seq<Rule>, item: Item): (r: Option<nat>)
    requires forall k :: 0 <= k < |rules| ==> rules[k].part in item
    ensures r.Some? ==> r.value < |rules| && Fires(rules[r.value], item[rules[r.value].part])
    ensures r.Some? ==> forall k :: 0 <= k < r.value ==> !Fires(rules[k], item[rules[k].part])
    ensures r.None? ==> forall k :: 0 <= k < |rules| ==> !Fires(rules[k], item[rules[k].part])
  {
    if rules == [] then None
    else if Fires(rules[0], item[rules[0].part]) then Some(0)
    else
      match FirstFiring(rules[1..], item)
      case None => None
      case Some(k) => Some(k + 1)
  }

  /** The part 1 `dfs`: `Some(accepted)`, or `None` when a rule reads a
      missing part (`unwrap` panics) or the walk visits more than `fuel`
      workflows (a cycle of workflows never returns). */
  function Accepts(cur: string, wfs: map<string, Workflow>, item: Item, fuel: nat): Option<bool>
    decreases fuel, 0, 0
  {
    if cur !in wfs then Some(cur == "A")
    else if fuel == 0 then None
    else Route(wfs[cur].rules, wfs[cur].out, wfs, item, fuel - 1)
  }

  /** The rule loop of one workflow: the first rule that fires decides,
      otherwise the fallback. */
  function Route(rules: seq<Rule>, out: string, wfs: map<string, Workflow>, item: Item, fuel: nat): Option<bool>
    decreases fuel, 1, |rules|
  {
    if rules == [] then Accepts(out, wfs, item, fuel)
    else if rules[0].part !in item then None
    else if Fires(rules[0], item[rules[0].part]) then Accepts(rules[0].next, wfs, item, fuel)
    else Route(rules[1..], out, wfs, item, fuel)
  }

  /** The first firing rule wins; with no firing rule the fallback decides. */
  lemma {:induction false} RouteFirstFiring(rules: seq<Rule>, out: string, wfs: map<string, Workflow>, item: Item, fuel: nat)
    requires forall k :: 0 <= k < |rules| ==> rules[k].part in item
    ensures Route(rules, out, wfs, item, fuel) ==
      match FirstFiring(rules, item)
      case Some(k) => Accepts(rules[k].next, wfs, item, fuel)
      case None => Accepts(out, wfs, item, fuel)
    decreases |rules|
  {
    if rules != [] && !Fires(rules[0], item[rules[0].part]) {
      RouteFirstFiring(rules[1..], out, wfs, item, fuel);
    }
  }

  /** More fuel never changes a verdict that was reached. */
  lemma {:induction false} AcceptsFuel(cur: string, wfs: map<string, Workflow>, item: Item, fuel: nat, more: nat)
    requires fuel <= more
    requires Accepts(cur, wfs, item, fuel).Some?
    ensures Accepts(cur, wfs, item, more) == Accepts(cur, wfs, item, fuel)
    decreases fuel, 0, 0
  {
    if cur in wfs {
      RouteFuel(wfs[cur].rules, wfs[cur].out, wfs, item, fuel - 1, more - 1);
    }
  }

  lemma {:induction false} RouteFuel(rules: seq<Rule>, out: string, wfs: map<string, Workflow>, item: Item, fuel: nat, more: nat)
    requires fuel <= more
    requires Route(rules, out, wfs, item, fuel).Some?
    ensures Route(rules, out, wfs, item, more) == Route(rules, out, wfs, item, fuel)
    decreases fuel, 1, |rules|
  {
    if rules == [] {
      AcceptsFuel(out, wfs, item, fuel, more);
    } else if rules[0].part in item {
      if Fires(rules[0], item[rules[0].part]) {
        AcceptsFuel(rules[0].next, wfs, item, fuel, more);
      } else {
        RouteFuel(rules[1..], out, wfs, item, fuel, more);
      }
    }
  }

  /** The sum of an item's ratings (`item.iter().map(..).sum()`). */
  function Rating(item: Item): int
  {
    (if X in item then item[X] else 0) + (if M in item then item[M] else 0)
    + (if A in item then item[A] else 0) + (if S in item then item[S] else 0)
  }

  /** The part 1 fold: the ratings of the accepted items, starting at "in". */
  function TotalAccepted(wfs: map<string, Workflow>, items: seq<Item>, fuel: nat): Option<int>
  {
    if items == [] then Some(0)
    else
      match TotalAccepted(wfs, items[..|items| - 1], fuel)
      case None => None
      case Some(total) =>
        match Accepts("in", wfs, items[|items| - 1], fuel)
        case None => None
        case Some(ok) => Some(total + if ok then Rating(items[|items| - 1]) else 0)
  }

  /** Only accepted items count: rejecting every item gives 0, and with
      non-negative ratings the total is non-negative. */
  lemma {:induction false} TotalAcceptedNonNegative(wfs: map<string, Workflow>, items: seq<Item>, fuel: nat)
    requires forall k :: 0 <= k < |items| ==> Rating(items[k]) >= 0
    requires TotalAccepted(wfs, items, fuel).Some?
    ensures TotalAccepted(wfs, items, fuel).value >= 0
    ensures (forall k :: 0 <= k < |items| ==> Accepts("in", wfs, items[k], fuel) == Some(false))
            ==> TotalAccepted(wfs, items, fuel) == Some(0)
    decreases |items|
  {
    if items != [] {
      TotalAcceptedNonNegative(wfs, items[..|items| - 1], fuel);
    }
  }

  /** Part 1: the ratings of the accepted items of the parsed input. */
  method Part1(lines: seq<string>, fuel: nat) returns (r: Option<int>)
    ensures r == match InputOf(lines)
      case None => None
      case Some(input) => TotalAccepted(input.workflows, input.items, fuel)
  {
    var input := ParseInput(lines);
    if input.None? {
      return None;
    }
    r := TotalAccepted(input.value.workflows, input.value.items, fuel);
  }

  // ---------------------------------------------------------------------
  // Part 2: counting the accepted ratings box by box
  // ---------------------------------------------------------------------

  /** Four intervals, one per category, indexed by `Index`. */
  predicate IsBox(rs: seq<Range>)
  {
    |rs| == 4 && forall i :: 0 <= i < 4 ==> Width(rs[i]) >= 1
  }

  /** The number of rating combinations in a box (`variants`). */
  function Volume(rs: seq<Range>): int
    requires |rs| == 4
  {
    Width(rs[0]) * Width(rs[1]) * Width(rs[2]) * Width(rs[3])
  }

  /** The part 2 `dfs` as a function: the number of accepted combinations in
      the box, or `None` when some rule's complement is empty (the
      `unreachable!`) or more than `fuel` nested workflows are visited. */
  function Count(cur: string, wfs: map<string, Workflow>, rs: seq<Range>, fuel: nat): Option<int>
    requires |rs| == 4
    decreases fuel, 0, 0
  {
    if cur !in wfs then Some(if cur == "A" then Volume(rs) else 0)
    else if fuel == 0 then None
    else CountRules(wfs[cur].rules, wfs[cur].out, wfs, rs, fuel - 1)
  }

  function CountRules(rules: seq<Rule>, out: string, wfs: map<string, Workflow>, rs: seq<Range>, fuel: nat): Option<int>
    requires |rs| == 4
    decreases fuel, 1, |rules|
  {
    if rules == [] then Count(out, wfs, rs, fuel)
    else
      var i := Index(rules[0].part);
      var taken := match ApplyRule(rs[i], rules[0])
        case None => Some(0)
        case Some(u) => Count(rules[0].next, wfs, rs[i := u], fuel);
      match ApplyRule(rs[i], Reverse(rules[0]))
      case None => None
      case Some(rv) =>
        var rest := CountRules(rules[1..], out, wfs, rs[i := rv], fuel);
        if taken.None? || rest.None? then None else Some(taken.value + rest.value)
  }

  lemma VolumeSplit(rs: seq<Range>, i: nat, u: Range, v: Range)
    requires |rs| == 4 && i < 4
    requires Width(u) + Width(v) == Width(rs[i])
    ensures Volume(rs[i := u]) + Volume(rs[i := v]) == Volume(rs)
  {
    VolumeFactor(rs, i, u);
    VolumeFactor(rs, i, v);
    MulAdd(Others(rs, i), Width(u), Width(v));
  }

  lemma MulAdd(o: int, a: int, b: int)
    ensures o * a + o * b == o * (a + b)
  {
  }

  lemma VolumePositive(rs: seq<Range>)
    requires IsBox(rs)
    ensures Volume(rs) >= 1
  {
    var w0, w1, w2, w3 := Width(rs[0]), Width(rs[1]), Width(rs[2]), Width(rs[3]);
    assert w0 * w1 >= 1;
    assert w0 * w1 * w2 >= 1;
  }

  /** The count of a box lies between 0 and the number of combinations in it:
      every combination is sent down exactly one branch. */
  lemma {:induction false} CountBounded(cur: string, wfs: map<string, Workflow>, rs: seq<Range>, fuel: nat)
    requires IsBox(rs)
    requires Count(cur, wfs, rs, fuel).Some?
    ensures 0 <= Count(cur, wfs, rs, fuel).value <= Volume(rs)
    decreases fuel, 0, 0
  {
    VolumePositive(rs);
    if cur in wfs {
      CountRulesBounded(wfs[cur].rules, wfs[cur].out, wfs, rs, fuel - 1);
    }
  }

  lemma {:induction false} CountRulesBounded(rules: seq<Rule>, out: string, wfs: map<string, Workflow>, rs: seq<Range>, fuel: nat)
    requires IsBox(rs)
    requires CountRules(rules, out, wfs, rs, fuel).Some?
    ensures 0 <= CountRules(rules, out, wfs, rs, fuel).value <= Volume(rs)
    decreases fuel, 1, |rules|
  {
    if rules == [] {
      CountBounded(out, wfs, rs, fuel);
    } else {
      var i := Index(rules[0].part);
      var rv := ApplyRule(rs[i], Reverse(rules[0])).value;
      ApplyRuleEmpty(rs[i], Reverse(rules[0]));
      CountRulesBounded(rules[1..], out, wfs, rs[i := rv], fuel);
      SplitWidths(rs[i], rules[0]);
      match ApplyRule(rs[i], rules[0])
      case None =>
        VolumeSplit(rs, i, Range(0, -1), rv);
      case Some(u) =>
        ApplyRuleEmpty(rs[i], rules[0]);
        CountBounded(rules[0].next, wfs, rs[i := u], fuel);
        VolumeSplit(rs, i, u, rv);
        VolumePositive(rs[i := u]);
    }
  }

  function Plus(a: int, o: Option<int>): Option<int>
  {
    if o.None? then None else Some(a + o.value)
  }

  /** The state of `dfs`'s rule loop in workflow `cur` before rule k:
      `curRanges` is what is left of the box after the complements of rules
      0..k-1, `variants` its volume, and the count of the box is `ans` plus
      the count of the rest. */
  predicate DfsAt(cur: string, wfs: map<string, Workflow>, rs: seq<Range>, fuel: nat, k: nat, ans: int,
                  curRanges: seq<Range>, variants: int)
  {
    |rs| == 4 && cur in wfs && fuel >= 1 && k <= |wfs[cur].rules|
    && IsBox(curRanges) && variants == Volume(curRanges)
    && Count(cur, wfs, rs, fuel) == Plus(ans, CountRules(wfs[cur].rules[k..], wfs[cur].out, wfs, curRanges, fuel - 1))
  }

  /** One turn of the rule loop: recurse into the rule's target with the
      part of the box it accepts, keep the complement. `ok` is false where
      the source returns early. */
  method DfsRule(cur: string, wfs: map<string, Workflow>, rs: seq<Range>, fuel: nat, k: nat, ans: int,
                 curRanges: seq<Range>, variants: int)
    returns (ok: bool, ans': int, curRanges': seq<Range>, variants': int)
    requires DfsAt(cur, wfs, rs, fuel, k, ans, curRanges, variants) && k < |wfs[cur].rules|
    ensures ok ==> DfsAt(cur, wfs, rs, fuel, k + 1, ans', curRanges', variants')
    ensures !ok ==> Count(cur, wfs, rs, fuel) == None
    decreases fuel, 0
  {
    var rules := wfs[cur].rules;
    assert rules[k..][1..] == rules[k + 1..];
    var rule := rules[k];
    var i := Index(rule.part);
    var range := curRanges[i];
    ans', curRanges', variants' := ans, curRanges, variants;
    var upd := ApplyRule(range, rule);
    if upd.Some? {
      ApplyRuleEmpty(range, rule);
      var toAdd := Dfs(rule.next, wfs, curRanges[i := upd.value], fuel - 1);
      if toAdd.None? {
        return false, ans', curRanges', variants';
      }
      ans' := ans + toAdd.value;
    }
    var rev := ApplyRule(range, Reverse(rule));
    if rev.None? {
      return false, ans', curRanges', variants';
    }
    ApplyRuleEmpty(range, Reverse(rule));
    variants' := VolumeAfter(curRanges, i, rev.value, variants);
    curRanges' := curRanges[i := rev.value];
    ok := true;
  }

  /** The part 2 `dfs`: the rule loop narrows a copy of the box, recursing
      into each rule's target with the part that fires and keeping the
      complement for the rules after it. */
  method Dfs(cur: string, wfs: map<string, Workflow>, rs: seq<Range>, fuel: nat) returns (r: Option<int>)
    requires IsBox(rs)
    ensures r == Count(cur, wfs, rs, fuel)
    decreases fuel, 1
  {
    var variants := Volume(rs);
    if cur !in wfs {
      return Some(if cur == "A" then variants else 0);
    }
    if fuel == 0 {
      return None;
    }
    var rules := wfs[cur].rules;
    var ans := 0;
    var curRanges := rs;
    assert rules[0..] == rules;
    for k := 0 to |rules|
      invariant DfsAt(cur, wfs, rs, fuel, k, ans, curRanges, variants)
    {
      var ok;
      ok, ans, curRanges, variants := DfsRule(cur, wfs, rs, fuel, k, ans, curRanges, variants);
      if !ok {
        return None;
      }
    }
    assert rules[|rules|..] == [];
    var last := Dfs(wfs[cur].out, wfs, curRanges, fuel - 1);
    r := Plus(ans, last);
  }

  /** The product of the widths of the box other than the i-th. */
  function Others(rs: seq<Range>, i: nat): int
    requires |rs| == 4 && i < 4
  {
    if i == 0 then Width(rs[1]) * Width(rs[2]) * Width(rs[3])
    else if i == 1 then Width(rs[0]) * Width(rs[2]) * Width(rs[3])
    else if i == 2 then Width(rs[0]) * Width(rs[1]) * Width(rs[3])
    else Width(rs[0]) * Width(rs[1]) * Width(rs[2])
  }

  lemma MulPick(a: int, b: int, c: int, d: int)
    ensures a * b * c * d == (b * c * d) * a
    ensures a * b * c * d == (a * c * d) * b
    ensures a * b * c * d == (a * b * d) * c
    ensures a * b * c * d == (a * b * c) * d
  {
  }

  /** The volume is the i-th width times the others, before and after
      the i-th range is replaced. */
  lemma VolumeFactor(rs: seq<Range>, i: nat, rv: Range)
    requires |rs| == 4 && i < 4
    ensures Volume(rs) == Others(rs, i) * Width(rs[i])
    ensures Volume(rs[i := rv]) == Others(rs, i) * Width(rv)
  {
    var a, b, c, d, x := Width(rs[0]), Width(rs[1]), Width(rs[2]), Width(rs[3]), Width(rv);
    var rs' := rs[i := rv];
    MulPick(a, b, c, d);
    if i == 0 {
      assert Volume(rs') == x * b * c * d;
      MulPick(x, b, c, d);
    } else if i == 1 {
      assert Volume(rs') == a * x * c * d;
      MulPick(a, x, c, d);
    } else if i == 2 {
      assert Volume(rs') == a * b * x * d;
      MulPick(a, b, x, d);
    } else {
      assert Volume(rs') == a * b * c * x;
      MulPick(a, b, c, x);
    }
  }

  /** `variants / (old width) * (new width)`: the division is exact because
      `variants` is the product of the widths. */
  method VolumeAfter(rs: seq<Range>, i: nat, rv: Range, variants: int) returns (v: int)
    requires IsBox(rs) && i < 4 && Width(rv) >= 1
    requires variants == Volume(rs)
    ensures v == Volume(rs[i := rv])
  {
    VolumeFactor(rs, i, rv);
    DivExact(Others(rs, i), Width(rs[i]));
    v := variants / Width(rs[i]) * Width(rv);
  }

  lemma DivExact(a: int, b: int)
    requires b >= 1
    ensures (a * b) / b == a
  {
    var q := (a * b) / b;
    var r := (a * b) % b;
    assert a * b == b * q + r && 0 <= r < b;
    assert b * (a - q) == r;
    MulBound(b, a - q);
  }

  lemma MulBound(b: int, d: int)
    requires b >= 1
    ensures d >= 1 ==> b * d >= b
    ensures d <= -1 ==> b * d <= -b
  {
  }

  /** The starting box: every category from 1 to 4000. */
  function FullBox(): (rs: seq<Range>)
    ensures IsBox(rs) && Volume(rs) == 4000 * 4000 * 4000 * 4000
  {
    [Range(1, 4000), Range(1, 4000), Range(1, 4000), Range(1, 4000)]
  }

  /** Part 2: the number of accepted combinations of the full box, at most
      4000^4. */
  method Part2(lines: seq<string>, fuel: nat) returns (r: Option<int>)
    ensures r == match InputOf(lines)
      case None => None
      case Some(input) => Count("in", input.workflows, FullBox(), fuel)
    ensures r.Some? ==> 0 <= r.value <= 4000 * 4000 * 4000 * 4000
  {
    var input := ParseInput(lines);
    if input.None? {
      return None;
    }
    r := Dfs("in", input.value.workflows, FullBox(), fuel);
    if r.Some? {
      CountBounded("in", input.value.workflows, FullBox(), fuel);
    }
  }
}
