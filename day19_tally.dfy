/** Day 19, part 2 against part 1: the count `dfs` returns for a box of
    ratings is the number of rating combinations in the box that the part 1
    walk accepts. `Tally` is the reference count: it enumerates the points
    of the box one category at a time. */
module Day19Tally {
  import opened Common
  import opened Day19

  /** The item with ratings x, m, a, s taken from a point of the box. */
  function ToItem(p: seq<int>): Item
    requires |p| == 4
  {
    map[X := p[0], M := p[1], A := p[2], S := p[3]]
  }

  /** Every category is rated, by the coordinate `Index` gives it. */
  lemma ToItemAt(p: seq<int>, q: Part)
    requires |p| == 4
    ensures q in ToItem(p) && ToItem(p)[q] == p[Index(q)]
  {
    match q
    case X =>
    case M =>
    case A =>
    case S =>
  }

  /** The points from which the walk from `cur` reaches "A". */
  function AcceptedAt(cur: string, wfs: map<string, Workflow>, fuel: nat): seq<int> -> bool
  {
    p => |p| == 4 && Accepts(cur, wfs, ToItem(p), fuel) == Some(true)
  }

  /** The points that a workflow's remaining rules send to "A". */
  function RoutedAt(rules: seq<Rule>, out: string, wfs: map<string, Workflow>, fuel: nat): seq<int> -> bool
  {
    p => |p| == 4 && Route(rules, out, wfs, ToItem(p), fuel) == Some(true)
  }

  /** The categories from `d` on of point `p` lie in the box. */
  predicate InBoxFrom(p: seq<int>, rs: seq<Range>, d: nat)
    requires |p| == 4 && |rs| == 4
  {
    forall j :: d <= j < 4 ==> InRange(p[j], rs[j])
  }

  function Clamp(w: int): nat
  {
    if w > 0 then w else 0
  }

  /** The number of points `p` with prefix `vals` whose remaining categories
      lie in the box and on which `f` holds: the last category still open
      is enumerated from its top value down. */
  ghost function Tally(rs: seq<Range>, vals: seq<int>, f: seq<int> -> bool): nat
    requires |rs| == 4 && |vals| <= 4
    decreases 4 - |vals|, if |vals| < 4 then Clamp(Width(rs[|vals|])) else 0
  {
    if |vals| == 4 then (if f(vals) then 1 else 0)
    else
      var d := |vals|;
      if Width(rs[d]) <= 0 then 0
      else Tally(rs[d := Range(rs[d].left, rs[d].right - 1)], vals, f) + Tally(rs, vals + [rs[d].right], f)
  }

  /** The number of points in the categories from `d` on. */
  function VolumeFrom(rs: seq<Range>, d: nat): nat
    requires |rs| == 4 && d <= 4
    decreases 4 - d
  {
    if d == 4 then 1 else Clamp(Width(rs[d])) * VolumeFrom(rs, d + 1)
  }

  /** The categories already fixed do not matter. */
  lemma {:induction false} TallyFrame(rs: seq<Range>, rt: seq<Range>, vals: seq<int>, f: seq<int> -> bool)
    requires |rs| == 4 && |rt| == 4 && |vals| <= 4
    requires forall j :: |vals| <= j < 4 ==> rs[j] == rt[j]
    ensures Tally(rs, vals, f) == Tally(rt, vals, f)
    decreases 4 - |vals|, if |vals| < 4 then Clamp(Width(rs[|vals|])) else 0
  {
    if |vals| < 4 {
      var d := |vals|;
      if Width(rs[d]) > 0 {
        var low := Range(rs[d].left, rs[d].right - 1);
        TallyFrame(rs[d := low], rt[d := low], vals, f);
        TallyFrame(rs, rt, vals + [rs[d].right], f);
      }
    }
  }

  /** A box with an empty open category holds no point. */
  lemma {:induction false} TallyEmpty(rs: seq<Range>, vals: seq<int>, f: seq<int> -> bool, i: nat)
    requires |rs| == 4 && |vals| <= i < 4 && Width(rs[i]) <= 0
    ensures Tally(rs, vals, f) == 0
    decreases 4 - |vals|, Clamp(Width(rs[|vals|]))
  {
    var d := |vals|;
    if i != d && Width(rs[d]) > 0 {
      TallyEmpty(rs[d := Range(rs[d].left, rs[d].right - 1)], vals, f, i);
      TallyEmpty(rs, vals + [rs[d].right], f, i);
    }
  }

  /** Counting two predicates that agree on the points of the box gives the
      same number. */
  lemma {:induction false} TallySame(rs: seq<Range>, vals: seq<int>, f: seq<int> -> bool, g: seq<int> -> bool)
    requires |rs| == 4 && |vals| <= 4
    requires forall p :: |p| == 4 && p[..|vals|] == vals && InBoxFrom(p, rs, |vals|) ==> f(p) == g(p)
    ensures Tally(rs, vals, f) == Tally(rs, vals, g)
    decreases 4 - |vals|, if |vals| < 4 then Clamp(Width(rs[|vals|])) else 0
  {
    var d := |vals|;
    if d == 4 {
      assert vals[..4] == vals;
      assert InBoxFrom(vals, rs, 4);
    } else if Width(rs[d]) > 0 {
      var low := rs[d := Range(rs[d].left, rs[d].right - 1)];
      forall p | |p| == 4 && p[..d] == vals && InBoxFrom(p, low, d)
        ensures f(p) == g(p)
      {
        assert InBoxFrom(p, rs, d);
      }
      TallySame(low, vals, f, g);
      var next := vals + [rs[d].right];
      forall p | |p| == 4 && p[..d + 1] == next && InBoxFrom(p, rs, d + 1)
        ensures f(p) == g(p)
      {
        assert p[..d] == p[..d + 1][..d];
        assert p[d] == next[d];
        assert InBoxFrom(p, rs, d);
      }
      TallySame(rs, next, f, g);
    }
  }

  /** `TallySame` for a whole box. */
  lemma TallySameBox(rs: seq<Range>, f: seq<int> -> bool, g: seq<int> -> bool)
    requires |rs| == 4
    requires forall p :: |p| == 4 && InBoxFrom(p, rs, 0) ==> f(p) == g(p)
    ensures Tally(rs, [], f) == Tally(rs, [], g)
  {
    TallySame(rs, [], f, g);
  }

  lemma MulStep(w: int, v: int)
    ensures (w - 1) * v + v == w * v
  {
  }

  /** A predicate that is constant on points counts all of them or none. */
  lemma {:induction false} TallyConst(rs: seq<Range>, vals: seq<int>, f: seq<int> -> bool, b: bool)
    requires |rs| == 4 && |vals| <= 4
    requires forall p :: |p| == 4 ==> f(p) == b
    ensures Tally(rs, vals, f) == if b then VolumeFrom(rs, |vals|) else 0
    decreases 4 - |vals|, if |vals| < 4 then Clamp(Width(rs[|vals|])) else 0
  {
    var d := |vals|;
    if d < 4 && Width(rs[d]) > 0 {
      var low := rs[d := Range(rs[d].left, rs[d].right - 1)];
      TallyConst(low, vals, f, b);
      TallyConst(rs, vals + [rs[d].right], f, b);
      VolumeFromFrame(low, rs, d + 1);
      MulStep(Width(rs[d]), VolumeFrom(rs, d + 1));
    }
  }

  lemma {:induction false} VolumeFromFrame(rs: seq<Range>, rt: seq<Range>, d: nat)
    requires |rs| == 4 && |rt| == 4 && d <= 4
    requires forall j :: d <= j < 4 ==> rs[j] == rt[j]
    ensures VolumeFrom(rs, d) == VolumeFrom(rt, d)
    decreases 4 - d
  {
    if d < 4 {
      VolumeFromFrame(rs, rt, d + 1);
    }
  }

  /** On a box the product of the widths is its volume. */
  lemma VolumeFromBox(rs: seq<Range>)
    requires IsBox(rs)
    ensures VolumeFrom(rs, 0) == Volume(rs)
  {
    var w0, w1, w2, w3 := Width(rs[0]), Width(rs[1]), Width(rs[2]), Width(rs[3]);
    calc {
      VolumeFrom(rs, 0);
      w0 * VolumeFrom(rs, 1);
      w0 * (w1 * VolumeFrom(rs, 2));
      w0 * (w1 * (w2 * VolumeFrom(rs, 3)));
      w0 * (w1 * (w2 * w3));
      { MulAssoc(w0, w1, w2 * w3); MulAssoc(w0 * w1, w2, w3); }
      w0 * w1 * w2 * w3;
    }
  }

  lemma MulAssoc(a: int, b: int, c: int)
    ensures a * (b * c) == a * b * c
  {
  }

  /** Cutting an open category at `m` splits the count in two. */
  lemma {:induction false} TallySplit(rs: seq<Range>, vals: seq<int>, f: seq<int> -> bool, i: nat, m: int)
    requires |rs| == 4 && |vals| <= i < 4
    requires rs[i].left - 1 <= m <= rs[i].right
    ensures Tally(rs, vals, f)
         == Tally(rs[i := Range(rs[i].left, m)], vals, f) + Tally(rs[i := Range(m + 1, rs[i].right)], vals, f)
    decreases 4 - |vals|, Clamp(Width(rs[|vals|])), 1
  {
    if i == |vals| {
      TallySplitHere(rs, vals, f, m);
    } else {
      TallySplitLater(rs, vals, f, i, m);
    }
  }

  /** `TallySplit` when the cut category is the next one to fix. */
  lemma {:induction false} TallySplitHere(rs: seq<Range>, vals: seq<int>, f: seq<int> -> bool, m: int)
    requires |rs| == 4 && |vals| < 4
    requires rs[|vals|].left - 1 <= m <= rs[|vals|].right
    ensures Tally(rs, vals, f)
         == Tally(rs[|vals| := Range(rs[|vals|].left, m)], vals, f) + Tally(rs[|vals| := Range(m + 1, rs[|vals|].right)], vals, f)
    decreases 4 - |vals|, Clamp(Width(rs[|vals|])), 0
  {
    var d := |vals|;
    var l, r := rs[d].left, rs[d].right;
    var lower := rs[d := Range(l, m)];
    var upper := rs[d := Range(m + 1, r)];
    if m == r {
      assert lower == rs;
      assert Tally(upper, vals, f) == 0;
    } else {
      var low := rs[d := Range(l, r - 1)];
      TallySplit(low, vals, f, d, m);
      assert low[d := Range(l, m)] == lower;
      assert low[d := Range(m + 1, r - 1)] == upper[d := Range(m + 1, r - 1)];
      assert Tally(rs, vals, f) == Tally(low, vals, f) + Tally(rs, vals + [r], f);
      assert Tally(upper, vals, f) == Tally(upper[d := Range(m + 1, r - 1)], vals, f) + Tally(upper, vals + [r], f);
      TallyFrame(upper, rs, vals + [r], f);
    }
  }

  /** `TallySplit` when the cut category is fixed later. */
  lemma {:induction false} TallySplitLater(rs: seq<Range>, vals: seq<int>, f: seq<int> -> bool, i: nat, m: int)
    requires |rs| == 4 && |vals| < i < 4
    requires rs[i].left - 1 <= m <= rs[i].right
    ensures Tally(rs, vals, f)
         == Tally(rs[i := Range(rs[i].left, m)], vals, f) + Tally(rs[i := Range(m + 1, rs[i].right)], vals, f)
    decreases 4 - |vals|, Clamp(Width(rs[|vals|])), 0
  {
    var d := |vals|;
    var lower := rs[i := Range(rs[i].left, m)];
    var upper := rs[i := Range(m + 1, rs[i].right)];
    assert lower[d] == rs[d] && upper[d] == rs[d];
    if Width(rs[d]) > 0 {
      var top := rs[d].right;
      var dl := Range(rs[d].left, top - 1);
      var low := rs[d := dl];
      TallySplit(low, vals, f, i, m);
      TallySplit(rs, vals + [top], f, i, m);
      assert low[i := Range(rs[i].left, m)] == lower[d := dl];
      assert low[i := Range(m + 1, rs[i].right)] == upper[d := dl];
      assert Tally(lower, vals, f) == Tally(lower[d := dl], vals, f) + Tally(lower, vals + [top], f);
      assert Tally(upper, vals, f) == Tally(upper[d := dl], vals, f) + Tally(upper, vals + [top], f);
    }
  }

  // ---------------------------------------------------------------------
  // One rule cuts the interval of its category in two
  // ---------------------------------------------------------------------

  /** The cut point: `Le` fires on the ratings up to `m`, `Ge` on those
      above it. */
  function Cut(rg: Range, r: Rule): (m: int)
    ensures rg.left - 1 <= m <= rg.right || Width(rg) <= 0
  {
    match r.t
    case Le => if r.value - 1 < rg.left - 1 then rg.left - 1 else if r.value - 1 > rg.right then rg.right else r.value - 1
    case Ge => if r.value > rg.right then rg.right else if r.value < rg.left - 1 then rg.left - 1 else r.value
  }

  /** The piece of the interval on which the rule fires, and the piece on
      which its reverse fires. */
  function FirePiece(rg: Range, r: Rule): Range
  {
    var m := Cut(rg, r);
    if r.t == Le then Range(rg.left, m) else Range(m + 1, rg.right)
  }

  function StayPiece(rg: Range, r: Rule): Range
  {
    var m := Cut(rg, r);
    if r.t == Le then Range(m + 1, rg.right) else Range(rg.left, m)
  }

  /** `apply_rule` returns exactly the firing piece, and the reverse rule
      the other one; every rating of a piece lies in the interval, and the
      rule fires on the first piece only. */
  lemma Pieces(rg: Range, r: Rule, v: int)
    requires Width(rg) >= 1
    ensures ApplyRule(rg, r).Some? ==> ApplyRule(rg, r).value == FirePiece(rg, r)
    ensures ApplyRule(rg, r).None? ==> Width(FirePiece(rg, r)) <= 0
    ensures ApplyRule(rg, Reverse(r)).Some? ==> ApplyRule(rg, Reverse(r)).value == StayPiece(rg, r)
    ensures InRange(v, FirePiece(rg, r)) ==> InRange(v, rg) && Fires(r, v)
    ensures InRange(v, StayPiece(rg, r)) ==> InRange(v, rg) && !Fires(r, v)
  {
  }

  // ---------------------------------------------------------------------
  // The count of `dfs` is the tally of accepted points
  // ---------------------------------------------------------------------

  /** One rule of the part 1 walk on a point: the rule fires and its target
      decides, or the walk goes on with the next rule. */
  lemma RouteStep(rules: seq<Rule>, out: string, wfs: map<string, Workflow>, p: seq<int>, fuel: nat)
    requires |p| == 4 && rules != []
    ensures Route(rules, out, wfs, ToItem(p), fuel)
         == if Fires(rules[0], p[Index(rules[0].part)]) then Accepts(rules[0].next, wfs, ToItem(p), fuel)
            else Route(rules[1..], out, wfs, ToItem(p), fuel)
  {
    ToItemAt(p, rules[0].part);
  }

  /** Whatever `dfs` counts for a box from workflow `cur` is the number of
      points of the box that the part 1 walk from `cur` accepts. */
  lemma {:induction false} CountTally(cur: string, wfs: map<string, Workflow>, rs: seq<Range>, fuel: nat)
    requires IsBox(rs)
    requires Count(cur, wfs, rs, fuel).Some?
    ensures Count(cur, wfs, rs, fuel).value == Tally(rs, [], AcceptedAt(cur, wfs, fuel))
    decreases fuel, 0, 0
  {
    var f := AcceptedAt(cur, wfs, fuel);
    if cur !in wfs {
      TallyConst(rs, [], f, cur == "A");
      VolumeFromBox(rs);
    } else {
      var g := RoutedAt(wfs[cur].rules, wfs[cur].out, wfs, fuel - 1);
      CountRulesTally(wfs[cur].rules, wfs[cur].out, wfs, rs, fuel - 1);
      TallySameBox(rs, f, g);
    }
  }

  /** The same for the rules of a workflow from rule 0 on. */
  lemma {:induction false} CountRulesTally(rules: seq<Rule>, out: string, wfs: map<string, Workflow>, rs: seq<Range>, fuel: nat)
    requires IsBox(rs)
    requires CountRules(rules, out, wfs, rs, fuel).Some?
    ensures CountRules(rules, out, wfs, rs, fuel).value == Tally(rs, [], RoutedAt(rules, out, wfs, fuel))
    decreases fuel, 1, |rules|
  {
    var f := RoutedAt(rules, out, wfs, fuel);
    if rules == [] {
      CountTally(out, wfs, rs, fuel);
      TallySameBox(rs, f, AcceptedAt(out, wfs, fuel));
    } else {
      var r0 := rules[0];
      var i := Index(r0.part);
      var rg := rs[i];
      var fire, stay := FirePiece(rg, r0), StayPiece(rg, r0);
      PiecesSplit(rs, f, i, r0);
      var rv := ApplyRule(rg, Reverse(r0)).value;
      Pieces(rg, r0, 0);
      ApplyRuleEmpty(rg, Reverse(r0));
      CountRulesTally(rules[1..], out, wfs, rs[i := rv], fuel);
      StaySame(rules, out, wfs, rs, fuel);
      var rest := CountRules(rules[1..], out, wfs, rs[i := rv], fuel).value;
      assert rest == Tally(rs[i := stay], [], f);
      if ApplyRule(rg, r0).None? {
        TallyEmpty(rs[i := fire], [], f, i);
        assert CountRules(rules, out, wfs, rs, fuel).value == rest;
      } else {
        var u := ApplyRule(rg, r0).value;
        ApplyRuleEmpty(rg, r0);
        CountTally(r0.next, wfs, rs[i := u], fuel);
        FireSame(rules, out, wfs, rs, fuel);
        var taken := Count(r0.next, wfs, rs[i := u], fuel).value;
        assert taken == Tally(rs[i := fire], [], f);
        assert CountRules(rules, out, wfs, rs, fuel).value == taken + rest;
      }
    }
  }

  /** The firing and the other piece of a rule's category split the count. */
  lemma PiecesSplit(rs: seq<Range>, f: seq<int> -> bool, i: nat, r: Rule)
    requires IsBox(rs) && i < 4
    ensures Tally(rs, [], f) == Tally(rs[i := FirePiece(rs[i], r)], [], f) + Tally(rs[i := StayPiece(rs[i], r)], [], f)
  {
    var m := Cut(rs[i], r);
    TallySplit(rs, [], f, i, m);
  }

  /** Where the first rule does not fire, the rules after it decide. */
  lemma StaySame(rules: seq<Rule>, out: string, wfs: map<string, Workflow>, rs: seq<Range>, fuel: nat)
    requires IsBox(rs) && rules != []
    ensures var i := Index(rules[0].part);
      var box := rs[i := StayPiece(rs[i], rules[0])];
      Tally(box, [], RoutedAt(rules, out, wfs, fuel)) == Tally(box, [], RoutedAt(rules[1..], out, wfs, fuel))
  {
    var i := Index(rules[0].part);
    var stay := StayPiece(rs[i], rules[0]);
    forall p | |p| == 4 && InBoxFrom(p, rs[i := stay], 0)
      ensures RoutedAt(rules, out, wfs, fuel)(p) == RoutedAt(rules[1..], out, wfs, fuel)(p)
    {
      assert InRange(p[i], stay);
      Pieces(rs[i], rules[0], p[i]);
      RouteStep(rules, out, wfs, p, fuel);
    }
    TallySameBox(rs[i := stay], RoutedAt(rules, out, wfs, fuel), RoutedAt(rules[1..], out, wfs, fuel));
  }

  /** Where the first rule fires, its target decides. */
  lemma FireSame(rules: seq<Rule>, out: string, wfs: map<string, Workflow>, rs: seq<Range>, fuel: nat)
    requires IsBox(rs) && rules != []
    ensures var i := Index(rules[0].part);
      var box := rs[i := FirePiece(rs[i], rules[0])];
      Tally(box, [], RoutedAt(rules, out, wfs, fuel)) == Tally(box, [], AcceptedAt(rules[0].next, wfs, fuel))
  {
    var i := Index(rules[0].part);
    var fire := FirePiece(rs[i], rules[0]);
    forall p | |p| == 4 && InBoxFrom(p, rs[i := fire], 0)
      ensures RoutedAt(rules, out, wfs, fuel)(p) == AcceptedAt(rules[0].next, wfs, fuel)(p)
    {
      assert InRange(p[i], fire);
      Pieces(rs[i], rules[0], p[i]);
      RouteStep(rules, out, wfs, p, fuel);
    }
    TallySameBox(rs[i := fire], RoutedAt(rules, out, wfs, fuel), AcceptedAt(rules[0].next, wfs, fuel));
  }
}
