/** Day 22, parts 1 and 2: which bricks can be taken away safely, and how
    many bricks fall in the chain reaction when a brick that cannot is
    taken away. Both run on the support relations `Day22Fall.Solve`
    computes. */
module Day22 {
  import opened Common
  import opened Day22Bricks
  import opened Day22Fall

  // ---------------------------------------------------------------------
  // Part 1
  // ---------------------------------------------------------------------

  /** No brick lays on brick x alone. */
  predicate Removable(settled: seq<Brick>, x: nat)
  {
    forall c :: 0 <= c < |settled| ==> LaysOn(settled, c) != {x}
  }

  /** `can_not_be_removed[x]` (which, despite its name, is true for the
      bricks that can be taken away) is `Removable`. */
  lemma RemovableIs(settled: seq<Brick>)
    ensures (set i: nat | i < |settled| && Relations(settled).canRemove[i]) == (set x: nat | x < |settled| && Removable(settled, x))
  {
  }

  /** The number of true entries (`filter(|x| *x).count()`). */
  function CountTrue(s: seq<bool>): nat
  {
    if s == [] then 0 else CountTrue(s[..|s| - 1]) + (if s[|s| - 1] then 1 else 0)
  }

  /** The count is the number of places holding true. */
  lemma {:induction false} CountTrueIs(s: seq<bool>)
    ensures CountTrue(s) == |set i: nat | i < |s| && s[i]|
  {
    if s != [] {
      var n := |s| - 1;
      CountTrueIs(s[..n]);
      var a := set i: nat | i < n && s[..n][i];
      assert (set i: nat | i < |s| && s[i]) == a + (if s[n] then {n} else {});
    }
  }

  /** Part 1: the number of bricks that no brick lays on alone. */
  method Part1(lines: seq<string>) returns (r: Option<nat>, ghost sorted: seq<Brick>, ghost settled: seq<Brick>)
    ensures ParseInput(lines).None? ==> r.None?
    ensures ParseInput(lines).Some? ==>
      FallingOrder(ParseInput(lines).value, sorted) && (r.Some? <==> Settle(sorted, MaxDim(sorted)).Some?)
    ensures r.Some? ==> Tower(lines, MaxDim(sorted), sorted, settled)
    ensures r.Some? ==> r.value == |set x: nat | x < |settled| && Removable(settled, x)|
  {
    var s;
    s, sorted, settled := Solve(lines);
    if s.None? {
      return None, sorted, settled;
    }
    var canRemove := s.value.canRemove;
    CountTrueIs(canRemove);
    RemovableIs(settled);
    r := Some(CountTrue(canRemove));
  }

  // ---------------------------------------------------------------------
  // Part 2: the chain reaction
  // ---------------------------------------------------------------------

  /** F holds brick i and every brick all of whose supports are in F: once
      i is taken away, nothing in F stays up. */
  ghost predicate Closed(laysOn: seq<set<nat>>, i: nat, F: set<nat>)
  {
    i in F && forall c :: 0 <= c < |laysOn| && laysOn[c] != {} && laysOn[c] <= F ==> c in F
  }

  /** Brick c falls whenever brick i is taken away. */
  ghost predicate Topples(laysOn: seq<set<nat>>, i: nat, c: nat)
  {
    forall F :: Closed(laysOn, i, F) ==> c in F
  }

  /** The bricks that fall when brick i is taken away, i included: those
      in every closed set. */
  ghost function Falls(laysOn: seq<set<nat>>, i: nat): set<nat>
    requires i < |laysOn|
  {
    set c: nat | c < |laysOn| && Topples(laysOn, i, c)
  }

  /** `Falls` is the least closed set. */
  lemma FallsLeast(laysOn: seq<set<nat>>, i: nat)
    requires i < |laysOn|
    ensures Closed(laysOn, i, Falls(laysOn, i))
    ensures forall F :: Closed(laysOn, i, F) ==> Falls(laysOn, i) <= F
  {
  }

  /** Lays-on and supports are inverse relations over the bricks. */
  predicate Inverse(supportFor: seq<set<nat>>, laysOn: seq<set<nat>>)
  {
    |supportFor| == |laysOn|
    && forall x, c :: 0 <= x < |laysOn| && 0 <= c < |laysOn| ==> (c in supportFor[x] <==> x in laysOn[c])
  }

  /** Every brick a brick supports is a brick and lies higher. */
  ghost predicate Layered(supportFor: seq<set<nat>>, height: seq<nat>)
  {
    |height| == |supportFor|
    && forall x :: 0 <= x < |supportFor| ==>
         forall c :: c in supportFor[x] ==> c < |supportFor| && height[c] < height[x]
  }

  /** Brick x can be taken away safely exactly when taking it away makes
      nothing else fall. */
  lemma RemovableAlone(supportFor: seq<set<nat>>, laysOn: seq<set<nat>>, height: seq<nat>, x: nat)
    requires Inverse(supportFor, laysOn) && Layered(supportFor, height) && x < |laysOn|
    ensures (forall c :: 0 <= c < |laysOn| ==> laysOn[c] != {x}) <==> Falls(laysOn, x) == {x}
  {
    FallsLeast(laysOn, x);
    if forall c :: 0 <= c < |laysOn| ==> laysOn[c] != {x} {
      assert Closed(laysOn, x, {x});
    } else {
      var c :| 0 <= c < |laysOn| && laysOn[c] == {x};
      assert x in laysOn[c];
      assert c in supportFor[x];
      assert height[c] < height[x];
      assert Topples(laysOn, x, c);
    }
  }

  /** The weight of a queue: brick z counts `base` to the power of its
      height, so taking a brick off and putting back fewer than `base`
      lower bricks makes it lighter. */
  function Power(base: nat, e: nat): (r: nat)
    ensures base > 0 ==> r > 0
  {
    if e == 0 then 1 else base * Power(base, e - 1)
  }

  lemma {:induction false} PowerMono(base: nat, a: nat, b: nat)
    requires base > 0 && a <= b
    ensures Power(base, a) <= Power(base, b)
    decreases b
  {
    if a < b {
      PowerMono(base, a, b - 1);
      assert Power(base, b) == base * Power(base, b - 1);
    }
  }

  ghost function QueueWeight(height: seq<nat>, base: nat, q: seq<nat>): nat
    requires forall k :: 0 <= k < |q| ==> q[k] < |height|
  {
    if q == [] then 0 else Power(base, height[q[0]]) + QueueWeight(height, base, q[1..])
  }

  lemma {:induction false} QueueWeightAppend(height: seq<nat>, base: nat, q: seq<nat>, c: nat)
    requires forall k :: 0 <= k < |q| ==> q[k] < |height|
    requires c < |height|
    ensures QueueWeight(height, base, q + [c]) == QueueWeight(height, base, q) + Power(base, height[c])
  {
    if q != [] {
      assert (q + [c])[1..] == q[1..] + [c];
      QueueWeightAppend(height, base, q[1..], c);
    }
  }

  /** All bricks in the queue are bricks. */
  predicate Queued(q: seq<nat>, n: nat)
  {
    forall k :: 0 <= k < |q| ==> q[k] < n
  }

  /** Every closed set holds what has fallen and what is queued. */
  ghost predicate Sound(laysOn: seq<set<nat>>, i: nat, falls: set<nat>, q: seq<nat>)
  {
    forall F :: Closed(laysOn, i, F) ==> falls <= F && forall k :: 0 <= k < |q| ==> q[k] in F
  }

  /** A brick all of whose supports have fallen has fallen too, or is
      still to be looked at: it is in `rem`, or one of its supports is
      queued. */
  ghost predicate Pending(laysOn: seq<set<nat>>, falls: set<nat>, q: seq<nat>, rem: set<nat>)
  {
    forall c :: 0 <= c < |laysOn| && laysOn[c] != {} && laysOn[c] <= falls && c !in falls ==>
      c in rem || exists k :: 0 <= k < |q| && q[k] in laysOn[c]
  }

  /** The chain reaction when brick i is taken away (the queue loop of
      part 2): what falls is exactly `Falls(laysOn, i)`. */
  method Chain(i: nat, supportFor: seq<set<nat>>, laysOn: seq<set<nat>>, ghost height: seq<nat>) returns (falls: set<nat>)
    requires i < |laysOn| && Inverse(supportFor, laysOn) && Layered(supportFor, height)
    ensures falls == Falls(laysOn, i)
  {
    var n := |laysOn|;
    ghost var base := n + 1;
    falls := {};
    var q := [i];
    while q != []
      invariant Queued(q, n) && falls <= Range(n)
      invariant i in falls || (falls == {} && q == [i])
      invariant Sound(laysOn, i, falls, q)
      invariant Pending(laysOn, falls, q, {})
      decreases QueueWeight(height, base, q)
    {
      ghost var q0 := q;
      var x := q[0];
      PopStep(i, laysOn, supportFor, falls, q);
      ghost var w := QueueWeight(height, base, q[1..]);
      assert x in falls + {x};
      SupportCount(supportFor, height, x);
      falls, q := Topple(i, x, supportFor, laysOn, height, falls + {x}, q[1..]);
      ChainLighter(height, base, q0, w, |supportFor[x]|, QueueWeight(height, base, q));
    }
    FallsLeast(laysOn, i);
    assert Closed(laysOn, i, falls);
  }

  /** Taking brick x off the front of the queue and marking it fallen
      leaves the bricks it supports to be looked at. */
  lemma PopStep(i: nat, laysOn: seq<set<nat>>, supportFor: seq<set<nat>>, falls: set<nat>, q: seq<nat>)
    requires Inverse(supportFor, laysOn) && q != [] && Queued(q, |laysOn|) && falls <= Range(|laysOn|)
    requires Sound(laysOn, i, falls, q) && Pending(laysOn, falls, q, {})
    ensures q[0] < |laysOn| && Queued(q[1..], |laysOn|) && falls + {q[0]} <= Range(|laysOn|)
    ensures Sound(laysOn, i, falls + {q[0]}, q[1..]) && Pending(laysOn, falls + {q[0]}, q[1..], supportFor[q[0]])
  {
    var x := q[0];
    var q' := q[1..];
    forall F | Closed(laysOn, i, F)
      ensures falls + {x} <= F && forall k :: 0 <= k < |q'| ==> q'[k] in F
    {
      assert forall k :: 0 <= k < |q| ==> q[k] in F;
    }
    forall c | 0 <= c < |laysOn| && laysOn[c] != {} && laysOn[c] <= falls + {x} && c !in falls + {x}
      ensures c in supportFor[x] || exists k :: 0 <= k < |q'| && q'[k] in laysOn[c]
    {
      if x !in laysOn[c] {
        var k :| 0 <= k < |q| && q[k] in laysOn[c];
        assert q'[k - 1] == q[k];
      }
    }
  }

  /** A brick supports at most all the bricks. */
  lemma SupportCount(supportFor: seq<set<nat>>, height: seq<nat>, x: nat)
    requires Layered(supportFor, height) && x < |supportFor|
    ensures |supportFor[x]| <= |supportFor|
  {
    forall c | c in supportFor[x]
      ensures c in Range(|supportFor|)
    {
    }
    SubsetCount(supportFor[x], Range(|supportFor|));
  }

  lemma {:induction false} SubsetCount<T>(a: set<T>, b: set<T>)
    requires a <= b
    ensures |a| <= |b|
    decreases |a|
  {
    if a != {} {
      var e :| e in a;
      SubsetCount(a - {e}, b - {e});
    }
  }

  /** Taking the front brick off and queueing its supported bricks makes
      the queue lighter. */
  lemma ChainLighter(height: seq<nat>, base: nat, q0: seq<nat>, w: nat, pushes: nat, after: nat)
    requires Queued(q0, |height|) && q0 != [] && base > pushes
    requires w == QueueWeight(height, base, q0[1..])
    requires pushes > 0 ==> height[q0[0]] > 0
    requires after <= w + Scaled(pushes, Unit(base, height[q0[0]]))
    ensures after < QueueWeight(height, base, q0)
  {
    var h := height[q0[0]];
    if pushes == 0 {
      assert Scaled(pushes, Unit(base, h)) == 0;
    } else {
      var u := Power(base, h - 1);
      assert Unit(base, h) == u;
      ScaledLess(pushes, base, u);
      ScaledIsProduct(base, u);
      assert Power(base, h) == base * u;
      assert QueueWeight(height, base, q0) == Power(base, h) + w;
    }
  }

  lemma {:induction false} ScaledLess(k: nat, b: nat, u: nat)
    requires k < b && u > 0
    ensures Scaled(k, u) < Scaled(b, u)
    decreases b
  {
    if k < b - 1 {
      ScaledLess(k, b - 1, u);
    }
  }

  /** `k` units of weight `u`, added up one at a time. */
  ghost function Scaled(k: nat, u: nat): nat
  {
    if k == 0 then 0 else Scaled(k - 1, u) + u
  }

  lemma {:induction false} ScaledIsProduct(k: nat, u: nat)
    ensures Scaled(k, u) == k * u
  {
    if k > 0 {
      ScaledIsProduct(k - 1, u);
      assert k * u == (k - 1) * u + u;
    }
  }

  /** What brick x supports is a brick, higher than x, laying on x. */
  lemma Supported(supportFor: seq<set<nat>>, laysOn: seq<set<nat>>, height: seq<nat>, x: nat, c: nat)
    requires Inverse(supportFor, laysOn) && Layered(supportFor, height)
    requires x < |laysOn| && c in supportFor[x]
    ensures c < |laysOn| && x in laysOn[c] && height[c] < height[x]
  {
    assert c < |laysOn|;
    assert c in supportFor[x] <==> x in laysOn[c];
  }

  /** The loop over the bricks brick x supports: each whose supports
      have all fallen falls and is queued. */
  method Topple(i: nat, x: nat, supportFor: seq<set<nat>>, laysOn: seq<set<nat>>, ghost height: seq<nat>,
                falls0: set<nat>, q0: seq<nat>) returns (falls: set<nat>, q: seq<nat>)
    requires i < |laysOn| && x < |laysOn| && Inverse(supportFor, laysOn) && Layered(supportFor, height)
    requires Queued(q0, |laysOn|) && falls0 <= Range(|laysOn|) && x in falls0
    requires Sound(laysOn, i, falls0, q0) && Pending(laysOn, falls0, q0, supportFor[x])
    ensures Queued(q, |laysOn|) && falls0 <= falls <= Range(|laysOn|)
    ensures Sound(laysOn, i, falls, q) && Pending(laysOn, falls, q, {})
    ensures supportFor[x] != {} ==> height[x] > 0
    ensures QueueWeight(height, |laysOn| + 1, q)
              <= QueueWeight(height, |laysOn| + 1, q0) + Scaled(|supportFor[x]|, Unit(|laysOn| + 1, height[x]))
  {
    ghost var base := |laysOn| + 1;
    ghost var unit := Unit(base, height[x]);
    Covers(supportFor, laysOn, height, x, base);
    falls, q := ToppleAll(i, laysOn, height, base, unit, supportFor[x], falls0, q0);
  }

  /** Every brick c that brick x supports lays on something and weighs at
      most one unit of x's weight. */
  ghost predicate Light(laysOn: seq<set<nat>>, height: seq<nat>, base: nat, unit: nat, support: set<nat>)
    requires |height| == |laysOn|
  {
    forall c :: c in support ==> c < |laysOn| && laysOn[c] != {} && Power(base, height[c]) <= unit
  }

  /** One unit of the weight of a brick at height h: what a brick right
      above it weighs at most. */
  function Unit(base: nat, h: nat): nat
  {
    if h == 0 then 0 else Power(base, h - 1)
  }

  lemma Covers(supportFor: seq<set<nat>>, laysOn: seq<set<nat>>, height: seq<nat>, x: nat, base: nat)
    requires Inverse(supportFor, laysOn) && Layered(supportFor, height) && x < |laysOn| && base > 0
    ensures supportFor[x] != {} ==> height[x] > 0
    ensures Light(laysOn, height, base, Unit(base, height[x]), supportFor[x])
  {
    forall c | c in supportFor[x]
      ensures c < |laysOn| && laysOn[c] != {} && Power(base, height[c]) <= Unit(base, height[x])
    {
      Supported(supportFor, laysOn, height, x, c);
      PowerMono(base, height[c], height[x] - 1);
    }
  }

  /** The loop of `Topple` proper, over the bricks `support` left to look
      at, each light enough. */
  method ToppleAll(i: nat, laysOn: seq<set<nat>>, ghost height: seq<nat>, ghost base: nat, ghost unit: nat,
                   support: set<nat>, falls0: set<nat>, q0: seq<nat>) returns (falls: set<nat>, q: seq<nat>)
    requires |height| == |laysOn| && Light(laysOn, height, base, unit, support)
    requires Queued(q0, |laysOn|) && falls0 <= Range(|laysOn|)
    requires Sound(laysOn, i, falls0, q0) && Pending(laysOn, falls0, q0, support)
    ensures Queued(q, |laysOn|) && falls0 <= falls <= Range(|laysOn|)
    ensures Sound(laysOn, i, falls, q) && Pending(laysOn, falls, q, {})
    ensures QueueWeight(height, base, q) <= QueueWeight(height, base, q0) + Scaled(|support|, unit)
  {
    falls, q := falls0, q0;
    var rem := support;
    ghost var done := 0;
    ghost var bound := QueueWeight(height, base, q0);
    while rem != {}
      invariant rem <= support && done + |rem| == |support|
      invariant Queued(q, |laysOn|) && falls0 <= falls <= Range(|laysOn|)
      invariant Sound(laysOn, i, falls, q) && Pending(laysOn, falls, q, rem)
      invariant QueueWeight(height, base, q) <= bound && bound == QueueWeight(height, base, q0) + Scaled(done, unit)
      decreases |rem|
    {
      var c :| c in rem;
      falls, q := ToppleNext(i, c, laysOn, height, base, unit, falls, q, rem, bound);
      rem := rem - {c};
      bound := bound + unit;
      done := done + 1;
    }
  }

  /** One round of that loop, for brick c: it falls when every brick it
      lays on has fallen (`falls ∩ lays_on[c]` is all of `lays_on[c]`). */
  method ToppleNext(i: nat, c: nat, laysOn: seq<set<nat>>, ghost height: seq<nat>, ghost base: nat, ghost unit: nat,
                    falls0: set<nat>, q0: seq<nat>, ghost rem: set<nat>, ghost bound: nat)
    returns (falls: set<nat>, q: seq<nat>)
    requires c < |laysOn| == |height| && laysOn[c] != {} && c in rem
    requires Queued(q0, |laysOn|) && falls0 <= Range(|laysOn|)
    requires Sound(laysOn, i, falls0, q0) && Pending(laysOn, falls0, q0, rem)
    requires QueueWeight(height, base, q0) <= bound && Power(base, height[c]) <= unit
    ensures Queued(q, |laysOn|) && falls0 <= falls <= Range(|laysOn|)
    ensures Sound(laysOn, i, falls, q) && Pending(laysOn, falls, q, rem - {c})
    ensures QueueWeight(height, base, q) <= bound + unit
  {
    falls, q := falls0, q0;
    assert rem == (rem - {c}) + {c};
    if |falls * laysOn[c]| == |laysOn[c]| {
      SubsetSame(falls * laysOn[c], laysOn[c]);
      WeightStep(height, base, q, bound, unit, c);
      ToppleStep(i, laysOn, falls, q, rem - {c}, c);
      falls := falls + {c};
      q := q + [c];
    } else {
      StayStep(laysOn, falls, q, rem - {c}, c);
      WeightStep(height, base, q, bound, unit, -1);
    }
  }

  /** Queueing brick c (or nothing, for -1) adds at most one unit of
      weight when c weighs at most a unit. */
  lemma WeightStep(height: seq<nat>, base: nat, q: seq<nat>, bound: nat, unit: nat, c: int)
    requires Queued(q, |height|) && c < |height|
    requires QueueWeight(height, base, q) <= bound
    requires c >= 0 ==> Power(base, height[c]) <= unit
    ensures c >= 0 ==> QueueWeight(height, base, q + [c]) <= bound + unit
    ensures QueueWeight(height, base, q) <= bound + unit
  {
    if c >= 0 {
      QueueWeightAppend(height, base, q, c);
    }
  }

  /** Brick c, some of whose supports have not fallen, stays up for now. */
  lemma StayStep(laysOn: seq<set<nat>>, falls: set<nat>, q: seq<nat>, rem: set<nat>, c: nat)
    requires c < |laysOn| && |falls * laysOn[c]| != |laysOn[c]|
    requires Pending(laysOn, falls, q, rem + {c})
    ensures Pending(laysOn, falls, q, rem)
  {
    var l := laysOn[c];
    var common := falls * l;
    assert l <= falls ==> common == l;
  }

  /** Brick c, all of whose supports have fallen, falls and is queued. */
  lemma ToppleStep(i: nat, laysOn: seq<set<nat>>, falls: set<nat>, q: seq<nat>, rem: set<nat>, c: nat)
    requires c < |laysOn| && laysOn[c] != {} && laysOn[c] <= falls
    requires Sound(laysOn, i, falls, q) && Pending(laysOn, falls, q, rem + {c})
    ensures Sound(laysOn, i, falls + {c}, q + [c]) && Pending(laysOn, falls + {c}, q + [c], rem)
  {
    var q' := q + [c];
    forall c' | 0 <= c' < |laysOn| && laysOn[c'] != {} && laysOn[c'] <= falls + {c} && c' !in falls + {c}
      ensures c' in rem || exists k :: 0 <= k < |q'| && q'[k] in laysOn[c']
    {
      if laysOn[c'] <= falls {
        if c' !in rem {
          var k :| 0 <= k < |q| && q[k] in laysOn[c'];
          assert q'[k] == q[k];
        }
      } else {
        assert q'[|q|] in laysOn[c'];
      }
    }
  }

  /** The others that fall, summed over the bricks numbered below k that
      cannot be taken away safely. */
  ghost function Toppled(canRemove: seq<bool>, laysOn: seq<set<nat>>, k: nat): nat
    requires k <= |canRemove| == |laysOn|
  {
    if k == 0 then 0
    else
      var others := if canRemove[k - 1] then 0 else |Falls(laysOn, k - 1) - {k - 1}|;
      Toppled(canRemove, laysOn, k - 1) + others
  }

  /** A brick lower than another sits higher in `Heights`. */
  ghost function Heights(settled: seq<Brick>, d: nat): seq<nat>
  {
    seq(|settled|, c requires 0 <= c < |settled| =>
      var k := IndexOf(settled, c);
      if k < |settled| && settled[k].lo.z <= d then d - settled[k].lo.z else 0)
  }

  /** The relations `solve` builds are inverse and layered by height. */
  lemma RelationsLayered(settled: seq<Brick>, d: nat)
    requires Inside(settled, d) && Numbered(settled)
    ensures Inverse(Relations(settled).supportFor, Relations(settled).laysOn)
    ensures Layered(Relations(settled).supportFor, Heights(settled, d))
  {
    var rel := Relations(settled);
    var height := Heights(settled, d);
    forall x, c | 0 <= x < |settled| && c in rel.supportFor[x]
      ensures c < |settled| && height[c] < height[x]
    {
      assert c < |settled|;
      assert x in LaysOn(settled, c);
      LaysOnLower(settled, d, c, x);
    }
  }

  /** The sum of part 2 over the bricks that cannot be taken away. */
  method Cascade(canRemove: seq<bool>, supportFor: seq<set<nat>>, laysOn: seq<set<nat>>, ghost height: seq<nat>)
    returns (total: nat)
    requires |canRemove| == |laysOn|
    requires Inverse(supportFor, laysOn) && Layered(supportFor, height)
    ensures total == Toppled(canRemove, laysOn, |laysOn|)
  {
    total := 0;
    for i := 0 to |canRemove|
      invariant total == Toppled(canRemove, laysOn, i)
    {
      if !canRemove[i] {
        var others := Others(i, supportFor, laysOn, height);
        ToppledNext(canRemove, laysOn, i);
        total := total + others;
      } else {
        ToppledSkip(canRemove, laysOn, i);
      }
    }
  }

  lemma ToppledSkip(canRemove: seq<bool>, laysOn: seq<set<nat>>, i: nat)
    requires i < |canRemove| == |laysOn| && canRemove[i]
    ensures Toppled(canRemove, laysOn, i + 1) == Toppled(canRemove, laysOn, i)
  {
  }

  /** Brick i adds the others in what falls when it is taken away. */
  lemma ToppledNext(canRemove: seq<bool>, laysOn: seq<set<nat>>, i: nat)
    requires i < |canRemove| == |laysOn| && !canRemove[i]
    ensures Toppled(canRemove, laysOn, i + 1) == Toppled(canRemove, laysOn, i) + |Falls(laysOn, i) - {i}|
  {
  }

  /** The number of other bricks that fall when brick i is taken away
      (`falls.len() - 1`). */
  method Others(i: nat, supportFor: seq<set<nat>>, laysOn: seq<set<nat>>, ghost height: seq<nat>) returns (k: nat)
    requires i < |laysOn| && Inverse(supportFor, laysOn) && Layered(supportFor, height)
    ensures k == |Falls(laysOn, i) - {i}|
  {
    var falls := Chain(i, supportFor, laysOn, height);
    FallsLeast(laysOn, i);
    assert |falls - {i}| == |falls| - 1;
    k := |falls| - 1;
  }

  /** Part 2: summed over the bricks that cannot be taken away safely,
      the number of other bricks that fall when that brick is taken
      away. */
  method Part2(lines: seq<string>) returns (r: Option<nat>, ghost sorted: seq<Brick>, ghost settled: seq<Brick>)
    ensures ParseInput(lines).None? ==> r.None?
    ensures ParseInput(lines).Some? ==>
      FallingOrder(ParseInput(lines).value, sorted) && (r.Some? <==> Settle(sorted, MaxDim(sorted)).Some?)
    ensures r.Some? ==> Tower(lines, MaxDim(sorted), sorted, settled)
    ensures r.Some? ==>
      var rel := Relations(settled);
      r.value == Toppled(rel.canRemove, rel.laysOn, |settled|)
  {
    var s;
    s, sorted, settled := Solve(lines);
    if s.None? {
      return None, sorted, settled;
    }
    var rel := s.value;
    ghost var height := Heights(settled, MaxDim(sorted));
    RelationsLayered(settled, MaxDim(sorted));
    var total := Cascade(rel.canRemove, rel.supportFor, rel.laysOn, height);
    r := Some(total);
  }
}
