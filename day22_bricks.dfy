/** Day 22 (Sand Slabs), the bricks themselves: parsing a snapshot, the
    order in which the bricks fall, where each brick comes to rest, which
    brick owns each cell afterwards, and which bricks each brick lays on.
    Everything here is a pure function of the bricks; `Day22Fall` computes
    the same things with the arrays of the program. */
module Day22Bricks {
  import opened Common
  import opened Text
  import opened Sorting

  /** `Point`: (x, y, z), z counted upwards from the ground at 0. */
  datatype Pos = Pos(x: nat, y: nat, z: nat)

  /** `Cube`: two opposite corners and the id of the brick, which is the
      index of its line in the snapshot. */
  datatype Brick = Brick(lo: Pos, hi: Pos, id: nat)

  // ---------------------------------------------------------------------
  // Parsing (`parse_input`)
  // ---------------------------------------------------------------------

  /** `x,y,z`: the first three comma-separated pieces, each a `usize`. */
  function ParseCorner(s: string): Option<Pos>
  {
    var p := Split(s, ',');
    if |p| < 3 then None
    else
      match (ParseNat(p[0]), ParseNat(p[1]), ParseNat(p[2]))
      case (Some(x), Some(y), Some(z)) => Some(Pos(x, y, z))
      case _ => None
  }

  /** One line `x,y,z~x,y,z`: the first two `~`-separated pieces are the
      corners; fewer pieces, or a corner that does not parse, panics. */
  function ParseBrick(line: string, id: nat): (r: Option<Brick>)
    ensures r.Some? ==> r.value.id == id
  {
    var p := Split(line, '~');
    if |p| < 2 then None
    else
      match (ParseCorner(p[0]), ParseCorner(p[1]))
      case (Some(lo), Some(hi)) => Some(Brick(lo, hi, id))
      case _ => None
  }

  /** The bricks of a snapshot: brick k comes from line k and has id k. */
  function ParseInput(lines: seq<string>): (r: Option<seq<Brick>>)
    ensures r.Some? ==> |r.value| == |lines| && Enumerated(r.value)
  {
    if lines == [] then Some([])
    else
      var n := |lines| - 1;
      match ParseInput(lines[..n])
      case None => None
      case Some(init) =>
        match ParseBrick(lines[n], n)
        case None => None
        case Some(b) => Some(init + [b])
  }

  /** The snapshot parses exactly when every line does, and brick k is
      what line k parses to. */
  lemma ParseInputIs(lines: seq<string>)
    ensures ParseInput(lines).Some? <==> forall k :: 0 <= k < |lines| ==> ParseBrick(lines[k], k).Some?
    ensures ParseInput(lines).Some? ==> forall k :: 0 <= k < |lines| ==> ParseBrick(lines[k], k) == Some(ParseInput(lines).value[k])
  {
    ParseInputFails(lines);
    ParseInputValues(lines);
  }

  lemma {:induction false} ParseInputValues(lines: seq<string>)
    ensures ParseInput(lines).Some? ==> forall k :: 0 <= k < |lines| ==> ParseBrick(lines[k], k) == Some(ParseInput(lines).value[k])
    decreases |lines|
  {
    if lines != [] && ParseInput(lines).Some? {
      var n := |lines| - 1;
      ParseInputValues(lines[..n]);
      var p := ParseInput(lines[..n]);
      var b := ParseBrick(lines[n], n);
      assert ParseInput(lines) == Some(p.value + [b.value]);
      forall k | 0 <= k < |lines|
        ensures ParseBrick(lines[k], k) == Some(ParseInput(lines).value[k])
      {
        if k < n {
          assert lines[..n][k] == lines[k];
        }
      }
    }
  }

  lemma {:induction false} ParseInputFails(lines: seq<string>)
    ensures ParseInput(lines).None? ==> exists k :: 0 <= k < |lines| && ParseBrick(lines[k], k).None?
    decreases |lines|
  {
    if lines != [] && ParseInput(lines).None? {
      var n := |lines| - 1;
      ParseInputFails(lines[..n]);
      if ParseInput(lines[..n]).None? {
        var k :| 0 <= k < n && ParseBrick(lines[..n][k], k).None?;
        assert lines[..n][k] == lines[k];
      }
    }
  }

  /** Brick k has id k. */
  predicate Enumerated(s: seq<Brick>)
  {
    forall k :: 0 <= k < |s| ==> s[k].id == k
  }

  // ---------------------------------------------------------------------
  // Falling order (`sort_by` in `solve`)
  // ---------------------------------------------------------------------

  /** Bottom z first, then top z; bricks level on both compare Equal. */
  function Compare(a: Brick, b: Brick): Option<Ordering>
  {
    match Cmp(a.lo.z, b.lo.z)
    case Equal => Some(Cmp(a.hi.z, b.hi.z))
    case o => Some(o)
  }

  /** a may fall before b. */
  predicate Lower(a: Brick, b: Brick)
  {
    a.lo.z < b.lo.z || (a.lo.z == b.lo.z && a.hi.z <= b.hi.z)
  }

  /** The comparator is a total preorder, so sorting never panics, and
      "may stay in front" is exactly `Lower`. */
  lemma CompareLaws()
    ensures Antisymmetric(Compare) && Transitive(Compare)
    ensures forall a, b :: NotAfter(Compare, a, b) <==> Lower(a, b)
    ensures forall s :: Comparable(Compare, s)
  {
    forall a, b
      ensures Compare(b, a) == Reversed(Compare(a, b))
    {
    }
    forall a, b
      ensures NotAfter(Compare, a, b) <==> Lower(a, b)
    {
    }
    forall a, b, c | NotAfter(Compare, a, b) && NotAfter(Compare, b, c)
      ensures NotAfter(Compare, a, c)
    {
      assert Lower(a, b) && Lower(b, c);
    }
  }

  /** The falling order: a permutation of the parsed bricks, ordered by
      bottom z and then by top z; bricks level on both keep their input
      order (their ids), as `sort_by` is stable. */
  predicate FallingOrder(bricks: seq<Brick>, sorted: seq<Brick>)
  {
    multiset(sorted) == multiset(bricks)
    && (forall p, q :: 0 <= p < q < |sorted| ==> Lower(sorted[p], sorted[q]))
    && forall p, q :: 0 <= p < q < |sorted| && sorted[p].lo.z == sorted[q].lo.z && sorted[p].hi.z == sorted[q].hi.z
         ==> sorted[p].id < sorted[q].id
  }

  /** Sorting a permutation of `Enumerated` bricks leaves every id below
      the number of bricks and no two bricks with one id. */
  lemma {:induction false} PermutedIds(bricks: seq<Brick>, sorted: seq<Brick>)
    requires Enumerated(bricks) && multiset(sorted) == multiset(bricks)
    ensures Numbered(sorted)
  {
    assert |sorted| == |bricks| by {
      assert |multiset(sorted)| == |multiset(bricks)|;
    }
    forall k | 0 <= k < |sorted|
      ensures sorted[k].id < |bricks| && sorted[k] == bricks[sorted[k].id]
    {
      assert sorted[k] in multiset(bricks);
      var j :| 0 <= j < |bricks| && bricks[j] == sorted[k];
      assert j == bricks[j].id;
    }
    forall p, q | 0 <= p < q < |sorted|
      ensures sorted[p].id != sorted[q].id
    {
      if sorted[p].id == sorted[q].id {
        var b := sorted[p];
        Twice(sorted, p, q);
        Once(bricks, b.id);
        assert false;
      }
    }
  }

  /** A value found at two places occurs at least twice. */
  lemma Twice<T>(s: seq<T>, p: nat, q: nat)
    requires p < q < |s| && s[p] == s[q]
    ensures multiset(s)[s[p]] >= 2
  {
    assert s == s[..p] + [s[p]] + s[p + 1..q] + [s[q]] + s[q + 1..];
  }

  /** In `Enumerated` bricks the brick with id c occurs once. */
  lemma {:induction false} Once(bricks: seq<Brick>, c: nat)
    requires Enumerated(bricks) && c < |bricks|
    ensures multiset(bricks)[bricks[c]] == 1
  {
    var b := bricks[c];
    assert bricks == bricks[..c] + [b] + bricks[c + 1..];
    NotIn(bricks, b, 0, c);
    NotIn(bricks, b, c + 1, |bricks|);
  }

  lemma {:induction false} NotIn(bricks: seq<Brick>, b: Brick, i: nat, j: nat)
    requires Enumerated(bricks) && i <= j <= |bricks| && (b.id < i || b.id >= j)
    ensures multiset(bricks[i..j])[b] == 0
    decreases j - i
  {
    if i < j {
      assert bricks[i..j] == [bricks[i]] + bricks[i + 1..j];
      NotIn(bricks, b, i + 1, j);
    }
  }

  /** The ids are 0 .. |s| - 1, each once. */
  predicate Numbered(s: seq<Brick>)
  {
    (forall k :: 0 <= k < |s| ==> s[k].id < |s|)
    && forall p, q :: 0 <= p < q < |s| ==> s[p].id != s[q].id
  }

  /** The place of the brick with id c (|s| when there is none). */
  function IndexOf(s: seq<Brick>, c: nat): (k: nat)
    ensures k <= |s|
    ensures k < |s| ==> s[k].id == c
    ensures k == |s| ==> forall j :: 0 <= j < |s| ==> s[j].id != c
  {
    if s == [] then 0
    else if s[0].id == c then 0
    else 1 + IndexOf(s[1..], c)
  }

  /** With `Numbered` bricks, every id below |s| has its place. */
  lemma {:induction false} IndexOfNumbered(s: seq<Brick>, c: nat)
    requires Numbered(s) && c < |s|
    ensures IndexOf(s, c) < |s|
  {
    var ids := set k | 0 <= k < |s| :: s[k].id;
    assert ids <= Range(|s|);
    assert |ids| == |s| by {
      IdsCount(s, |s|);
    }
    SubsetSame(ids, Range(|s|));
    assert c in ids;
  }

  lemma {:induction false} IdsCount(s: seq<Brick>, n: nat)
    requires Numbered(s) && n <= |s|
    ensures |set k | 0 <= k < n :: s[k].id| == n
    decreases n
  {
    if n > 0 {
      IdsCount(s, n - 1);
      var a := set k | 0 <= k < n - 1 :: s[k].id;
      assert (set k | 0 <= k < n :: s[k].id) == a + {s[n - 1].id};
      assert s[n - 1].id !in a;
    }
  }

  /** The numbers 0 .. n - 1. */
  function Range(n: nat): (r: set<nat>)
    ensures |r| == n
    ensures forall i :: i in r <==> 0 <= i < n
  {
    if n == 0 then {} else Range(n - 1) + {n - 1}
  }

  lemma SubsetSame<T>(a: set<T>, b: set<T>)
    requires a <= b && |a| == |b|
    ensures a == b
  {
    assert b == a + (b - a);
    assert |b - a| == 0;
  }

  // ---------------------------------------------------------------------
  // Falling (`Cube::fall`)
  // ---------------------------------------------------------------------

  /** Column (x, y) lies under the brick. */
  predicate InFoot(b: Brick, x: int, y: int)
  {
    b.lo.x <= x <= b.hi.x && b.lo.y <= y <= b.hi.y
  }

  /** The brick fills cell (x, y, z). */
  predicate InBox(b: Brick, x: int, y: int, z: int)
  {
    InFoot(b, x, y) && b.lo.z <= z <= b.hi.z
  }

  /** The loops over the footprint run at least once. */
  predicate HasFoot(b: Brick)
  {
    b.lo.x <= b.hi.x && b.lo.y <= b.hi.y
  }

  /** `mxs[x][y]` after the placed bricks fell: the top of the last brick
      dropped onto column (x, y), and 0 (the ground) before any. */
  function ColumnTop(placed: seq<Brick>, x: int, y: int): nat
  {
    if placed == [] then 0
    else if InFoot(placed[|placed| - 1], x, y) then placed[|placed| - 1].hi.z
    else ColumnTop(placed[..|placed| - 1], x, y)
  }

  function Max(a: nat, b: nat): nat
  {
    if a < b then b else a
  }

  /** The highest column top at x over y in [b.lo.y, y). */
  function LineMax(placed: seq<Brick>, b: Brick, x: int, y: int): nat
    decreases y - b.lo.y
  {
    if y <= b.lo.y then 0 else Max(LineMax(placed, b, x, y - 1), ColumnTop(placed, x, y - 1))
  }

  lemma {:induction false} LineMaxIs(placed: seq<Brick>, b: Brick, x: int, y: int)
    ensures forall v :: b.lo.y <= v < y ==> ColumnTop(placed, x, v) <= LineMax(placed, b, x, y)
    ensures LineMax(placed, b, x, y) == 0 || exists v :: b.lo.y <= v < y && LineMax(placed, b, x, y) == ColumnTop(placed, x, v)
    decreases y - b.lo.y
  {
    if y > b.lo.y {
      LineMaxIs(placed, b, x, y - 1);
      var m := LineMax(placed, b, x, y - 1);
      var t := ColumnTop(placed, x, y - 1);
      if m < t {
        assert LineMax(placed, b, x, y) == ColumnTop(placed, x, y - 1);
      } else if m != 0 {
        var v :| b.lo.y <= v < y - 1 && m == ColumnTop(placed, x, v);
        assert LineMax(placed, b, x, y) == ColumnTop(placed, x, v);
      }
    }
  }

  /** The highest column top over the footprint columns with x in
      [b.lo.x, x). */
  function AreaMax(placed: seq<Brick>, b: Brick, x: int): nat
    decreases x - b.lo.x
  {
    if x <= b.lo.x then 0 else Max(AreaMax(placed, b, x - 1), LineMax(placed, b, x - 1, b.hi.y + 1))
  }

  lemma {:induction false} AreaMaxIs(placed: seq<Brick>, b: Brick, x: int)
    ensures forall u, v :: b.lo.x <= u < x && b.lo.y <= v <= b.hi.y ==> ColumnTop(placed, u, v) <= AreaMax(placed, b, x)
    ensures AreaMax(placed, b, x) == 0
            || exists u, v :: b.lo.x <= u < x && b.lo.y <= v <= b.hi.y && AreaMax(placed, b, x) == ColumnTop(placed, u, v)
    decreases x - b.lo.x
  {
    if x > b.lo.x {
      AreaMaxIs(placed, b, x - 1);
      LineMaxIs(placed, b, x - 1, b.hi.y + 1);
    }
  }

  /** `mx` is the highest column top under the brick, or 0 for the ground. */
  lemma FootMaxIs(placed: seq<Brick>, b: Brick)
    ensures forall u, v :: InFoot(b, u, v) ==> ColumnTop(placed, u, v) <= FootMax(placed, b)
    ensures FootMax(placed, b) == 0 || exists u, v :: InFoot(b, u, v) && FootMax(placed, b) == ColumnTop(placed, u, v)
  {
    AreaMaxIs(placed, b, b.hi.x + 1);
  }

  /** `mx`: the highest column top under the brick (0 on the ground). */
  function FootMax(placed: seq<Brick>, b: Brick): nat
  {
    AreaMax(placed, b, b.hi.x + 1)
  }

  /** The brick moved `down` cells lower. */
  function Drop(b: Brick, down: nat): Brick
    requires down <= b.lo.z <= b.hi.z
  {
    Brick(Pos(b.lo.x, b.lo.y, b.lo.z - down), Pos(b.hi.x, b.hi.y, b.hi.z - down), b.id)
  }

  /** `fall` in a field of side d on top of the placed bricks: None where
      the program panics (a top below the bottom, a footprint column
      outside the field, a brick already touching what is under it, or a
      cell above the field). Otherwise the brick keeps its footprint, id
      and height, comes down, and rests right on the highest column top
      under it. */
  function Land(placed: seq<Brick>, b: Brick, d: nat): (r: Option<Brick>)
    ensures r.Some? ==> var c := r.value;
      c.id == b.id && c.lo.x == b.lo.x && c.lo.y == b.lo.y && c.hi.x == b.hi.x && c.hi.y == b.hi.y
      && c.hi.z - c.lo.z == b.hi.z - b.lo.z >= 0 && 1 <= c.lo.z <= b.lo.z
      && c.lo.z == FootMax(placed, b) + 1
    ensures r.Some? ==> forall x, y :: InFoot(b, x, y) ==> ColumnTop(placed, x, y) < r.value.lo.z
    ensures r.Some? && HasFoot(b) ==> r.value.hi.x < d && r.value.hi.y < d && r.value.hi.z < d
    ensures (b.hi.z >= b.lo.z && !(HasFoot(b) && (b.hi.x >= d || b.hi.y >= d)) && b.lo.z > FootMax(placed, b)
             && !(HasFoot(b) && FootMax(placed, b) + 1 + (b.hi.z - b.lo.z) >= d)) ==> r.Some?
  {
    if b.hi.z < b.lo.z then None
    else if HasFoot(b) && (b.hi.x >= d || b.hi.y >= d) then None
    else
      var mx := FootMax(placed, b);
      FootMaxIs(placed, b);
      if b.lo.z <= mx then None
      else
        var c := Drop(b, b.lo.z - mx - 1);
        if HasFoot(b) && c.hi.z >= d then None else Some(c)
  }

  /** The bricks, in falling order, after each has fallen in turn; None
      when one of them panics. */
  function Settle(bricks: seq<Brick>, d: nat): (r: Option<seq<Brick>>)
    ensures r.Some? ==> |r.value| == |bricks|
  {
    if bricks == [] then Some([])
    else
      var n := |bricks| - 1;
      match Settle(bricks[..n], d)
      case None => None
      case Some(placed) =>
        match Land(placed, bricks[n], d)
        case None => None
        case Some(c) => Some(placed + [c])
  }

  /** Each settled brick is the one that lands on the bricks settled
      before it. */
  lemma {:induction false} SettleLands(bricks: seq<Brick>, d: nat)
    requires Settle(bricks, d).Some?
    ensures forall k :: 0 <= k < |bricks| ==>
      Land(Settle(bricks, d).value[..k], bricks[k], d) == Some(Settle(bricks, d).value[k])
    decreases |bricks|
  {
    if bricks != [] {
      var n := |bricks| - 1;
      var placed := Settle(bricks[..n], d).value;
      SettleLands(bricks[..n], d);
      var settled := Settle(bricks, d).value;
      assert settled == placed + [settled[n]];
      forall k | 0 <= k < |bricks|
        ensures Land(settled[..k], bricks[k], d) == Some(settled[k])
      {
        if k < n {
          assert settled[..k] == placed[..k];
          assert bricks[k] == bricks[..n][k];
        } else {
          assert settled[..k] == placed;
        }
      }
    }
  }

  /** `max_dim`: the largest top-corner coordinate of any brick. */
  function MaxDim(bricks: seq<Brick>): (d: nat)
    ensures forall k :: 0 <= k < |bricks| ==> bricks[k].hi.x <= d && bricks[k].hi.y <= d && bricks[k].hi.z <= d
    ensures d == 0 || exists k :: 0 <= k < |bricks| && d in {bricks[k].hi.x, bricks[k].hi.y, bricks[k].hi.z}
  {
    if bricks == [] then 0
    else
      var b := bricks[|bricks| - 1];
      Max(Max(Max(MaxDim(bricks[..|bricks| - 1]), b.hi.x), b.hi.y), b.hi.z)
  }

  // ---------------------------------------------------------------------
  // The settled field
  // ---------------------------------------------------------------------

  /** The place of the last brick filling cell (x, y, z), -1 when none. */
  function Owner(placed: seq<Brick>, x: int, y: int, z: int): (k: int)
    ensures -1 <= k < |placed|
    ensures k >= 0 ==> InBox(placed[k], x, y, z)
    ensures forall j :: k < j < |placed| ==> !InBox(placed[j], x, y, z)
  {
    if placed == [] then -1
    else if InBox(placed[|placed| - 1], x, y, z) then |placed| - 1
    else Owner(placed[..|placed| - 1], x, y, z)
  }

  /** `field[x][y][z]`: the id of the brick written last into the cell,
      -1 for empty space. */
  function Occupant(placed: seq<Brick>, x: int, y: int, z: int): int
  {
    var k := Owner(placed, x, y, z);
    if k < 0 then -1 else placed[k].id
  }

  /** The ids found right under brick c, in the cells below its bottom
      over its footprint. */
  function Below(settled: seq<Brick>, c: Brick): set<nat>
  {
    AreaBelow(settled, c, c.hi.x + 1)
  }

  /** `field[x][y][bottom - 1]` for brick c. */
  function Under(settled: seq<Brick>, c: Brick, x: int, y: int): int
  {
    Occupant(settled, x, y, c.lo.z - 1)
  }

  /** The ids under brick c in the columns (x, v) with v in [c.lo.y, y). */
  function LineBelow(settled: seq<Brick>, c: Brick, x: int, y: int): set<nat>
    decreases y - c.lo.y
  {
    if y <= c.lo.y then {}
    else
      var o := Under(settled, c, x, y - 1);
      LineBelow(settled, c, x, y - 1) + (if o >= 0 then {o as nat} else {})
  }

  /** The ids under brick c in its footprint columns with x in [c.lo.x, x). */
  function AreaBelow(settled: seq<Brick>, c: Brick, x: int): set<nat>
    decreases x - c.lo.x
  {
    if x <= c.lo.x then {} else AreaBelow(settled, c, x - 1) + LineBelow(settled, c, x - 1, c.hi.y + 1)
  }

  lemma {:induction false} LineBelowIs(settled: seq<Brick>, c: Brick, x: int, y: int, i: nat)
    ensures i in LineBelow(settled, c, x, y) <==> exists v :: c.lo.y <= v < y && Under(settled, c, x, v) == i
    decreases y - c.lo.y
  {
    if y > c.lo.y {
      LineBelowIs(settled, c, x, y - 1, i);
    }
  }

  lemma {:induction false} AreaBelowIs(settled: seq<Brick>, c: Brick, x: int, i: nat)
    ensures i in AreaBelow(settled, c, x) <==> exists u, v :: c.lo.x <= u < x && c.lo.y <= v <= c.hi.y && Under(settled, c, u, v) == i
  {
    if i in AreaBelow(settled, c, x) {
      AreaBelowFrom(settled, c, x, i);
    }
    if exists u, v :: c.lo.x <= u < x && c.lo.y <= v <= c.hi.y && Under(settled, c, u, v) == i {
      var u, v :| c.lo.x <= u < x && c.lo.y <= v <= c.hi.y && Under(settled, c, u, v) == i;
      AreaBelowHas(settled, c, x, u, v);
    }
  }

  lemma {:induction false} AreaBelowFrom(settled: seq<Brick>, c: Brick, x: int, i: nat)
    requires i in AreaBelow(settled, c, x)
    ensures exists u, v :: c.lo.x <= u < x && c.lo.y <= v <= c.hi.y && Under(settled, c, u, v) == i
    decreases x - c.lo.x
  {
    if i in AreaBelow(settled, c, x - 1) {
      AreaBelowFrom(settled, c, x - 1, i);
    } else {
      LineBelowIs(settled, c, x - 1, c.hi.y + 1, i);
      var v :| c.lo.y <= v < c.hi.y + 1 && Under(settled, c, x - 1, v) == i;
      assert c.lo.x <= x - 1 < x && c.lo.y <= v <= c.hi.y;
    }
  }

  lemma {:induction false} AreaBelowHas(settled: seq<Brick>, c: Brick, x: int, u: int, v: int)
    requires c.lo.x <= u < x && c.lo.y <= v <= c.hi.y && Under(settled, c, u, v) >= 0
    ensures Under(settled, c, u, v) as nat in AreaBelow(settled, c, x)
    decreases x - c.lo.x
  {
    if u < x - 1 {
      AreaBelowHas(settled, c, x - 1, u, v);
    } else {
      LineBelowIs(settled, c, u, c.hi.y + 1, Under(settled, c, u, v) as nat);
    }
  }

  /** Brick c lays on exactly the ids found in the cells right under its
      bottom, over its footprint. */
  lemma BelowIs(settled: seq<Brick>, c: Brick, i: nat)
    ensures i in Below(settled, c) <==> exists x, y :: InFoot(c, x, y) && Under(settled, c, x, y) == i
  {
    AreaBelowIs(settled, c, c.hi.x + 1, i);
  }

  /** `lays_on[c]`: what the brick with id c lays on. */
  function LaysOn(settled: seq<Brick>, c: nat): set<nat>
  {
    var k := IndexOf(settled, c);
    if k < |settled| then Below(settled, settled[k]) else {}
  }

  /** `solve`'s three answers, indexed by brick id. */
  datatype Support = Support(canRemove: seq<bool>, supportFor: seq<set<nat>>, laysOn: seq<set<nat>>)

  /** Bricks lay on what is right under them; a brick supports exactly the
      bricks laying on it; a brick can be taken away unless some brick
      lays on it alone. */
  function Relations(settled: seq<Brick>): (r: Support)
    ensures |r.canRemove| == |r.supportFor| == |r.laysOn| == |settled|
    ensures forall x, c :: 0 <= x < |settled| && 0 <= c < |settled| ==> (c in r.supportFor[x] <==> x in r.laysOn[c])
    ensures forall x :: 0 <= x < |settled| ==> (r.canRemove[x] <==> forall c :: 0 <= c < |settled| ==> r.laysOn[c] != {x})
    ensures forall c :: 0 <= c < |settled| ==> r.laysOn[c] == LaysOn(settled, c)
    ensures forall x, c :: 0 <= x < |settled| && c in r.supportFor[x] ==> c < |settled|
  {
    var n := |settled|;
    var l := seq(n, c requires 0 <= c < n => LaysOn(settled, c));
    Support(seq(n, x requires 0 <= x < n => forall c :: 0 <= c < n ==> l[c] != {x}),
            seq(n, x requires 0 <= x < n => set c | 0 <= c < n && x in l[c]),
            l)
  }

  // ---------------------------------------------------------------------
  // Properties of the settled bricks
  // ---------------------------------------------------------------------

  /** The bricks in the order they fell, after falling, from a snapshot. */
  ghost predicate Tower(lines: seq<string>, d: nat, sorted: seq<Brick>, settled: seq<Brick>)
  {
    ParseInput(lines).Some? && FallingOrder(ParseInput(lines).value, sorted)
    && d == MaxDim(sorted) && Settle(sorted, d) == Some(settled)
  }

  /** Settling keeps the ids. */
  lemma SettleIds(bricks: seq<Brick>, d: nat, settled: seq<Brick>)
    requires Settle(bricks, d) == Some(settled)
    ensures forall k :: 0 <= k < |bricks| ==> settled[k].id == bricks[k].id
    ensures Numbered(bricks) ==> Numbered(settled)
  {
    SettleLands(bricks, d);
  }

  /** After settling, every brick with a footprint lies inside the field
      and above the ground, right-side up. */
  predicate Inside(settled: seq<Brick>, d: nat)
  {
    forall k :: 0 <= k < |settled| ==>
      1 <= settled[k].lo.z <= settled[k].hi.z
      && (HasFoot(settled[k]) ==> settled[k].hi.x < d && settled[k].hi.y < d && settled[k].hi.z < d)
  }

  lemma SettleInside(bricks: seq<Brick>, d: nat, settled: seq<Brick>)
    requires Settle(bricks, d) == Some(settled)
    ensures Inside(settled, d)
  {
    SettleLands(bricks, d);
    forall k | 0 <= k < |settled|
      ensures 1 <= settled[k].lo.z <= settled[k].hi.z
      ensures HasFoot(settled[k]) ==> settled[k].hi.x < d && settled[k].hi.y < d && settled[k].hi.z < d
    {
      assert Land(settled[..k], bricks[k], d) == Some(settled[k]);
    }
  }

  /** A column's top is at least the top of every settled brick over it. */
  lemma {:induction false} ColumnTopCovers(bricks: seq<Brick>, d: nat, settled: seq<Brick>, j: nat, x: int, y: int)
    requires Settle(bricks, d) == Some(settled) && j < |settled| && InFoot(settled[j], x, y)
    ensures settled[j].hi.z <= ColumnTop(settled, x, y)
    decreases |settled|
  {
    var n := |settled| - 1;
    if j < n {
      SettlePrefix(bricks, d, settled, n);
      ColumnTopCovers(bricks[..n], d, settled[..n], j, x, y);
      if InFoot(settled[n], x, y) {
        SettleLands(bricks, d);
        assert Land(settled[..n], bricks[n], d) == Some(settled[n]);
        assert InFoot(bricks[n], x, y);
      }
    }
  }

  /** Settled bricks never share a cell: a brick comes to rest above
      every brick that fell before it on any of its columns. */
  lemma Disjoint(bricks: seq<Brick>, d: nat, settled: seq<Brick>, j: nat, k: nat, x: int, y: int, z: int)
    requires Settle(bricks, d) == Some(settled) && j < k < |settled|
    ensures !(InBox(settled[j], x, y, z) && InBox(settled[k], x, y, z))
  {
    if InBox(settled[j], x, y, z) && InBox(settled[k], x, y, z) {
      SettleLands(bricks, d);
      assert Land(settled[..k], bricks[k], d) == Some(settled[k]);
      assert InFoot(bricks[k], x, y);
      SettlePrefix(bricks, d, settled, k);
      ColumnTopCovers(bricks[..k], d, settled[..k], j, x, y);
    }
  }

  lemma SettleInit(bricks: seq<Brick>, d: nat, settled: seq<Brick>)
    requires Settle(bricks, d) == Some(settled) && |bricks| > 0
    ensures Settle(bricks[..|bricks| - 1], d) == Some(settled[..|bricks| - 1])
  {
    var n := |bricks| - 1;
    var p := Settle(bricks[..n], d).value;
    assert settled == p + [settled[n]];
  }

  /** Every prefix of the bricks settles to the prefix of the result. */
  lemma {:induction false} SettlePrefix(bricks: seq<Brick>, d: nat, settled: seq<Brick>, k: nat)
    requires Settle(bricks, d) == Some(settled) && k <= |bricks|
    ensures Settle(bricks[..k], d) == Some(settled[..k])
    decreases |bricks| - k
  {
    if k < |bricks| {
      var n := |bricks| - 1;
      assert bricks[..n][..k] == bricks[..k] && settled[..n][..k] == settled[..k];
      SettleInit(bricks, d, settled);
      SettlePrefix(bricks[..n], d, settled[..n], k);
    } else {
      assert bricks[..k] == bricks && settled[..k] == settled;
    }
  }

  /** What a brick lays on fell earlier and sits lower: its bottom is
      below the bottom of the brick laying on it. This is what makes the
      chain reaction of part 2 finish. */
  lemma LaysOnLower(settled: seq<Brick>, d: nat, c: nat, x: nat)
    requires Inside(settled, d) && Numbered(settled)
    requires c < |settled| && x in LaysOn(settled, c)
    ensures x < |settled|
    ensures IndexOf(settled, x) < |settled| && IndexOf(settled, c) < |settled|
    ensures settled[IndexOf(settled, x)].lo.z < settled[IndexOf(settled, c)].lo.z < d
  {
    IndexOfNumbered(settled, c);
    var k := IndexOf(settled, c);
    var b := settled[k];
    BelowIs(settled, b, x);
    var u: int, v: int :| InFoot(b, u, v) && Under(settled, b, u, v) == x;
    var o := Owner(settled, u, v, b.lo.z - 1);
    assert HasFoot(b);
    assert Occupant(settled, u, v, b.lo.z - 1) == x;
    assert o >= 0 && settled[o].id == x;
    assert IndexOf(settled, x) == o by {
      IndexOfNumbered(settled, x);
    }
  }
}
