/** Day 22, `Cube::fall` and `solve` over the program's own state: the
    height map `mxs` and the cube `field` are arrays of side `max_dim`,
    the bricks are an array sorted in place and then dropped one by one,
    and the support relations are built from the field. Each method is
    proved against the pure functions of `Day22Bricks`. */
module Day22Fall {
  import opened Common
  import opened Sorting
  import opened Day22Bricks

  /** `field` and `mxs` are d × d × d and d × d. */
  predicate Shaped(field: array3<int>, mxs: array2<nat>, d: nat)
    reads field, mxs
  {
    field.Length0 == d && field.Length1 == d && field.Length2 == d && mxs.Length0 == d && mxs.Length1 == d
  }

  /** `mxs` holds the column tops of the placed bricks. */
  ghost predicate Tops(mxs: array2<nat>, placed: seq<Brick>)
    reads mxs
  {
    forall x, y :: 0 <= x < mxs.Length0 && 0 <= y < mxs.Length1 ==> mxs[x, y] == ColumnTop(placed, x, y)
  }

  /** `field` holds, in each cell, the id of the brick filling it. */
  ghost predicate Cells(field: array3<int>, placed: seq<Brick>)
    reads field
  {
    forall x, y, z :: 0 <= x < field.Length0 && 0 <= y < field.Length1 && 0 <= z < field.Length2 ==>
      field[x, y, z] == Occupant(placed, x, y, z)
  }

  // ---------------------------------------------------------------------
  // `Cube::fall`
  // ---------------------------------------------------------------------

  /** The first loop of `fall`: the highest column top under the brick,
      None when a footprint column lies outside `mxs`. */
  method MaxUnder(b: Brick, mxs: array2<nat>, ghost placed: seq<Brick>) returns (r: Option<nat>)
    requires mxs.Length0 == mxs.Length1 && Tops(mxs, placed)
    ensures r.None? <==> HasFoot(b) && (b.hi.x >= mxs.Length0 || b.hi.y >= mxs.Length0)
    ensures r.Some? ==> r.value == FootMax(placed, b)
  {
    var d := mxs.Length0;
    var mx := 0;
    var x: int := b.lo.x;
    while x <= b.hi.x
      invariant b.lo.x <= x && (x <= b.hi.x + 1 || x == b.lo.x)
      invariant mx == AreaMax(placed, b, x)
      invariant x > b.lo.x && b.lo.y <= b.hi.y ==> x - 1 < d && b.hi.y < d
      decreases b.hi.x - x
    {
      var y: int := b.lo.y;
      while y <= b.hi.y
        invariant b.lo.y <= y && (y <= b.hi.y + 1 || y == b.lo.y)
        invariant mx == Max(AreaMax(placed, b, x), LineMax(placed, b, x, y))
        invariant y > b.lo.y ==> x < d && y - 1 < d
        decreases b.hi.y - y
      {
        if x >= d || y >= d {
          return None;
        }
        mx := Max(mx, mxs[x, y]);
        y := y + 1;
      }
      x := x + 1;
    }
    return Some(mx);
  }

  /** The second loop of `fall`: every footprint column gets the new top. */
  method Raise(b: Brick, top: nat, mxs: array2<nat>)
    requires HasFoot(b) ==> b.hi.x < mxs.Length0 && b.hi.y < mxs.Length1
    modifies mxs
    ensures forall x, y :: 0 <= x < mxs.Length0 && 0 <= y < mxs.Length1 ==>
      mxs[x, y] == if InFoot(b, x, y) then top else old(mxs[x, y])
  {
    var x: int := b.lo.x;
    while x <= b.hi.x
      invariant b.lo.x <= x && (x <= b.hi.x + 1 || x == b.lo.x)
      invariant forall u, v :: 0 <= u < mxs.Length0 && 0 <= v < mxs.Length1 ==>
        mxs[u, v] == if InFoot(b, u, v) && u < x then top else old(mxs[u, v])
      decreases b.hi.x - x
    {
      RaiseLine(b, x, top, mxs);
      x := x + 1;
    }
  }

  /** The columns (x, y) of the footprint, for one x. */
  method RaiseLine(b: Brick, x: int, top: nat, mxs: array2<nat>)
    requires b.lo.x <= x <= b.hi.x
    requires HasFoot(b) ==> b.hi.x < mxs.Length0 && b.hi.y < mxs.Length1
    modifies mxs
    ensures forall u, v :: 0 <= u < mxs.Length0 && 0 <= v < mxs.Length1 ==>
      mxs[u, v] == if u == x && InFoot(b, u, v) then top else old(mxs[u, v])
  {
    var y: int := b.lo.y;
    while y <= b.hi.y
      invariant b.lo.y <= y && (y <= b.hi.y + 1 || y == b.lo.y)
      invariant forall u, v :: 0 <= u < mxs.Length0 && 0 <= v < mxs.Length1 ==>
        mxs[u, v] == if u == x && b.lo.y <= v < y then top else old(mxs[u, v])
      decreases b.hi.y - y
    {
      mxs[x, y] := top;
      y := y + 1;
    }
  }

  /** The third loop of `fall`: the brick's id goes into every cell it
      fills after falling, and nowhere else. */
  method Fill(c: Brick, field: array3<int>)
    requires HasFoot(c) ==> c.hi.x < field.Length0 && c.hi.y < field.Length1 && c.hi.z < field.Length2
    modifies field
    ensures forall x, y, z :: 0 <= x < field.Length0 && 0 <= y < field.Length1 && 0 <= z < field.Length2 ==>
      field[x, y, z] == if InBox(c, x, y, z) then c.id else old(field[x, y, z])
  {
    var x: int := c.lo.x;
    while x <= c.hi.x
      invariant c.lo.x <= x && (x <= c.hi.x + 1 || x == c.lo.x)
      invariant forall u, v, w :: 0 <= u < field.Length0 && 0 <= v < field.Length1 && 0 <= w < field.Length2 ==>
        field[u, v, w] == if InBox(c, u, v, w) && u < x then c.id else old(field[u, v, w])
      decreases c.hi.x - x
    {
      var y: int := c.lo.y;
      while y <= c.hi.y
        invariant c.lo.y <= y && (y <= c.hi.y + 1 || y == c.lo.y)
        invariant forall u, v, w :: 0 <= u < field.Length0 && 0 <= v < field.Length1 && 0 <= w < field.Length2 ==>
          field[u, v, w] == if InBox(c, u, v, w) && (u < x || (u == x && v < y)) then c.id else old(field[u, v, w])
        decreases c.hi.y - y
      {
        FillColumn(c, x, y, field);
        y := y + 1;
      }
      x := x + 1;
    }
  }

  /** The cells (x, y, z) of the brick, for one column. */
  method FillColumn(c: Brick, x: int, y: int, field: array3<int>)
    requires InFoot(c, x, y)
    requires c.hi.x < field.Length0 && c.hi.y < field.Length1 && c.hi.z < field.Length2
    modifies field
    ensures forall u, v, w :: 0 <= u < field.Length0 && 0 <= v < field.Length1 && 0 <= w < field.Length2 ==>
      field[u, v, w] == if u == x && v == y && c.lo.z <= w <= c.hi.z then c.id else old(field[u, v, w])
  {
    var z: int := c.lo.z;
    while z <= c.hi.z
      invariant c.lo.z <= z && (z <= c.hi.z + 1 || z == c.lo.z)
      invariant forall u, v, w :: 0 <= u < field.Length0 && 0 <= v < field.Length1 && 0 <= w < field.Length2 ==>
        field[u, v, w] == if u == x && v == y && c.lo.z <= w < z then c.id else old(field[u, v, w])
      decreases c.hi.z - z
    {
      field[x, y, z] := c.id;
      z := z + 1;
    }
  }

  /** `Cube::fall`: the brick lands as `Land` says, and afterwards `mxs`
      and `field` describe the placed bricks and this one; None where the
      program panics. */
  method Fall(b: Brick, field: array3<int>, mxs: array2<nat>, ghost placed: seq<Brick>) returns (r: Option<Brick>)
    requires Shaped(field, mxs, mxs.Length0) && Tops(mxs, placed) && Cells(field, placed)
    modifies field, mxs
    ensures r == Land(placed, b, mxs.Length0)
    ensures r.Some? ==> Tops(mxs, placed + [r.value]) && Cells(field, placed + [r.value])
  {
    var d := mxs.Length0;
    if b.hi.z < b.lo.z {
      return None;
    }
    var heigh := b.hi.z - b.lo.z + 1;
    var mx := MaxUnder(b, mxs, placed);
    if mx.None? {
      return None;
    }
    if b.lo.z <= mx.value {
      return None;
    }
    var down := b.lo.z - mx.value - 1;
    Raise(b, mx.value + heigh, mxs);
    var c := Drop(b, down);
    if HasFoot(b) && c.hi.z >= d {
      return None;
    }
    Fill(c, field);
    Placed(placed, c);
    return Some(c);
  }

  /** Column tops and owners once one more brick is placed. */
  lemma Placed(placed: seq<Brick>, c: Brick)
    ensures forall x, y :: ColumnTop(placed + [c], x, y) == if InFoot(c, x, y) then c.hi.z else ColumnTop(placed, x, y)
    ensures forall x, y, z :: Occupant(placed + [c], x, y, z) == if InBox(c, x, y, z) then c.id else Occupant(placed, x, y, z)
  {
    assert (placed + [c])[..|placed|] == placed;
  }

  // ---------------------------------------------------------------------
  // `solve`
  // ---------------------------------------------------------------------

  /** The `max_dim` loop. */
  method MaxDimOf(cubes: array<Brick>) returns (d: nat)
    ensures d == MaxDim(cubes[..])
  {
    d := 0;
    for i := 0 to cubes.Length
      invariant d == MaxDim(cubes[..i])
    {
      assert cubes[..i + 1][..i] == cubes[..i];
      d := Max(d, cubes[i].hi.x);
      d := Max(d, cubes[i].hi.y);
      d := Max(d, cubes[i].hi.z);
    }
    assert cubes[..cubes.Length] == cubes[..];
  }

  /** The falling loop: every brick in turn falls onto those before it;
      false as soon as one panics. */
  method FallAll(cubes: array<Brick>, field: array3<int>, mxs: array2<nat>) returns (ok: bool)
    requires Shaped(field, mxs, mxs.Length0) && Tops(mxs, []) && Cells(field, [])
    modifies cubes, field, mxs
    ensures ok <==> Settle(old(cubes[..]), mxs.Length0).Some?
    ensures ok ==> Settle(old(cubes[..]), mxs.Length0) == Some(cubes[..]) && Cells(field, cubes[..])
  {
    ghost var sorted := cubes[..];
    var i := 0;
    while i < cubes.Length
      invariant 0 <= i <= cubes.Length && Shaped(field, mxs, mxs.Length0)
      invariant Falling(cubes, sorted, i, field, mxs)
    {
      ok := FallNext(cubes, sorted, i, field, mxs);
      if !ok {
        return false;
      }
      i := i + 1;
    }
    assert sorted[..i] == sorted && cubes[..i] == cubes[..];
    return true;
  }

  /** The first i bricks have fallen, the others wait in falling order. */
  ghost predicate Falling(cubes: array<Brick>, sorted: seq<Brick>, i: nat, field: array3<int>, mxs: array2<nat>)
    reads cubes, field, mxs
  {
    i <= cubes.Length == |sorted|
    && cubes[i..] == sorted[i..]
    && Settle(sorted[..i], mxs.Length0) == Some(cubes[..i])
    && Tops(mxs, cubes[..i]) && Cells(field, cubes[..i])
  }

  /** One turn of the falling loop. */
  method FallNext(cubes: array<Brick>, ghost sorted: seq<Brick>, i: nat, field: array3<int>, mxs: array2<nat>) returns (ok: bool)
    requires i < cubes.Length && Shaped(field, mxs, mxs.Length0) && Falling(cubes, sorted, i, field, mxs)
    modifies cubes, field, mxs
    ensures ok ==> Falling(cubes, sorted, i + 1, field, mxs)
    ensures !ok ==> Settle(sorted, mxs.Length0).None?
  {
    ghost var placed := cubes[..i];
    var c := Fall(cubes[i], field, mxs, placed);
    assert sorted[..i + 1][..i] == sorted[..i] && sorted[..i + 1][i] == sorted[i] == cubes[i];
    if c.None? {
      SettleFails(sorted, mxs.Length0, i + 1);
      return false;
    }
    cubes[i] := c.value;
    assert cubes[..i + 1] == placed + [c.value];
    assert cubes[i + 1..] == old(cubes[i + 1..]);
    return true;
  }

  /** Once a prefix panics, the whole falls panics. */
  lemma SettleFails(bricks: seq<Brick>, d: nat, k: nat)
    requires k <= |bricks| && Settle(bricks[..k], d).None?
    ensures Settle(bricks, d).None?
  {
    if Settle(bricks, d).Some? {
      SettlePrefix(bricks, d, Settle(bricks, d).value, k);
    }
  }

  /** `field[x][y][bottom - 1]` over the footprint of brick c: the ids
      found right under it. */
  method Beneath(c: Brick, field: array3<int>, ghost settled: seq<Brick>) returns (s: set<nat>)
    requires Cells(field, settled) && 1 <= c.lo.z
    requires HasFoot(c) ==> c.hi.x < field.Length0 && c.hi.y < field.Length1 && c.lo.z <= field.Length2
    ensures s == Below(settled, c)
  {
    s := {};
    var x: int := c.lo.x;
    while x <= c.hi.x
      invariant c.lo.x <= x && (x <= c.hi.x + 1 || x == c.lo.x)
      invariant s == AreaBelow(settled, c, x)
      decreases c.hi.x - x
    {
      var y: int := c.lo.y;
      while y <= c.hi.y
        invariant c.lo.y <= y && (y <= c.hi.y + 1 || y == c.lo.y)
        invariant s == AreaBelow(settled, c, x) + LineBelow(settled, c, x, y)
        decreases c.hi.y - y
      {
        var o := field[x, y, c.lo.z - 1];
        assert o == Under(settled, c, x, y);
        if o != -1 {
          s := s + {o as nat};
        }
        y := y + 1;
      }
      x := x + 1;
    }
  }

  /** `for x in &lays_on[id] { support_for[x].insert(id) }`. */
  method AddSupported(supportFor: seq<set<nat>>, below: set<nat>, id: nat) returns (r: seq<set<nat>>)
    requires forall x :: x in below ==> x < |supportFor|
    ensures |r| == |supportFor|
    ensures forall x :: 0 <= x < |r| ==> r[x] == if x in below then supportFor[x] + {id} else supportFor[x]
  {
    r := supportFor;
    var rest := below;
    while rest != {}
      invariant rest <= below && |r| == |supportFor|
      invariant forall x :: 0 <= x < |r| ==> r[x] == if x in below - rest then supportFor[x] + {id} else supportFor[x]
      decreases |rest|
    {
      var x :| x in rest;
      r := r[x := r[x] + {id}];
      rest := rest - {x};
    }
  }

  /** The bricks from place i on have been related: what they lay on,
      whom they support, and the bricks that are the sole support of one
      of them. */
  ghost predicate Related(settled: seq<Brick>, i: nat, rel: Support)
  {
    var n := |settled|;
    |rel.canRemove| == n && |rel.supportFor| == n && |rel.laysOn| == n
    && LaysOnFrom(settled, i, rel.laysOn) && SupportFrom(settled, i, rel.supportFor)
    && RemovableFrom(settled, i, rel.canRemove)
  }

  /** The brick with id c is at place i or later. */
  ghost predicate Done(settled: seq<Brick>, i: nat, c: nat)
  {
    IndexOf(settled, c) >= i
  }

  ghost predicate LaysOnFrom(settled: seq<Brick>, i: nat, laysOn: seq<set<nat>>)
    requires |laysOn| == |settled|
  {
    forall c :: 0 <= c < |settled| ==> laysOn[c] == if Done(settled, i, c) then LaysOn(settled, c) else {}
  }

  ghost predicate SupportFrom(settled: seq<Brick>, i: nat, supportFor: seq<set<nat>>)
    requires |supportFor| == |settled|
  {
    (forall x, c :: 0 <= x < |settled| && 0 <= c < |settled| ==>
       (c in supportFor[x] <==> Done(settled, i, c) && x in LaysOn(settled, c)))
    && forall x :: 0 <= x < |settled| ==> supportFor[x] <= Range(|settled|)
  }

  ghost predicate RemovableFrom(settled: seq<Brick>, i: nat, canRemove: seq<bool>)
    requires |canRemove| == |settled|
  {
    forall x :: 0 <= x < |settled| ==>
      (canRemove[x] <==> forall c :: 0 <= c < |settled| && Done(settled, i, c) ==> LaysOn(settled, c) != {x})
  }

  /** Stepping from place i + 1 back to place i adds exactly the brick
      at place i. */
  lemma DoneStep(settled: seq<Brick>, i: nat, id: nat)
    requires i < |settled| && settled[i].id == id && IndexOf(settled, id) == i
    ensures forall c :: 0 <= c < |settled| ==> (Done(settled, i, c) <==> Done(settled, i + 1, c) || c == id)
  {
    forall c | 0 <= c < |settled|
      ensures Done(settled, i, c) <==> Done(settled, i + 1, c) || c == id
    {
      var k := IndexOf(settled, c);
      assert k < |settled| ==> settled[k].id == c;
    }
  }

  /** What a brick lays on are ids of bricks. */
  lemma BelowIds(settled: seq<Brick>, c: Brick)
    requires Numbered(settled)
    ensures forall x :: x in Below(settled, c) ==> x < |settled|
  {
    forall x | x in Below(settled, c)
      ensures x < |settled|
    {
      BelowIs(settled, c, x);
      var u: int, v: int :| InFoot(c, u, v) && Under(settled, c, u, v) == x;
    }
  }

  /** The support loop of `solve`, walking the fallen bricks from the
      last to the first. */
  method Relate(cubes: array<Brick>, field: array3<int>, ghost d: nat) returns (rel: Support)
    requires Cells(field, cubes[..]) && Inside(cubes[..], d) && Numbered(cubes[..])
    requires field.Length0 == d && field.Length1 == d && field.Length2 == d
    ensures rel == Relations(cubes[..])
  {
    ghost var settled := cubes[..];
    var n := cubes.Length;
    rel := Support(seq(n, _ => true), seq(n, _ => {}), seq(n, _ => {}));
    var i := n;
    while i > 0
      invariant 0 <= i <= n && Related(settled, i, rel)
    {
      i := i - 1;
      rel := RelateNext(cubes, field, d, i, rel);
    }
    ghost var want := Relations(settled);
    assert rel.laysOn == want.laysOn;
    forall x | 0 <= x < n
      ensures rel.supportFor[x] == want.supportFor[x]
    {
      assert forall c :: c in rel.supportFor[x] <==> c in want.supportFor[x];
    }
    assert rel.supportFor == want.supportFor;
    assert rel.canRemove == want.canRemove;
  }

  /** One turn of the support loop, for the brick at place i. */
  method RelateNext(cubes: array<Brick>, field: array3<int>, ghost d: nat, i: nat, rel: Support) returns (r: Support)
    requires Cells(field, cubes[..]) && Inside(cubes[..], d) && Numbered(cubes[..])
    requires field.Length0 == d && field.Length1 == d && field.Length2 == d
    requires i < cubes.Length && Related(cubes[..], i + 1, rel)
    ensures Related(cubes[..], i, r)
  {
    ghost var settled := cubes[..];
    var n := cubes.Length;
    var cube := cubes[i];
    var id := cube.id;
    assert IndexOf(settled, id) == i by {
      IndexOfNumbered(settled, id);
    }
    var below := Beneath(cube, field, settled);
    BelowIds(settled, cube);
    assert below == LaysOn(settled, id);
    var laysOn := rel.laysOn[id := rel.laysOn[id] + below];
    var supportFor := AddSupported(rel.supportFor, laysOn[id], id);
    assert laysOn[id] == below;
    var canRemove := MarkSole(rel.canRemove, laysOn[id]);
    r := Support(canRemove, supportFor, laysOn);
    RelatedStep(settled, i, id, rel, r);
  }

  /** A brick that lays on exactly one brick makes that one irremovable. */
  method MarkSole(canRemove: seq<bool>, below: set<nat>) returns (r: seq<bool>)
    requires forall x :: x in below ==> x < |canRemove|
    ensures |r| == |canRemove|
    ensures forall x :: 0 <= x < |r| ==> (r[x] <==> canRemove[x] && below != {x})
  {
    r := canRemove;
    if |below| == 1 {
      var x :| x in below;
      SingleElement(below, x);
      r := r[x := false];
    }
  }

  /** Relating the brick with id `id` at place i adds what it lays on,
      makes it supported by each of those, and makes a sole support
      irremovable. */
  lemma RelatedStep(settled: seq<Brick>, i: nat, id: nat, rel: Support, r: Support)
    requires i < |settled| && settled[i].id == id && id < |settled| && IndexOf(settled, id) == i
    requires Related(settled, i + 1, rel)
    requires |r.canRemove| == |r.supportFor| == |r.laysOn| == |settled|
    requires r.laysOn == rel.laysOn[id := LaysOn(settled, id)]
    requires forall x :: 0 <= x < |settled| ==>
      r.supportFor[x] == if x in LaysOn(settled, id) then rel.supportFor[x] + {id} else rel.supportFor[x]
    requires forall x :: 0 <= x < |settled| ==> (r.canRemove[x] <==> rel.canRemove[x] && LaysOn(settled, id) != {x})
    ensures Related(settled, i, r)
  {
    DoneStep(settled, i, id);
    LaysOnStep(settled, i, id, rel.laysOn, r.laysOn);
    SupportStep(settled, i, id, rel.supportFor, r.supportFor);
    RemovableStep(settled, i, id, rel.canRemove, r.canRemove);
  }

  lemma LaysOnStep(settled: seq<Brick>, i: nat, id: nat, before: seq<set<nat>>, after: seq<set<nat>>)
    requires id < |settled| == |before| && forall c :: 0 <= c < |settled| ==> (Done(settled, i, c) <==> Done(settled, i + 1, c) || c == id)
    requires !Done(settled, i + 1, id) && LaysOnFrom(settled, i + 1, before)
    requires after == before[id := LaysOn(settled, id)]
    ensures LaysOnFrom(settled, i, after)
  {
  }

  lemma SupportStep(settled: seq<Brick>, i: nat, id: nat, before: seq<set<nat>>, after: seq<set<nat>>)
    requires id < |settled| == |before| == |after| && forall c :: 0 <= c < |settled| ==> (Done(settled, i, c) <==> Done(settled, i + 1, c) || c == id)
    requires !Done(settled, i + 1, id) && SupportFrom(settled, i + 1, before)
    requires forall x :: 0 <= x < |settled| ==>
      after[x] == if x in LaysOn(settled, id) then before[x] + {id} else before[x]
    ensures SupportFrom(settled, i, after)
  {
    var n := |settled|;
    var below := LaysOn(settled, id);
    forall x, c | 0 <= x < n && 0 <= c < n
      ensures c in after[x] <==> Done(settled, i, c) && x in LaysOn(settled, c)
    {
      if c == id {
        assert c !in before[x];
        assert c in after[x] <==> x in below;
      } else {
        assert c in after[x] <==> c in before[x];
      }
    }
    forall x | 0 <= x < n
      ensures after[x] <= Range(n)
    {
      assert before[x] <= Range(n);
      assert id in Range(n);
    }
  }

  lemma RemovableStep(settled: seq<Brick>, i: nat, id: nat, before: seq<bool>, after: seq<bool>)
    requires id < |settled| == |before| == |after| && forall c :: 0 <= c < |settled| ==> (Done(settled, i, c) <==> Done(settled, i + 1, c) || c == id)
    requires RemovableFrom(settled, i + 1, before)
    requires forall x :: 0 <= x < |settled| ==> (after[x] <==> before[x] && LaysOn(settled, id) != {x})
    ensures RemovableFrom(settled, i, after)
  {
  }

  lemma SingleElement<T>(s: set<T>, x: T)
    requires |s| == 1 && x in s
    ensures s == {x}
  {
    assert |s - {x}| == 0;
  }

  /** `solve`: the snapshot parsed, sorted into falling order, dropped, and
      related. None where the program panics. */
  method Solve(lines: seq<string>) returns (r: Option<Support>, ghost sorted: seq<Brick>, ghost settled: seq<Brick>)
    ensures ParseInput(lines).None? ==> r.None?
    ensures ParseInput(lines).Some? ==>
      FallingOrder(ParseInput(lines).value, sorted) && (r.Some? <==> Settle(sorted, MaxDim(sorted)).Some?)
    ensures r.Some? ==> Tower(lines, MaxDim(sorted), sorted, settled) && r.value == Relations(settled)
    ensures r.Some? ==> Numbered(settled) && Inside(settled, MaxDim(sorted))
  {
    var parsed := ParseInput(lines);
    if parsed.None? {
      return None, [], [];
    }
    var bricks := parsed.value;
    var cubes := new Brick[|bricks|](k requires 0 <= k < |bricks| => bricks[k]);
    assert cubes[..] == bricks;
    SortBricks(cubes);
    sorted := cubes[..];
    PermutedIds(bricks, sorted);
    r, settled := SolveSorted(cubes);
  }

  /** The `sort_by` call of `solve`: never panics, and gives the falling
      order. */
  method SortBricks(cubes: array<Brick>)
    requires Enumerated(cubes[..])
    modifies cubes
    ensures FallingOrder(old(cubes[..]), cubes[..])
  {
    CompareLaws();
    assert Increasing((b: Brick) => b.id, cubes[..]);
    var sortedOk := SortBy(cubes, Compare, (b: Brick) => b.id);
    var sorted := cubes[..];
    forall p, q | 0 <= p < q < |sorted| && sorted[p].lo.z == sorted[q].lo.z && sorted[p].hi.z == sorted[q].hi.z
      ensures sorted[p].id < sorted[q].id
    {
      assert Compare(sorted[p], sorted[q]) == Some(Equal);
    }
  }

  /** `solve` from the sorted bricks on: `max_dim`, the arrays, the
      falling loop and the support loop. */
  method SolveSorted(cubes: array<Brick>) returns (r: Option<Support>, ghost settled: seq<Brick>)
    requires Numbered(cubes[..])
    modifies cubes
    ensures r.Some? <==> Settle(old(cubes[..]), MaxDim(old(cubes[..]))).Some?
    ensures r.Some? ==> Settle(old(cubes[..]), MaxDim(old(cubes[..]))) == Some(settled) && r.value == Relations(settled)
    ensures r.Some? ==> Numbered(settled) && Inside(settled, MaxDim(old(cubes[..])))
  {
    ghost var sorted := cubes[..];
    var d := MaxDimOf(cubes);
    var field := new int[d, d, d]((_, _, _) => -1);
    var mxs := new nat[d, d]((_, _) => 0);
    var ok := FallAll(cubes, field, mxs);
    if !ok {
      return None, [];
    }
    settled := cubes[..];
    SettleIds(sorted, d, settled);
    SettleInside(sorted, d, settled);
    var rel := Relate(cubes, field, d);
    return Some(rel), settled;
  }
}
