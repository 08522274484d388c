/** Day 5 (If You Give A Seed A Fertilizer): seeds pushed through a chain
    of almanac maps, each map a table of shifted intervals. Part 1 maps
    single seeds; part 2 pushes whole seed intervals through a FIFO worklist
    that splits them against each map. */
module Day5 {
  import opened Common
  import opened Text

  const I64_MAX: int := 0x7FFF_FFFF_FFFF_FFFF

  /** One line of a map: `len` values starting at `src` go to `dest`. */
  datatype MapRange = MapRange(src: int, dest: int, len: int)

  datatype Mapping = Mapping(from: string, to: string, ranges: seq<MapRange>)

  // ---------------------------------------------------------------------
  // Parsing
  // ---------------------------------------------------------------------

  /** Every piece parsed as an `i64`, or `None` when one of them is not a
      number (the `expect` panics). */
  function ParseAll(pieces: seq<string>): (r: Option<seq<int>>)
    ensures r.Some? ==> |r.value| == |pieces|
    ensures r.Some? ==> forall k :: 0 <= k < |pieces| ==> ParseInt(pieces[k]) == Some(r.value[k])
  {
    if pieces == [] then Some([])
    else
      match ParseAll(pieces[..|pieces| - 1])
      case None => None
      case Some(init) =>
        match ParseInt(pieces[|pieces| - 1])
        case None => None
        case Some(v) => Some(init + [v])
  }

  /** `dest src len` split on single spaces; the tuple is reordered to
      (src, dest, len). Fewer than three numbers index out of bounds. */
  function ParseMapRange(line: string): Option<MapRange>
  {
    match ParseAll(Split(line, ' '))
    case None => None
    case Some(vs) => if |vs| < 3 then None else Some(MapRange(vs[1], vs[0], vs[2]))
  }

  /** The almanac line `dest src len` reads back as (src, dest, len). */
  lemma ParseMapRangeRoundTrip(src: int, dest: int, len: int)
    ensures ParseMapRange(IntToDecimal(dest) + " " + IntToDecimal(src) + " " + IntToDecimal(len))
            == Some(MapRange(src, dest, len))
  {
    var a, b, c := IntToDecimal(dest), IntToDecimal(src), IntToDecimal(len);
    assert Join([c], ' ') == c;
    assert [b, c][1..] == [c];
    assert Join([b, c], ' ') == b + [' '] + c;
    assert [a, b, c][1..] == [b, c];
    assert a + " " + b + " " + c == Join([a, b, c], ' ');
    JoinSplit([a, b, c], ' ');
    IntToDecimalRoundTrip(dest);
    IntToDecimalRoundTrip(src);
    IntToDecimalRoundTrip(len);
    ParseAllThree(a, b, c);
  }

  lemma ParseAllThree(a: string, b: string, c: string)
    requires ParseInt(a).Some? && ParseInt(b).Some? && ParseInt(c).Some?
    ensures ParseAll([a, b, c]) == Some([ParseInt(a).value, ParseInt(b).value, ParseInt(c).value])
  {
    var va, vb, vc := ParseInt(a).value, ParseInt(b).value, ParseInt(c).value;
    assert [a][..0] == [];
    assert ParseAll([a]) == Some([] + [va]);
    assert [] + [va] == [va];
    assert [a, b][..1] == [a];
    assert ParseAll([a, b]) == Some([va] + [vb]);
    assert [va] + [vb] == [va, vb];
    assert [a, b, c][..2] == [a, b];
    assert ParseAll([a, b, c]) == Some([va, vb] + [vc]);
    assert [va, vb] + [vc] == [va, vb, vc];
  }

  function ParseMapRanges(lines: seq<string>): (r: Option<seq<MapRange>>)
    ensures r.Some? ==> |r.value| == |lines|
  {
    if lines == [] then Some([])
    else
      match ParseMapRanges(lines[..|lines| - 1])
      case None => None
      case Some(init) =>
        match ParseMapRange(lines[|lines| - 1])
        case None => None
        case Some(m) => Some(init + [m])
  }

  /** A map block: the header's first word split on `-to-` gives the last
      two pieces as source and target name; the other lines are ranges. */
  function ParseMapping(block: seq<string>): Option<Mapping>
  {
    if block == [] then None
    else
      var words := Words(block[0]);
      if words == [] then None
      else
        var names := SplitStr(words[0], "-to-");
        if |names| < 2 then None
        else
          match ParseMapRanges(block[1..])
          case None => None
          case Some(rs) => Some(Mapping(names[|names| - 2], names[|names| - 1], rs))
  }

  function ParseMappings(blocks: seq<seq<string>>): (r: Option<seq<Mapping>>)
    ensures r.Some? ==> |r.value| == |blocks|
  {
    if blocks == [] then Some([])
    else
      match ParseMappings(blocks[..|blocks| - 1])
      case None => None
      case Some(init) =>
        match ParseMapping(blocks[|blocks| - 1])
        case None => None
        case Some(m) => Some(init + [m])
  }

  /** The numbers after the first word; words that are not numbers are
      dropped. */
  function Numbers(words: seq<string>): seq<int>
  {
    if words == [] then []
    else
      var init := Numbers(words[..|words| - 1]);
      match ParseInt(words[|words| - 1])
      case None => init
      case Some(v) => init + [v]
  }

  datatype Almanac = Almanac(seeds: seq<int>, maps: seq<Mapping>)

  /** The blocks between empty lines: seeds on the first line of the first
      block, one map per later block. */
  function ParseInput(lines: seq<string>): Option<Almanac>
  {
    var blocks := SplitOn(lines, {[]});
    if blocks[0] == [] then None
    else
      var words := Words(blocks[0][0]);
      var seeds := if words == [] then [] else Numbers(words[1..]);
      match ParseMappings(blocks[1..])
      case None => None
      case Some(maps) => Some(Almanac(seeds, maps))
  }

  // ---------------------------------------------------------------------
  // Part 1
  // ---------------------------------------------------------------------

  predicate Contains(m: MapRange, seed: int)
  {
    m.src <= seed && m.src + m.len - 1 >= seed
  }

  /** The first range of a map that contains the seed. */
  function FirstContaining(ranges: seq<MapRange>, seed: int): (r: Option<nat>)
    ensures r.Some? ==> r.value < |ranges| && Contains(ranges[r.value], seed)
    ensures r.Some? ==> forall k :: 0 <= k < r.value ==> !Contains(ranges[k], seed)
    ensures r.None? ==> forall k :: 0 <= k < |ranges| ==> !Contains(ranges[k], seed)
  {
    if ranges == [] then None
    else if Contains(ranges[0], seed) then Some(0)
    else
      match FirstContaining(ranges[1..], seed)
      case None => None
      case Some(k) => Some(k + 1)
  }

  /** One map applied to a seed: shifted by dest - src of the first range
      containing it, unchanged when no range does. */
  function MapSeed(ranges: seq<MapRange>, seed: int): int
  {
    match FirstContaining(ranges, seed)
    case None => seed
    case Some(k) => seed - ranges[k].src + ranges[k].dest
  }

  /** A seed inside a range lands at the same offset inside the range's
      destination interval. */
  lemma MapSeedOffset(ranges: seq<MapRange>, seed: int)
    requires FirstContaining(ranges, seed).Some?
    ensures var m := ranges[FirstContaining(ranges, seed).value];
      m.dest <= MapSeed(ranges, seed) <= m.dest + m.len - 1
      && MapSeed(ranges, seed) - m.dest == seed - m.src
  {
  }

  /** The seed after every map in order. */
  function Location(maps: seq<Mapping>, seed: int): int
  {
    if maps == [] then seed else MapSeed(maps[|maps| - 1].ranges, Location(maps[..|maps| - 1], seed))
  }

  /** The part 1 loops for one seed: for each map, scan its ranges and
      `break` at the first that contains the seed. */
  method Locate(maps: seq<Mapping>, seed0: int) returns (seed: int)
    ensures seed == Location(maps, seed0)
  {
    seed := seed0;
    for i := 0 to |maps|
      invariant seed == Location(maps[..i], seed0)
    {
      assert maps[..i + 1][..i] == maps[..i];
      ghost var before := seed;
      var ranges := maps[i].ranges;
      for j := 0 to |ranges|
        invariant seed == before
        invariant forall k :: 0 <= k < j ==> !Contains(ranges[k], before)
      {
        if ranges[j].src <= seed && ranges[j].src + ranges[j].len - 1 >= seed {
          assert FirstContaining(ranges, before) == Some(j) by { FirstContainingUnique(ranges, before, j); }
          var diff := seed - ranges[j].src;
          seed := ranges[j].dest + diff;
          break;
        }
      }
    }
    assert maps[..|maps|] == maps;
  }

  lemma FirstContainingUnique(ranges: seq<MapRange>, seed: int, j: nat)
    requires j < |ranges| && Contains(ranges[j], seed)
    requires forall k :: 0 <= k < j ==> !Contains(ranges[k], seed)
    ensures FirstContaining(ranges, seed) == Some(j)
  {
  }

  /** Part 1: the smallest location of any seed; with no seeds the `min`
      is empty and `expect` panics. */
  method Part1(lines: seq<string>) returns (r: Option<int>)
    ensures r.Some? <==> ParseInput(lines).Some? && |ParseInput(lines).value.seeds| > 0
    ensures r.Some? ==> var a := ParseInput(lines).value;
      (exists k :: 0 <= k < |a.seeds| && r.value == Location(a.maps, a.seeds[k]))
      && forall k :: 0 <= k < |a.seeds| ==> r.value <= Location(a.maps, a.seeds[k])
  {
    var a := ParseInput(lines);
    if a.None? || |a.value.seeds| == 0 {
      return None;
    }
    var best := MinLocation(a.value.maps, a.value.seeds);
    return Some(best);
  }

  /** The `min` over the seeds' locations. */
  method MinLocation(maps: seq<Mapping>, seeds: seq<int>) returns (best: int)
    requires |seeds| > 0
    ensures exists k :: 0 <= k < |seeds| && best == Location(maps, seeds[k])
    ensures forall k :: 0 <= k < |seeds| ==> best <= Location(maps, seeds[k])
  {
    best := Locate(maps, seeds[0]);
    ghost var arg := 0;
    for i := 1 to |seeds|
      invariant 0 <= arg < |seeds| && best == Location(maps, seeds[arg])
      invariant forall k :: 0 <= k < i ==> best <= Location(maps, seeds[k])
    {
      var loc := Locate(maps, seeds[i]);
      if loc < best {
        best := loc;
        arg := i;
      }
    }
  }

  // ---------------------------------------------------------------------
  // Part 2: the interval worklist
  // ---------------------------------------------------------------------

  /** A closed interval of values waiting to go through map `depth`. */
  datatype Item = Item(left: int, right: int, depth: nat)

  /** Consecutive (start, length) pairs as closed intervals at depth 0; an
      unpaired last number is ignored. */
  function Initial(seeds: seq<int>): (r: seq<Item>)
    ensures |r| == |seeds| / 2
    ensures forall k :: 0 <= k < |r| ==> r[k] == Item(seeds[2 * k], seeds[2 * k] + seeds[2 * k + 1] - 1, 0)
    decreases |seeds|
  {
    if |seeds| < 2 then [] else [Item(seeds[0], seeds[0] + seeds[1] - 1, 0)] + Initial(seeds[2..])
  }

  function Max(a: int, b: int): int { if a < b then b else a }

  function Min(a: int, b: int): int { if a < b then a else b }

  /** An intersection of the item with a range: the values, and the shift
      dest - src they undergo. */
  datatype Hit = Hit(left: int, right: int, diff: int)

  /** The non-empty intersections of [l, r] with the first `n` ranges, in
      map order. */
  function HitsUpTo(l: int, r: int, ranges: seq<MapRange>, n: nat): (hs: seq<Hit>)
    requires n <= |ranges|
    ensures |hs| <= n
    ensures forall k :: 0 <= k < |hs| ==> hs[k].left <= hs[k].right
    ensures forall k :: 0 <= k < |hs| ==> l <= hs[k].left && hs[k].right <= r
  {
    if n == 0 then []
    else
      var m := ranges[n - 1];
      var lp := Max(l, m.src);
      var rp := Min(r, m.src + m.len - 1);
      HitsUpTo(l, r, ranges, n - 1) + (if lp <= rp then [Hit(lp, rp, m.dest - m.src)] else [])
  }

  /** The non-empty intersections of [l, r] with the ranges, in map order. */
  function Hits(l: int, r: int, ranges: seq<MapRange>): (hs: seq<Hit>)
    ensures |hs| <= |ranges|
    ensures forall k :: 0 <= k < |hs| ==> hs[k].left <= hs[k].right
    ensures forall k :: 0 <= k < |hs| ==> l <= hs[k].left && hs[k].right <= r
  {
    HitsUpTo(l, r, ranges, |ranges|)
  }

  /** A value of [l, r] lies in some range iff it lies in some hit. */
  lemma HitsCover(l: int, r: int, ranges: seq<MapRange>, v: int)
    requires l <= v <= r
    ensures (exists k :: 0 <= k < |ranges| && Contains(ranges[k], v))
        <==> (exists k :: 0 <= k < |Hits(l, r, ranges)| && Hits(l, r, ranges)[k].left <= v <= Hits(l, r, ranges)[k].right)
  {
    HitsUpToCover(l, r, ranges, |ranges|, v);
    var hs := Hits(l, r, ranges);
    assert hs == HitsUpTo(l, r, ranges, |ranges|);
    assert InSomeHit(hs, v) <==> exists k :: 0 <= k < |hs| && hs[k].left <= v <= hs[k].right;
  }

  /** Some hit holds v. */
  predicate InSomeHit(hs: seq<Hit>, v: int)
  {
    exists k :: 0 <= k < |hs| && hs[k].left <= v <= hs[k].right
  }

  /** Some of the first n ranges holds v. */
  predicate InSomeRange(ranges: seq<MapRange>, n: nat, v: int)
    requires n <= |ranges|
  {
    exists k :: 0 <= k < n && Contains(ranges[k], v)
  }

  lemma {:induction false} HitsUpToCover(l: int, r: int, ranges: seq<MapRange>, n: nat, v: int)
    requires l <= v <= r && n <= |ranges|
    ensures InSomeRange(ranges, n, v) <==> InSomeHit(HitsUpTo(l, r, ranges, n), v)
    decreases n
  {
    if n > 0 {
      HitsUpToCover(l, r, ranges, n - 1, v);
      var m := ranges[n - 1];
      var hi := HitsUpTo(l, r, ranges, n - 1);
      var lp, rp := Max(l, m.src), Min(r, m.src + m.len - 1);
      var last := if lp <= rp then [Hit(lp, rp, m.dest - m.src)] else [];
      var hs := HitsUpTo(l, r, ranges, n);
      assert hs == hi + last;
      InSomeHitAppend(hi, last, v);
      if Contains(m, v) {
        assert lp <= v <= rp;
        assert InSomeHit(last, v) by {
          assert last[0].left <= v <= last[0].right;
        }
        assert InSomeRange(ranges, n, v);
      } else {
        assert !InSomeHit(last, v);
        if InSomeRange(ranges, n, v) {
          var k :| 0 <= k < n && Contains(ranges[k], v);
          assert k < n - 1;
          assert InSomeRange(ranges, n - 1, v);
        }
      }
    }
  }

  lemma InSomeHitAppend(a: seq<Hit>, b: seq<Hit>, v: int)
    ensures InSomeHit(a + b, v) <==> InSomeHit(a, v) || InSomeHit(b, v)
  {
    if InSomeHit(a + b, v) {
      var k :| 0 <= k < |a + b| && (a + b)[k].left <= v <= (a + b)[k].right;
      if k >= |a| {
        assert b[k - |a|] == (a + b)[k];
      }
    }
    if InSomeHit(a, v) {
      var k :| 0 <= k < |a| && a[k].left <= v <= a[k].right;
      assert (a + b)[k] == a[k];
    }
    if InSomeHit(b, v) {
      var k :| 0 <= k < |b| && b[k].left <= v <= b[k].right;
      assert (a + b)[|a| + k] == b[k];
    }
  }

  /** The pairs (left, right) of the hits. */
  function Bounds(hs: seq<Hit>): (r: seq<(int, int)>)
    ensures |r| == |hs|
  {
    seq(|hs|, k requires 0 <= k < |hs| => (hs[k].left, hs[k].right))
  }

  /** Lexicographic order on pairs (`sort_unstable` on tuples). */
  predicate PairLe(a: (int, int), b: (int, int))
  {
    a.0 < b.0 || (a.0 == b.0 && a.1 <= b.1)
  }

  /** Each pair is at most the next one. */
  predicate SortedPairs(s: seq<(int, int)>)
  {
    forall i :: 0 <= i < |s| - 1 ==> PairLe(s[i], s[i + 1])
  }

  function InsertPair(x: (int, int), s: seq<(int, int)>): (r: seq<(int, int)>)
    requires SortedPairs(s)
    ensures SortedPairs(r) && multiset(r) == multiset(s) + multiset{x} && |r| == |s| + 1
    ensures r[0] == x || (s != [] && r[0] == s[0])
  {
    if s == [] then [x]
    else if PairLe(x, s[0]) then [x] + s
    else
      var rest := InsertPair(x, s[1..]);
      assert s == [s[0]] + s[1..];
      [s[0]] + rest
  }

  /** The library sort, as an insertion sort: sorted, and a permutation. */
  function SortPairs(s: seq<(int, int)>): (r: seq<(int, int)>)
    ensures SortedPairs(r) && multiset(r) == multiset(s) && |r| == |s|
  {
    if s == [] then []
    else
      assert s == s[..|s| - 1] + [s[|s| - 1]];
      InsertPair(s[|s| - 1], SortPairs(s[..|s| - 1]))
  }

  /** The gap pushes over `windows(2)` of the sorted intersections, as the
      code builds them: from one past the right end of the second to one
      before the left end of the first (an inverted interval). */
  function Gaps(sorted: seq<(int, int)>, n: nat, depth: nat): (r: seq<Item>)
    requires n < |sorted|
    ensures |r| <= n
    ensures forall k :: 0 <= k < |r| ==> r[k].depth == depth
  {
    if n == 0 then []
    else
      var a, b := sorted[n - 1], sorted[n];
      Gaps(sorted, n - 1, depth) + (if b.0 - a.1 > 1 then [Item(b.1 + 1, a.0 - 1, depth)] else [])
  }

  /** The intersections shifted by their dest - src into `depth`. */
  function Shifted(hs: seq<Hit>, depth: nat): (r: seq<Item>)
    ensures |r| == |hs|
  {
    seq(|hs|, k requires 0 <= k < |hs| => Item(hs[k].left + hs[k].diff, hs[k].right + hs[k].diff, depth))
  }

  /** The pushes after the shifted intersections: the left tail up to the
      first sorted intersection's left end, the right tail from one past the
      last one's right end, and the gaps. */
  function Tails(it: Item, sorted: seq<(int, int)>, depth: nat): (r: seq<Item>)
    requires |sorted| >= 1
    ensures |r| <= |sorted| + 1
    ensures forall k :: 0 <= k < |r| ==> r[k].depth == depth
  {
    var leftTail := if it.left < sorted[0].0 then [Item(it.left, sorted[0].0, depth)] else [];
    var rightTail := if it.right > sorted[|sorted| - 1].1 then [Item(sorted[|sorted| - 1].1 + 1, it.right, depth)] else [];
    leftTail + rightTail + Gaps(sorted, |sorted| - 1, depth)
  }

  /** Everything the worklist pushes for an item at depth d below the number
      of maps, in push order: each intersection shifted into depth d + 1,
      then the left tail, the right tail and the gaps; an item meeting no
      range is pushed unchanged into depth d + 1. */
  function Children(it: Item, ranges: seq<MapRange>): (cs: seq<Item>)
    ensures 1 <= |cs| <= 2 * |ranges| + 1
    ensures forall k :: 0 <= k < |cs| ==> cs[k].depth == it.depth + 1
  {
    var hs := Hits(it.left, it.right, ranges);
    if hs == [] then [Item(it.left, it.right, it.depth + 1)]
    else Shifted(hs, it.depth + 1) + Tails(it, SortPairs(Bounds(hs)), it.depth + 1)
  }

  /** Each intersection is pushed as the non-empty [max(lefts), min(rights)]
      shifted by dest - src; the right tail starts one past the right end of
      the last sorted intersection. */
  lemma ChildrenShape(it: Item, ranges: seq<MapRange>)
    ensures var hs := Hits(it.left, it.right, ranges);
      var cs := Children(it, ranges);
      (hs == [] ==> cs == [Item(it.left, it.right, it.depth + 1)])
      && (forall k :: 0 <= k < |hs| ==> cs[k] == Item(hs[k].left + hs[k].diff, hs[k].right + hs[k].diff, it.depth + 1)
                                        && cs[k].left <= cs[k].right)
  {
    var hs := Hits(it.left, it.right, ranges);
    if hs != [] {
      ChildrenShifted(it, ranges, hs);
    }
  }

  lemma ChildrenShifted(it: Item, ranges: seq<MapRange>, hs: seq<Hit>)
    requires hs == Hits(it.left, it.right, ranges) && hs != []
    ensures var cs := Children(it, ranges);
      forall k :: 0 <= k < |hs| ==>
        cs[k] == Item(hs[k].left + hs[k].diff, hs[k].right + hs[k].diff, it.depth + 1) && cs[k].left <= cs[k].right
  {
    var sh := Shifted(hs, it.depth + 1);
    var cs := Children(it, ranges);
    assert cs[..|hs|] == sh;
    forall k | 0 <= k < |hs|
      ensures cs[k] == Item(hs[k].left + hs[k].diff, hs[k].right + hs[k].diff, it.depth + 1)
      ensures cs[k].left <= cs[k].right
    {
      assert cs[k] == cs[..|hs|][k] == sh[k];
    }
  }

  /** A range that meets no range of the map passes unchanged. */
  lemma ChildrenUnmapped(it: Item, ranges: seq<MapRange>)
    requires it.left <= it.right
    requires forall k, v :: 0 <= k < |ranges| && it.left <= v <= it.right ==> !Contains(ranges[k], v)
    ensures Children(it, ranges) == [Item(it.left, it.right, it.depth + 1)]
  {
    var hs := Hits(it.left, it.right, ranges);
    if hs != [] {
      HitsCover(it.left, it.right, ranges, hs[0].left);
    }
  }

  /** The left tail ends at the first intersection's left end, so it shares
      that value with the first intersection. */
  lemma LeftTailOverlaps(it: Item, ranges: seq<MapRange>)
    requires Hits(it.left, it.right, ranges) != []
    ensures var sorted := SortPairs(Bounds(Hits(it.left, it.right, ranges)));
      it.left < sorted[0].0 ==>
        Children(it, ranges)[|Hits(it.left, it.right, ranges)|] == Item(it.left, sorted[0].0, it.depth + 1)
  {
    var hs := Hits(it.left, it.right, ranges);
    var sorted := SortPairs(Bounds(hs));
    var sh := Shifted(hs, it.depth + 1);
    var tails := Tails(it, sorted, it.depth + 1);
    if it.left < sorted[0].0 {
      assert tails[0] == Item(it.left, sorted[0].0, it.depth + 1);
      assert Children(it, ranges)[|hs|] == tails[0];
    }
  }

  function Least(xs: seq<int>): (m: int)
    ensures m <= I64_MAX
    ensures forall k :: 0 <= k < |xs| ==> m <= xs[k]
    ensures m == I64_MAX || m in xs
  {
    if xs == [] then I64_MAX else Min(Least(xs[..|xs| - 1]), xs[|xs| - 1])
  }

  lemma {:induction false} LeastAppend(a: seq<int>, b: seq<int>)
    ensures Least(a + b) == Min(Least(a), Least(b))
    decreases |b|
  {
    if b == [] {
      assert a + b == a;
    } else {
      assert (a + b)[..|a + b| - 1] == a + b[..|b| - 1];
      LeastAppend(a, b[..|b| - 1]);
    }
  }

  function Height(depth: nat, maps: nat): nat
  {
    if depth < maps then maps - depth else 0
  }

  /** The smallest left end among the items that reach the last map from
      this one (`i64::MAX` when none does): what the worklist ends with. */
  function LeafMin(it: Item, maps: seq<Mapping>): int
    decreases Height(it.depth, |maps|)
  {
    if it.depth >= |maps| then it.left
    else
      var cs := Children(it, maps[it.depth].ranges);
      Least(seq(|cs|, k requires 0 <= k < |cs| => LeafMin(cs[k], maps)))
  }

  function LeafMins(q: seq<Item>, maps: seq<Mapping>): (r: seq<int>)
    ensures |r| == |q|
  {
    seq(|q|, k requires 0 <= k < |q| => LeafMin(q[k], maps))
  }

  /** Part 2 as a function of the input. */
  function Part2Spec(lines: seq<string>): Option<int>
  {
    match ParseInput(lines)
    case None => None
    case Some(a) => Some(Least(LeafMins(Initial(a.seeds), a.maps)))
  }

  // Termination: every pop removes an item of weight B^h and pushes fewer
  // than B items of weight B^(h-1), where h is the number of maps still
  // ahead and B exceeds the most pushes one pop can make.

  function MaxRanges(maps: seq<Mapping>): (r: nat)
    ensures forall k :: 0 <= k < |maps| ==> |maps[k].ranges| <= r
  {
    if maps == [] then 0
    else
      var m := MaxRanges(maps[..|maps| - 1]);
      var n := |maps[|maps| - 1].ranges|;
      if n > m then n else m
  }

  function Pow(b: nat, e: nat): nat
  {
    if e == 0 then 1 else b * Pow(b, e - 1)
  }

  function Measure(q: seq<Item>, b: nat, maps: nat): nat
  {
    if q == [] then 0 else Pow(b, Height(q[0].depth, maps)) + Measure(q[1..], b, maps)
  }

  lemma {:induction false} MeasureAppend(p: seq<Item>, q: seq<Item>, b: nat, maps: nat)
    ensures Measure(p + q, b, maps) == Measure(p, b, maps) + Measure(q, b, maps)
    decreases |p|
  {
    if p == [] {
      assert p + q == q;
    } else {
      assert (p + q)[1..] == p[1..] + q;
      MeasureAppend(p[1..], q, b, maps);
    }
  }

  lemma {:induction false} MeasureSameDepth(cs: seq<Item>, b: nat, maps: nat, depth: nat)
    requires forall k :: 0 <= k < |cs| ==> cs[k].depth == depth
    ensures Measure(cs, b, maps) == |cs| * Pow(b, Height(depth, maps))
    decreases |cs|
  {
    if cs != [] {
      MeasureSameDepth(cs[1..], b, maps, depth);
    }
  }

  lemma {:induction false} PowPositive(b: nat, e: nat)
    requires b >= 1
    ensures Pow(b, e) >= 1
    decreases e
  {
    if e > 0 {
      PowPositive(b, e - 1);
      MulMono(1, b, Pow(b, e - 1));
    }
  }

  lemma MulMono(a: nat, b: nat, w: nat)
    requires a <= b
    ensures a * w <= b * w
  {
  }

  lemma PopDecreases(it: Item, rest: seq<Item>, cs: seq<Item>, b: nat, maps: nat)
    requires it.depth < maps
    requires |cs| < b
    requires forall k :: 0 <= k < |cs| ==> cs[k].depth == it.depth + 1
    ensures Measure(rest + cs, b, maps) < Measure([it] + rest, b, maps)
  {
    MeasureAppend(rest, cs, b, maps);
    MeasureSameDepth(cs, b, maps, it.depth + 1);
    assert ([it] + rest)[1..] == rest;
    var h := Height(it.depth + 1, maps);
    assert Height(it.depth, maps) == h + 1;
    var w := Pow(b, h);
    assert Pow(b, h + 1) == b * w;
    PowPositive(b, h);
    MulMono(|cs| + 1, b, w);
    assert (|cs| + 1) * w == |cs| * w + w;
  }

  /** The loop over consecutive (start, length) pairs of seeds. */
  method Pairs(seeds: seq<int>) returns (queue: seq<Item>)
    ensures queue == Initial(seeds)
  {
    queue := [];
    var i := 0;
    while i + 1 < |seeds|
      invariant 0 <= i <= |seeds| && i % 2 == 0
      invariant queue == Initial(seeds)[..i / 2]
      decreases |seeds| - i
    {
      queue := queue + [Item(seeds[i], seeds[i] + seeds[i + 1] - 1, 0)];
      i := i + 2;
    }
  }

  lemma PopLeaf(item: Item, rest: seq<Item>, maps: seq<Mapping>, base: nat)
    requires item.depth >= |maps|
    ensures Least(LeafMins([item] + rest, maps)) == Min(item.left, Least(LeafMins(rest, maps)))
    ensures Measure([item] + rest, base, |maps|) == 1 + Measure(rest, base, |maps|)
  {
    assert LeafMins([item] + rest, maps) == [LeafMin(item, maps)] + LeafMins(rest, maps);
    LeastAppend([LeafMin(item, maps)], LeafMins(rest, maps));
    assert ([item] + rest)[1..] == rest;
  }

  lemma LeafMinUnfold(item: Item, maps: seq<Mapping>)
    requires item.depth < |maps|
    ensures LeafMin(item, maps) == Least(LeafMins(Children(item, maps[item.depth].ranges), maps))
  {
    var cs := Children(item, maps[item.depth].ranges);
    assert LeafMins(cs, maps) == seq(|cs|, k requires 0 <= k < |cs| => LeafMin(cs[k], maps));
  }

  lemma LeafMinsAppend(a: seq<Item>, b: seq<Item>, maps: seq<Mapping>)
    ensures LeafMins(a + b, maps) == LeafMins(a, maps) + LeafMins(b, maps)
  {
  }

  lemma LeastCons(x: int, xs: seq<int>)
    ensures Least([x] + xs) == Min(x, Least(xs))
  {
    LeastAppend([x], xs);
    assert [x][..0] == [];
  }

  lemma PopExpand(item: Item, rest: seq<Item>, cs: seq<Item>, maps: seq<Mapping>)
    requires item.depth < |maps|
    requires cs == Children(item, maps[item.depth].ranges)
    ensures Least(LeafMins([item] + rest, maps)) == Least(LeafMins(rest + cs, maps))
  {
    LeafMinsAppend([item], rest, maps);
    LeafMinsAppend(rest, cs, maps);
    assert LeafMins([item], maps) == [LeafMin(item, maps)];
    LeastCons(LeafMin(item, maps), LeafMins(rest, maps));
    LeastAppend(LeafMins(rest, maps), LeafMins(cs, maps));
    LeafMinUnfold(item, maps);
  }

  /** Part 2: the FIFO worklist. Items at depth = number of maps only lower
      the answer to their left end; the others are split against their map
      and their pieces pushed at the next depth. */
  method Part2(lines: seq<string>) returns (r: Option<int>)
    ensures r == Part2Spec(lines)
  {
    var a := ParseInput(lines);
    if a.None? {
      return None;
    }
    var seeds := a.value.seeds;
    var maps := a.value.maps;
    var queue := Pairs(seeds);
    ghost var target := Least(LeafMins(queue, maps));
    ghost var base := 2 * MaxRanges(maps) + 2;
    var ans := I64_MAX;
    while queue != []
      invariant ans <= I64_MAX
      invariant Min(ans, Least(LeafMins(queue, maps))) == target
      decreases Measure(queue, base, |maps|)
    {
      var item := queue[0];
      var rest := queue[1..];
      assert queue == [item] + rest;
      queue := rest;
      if item.depth >= |maps| {
        PopLeaf(item, rest, maps, base);
        ans := Min(ans, item.left);
      } else {
        var cs := Expand(item, maps[item.depth].ranges);
        queue := queue + cs;
        PopExpand(item, rest, cs, maps);
        PopDecreases(item, rest, cs, base, |maps|);
      }
    }
    return Some(ans);
  }

  /** The loop body for an item below the last map: the pass over the
      ranges, then the tails and gaps of the sorted intersections. */
  method Expand(item: Item, ranges: seq<MapRange>) returns (pushed: seq<Item>)
    ensures pushed == Children(item, ranges)
  {
    var d := item.depth + 1;
    var intersections;
    pushed, intersections := Intersect(item, ranges);
    if intersections == [] {
      pushed := pushed + [Item(item.left, item.right, d)];
      return;
    }
    var sorted := SortPairs(intersections);
    var tails := PushTails(item, sorted, d);
    pushed := pushed + tails;
  }

  /** The pass over the ranges: each non-empty intersection is pushed
      shifted and remembered unshifted. */
  method Intersect(item: Item, ranges: seq<MapRange>) returns (pushed: seq<Item>, intersections: seq<(int, int)>)
    ensures pushed == Shifted(Hits(item.left, item.right, ranges), item.depth + 1)
    ensures intersections == Bounds(Hits(item.left, item.right, ranges))
    ensures intersections == [] <==> Hits(item.left, item.right, ranges) == []
  {
    var d := item.depth + 1;
    pushed := [];
    intersections := [];
    ghost var hits: seq<Hit> := [];
    for j := 0 to |ranges|
      invariant hits == HitsUpTo(item.left, item.right, ranges, j)
      invariant intersections == Bounds(hits)
      invariant pushed == Shifted(hits, d)
    {
      var m := ranges[j];
      var leftPoint := Max(item.left, m.src);
      var rightPoint := Min(item.right, m.src + m.len - 1);
      if leftPoint <= rightPoint {
        var diff := m.dest - m.src;
        pushed := pushed + [Item(leftPoint + diff, rightPoint + diff, d)];
        intersections := intersections + [(leftPoint, rightPoint)];
        hits := hits + [Hit(leftPoint, rightPoint, diff)];
      }
    }
  }

  /** The two tails and the pass over neighbouring sorted intersections. */
  method PushTails(item: Item, sorted: seq<(int, int)>, d: nat) returns (pushed: seq<Item>)
    requires |sorted| >= 1
    ensures pushed == Tails(item, sorted, d)
  {
    pushed := [];
    var mostLeft := sorted[0].0;
    if item.left < mostLeft {
      pushed := pushed + [Item(item.left, mostLeft, d)];
    }
    var mostRight := sorted[|sorted| - 1].1;
    if item.right > mostRight {
      pushed := pushed + [Item(mostRight + 1, item.right, d)];
    }
    ghost var before := pushed;
    for w := 0 to |sorted| - 1
      invariant pushed == before + Gaps(sorted, w, d)
    {
      var leftI := sorted[w];
      var rightI := sorted[w + 1];
      if rightI.0 - leftI.1 > 1 {
        pushed := pushed + [Item(rightI.1 + 1, leftI.0 - 1, d)];
      }
    }
  }
}
