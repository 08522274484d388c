/** Day 18 (Lavaduct Lagoon): a closed dig plan of straight moves; the lagoon
    size is |shoelace area| / 2 + perimeter / 2 + 1 (Pick's theorem). Both
    parts read the plan differently and share `solve`. */
module Day18 {
  import opened Common
  import opened Text

  /** A direction as a (row, column) unit vector. */
  type Dir = (int, int)

  const Up: Dir := (-1, 0)
  const Right: Dir := (0, 1)
  const Down: Dir := (1, 0)
  const Left: Dir := (0, -1)

  /** The direction table the colour codes index: 0 = R, 1 = D, 2 = L, 3 = U. */
  const Dirs: seq<Dir> := [Right, Down, Left, Up]

  /** One dig instruction: a direction and a (signed) number of steps. */
  type Step = (Dir, int)

  // ---------------------------------------------------------------------
  // Parsing
  // ---------------------------------------------------------------------

  function LetterDir(c: char): Option<Dir>
  {
    match c
    case 'U' => Some(Up)
    case 'D' => Some(Down)
    case 'R' => Some(Right)
    case 'L' => Some(Left)
    case _ => None
  }

  /** `parse_input1` on one line: the first character of the first word is
      the direction and the second word the length. A missing word, an
      unknown letter or a bad number panics. */
  function ParseStep1(line: string): (r: Option<Step>)
    ensures r.Some? ==> (|Words(line)| >= 2
      && LetterDir(Words(line)[0][0]) == Some(r.value.0)
      && ParseInt(Words(line)[1]) == Some(r.value.1))
  {
    var words := Words(line);
    if |words| < 2 then None
    else
      match LetterDir(words[0][0])
      case None => None
      case Some(d) =>
        match ParseInt(words[1])
        case None => None
        case Some(v) => Some((d, v))
  }

  /** The whitespace characters of "a b c" when a, b, c have none. */
  lemma SpacesOf(a: string, b: string, c: string)
    requires forall k :: 0 <= k < |a| ==> !IsWhitespace(a[k])
    requires forall k :: 0 <= k < |b| ==> !IsWhitespace(b[k])
    requires forall k :: 0 <= k < |c| ==> !IsWhitespace(c[k])
    ensures (set x: char | x in a + " " + b + " " + c && IsWhitespace(x)) == {' '}
  {
    var line := a + " " + b + " " + c;
    forall x | x in line && IsWhitespace(x) ensures x == ' ' {
      assert x in a || x == ' ' || x in b || x in c;
    }
    assert line[|a|] == ' ';
  }

  /** "a b c" splits into the words a and b first, for non-empty a and b
      without whitespace. */
  lemma WordsSpaced(a: string, b: string, c: string)
    requires a != [] && b != []
    requires forall k :: 0 <= k < |a| ==> !IsWhitespace(a[k])
    requires forall k :: 0 <= k < |b| ==> !IsWhitespace(b[k])
    requires forall k :: 0 <= k < |c| ==> !IsWhitespace(c[k])
    ensures |Words(a + " " + b + " " + c)| >= 2
    ensures Words(a + " " + b + " " + c)[0] == a && Words(a + " " + b + " " + c)[1] == b
  {
    var line := a + " " + b + " " + c;
    var ws := set x: char | x in line && IsWhitespace(x);
    SpacesOf(a, b, c);
    assert line == a + [' '] + (b + [' '] + c);
    SplitOnFirst(a, ' ', b + [' '] + c, ws);
    SplitOnFirst(b, ' ', c, ws);
    SplitOnNone(c, ws);
    var pieces := [a, b, c];
    assert SplitOn(line, ws) == pieces;
    assert pieces[1..] == [b, c] && [b, c][1..] == [c];
    assert NonEmpty(pieces) == [a] + NonEmpty([b, c]);
    assert NonEmpty([b, c]) == [b] + NonEmpty([c]);
  }

  /** A plan line "L n (#hhhhhd)" with a known letter reads back as the
      letter's direction and n. */
  lemma ParseStep1Letters(c: char, n: int, colour: string)
    requires LetterDir(c).Some?
    requires forall k :: 0 <= k < |colour| ==> !IsWhitespace(colour[k])
    ensures ParseStep1([c] + " " + IntToDecimal(n) + " " + colour) == Some((LetterDir(c).value, n))
  {
    var digits := IntToDecimal(n);
    assert forall k :: 0 <= k < |digits| ==> !IsWhitespace(digits[k]);
    WordsSpaced([c], digits, colour);
    IntToDecimalRoundTrip(n);
  }

  /** The colour field "(#hhhhhd)", cut at byte offsets as `&str` is: bytes
      2 up to the last byte form the inner text, its first five bytes give
      the length (`i128`, so a sign is accepted) and the rest is a `usize`
      indexing the direction table. A field under three bytes underflows or
      inverts the slice, a cut inside a character panics, and so do a digit
      that does not parse and an index past 3. */
  function ParseColour(colour: string): (r: Option<Step>)
    ensures r.Some? ==> r.value.0 in Dirs
  {
    match ColourInner(colour)
    case None => None
    case Some(inner) => ParseInner(inner)
  }

  /** `&colour[2..(colour.len() - 1)]`, on byte offsets. */
  function ColourInner(colour: string): Option<string>
  {
    var n := Utf8Len(colour);
    if n < 3 then None else ByteSlice(colour, 2, n - 1)
  }

  /** `&inner[..5]` as an `i128` and `&inner[5..]` as a `usize` index. */
  function ParseInner(inner: string): (r: Option<Step>)
    ensures r.Some? ==> r.value.0 in Dirs
  {
    match (ByteSlice(inner, 0, 5), ByteSlice(inner, 5, Utf8Len(inner)))
    case (Some(head), Some(tail)) =>
      (match ParseHexInt(head)
       case None => None
       case Some(v) =>
         match ParseHexNat(tail)
         case None => None
         case Some(d) => if d < |Dirs| then Some((Dirs[d], v)) else None)
    case _ => None
  }

  /** `parse_input2` on one line: the third word is the colour field. */
  function ParseStep2(line: string): (r: Option<Step>)
    ensures r.Some? ==> r.value.0 in Dirs && |Words(line)| >= 3
  {
    var words := Words(line);
    if |words| < 3 then None else ParseColour(words[2])
  }

  /** A colour field whose two leading characters take two bytes (as "(#"
      does, or one two-byte character) and whose last character is ASCII
      decodes to the direction selected by its sixth hex digit and the
      length written by the first five; a sixth digit above 3 is out of
      the table's bounds. */
  lemma ColourFields(p: string, h: string, c: char, z: char)
    requires Utf8Len(p) == 2 && IsAscii(z)
    requires |h| == 5 && (forall k :: 0 <= k < 5 ==> IsHexDigit(h[k])) && IsHexDigit(c)
    ensures ParseColour(p + h + [c, z])
         == if HexDigitValue(c) <= 3 then Some((Dirs[HexDigitValue(c)], HexValue(h))) else None
  {
    var t := h + [c, z];
    assert p + h + [c, z] == p + t;
    assert AllAscii(t) by {
      forall k | 0 <= k < |t| ensures IsAscii(t[k]) {
        if k < 5 { assert t[k] == h[k]; } else if k == 5 { assert t[k] == c; }
      }
    }
    InnerAfterTwoBytes(p, t);
    assert t[..6] == h + [c];
    InnerHex(h, c);
  }

  /** Behind a two-byte prefix, an ASCII rest loses only its last
      character. */
  lemma InnerAfterTwoBytes(p: string, t: string)
    requires Utf8Len(p) == 2 && AllAscii(t) && |t| >= 1
    ensures ColourInner(p + t) == Some(t[..|t| - 1])
  {
    AsciiLen(t);
    Utf8LenAppend(p, t);
    var colour := p + t;
    assert Utf8Len(colour) == 2 + |t|;
    BoundaryAfter(p, t, 0);
    assert colour[|p|..] == t;
    AsciiBoundary(t, |t| - 1);
    assert ByteSlice(colour, 2, 2 + |t| - 1) == Some(t[..|t| - 1]);
  }

  /** Five hex digits and a direction digit. */
  lemma InnerHex(h: string, c: char)
    requires |h| == 5 && (forall k :: 0 <= k < 5 ==> IsHexDigit(h[k])) && IsHexDigit(c)
    ensures ParseInner(h + [c])
         == if HexDigitValue(c) <= 3 then Some((Dirs[HexDigitValue(c)], HexValue(h))) else None
  {
    var inner := h + [c];
    assert AllAscii(inner) by {
      forall k | 0 <= k < 6 ensures IsAscii(inner[k]) {
        if k < 5 { assert inner[k] == h[k]; }
      }
    }
    AsciiLen(inner);
    AsciiSlice(inner, 0, 5);
    AsciiSlice(inner, 5, 6);
    assert inner[0..5] == h;
    assert inner[5..6] == [c];
    assert !IsDigit('-') && !IsDigit('+');
    assert h[0] != '-' && h[0] != '+';
    assert ParseHexInt(h) == Some(HexValue(h));
    assert [c][..0] == [];
    assert HexValue([c]) == HexDigitValue(c);
    assert ParseHexNat([c]) == Some(HexDigitValue(c));
  }

  /** A byte offset strictly inside a text's last character is not a
      boundary. */
  lemma InsideLast(s: string, z: char, m: nat)
    requires 0 < m < Utf8Width(z)
    ensures CharBoundary(s + [z], Utf8Len(s) + m) == None
  {
    BoundaryAfter(s, [z], m);
    assert CharBoundary([z], m) == None;
  }

  lemma WideLastCut(q: string, z: char, rest: string, m: nat)
    requires !IsAscii(z) && rest == q + [z] && m == Utf8Len(q) + Utf8Width(z) - 1
    ensures CharBoundary(rest, m) == None
  {
    InsideLast(q, z, Utf8Width(z) - 1);
  }

  /** A colour field whose last character takes more than one byte panics:
      the slice ends one byte before the end, inside that character. */
  lemma ColourWideLast(p: string, z: char)
    requires !IsAscii(z) && Utf8Len(p) >= 2
    ensures ParseColour(p + [z]) == None
  {
    var colour := p + [z];
    WideLastInner(p, z);
    assert ColourInner(colour) == None;
  }

  lemma WideLastInner(p: string, z: char)
    requires !IsAscii(z) && Utf8Len(p) >= 2
    ensures ByteSlice(p + [z], 2, Utf8Len(p + [z]) - 1) == None
  {
    var colour := p + [z];
    Utf8LenAppend(p, [z]);
    var n := Utf8Len(colour);
    assert n >= 3;
    match CharBoundary(colour, 2)
    case None =>
      assert ByteSlice(colour, 2, n - 1) == None;
    case Some(i) =>
      CutBeforeWideLast(p, z, i);
      assert CharBoundary(colour[i..], n - 1 - 2) == None;
      assert ByteSlice(colour, 2, n - 1) == None;
  }

  /** From the character that starts at byte 2, the byte one before the
      end lies inside the wide last character. */
  lemma CutBeforeWideLast(p: string, z: char, i: nat)
    requires !IsAscii(z) && Utf8Len(p) >= 2
    requires CharBoundary(p + [z], 2) == Some(i)
    ensures Utf8Len(p + [z]) >= 3
    ensures CharBoundary((p + [z])[i..], Utf8Len(p + [z]) - 1 - 2) == None
  {
    var colour := p + [z];
    var w := Utf8Width(z);
    Utf8LenAppend(p, [z]);
    assert Utf8Len([z]) == w;
    var n := Utf8Len(colour);
    assert colour[..|colour|] == colour;
    assert i <= |p|;
    BoundaryBytes(colour, 2);
    var q := p[i..];
    assert colour[..i] == p[..i];
    assert p == p[..i] + q;
    Utf8LenAppend(p[..i], q);
    assert Utf8Len(p[..i]) == 2;
    WideLastCut(q, z, colour[i..], n - 1 - 2);
  }

  /** An accented last character panics, where cutting by character would
      have read "(#70c710" as a step. */
  lemma ColourExampleWideLast()
    ensures ParseColour("(#70c710\U{e9}") == None
  {
    assert "(#70c710\U{e9}" == "(#70c710" + ['\U{e9}'];
    assert Utf8Len("(#70c710") >= 2;
    ColourWideLast("(#70c710", '\U{e9}');
  }

  /** A leading two-byte character stands for the two dropped bytes. */
  lemma ColourExampleWideFirst()
    ensures ParseColour("\U{e9}70c710)") == Some((Right, 0x70c71))
  {
    assert Utf8Len("\U{e9}") == 2;
    assert "\U{e9}70c710)" == "\U{e9}" + "70c71" + ['0', ')'];
    ColourFields("\U{e9}", "70c71", '0', ')');
    HexExample();
  }

  lemma HexExample()
    ensures HexValue("70c71") == 0x70c71
  {
    assert "70c71"[..4] == "70c7" && "70c7"[..3] == "70c" && "70c"[..2] == "70" && "70"[..1] == "7";
    assert HexValue("7") == 7 by { assert "7"[..0] == []; }
  }

  /** Every line parsed, or None if one of them panics. */
  function ParseAll(lines: seq<string>, part2: bool): (r: Option<seq<Step>>)
    ensures r.Some? ==> |r.value| == |lines|
    ensures r.Some? ==> forall k :: 0 <= k < |lines| ==>
      Some(r.value[k]) == (if part2 then ParseStep2(lines[k]) else ParseStep1(lines[k]))
    ensures r.None? <==> exists k :: 0 <= k < |lines| && (if part2 then ParseStep2(lines[k]) else ParseStep1(lines[k])).None?
  {
    if lines == [] then Some([])
    else
      var last := if part2 then ParseStep2(lines[|lines| - 1]) else ParseStep1(lines[|lines| - 1]);
      match ParseAll(lines[..|lines| - 1], part2)
      case None => None
      case Some(init) =>
        match last
        case None => None
        case Some(s) => Some(init + [s])
  }

  // ---------------------------------------------------------------------
  // The fold in `solve`
  // ---------------------------------------------------------------------

  /** The position after a step of `len` cells in direction `d`. */
  function Move(pos: (int, int), s: Step): (int, int)
  {
    (pos.0 + s.1 * s.0.0, pos.1 + s.1 * s.0.1)
  }

  /** The fold's accumulator: current corner, perimeter, doubled area. */
  datatype Acc = Acc(pos: (int, int), perimeter: int, twice: int)

  /** The left fold over the plan, starting at ((0, 0), 0, 0). */
  function Walk(steps: seq<Step>): Acc
  {
    if steps == [] then Acc((0, 0), 0, 0) else Fold(Walk(steps[..|steps| - 1]), steps[|steps| - 1])
  }

  /** One step of the fold: move the corner, add the length to the
      perimeter and the trapezoid under the edge to the doubled area. */
  function Fold(a: Acc, s: Step): Acc
  {
    var next := Move(a.pos, s);
    Acc(next, a.perimeter + s.1, a.twice + (next.0 - a.pos.0) * (next.1 + a.pos.1))
  }

  /** Rust's `/` on `i128`: rounds toward zero. */
  function DivTrunc(x: int, d: int): int
    requires d > 0
  {
    if x >= 0 then x / d else -((-x) / d)
  }

  /** `solve`: |doubled area| / 2 + perimeter / 2 + 1. */
  function Solve(steps: seq<Step>): int
  {
    var a := Walk(steps);
    Abs(a.twice) / 2 + DivTrunc(a.perimeter, 2) + 1
  }

  // ---------------------------------------------------------------------
  // What the fold computes
  // ---------------------------------------------------------------------

  function Lengths(steps: seq<Step>): (r: seq<int>)
    ensures |r| == |steps|
  {
    seq(|steps|, k requires 0 <= k < |steps| => steps[k].1)
  }

  /** The perimeter is the sum of the step lengths. */
  lemma {:induction false} WalkPerimeter(steps: seq<Step>)
    ensures Walk(steps).perimeter == Sum(Lengths(steps))
    decreases |steps|
  {
    if steps != [] {
      WalkPerimeter(steps[..|steps| - 1]);
      assert Lengths(steps)[..|steps| - 1] == Lengths(steps[..|steps| - 1]);
    }
  }

  /** The row and column displacements of each step. */
  function RowMoves(steps: seq<Step>): (r: seq<int>)
    ensures |r| == |steps|
  {
    seq(|steps|, k requires 0 <= k < |steps| => steps[k].1 * steps[k].0.0)
  }

  function ColMoves(steps: seq<Step>): (r: seq<int>)
    ensures |r| == |steps|
  {
    seq(|steps|, k requires 0 <= k < |steps| => steps[k].1 * steps[k].0.1)
  }

  /** The final corner is the sum of steps x direction, so a plan closes
      (ends back at the origin) iff both sums vanish. */
  lemma {:induction false} WalkEnd(steps: seq<Step>)
    ensures Walk(steps).pos == (Sum(RowMoves(steps)), Sum(ColMoves(steps)))
    decreases |steps|
  {
    if steps != [] {
      WalkEnd(steps[..|steps| - 1]);
      assert RowMoves(steps)[..|steps| - 1] == RowMoves(steps[..|steps| - 1]);
      assert ColMoves(steps)[..|steps| - 1] == ColMoves(steps[..|steps| - 1]);
    }
  }

  /** The corners visited, starting at the origin. */
  function Corners(steps: seq<Step>): (r: seq<(int, int)>)
    ensures |r| == |steps| + 1 && r[0] == (0, 0)
  {
    if steps == [] then [(0, 0)]
    else
      var init := Corners(steps[..|steps| - 1]);
      init + [Move(init[|init| - 1], steps[|steps| - 1])]
  }

  /** The shoelace sum of a polygonal chain: twice the signed area
      enclosed when the chain is closed. */
  function Shoelace(ps: seq<(int, int)>): int
  {
    if |ps| < 2 then 0
    else
      var p, q := ps[|ps| - 2], ps[|ps| - 1];
      Shoelace(ps[..|ps| - 1]) + (p.0 * q.1 - q.0 * p.1)
  }

  lemma TrapezoidTerm(p: (int, int), q: (int, int))
    ensures (q.0 - p.0) * (q.1 + p.1) == (q.0 * q.1 - p.0 * p.1) - (p.0 * q.1 - q.0 * p.1)
  {
  }

  /** The fold walks the corners, and its doubled area is the trapezoid
      sum: the cross-product shoelace sum, negated, plus a term that
      telescopes to the final corner's row x column. */
  lemma {:induction false} WalkShoelace(steps: seq<Step>)
    ensures Walk(steps).pos == Corners(steps)[|steps|]
    ensures Walk(steps).twice == Walk(steps).pos.0 * Walk(steps).pos.1 - Shoelace(Corners(steps))
    decreases |steps|
  {
    if steps != [] {
      var init := steps[..|steps| - 1];
      WalkShoelace(init);
      var cs := Corners(steps);
      assert cs[..|cs| - 1] == Corners(init);
      TrapezoidTerm(Walk(init).pos, Walk(steps).pos);
    }
  }

  /** For a closed plan, `solve` is Pick's formula over the shoelace area:
      |area| + perimeter / 2 + 1 with |area| = |shoelace| / 2. */
  lemma SolveClosed(steps: seq<Step>)
    requires Sum(RowMoves(steps)) == 0 && Sum(ColMoves(steps)) == 0
    ensures Solve(steps) == Abs(Shoelace(Corners(steps))) / 2 + DivTrunc(Sum(Lengths(steps)), 2) + 1
  {
    WalkEnd(steps);
    WalkShoelace(steps);
    WalkPerimeter(steps);
    assert Abs(Walk(steps).twice) == Abs(Shoelace(Corners(steps)));
  }

  /** A w x h rectangle traced right, down, left, up covers (w+1)(h+1)
      cells. */
  lemma Rectangle(w: nat, h: nat)
    ensures Solve([(Right, w), (Down, h), (Left, w), (Up, h)]) == (w + 1) * (h + 1)
  {
    var t := h * w;
    RectangleWalk(w, h);
    assert t >= 0 by {
      MulNonNegative(h, w);
    }
    assert Abs(2 * t) / 2 == t;
    assert DivTrunc(2 * w + 2 * h, 2) == w + h;
    assert (w + 1) * (h + 1) == t + w + h + 1;
  }

  /** The fold over the rectangle's four sides. */
  lemma RectangleWalk(w: nat, h: nat)
    ensures Walk([(Right, w), (Down, h), (Left, w), (Up, h)]) == Acc((0, 0), 2 * w + 2 * h, 2 * (h * w))
  {
    var s1, s2, s3, s4 := (Right, w), (Down, h), (Left, w), (Up, h);
    var p0: seq<Step> := [];
    WalkPush(p0, s1);
    WalkPush(p0 + [s1], s2);
    WalkPush(p0 + [s1] + [s2], s3);
    WalkPush(p0 + [s1] + [s2] + [s3], s4);
    assert p0 + [s1] + [s2] + [s3] + [s4] == [s1, s2, s3, s4];
    RectangleFold(w, h);
  }

  /** The four fold steps around a w x h rectangle. */
  lemma RectangleFold(w: nat, h: nat)
    ensures Fold(Fold(Fold(Fold(Acc((0, 0), 0, 0), (Right, w)), (Down, h)), (Left, w)), (Up, h))
            == Acc((0, 0), 2 * w + 2 * h, 2 * (h * w))
  {
    var t := h * w;
    MoveAlong((0, 0), Right, w);
    var a1 := Fold(Acc((0, 0), 0, 0), (Right, w));
    assert (0 - 0) * (w + 0) == 0;
    assert a1 == Acc((0, w), w, 0);
    MoveAlong((0, w), Down, h);
    var a2 := Fold(a1, (Down, h));
    assert (h - 0) * (w + w) == 2 * t;
    assert a2 == Acc((h, w), w + h, 2 * t);
    MoveAlong((h, w), Left, w);
    var a3 := Fold(a2, (Left, w));
    assert (h - h) * (0 + w) == 0;
    assert a3 == Acc((h, 0), 2 * w + h, 2 * t);
    MoveAlong((h, 0), Up, h);
    var a4 := Fold(a3, (Up, h));
    assert (0 - h) * (0 + 0) == 0;
  }

  lemma MulNonNegative(a: nat, b: nat)
    ensures a * b >= 0
  {
  }

  /** A step along one of the four unit directions. */
  lemma MoveAlong(pos: (int, int), d: Dir, n: int)
    requires d in Dirs
    ensures Move(pos, (d, n)) == (pos.0 + (if d == Down then n else if d == Up then -n else 0),
                                  pos.1 + (if d == Right then n else if d == Left then -n else 0))
  {
  }

  /** One more step of the fold. */
  lemma WalkPush(steps: seq<Step>, s: Step)
    ensures Walk(steps + [s]) == Fold(Walk(steps), s)
  {
    assert (steps + [s])[..|steps|] == steps;
  }

  // ---------------------------------------------------------------------
  // The two parts
  // ---------------------------------------------------------------------

  /** Part 1: the plan read from the letters; None if a line panics. */
  function Part1(lines: seq<string>): (r: Option<int>)
    ensures r.Some? <==> forall k :: 0 <= k < |lines| ==> ParseStep1(lines[k]).Some?
    ensures r.Some? ==> r.value == Solve(ParseAll(lines, false).value)
  {
    match ParseAll(lines, false)
    case None => None
    case Some(steps) => Some(Solve(steps))
  }

  /** Part 2: the plan read from the colour codes. */
  function Part2(lines: seq<string>): (r: Option<int>)
    ensures r.Some? <==> forall k :: 0 <= k < |lines| ==> ParseStep2(lines[k]).Some?
    ensures r.Some? ==> r.value == Solve(ParseAll(lines, true).value)
  {
    match ParseAll(lines, true)
    case None => None
    case Some(steps) => Some(Solve(steps))
  }
}
