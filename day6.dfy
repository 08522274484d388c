/** Day 6 (Wait For It): a race of `time` milliseconds is won by holding
    the button for t milliseconds when (time - t) * t beats the record
    distance. Part 1 multiplies the number of winning holds over the races;
    part 2 reads the numbers of each line as one number by concatenating
    their decimal digits. */
module Day6 {
  import opened Common
  import opened Text

  // ---------------------------------------------------------------------
  // Parsing
  // ---------------------------------------------------------------------

  /** The space-separated tokens of some pieces, in order. */
  function Tokens(pieces: seq<string>): seq<string>
  {
    Flatten(seq(|pieces|, k requires 0 <= k < |pieces| => Split(pieces[k], ' ')))
  }

  /** Each token trimmed and parsed as an `i64`. */
  function Readings(tokens: seq<string>): (r: seq<Option<int>>)
    ensures |r| == |tokens|
    ensures forall k :: 0 <= k < |tokens| ==> r[k] == ParseInt(Trim(tokens[k]))
  {
    seq(|tokens|, k requires 0 <= k < |tokens| => ParseInt(Trim(tokens[k])))
  }

  /** The integers among space-separated pieces: the tokens that parse. */
  function Numbers(pieces: seq<string>): seq<int>
  {
    Present(Readings(Tokens(pieces)))
  }

  /** One input line: the numbers in everything after the first `:`. */
  function Field(line: string): seq<int>
  {
    Numbers(Split(line, ':')[1..])
  }

  /** The first two lines are the times and the distances; fewer than two
      lines panic. */
  function ParseInput(lines: seq<string>): Option<(seq<int>, seq<int>)>
  {
    if |lines| < 2 then None else Some((Field(lines[0]), Field(lines[1])))
  }

  /** A number is read exactly when some token trims to it. */
  lemma NumbersMembers(pieces: seq<string>, x: int)
    ensures var tokens := Tokens(pieces);
      x in Numbers(pieces) <==> exists k :: 0 <= k < |tokens| && ParseInt(Trim(tokens[k])) == Some(x)
  {
    var tokens := Tokens(pieces);
    var opts := Readings(tokens);
    PresentMembers(opts);
    if x in Numbers(pieces) {
      var k :| 0 <= k < |opts| && opts[k] == Some(x);
    }
    if exists k :: 0 <= k < |tokens| && ParseInt(Trim(tokens[k])) == Some(x) {
      var k :| 0 <= k < |tokens| && ParseInt(Trim(tokens[k])) == Some(x);
      assert opts[k] == Some(x);
    }
  }

  /** The label before the first `:` is never read: a line is read as the
      numbers of the text after its label. */
  lemma FieldAfterLabel(title: string, rest: string)
    requires ':' !in title
    ensures Field(title + ":" + rest) == Numbers(Split(rest, ':'))
  {
    SplitOnFirst(title, ':', rest, {':'});
    assert title + ":" + rest == title + [':'] + rest;
  }

  /** A line without `:` holds no number. */
  lemma FieldNoColon(line: string)
    requires ':' !in line
    ensures Field(line) == []
  {
    SplitOnNone(line, {':'});
    assert Split(line, ':')[1..] == [];
    assert Tokens([]) == [];
  }

  // ---------------------------------------------------------------------
  // Part 1: counting the winning holds
  // ---------------------------------------------------------------------

  /** Holding for t milliseconds beats the record. */
  predicate Wins(time: int, distance: int, t: int)
  {
    (time - t) * t > distance
  }

  /** The winning holds among 0 .. n - 1. */
  function WinsBelow(time: int, distance: int, n: int): nat
    decreases n
  {
    if n <= 0 then 0
    else WinsBelow(time, distance, n - 1) + (if Wins(time, distance, n - 1) then 1 else 0)
  }

  /** `(0..=time).filter(..).count()`. */
  function Ways(time: int, distance: int): nat
  {
    WinsBelow(time, distance, time + 1)
  }

  /** The winning holds as a set. */
  ghost function WinSet(time: int, distance: int, n: int): set<int>
  {
    set t | 0 <= t < n && Wins(time, distance, t)
  }

  /** The count is the number of winning holds among 0 .. n - 1. */
  lemma {:induction false} WinsBelowCounts(time: int, distance: int, n: int)
    ensures WinsBelow(time, distance, n) == |WinSet(time, distance, n)|
    decreases n
  {
    if n <= 0 {
      assert WinSet(time, distance, n) == {};
    } else {
      WinsBelowCounts(time, distance, n - 1);
      if Wins(time, distance, n - 1) {
        assert WinSet(time, distance, n) == WinSet(time, distance, n - 1) + {n - 1};
      } else {
        assert WinSet(time, distance, n) == WinSet(time, distance, n - 1);
      }
    }
  }

  /** The count is bounded by the number of candidate holds. */
  lemma {:induction false} WinsBelowBound(time: int, distance: int, n: int)
    ensures WinsBelow(time, distance, n) <= if n < 0 then 0 else n
    decreases n
  {
    if n > 0 {
      WinsBelowBound(time, distance, n - 1);
    }
  }

  /** `Ways` counts exactly the winning holds in 0 ..= time, at most
      time + 1 of them, and the winning holds are symmetric: holding t wins
      exactly when holding time - t does. */
  lemma WaysMeaning(time: int, distance: int)
    ensures Ways(time, distance) == |WinSet(time, distance, time + 1)|
    ensures Ways(time, distance) <= if time < 0 then 0 else time + 1
    ensures forall t :: 0 <= t <= time ==> (Wins(time, distance, t) <==> Wins(time, distance, time - t))
  {
    WinsBelowCounts(time, distance, time + 1);
    WinsBelowBound(time, distance, time + 1);
    forall t | 0 <= t <= time
      ensures Wins(time, distance, t) <==> Wins(time, distance, time - t)
    {
      assert (time - (time - t)) * (time - t) == (time - t) * t;
    }
  }

  /** Part 1: the product, over the races paired up by `zip` (the shorter
      line decides), of the number of winning holds. */
  function Part1(lines: seq<string>): (r: Option<int>)
    ensures r.None? <==> |lines| < 2
  {
    match ParseInput(lines)
    case None => None
    case Some((times, distances)) => Some(RaceProduct(times, distances))
  }

  /** The product of the winning counts of the races paired up by `zip`. */
  function RaceProduct(times: seq<int>, distances: seq<int>): int
  {
    var n := if |times| < |distances| then |times| else |distances|;
    Product(seq(n, k requires 0 <= k < n => Ways(times[k], distances[k])))
  }

  /** A product of counts is never negative, and it is 0 as soon as one race
      cannot be won. */
  lemma {:induction false} ProductOfCounts(s: seq<int>)
    requires forall k :: 0 <= k < |s| ==> s[k] >= 0
    ensures Product(s) >= 0
    ensures (exists k :: 0 <= k < |s| && s[k] == 0) ==> Product(s) == 0
    decreases |s|
  {
    if s != [] {
      var init := s[..|s| - 1];
      ProductOfCounts(init);
      if exists k :: 0 <= k < |s| && s[k] == 0 {
        var k :| 0 <= k < |s| && s[k] == 0;
        if k < |s| - 1 {
          assert init[k] == 0;
        }
      }
    }
  }

  /** The product over the races is never negative, and it is 0 when some
      paired race cannot be won at all. */
  lemma RaceProductAnswer(times: seq<int>, distances: seq<int>)
    ensures RaceProduct(times, distances) >= 0
    ensures (exists k :: 0 <= k < |times| && k < |distances| && WinSet(times[k], distances[k], times[k] + 1) == {}) ==>
      RaceProduct(times, distances) == 0
  {
    var n := if |times| < |distances| then |times| else |distances|;
    var counts := seq(n, k requires 0 <= k < n => Ways(times[k], distances[k]));
    ProductOfCounts(counts);
    if exists k :: 0 <= k < |times| && k < |distances| && WinSet(times[k], distances[k], times[k] + 1) == {} {
      var k :| 0 <= k < |times| && k < |distances| && WinSet(times[k], distances[k], times[k] + 1) == {};
      WaysMeaning(times[k], distances[k]);
      assert counts[k] == 0;
    }
  }

  // ---------------------------------------------------------------------
  // Part 2: concatenating the digits
  // ---------------------------------------------------------------------

  /** The fold that appends each number's `to_string` to one string. */
  function Concat(ns: seq<int>): string
  {
    Flatten(seq(|ns|, k requires 0 <= k < |ns| => IntToDecimal(ns[k])))
  }

  function Pow10(e: nat): (r: nat)
    ensures r >= 1
  {
    if e == 0 then 1 else 10 * Pow10(e - 1)
  }

  /** The number whose decimal digits are those of the numbers, in order. */
  function Joined(ns: seq<nat>): nat
  {
    if ns == [] then 0
    else Joined(ns[..|ns| - 1]) * Pow10(|NatToDecimal(ns[|ns| - 1])|) + ns[|ns| - 1]
  }

  /** The race of part 2: the time and the distance read as one number each;
      a concatenation that does not parse (no number, or a `-` inside)
      panics. */
  function Part2Race(lines: seq<string>): Option<(int, int)>
  {
    match ParseInput(lines)
    case None => None
    case Some((times, distances)) =>
      match (ParseInt(Concat(times)), ParseInt(Concat(distances)))
      case (Some(t), Some(d)) => Some((t, d))
      case _ => None
  }

  /** The race of part 2: two lines whose numbers are all non-negative, at
      least one per line, give the race whose time and distance are those
      numbers' digits joined; fewer than two lines, or a line without a
      number, panic. */
  lemma Part2RaceMeaning(lines: seq<string>)
    ensures |lines| < 2 ==> Part2Race(lines).None?
    ensures |lines| >= 2 && (Field(lines[0]) == [] || Field(lines[1]) == []) ==> Part2Race(lines).None?
    ensures (|lines| >= 2 && Field(lines[0]) != [] && Field(lines[1]) != [] &&
      (forall k :: 0 <= k < |Field(lines[0])| ==> Field(lines[0])[k] >= 0) &&
      (forall k :: 0 <= k < |Field(lines[1])| ==> Field(lines[1])[k] >= 0)) ==>
      Part2Race(lines) == Some((Joined(Field(lines[0])), Joined(Field(lines[1]))))
  {
    if |lines| >= 2 {
      ConcatParse(Field(lines[0]));
      ConcatParse(Field(lines[1]));
    }
  }

  /** Appending digits shifts the value left by their number. */
  lemma {:induction false} DecimalAppend(a: string, b: string)
    requires AllDigits(a) && AllDigits(b)
    ensures AllDigits(a + b)
    ensures DecimalValue(a + b) == DecimalValue(a) * Pow10(|b|) + DecimalValue(b)
    decreases |b|
  {
    if b != [] {
      var b', c := b[..|b| - 1], b[|b| - 1];
      DecimalAppend(a, b');
      assert a + b == (a + b') + [c] && b == b' + [c];
      DecimalSnoc(a + b', c);
      DecimalSnoc(b', c);
      Shift(DecimalValue(a), Pow10(|b'|), DecimalValue(b'), DigitValue(c));
    } else {
      assert a + b == a;
    }
  }

  /** One more digit on the right: ten times the value, plus the digit. */
  lemma DecimalSnoc(s: string, c: char)
    requires AllDigits(s) && IsDigit(c)
    ensures AllDigits(s + [c])
    ensures DecimalValue(s + [c]) == 10 * DecimalValue(s) + DigitValue(c)
  {
    assert (s + [c])[..|s|] == s;
  }

  lemma Shift(x: int, p: int, y: int, d: int)
    ensures 10 * (x * p + y) + d == x * (10 * p) + (10 * y + d)
  {
  }

  /** Concatenating non-negative numbers gives digits only, whose value is
      `Joined`. */
  lemma {:induction false} ConcatDigits(ns: seq<nat>)
    ensures AllDigits(Concat(ns))
    ensures DecimalValue(Concat(ns)) == Joined(ns)
    decreases |ns|
  {
    if ns != [] {
      var init := ns[..|ns| - 1];
      ConcatDigits(init);
      var parts := seq(|ns|, k requires 0 <= k < |ns| => IntToDecimal(ns[k]));
      assert parts[..|ns| - 1] == seq(|init|, k requires 0 <= k < |init| => IntToDecimal(init[k]));
      assert Concat(ns) == Concat(init) + NatToDecimal(ns[|ns| - 1]);
      DecimalAppend(Concat(init), NatToDecimal(ns[|ns| - 1]));
    }
  }

  /** Concatenation and parsing: non-negative numbers, at least one, read
      back as `Joined`; no number at all, or a negative number after the
      first, makes the parse fail. */
  lemma ConcatParse(ns: seq<int>)
    ensures ns == [] ==> ParseInt(Concat(ns)) == None
    ensures ns != [] && (forall k :: 0 <= k < |ns| ==> ns[k] >= 0) ==>
      ParseInt(Concat(ns)) == Some(Joined(ns))
    ensures (exists k :: 1 <= k < |ns| && ns[k] < 0) ==> ParseInt(Concat(ns)) == None
  {
    if ns != [] && (forall k :: 0 <= k < |ns| ==> ns[k] >= 0) {
      ConcatDigits(ns);
      ConcatNonEmpty(ns);
      DigitsParse(Concat(ns));
    }
    if exists k :: 1 <= k < |ns| && ns[k] < 0 {
      var k :| 1 <= k < |ns| && ns[k] < 0;
      ConcatHasMinus(ns, k);
    }
  }

  /** Digits only, at least one, parse as their decimal value. */
  lemma DigitsParse(s: string)
    requires |s| > 0 && AllDigits(s)
    ensures ParseInt(s) == Some(DecimalValue(s))
  {
    assert IsDigit(s[0]);
  }

  /** Each number contributes at least one character. */
  lemma {:induction false} ConcatNonEmpty(ns: seq<int>)
    ensures ns != [] ==> |Concat(ns)| >= |ns|
    decreases |ns|
  {
    if ns != [] {
      var init := ns[..|ns| - 1];
      ConcatNonEmpty(init);
      ConcatSnoc(ns);
    }
  }

  lemma ConcatSnoc(ns: seq<int>)
    requires ns != []
    ensures Concat(ns) == Concat(ns[..|ns| - 1]) + IntToDecimal(ns[|ns| - 1])
  {
    var init := ns[..|ns| - 1];
    var parts := seq(|ns|, k requires 0 <= k < |ns| => IntToDecimal(ns[k]));
    assert parts[..|ns| - 1] == seq(|init|, k requires 0 <= k < |init| => IntToDecimal(init[k]));
  }

  /** A negative number after the first puts a `-` after a digit or a
      sign, which no integer has. */
  lemma {:induction false} ConcatHasMinus(ns: seq<int>, k: nat)
    requires 1 <= k < |ns| && ns[k] < 0
    ensures exists j :: 1 <= j < |Concat(ns)| && Concat(ns)[j] == '-'
    ensures ParseInt(Concat(ns)) == None
    decreases |ns|
  {
    ConcatSnoc(ns);
    var init := ns[..|ns| - 1];
    if k == |ns| - 1 {
      ConcatNonEmpty(init);
      assert Concat(ns)[|Concat(init)|] == '-';
    } else {
      ConcatHasMinus(init, k);
      var j :| 1 <= j < |Concat(init)| && Concat(init)[j] == '-';
      assert Concat(ns)[j] == '-';
    }
    var j :| 1 <= j < |Concat(ns)| && Concat(ns)[j] == '-';
    MinusInside(Concat(ns), j);
  }

  /** A `-` after the first character never parses as an integer. */
  lemma MinusInside(s: string, j: nat)
    requires 1 <= j < |s| && s[j] == '-'
    ensures ParseInt(s) == None
  {
    if s[0] == '-' {
      assert !IsDigit(s[1..][j - 1]);
    } else {
      var body := if s[0] == '+' then s[1..] else s;
      assert body == s || body == s[1..];
      if body == s {
        assert !IsDigit(body[j]);
      } else {
        assert !IsDigit(body[j - 1]);
      }
    }
  }
}
