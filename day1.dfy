/** Day 1 (Trebuchet?!): each calibration line yields a two-digit value
    made of its first and its last digit; part 2 also accepts the digits
    spelled out as words ("one" .. "nine"). Lines without any digit are
    skipped, and an input where no line yields a value sums to 1. */
module Day1 {
  import opened Common
  import opened Text

  // ---------------------------------------------------------------------
  // The sum that defaults to 1
  // ---------------------------------------------------------------------

  /** `.reduce(|acc, x| acc + x).unwrap_or(1)`. */
  function Reduced(values: seq<nat>): (r: nat)
    ensures values == [] ==> r == 1
    ensures values != [] ==> r == Sum(values)
  {
    if values == [] then 1 else SumNat(values)
  }

  function SumNat(values: seq<nat>): (r: nat)
    ensures r == Sum(values)
  {
    if values == [] then 0 else SumNat(values[..|values| - 1]) + values[|values| - 1]
  }

  // ---------------------------------------------------------------------
  // Part 1: digits only
  // ---------------------------------------------------------------------

  /** `line.iter().find(|c| c.is_digit(10))`, as an index. */
  function FirstDigit(line: string): (r: Option<nat>)
    ensures r.Some? ==> r.value < |line| && IsDigit(line[r.value])
    ensures r.Some? ==> forall k :: 0 <= k < r.value ==> !IsDigit(line[k])
    ensures r.None? ==> forall k :: 0 <= k < |line| ==> !IsDigit(line[k])
  {
    if line == [] then None
    else if IsDigit(line[0]) then Some(0)
    else
      match FirstDigit(line[1..])
      case None => None
      case Some(k) => Some(k + 1)
  }

  /** `line.iter().rev().find(|c| c.is_digit(10))`, as an index. */
  function LastDigit(line: string): (r: Option<nat>)
    ensures r.Some? ==> r.value < |line| && IsDigit(line[r.value])
    ensures r.Some? ==> forall k :: r.value < k < |line| ==> !IsDigit(line[k])
    ensures r.None? ==> forall k :: 0 <= k < |line| ==> !IsDigit(line[k])
  {
    if line == [] then None
    else if IsDigit(line[|line| - 1]) then Some(|line| - 1)
    else LastDigit(line[..|line| - 1])
  }

  /** Both searches find a digit or neither does, and the first digit is
      never after the last. */
  lemma FirstLast(line: string)
    ensures FirstDigit(line).Some? <==> LastDigit(line).Some?
    ensures FirstDigit(line).Some? ==> FirstDigit(line).value <= LastDigit(line).value
  {
    if FirstDigit(line).Some? {
      var f := FirstDigit(line).value;
      assert IsDigit(line[f]);
    }
  }

  /** The part 1 value of one line: 10 * first digit + last digit. */
  function Calibration(line: string): Option<nat>
  {
    match (FirstDigit(line), LastDigit(line))
    case (Some(f), Some(l)) => Some(10 * DigitValue(line[f]) + DigitValue(line[l]))
    case _ => None
  }

  /** Part 1: the sum of the line values, 1 when no line has a digit. */
  function Part1(lines: seq<string>): nat
  {
    Reduced(Present(seq(|lines|, k requires 0 <= k < |lines| => Calibration(lines[k]))))
  }

  /** A line is skipped exactly when it has no digit; the answer is 1 when
      no line has one, and otherwise the sum of the values of the lines
      that have one. */
  lemma Part1Answer(lines: seq<string>)
    ensures forall k :: 0 <= k < |lines| ==> (Calibration(lines[k]).None? <==> forall j :: 0 <= j < |lines[k]| ==> !IsDigit(lines[k][j]))
    ensures (forall k :: 0 <= k < |lines| ==> forall j :: 0 <= j < |lines[k]| ==> !IsDigit(lines[k][j])) ==> Part1(lines) == 1
    ensures (exists k :: 0 <= k < |lines| && Calibration(lines[k]).Some?) ==>
      Part1(lines) == Sum(Present(seq(|lines|, k requires 0 <= k < |lines| => Calibration(lines[k]))))
  {
    var opts := seq(|lines|, k requires 0 <= k < |lines| => Calibration(lines[k]));
    forall k | 0 <= k < |lines|
      ensures Calibration(lines[k]).None? <==> forall j :: 0 <= j < |lines[k]| ==> !IsDigit(lines[k][j])
    {
      FirstLast(lines[k]);
    }
    PresentMembers(opts);
    if exists k :: 0 <= k < |lines| && Calibration(lines[k]).Some? {
      var k :| 0 <= k < |lines| && Calibration(lines[k]).Some?;
      assert opts[k].Some?;
    }
  }

  // ---------------------------------------------------------------------
  // Part 2: digits and spelled-out digits
  // ---------------------------------------------------------------------

  /** `VALID_DIGITS`: word k spells the digit k + 1. */
  const Words: seq<string> := ["one", "two", "three", "four", "five", "six", "seven", "eight", "nine"]

  /** `valid_digits_rev`: each word reversed. */
  const ReversedWords: seq<string> := ["eno", "owt", "eerht", "ruof", "evif", "xis", "neves", "thgie", "enin"]

  /** Each reversed word reads its word backwards. */
  lemma ReversedWordsReverse()
    ensures forall k :: 0 <= k < 9 ==> Reverses(ReversedWords[k], Words[k])
  {
    assert Reverses(ReversedWords[0], Words[0]);
    assert Reverses(ReversedWords[1], Words[1]);
    assert Reverses(ReversedWords[2], Words[2]);
    assert Reverses(ReversedWords[3], Words[3]);
    assert Reverses(ReversedWords[4], Words[4]);
    assert Reverses(ReversedWords[5], Words[5]);
    assert Reverses(ReversedWords[6], Words[6]);
    assert Reverses(ReversedWords[7], Words[7]);
    assert Reverses(ReversedWords[8], Words[8]);
  }

  /** A candidate digit: (position, value). */
  type Hit = (int, int)

  /** The lexicographic order `sort_unstable` puts candidates in. */
  predicate Before(a: Hit, b: Hit)
  {
    a.0 < b.0 || (a.0 == b.0 && a.1 <= b.1)
  }

  /** The first candidate after sorting: the least one. */
  function Least(hits: seq<Hit>): (r: Option<Hit>)
    ensures r.None? <==> hits == []
    ensures r.Some? ==> r.value in hits && forall h :: h in hits ==> Before(r.value, h)
  {
    if hits == [] then None
    else
      match Least(hits[..|hits| - 1])
      case None => Some(hits[|hits| - 1])
      case Some(m) =>
        assert hits == hits[..|hits| - 1] + [hits[|hits| - 1]];
        if Before(m, hits[|hits| - 1]) then Some(m) else Some(hits[|hits| - 1])
  }

  /** The last candidate after sorting: the greatest one. */
  function Greatest(hits: seq<Hit>): (r: Option<Hit>)
    ensures r.None? <==> hits == []
    ensures r.Some? ==> r.value in hits && forall h :: h in hits ==> Before(h, r.value)
  {
    if hits == [] then None
    else
      match Greatest(hits[..|hits| - 1])
      case None => Some(hits[|hits| - 1])
      case Some(m) =>
        assert hits == hits[..|hits| - 1] + [hits[|hits| - 1]];
        if Before(hits[|hits| - 1], m) then Some(m) else Some(hits[|hits| - 1])
  }

  /** The first occurrence of each word that occurs, tagged with its value. */
  function WordHits(words: seq<string>, line: string): (r: seq<Option<Hit>>)
    ensures |r| == |words|
  {
    seq(|words|, k requires 0 <= k < |words| =>
      match Find(line, words[k])
      case None => None
      case Some(p) => Some((p, k + 1)))
  }

  /** `get_digit_str`: the least (position, value) among the words found. */
  function WordDigit(words: seq<string>, line: string): Option<Hit>
  {
    Least(Present(WordHits(words, line)))
  }

  /** h is the earliest occurrence of a word of the list: the word h
      reports starts at the position it reports, no word starts earlier,
      and h is absent exactly when no word occurs. */
  ghost predicate EarliestWord(words: seq<string>, line: string, h: Option<Hit>)
  {
    && (h.Some? ==>
          && 1 <= h.value.1 <= |words| && OccursAt(line, words[h.value.1 - 1], h.value.0)
          && forall k, q :: 0 <= k < |words| && 0 <= q < h.value.0 ==> !OccursAt(line, words[k], q))
    && (h.None? <==> forall k, q :: 0 <= k < |words| ==> !OccursAt(line, words[k], q))
  }

  /** The word found starts at the position reported and spells the value
      reported, and no word of the list starts earlier. */
  lemma WordDigitEarliest(words: seq<string>, line: string)
    ensures EarliestWord(words, line, WordDigit(words, line))
  {
    if WordDigit(words, line).Some? {
      WordDigitFound(words, line);
    } else {
      WordDigitAbsent(words, line);
    }
  }

  /** The word found is the earliest one. */
  lemma WordDigitFound(words: seq<string>, line: string)
    requires WordDigit(words, line).Some?
    ensures var (p, v) := WordDigit(words, line).value;
      && 1 <= v <= |words| && OccursAt(line, words[v - 1], p)
      && forall k, q :: 0 <= k < |words| && 0 <= q < p ==> !OccursAt(line, words[k], q)
  {
    WordDigitSpelled(words, line);
    forall k | 0 <= k < |words|
      ensures forall q :: 0 <= q < WordDigit(words, line).value.0 ==> !OccursAt(line, words[k], q)
    {
      NoEarlierWord(words, line, k);
    }
  }

  /** The word found occurs where it is reported. */
  lemma WordDigitSpelled(words: seq<string>, line: string)
    requires WordDigit(words, line).Some?
    ensures var (p, v) := WordDigit(words, line).value;
      1 <= v <= |words| && OccursAt(line, words[v - 1], p)
  {
    var hits := WordHits(words, line);
    PresentMembers(hits);
    var (p, v) := WordDigit(words, line).value;
    assert Some((p, v)) in hits;
    var j :| 0 <= j < |hits| && hits[j] == Some((p, v));
  }

  /** Word k does not occur before the word found. */
  lemma NoEarlierWord(words: seq<string>, line: string, k: nat)
    requires WordDigit(words, line).Some? && k < |words|
    ensures forall q :: 0 <= q < WordDigit(words, line).value.0 ==> !OccursAt(line, words[k], q)
  {
    var hits := WordHits(words, line);
    if Find(line, words[k]).Some? {
      assert hits[k] == Some((Find(line, words[k]).value, k + 1));
      PresentMembers(hits);
      assert (Find(line, words[k]).value, k + 1) in Present(hits);
    }
  }

  /** No word is found only when none occurs. */
  lemma WordDigitAbsent(words: seq<string>, line: string)
    requires WordDigit(words, line).None?
    ensures forall k, q :: 0 <= k < |words| ==> !OccursAt(line, words[k], q)
  {
    var hits := WordHits(words, line);
    PresentMembers(hits);
    forall k, q | 0 <= k < |words|
      ensures !OccursAt(line, words[k], q)
    {
      assert hits[k].None?;
    }
  }

  /** `get_digit`: the position and value of the first digit. */
  function DigitHit(line: string): (r: Option<Hit>)
  {
    match FirstDigit(line)
    case None => None
    case Some(p) => Some((p, DigitValue(line[p])))
  }

  /** A position found in the reversed line, mapped back (`len - 1 - x`). */
  function Back(len: int, h: Option<Hit>): Option<Hit>
  {
    match h
    case None => None
    case Some((x, v)) => Some((len - 1 - x, v))
  }

  /** The last digit is the digit after which no digit follows. */
  lemma LastDigitUnique(line: string, p: nat)
    requires p < |line| && IsDigit(line[p])
    requires forall k :: p < k < |line| ==> !IsDigit(line[k])
    ensures LastDigit(line) == Some(p)
  {
    var l := LastDigit(line);
  }

  /** `r` is `s` read backwards. */
  predicate Reverses(r: string, s: string)
  {
    |r| == |s| && forall k :: 0 <= k < |s| ==> r[k] == s[|s| - 1 - k]
  }

  lemma ReverseReverses(s: string)
    ensures Reverses(Reverse(s), s)
  {
  }

  /** No digit among the first x characters of the reversed line means no
      digit among the last x characters of the line. */
  lemma ReversedNoDigit(line: string, rev: string, x: nat)
    requires Reverses(rev, line) && x <= |line|
    requires forall i :: 0 <= i < x ==> !IsDigit(rev[i])
    ensures forall k :: |line| - x <= k < |line| ==> !IsDigit(line[k])
  {
    var n := |line|;
    forall k | n - x <= k < n
      ensures !IsDigit(line[k])
    {
      var i := n - 1 - k;
      assert !IsDigit(rev[i]);
    }
  }

  /** The first digit of the reversed line is the last digit of the line. */
  lemma ReversedFirstDigit(line: string, rev: string)
    requires Reverses(rev, line)
    ensures FirstDigit(rev).None? ==> LastDigit(line).None?
    ensures FirstDigit(rev).Some? ==>
      var x := FirstDigit(rev).value;
      x < |line| && LastDigit(line) == Some(|line| - 1 - x) && rev[x] == line[|line| - 1 - x]
  {
    var n := |line|;
    var first := FirstDigit(rev);
    if first.None? {
      ReversedNoDigit(line, rev, n);
    } else {
      var x := first.value;
      ReversedNoDigit(line, rev, x);
      LastDigitUnique(line, n - 1 - x);
    }
  }

  /** Searching the reversed line finds the last digit. */
  lemma BackDigit(line: string)
    ensures Back(|line|, DigitHit(Reverse(line))) ==
      match LastDigit(line)
      case None => None
      case Some(p) => Some((p, DigitValue(line[p])))
  {
    ReverseReverses(line);
    ReversedFirstDigit(line, Reverse(line));
  }

  /** An occurrence, character by character. */
  lemma OccursPointwise(s: string, w: string, k: int)
    ensures OccursAt(s, w, k) <==> 0 <= k && k + |w| <= |s| && forall j :: 0 <= j < |w| ==> s[k + j] == w[j]
  {
    if 0 <= k && k + |w| <= |s| {
      if forall j :: 0 <= j < |w| ==> s[k + j] == w[j] {
        assert s[k..k + |w|] == w;
      }
      if OccursAt(s, w, k) {
        forall j | 0 <= j < |w|
          ensures s[k + j] == w[j]
        {
          assert s[k..k + |w|][j] == s[k + j];
        }
      }
    }
  }

  /** A word occurs reversed in the reversed line exactly where it ends in
      the line. */
  lemma OccursReversed(s: string, rs: string, w: string, rw: string, x: int)
    requires Reverses(rs, s) && Reverses(rw, w)
    ensures OccursAt(rs, rw, x) <==> OccursAt(s, w, |s| - x - |w|)
  {
    var k := |s| - x - |w|;
    OccursPointwise(rs, rw, x);
    OccursPointwise(s, w, k);
    if 0 <= x && x + |w| <= |s| {
      if OccursAt(rs, rw, x) {
        forall j | 0 <= j < |w|
          ensures s[k + j] == w[j]
        {
          var i := |w| - 1 - j;
          assert rs[x + i] == rw[i];
          assert rs[x + i] == s[k + j];
        }
      }
      if OccursAt(s, w, k) {
        forall j | 0 <= j < |w|
          ensures rs[x + j] == rw[j]
        {
          var i := |w| - 1 - j;
          assert s[k + i] == w[i];
          assert rs[x + j] == s[k + i];
        }
      }
    }
  }

  /** Searching the reversed line for the reversed words finds the word
      that ends last, reported at its last character. */
  lemma BackWordOf(line: string, rev: string)
    requires Reverses(rev, line)
    ensures LatestWord(line, Back(|line|, WordDigit(ReversedWords, rev)))
  {
    WordDigitEarliest(ReversedWords, rev);
    if WordDigit(ReversedWords, rev).Some? {
      var (x, v) := WordDigit(ReversedWords, rev).value;
      ReversedWordAt(line, rev, v - 1, x);
      forall k, q | 0 <= k < 9 && OccursAt(line, Words[k], q)
        ensures q + |Words[k]| - 1 <= |line| - 1 - x
      {
        ReversedWordAt(line, rev, k, |line| - q - |Words[k]|);
      }
    } else {
      forall k, q | 0 <= k < 9
        ensures !OccursAt(line, Words[k], q)
      {
        ReversedWordAt(line, rev, k, |line| - q - |Words[k]|);
      }
    }
  }

  /** Reversed word k occurs in the reversed line at x exactly when word k
      occurs in the line where that occurrence ends up. */
  lemma ReversedWordAt(line: string, rev: string, k: nat, x: int)
    requires Reverses(rev, line) && k < 9
    ensures OccursAt(rev, ReversedWords[k], x) <==> OccursAt(line, Words[k], |line| - x - |Words[k]|)
  {
    ReversedWordsReverse();
    OccursReversed(line, rev, Words[k], ReversedWords[k], x);
  }

  /** h is the digit word of the line that ends last: the word h reports
      ends at the position it reports, no word ends later, and h is
      absent exactly when no word occurs. */
  ghost predicate LatestWord(line: string, h: Option<Hit>)
  {
    && (h.Some? ==>
          && 1 <= h.value.1 <= 9 && OccursAt(line, Words[h.value.1 - 1], h.value.0 + 1 - |Words[h.value.1 - 1]|)
          && forall k, q :: 0 <= k < 9 && OccursAt(line, Words[k], q) ==> q + |Words[k]| - 1 <= h.value.0)
    && (h.None? <==> forall k, q :: 0 <= k < 9 ==> !OccursAt(line, Words[k], q))
  }

  /** `BackWordOf` for the reversed line and the reversed words. */
  lemma BackWord(line: string)
    ensures LatestWord(line, Back(|line|, WordDigit(ReversedWords, Reverse(line))))
  {
    ReverseReverses(line);
    BackWordOf(line, Reverse(line));
  }

  /** The four candidates of a line: the earliest word, the word ending
      last, the first digit and the last digit (when present). */
  function Candidates(line: string): seq<Hit>
  {
    var rev := Reverse(line);
    Present([WordDigit(Words, line), Back(|rev|, WordDigit(ReversedWords, rev)),
             DigitHit(line), Back(|rev|, DigitHit(rev))])
  }

  /** The part 2 value of one line: 10 * the value of the least candidate +
      the value of the greatest. */
  function Recalibration(line: string): Option<int>
  {
    var c := Candidates(line);
    match (Least(c), Greatest(c))
    case (Some(first), Some(last)) => Some(first.1 * 10 + last.1)
    case _ => None
  }

  /** A line has no candidate exactly when it has neither a digit nor a
      digit word. */
  lemma CandidatesEmpty(line: string)
    ensures Candidates(line) == [] <==>
      (forall j :: 0 <= j < |line| ==> !IsDigit(line[j])) && forall k, q :: 0 <= k < 9 ==> !OccursAt(line, Words[k], q)
  {
    var rev := Reverse(line);
    var opts := [WordDigit(Words, line), Back(|rev|, WordDigit(ReversedWords, rev)),
                 DigitHit(line), Back(|rev|, DigitHit(rev))];
    assert Candidates(line) == Present(opts);
    PresentMembers(opts);
    WordDigitEarliest(Words, line);
    BackWord(line);
    BackDigit(line);
    FirstLast(line);
    if Candidates(line) == [] {
      assert opts[0].None? && opts[2].None?;
    } else {
      assert exists k :: 0 <= k < 4 && opts[k].Some?;
    }
  }

  /** A line yields a value exactly when it has a digit or a digit word;
      the value is then 10 * the value of the least candidate by position
      plus that of the greatest. */
  lemma RecalibrationPresent(line: string)
    ensures Recalibration(line).None? <==>
      (forall j :: 0 <= j < |line| ==> !IsDigit(line[j])) && forall k, q :: 0 <= k < 9 ==> !OccursAt(line, Words[k], q)
    ensures Recalibration(line).Some? ==>
      var c := Candidates(line);
      c != [] && Recalibration(line).value == 10 * Least(c).value.1 + Greatest(c).value.1
  {
    CandidatesEmpty(line);
  }

  /** The part 2 values of the lines, one per line. */
  function Values(lines: seq<string>): (r: seq<Option<int>>)
    ensures |r| == |lines| && forall k :: 0 <= k < |lines| ==> r[k] == Recalibration(lines[k])
  {
    seq(|lines|, k requires 0 <= k < |lines| => Recalibration(lines[k]))
  }

  /** Part 2: the sum of the line values, 1 when no line yields one. */
  function Part2(lines: seq<string>): int
  {
    var values := Present(Values(lines));
    if values == [] then 1 else Sum(values)
  }

  /** Part 2 answers 1 when no line has a digit or a digit word, and
      otherwise the sum of the values of the lines that have one. */
  lemma Part2Answer(lines: seq<string>)
    ensures (forall k :: 0 <= k < |lines| ==> Recalibration(lines[k]).None?) ==> Part2(lines) == 1
    ensures (exists k :: 0 <= k < |lines| && Recalibration(lines[k]).Some?) ==>
      Part2(lines) == Sum(Present(Values(lines)))
  {
    var opts := Values(lines);
    PresentMembers(opts);
    if exists k :: 0 <= k < |lines| && Recalibration(lines[k]).Some? {
      var k :| 0 <= k < |lines| && Recalibration(lines[k]).Some?;
      assert opts[k].Some?;
    } else {
      assert forall k :: 0 <= k < |opts| ==> opts[k].None?;
    }
  }
}
