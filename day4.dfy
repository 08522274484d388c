/** Day 4 (Scratchcards): each card lists winning numbers and our numbers.
    Part 1 scores a card by doubling per match; part 2 makes every card win
    copies of the cards that follow it, and counts all cards. */
module Day4 {
  import opened Common
  import opened Text

  const U32_MAX: nat := 0xFFFF_FFFF

  /** How many times each number occurs (`HashMap<u32, u32>`). */
  type Counts = map<nat, nat>

  /** One card: its winning numbers and our numbers, with their counts. */
  datatype Card = Card(winning: Counts, ours: Counts)

  function Get(hm: Counts, x: nat): nat
  {
    if x in hm then hm[x] else 0
  }

  // ---------------------------------------------------------------------
  // Parsing
  // ---------------------------------------------------------------------

  /** `number_str.parse::<u32>().ok()`. */
  function ParseU32(s: string): (r: Option<nat>)
    ensures r.Some? ==> r.value <= U32_MAX
  {
    match ParseNat(s)
    case None => None
    case Some(n) => if n <= U32_MAX then Some(n) else None
  }

  /** The fold `*hm.entry(number).or_insert(0) += 1` over the numbers among
      the first n words; other words are dropped (`filter_map`). */
  function NumbersUpTo(words: seq<string>, n: nat): Counts
    requires n <= |words|
  {
    if n == 0 then map[]
    else
      var hm := NumbersUpTo(words, n - 1);
      match ParseU32(words[n - 1])
      case None => hm
      case Some(x) => hm[x := Get(hm, x) + 1]
  }

  /** `parse_numbers`. */
  function ParseNumbers(s: string): Counts
  {
    var words := Words(s);
    NumbersUpTo(words, |words|)
  }

  /** How many of the first n words read as the number x. */
  function Occurrences(words: seq<string>, x: nat, n: nat): nat
    requires n <= |words|
  {
    if n == 0 then 0 else Occurrences(words, x, n - 1) + (if ParseU32(words[n - 1]) == Some(x) then 1 else 0)
  }

  /** `parse_numbers` maps each number to its number of occurrences and
      holds exactly the numbers that occur. */
  lemma {:induction false} NumbersCount(words: seq<string>, n: nat)
    requires n <= |words|
    ensures forall x :: Get(NumbersUpTo(words, n), x) == Occurrences(words, x, n)
    ensures forall x :: x in NumbersUpTo(words, n) <==> Occurrences(words, x, n) > 0
    decreases n
  {
    if n > 0 {
      NumbersCount(words, n - 1);
    }
  }

  /** The n-th piece, or "" when there is none (`unwrap_or_default`). */
  function Piece(pieces: seq<string>, k: nat): string
  {
    if k < |pieces| then pieces[k] else ""
  }

  /** One line, split at `:` and `|`: the first piece (the card tag) is
      dropped, then come the winning numbers and our numbers. */
  function ParseCard(line: string): Card
  {
    var pieces := SplitOn(line, {':', '|'});
    Card(ParseNumbers(Piece(pieces, 1)), ParseNumbers(Piece(pieces, 2)))
  }

  function Parse(lines: seq<string>): (r: seq<Card>)
    ensures |r| == |lines|
  {
    seq(|lines|, k requires 0 <= k < |lines| => ParseCard(lines[k]))
  }

  predicate NoSeparator(s: string)
  {
    forall k :: 0 <= k < |s| ==> s[k] != ':' && s[k] != '|'
  }

  /** A line "Card n:winning|ours" reads as the two lists of numbers,
      whatever the tag. */
  lemma ParseCardFormatted(tag: string, w: string, o: string)
    requires NoSeparator(tag) && NoSeparator(w) && NoSeparator(o)
    ensures ParseCard(tag + ":" + w + "|" + o) == Card(ParseNumbers(w), ParseNumbers(o))
  {
    var seps := {':', '|'};
    var line := tag + ":" + w + "|" + o;
    assert line == tag + [':'] + (w + ['|'] + o);
    SplitOnFirst(tag, ':', w + ['|'] + o, seps);
    SplitOnFirst(w, '|', o, seps);
    SplitOnNone(o, seps);
    assert SplitOn(line, seps) == [tag, w, o];
  }

  // ---------------------------------------------------------------------
  // Part 1: the doubling score
  // ---------------------------------------------------------------------

  const U32_MOD: nat := 0x1_0000_0000

  /** The low 32 bits of r * 2^c. */
  function Shifted(r: nat, c: nat): (s: nat)
    decreases c
    ensures s < U32_MOD
  {
    if c == 0 then r % U32_MOD else Shifted(2 * r % U32_MOD, c - 1)
  }

  /** One step of the part 1 fold on a matching number: the first match
      scores 1, each later one is `result << count` on `u32`, which drops
      the bits shifted out (and panics when count is 32 or more, which is
      why it is excluded here). */
  function ScoreStep(result: nat, count: nat): nat
    requires result == 0 || count < 32
  {
    if result > 0 then Shifted(result, count) else 1
  }

  /** Our numbers that are also winning. */
  function Matches(card: Card): set<nat>
  {
    card.ours.Keys * card.winning.Keys
  }

  /** Each of our numbers occurs once. */
  predicate Distinct(card: Card)
  {
    forall x :: x in card.ours ==> card.ours[x] == 1
  }

  /** The score of m distinct matches: 0, or 2^(m-1). */
  function DistinctScore(m: nat): nat
  {
    if m == 0 then 0 else Pow2(m - 1)
  }

  lemma {:induction false} Pow2Monotone(a: nat, b: nat)
    requires a <= b
    ensures Pow2(a) <= Pow2(b)
    decreases b
  {
    if a < b {
      Pow2Monotone(a, b - 1);
    }
  }

  /** With distinct numbers, one more match doubles the score, within
      `u32` up to 32 matches. */
  lemma ScoreStepDistinct(m: nat)
    requires m < 32
    ensures ScoreStep(DistinctScore(m), 1) == DistinctScore(m + 1)
  {
    if m > 0 {
      Pow2Monotone(m, 31);
      Pow2Thirty1();
      assert Shifted(Pow2(m - 1), 1) == Pow2(m) % U32_MOD;
    }
  }

  lemma Pow2Thirty1()
    ensures Pow2(31) == 0x8000_0000
  {
    assert Pow2(8) == 0x100;
    assert Pow2(16) == 0x1_0000;
    assert Pow2(24) == 0x100_0000;
  }

  /** What the part 1 fold knows after visiting the numbers in `done`. */
  predicate ScoreSoFar(card: Card, done: set<nat>, result: nat)
  {
    (Distinct(card) && |done * card.winning.Keys| <= 32 ==> result == DistinctScore(|done * card.winning.Keys|))
    && (done * card.winning.Keys == {} ==> result == 0)
  }

  /** Visiting a matching number x advances the fold by one step. */
  lemma ScoreSoFarMatch(card: Card, rest: set<nat>, result: nat, x: nat, next: nat)
    requires rest <= card.ours.Keys && x in rest && x in card.winning
    requires ScoreSoFar(card, card.ours.Keys - rest, result) && (result == 0 || card.ours[x] < 32) && ScoreStep(result, card.ours[x]) == next
    ensures ScoreSoFar(card, card.ours.Keys - (rest - {x}), next)
  {
    var done := card.ours.Keys - rest;
    assert card.ours.Keys - (rest - {x}) == done + {x};
    var before := done * card.winning.Keys;
    assert (done + {x}) * card.winning.Keys == before + {x};
    assert |before + {x}| == |before| + 1;
    if Distinct(card) && |before| + 1 <= 32 {
      ScoreStepDistinct(|before|);
    }
  }

  /** Visiting a number that does not win changes nothing. */
  lemma ScoreSoFarMiss(card: Card, rest: set<nat>, result: nat, x: nat)
    requires rest <= card.ours.Keys && x in rest && x !in card.winning
    requires ScoreSoFar(card, card.ours.Keys - rest, result)
    ensures ScoreSoFar(card, card.ours.Keys - (rest - {x}), result)
  {
    var done := card.ours.Keys - rest;
    assert card.ours.Keys - (rest - {x}) == done + {x};
    assert (done + {x}) * card.winning.Keys == done * card.winning.Keys;
  }

  /** One turn of the part 1 fold, for our number x: a match shifts the
      result (None where the shift panics), a miss keeps it. */
  method Visit(card: Card, rest: set<nat>, result: nat, x: nat) returns (next: Option<nat>)
    requires rest <= card.ours.Keys && x in rest
    requires ScoreSoFar(card, card.ours.Keys - rest, result)
    ensures next.None? ==> x in card.winning && result > 0 && card.ours[x] >= 32
    ensures next.Some? ==> ScoreSoFar(card, card.ours.Keys - (rest - {x}), next.value)
  {
    if x in card.winning {
      if result > 0 && card.ours[x] >= 32 {
        return None;
      }
      var n := ScoreStep(result, card.ours[x]);
      ScoreSoFarMatch(card, rest, result, x, n);
      next := Some(n);
    } else {
      ScoreSoFarMiss(card, rest, result, x);
      next := Some(result);
    }
  }

  /** The part 1 fold over our numbers, in the map's iteration order (which
      is unspecified: any order may be chosen). With distinct numbers and at
      most 32 matches the score is 2^(matches - 1), or 0 without a match;
      it panics only on a matching number that occurs 32 times or more. */
  method CardScore(card: Card) returns (r: Option<nat>)
    ensures Distinct(card) && |Matches(card)| <= 32 ==> r == Some(DistinctScore(|Matches(card)|))
    ensures Matches(card) == {} ==> r == Some(0)
    ensures r.None? ==> exists x :: x in Matches(card) && card.ours[x] >= 32
  {
    ghost var culprit;
    r, culprit := ScoreFold(card);
    assert r.None? ==> culprit in Matches(card);
  }

  /** The loop of `CardScore`. */
  method ScoreFold(card: Card) returns (r: Option<nat>, ghost culprit: nat)
    ensures r.Some? ==> ScoreSoFar(card, card.ours.Keys, r.value)
    ensures r.None? ==> culprit in card.ours && culprit in card.winning && card.ours[culprit] >= 32
  {
    var rest := card.ours.Keys;
    var result: nat := 0;
    ghost var done: set<nat> := {};
    while rest != {}
      invariant rest <= card.ours.Keys && done == card.ours.Keys - rest
      invariant ScoreSoFar(card, done, result)
      decreases |rest|
    {
      var x :| x in rest;
      var next := Visit(card, rest, result, x);
      if next.None? {
        return None, x;
      }
      result := next.value;
      rest := rest - {x};
      done := card.ours.Keys - rest;
    }
    assert done == card.ours.Keys;
    return Some(result), 0;
  }

  /** The sum of the distinct-number scores of the first n cards. */
  function DistinctTotal(cards: seq<Card>, n: nat): nat
    requires n <= |cards|
  {
    if n == 0 then 0 else DistinctTotal(cards, n - 1) + DistinctScore(|Matches(cards[n - 1])|)
  }

  predicate Plain(cards: seq<Card>)
  {
    forall k :: 0 <= k < |cards| ==> Distinct(cards[k]) && |Matches(cards[k])| <= 32
  }

  /** Part 1: the sum of the card scores. With distinct numbers (and at
      most 32 matches per card) it is the sum of 2^(matches - 1). */
  method Part1(lines: seq<string>) returns (r: Option<nat>)
    ensures Plain(Parse(lines)) ==> r == Some(DistinctTotal(Parse(lines), |lines|))
    ensures r.None? ==> exists k, x :: 0 <= k < |lines| && x in Matches(Parse(lines)[k]) && Parse(lines)[k].ours[x] >= 32
  {
    var cards := Parse(lines);
    var total: nat := 0;
    for i := 0 to |cards|
      invariant Plain(cards) ==> total == DistinctTotal(cards, i)
    {
      var score := CardScore(cards[i]);
      if score.None? {
        return None;
      }
      total := total + score.value;
    }
    return Some(total);
  }

  // ---------------------------------------------------------------------
  // Part 2: copies
  // ---------------------------------------------------------------------

  /** `wins`: the counts of our numbers that are winning, summed over the
      given keys (the sum does not depend on the iteration order). */
  ghost function MatchCount(card: Card, keys: set<nat>): nat
    requires keys <= card.ours.Keys
    decreases keys
  {
    if keys == {} then 0
    else
      var x :| x in keys;
      (if x in card.winning then card.ours[x] else 0) + MatchCount(card, keys - {x})
  }

  /** Any key can be summed first. */
  lemma MatchCountRemove(card: Card, keys: set<nat>, y: nat)
    requires keys <= card.ours.Keys && y in keys
    ensures MatchCount(card, keys) == (if y in card.winning then card.ours[y] else 0) + MatchCount(card, keys - {y})
    decreases keys
  {
    var x :| x in keys && MatchCount(card, keys) == (if x in card.winning then card.ours[x] else 0) + MatchCount(card, keys - {x});
    if x != y {
      MatchCountRemove(card, keys - {x}, y);
      MatchCountRemove(card, keys - {y}, x);
      assert keys - {x} - {y} == keys - {y} - {x};
    }
  }

  /** Distinct numbers make `wins` the number of matches. */
  lemma {:induction false} MatchCountDistinct(card: Card, keys: set<nat>)
    requires keys <= card.ours.Keys && Distinct(card)
    ensures MatchCount(card, keys) == |keys * card.winning.Keys|
    decreases keys
  {
    if keys != {} {
      var x :| x in keys;
      MatchCountRemove(card, keys, x);
      MatchCountDistinct(card, keys - {x});
      if x in card.winning {
        assert keys * card.winning.Keys == (keys - {x}) * card.winning.Keys + {x};
      } else {
        assert keys * card.winning.Keys == (keys - {x}) * card.winning.Keys;
      }
    }
  }

  /** Sums the matching counts in the map's (unspecified) order. */
  method Wins(card: Card) returns (w: nat)
    ensures w == MatchCount(card, card.ours.Keys)
  {
    var rest := card.ours.Keys;
    w := 0;
    while rest != {}
      invariant rest <= card.ours.Keys
      invariant w + MatchCount(card, rest) == MatchCount(card, card.ours.Keys)
      decreases |rest|
    {
      var x :| x in rest;
      MatchCountRemove(card, rest, x);
      if x in card.winning {
        w := w + card.ours[x];
      }
      rest := rest - {x};
    }
  }

  /** The wins of every card. */
  ghost function WinsOf(cards: seq<Card>): (ws: seq<nat>)
    ensures |ws| == |cards|
  {
    seq(|cards|, i requires 0 <= i < |cards| => MatchCount(cards[i], cards[i].ours.Keys))
  }

  /** Processing card i: the w cards after it (clipped at the last card)
      each gain as many copies as card i has. */
  function Propagate(c: seq<nat>, i: nat, w: nat): (r: seq<nat>)
    requires i < |c|
    ensures |r| == |c|
  {
    seq(|c|, j requires 0 <= j < |c| => if i < j <= i + w then c[j] + c[i] else c[j])
  }

  /** `cards_type_cnt` after processing the first k cards; every card
      starts with one copy. */
  function CopiesAfter(ws: seq<nat>, k: nat): (r: seq<nat>)
    requires k <= |ws|
    ensures |r| == |ws|
  {
    if k == 0 then seq(|ws|, _ => 1) else Propagate(CopiesAfter(ws, k - 1), k - 1, ws[k - 1])
  }

  /** The copies of card i, defined directly: the original plus one per
      copy of every earlier card whose wins reach card i. */
  function Copies(ws: seq<nat>, i: nat): nat
    requires i < |ws|
    decreases i, 1, 0
  {
    1 + Won(ws, i, i)
  }

  /** The copies card i wins from the first k cards. */
  function Won(ws: seq<nat>, i: nat, k: nat): nat
    requires k <= i < |ws|
    decreases i, 0, k
  {
    if k == 0 then 0 else Won(ws, i, k - 1) + (if i <= k - 1 + ws[k - 1] then Copies(ws, k - 1) else 0)
  }

  /** Before card i is processed, its count is its original plus what the
      cards processed so far gave it. */
  lemma {:induction false} CopiesSoFar(ws: seq<nat>, i: nat, k: nat)
    requires k <= i < |ws|
    ensures CopiesAfter(ws, k)[i] == 1 + Won(ws, i, k)
    decreases i, 0, k
  {
    if k > 0 {
      CopiesSoFar(ws, i, k - 1);
      CopiesWhenProcessed(ws, k - 1);
    }
  }

  /** When card i is processed its count is final: `Copies`. */
  lemma {:induction false} CopiesWhenProcessed(ws: seq<nat>, i: nat)
    requires i < |ws|
    ensures CopiesAfter(ws, i)[i] == Copies(ws, i)
    decreases i, 1, 0
  {
    CopiesSoFar(ws, i, i);
  }

  /** Processing later cards leaves card i (and every earlier card)
      unchanged. */
  lemma {:induction false} CopiesKept(ws: seq<nat>, i: nat, k: nat)
    requires i < k <= |ws|
    ensures CopiesAfter(ws, k)[i] == CopiesAfter(ws, i + 1)[i] == CopiesAfter(ws, i)[i]
    decreases k
  {
    if k > i + 1 {
      CopiesKept(ws, i, k - 1);
    }
  }

  /** The final count of every card is `Copies`, at least 1. */
  lemma FinalCopies(ws: seq<nat>, i: nat)
    requires i < |ws|
    ensures CopiesAfter(ws, |ws|)[i] == Copies(ws, i) >= 1
  {
    CopiesKept(ws, i, |ws|);
    CopiesWhenProcessed(ws, i);
  }

  /** The sum of the copies of the first n cards. */
  function TotalUpTo(ws: seq<nat>, n: nat): nat
    requires n <= |ws|
  {
    if n == 0 then 0 else TotalUpTo(ws, n - 1) + Copies(ws, n - 1)
  }

  /** Every card counts at least once. */
  lemma {:induction false} TotalAtLeast(ws: seq<nat>, n: nat)
    requires n <= |ws|
    ensures TotalUpTo(ws, n) >= n
    decreases n
  {
    if n > 0 {
      TotalAtLeast(ws, n - 1);
    }
  }

  /** The inner loop of part 2: the `wins` cards after card `ind` (those
      that exist) gain its count. */
  method Spread(cnt: array<nat>, ind: nat, wins: nat)
    requires ind < cnt.Length
    modifies cnt
    ensures cnt[..] == Propagate(old(cnt[..]), ind, wins)
  {
    ghost var c := cnt[..];
    var hi := if ind + 1 + wins < cnt.Length then ind + 1 + wins else cnt.Length;
    for next := ind + 1 to hi
      invariant forall j :: 0 <= j < cnt.Length ==> cnt[j] == (if ind < j < next then c[j] + c[ind] else c[j])
    {
      cnt[next] := cnt[next] + cnt[ind];
    }
  }

  /** Part 2: processes the cards in order, adding each card's copies to
      the cards it wins, and sums each card's count when it is processed.
      The answer is the sum of the final counts. */
  method Part2(lines: seq<string>) returns (total: nat)
    ensures total == TotalUpTo(WinsOf(Parse(lines)), |lines|)
  {
    total := TotalCopies(Parse(lines));
  }

  /** The loop of `Part2`, over the parsed cards. */
  method TotalCopies(cards: seq<Card>) returns (total: nat)
    ensures total == TotalUpTo(WinsOf(cards), |cards|)
  {
    var n := |cards|;
    ghost var ws := WinsOf(cards);
    var cnt := new nat[n](_ => 1);
    assert cnt[..] == CopiesAfter(ws, 0);
    total := 0;
    for ind := 0 to n
      invariant cnt.Length == n
      invariant cnt[..] == CopiesAfter(ws, ind)
      invariant total == TotalUpTo(ws, ind)
    {
      var wins := Wins(cards[ind]);
      ghost var c := cnt[..];
      Spread(cnt, ind, wins);
      CopiesWhenProcessed(ws, ind);
      total := total + cnt[ind];
    }
  }
}
