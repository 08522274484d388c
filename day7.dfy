/** Day 7 (Camel Cards): hands ranked by type, then card by card, and the
    winnings summed as rank times bid. In part 2 jacks are jokers (`.`):
    they add to the best count and are the weakest card. */
module Day7 {
  import opened Common
  import opened Text
  import opened Sorting

  const U32_MAX: nat := 0xFFFF_FFFF

  /** How many times each card occurs in a hand (`HashMap<char, u32>`). */
  type Cards = map<char, nat>

  /** One parsed line: the card counts, the hand as written and the bid. */
  datatype Entry = Entry(cards: Cards, hand: string, bid: nat)

  /** `cards.get(c).unwrap_or(&0)`. */
  function Get(cards: Cards, c: char): nat
  {
    if c in cards then cards[c] else 0
  }

  // ---------------------------------------------------------------------
  // Counting the cards
  // ---------------------------------------------------------------------

  /** The fold `*hm.entry(card).or_insert(0) += 1` over the first n cards. */
  function CountUpTo(hand: string, n: nat): Cards
    requires n <= |hand|
  {
    if n == 0 then map[]
    else
      var hm := CountUpTo(hand, n - 1);
      hm[hand[n - 1] := Get(hm, hand[n - 1]) + 1]
  }

  function Count(hand: string): Cards
  {
    CountUpTo(hand, |hand|)
  }

  /** The number of occurrences of c among the first n cards. */
  function Occ(hand: string, c: char, n: nat): nat
    requires n <= |hand|
  {
    if n == 0 then 0 else Occ(hand, c, n - 1) + (if hand[n - 1] == c then 1 else 0)
  }

  /** The count map gives each card its number of occurrences, and holds
      exactly the cards of the hand. */
  lemma {:induction false} CountOcc(hand: string, n: nat)
    requires n <= |hand|
    ensures forall c :: Get(CountUpTo(hand, n), c) == Occ(hand, c, n)
    ensures forall c :: c in CountUpTo(hand, n) <==> c in hand[..n]
    decreases n
  {
    if n > 0 {
      CountOcc(hand, n - 1);
      assert hand[..n] == hand[..n - 1] + [hand[n - 1]];
    }
  }

  /** The count of one card in the whole hand. */
  lemma GetCount(hand: string, c: char)
    ensures Get(Count(hand), c) == Occ(hand, c, |hand|)
  {
    CountOcc(hand, |hand|);
  }

  /** Two different cards together occur at most n times in n cards. */
  lemma {:induction false} OccPair(hand: string, a: char, b: char, n: nat)
    requires n <= |hand| && a != b
    ensures Occ(hand, a, n) + Occ(hand, b, n) <= n
    decreases n
  {
    if n > 0 {
      OccPair(hand, a, b, n - 1);
    }
  }

  /** A card that occurs is in the hand. */
  lemma {:induction false} OccPositive(hand: string, c: char, n: nat)
    requires n <= |hand| && Occ(hand, c, n) > 0
    ensures c in hand[..n]
    decreases n
  {
    if hand[n - 1] != c {
      OccPositive(hand, c, n - 1);
      assert hand[..n - 1] == hand[..n][..n - 1];
    }
  }

  /** The occurrences of the first k kinds among the first n cards. */
  function KindsOcc(hand: string, kinds: seq<char>, k: nat, n: nat): nat
    requires k <= |kinds| && n <= |hand|
  {
    if k == 0 then 0 else KindsOcc(hand, kinds, k - 1, n) + Occ(hand, kinds[k - 1], n)
  }

  predicate Distinct(kinds: seq<char>)
  {
    forall a, b :: 0 <= a < b < |kinds| ==> kinds[a] != kinds[b]
  }

  /** One more card adds one to the kind it is, if any. */
  lemma {:induction false} KindsOccStep(hand: string, kinds: seq<char>, k: nat, n: nat)
    requires k <= |kinds| && n < |hand| && Distinct(kinds)
    ensures KindsOcc(hand, kinds, k, n + 1) == KindsOcc(hand, kinds, k, n) + (if hand[n] in kinds[..k] then 1 else 0)
    decreases k
  {
    if k > 0 {
      KindsOccStep(hand, kinds, k - 1, n);
      assert kinds[..k] == kinds[..k - 1] + [kinds[k - 1]];
      if hand[n] == kinds[k - 1] {
        assert hand[n] !in kinds[..k - 1];
      }
    }
  }

  /** No cards, no occurrences. */
  lemma {:induction false} KindsOccNone(hand: string, kinds: seq<char>, k: nat)
    requires k <= |kinds|
    ensures KindsOcc(hand, kinds, k, 0) == 0
    decreases k
  {
    if k > 0 {
      KindsOccNone(hand, kinds, k - 1);
    }
  }

  /** In a hand made of the given kinds the counts add up to its length. */
  lemma {:induction false} KindsOccTotal(hand: string, kinds: seq<char>, n: nat)
    requires n <= |hand| && Distinct(kinds) && forall t :: 0 <= t < |hand| ==> hand[t] in kinds
    ensures KindsOcc(hand, kinds, |kinds|, n) == n
    decreases n
  {
    if n > 0 {
      KindsOccTotal(hand, kinds, n - 1);
      KindsOccStep(hand, kinds, |kinds|, n - 1);
      assert kinds[..|kinds|] == kinds;
      assert hand[n - 1] in kinds;
    } else {
      KindsOccNone(hand, kinds, |kinds|);
    }
  }

  /** The cards from strongest to weakest; `.` is the joker. */
  const Kinds: seq<char> := ['A', 'K', 'Q', 'J', 'T', '9', '8', '7', '6', '5', '4', '3', '2', '.']

  /** Every card but the joker. */
  const KindsNoJ: seq<char> := ['A', 'K', 'Q', 'J', 'T', '9', '8', '7', '6', '5', '4', '3', '2']

  lemma KindsFacts()
    ensures Distinct(Kinds) && |Kinds| == 14 && Kinds[..13] == KindsNoJ && Kinds[13] == '.'
  {
  }

  /** The counts of a hand of valid cards add up to its length. */
  lemma CountsTotal(hand: string)
    requires forall t :: 0 <= t < |hand| ==> hand[t] in Kinds
    ensures KindsOcc(hand, Kinds, |Kinds|, |hand|) == |hand|
  {
    KindsFacts();
    KindsOccTotal(hand, Kinds, |hand|);
  }

  // ---------------------------------------------------------------------
  // The six `has_*` predicates
  // ---------------------------------------------------------------------

  function Jokers(cards: Cards): nat
  {
    Get(cards, '.')
  }

  /** `KINDS_NO_J.iter().any(|kind| count(kind) + j_cnt == target)`. */
  predicate AnyWithJokers(cards: Cards, target: nat)
  {
    exists t :: 0 <= t < |KindsNoJ| && Get(cards, KindsNoJ[t]) + Jokers(cards) == target
  }

  /** `KINDS_NO_J.iter().filter(|kind| count(kind) == v).count()` over the
      first k kinds. */
  function KindsWith(cards: Cards, v: nat, k: nat): nat
    requires k <= |KindsNoJ|
  {
    if k == 0 then 0 else KindsWith(cards, v, k - 1) + (if Get(cards, KindsNoJ[k - 1]) == v then 1 else 0)
  }

  function Threes(cards: Cards): nat
  {
    KindsWith(cards, 3, |KindsNoJ|)
  }

  function Twos(cards: Cards): nat
  {
    KindsWith(cards, 2, |KindsNoJ|)
  }

  predicate FiveOfAKind(cards: Cards)
  {
    AnyWithJokers(cards, 5)
  }

  predicate FourOfAKind(cards: Cards)
  {
    AnyWithJokers(cards, 4)
  }

  predicate FullHouse(cards: Cards)
  {
    var three, two, j := Threes(cards), Twos(cards), Jokers(cards);
    (three == 1 && two == 1) || (two == 2 && j == 1) || (three == 1 && j == 1) || (two == 1 && j == 2) || j == 3
  }

  predicate ThreeOfAKind(cards: Cards)
  {
    var three, two, j := Threes(cards), Twos(cards), Jokers(cards);
    three == 1 || (two == 1 && j == 1) || j == 2
  }

  predicate TwoPair(cards: Cards)
  {
    var two, j := Twos(cards), Jokers(cards);
    two == 2 || (two == 1 && j == 1)
  }

  predicate OnePair(cards: Cards)
  {
    var two, j := Twos(cards), Jokers(cards);
    two == 1 || j == 1
  }

  /** `arr`: the six predicates, strongest type first. */
  const Arr: seq<Cards -> bool> := [FiveOfAKind, FourOfAKind, FullHouse, ThreeOfAKind, TwoPair, OnePair]

  /** `arr.iter().position(|f| f(&cards))` from index t on. */
  function PositionFrom(fs: seq<Cards -> bool>, cards: Cards, t: nat): (r: Option<nat>)
    requires t <= |fs|
    ensures r.None? <==> forall s :: t <= s < |fs| ==> !fs[s](cards)
    ensures r.Some? ==> t <= r.value < |fs| && fs[r.value](cards) && forall s :: t <= s < r.value ==> !fs[s](cards)
    decreases |fs| - t
  {
    if t == |fs| then None
    else if fs[t](cards) then Some(t)
    else PositionFrom(fs, cards, t + 1)
  }

  /** The hand type: the index of the first predicate that holds (0 is the
      strongest), or 10 when none does (`unwrap_or(10)`). */
  function HandType(cards: Cards): nat
  {
    match PositionFrom(Arr, cards, 0)
    case None => 10
    case Some(t) => t
  }

  /** The type is the first predicate that holds, or 10 when none holds. */
  lemma HandTypeFirst(cards: Cards)
    ensures HandType(cards) == 10 <==> forall s :: 0 <= s < 6 ==> !Arr[s](cards)
    ensures HandType(cards) != 10 ==>
      (HandType(cards) < 6 && Arr[HandType(cards)](cards) && forall s :: 0 <= s < HandType(cards) ==> !Arr[s](cards))
  {
  }

  /** A hand that holds no joker and only cards of `KINDS_NO_J`. */
  predicate Plain(hand: string)
  {
    forall t :: 0 <= t < |hand| ==> hand[t] in KindsNoJ
  }

  /** A plain hand holds no joker. */
  lemma PlainNoJokers(hand: string)
    requires Plain(hand)
    ensures Jokers(Count(hand)) == 0
  {
    CountOcc(hand, |hand|);
    assert hand[..|hand|] == hand;
    assert '.' !in KindsNoJ;
    assert '.' !in hand;
  }

  /** Without jokers, `has_five_of_a_kind` and `has_four_of_a_kind` hold
      exactly when some card occurs five (four) times. */
  lemma PlainAnyKind(hand: string, target: nat)
    requires Plain(hand) && target > 0
    ensures AnyWithJokers(Count(hand), target) <==> exists c :: Occ(hand, c, |hand|) == target
  {
    if AnyWithJokers(Count(hand), target) {
      PlainAnyKindSound(hand, target);
    }
    if exists c :: Occ(hand, c, |hand|) == target {
      var c :| Occ(hand, c, |hand|) == target;
      PlainAnyKindComplete(hand, target, c);
    }
  }

  lemma PlainAnyKindSound(hand: string, target: nat)
    requires Plain(hand) && AnyWithJokers(Count(hand), target)
    ensures exists c :: Occ(hand, c, |hand|) == target
  {
    var cards := Count(hand);
    PlainNoJokers(hand);
    var t :| 0 <= t < |KindsNoJ| && Get(cards, KindsNoJ[t]) + Jokers(cards) == target;
    GetCount(hand, KindsNoJ[t]);
  }

  lemma PlainAnyKindComplete(hand: string, target: nat, c: char)
    requires Plain(hand) && target > 0 && Occ(hand, c, |hand|) == target
    ensures AnyWithJokers(Count(hand), target)
  {
    var cards := Count(hand);
    PlainNoJokers(hand);
    GetCount(hand, c);
    OccPositive(hand, c, |hand|);
    assert hand[..|hand|] == hand;
    var i :| 0 <= i < |hand| && hand[i] == c;
    assert c in KindsNoJ;
    var k :| 0 <= k < |KindsNoJ| && KindsNoJ[k] == c;
    assert Get(cards, KindsNoJ[k]) + Jokers(cards) == target;
  }

  /** Five jokers make five of a kind. */
  lemma FiveJokers()
    ensures HandType(Count(".....")) == 0
  {
    var cards := Count(".....");
    CountOcc(".....", 5);
    assert Jokers(cards) == 5;
    assert Get(cards, KindsNoJ[0]) + Jokers(cards) == 5;
  }

  /** The largest count of a non-joker kind among the first k. */
  function BestNoJ(cards: Cards, k: nat): nat
    requires k <= |KindsNoJ|
  {
    if k == 0 then 0
    else
      var b := BestNoJ(cards, k - 1);
      var c := Get(cards, KindsNoJ[k - 1]);
      if c > b then c else b
  }

  lemma {:induction false} BestNoJBounds(cards: Cards, k: nat)
    requires k <= |KindsNoJ|
    ensures forall t :: 0 <= t < k ==> Get(cards, KindsNoJ[t]) <= BestNoJ(cards, k)
    ensures k > 0 ==> exists t :: 0 <= t < k && Get(cards, KindsNoJ[t]) == BestNoJ(cards, k)
    decreases k
  {
    if k > 0 {
      BestNoJBounds(cards, k - 1);
      if k > 1 && Get(cards, KindsNoJ[k - 1]) <= BestNoJ(cards, k - 1) {
        var t :| 0 <= t < k - 1 && Get(cards, KindsNoJ[t]) == BestNoJ(cards, k - 1);
        assert Get(cards, KindsNoJ[t]) == BestNoJ(cards, k);
      } else {
        assert Get(cards, KindsNoJ[k - 1]) == BestNoJ(cards, k);
      }
    }
  }

  /** In a five-card hand the jokers join the best count: five of a kind
      holds exactly when the best non-joker count plus the jokers is 5. */
  lemma JokersJoinBest(hand: string)
    requires |hand| == 5
    ensures FiveOfAKind(Count(hand)) <==> BestNoJ(Count(hand), 13) + Jokers(Count(hand)) == 5
  {
    var cards := Count(hand);
    BestNoJBounds(cards, 13);
    forall t | 0 <= t < 13
      ensures Get(cards, KindsNoJ[t]) + Jokers(cards) <= 5
    {
      GetCount(hand, KindsNoJ[t]);
      GetCount(hand, '.');
      OccPair(hand, KindsNoJ[t], '.', 5);
    }
  }

  // ---------------------------------------------------------------------
  // The comparator of `sort_by`
  // ---------------------------------------------------------------------

  /** `KINDS.iter().position(|x| x == &c)`. */
  function KindIndex(c: char): Option<nat>
  {
    IndexFrom(Kinds, c, 0)
  }

  function IndexFrom(kinds: seq<char>, c: char, t: nat): (r: Option<nat>)
    requires t <= |kinds|
    ensures r.Some? ==> t <= r.value < |kinds| && kinds[r.value] == c
    ensures r.None? <==> c !in kinds[t..]
    decreases |kinds| - t
  {
    if t == |kinds| then None
    else if kinds[t] == c then Some(t)
    else IndexFrom(kinds, c, t + 1)
  }

  /** `zip(...).find(|(a, b)| a != b)` from position t: the first position
      where the hands differ, within the shorter hand. */
  function FirstDiff(a: string, b: string, t: nat): (r: Option<nat>)
    ensures r.Some? ==>
      (t <= r.value < |a| && r.value < |b| && a[r.value] != b[r.value] && forall s :: t <= s < r.value ==> a[s] == b[s])
    ensures r.None? ==> forall s :: t <= s < |a| && s < |b| ==> a[s] == b[s]
    decreases |a| - t
  {
    if t >= |a| || t >= |b| then None
    else if a[t] != b[t] then Some(t)
    else FirstDiff(a, b, t + 1)
  }

  /** The body of the closure given to `sort_by`, once the two types ta and
      tb are known: the weaker type first (`b_.cmp(&a_)`), then, at the first
      differing card, the card later in `KINDS` first. None when it panics:
      no differing card, or a card outside `KINDS`. */
  function CompareHands(ta: nat, tb: nat, a: string, b: string): Option<Ordering>
  {
    if tb != ta then Some(Cmp(tb, ta)) else TieBreak(a, b)
  }

  /** The `Ordering::Equal` arm: the first differing card decides. */
  function TieBreak(a: string, b: string): Option<Ordering>
  {
    match FirstDiff(a, b, 0)
    case None => None
    case Some(t) =>
      match (KindIndex(a[t]), KindIndex(b[t]))
      case (Some(ka), Some(kb)) => Some(Cmp(kb, ka))
      case _ => None
  }

  /** The closure given to `sort_by`. */
  function Compare(x: Entry, y: Entry): Option<Ordering>
  {
    CompareHands(HandType(x.cards), HandType(y.cards), x.hand, y.hand)
  }

  /** The first difference is where the prefixes stop agreeing. */
  lemma {:induction false} FirstDiffAt(a: string, b: string, t: nat, i: nat)
    requires t <= i < |a| && i < |b| && a[i] != b[i]
    requires forall s :: t <= s < i ==> a[s] == b[s]
    ensures FirstDiff(a, b, t) == Some(i)
    decreases i - t
  {
    if t < i {
      FirstDiffAt(a, b, t + 1, i);
    }
  }

  lemma {:induction false} FirstDiffSymmetric(a: string, b: string, t: nat)
    ensures FirstDiff(b, a, t) == FirstDiff(a, b, t)
    decreases |a| - t
  {
    if t < |a| && t < |b| && a[t] == b[t] {
      FirstDiffSymmetric(a, b, t + 1);
    }
  }

  /** Swapping the arguments reverses the answer, and panics alike. */
  lemma HandsSwap(ta: nat, tb: nat, a: string, b: string)
    ensures CompareHands(tb, ta, b, a) == Reversed(CompareHands(ta, tb, a, b))
  {
    FirstDiffSymmetric(a, b, 0);
  }

  /** The comparator never answers Equal: different types differ, and two
      different cards sit at different places of `KINDS`. */
  lemma HandsNotEqual(ta: nat, tb: nat, a: string, b: string)
    ensures CompareHands(ta, tb, a, b) != Some(Equal)
  {
  }

  /** The order is transitive: by type first, then lexicographically on the
      places of the cards in `KINDS`. */
  lemma HandsTransitive(ta: nat, tb: nat, tc: nat, a: string, b: string, c: string)
    requires CompareHands(ta, tb, a, b) == Some(Less) && CompareHands(tb, tc, b, c) == Some(Less)
    ensures CompareHands(ta, tc, a, c) == Some(Less)
  {
    if ta == tb && tb == tc {
      TieBreakTransitive(a, b, c);
    }
  }

  lemma TieBreakTransitive(a: string, b: string, c: string)
    requires TieBreak(a, b) == Some(Less) && TieBreak(b, c) == Some(Less)
    ensures TieBreak(a, c) == Some(Less)
  {
    var i := FirstDiff(a, b, 0).value;
    var j := FirstDiff(b, c, 0).value;
    if i < j {
      assert c[i] == b[i];
      FirstDiffAt(a, c, 0, i);
    } else if j < i {
      assert a[j] == b[j];
      FirstDiffAt(a, c, 0, j);
    } else {
      var ka, kb, kc := KindIndex(a[i]).value, KindIndex(b[i]).value, KindIndex(c[i]).value;
      assert kc < kb < ka;
      assert a[i] != c[i];
      FirstDiffAt(a, c, 0, i);
    }
  }

  /** Hands of one length made of `KINDS` cards are always comparable when
      they differ. */
  lemma HandsDefined(ta: nat, tb: nat, a: string, b: string)
    requires |a| == |b| && a != b
    requires forall t :: 0 <= t < |a| ==> a[t] in Kinds
    requires forall t :: 0 <= t < |b| ==> b[t] in Kinds
    ensures CompareHands(ta, tb, a, b).Some?
  {
    if ta == tb {
      var i :| 0 <= i < |a| && a[i] != b[i];
      var t := FirstDiff(a, b, 0).value;
      assert Kinds[0..] == Kinds;
    }
  }

  /** The place of the joker in `KINDS`: last. */
  lemma JokerIndex()
    ensures KindIndex('.') == Some(13)
  {
    KindsFacts();
    var k := KindIndex('.');
    assert '.' in Kinds[0..];
    assert k.value == 13 by {
      assert Kinds[k.value] == '.';
    }
  }

  /** Between hands of one type, a joker at the first differing place loses
      to any other card. */
  lemma JokerWeakest(t: nat, a: string, b: string, i: nat)
    requires FirstDiff(a, b, 0) == Some(i)
    requires a[i] == '.' && b[i] in Kinds
    ensures CompareHands(t, t, a, b) == Some(Less)
  {
    JokerIndex();
    KindsFacts();
    assert b[i] in Kinds[0..];
    var kb := KindIndex(b[i]).value;
    assert kb != 13 by {
      assert Kinds[kb] == b[i] && b[i] != '.';
    }
    assert CompareHands(t, t, a, b) == Some(Cmp(kb, 13));
  }

  lemma CompareSwap(x: Entry, y: Entry)
    ensures Compare(y, x) == Reversed(Compare(x, y))
  {
    HandsSwap(HandType(x.cards), HandType(y.cards), x.hand, y.hand);
  }

  lemma CompareNotEqual(x: Entry, y: Entry)
    ensures Compare(x, y) != Some(Equal)
  {
    HandsNotEqual(HandType(x.cards), HandType(y.cards), x.hand, y.hand);
  }

  /** x sorts strictly before y. */
  predicate Before(x: Entry, y: Entry)
  {
    Compare(x, y) == Some(Less)
  }

  lemma BeforeAsymmetric(x: Entry, y: Entry)
    requires Before(x, y)
    ensures !Before(y, x)
  {
    CompareSwap(x, y);
  }

  lemma BeforeTransitive(x: Entry, y: Entry, z: Entry)
    requires Before(x, y) && Before(y, z)
    ensures Before(x, z)
  {
    HandsTransitive(HandType(x.cards), HandType(y.cards), HandType(z.cards), x.hand, y.hand, z.hand);
  }

  /** Two identical parsed hands make the comparator panic: same type, and
      no differing card for `find`. */
  lemma CompareIdentical(x: Entry, y: Entry)
    requires x.cards == Count(x.hand) && y.cards == Count(y.hand) && x.hand == y.hand
    ensures Compare(x, y) == None
  {
  }

  /** Parsed hands of one length made of `KINDS` cards are comparable
      exactly when they differ. */
  lemma CompareDefined(x: Entry, y: Entry)
    requires |x.hand| == |y.hand|
    requires x.cards == Count(x.hand) && y.cards == Count(y.hand)
    requires forall t :: 0 <= t < |x.hand| ==> x.hand[t] in Kinds
    requires forall t :: 0 <= t < |y.hand| ==> y.hand[t] in Kinds
    ensures Compare(x, y).Some? <==> x.hand != y.hand
  {
    if x.hand != y.hand {
      HandsDefined(HandType(x.cards), HandType(y.cards), x.hand, y.hand);
    }
  }

  /** The comparator is a strict order where it answers, which is what
      `sort_by` needs. */
  lemma CompareOrder()
    ensures Antisymmetric(Compare) && Transitive(Compare) && NeverEqual(Compare)
  {
    forall x, y
      ensures Compare(y, x) == Reversed(Compare(x, y))
    {
      CompareSwap(x, y);
    }
    forall x, y, z | NotAfter(Compare, x, y) && NotAfter(Compare, y, z)
      ensures NotAfter(Compare, x, z)
    {
      CompareNotEqual(x, y);
      CompareNotEqual(y, z);
      BeforeTransitive(x, y, z);
    }
    forall x, y
      ensures Compare(x, y) != Some(Equal)
    {
      CompareNotEqual(x, y);
    }
  }

  // ---------------------------------------------------------------------
  // Winnings, parsing and the two parts
  // ---------------------------------------------------------------------

  /** The winnings of the first n ranked entries: rank (from 1) times bid. */
  function WinningsUpTo(s: seq<Entry>, n: nat): nat
    requires n <= |s|
  {
    if n == 0 then 0 else WinningsUpTo(s, n - 1) + n * s[n - 1].bid
  }

  function Winnings(s: seq<Entry>): nat
  {
    WinningsUpTo(s, |s|)
  }

  /** Raising one bid never lowers the winnings. */
  lemma {:induction false} WinningsMonotone(s: seq<Entry>, k: nat, bid: nat, n: nat)
    requires k < |s| && n <= |s| && bid >= s[k].bid
    ensures WinningsUpTo(s, n) <= WinningsUpTo(s[k := s[k].(bid := bid)], n)
    decreases n
  {
    if n > 0 {
      WinningsMonotone(s, k, bid, n - 1);
      MulMonotone(n, s[n - 1].bid, s[k := s[k].(bid := bid)][n - 1].bid);
    }
  }

  lemma MulMonotone(a: nat, b: nat, c: nat)
    requires b <= c
    ensures a * b <= a * c
  {
  }

  /** `solve`: sorts the entries, then sums rank times bid. The ranking is
      a sorted permutation of the entries (unique, by `SortedUnique`), and
      the sort only fails when two entries are not comparable. */
  method Solve(data: seq<Entry>) returns (r: Option<nat>, ranked: seq<Entry>)
    ensures multiset(ranked) == multiset(data)
    ensures r.Some? ==> Sorted(Compare, ranked) && r.value == Winnings(ranked)
    ensures r.None? ==> !Comparable(Compare, ranked)
    ensures Comparable(Compare, data) ==> r.Some?
  {
    var a := new Entry[|data|](k requires 0 <= k < |data| => data[k]);
    assert a[..] == data;
    CompareOrder();
    var ok := SortBy(a, Compare, _ => 0);
    ranked := a[..];
    if !ok {
      return None, ranked;
    }
    return Some(Winnings(ranked)), ranked;
  }

  /** The whitespace of "a b" when a and b have none. */
  lemma WordsPair(a: string, b: string)
    requires a != [] && b != []
    requires forall k :: 0 <= k < |a| ==> !IsWhitespace(a[k])
    requires forall k :: 0 <= k < |b| ==> !IsWhitespace(b[k])
    ensures Words(a + " " + b) == [a, b]
  {
    var line := a + " " + b;
    var ws := set x: char | x in line && IsWhitespace(x);
    forall x | x in line && IsWhitespace(x)
      ensures x == ' '
    {
      assert x in a || x == ' ' || x in b;
    }
    assert line[|a|] == ' ';
    assert ws == {' '};
    assert line == a + [' '] + b;
    SplitOnFirst(a, ' ', b, ws);
    SplitOnNone(b, ws);
    assert SplitOn(line, ws) == [a, b];
    assert [a, b][1..] == [b] && [b][1..] == [];
    assert NonEmpty([a, b]) == [a] + NonEmpty([b]);
    assert NonEmpty([b]) == [b] + NonEmpty([]);
  }

  /** One line: the hand, then the bid as a `u32`; fewer than two words or
      a bid that does not parse panics. */
  function ParseEntry(line: string): (r: Option<Entry>)
    ensures r.Some? ==> r.value.cards == Count(r.value.hand) && r.value.bid <= U32_MAX
  {
    var words := Words(line);
    if |words| < 2 then None
    else
      match ParseNat(words[1])
      case None => None
      case Some(bid) =>
        if bid > U32_MAX then None else Some(Entry(Count(words[0]), words[0], bid))
  }

  /** A line written as "hand bid" reads back as that hand, its card counts
      and that bid. */
  lemma ParseEntryFormatted(hand: string, bid: nat)
    requires hand != [] && bid <= U32_MAX
    requires forall k :: 0 <= k < |hand| ==> !IsWhitespace(hand[k])
    ensures ParseEntry(hand + " " + NatToDecimal(bid)) == Some(Entry(Count(hand), hand, bid))
  {
    WordsPair(hand, NatToDecimal(bid));
    NatToDecimalRoundTrip(bid);
  }

  /** The lines parsed; None once one of them panics. */
  function Parse(lines: seq<string>): Option<seq<Entry>>
  {
    Collect(seq(|lines|, k requires 0 <= k < |lines| => ParseEntry(lines[k])))
  }

  /** Parsing succeeds exactly when every line parses, and entry k is line
      k parsed. */
  lemma ParseExact(lines: seq<string>)
    ensures Parse(lines).Some? <==> forall k :: 0 <= k < |lines| ==> ParseEntry(lines[k]).Some?
    ensures Parse(lines).Some? ==> forall k :: 0 <= k < |lines| ==> ParseEntry(lines[k]) == Some(Parse(lines).value[k])
  {
    var opts := seq(|lines|, k requires 0 <= k < |lines| => ParseEntry(lines[k]));
    CollectExact(opts);
    assert forall k :: 0 <= k < |lines| ==> opts[k] == ParseEntry(lines[k]);
  }

  /** `line.replace("J", ".")`. */
  function ReplaceJ(line: string): string
  {
    seq(|line|, k requires 0 <= k < |line| => if line[k] == 'J' then '.' else line[k])
  }

  /** After the replacement the jokers are the former jacks and jokers, and
      no jack is left. */
  lemma {:induction false} ReplaceJCounts(hand: string, n: nat)
    requires n <= |hand|
    ensures Occ(ReplaceJ(hand), '.', n) == Occ(hand, '.', n) + Occ(hand, 'J', n)
    ensures Occ(ReplaceJ(hand), 'J', n) == 0
    decreases n
  {
    if n > 0 {
      ReplaceJCounts(hand, n - 1);
    }
  }

  /** s ranks the entries of data: it is a sorted permutation of them. */
  predicate Ranks(data: seq<Entry>, s: seq<Entry>)
  {
    multiset(s) == multiset(data) && Sorted(Compare, s)
  }

  /** The ranking is unique, so the winnings do not depend on the sorting
      algorithm. */
  lemma RanksUnique(data: seq<Entry>, s: seq<Entry>, t: seq<Entry>)
    requires Ranks(data, s) && Ranks(data, t)
    ensures s == t && Winnings(s) == Winnings(t)
  {
    CompareOrder();
    SortedUnique(Compare, s, t);
  }

  /** Distinct five-card hands of `KINDS` cards, as parsed, are pairwise
      comparable, so sorting them cannot panic. */
  lemma DistinctHandsComparable(data: seq<Entry>)
    requires forall k :: 0 <= k < |data| ==> data[k].cards == Count(data[k].hand) && |data[k].hand| == 5
    requires forall k, t :: 0 <= k < |data| && 0 <= t < |data[k].hand| ==> data[k].hand[t] in Kinds
    requires forall p, q :: 0 <= p < |data| && 0 <= q < |data| && p != q ==> data[p].hand != data[q].hand
    ensures Comparable(Compare, data)
  {
    forall p, q | 0 <= p < |data| && 0 <= q < |data| && p != q
      ensures Compare(data[p], data[q]).Some?
    {
      CompareDefined(data[p], data[q]);
    }
  }

  /** Part 1: the winnings of the ranked entries, when the input parses and
      the sort does not panic. */
  method Part1(lines: seq<string>) returns (r: Option<nat>)
    ensures r.Some? ==> Parse(lines).Some? && exists s :: Ranks(Parse(lines).value, s) && r.value == Winnings(s)
    ensures Parse(lines).Some? && Comparable(Compare, Parse(lines).value) ==> r.Some?
  {
    var data := Parse(lines);
    if data.None? {
      return None;
    }
    var ranked;
    r, ranked := Solve(data.value);
    if r.Some? {
      assert Ranks(data.value, ranked);
    }
  }

  function ReplaceLines(lines: seq<string>): seq<string>
  {
    seq(|lines|, k requires 0 <= k < |lines| => ReplaceJ(lines[k]))
  }

  /** Part 2: part 1 on the lines with every jack turned into a joker. */
  method Part2(lines: seq<string>) returns (r: Option<nat>)
    ensures r.Some? ==>
      (Parse(ReplaceLines(lines)).Some? && exists s :: Ranks(Parse(ReplaceLines(lines)).value, s) && r.value == Winnings(s))
    ensures Parse(ReplaceLines(lines)).Some? && Comparable(Compare, Parse(ReplaceLines(lines)).value) ==> r.Some?
  {
    r := Part1(ReplaceLines(lines));
  }
}
