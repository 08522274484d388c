/** Day 2 (Cube Conundrum): each game reveals handfuls of red, green and
    blue cubes. Part 1 adds the indices of the games possible with 12 red,
    13 green and 14 blue cubes; part 2 adds the powers (products of the
    per-colour maxima) of all games. */
module Day2 {
  import opened Common
  import opened Text

  /** One "count colour" entry of a round. */
  datatype Draw = Draw(count: nat, colour: string)

  /** A game: its index and its rounds of draws. */
  datatype Game = Game(index: nat, rounds: seq<seq<Draw>>)

  /** `u32::MAX`, the maximum assumed for a colour that is never drawn. */
  const U32Max: nat := 0xFFFF_FFFF

  /** `CONS`: the colours and how many cubes of each the bag holds. */
  const Limits: seq<(string, nat)> := [("red", 12), ("green", 13), ("blue", 14)]

  // ---------------------------------------------------------------------
  // Parsing
  // ---------------------------------------------------------------------

  /** One draw: the trimmed text split on spaces, a `u32` count first and
      the colour second; either one missing or a bad count panics. */
  function ParseDraw(text: string): (r: Option<Draw>)
    ensures r.Some? <==> var tokens := Split(Trim(text), ' ');
      ParseNat(tokens[0]).Some? && |tokens| >= 2
    ensures r.Some? ==> var tokens := Split(Trim(text), ' ');
      Some(r.value.count) == ParseNat(tokens[0]) && r.value.colour == tokens[1]
  {
    var tokens := Split(Trim(text), ' ');
    match ParseNat(tokens[0])
    case None => None
    case Some(n) => if |tokens| < 2 then None else Some(Draw(n, tokens[1]))
  }

  /** One round: the draws separated by `,`. */
  function ParseRound(text: string): Option<seq<Draw>>
  {
    var parts := Split(text, ',');
    Collect(seq(|parts|, k requires 0 <= k < |parts| => ParseDraw(parts[k])))
  }

  /** The rounds of a game: the trimmed pieces after the index, each parsed
      as a round. */
  function ParseRounds(pieces: seq<string>): Option<seq<seq<Draw>>>
  {
    Collect(seq(|pieces|, k requires 0 <= k < |pieces| => ParseRound(Trim(pieces[k]))))
  }

  /** The last space-separated token of the text before the first `:` or
      `;`, read as the game index. */
  function ParseIndex(head: string): Option<nat>
  {
    var tokens := Split(Trim(head), ' ');
    ParseNat(tokens[|tokens| - 1])
  }

  /** `parse_game` on one line: the line is split on `:` and `;`; the first
      piece names the game and every later piece is a round. */
  function ParseGame(line: string): (r: Option<Game>)
    ensures var pieces := SplitOn(line, {':', ';'});
      r.Some? <==> ParseIndex(pieces[0]).Some? && ParseRounds(pieces[1..]).Some?
    ensures var pieces := SplitOn(line, {':', ';'});
      r.Some? ==> Some(r.value.index) == ParseIndex(pieces[0]) && |r.value.rounds| == |pieces| - 1
  {
    var pieces := SplitOn(line, {':', ';'});
    match ParseIndex(pieces[0])
    case None => None
    case Some(index) =>
      match ParseRounds(pieces[1..])
      case None => None
      case Some(rounds) => Some(Game(index, rounds))
  }

  /** Every line is a game; one malformed line panics. */
  function ParseGames(lines: seq<string>): (r: Option<seq<Game>>)
    ensures r.Some? <==> forall k :: 0 <= k < |lines| ==> ParseGame(lines[k]).Some?
    ensures r.Some? ==> |r.value| == |lines| && forall k :: 0 <= k < |lines| ==> Some(r.value[k]) == ParseGame(lines[k])
  {
    var opts := seq(|lines|, k requires 0 <= k < |lines| => ParseGame(lines[k]));
    CollectExact(opts);
    assert forall k :: 0 <= k < |lines| ==> opts[k] == ParseGame(lines[k]);
    Collect(opts)
  }

  // ---------------------------------------------------------------------
  // Per-colour maxima
  // ---------------------------------------------------------------------

  /** All draws of a game, round after round. */
  function Draws(g: Game): seq<Draw>
  {
    Flatten(g.rounds)
  }

  /** The counts drawn of one colour, in order. */
  function Counts(draws: seq<Draw>, colour: string): seq<nat>
  {
    Present(seq(|draws|, k requires 0 <= k < |draws| =>
      if draws[k].colour == colour then Some(draws[k].count) else None))
  }

  /** `.max().unwrap_or(d)`. */
  function MaxOr(s: seq<nat>, d: nat): (r: nat)
    ensures s == [] ==> r == d
    ensures s != [] ==> r in s && forall k :: 0 <= k < |s| ==> s[k] <= r
  {
    if s == [] then d else MaxOf(s)
  }

  /** A count is drawn of a colour exactly when some draw of that colour
      shows it. */
  lemma CountsMembers(draws: seq<Draw>, colour: string)
    ensures forall x :: x in Counts(draws, colour) <==>
      exists k :: 0 <= k < |draws| && draws[k] == Draw(x, colour)
  {
    var opts := seq(|draws|, k requires 0 <= k < |draws| =>
      if draws[k].colour == colour then Some(draws[k].count) else None);
    PresentMembers(opts);
    forall x | x in Counts(draws, colour)
      ensures exists k :: 0 <= k < |draws| && draws[k] == Draw(x, colour)
    {
      var k :| 0 <= k < |opts| && opts[k] == Some(x);
      assert draws[k] == Draw(x, colour);
    }
    forall x | exists k :: 0 <= k < |draws| && draws[k] == Draw(x, colour)
      ensures x in Counts(draws, colour)
    {
      var k :| 0 <= k < |draws| && draws[k] == Draw(x, colour);
      assert opts[k] == Some(x);
    }
  }

  // ---------------------------------------------------------------------
  // Part 1: possible games
  // ---------------------------------------------------------------------

  /** The largest number of cubes of colour i seen, `u32::MAX` if never. */
  function MostSeen(g: Game, i: nat): nat
    requires i < 3
  {
    MaxOr(Counts(Draws(g), Limits[i].0), U32Max)
  }

  /** A game is possible when, for every colour, the most cubes seen at once
      fit in the bag. */
  predicate Possible(g: Game)
  {
    forall i :: 0 <= i < 3 ==> MostSeen(g, i) <= Limits[i].1
  }

  /** The colour is drawn at least once, and never more than `limit` at a
      time. */
  predicate Fits(draws: seq<Draw>, colour: string, limit: nat)
  {
    (exists k :: 0 <= k < |draws| && draws[k].colour == colour)
    && forall k :: 0 <= k < |draws| && draws[k].colour == colour ==> draws[k].count <= limit
  }

  /** A game is possible exactly when every colour is drawn at least once
      and no draw of it exceeds the bag: a colour never drawn counts as
      `u32::MAX` cubes and makes the game impossible. */
  lemma PossibleIff(g: Game)
    ensures Possible(g) <==> forall i :: 0 <= i < 3 ==> Fits(Draws(g), Limits[i].0, Limits[i].1)
  {
    var draws := Draws(g);
    forall i | 0 <= i < 3
      ensures MostSeen(g, i) <= Limits[i].1 <==> Fits(draws, Limits[i].0, Limits[i].1)
    {
      assert MostSeen(g, i) == MaxOr(Counts(draws, Limits[i].0), U32Max);
      ColourBound(draws, Limits[i].0, Limits[i].1);
    }
  }

  /** The bound on one colour. */
  lemma ColourBound(draws: seq<Draw>, colour: string, limit: nat)
    requires limit < U32Max
    ensures MaxOr(Counts(draws, colour), U32Max) <= limit <==> Fits(draws, colour, limit)
  {
    var s := Counts(draws, colour);
    CountsMembers(draws, colour);
    if exists k :: 0 <= k < |draws| && draws[k].colour == colour {
      var k :| 0 <= k < |draws| && draws[k].colour == colour;
      assert draws[k] == Draw(draws[k].count, colour);
      assert draws[k].count in s;
      var m := MaxOr(s, U32Max);
      assert m in s;
      forall j | 0 <= j < |draws| && draws[j].colour == colour
        ensures draws[j].count <= m
      {
        assert draws[j] == Draw(draws[j].count, colour);
        assert draws[j].count in s;
      }
    }
  }

  /** Part 1: the sum of the indices of the possible games. */
  function Part1(lines: seq<string>): (r: Option<int>)
    ensures r.Some? <==> forall k :: 0 <= k < |lines| ==> ParseGame(lines[k]).Some?
  {
    match ParseGames(lines)
    case None => None
    case Some(games) =>
      Some(Sum(Present(seq(|games|, k requires 0 <= k < |games| =>
        if Possible(games[k]) then Some(games[k].index) else None))))
  }

  // ---------------------------------------------------------------------
  // Part 2: the power of a game
  // ---------------------------------------------------------------------

  /** The most cubes of colour i seen at once, 0 if never. */
  function Fewest(g: Game, i: nat): nat
    requires i < 3
  {
    MaxOr(Counts(Draws(g), Limits[i].0), 0)
  }

  /** The product of the three per-colour maxima. */
  function Power(g: Game): int
  {
    Product(seq(3, i requires 0 <= i < 3 => Fewest(g, i)))
  }

  /** `Fewest` is the least bag size for a colour that explains every draw
      of the game: every draw of it fits, and any smaller bag is beaten by
      some draw, since the largest count is itself drawn. The power is the product of the three. */
  lemma PowerMeaning(g: Game)
    ensures forall i, k :: 0 <= i < 3 && 0 <= k < |Draws(g)| && Draws(g)[k].colour == Limits[i].0 ==>
      Draws(g)[k].count <= Fewest(g, i)
    ensures forall i :: 0 <= i < 3 && Fewest(g, i) > 0 ==>
      exists k :: 0 <= k < |Draws(g)| && Draws(g)[k] == Draw(Fewest(g, i), Limits[i].0)
    ensures Power(g) == Fewest(g, 0) * Fewest(g, 1) * Fewest(g, 2)
  {
    var draws := Draws(g);
    forall i | 0 <= i < 3
      ensures forall k :: 0 <= k < |draws| && draws[k].colour == Limits[i].0 ==> draws[k].count <= Fewest(g, i)
      ensures Fewest(g, i) > 0 ==> exists k :: 0 <= k < |draws| && draws[k] == Draw(Fewest(g, i), Limits[i].0)
    {
      var colour := Limits[i].0;
      var s := Counts(draws, colour);
      CountsMembers(draws, colour);
      forall k | 0 <= k < |draws| && draws[k].colour == colour
        ensures draws[k].count <= Fewest(g, i)
      {
        assert draws[k] == Draw(draws[k].count, colour);
        assert draws[k].count in s;
      }
    }
    var p := seq(3, i requires 0 <= i < 3 => Fewest(g, i));
    assert p[..2] == [p[0], p[1]] && p[..2][..1] == [p[0]] && [p[0]][..0] == [];
    assert Product(p[..2][..1]) == p[0];
    assert Product(p[..2]) == p[0] * p[1];
  }

  /** Part 2: the sum of the powers of all games. */
  function Part2(lines: seq<string>): (r: Option<int>)
    ensures r.Some? <==> forall k :: 0 <= k < |lines| ==> ParseGame(lines[k]).Some?
  {
    match ParseGames(lines)
    case None => None
    case Some(games) => Some(Sum(seq(|games|, k requires 0 <= k < |games| => Power(games[k]))))
  }
}
